/**
 Worked histories on concrete stores: an affordable withdrawal followed by an
 unaffordable one, a deposit resolved twice, and non-positive requests.
 Amounts are in cents.
 */
module Scenarios {
  import opened Wrappers
  import opened LedgerStore
  import opened Lifecycle

  /**
   Balance 100.00; WITHDRAW 60.00 approved leaves 40.00; WITHDRAW 50.00 is
   then auto-rejected and the balance stays 40.00.
   */
  lemma WithdrawThenOverdraw()
    ensures var l0 := Opening(map[7 := 10000]);
      var c1 := CreateTransaction(l0, 7, Withdraw, 6000);
      && c1.Success?
      && var r1 := Resolve(c1.value.ledger, c1.value.id, Approve);
      && r1 == Success(Resolved(Approved, false, r1.value.ledger))
      && r1.value.ledger.balances[7] == 4000
      && var c2 := CreateTransaction(r1.value.ledger, 7, Withdraw, 5000);
      && c2.Success?
      && var r2 := Resolve(c2.value.ledger, c2.value.id, Approve);
      && r2 == Success(Resolved(Rejected, true, r2.value.ledger))
      && r2.value.ledger.balances[7] == 4000
  {
  }

  /** DEPOSIT 25.00 approved on 40.00 gives 65.00; resolving it again is NotPending. */
  lemma DepositThenResolveAgain()
    ensures var l0 := Opening(map[7 := 4000]);
      var c := CreateTransaction(l0, 7, Deposit, 2500);
      && c.Success?
      && var r := Resolve(c.value.ledger, c.value.id, Approve);
      && r.Success? && r.value.status == Approved
      && r.value.ledger.balances[7] == 6500
      && Resolve(r.value.ledger, c.value.id, Approve) == Failure(NotPending)
      && Resolve(r.value.ledger, c.value.id, Reject) == Failure(NotPending)
  {
  }

  /** Requests for 0 or for -5.00 are refused and write nothing. */
  lemma NonPositiveRequests()
    ensures var l0 := Opening(map[7 := 4000]);
      && CreateTransaction(l0, 7, Deposit, 0) == Failure(InvalidAmount)
      && CreateTransaction(l0, 7, Withdraw, -500) == Failure(InvalidAmount)
      && Step(l0, Create(7, Withdraw, -500)) == l0
      && Step(l0, Create(7, Deposit, 0)) == l0
  {
  }
}
