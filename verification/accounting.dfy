/**
 Balance accounting over whole histories: every balance equals its opening
 value plus the approved deposits minus the approved withdrawals on that
 account, no balance goes negative, and resolved transactions stay resolved.
 */
module Accounting {
  import opened Wrappers
  import opened LedgerStore
  import opened Lifecycle

  /** What transaction `i` adds to the approved total of kind `k` on account `a`. */
  function Contribution(txs: map<TxId, Tx>, a: AccountId, k: Kind, i: TxId): nat {
    if i in txs && txs[i].account == a && txs[i].kind == k && txs[i].status == Approved
    then txs[i].amount else 0
  }

  /** Sum of the approved amounts of kind `k` on account `a` among ids below `n`. */
  function ApprovedTotal(txs: map<TxId, Tx>, a: AccountId, k: Kind, n: nat): nat {
    if n == 0 then 0 else ApprovedTotal(txs, a, k, n - 1) + Contribution(txs, a, k, n - 1)
  }

  /** Number of approved transactions of kind `k` on account `a` among ids below `n`. */
  function ApprovedCount(txs: map<TxId, Tx>, a: AccountId, k: Kind, n: nat): nat {
    if n == 0 then 0
    else ApprovedCount(txs, a, k, n - 1) + (if Contribution(txs, a, k, n - 1) > 0 then 1 else 0)
  }

  /** Approved deposits minus approved withdrawals on account `a`. */
  function Net(l: Ledger, a: AccountId): int {
    ApprovedTotal(l.txs, a, Deposit, l.nextId) - ApprovedTotal(l.txs, a, Withdraw, l.nextId)
  }

  /** Every balance is its opening value moved by exactly the approved transactions. */
  ghost predicate Consistent(opening: map<AccountId, nat>, l: Ledger) {
    && l.balances.Keys == opening.Keys
    && forall a :: a in l.balances ==> l.balances[a] == opening[a] + Net(l, a)
  }

  /** Changing one transaction changes a total by that transaction's contributions only. */
  lemma {:induction false} TotalFrame(txs: map<TxId, Tx>, txs': map<TxId, Tx>, a: AccountId, k: Kind, n: nat, j: TxId)
    requires forall i :: 0 <= i < n && i != j ==> Contribution(txs', a, k, i) == Contribution(txs, a, k, i)
    ensures ApprovedTotal(txs', a, k, n) ==
      ApprovedTotal(txs, a, k, n) + (if j < n then Contribution(txs', a, k, j) - Contribution(txs, a, k, j) else 0)
  {
    if n > 0 {
      TotalFrame(txs, txs', a, k, n - 1, j);
    }
  }

  /** No id at or above `nextId` contributes to any total. */
  lemma {:induction false} TotalPastNext(l: Ledger, a: AccountId, k: Kind, n: nat)
    requires IdsBelowNext(l)
    requires l.nextId <= n
    ensures ApprovedTotal(l.txs, a, k, n) == ApprovedTotal(l.txs, a, k, l.nextId)
  {
    if n > l.nextId {
      TotalPastNext(l, a, k, n - 1);
    }
  }

  /** Resolving a pending transaction to status `s` moves totals only when `s` is Approved. */
  lemma TotalAfterResolve(txs: map<TxId, Tx>, id: TxId, s: Status, a: AccountId, k: Kind, n: nat)
    requires id in txs && txs[id].status == Pending && id < n
    ensures ApprovedTotal(txs[id := txs[id].(status := s)], a, k, n) ==
      ApprovedTotal(txs, a, k, n) +
      (if s == Approved && txs[id].account == a && txs[id].kind == k then txs[id].amount else 0)
  {
    TotalFrame(txs, txs[id := txs[id].(status := s)], a, k, n, id);
  }

  /** A successful create keeps every balance equation. */
  lemma CreatePreservesConsistent(opening: map<AccountId, nat>, l: Ledger, account: AccountId, kind: Kind, amount: int)
    requires Valid(l) && Consistent(opening, l)
    requires CreateTransaction(l, account, kind, amount).Success?
    ensures Consistent(opening, CreateTransaction(l, account, kind, amount).value.ledger)
  {
    var l' := CreateTransaction(l, account, kind, amount).value.ledger;
    forall a, k | a in l.balances
      ensures ApprovedTotal(l'.txs, a, k, l'.nextId) == ApprovedTotal(l.txs, a, k, l.nextId)
    {
      TotalFrame(l.txs, l'.txs, a, k, l'.nextId, l.nextId);
      TotalPastNext(l, a, k, l'.nextId);
    }
    forall a | a in l'.balances
      ensures l'.balances[a] == opening[a] + Net(l', a)
    {
      assert Net(l', a) == Net(l, a);
    }
  }

  /** A successful resolve keeps every balance equation. */
  lemma ResolvePreservesConsistent(opening: map<AccountId, nat>, l: Ledger, id: TxId, d: Decision)
    requires Valid(l) && Consistent(opening, l)
    requires Resolve(l, id, d).Success?
    ensures Consistent(opening, Resolve(l, id, d).value.ledger)
  {
    var res := Resolve(l, id, d).value;
    var l' := res.ledger;
    var tx := l.txs[id];
    assert l'.txs == l.txs[id := tx.(status := res.status)];
    forall a | a in l'.balances
      ensures l'.balances[a] == opening[a] + Net(l', a)
    {
      TotalAfterResolve(l.txs, id, res.status, a, Deposit, l.nextId);
      TotalAfterResolve(l.txs, id, res.status, a, Withdraw, l.nextId);
    }
  }

  /** One step keeps the store valid and every balance equation. */
  lemma StepPreservesConsistent(opening: map<AccountId, nat>, l: Ledger, op: Op)
    requires Valid(l) && Consistent(opening, l)
    ensures Consistent(opening, Step(l, op))
  {
    match op
    case Create(a, k, amt) =>
      if CreateTransaction(l, a, k, amt).Success? {
        CreatePreservesConsistent(opening, l, a, k, amt);
      }
    case Decide(id, d) =>
      if Resolve(l, id, d).Success? {
        ResolvePreservesConsistent(opening, l, id, d);
      }
  }

  /**
   Across any sequence of creates and resolves, every balance stays
   non-negative and equals its opening value plus approved deposits minus
   approved withdrawals.
   */
  lemma {:induction false} RunPreservesConsistent(opening: map<AccountId, nat>, l: Ledger, ops: seq<Op>)
    requires Valid(l) && Consistent(opening, l)
    ensures Valid(Run(l, ops)) && Consistent(opening, Run(l, ops))
    decreases |ops|
  {
    if |ops| > 0 {
      StepPreservesConsistent(opening, l, ops[0]);
      RunPreservesConsistent(opening, Step(l, ops[0]), ops[1..]);
    }
  }

  /** The balance equation and the no-overdraft guarantee from a freshly opened store. */
  lemma BalanceEquation(opening: map<AccountId, nat>, ops: seq<Op>)
    ensures var l := Run(Opening(opening), ops);
      && l.balances.Keys == opening.Keys
      && forall a :: a in l.balances ==>
           && l.balances[a] >= 0
           && l.balances[a] == opening[a] + ApprovedTotal(l.txs, a, Deposit, l.nextId)
                                          - ApprovedTotal(l.txs, a, Withdraw, l.nextId)
  {
    RunPreservesConsistent(opening, Opening(opening), ops);
  }

  /** With every withdrawal on `a` for the same amount `m`, the approved total is `m` per approval. */
  lemma {:induction false} UniformTotal(txs: map<TxId, Tx>, a: AccountId, m: nat, n: nat)
    requires forall i :: 0 <= i < n && i in txs && txs[i].account == a && txs[i].kind == Withdraw ==>
      txs[i].amount == m
    requires m > 0
    ensures ApprovedTotal(txs, a, Withdraw, n) == m * ApprovedCount(txs, a, Withdraw, n)
  {
    if n > 0 {
      UniformTotal(txs, a, m, n - 1);
    }
  }

  /**
   Serialised approvals never overdraw: when all withdrawals on an account
   ask for the same amount `m`, the number ever approved times `m` is at most
   the opening balance plus approved deposits, that is, at most
   floor(funds / m) of them are approved.
   */
  lemma WithdrawalApprovalsBounded(opening: map<AccountId, nat>, l: Ledger, a: AccountId, m: nat)
    requires Valid(l) && Consistent(opening, l)
    requires a in l.balances && m > 0
    requires forall i :: i in l.txs && l.txs[i].account == a && l.txs[i].kind == Withdraw ==>
      l.txs[i].amount == m
    ensures m * ApprovedCount(l.txs, a, Withdraw, l.nextId) <=
      opening[a] + ApprovedTotal(l.txs, a, Deposit, l.nextId)
  {
    UniformTotal(l.txs, a, m, l.nextId);
  }

  /** A resolved transaction is never touched again, whatever actions follow. */
  lemma {:induction false} RunKeepsResolved(l: Ledger, ops: seq<Op>, id: TxId)
    requires Valid(l)
    requires id in l.txs && l.txs[id].status != Pending
    ensures id in Run(l, ops).txs && Run(l, ops).txs[id] == l.txs[id]
    decreases |ops|
  {
    if |ops| > 0 {
      var l' := Step(l, ops[0]);
      assert id in l'.txs && l'.txs[id] == l.txs[id];
      RunKeepsResolved(l', ops[1..], id);
    }
  }

  /**
   Exactly-once resolution: after a transaction has been resolved, any later
   attempt to resolve it, after any further actions and with either
   decision, fails with NotPending and leaves the store unchanged.
   */
  lemma ResolveIsFinal(l: Ledger, id: TxId, d: Decision, ops: seq<Op>, d': Decision)
    requires Valid(l) && Resolve(l, id, d).Success?
    ensures var later := Run(Resolve(l, id, d).value.ledger, ops);
      && Resolve(later, id, d') == Failure(NotPending)
      && Step(later, Decide(id, d')) == later
  {
    RunKeepsResolved(Resolve(l, id, d).value.ledger, ops, id);
  }
}
