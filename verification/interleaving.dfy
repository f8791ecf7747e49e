/**
 The resolve action split into the two phases the code actually runs: a read
 of the transaction row that checks it is PENDING, done outside any locked
 scope, and a write phase that acts on that earlier snapshot. Two accountants
 whose phases interleave both pass the check; the write phase as written never
 looks at the status again, so the request is applied twice. The atomic
 `Lifecycle.Resolve`, which checks the status inside the same step as the
 write, is the corrected form and the one the rest of the model uses.
 */
module Interleaving {
  import opened Wrappers
  import opened LedgerStore
  import opened Lifecycle
  import opened Accounting

  /** The unlocked lookup: the row's snapshot if it exists and is still PENDING. */
  function ReadPhase(l: Ledger, id: TxId): (r: Result<Tx, Error>)
    ensures r.Success? <==> id in l.txs && l.txs[id].status == Pending
    ensures r.Success? ==> r.value == l.txs[id]
    ensures id !in l.txs ==> r == Failure(NotFound)
    ensures id in l.txs && l.txs[id].status != Pending ==> r == Failure(NotPending)
  {
    if id !in l.txs then Failure(NotFound)
    else if l.txs[id].status != Pending then Failure(NotPending)
    else Success(l.txs[id])
  }

  /** An `UPDATE transactions SET status=... WHERE id=?`: no matching row, no change. */
  function UpdateStatus(l: Ledger, id: TxId, s: Status): Ledger {
    if id in l.txs then SetStatus(l, id, s) else l
  }

  /**
   The write phase as written: it trusts the snapshot `snap` taken by the
   read phase, re-reads only the balance (under the account lock, for a
   withdrawal), and sets the status without checking it again.
   */
  function WriteAsWritten(l: Ledger, id: TxId, snap: Tx, d: Decision): (r: Result<Resolved, Error>)
    ensures r.Failure? <==> d == Approve && snap.kind == Withdraw && snap.account !in l.balances
    ensures r.Success? ==> r.value.ledger.balances.Keys == l.balances.Keys
    ensures r.Success? && d == Approve && !r.value.autoRejected && snap.account in l.balances ==>
      r.value.ledger.balances[snap.account] == l.balances[snap.account] + Delta(snap)
  {
    match d
    case Reject => Success(Resolved(Rejected, false, UpdateStatus(l, id, Rejected)))
    case Approve =>
      match snap.kind
      case Withdraw =>
        if snap.account !in l.balances then Failure(AccountMissing)
        else
          var bal := l.balances[snap.account];
          if bal < snap.amount then Success(Resolved(Rejected, true, UpdateStatus(l, id, Rejected)))
          else
            var l' := UpdateStatus(l, id, Approved);
            Success(Resolved(Approved, false, l'.(balances := l.balances[snap.account := bal - snap.amount])))
      case Deposit =>
        var l' := UpdateStatus(l, id, Approved);
        if snap.account in l.balances then
          Success(Resolved(Approved, false, l'.(balances := l.balances[snap.account := l.balances[snap.account] + snap.amount])))
        else
          Success(Resolved(Approved, false, l'))
  }

  /**
   Two accountants approve the same pending deposit: both read phases see
   PENDING, then both write phases run. Both succeed and the account is
   credited twice.
   */
  lemma AsWrittenDoubleCredit(l: Ledger, id: TxId)
    requires id in l.txs && l.txs[id].status == Pending
    requires l.txs[id].kind == Deposit && l.txs[id].account in l.balances
    ensures var snap1 := ReadPhase(l, id);
      var snap2 := ReadPhase(l, id);
      && snap1.Success? && snap2.Success?
      && var w1 := WriteAsWritten(l, id, snap1.value, Approve);
      && w1.Success?
      && var w2 := WriteAsWritten(w1.value.ledger, id, snap2.value, Approve);
      && w2.Success?
      && w2.value.ledger.balances[l.txs[id].account] ==
           l.balances[l.txs[id].account] + 2 * l.txs[id].amount
  {
  }

  /**
   The same race on a concrete store: 40.00 with one pending DEPOSIT of
   25.00 ends at 90.00 with a single approved deposit, so the balance no
   longer equals opening balance plus approved deposits.
   */
  lemma AsWrittenBreaksBalanceEquation()
    ensures var l := Ledger(map[7 := 4000], map[0 := Tx(7, Deposit, 2500, Pending)], 1);
      var w1 := WriteAsWritten(l, 0, ReadPhase(l, 0).value, Approve);
      && w1.Success?
      && var w2 := WriteAsWritten(w1.value.ledger, 0, ReadPhase(l, 0).value, Approve);
      && w2.Success?
      && w2.value.ledger.balances[7] == 9000
      && Consistent(map[7 := 4000], l)
      && !Consistent(map[7 := 4000], w2.value.ledger)
  {
  }

  /**
   Run back to back with nothing in between, the two phases are exactly the
   atomic resolve: a failed read phase is Resolve's error, and a write phase
   on a fresh snapshot gives Resolve's result.
   */
  lemma SequentialAgrees(l: Ledger, id: TxId, d: Decision)
    ensures ReadPhase(l, id).Failure? ==> Resolve(l, id, d) == Failure(ReadPhase(l, id).error)
    ensures ReadPhase(l, id).Success? ==> WriteAsWritten(l, id, ReadPhase(l, id).value, d) == Resolve(l, id, d)
  {
  }

  /**
   One accountant approves a pending deposit while another, who read it as
   PENDING earlier, rejects it: both succeed, the account keeps the credit,
   and the transaction ends REJECTED, so money moved for a rejected request.
   */
  lemma AsWrittenApproveThenStaleReject(l: Ledger, id: TxId)
    requires id in l.txs && l.txs[id].status == Pending
    requires l.txs[id].kind == Deposit && l.txs[id].account in l.balances
    ensures var snap := ReadPhase(l, id);
      && snap.Success?
      && var w1 := WriteAsWritten(l, id, snap.value, Approve);
      && w1.Success?
      && var w2 := WriteAsWritten(w1.value.ledger, id, snap.value, Reject);
      && w2.Success?
      && w2.value.ledger.txs[id].status == Rejected
      && w2.value.ledger.balances[l.txs[id].account] == l.balances[l.txs[id].account] + l.txs[id].amount
  {
  }

  /**
   With the status checked inside the atomic resolve, the same interleaving
   is harmless: whatever both accountants read, the first resolve succeeds and
   keeps the balance equation, and the second fails with NotPending.
   */
  lemma InterleavedResolveIsSafe(opening: map<AccountId, nat>, l: Ledger, id: TxId, d1: Decision, d2: Decision)
    requires Valid(l) && Consistent(opening, l)
    requires ReadPhase(l, id).Success?
    ensures var w1 := Resolve(l, id, d1);
      && w1.Success?
      && Consistent(opening, w1.value.ledger)
      && Resolve(w1.value.ledger, id, d2) == Failure(NotPending)
  {
    ResolvePreservesConsistent(opening, l, id, d1);
  }
}
