/**
 The transaction lifecycle: customers create PENDING deposit or withdrawal
 requests, and an accountant resolves each one exactly once, to APPROVED (moving
 the balance) or REJECTED. A failed call leaves the accounts and transactions
 as they were; transaction ids come from an unbounded counter that moves only
 on success.
 */
module Lifecycle {
  import opened Wrappers
  import opened LedgerStore

  /** Why a create or resolve call fails. */
  datatype Error =
    | NotFound        // no transaction with that id
    | NotPending      // the transaction was already resolved
    | InvalidAmount   // a request for a non-positive amount
    | AccountMissing  // the account row does not exist

  /** The accountant's choice: the Approve and Reject buttons. */
  datatype Decision = Approve | Reject

  /** A successful create: the new transaction's id and the new store. */
  datatype Created = Created(id: TxId, ledger: Ledger)

  /**
   A successful resolve: the final status of the transaction, whether an
   approval was turned into a rejection for lack of funds, and the new store.
   */
  datatype Resolved = Resolved(status: Status, autoRejected: bool, ledger: Ledger)

  /** The signed change an approved transaction makes to its account's balance. */
  function Delta(tx: Tx): int {
    match tx.kind
    case Deposit => tx.amount as int
    case Withdraw => -(tx.amount as int)
  }

  /** The store with only transaction `id`'s status replaced. */
  function SetStatus(l: Ledger, id: TxId, s: Status): Ledger
    requires id in l.txs
  {
    l.(txs := l.txs[id := l.txs[id].(status := s)])
  }

  /**
   A customer's deposit or withdrawal request. A non-positive amount is
   refused before anything is written; an account that does not exist makes
   the insert fail on its foreign key. Otherwise one PENDING row is added
   under the next auto-increment id, and no balance moves.
   */
  function CreateTransaction(l: Ledger, account: AccountId, kind: Kind, amount: int): (r: Result<Created, Error>)
    ensures amount <= 0 ==> r == Failure(InvalidAmount)
    ensures amount > 0 && account !in l.balances ==> r == Failure(AccountMissing)
    ensures r.Success? <==> amount > 0 && account in l.balances
    ensures r.Success? ==>
      && r.value.id == l.nextId
      && r.value.ledger.nextId == l.nextId + 1
      && r.value.ledger.txs == l.txs[r.value.id := Tx(account, kind, amount, Pending)]
      && r.value.ledger.balances == l.balances
    ensures r.Success? && IdsBelowNext(l) ==>
      r.value.id !in l.txs && |r.value.ledger.txs| == |l.txs| + 1
    ensures r.Success? && Valid(l) ==> Valid(r.value.ledger)
  {
    if amount <= 0 then Failure(InvalidAmount)
    else if account !in l.balances then Failure(AccountMissing)
    else
      var id := l.nextId;
      Success(Created(id, Ledger(l.balances, l.txs[id := Tx(account, kind, amount, Pending)], l.nextId + 1)))
  }

  /** True when resolving `id` with decision `d` fails on a missing account row. */
  predicate MissingWithdrawAccount(l: Ledger, id: TxId, d: Decision)
    requires id in l.txs
  {
    d == Approve && l.txs[id].kind == Withdraw && l.txs[id].account !in l.balances
  }

  /**
   An accountant approves or rejects transaction `id`. Only a PENDING transaction
   can be resolved. Rejecting marks it REJECTED. Approving a deposit credits
   the account and marks it APPROVED. Approving a withdrawal reads the balance
   first: if it is below the amount the request is marked REJECTED and the
   call still succeeds (an auto-rejection); otherwise the amount is debited and
   the request marked APPROVED. A withdrawal whose account row is missing
   aborts the whole call. Only the one status and at most the one balance
   change.
   */
  function Resolve(l: Ledger, id: TxId, d: Decision): (r: Result<Resolved, Error>)
    // Errors, in the order the checks are made.
    ensures id !in l.txs ==> r == Failure(NotFound)
    ensures id in l.txs && l.txs[id].status != Pending ==> r == Failure(NotPending)
    ensures id in l.txs && l.txs[id].status == Pending && MissingWithdrawAccount(l, id, d) ==>
      r == Failure(AccountMissing)
    ensures r.Success? <==>
      id in l.txs && l.txs[id].status == Pending && !MissingWithdrawAccount(l, id, d)
    // A success resolves exactly this one transaction and nothing else in the table.
    ensures r.Success? ==>
      && r.value.status != Pending
      && r.value.ledger.nextId == l.nextId
      && r.value.ledger.txs == l.txs[id := l.txs[id].(status := r.value.status)]
      && r.value.ledger.balances.Keys == l.balances.Keys
      && forall a :: a in l.balances && a != l.txs[id].account ==>
           r.value.ledger.balances[a] == l.balances[a]
    // Rejection, requested or automatic, never moves money.
    ensures r.Success? && r.value.status == Rejected ==> r.value.ledger.balances == l.balances
    ensures r.Success? && d == Reject ==> r.value.status == Rejected && !r.value.autoRejected
    // Auto-rejection happens exactly when an approved withdrawal cannot be covered.
    ensures r.Success? ==>
      (r.value.autoRejected <==>
        d == Approve && l.txs[id].kind == Withdraw && l.balances[l.txs[id].account] < l.txs[id].amount)
    ensures r.Success? && r.value.autoRejected ==> r.value.status == Rejected
    ensures r.Success? && d == Approve && !r.value.autoRejected ==> r.value.status == Approved
    // Approval applies the transaction's signed amount to its own account.
    ensures r.Success? && r.value.status == Approved && l.txs[id].account in l.balances ==>
      r.value.ledger.balances[l.txs[id].account] == l.balances[l.txs[id].account] + Delta(l.txs[id])
    ensures r.Success? && Valid(l) ==> Valid(r.value.ledger)
  {
    if id !in l.txs then Failure(NotFound)
    else
      var tx := l.txs[id];
      if tx.status != Pending then Failure(NotPending)
      else if d == Reject then Success(Resolved(Rejected, false, SetStatus(l, id, Rejected)))
      else
        match tx.kind
        case Withdraw =>
          if tx.account !in l.balances then Failure(AccountMissing)
          else
            var bal := l.balances[tx.account];
            if bal < tx.amount then Success(Resolved(Rejected, true, SetStatus(l, id, Rejected)))
            else
              var l' := SetStatus(l, id, Approved);
              Success(Resolved(Approved, false, l'.(balances := l.balances[tx.account := bal - tx.amount])))
        case Deposit =>
          // The credit is an UPDATE keyed on the account id: with no such row it
          // changes nothing and raises no error, and the status is still set.
          var l' := SetStatus(l, id, Approved);
          if tx.account in l.balances then
            Success(Resolved(Approved, false, l'.(balances := l.balances[tx.account := l.balances[tx.account] + tx.amount])))
          else
            Success(Resolved(Approved, false, l'))
  }

  /**
   When the foreign key holds, every transaction's account row exists, so resolving
   never aborts on a missing account and an approval always moves the
   transaction's own balance by its signed amount.
   */
  lemma ValidResolveFindsAccount(l: Ledger, id: TxId, d: Decision)
    requires AccountsExist(l) && id in l.txs && l.txs[id].status == Pending
    ensures Resolve(l, id, d).Success?
    ensures var res := Resolve(l, id, d).value;
      res.status == Approved ==>
        res.ledger.balances[l.txs[id].account] == l.balances[l.txs[id].account] + Delta(l.txs[id])
  {
  }

  /** One customer or accountant action. */
  datatype Op =
    | Create(account: AccountId, kind: Kind, amount: int)
    | Decide(id: TxId, decision: Decision)

  /** Applies one action; a failed action leaves the store unchanged. */
  function Step(l: Ledger, op: Op): (r: Ledger)
    ensures Valid(l) ==> Valid(r)
    ensures r.balances.Keys == l.balances.Keys
    ensures l.nextId <= r.nextId
  {
    match op
    case Create(a, k, amt) =>
      (match CreateTransaction(l, a, k, amt)
       case Success(c) => c.ledger
       case Failure(_) => l)
    case Decide(id, d) =>
      (match Resolve(l, id, d)
       case Success(res) => res.ledger
       case Failure(_) => l)
  }

  /** Applies a sequence of actions in order, each as one atomic step. */
  function Run(l: Ledger, ops: seq<Op>): (r: Ledger)
    ensures Valid(l) ==> Valid(r)
    ensures r.balances.Keys == l.balances.Keys
    ensures l.nextId <= r.nextId
    decreases |ops|
  {
    if |ops| == 0 then l else Run(Step(l, ops[0]), ops[1..])
  }
}
