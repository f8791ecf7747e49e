/** The accountant's pending queue, the one read-only view the model keeps. */
module Queries {
  import opened LedgerStore

  /**
   A transaction the pending query lists: still PENDING, and (the query
   joins transactions with accounts) its account row exists.
   */
  predicate Listed(l: Ledger, id: TxId) {
    id in l.txs && l.txs[id].status == Pending && l.txs[id].account in l.balances
  }

  /**
   The pending queue, oldest first. Ids are handed out in creation order,
   so ascending id order is creation-time order.
   */
  method PendingQueue(l: Ledger) returns (q: seq<TxId>)
    requires IdsBelowNext(l)
    ensures forall i, j :: 0 <= i < j < |q| ==> q[i] < q[j]
    ensures forall id :: id in q <==> Listed(l, id)
  {
    q := [];
    var i := 0;
    while i < l.nextId
      invariant i <= l.nextId
      invariant forall k :: 0 <= k < |q| ==> q[k] < i
      invariant forall k, k' :: 0 <= k < k' < |q| ==> q[k] < q[k']
      invariant forall id: TxId :: id in q <==> id < i && Listed(l, id)
    {
      if Listed(l, i) {
        q := q + [i];
      }
      i := i + 1;
    }
  }
}
