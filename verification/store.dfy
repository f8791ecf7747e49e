/**
 The ledger store: accounts with their balances and the table of transaction
 requests, together with the integrity conditions the relational schema
 (foreign keys, auto-increment ids, the enum columns) keeps for it.
 */
module LedgerStore {

  type AccountId = nat
  type TxId = nat

  /** The `type` column of a transaction row. */
  datatype Kind = Deposit | Withdraw

  /** The `status` column of a transaction row. */
  datatype Status = Pending | Approved | Rejected

  /** One transaction request; amounts are in minor currency units. */
  datatype Tx = Tx(account: AccountId, kind: Kind, amount: nat, status: Status)

  /**
   The whole store. `balances` is the accounts table (id to balance),
   `txs` the transactions table, and `nextId` the auto-increment counter
   that hands out the next transaction id.
   */
  datatype Ledger = Ledger(balances: map<AccountId, int>, txs: map<TxId, Tx>, nextId: TxId)

  /** Every transaction id was handed out by the auto-increment counter. */
  ghost predicate IdsBelowNext(l: Ledger) {
    forall id :: id in l.txs ==> id < l.nextId
  }

  /** The foreign key from transactions to accounts. */
  ghost predicate AccountsExist(l: Ledger) {
    forall id :: id in l.txs ==> l.txs[id].account in l.balances
  }

  /** Every stored request was created with a strictly positive amount. */
  ghost predicate PositiveAmounts(l: Ledger) {
    forall id :: id in l.txs ==> l.txs[id].amount > 0
  }

  /** No account is overdrawn. */
  ghost predicate NoOverdraft(l: Ledger) {
    forall a :: a in l.balances ==> l.balances[a] >= 0
  }

  /** The store invariant every operation of the lifecycle preserves. */
  ghost predicate Valid(l: Ledger) {
    && IdsBelowNext(l)
    && AccountsExist(l)
    && PositiveAmounts(l)
    && NoOverdraft(l)
  }

  /** A freshly provisioned store: the given accounts and no transactions yet. */
  function Opening(balances: map<AccountId, nat>): (l: Ledger)
    ensures Valid(l)
    ensures l.txs == map[]
    ensures l.balances.Keys == balances.Keys
    ensures forall a :: a in balances ==> l.balances[a] == balances[a]
  {
    Ledger(map a | a in balances :: balances[a] as int, map[], 0)
  }
}
