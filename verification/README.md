# SimpleBank request-approval engine in Dafny

SimpleBank is a small Swing/JDBC desktop bank. Customers do not move money
directly. They file DEPOSIT or WITHDRAW requests, which are stored as PENDING
rows in the `transactions` table. An accountant then approves or rejects each
request, and only an approval changes the balance in the `accounts` table.
This project models that engine as pure functions over an immutable store and
proves its business rules:

- a request needs a strictly positive amount and never touches a balance;
- only a PENDING request can be resolved, and APPROVED and REJECTED are terminal;
- approving a withdrawal the balance cannot cover is a successful call that
  rejects the request (an auto-rejection);
- an approval moves exactly the transaction's own balance by exactly its amount;
- over any history, every balance stays non-negative and equals its opening
  value plus the approved deposits minus the approved withdrawals.

Amounts and balances are integers in minor currency units (cents).

Files, one module each:

- `wrappers.dfy`: `Wrappers.Result`, success or error.
- `store.dfy`: `LedgerStore`, the accounts and transactions tables (`Ledger`) and the store
  invariant `Valid`. Two of its parts are kept by the schema: auto-increment ids and the foreign
  key from transactions to accounts. The other two are kept by the operations: positive amounts
  (the amount guard at line 411) and no overdraft (the balance guard at line 527). The `amount`
  and `balance` columns have no CHECK constraint.
- `lifecycle.dfy`: `Lifecycle`, the create and resolve transitions, plus `Step` and `Run` over
  action sequences.
- `accounting.dfy`: `Accounting`, approved totals per account and kind, the balance equation
  `Consistent`, and its preservation over any history.
- `queries.dfy`: `Queries`, the accountant's pending queue.
- `interleaving.dfy`: `Interleaving`, resolve split into its unlocked read phase and its write
  phase, which exhibits the race listed under Findings.
- `scenarios.dfy`: `Scenarios`, concrete histories (100.00 minus 60.00, then 50.00 auto-rejected;
  a deposit resolved twice; non-positive requests).

Where the code behaves differently from what the rules above suggest, the model follows the code:

- Approving a DEPOSIT whose account row is missing does not roll back. The credit is an
  `UPDATE ... WHERE id=?` that matches no row and raises no error, so the request still becomes
  APPROVED. Only the WITHDRAW path raises "Account missing" and rolls back. The foreign key on
  `transactions.account_id` makes both cases unreachable in a valid store
  (`Lifecycle.ValidResolveFindsAccount`).
- Creating a request for an account that does not exist fails on the foreign key of the INSERT.
  It is modelled as the `AccountMissing` error, checked after the amount.
- The pending queue joins transactions with accounts, so it lists only pending requests whose
  account row exists.
- Balances are modelled as `int`, not `nat`. The `balance` column has no constraint, so
  non-negativity is a proved invariant (`NoOverdraft`), not a matter of typing.

## Model

| member | source | states |
|---|---|---|
| Lifecycle.CreateTransaction | SimpleBankAppRunner.java:406-419 | A non-positive amount fails with InvalidAmount and an unknown account fails with AccountMissing. A success adds exactly one PENDING row with the given account, kind and amount, under a fresh id, and leaves every balance unchanged; it keeps the store valid |
| Lifecycle.Resolve | SimpleBankAppRunner.java:487-567 | Unknown id gives NotFound and a non-PENDING transaction gives NotPending. A success changes only that transaction's status, and only to APPROVED or REJECTED. No other account's balance changes. A rejection moves no money. Auto-rejection happens exactly when an approved withdrawal exceeds the balance, and it sets REJECTED and leaves every balance as it was. An approval adds the signed amount to the transaction's own account. The store stays valid, with no overdraft |
| Lifecycle.ValidResolveFindsAccount | SimpleBankAppRunner.java:520-546 | In a store whose foreign key holds, resolving a pending transaction always succeeds, and an approval always moves its own balance by its signed amount |
| Lifecycle.Step | SimpleBankAppRunner.java:406-567 | One create or resolve action is atomic: afterwards the store is still valid (ids, foreign key, positive amounts, no overdraft), the set of accounts is unchanged, and the id counter never goes back |
| Lifecycle.Run | SimpleBankAppRunner.java:406-567 | Any sequence of create and resolve actions keeps the store valid, so no balance ever goes negative |
| Accounting.CreatePreservesConsistent | SimpleBankAppRunner.java:413-415 | Filing a request leaves every balance equal to opening plus approved deposits minus approved withdrawals |
| Accounting.ResolvePreservesConsistent | SimpleBankAppRunner.java:537-551 | Each resolve keeps that balance equation: an approval changes the balance by exactly the amount it adds to the approved totals |
| Accounting.RunPreservesConsistent | SimpleBankAppRunner.java:521-551 | Across any history the store stays valid and every balance equals opening plus approved deposits minus approved withdrawals on that account |
| Accounting.BalanceEquation | SimpleBankAppRunner.java:527-551 | From a freshly opened store, after any history, every balance is non-negative and equals its opening value plus approved deposits minus approved withdrawals |
| Accounting.WithdrawalApprovalsBounded | SimpleBankAppRunner.java:522-539 | When all withdrawals on an account ask for the same amount m, m times the number approved never exceeds opening balance plus approved deposits, so at most floor((opening + approved deposits) / m) are approved |
| Accounting.RunKeepsResolved | SimpleBankAppRunner.java:506 | An APPROVED or REJECTED transaction is never changed by any later sequence of actions |
| Accounting.ResolveIsFinal | SimpleBankAppRunner.java:500-506 | Once a transaction is resolved, any later resolve of it, after any actions and with either decision, fails with NotPending and leaves the store unchanged |
| Queries.PendingQueue | SimpleBankAppRunner.java:446-449 | The queue lists exactly the PENDING transactions whose account exists, each once, in strictly ascending id (creation) order |
| Interleaving.ReadPhase | SimpleBankAppRunner.java:500-506 | The unlocked lookup returns the row's snapshot exactly when the row exists and is PENDING, and otherwise NotFound or NotPending |
| Interleaving.WriteAsWritten | SimpleBankAppRunner.java:508-556 | The write phase fails only on an approved withdrawal whose account row is missing. It applies the snapshot's signed amount to the account without checking the status again |
| Interleaving.AsWrittenDoubleCredit | SimpleBankAppRunner.java:500-551 | Two approvals of one pending deposit whose read phases both run before either write both succeed, and the account is credited twice |
| Interleaving.AsWrittenBreaksBalanceEquation | SimpleBankAppRunner.java:543-551 | On 40.00 with a pending 25.00 deposit, that interleaving ends at 90.00 with one approved deposit, breaking the balance equation |
| Interleaving.SequentialAgrees | SimpleBankAppRunner.java:500-556 | Run back to back, the unlocked read phase and the write phase give exactly the atomic Resolve: the read phase's error when it fails, Resolve's result otherwise |
| Interleaving.AsWrittenApproveThenStaleReject | SimpleBankAppRunner.java:508-551 | An approval of a pending deposit followed by a reject from an accountant who read it as PENDING earlier: both succeed, the transaction ends REJECTED and the credit stays |
| Interleaving.InterleavedResolveIsSafe | SimpleBankAppRunner.java:500-556 | With the status checked inside the atomic resolve, the same interleaving leaves the first resolve successful and consistent, and the second fails with NotPending |
| Scenarios.WithdrawThenOverdraw | SimpleBankAppRunner.java:521-539 | 100.00, then WITHDRAW 60.00 approved, gives 40.00; WITHDRAW 50.00 is then auto-rejected and the balance stays 40.00 |
| Scenarios.DepositThenResolveAgain | SimpleBankAppRunner.java:542-551 | DEPOSIT 25.00 approved on 40.00 gives 65.00; resolving it again fails with NotPending for either decision |
| Scenarios.NonPositiveRequests | SimpleBankAppRunner.java:411 | Requests for 0 and for a negative amount fail with InvalidAmount and change nothing |

## Left out

- The Swing UI (login, signup, customer and accountant panels, tables, dialogs): presentation
  only. The selected table row becomes the `id` argument of `Resolve`. The Approve/Reject button
  becomes its `Decision`. The logged-in account becomes the `account` argument of
  `CreateTransaction`. The "not logged in" and cancelled-dialog early returns are UI state.
- Parsing the amount with `Double.parseDouble` and its "Invalid amount" message: the model takes an
  already-parsed integer amount.
- `double` balances and amounts: replaced by exact integers in minor units. Floating-point rounding
  is not modelled.
- The JDBC driver, connection and schema creation, and seeding the admin user: I/O and bootstrapping.
  The foreign key and auto-increment survive in `LedgerStore.Valid`; the ENUM columns become the
  `Kind` and `Status` datatypes.
- Signup, login and account-number generation from the clock: credential CRUD, and nondeterministic.
  Accounts exist from the opening store on; none are added or removed.
- Timestamps (`created_at`, `approved_at=NOW()`) and `approved_by=NULL`: clock-dependent or constant.
  Creation order is represented by the auto-increment id.
- Row locking (`FOR UPDATE`) and autocommit toggling: `Resolve` is one atomic step. Interleavings
  are modelled only for two resolves of the same transaction (`Interleaving`), not in general.
  Among those, lemmas state approve-approve on a deposit (`AsWrittenDoubleCredit`) and
  approve-then-stale-reject on a deposit (`AsWrittenApproveThenStaleReject`).
- Interleaving.AsWrittenDoubleCredit: shows the double application for deposits only. A withdrawal
  approved twice in the same way is debited twice when the balance covers both debits. When the
  balance covers only the first, the second stale approval auto-rejects, so the transaction ends
  REJECTED while the first debit stays. Neither withdrawal case is stated as a lemma.
- Database failures other than a missing account row (connection loss, a failed commit): no
  store-unavailable error. Every failing path leaves the accounts and transactions unchanged,
  which is what the rollback guarantees. The id counter is the exception; see the next line.
- Lifecycle.CreateTransaction: transaction ids are abstracted as a fresh, consecutive, unbounded
  counter that moves only on a successful create. The source's `id INT AUTO_INCREMENT` column can
  skip values, because InnoDB spends an auto-increment value on an INSERT that fails (for example
  on the foreign key). It also runs out at 2^31-1, after which every INSERT fails. The model
  neither skips ids nor fails on exhaustion.
- The read-only views: customer history, balance display, customer search, and the full
  and per-account history tables. Only the pending queue is modelled. Its per-account variant
  (the same filter restricted to one account, without the join) is left out.

## Findings

| source | as written | input that shows it | evidently intended | confidence | as-written member | corrected member |
|---|---|---|---|---|---|---|
| SimpleBankAppRunner.java:500-551 | The PENDING check reads the row outside the locked scope. The write phase then sets the status and moves the balance without checking the status again | Two accountants approve the same pending DEPOSIT of 25.00 on a 40.00 balance. Both read PENDING before either writes, both succeed, and the balance ends at 90.00 | A request is applied at most once. The status is checked inside the same atomic step as the write, so the second approval fails with NotPending | not executed; high that the interleaving is possible with two running instances against one database | Interleaving.AsWrittenDoubleCredit | Interleaving.InterleavedResolveIsSafe |
