# eWallet transaction engine — a Dafny model

This project models the transaction engine of the eWallet service: the
`TransactionRequest` value object and its retry step, the
`TransactionDetailRecord` ledger-entry value object and the `Transaction` row
built from it, the DTO-to-request mappers, the three fund executors
(`DepositFund`, `WithdrawFund`, `TransferFund`) with their recursive
optimistic-conflict retry, the two `while`-loop drafts (`WithdrawFundX`,
`BaseExecutable.execute`), the guarded bulk updates of `WalletRepository`,
the type dispatch of `WalletService`, account creation in `AuthService`, and
the inclusive date-range ledger query of `TransactionService`.

The engine is modelled as a sequential state machine over an immutable
`Store` (users by name, wallets by owner id, an append-only ledger, and
idempotency keys by key). Every executor attempt is a pure function
`(now, store, request, conflict) -> Step`: it returns a wallet and the new
store, fails with a typed error and writes nothing, or hits an optimistic-lock
conflict at its first save, which also writes nothing. Conflicts are not
races but an oracle: a sequence of `Turn`s, one per attempt, that says
whether the attempt's save conflicts and which two random draws the backoff
uses afterwards. Amounts and balances are exact integers, and timestamps are
integer nanoseconds supplied by the caller.

Modules, one per file:

- `Common`: `Option`, `Result`, names and ids, digits.
- `Requests`: the request record, its validation, its increment and the backoff.
- `Ledger`: detail records, ledger rows, and both versions of the row constructor.
- `Repository`: the store and the repository operations.
- `Retry`: both retry controllers, generic in the attempt.
- `Invariants`: the bookkeeping invariant that every balance is the net of its wallet's ledger rows.
- `DepositFund`, `WithdrawFund`, `TransferFund`, `WithdrawFundX`, `BaseExecutable`: the executors.
- `Mapping`: the DTO-to-request mappers.
- `Queries`: the ledger finders.
- `WalletService`, `AuthService`, `TransactionService`: the services.
- `Properties`: properties that span several operations.

The model follows the code, including the behaviours below, which a reader might not expect. The one exception is the ledger-row constructor: it drops the balances, so the executors use a corrected constructor instead (see Findings and Left out). Behaviours of the code that the model keeps:

- A request with amount exactly 0 is accepted by the request constructor. Deposit and withdrawal reject it later, but a transfer of 0 goes through (`TransferFund.ZeroAmountGoesThrough`), because `TransferFund` has no positivity check.
- Idempotency keys are looked up by the key alone, not by the pair (user, key). A deposit whose key another user already recorded returns the depositor's wallet untouched and writes nothing (`Properties.ForeignKeySwallowsDeposit`).
- The recursive retry tests its bound on the original request's retry count, which never changes. The local count rises with each conflict. Starting from retry count 0, the fourth conflict therefore fails inside the request constructor with an `IllegalArgument` ("Retry attempt cannot increase more than 3 …"). It does not fail with the concurrent-execution exception (`Retry.ConflictsExhaust`, `Properties.DepositExhaustsThroughConstructor`). That exception surfaces only when the original request already carries retry count 3 (`Properties.DepositAtBoundThrowsConcurrent`).
- The `while` retry of `WithdrawFundX` and `BaseExecutable.execute` tests an immutable field. Under perpetual conflicts it never ends, so the model runs it on fuel and claims no termination.
- The transfer's self-transfer check comes after both users are loaded, so an unknown receiver is reported before a self-transfer.

## Model

All source paths are under `src/main/java/com/ewallet/dom/`, written out in full below.

| member | source | states |
|---|---|---|
| `Requests.Make` | src/main/java/com/ewallet/dom/record/TransactionRequest.java:15-24 | The constructor succeeds exactly when actor, key and type are present, the amount is not negative (0 is accepted), a transfer names a receiver, and the retry count is in [0,3]. Each failure has the source's exception and message, taken in the source's check order: missing user id, missing key (with the source's "amount cannot be null" wording), missing type, negative amount, missing receiver of a transfer, retry count out of range. |
| `Requests.Increment` | src/main/java/com/ewallet/dom/record/TransactionRequest.java:26-35 | The copy differs from the original only in a retry count one higher. At count 3 the copy is refused with the constructor's IllegalArgument naming the actor. |
| `Requests.BackoffBounds` | src/main/java/com/ewallet/dom/record/TransactionRequest.java:29 | The sleep before a retry is never negative, is 0 at retry count 0, and stays below 5000 ms times the retry count. |
| `Ledger.MakeDetail` | src/main/java/com/ewallet/dom/record/TransactionDetailRecord.java:17-31 | A record is built exactly when its four references are present, the amount is not negative, and post = pre + amount for credits and pre − amount for debits. So credits never lower and debits never raise the balance. The null checks come first, then the sign, then the tie. |
| `Ledger.FromRecordAsWritten` | src/main/java/com/ewallet/dom/model/Transaction.java:62-68 | The row constructor as written copies wallet, names, amount and type, and leaves both balances at 0. |
| `Ledger.AsWrittenDropsBalances` | src/main/java/com/ewallet/dom/model/Transaction.java:38-42 | Concrete case: a deposit of 100 onto an empty wallet persists a row that no longer equals its record and breaks the record's own balance tie. |
| `Ledger.FromRecord` | src/main/java/com/ewallet/dom/model/Transaction.java:62-68 | The corrected constructor: the record can be read back from the row unchanged, and the row carries its creation timestamp. |
| `Repository.RowsWithIdAtMostOne` | src/main/java/com/ewallet/dom/model/Wallet.java:23-25 | Under the store's unique-id constraint, an `update … where id = :id` touches at most one wallet row. |
| `Repository.AddAmount` | src/main/java/com/ewallet/dom/repository/WalletRepository.java:25-28 | Only the wallet(s) with that id gain `amount`. Nothing else changes. The reported row count is zero exactly when no wallet has that id. |
| `Repository.SubAmountFromBalance` | src/main/java/com/ewallet/dom/repository/WalletRepository.java:31-34 | A wallet is debited only when its balance covers the amount. With no covering row it reports 0 rows and the store is unchanged. A non-negative debit keeps every balance non-negative. |
| `Repository.SubAmount` | src/main/java/com/ewallet/dom/repository/WalletRepository.java:36-39 | InsufficientFunds, naming the wallet id, is raised exactly when no row covers the amount. Otherwise the wallet with that id lost exactly `amount`. |
| `Retry.Recursive` | src/main/java/com/ewallet/dom/executable/DepositFund.java:91-102 | The recursive retry makes between 1 and 4 − rc attempts and sleeps at most once per attempt. Attempt i uses the request with retry count rc + i, each chained from the previous one. |
| `Retry.RecursiveDelays` | src/main/java/com/ewallet/dom/executable/DepositFund.java:96-98 | Every sleep is the backoff of the request about to be incremented, computed from that turn's two draws. |
| `Retry.RecursiveConflicts` | src/main/java/com/ewallet/dom/executable/DepositFund.java:93-98 | Every attempt except the last conflicted. The retry goes on only after a conflict. |
| `Retry.RecursiveEnding` | src/main/java/com/ewallet/dom/executable/DepositFund.java:93-101 | How the retry ends follows from its last attempt. A return completes with the store that attempt wrote. A failure is rethrown with the store untouched. A conflict throws ConcurrentExecution(original) when the original's count is at least 3, and otherwise the constructor's IllegalArgument. |
| `Retry.RecursiveSolo` | src/main/java/com/ewallet/dom/executable/DepositFund.java:91-102 | For an attempt whose conflict strikes only at the save, the retry never leaves a partial write. It completes with exactly the conflict-free attempt's result, or ends with the store unchanged. Errors before the save are rethrown after one attempt. |
| `Retry.ConflictsExhaust` | src/main/java/com/ewallet/dom/record/TransactionRequest.java:22-23 | When every remaining attempt conflicts and the original count is below 3, the retry fails with the constructor's IllegalArgument, not the concurrent-execution exception. It makes 4 − rc attempts and sleeps, and writes nothing. |
| `Retry.Loop` | src/main/java/com/ewallet/dom/executable/BaseExecutable.java:76-88 | The `while` retry (also `WithdrawFundX.java:89-101`). At original count ≥ 3 it throws ConcurrentExecution(original) with no attempt. Otherwise every pass runs the same request: the original, or the original incremented once. A return is handed back at once, a conflict loops, and another error propagates. It keeps retrying only while conflicts continue. |
| `Invariants.PostKeepsConsistent` | src/main/java/com/ewallet/dom/executable/DepositFund.java:63-81 | Posting one row whose signed amount moves its wallet's balance keeps every balance equal to the net of its wallet's rows, and keeps the ledger time-ordered. |
| `DepositFund.Attempt` | src/main/java/com/ewallet/dom/executable/DepositFund.java:37-88 | It fails exactly when the amount is not positive (IllegalArgument), the user is unknown, or the user has no wallet, in that order. A known key returns the current wallet and writes nothing. Otherwise, without a conflict, it always returns. The balance rises by the amount, exactly one DEPOSIT row (sender = receiver = the user, pre/post balances, stamped now) is appended, and the key is recorded as "DEPOSIT" for the user. A conflict happens exactly when the attempt would write. The row is built by the corrected row constructor (see Findings). |
| `DepositFund.Run` | src/main/java/com/ewallet/dom/executable/DepositFund.java:91-102 | `depositFund()` either completes with exactly the conflict-free attempt's wallet and store, or leaves the store untouched. It rethrows the attempt's own errors. It never keeps retrying past the bound. |
| `DepositFund.AttemptKeepsConsistent` | src/main/java/com/ewallet/dom/executable/DepositFund.java:63-83 | A deposit keeps every balance equal to the net of its wallet's ledger rows. |
| `DepositFund.Replay` | src/main/java/com/ewallet/dom/executable/DepositFund.java:57-60 | Replaying a completed deposit with the same key, at any time and amount, returns the same wallet and store. |
| `WithdrawFund.Attempt` | src/main/java/com/ewallet/dom/executable/WithdrawFund.java:40-95 | It fails exactly when the amount is not positive, the user is unknown, the user has no wallet, or (for a fresh key) the balance is below the amount, which raises "Insufficient funds for withdrawal." with no write and no key. A known key returns the wallet with no write, before the balance check. Otherwise, without a conflict, it always returns. The balance falls by the amount and stays ≥ 0, exactly one WITHDRAWAL row is appended, and the key is recorded as "WITHDRAWAL". The row is built by the corrected row constructor (see Findings). |
| `WithdrawFund.Run` | src/main/java/com/ewallet/dom/executable/WithdrawFund.java:97-108 | Same retry guarantees as the deposit: the conflict-free result, or no write at all. |
| `WithdrawFund.AttemptKeepsConsistent` | src/main/java/com/ewallet/dom/executable/WithdrawFund.java:64-90 | A withdrawal keeps balances reconciled with the ledger and non-negative. |
| `WithdrawFund.Replay` | src/main/java/com/ewallet/dom/executable/WithdrawFund.java:60-63 | Replaying a completed withdrawal with the same key changes nothing. |
| `TransferFund.Attempt` | src/main/java/com/ewallet/dom/executable/TransferFund.java:40-118 | Failures, in order: unknown sender, unknown receiver, self-transfer (no write, before the key check), missing sender wallet. Then a known key returns the sender's wallet with no write. Then sender balance < amount raises "Insufficient funds for transfer." before the receiver's wallet is loaded. Then a missing receiver wallet raises NotFound naming the receiver's id. It fails exactly in these cases. Otherwise, without a conflict, it always returns. Both wallets move, a TRANSFER_SENT and a TRANSFER_RECEIVED row naming both parties are appended, and one "TRANSFER" key is recorded for the sender. The result is the sender's updated wallet. Rows are built by the corrected row constructor (see Findings). |
| `TransferFund.Run` | src/main/java/com/ewallet/dom/executable/TransferFund.java:127-138 | Same retry guarantees as the deposit. |
| `TransferFund.Conserves` | src/main/java/com/ewallet/dom/executable/TransferFund.java:70-82 | A successful transfer leaves the sum of the two balances unchanged. |
| `TransferFund.AttemptKeepsConsistent` | src/main/java/com/ewallet/dom/executable/TransferFund.java:70-113 | A transfer keeps balances reconciled with the ledger and non-negative. |
| `TransferFund.ZeroAmountGoesThrough` | src/main/java/com/ewallet/dom/executable/TransferFund.java:43-66 | With no positivity check, a fresh-key transfer of 0 between two users with wallets succeeds and writes two rows of amount 0. |
| `TransferFund.Replay` | src/main/java/com/ewallet/dom/executable/TransferFund.java:60-63 | Replaying a completed transfer with the same key changes nothing. |
| `WithdrawFundX.Run` | src/main/java/com/ewallet/dom/executable/WithdrawFundX.java:89-101 | The `while` draft of the withdrawal. At original count ≥ 3 it throws ConcurrentExecution(original) without touching the store. A completed run is exactly the conflict-free withdrawal. Errors leave the store untouched. A conflict-free turn within the fuel ends the loop. A withdrawal that would write, under perpetual conflicts, keeps retrying. |
| `BaseExecutable.ValidateAmount` | src/main/java/com/ewallet/dom/executable/BaseExecutable.java:55-59 | Every amount ≤ 0 is rejected with the withdrawal message, and no other amount is. |
| `BaseExecutable.ValidateAmountAgreesWithWithdrawal` | src/main/java/com/ewallet/dom/executable/BaseExecutable.java:55-59 | `validateAmount` rejects exactly the amounts the withdrawal attempt rejects first, with the same error. |
| `BaseExecutable.FindUserByUsername` | src/main/java/com/ewallet/dom/executable/BaseExecutable.java:47-49 | Succeeds exactly for a registered name and otherwise raises NoSuchElement. |
| `BaseExecutable.FindWalletByUserId` | src/main/java/com/ewallet/dom/executable/BaseExecutable.java:50-53 | Succeeds exactly when the user has a wallet, which belongs to that user. Otherwise it raises "Wallet not found for userId: " with the user id. |
| `BaseExecutable.SaveIdempotencyKey` | src/main/java/com/ewallet/dom/executable/BaseExecutable.java:72-74 | Records the key for the user, not completed, with the request type's name as operation type. All other keys and the rest of the store are untouched. |
| `BaseExecutable.WithdrawKeyNameDiffers` | src/main/java/com/ewallet/dom/executable/BaseExecutable.java:72-74 | For a withdrawal, the generic helper records "WITHDRAW" where `WithdrawFund` records "WITHDRAWAL". |
| `Mapping.FromDeposit` | src/main/java/com/ewallet/dom/mapper/TransactionMappingService.java:14-17 | A DEPOSIT request with no receiver, retry count 0, and the DTO's amount and key. A missing (null) amount fails with a NullPointerException when it is unboxed, before the constructor's checks. Otherwise it fails exactly when the constructor would. |
| `Mapping.FromTransfer` | src/main/java/com/ewallet/dom/mapper/TransactionMappingService.java:19-22 | A TRANSFER request with the DTO's receiver, amount and key, and retry count 0. A missing amount fails with a NullPointerException when it is unboxed, before the constructor's checks. Otherwise it fails exactly when the constructor would. |
| `Mapping.FromWithdraw` | src/main/java/com/ewallet/dom/mapper/TransactionMappingService.java:24-27 | A WITHDRAW request with no receiver, retry count 0, and the DTO's amount and key. A missing amount fails with a NullPointerException when it is unboxed, before the constructor's checks. Otherwise it fails exactly when the constructor would. |
| `Mapping.MappersInvert` | src/main/java/com/ewallet/dom/mapper/TransactionMappingService.java:14-27 | Every valid fresh request of each type is what its mapper produces from the DTO carrying its fields. |
| `Queries.Select` | src/main/java/com/ewallet/dom/repository/TransactionRepository.java:13 | A finder's result holds exactly the ledger rows that satisfy its condition, and never more rows than the ledger. |
| `Queries.SelectCounts` | src/main/java/com/ewallet/dom/repository/TransactionRepository.java:13 | A finder returns each accepted row as many times as the ledger holds it, equal rows included, and no other row. |
| `Queries.SelectOrdered` | src/main/java/com/ewallet/dom/repository/TransactionRepository.java:16-17 | Filtering a time-ordered ledger keeps it time-ordered (ascending order). |
| `Queries.ByWalletNewestFirstSpec` | src/main/java/com/ewallet/dom/repository/TransactionRepository.java:13 | The per-wallet finder returns exactly that wallet's rows, each as many times as the ledger holds it, newest first. |
| `Queries.ByWalletBetweenSpec` | src/main/java/com/ewallet/dom/repository/TransactionRepository.java:16-17 | The range finder returns exactly that wallet's rows with timestamps in [lo, hi], each as many times as the ledger holds it, oldest first. |
| `WalletService.Submit` | src/main/java/com/ewallet/dom/service/WalletService.java:61-81 | DEPOSIT, WITHDRAW and TRANSFER each run their own executor on the same request, unchanged. Dispatch is the whole promise of the switch; what the run guarantees is stated by the executors' `Run` and by `WalletService.SubmitKeepsConsistent`. |
| `WalletService.SubmitKeepsConsistent` | src/main/java/com/ewallet/dom/service/WalletService.java:61-81 | Whatever the request and the conflicts, a dispatched transaction keeps balances reconciled with the ledger and non-negative, and the ledger in time order. |
| `WalletService.SubmitKeepsClock` | src/main/java/com/ewallet/dom/service/WalletService.java:61-81 | A submitted transaction stamps no row later than its own clock, so the next submission, with a clock not earlier, still finds every row no later than its own. |
| `WalletService.HistoryNewestFirstAfterSubmit` | src/main/java/com/ewallet/dom/service/WalletService.java:92-94 | After a submission on a consistent store with a clock not earlier than its rows, every wallet's history still reads newest first. |
| `WalletService.FindWalletByUserId` | src/main/java/com/ewallet/dom/service/WalletService.java:87-90 | Returns the user's own wallet, or "Wallet not found for userId: " with the id when the user has none. |
| `WalletService.TransactionsForWallet` | src/main/java/com/ewallet/dom/service/WalletService.java:92-94 | Exactly the wallet's ledger rows, each as many times as the ledger holds it, newest first. |
| `AuthService.Register` | src/main/java/com/ewallet/dom/service/AuthService.java:23-36 | A taken name raises "Username already taken." and creates nothing. Otherwise it creates exactly one user, with the encoded password, and exactly one wallet for that user's fresh id at balance 0, and leaves ledger and keys alone. |
| `AuthService.RegisterKeepsConsistent` | src/main/java/com/ewallet/dom/service/AuthService.java:33-34 | Opening an account at zero with no rows keeps every balance reconciled with the ledger. |
| `AuthService.FindByUsername` | src/main/java/com/ewallet/dom/service/AuthService.java:38-41 | Returns the registered user, or "User not found.". |
| `AuthService.RegisterThenFind` | src/main/java/com/ewallet/dom/service/AuthService.java:23-41 | A registered name is found afterwards, as the user just created. |
| `TransactionService.DayBounds` | src/main/java/com/ewallet/dom/service/TransactionService.java:37-38 | An instant lies between the start of the first day and the last instant of the last day exactly when its day is within [first, last]. Both dates are inclusive. |
| `TransactionService.WalletOf` | src/main/java/com/ewallet/dom/service/TransactionService.java:35 | The signed-in user's wallet, or "Wallet not found for userId: " with the name. |
| `TransactionService.ByDateRange` | src/main/java/com/ewallet/dom/service/TransactionService.java:34-43 | Exactly the signed-in user's rows whose day lies in [startDate, endDate], both inclusive, each as many times as the ledger holds it, in ascending time order. Without a wallet it fails with the lookup's error. |
| `TransactionService.SingleDay` | src/main/java/com/ewallet/dom/service/TransactionService.java:30-31 | A range whose start and end are the same date returns exactly that day's rows. |
| `Properties.DepositExhaustsThroughConstructor` | src/main/java/com/ewallet/dom/executable/DepositFund.java:96-100 | A deposit from retry count 0 that conflicts four times fails with the constructor's IllegalArgument after four attempts and four sleeps, and writes nothing. |
| `Properties.DepositAtBoundThrowsConcurrent` | src/main/java/com/ewallet/dom/executable/DepositFund.java:100 | A deposit whose request already carries retry count 3 and conflicts throws ConcurrentExecution carrying that request, after one attempt and no sleep. |
| `Properties.ForeignKeySwallowsDeposit` | src/main/java/com/ewallet/dom/repository/IdempotencyKeyRepository.java:10 | A key recorded by another user makes a deposit return the depositor's wallet unchanged, with no write. |
| `Properties.DepositsAddUp` | src/main/java/com/ewallet/dom/executable/DepositFund.java:63-83 | N conflict-free deposits of A under N fresh, distinct keys raise the balance by N·A and append exactly N rows. |

## Left out

- Asynchronous dispatch (`WalletService.processTransaction`), the per-user future map, the thread pool and the time-out: concurrency with no sequential contract. Dispatch is a direct call.
- Real optimistic locking, `@Transactional` atomicity and JPA flushing. Each attempt is one all-or-nothing step, and conflicts come from the `Turn` oracle. The wallet `version` is only counted up on each save.
- `Thread.sleep` in the retry step: the model records each sleep's length as a value (`Outcome.delays`) and does not wait.
- `Math.random()`: the two draws of each backoff are inputs carried by the `Turn` oracle.
- Floating point: amounts and balances are Java `double`s, modelled as exact integers. No rounding is modelled.
- Password hashing: the encoder is an opaque function parameter of `AuthService.Register`.
- Security, JWT, HTTP controllers, filters, logging aspects, bean-validation annotations on the DTOs, and audit timestamps (`createdAt`/`updatedAt`): outside the engine.
- The runtime's message for a NullPointerException raised by unboxing a missing DTO amount: the mappers model that exception with an empty message.
- `WithdrawRequest` and `TransferRequest` are not part of this model. Their amounts are taken to be boxed and possibly missing, like `DepositRequest`'s.
- The `default` branch of the dispatch switch: the request type has exactly three values, so it cannot be reached.
- The `catch` around the dispatch switch: only constructors run there, and they never raise an optimistic-lock conflict, so it never fires.
- `BaseExecutable.execute(request)` (the abstract attempt) and its `result != null` test: no attempt in the model returns null. `Retry.Loop` takes the attempt as a parameter.
- The `saveWallets`, `saveTransactions` and `existsByKey` helpers of `BaseExecutable`, and the `run`/`call`/`get` entry points of the executors: each is the same repository operation or retry already modelled (`Repository.SaveWallet`, `Repository.SaveTransactions`, `Repository.KeyExists`, the executors' `Run`).
- The idempotency key's `completed` flag: the source never sets it, so it stays false.
- Actor identity: the request record declares a numeric `userId`, the mappers pass a user name, and the executors read a user name. The actor is one user name that resolves to a user.
- `TransactionService` passes the user name where `findWalletByUserID` takes a numeric id. It is modelled as resolving the name to its user's wallet, with the message naming the user.
- Wallet ids are UUIDs in the source. Here they are natural numbers, and messages render them in decimal.
- Rows with equal timestamps: the database may return them in any order. The model keeps them in insertion order.
- `Retry.Loop`: the model bounds it with fuel and reports `StillRetrying` when the fuel runs out. The source loops forever under perpetual conflicts.
- `WithdrawFundX.Run`: the same fuel bound as `Retry.Loop`. The source loops forever under perpetual conflicts.
- `DepositFund.Replay`: stated for a replay whose amount is positive. A replay with amount ≤ 0 fails the amount check before the key lookup, as in the source.
- `WithdrawFund.Replay`: stated for a replay whose amount is positive, for the same reason.
- `TransferFund.Replay`: stated for a replay between the same parties. A replay naming other parties is checked against those parties before the key lookup, as in the source.
- `DepositFund.Attempt`: saves its ledger row through the corrected `Ledger.FromRecord`, so the row carries the real pre- and post-balance. The source's constructor leaves both at 0 (see Findings). The balance invariant reads only a row's amount and type, so it holds either way.
- `WithdrawFund.Attempt`: the same corrected row constructor, for the same reason.
- `TransferFund.Attempt`: the same corrected row constructor for both of its rows, for the same reason.
- `Invariants.PostKeepsConsistent`: assumes the supplied clock is not earlier than any existing row. The source takes the time from the system clock.
- `DepositFund.AttemptKeepsConsistent`: the same clock assumption.
- `WithdrawFund.AttemptKeepsConsistent`: the same clock assumption.
- `TransferFund.AttemptKeepsConsistent`: the same clock assumption.
- `WalletService.SubmitKeepsConsistent`: the same clock assumption.

## Findings

| source | as written | input that shows it | evidently intended | confidence | as-written member | corrected member |
|---|---|---|---|---|---|---|
| src/main/java/com/ewallet/dom/model/Transaction.java:62-68 | The `Transaction(TransactionDetailRecord)` constructor copies wallet, names, amount and type, but never assigns `preBalance` or `postBalance`. So every persisted row records balances 0.0 / 0.0. | A deposit of 100 onto a wallet holding 0: the record says pre 0, post 100, and the saved row says pre 0, post 0. That breaks the record's own `post == pre + amount` tie. | The row carries the record's pre- and post-balance. The executors in this model save their rows through this corrected constructor. | high; not executed | `Ledger.FromRecordAsWritten` (witness `Ledger.AsWrittenDropsBalances`) | `Ledger.FromRecord` |
