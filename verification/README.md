# accounts: a verified model of the ledger core

This project models the core of `gwuah/accounts`, a small Go HTTP service that keeps a
double-entry ledger in PostgreSQL. It covers four things:

- **Ledger store.** The four tables (users, accounts, transactions, transaction lines) and their
  unique and foreign-key constraints. Every table is a sequence in insertion order, and the row at
  index `i` carries the serial id `i + 1`.
- **Repositories.** The inserts, the account lookups and the balance fold.
- **Transaction service.** It validates a deposit or transfer and turns a deposit into a transfer
  from the genesis account `000000000`. It then resolves both accounts, inserts the transaction
  (its reference is the idempotency key) and checks the source's funds. Finally it appends one
  debit line and one credit line, then commits.
- **Account and user services.** Account-number formatting, account creation, lookup with balance,
  email validation, the lenient integer parse, and user creation.

The database is a `Database` object holding the committed tables. An SQL transaction is a `Tx`
object: a private copy of the tables that only `Commit` publishes, while a rollback discards it.

Each handler is a method over these objects. Its contract equates the outcome and the new
committed state with a pure function of the old state:

- `Process` (through `Run`) for transactions;
- `OpenAccount` for accounts;
- `Register` for users.

The properties are then proved about those functions:

- every failure leaves the store exactly as it was;
- a success appends exactly one transaction with a debit and a credit of `amount * 100`;
- a replayed reference is refused;
- the store invariant `Valid` is preserved;
- the balances of all accounts sum to zero.

Two places where the handler lets a non-genesis account go negative are recorded under Findings.
The rule evidently intended is modelled beside them and proved to prevent overdrafts.

Files: `wrappers.dfy` (Option/Result/Outcome), `decimal.dfy` (decimal numerals), `ledger.dfy`
(tables, constraints, `Database`, `Tx`), `http.dfy` (response statuses), `transactions_repo.dfy`,
`accounts_repo.dfy`, `users_repo.dfy`, `transaction_service.dfy`, `transaction_properties.dfy`,
`account_service.dfy`, `user_service.dfy`.

Facts about the code that the model reproduces as written:

- The `transaction_lines` table declares `amount INTEGER NOT NULL` with no CHECK
  (internal/database/migrations.go:42-50), and `CreateTransactionLine`
  (internal/repos/transactions.go:94-108) inserts whatever amount it is given, so a line with a
  zero or negative amount is stored.
- Lines store `req.Amount * 100` (internal/services/transactions.go:151-162), so balances are in
  cents: a deposit of 200 leaves a balance of 20000.
- Several paths leave the unit of work open instead of rolling it back. Nothing is committed on
  any of them, and the model drops the unit of work. The paths are:
  - in `createTransaction`, the `GetAccounts` error and the `len(accounts) != 2` exit
    (internal/services/transactions.go:99-109), and a nil-account dereference;
  - in `createAccount`, a failed account insert (internal/services/accounts.go:71-76);
  - in `createUser`, the duplicate-email exit and any other insert error
    (internal/services/users.go:92-99);
  - `getAccount`, which never commits or rolls back its unit of work
    (internal/services/accounts.go:97-124).

## Model

| member | source | states |
|---|---|---|
| `Decimal.ZeroPaddedRoundTrip` | internal/services/accounts.go:37 | reading back the `%0<width>d` rendering of n gives n whenever n < 10^width |
| `Decimal.NatToStringValue` | internal/repos/accounts.go:53 | reading back the `%d` rendering of n gives n |
| `Ledger.Seeded` | cmd/accounts/main.go:36-57 | the seeded store (user 1 owning account "000000000") satisfies every table constraint and holds the genesis account |
| `Ledger.SerialLookups` | internal/database/migrations.go:14 | with serial ids, an id names a row exactly when it lies between 1 and the table size |
| `Ledger.AddUserKeepsValid` | internal/database/migrations.go:15 | inserting a user whose email is free keeps emails unique and the store valid |
| `Ledger.AddAccountKeepsValid` | internal/database/migrations.go:22-29 | inserting an account with a free number and an existing user keeps the store valid |
| `Ledger.Database.constructor` | cmd/accounts/main.go:36-57 | a fresh database holds the seeded tables |
| `Ledger.Tx.constructor` | internal/repos/transactions.go:31-33 | a unit of work starts from the committed tables |
| `Ledger.Tx.Commit` | internal/services/transactions.go:181-186 | commit publishes the unit of work's tables |
| `Ledger.Tx.Rollback` | internal/services/transactions.go:113 | rollback ends the unit of work and publishes nothing |
| `TransactionsRepo.GetBalance` | internal/repos/transactions.go:35-76 | the two loops (collect the account's lines, fold credits minus debits) compute `Balance`, which equals credits minus debits of that account; nothing changes |
| `TransactionsRepo.BalanceIsCreditsMinusDebits` | internal/repos/transactions.go:35-76 | the fold over an account's lines equals the sum of its credit amounts minus the sum of its debit amounts |
| `TransactionsRepo.BalanceAppend` | internal/repos/transactions.go:65-73 | appending a line changes only its own account's balance, by +amount for a credit and -amount for a debit |
| `TransactionsRepo.BalanceWithoutLines` | internal/repos/transactions.go:65-75 | an account with no lines has balance 0 |
| `TransactionsRepo.OtherPurposeIsInert` | internal/repos/transactions.go:65-73 | a line whose purpose is neither credit nor debit changes no balance |
| `TransactionsRepo.Create` | internal/repos/transactions.go:78-92 | a taken reference fails with `DuplicateReference` and changes nothing; otherwise exactly one transaction row with the next id is appended |
| `TransactionsRepo.CreateTransactionLine` | internal/repos/transactions.go:94-108 | an existing (transaction, account) pair or a dangling foreign key fails and changes nothing; otherwise exactly one line is appended |
| `AccountsRepo.PlaceholderNumbering` | internal/repos/accounts.go:52-54 | placeholder i is "$" followed by a numeral whose value is i + 1 |
| `AccountsRepo.SplitJoin` | internal/repos/accounts.go:57-60 | joining comma-free parts with "," and splitting at commas gives the parts back |
| `AccountsRepo.BuildPlaceholders` | internal/repos/accounts.go:49-55 | for n numbers, a fresh array of n entries, entry i = "$<i+1>", whose comma-joined list splits back into exactly those n entries |
| `AccountsRepo.SelectByNumbers` | internal/repos/accounts.go:57-58 | every selected account has a requested number, and every stored account with a requested number is selected |
| `AccountsRepo.AccountsOfUser` | internal/repos/accounts.go:30 | the selected accounts are exactly the stored accounts of that user |
| `AccountsRepo.SelectedOnce` | internal/repos/accounts.go:57-58 | the selection comes back in strictly increasing id order, so no account is returned twice |
| `AccountsRepo.SelectPairCount` | internal/database/migrations.go:25 | with unique numbers, looking up [x, y] returns one row per existing number, counting x = y once |
| `AccountsRepo.ResolvesTwo` | internal/repos/accounts.go:44-74 | looking up [x, y] yields two rows iff x != y and both exist; [x, x] yields at most one |
| `AccountsRepo.GetAccounts` | internal/repos/accounts.go:44-74 | an empty list fails; otherwise the scan returns exactly `SelectByNumbers` of the unit of work's accounts |
| `AccountsRepo.Arguments` | internal/repos/accounts.go:50-55 | the argument array is fresh and holds the requested numbers in order |
| `AccountsRepo.ScanByNumbers` | internal/repos/accounts.go:68-95 | the row scan returns exactly `SelectByNumbers`: the accounts whose number is among the arguments, in table order |
| `AccountsRepo.GetByUserID` | internal/repos/accounts.go:29-42 | the scan returns exactly the accounts of the user, in table order |
| `AccountsRepo.Create` | internal/repos/accounts.go:97-111 | a taken number or an unknown user fails and changes nothing; otherwise exactly one account with the next id is appended |
| `UsersRepo.Create` | internal/repos/users.go:61-71 | a taken email fails with `DuplicateEmail` and changes nothing; otherwise exactly one user is appended |
| `TransactionService.StatusOf` | internal/services/transactions.go:71-179 | a refused request is never answered 200. Validation errors get 400. A duplicate reference gets 409 (line 116). Insufficient balance gets 422 (line 142). Unresolved accounts and a refused line insert get 500. A nil dereference writes no status |
| `TransactionService.Validate` | internal/services/transactions.go:38-59 | only "deposit" and "transfer" pass; a deposit needs a non-empty `to` other than the genesis number, a transfer needs `from` and `to`; amount 0 is rejected and nothing else about the amount is checked |
| `TransactionService.GetAccountByAccountNumber` | internal/services/transactions.go:194-201 | returns the first account of the list with that number (no earlier account has it), and nothing exactly when no account has it |
| `TransactionService.LookupThroughSelection` | internal/services/transactions.go:151-163 | the account picked from the lookup result is the first account of the table with that number |
| `TransactionService.Run` | internal/services/transactions.go:61-192 | any failure leaves the tables unchanged; a success adds one transaction and two lines and leaves users and accounts alone |
| `TransactionService.Record` | internal/services/transactions.go:127-163 | after the funds check, every failure leaves the store unchanged and a success adds one transaction and two lines |
| `TransactionService.Post` | internal/services/transactions.go:165-179 | a refused debit or credit insert leaves the committed store unchanged, so no half-entry survives |
| `TransactionService.CreateTransaction` | internal/services/transactions.go:61-192 | the handler's step sequence through a unit of work yields exactly `Process` of the old committed state; every failure leaves the database as it was |
| `TransactionService.Settle` | internal/services/transactions.go:127-190 | the funds check, both line inserts and the commit yield exactly `Record` of the committed state |
| `TransactionProperties.OutcomeUnderValid` | internal/services/transactions.go:61-192 | against a valid store the outcome is the first failing check among validation, two distinct existing accounts, a fresh reference and the funds rule for a non-genesis source. No request reaches a nil account or a refused line insert. The store stays valid, and a success appends exactly `Entry` |
| `TransactionProperties.RecordUnderValid` | internal/services/transactions.go:127-179 | in a valid store, with both accounts resolved and a fresh reference, the outcome is the funds check alone: insufficient funds change nothing, otherwise exactly `Entry` is appended and the store stays valid |
| `TransactionProperties.PostKeepsValid` | internal/services/transactions.go:151-179 | in a valid store both line inserts of a new transaction succeed and the result is valid again |
| `TransactionProperties.NoCrashUnderValid` | internal/services/transactions.go:99-179 | against a valid store no request reaches the nil dereference; a refusal is answered 500 exactly when the accounts were not resolved |
| `TransactionProperties.SuccessAppendsOneEntry` | internal/services/transactions.go:151-190 | a success appends the transaction with its reference, a debit of amount*100 on the source account and a credit of amount*100 on `to`, and nothing else |
| `TransactionProperties.ReplayRejected` | internal/services/transactions.go:111-121 | replaying a request that succeeded is refused as a duplicate and changes nothing |
| `TransactionProperties.FundsChecked` | internal/services/transactions.go:127-147 | a success from a non-genesis source had a balance satisfying the funds rule before the request |
| `TransactionProperties.EntryBalance` | internal/services/transactions.go:151-163 | an entry lowers the source's balance by the amount, raises the destination's, and leaves all others |
| `TransactionProperties.TransferMovesBalance` | internal/services/transactions.go:151-179 | a success moves amount*100 from source to destination (two distinct accounts) and no other balance changes |
| `TransactionProperties.PairsTotalZero` | internal/services/transactions.go:151-163 | lines made of equal debit/credit pairs total zero |
| `TransactionProperties.SumBalancesIsTotal` | internal/repos/transactions.go:65-73 | when every line names a stored account, the balances of all accounts add up to the total over all lines |
| `TransactionProperties.Conservation` | internal/services/transactions.go:151-179 | in a valid store the balances of all accounts, genesis included, sum to zero |
| `TransactionProperties.SeededHasNoOverdraft` | cmd/accounts/main.go:36-57 | a fresh store has no negative non-genesis balance |
| `TransactionProperties.EntryKeepsNoOverdraft` | internal/services/transactions.go:127-163 | an entry of a non-negative amount whose non-genesis source covers it keeps all non-genesis balances non-negative |
| `TransactionProperties.IntendedRulesKeepBalancesNonNegative` | internal/services/transactions.go:127-147 | with the funds check on the stored amount and negative amounts refused, no request takes a non-genesis account below zero |
| `TransactionProperties.UnscaledCheckAdmitsOverdraft` | internal/services/transactions.go:139-161 | a source holding at least `amount` but under `amount*100` cents passes the handler's check and ends below zero; the intended rule refuses it |
| `TransactionProperties.UnscaledFundsCheckOverdraws` | internal/services/transactions.go:139-161 | concretely: after a deposit of 1 (100 cents), a transfer of 2 succeeds and leaves -100 |
| `TransactionProperties.NegativeDepositOverdraws` | internal/services/transactions.go:54-58 | concretely: a deposit of -1 into an empty account succeeds and leaves it at -100; the intended rules refuse it |
| `AccountService.StatusOf` | internal/services/accounts.go:50-108 | a refusal is never answered 200: a missing user id gets 400, a failed insert or a failed lookup 500, and the nil dereference of an unknown number writes no status |
| `AccountService.CreateAccountNumber` | internal/services/accounts.go:35-38 | for a draw below 10^9 the number has exactly 9 decimal digits and reads back as the draw |
| `AccountService.AccountNumberInjective` | internal/services/accounts.go:35-38 | two draws give the same number exactly when they are equal |
| `AccountService.ZeroDrawIsGenesis` | internal/services/accounts.go:37 | the draw 0 renders as the genesis number "000000000" |
| `AccountService.CreateAccount` | internal/services/accounts.go:40-89 | the handler (validate, render, insert, commit) yields exactly `OpenAccount` of the old committed state |
| `AccountService.OpenAccountOutcome` | internal/services/accounts.go:28-89 | user id 0 is rejected. A request succeeds iff the id is non-zero, names a user and the number is free. A success appends exactly one account with that user and number, a failure changes nothing, and the store stays valid |
| `AccountService.CollisionNotRetried` | internal/services/accounts.go:71-76 | a draw whose number is taken fails with a duplicate-number error and the store is unchanged; no second draw is tried |
| `AccountService.ZeroDrawCollides` | internal/services/accounts.go:61-76 | the draw 0 always collides with the seeded genesis account |
| `AccountService.GetAccount` | internal/services/accounts.go:91-126 | succeeds iff an account has the number; it then returns that account with balance = credits - debits of its lines; an unknown number is the nil-account error; nothing is written |
| `UserService.TrimLeft` | internal/services/users.go:28 | the result is a suffix that dropped only white space and does not start with white space |
| `UserService.TrimRight` | internal/services/users.go:28 | the result is a prefix that dropped only white space and does not end with white space |
| `UserService.TrimSpaceEmpty` | internal/services/users.go:28-30 | trimming leaves the empty string exactly when every character is white space |
| `UserService.ValidEmailIff` | internal/services/users.go:27-32 | an email is accepted exactly when it has a non-white-space character |
| `UserService.StringToInt` | internal/services/users.go:34-38 | the result lies in the 64-bit range. A well-formed numeral (optional `+` or `-`, then at least one digit, leading zeros allowed) gives the integer it denotes when that fits in 64 bits, and otherwise the bound on its side. A string that is not well formed gives 0, unless its leading digit run already exceeds 2^64 - 1 |
| `UserService.SignAndLeadingZerosIgnored` | internal/services/users.go:35 | a `+` sign and a leading zero change nothing: "+d" and "0d" parse like "d", and "-0d" like "-d" |
| `UserService.StringToIntOverflowBeforeJunk` | internal/services/users.go:35 | a leading digit run past 2^64 - 1 gives the 64-bit bound on its sign's side, whatever characters follow it, as `ParseUint` stops with a range error at the overflowing digit |
| `UserService.ShortStringsDoNotOverflow` | internal/services/users.go:35 | a string shorter than 19 characters never reaches that range error, so Atoi's fast path and the general parse agree |
| `UserService.StringToIntRoundTrip` | internal/services/users.go:34-38 | parsing the decimal numeral of any 64-bit integer gives it back |
| `UserService.StringToIntSaturates` | internal/services/users.go:35-37 | a numeral beyond the 64-bit range parses to the bound on its side |
| `UserService.StatusOf` | internal/services/users.go:75-96 | both refusals, an empty email and a taken one, are answered 400 |
| `UserService.CreateUser` | internal/services/users.go:65-113 | the handler (validate, insert, commit) yields exactly `Register` of the old committed state |
| `UserService.RegisterOutcome` | internal/services/users.go:65-113 | a request succeeds iff the email has a non-space character and is unused, and a taken email is refused as "email already taken". A success appends one user with the untrimmed email, a failure changes nothing, and the store stays valid |

## Left out

- HTTP routing, JSON decoding and encoding, and logging. A handler's result is an outcome whose
  `StatusOf` gives the response status; response bodies are not modelled.
- SQL driver failures are not modelled: a failed Begin, prepare, query, scan or commit, and a lost
  connection. Every store operation in the model succeeds or fails only on a constraint.
- The error text matched by `strings.Contains` becomes a typed error (`DuplicateReference`,
  `DuplicateEmail`).
- The `crypto/rand` draw of the account number is a parameter `n` below 10^9.
- Concurrency is not modelled: requests run one at a time, so the unlocked read-then-write race on
  balances is out of scope.
- 64-bit overflow of `amount * 100` and of the balance total is not modelled; amounts are
  unbounded integers.
- The migration DDL's own inconsistencies are not modelled. The DDL has no `purpose` column, an
  INTEGER `account_number`, a `reference` column on lines that the insert never fills, and
  malformed CREATE statements. The constraints are modelled as the repositories rely on them.
- `AccountsRepo.GetByUserID`: the Go query selects the column `update_at`
  (internal/repos/accounts.go:30), but the table's column is `updated_at`
  (internal/database/migrations.go:27). As written, preparing the query fails on every call. The
  model returns what the query evidently intends, the user's accounts in table order.
- VARCHAR(100) length limits are not modelled.
- Serial ids are dense: the model does not reproduce the gaps a rolled-back insert leaves in a
  PostgreSQL sequence.
- `internal/repos/users.go` is reduced to the insert. `GetByID`, which indexes the first row and
  panics when there is none, and the `findUser` handler that calls it are not part of this model.
- `UsersRepo.Create`: the insert is written with a `?` placeholder
  (internal/repos/users.go:61-71), which the postgres driver opened by cmd/accounts/main.go:71
  (internal/database/db.go:44) does not accept, so there the prepare fails and every `createUser`
  answers 500. The model treats the insert as executed, as it is under the sqlite driver.
- The insert does not return the new id, so the created user in the response carries id 0. The
  response is not modelled.
- `UserService.CreateUser`: the handler's 500 path for an insert error other than a duplicate email
  is not modelled, because in the model the store refuses a user insert only for a duplicate email.
- The float conversions and the second account-number generator in `pkg/common.go` are not part of
  this model.
- The structs in `internal/models` are replaced by the model's own datatypes.
- The integration test's assertion that account 2 ends with a balance of 200
  (internal/services/integration_test.go:151) is not stated: with the ×100 scaling the two
  transfers of 100 leave it at 20000. Its other checks agree with the model: account 1 ends at 0
  (internal/services/integration_test.go:143), and its third transfer is refused with
  insufficient balance (internal/services/integration_test.go:129-135), as
  `TransactionProperties.OutcomeUnderValid` gives.
- Strings are sequences of Unicode code points rather than UTF-8 bytes. Invalid UTF-8 and
  non-ASCII digits are out of scope for the parse and the trim.

## Findings

| source | as written | input that shows it | evidently intended | confidence | as-written member | corrected member |
|---|---|---|---|---|---|---|
| internal/services/transactions.go:139 | the funds check compares the balance in cents with the unscaled `req.Amount`, while the lines store `req.Amount * 100` | account "000000001" holds 100 cents after a deposit of 1; a transfer of 2 to "000000000" passes (100 >= 2) and leaves it at -100 | compare the balance with `req.Amount * 100` | high, not executed | `TransactionProperties.UnscaledFundsCheckOverdraws` | `TransactionProperties.IntendedRulesKeepBalancesNonNegative` |
| internal/services/transactions.go:54 | validation rejects only a zero amount, so a negative deposit, which skips the funds check, debits the genesis account by a negative amount and credits the target by a negative amount | a deposit of -1 into an account holding 0 succeeds and leaves it at -100 | reject amounts below zero | high, not executed | `TransactionProperties.NegativeDepositOverdraws` | `TransactionProperties.IntendedRulesKeepBalancesNonNegative` |

The corrected behaviour is `Run(t, req, Intended)`, the same step sequence with two changes:

- the funds rule `FundsSuffice(Intended, ...)` compares the balance with the amount as stored;
- negative amounts are refused.

`IntendedRulesKeepBalancesNonNegative` proves that under it no request, from a valid store without
overdrafts, leaves any non-genesis account negative. The handler itself, `CreateTransaction`, is
modelled as written (`Process = Run(_, _, AsWritten)`).
