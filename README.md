# Bank account bookkeeping, modelled in Dafny

A small banking web application. Users register, log in, view their balance,
deposit and withdraw money, and read their transaction history. All of its
logic lives in the HTTP handlers of `bank/main.go`. Without the HTTP and SQL
plumbing, it is a state machine over two tables:

- `users`, keyed by username: id, name, date of birth, gender, password and balance;
- `transactions`, an append-only ledger of rows (user id, type `Deposit` or `Withdrawal`, amount).

The model has three files:

- `outcomes.dfy` (module `Outcomes`): the ways a handler can end, as the `Error` type.
  It also has the SQL statements at which the database can fail, as the `Step` type,
  and the amount check shared by deposit and withdraw (`ValidAmount`).
- `store.dfy` (module `Store`): the two tables as values, and the per-user ledger
  totals (`Total`, `LedgerBalance`). It defines the `UPDATE ... SET balance = balance + $1`
  statement (`Adjust`) and the history query (`HistoryOf`). It also states the
  consistency invariant `Consistent`:
  - usernames are unique;
  - ids are distinct and issued in order;
  - every ledger row has a positive amount and belongs to an existing user;
  - every balance is non-negative and equals that user's deposits minus withdrawals.

  The lemmas prove that each kind of update keeps this invariant, and they pin down
  what the history query returns.
- `bank.dfy` (module `Handlers`): the class `Bank`, whose fields are the two tables
  (`users: map<string, User>`, `ledger: seq<LedgerRow>`) and the next id. It has one
  method per handler. Deposit and withdraw run inside one database transaction that
  has a deferred rollback. In the model, each of these methods works on local copies
  of the tables and assigns them back only at the commit. So every path that ends
  early leaves the tables untouched, and the contracts state exactly that. A `fault`
  parameter names the SQL statement that fails, if any. This is how the model covers
  the "Database error" branches. Two clients use only the contracts.
  `OverdraftSession` runs a session on a fresh bank: register, a duplicate
  registration, deposit, withdraw, an overdraft and a zero amount.
  `HistoryAfterDepositThenWithdraw` shows that on any consistent bank a deposit of
  100 then a withdrawal of 30 head the history in reverse order, and that the
  history handler as written shows only the withdrawal when the row iteration
  fails after one row (see "Findings").

Amounts and balances are exact `real`s. The outcome of `strconv.ParseFloat` is a
parameter of type `Option<real>`: `None` stands for a parse error. A ledger row's
timestamp is its position in the ledger, so "newest first" means "highest position first".

Three behaviours of the handlers to note:

- An unknown username in deposit or withdraw ends in the generic database error.
  For a deposit, the update touches zero rows and the id lookup then finds none.
  For a withdrawal, the balance read finds none.
- Registration also refuses a password that differs from its confirmation.
- A successful login hands on the username, not an account id.

## Model

| member | source | states |
|---|---|---|
| Store.Adjust | bank/main.go:184 | The balance update touches only the row with that username and moves it by exactly the delta. An unknown username changes no row. |
| Store.TotalAppend | bank/main.go:197-198 | Appending a ledger row adds exactly that row's amount to its owner's total of its type, and nothing to any other total. |
| Store.TotalAbsent | bank/main.go:103 | A user with no ledger rows has zero deposits and zero withdrawals, matching the balance 0.0 set at registration. |
| Store.LedgerBalanceAppend | bank/main.go:254-255 | An appended row moves its owner's ledger balance by plus or minus its amount, by its type, and leaves every other user's ledger balance unchanged. |
| Store.RegisterKeepsConsistent | bank/main.go:91-104 | Inserting a user whose username is not taken, with a fresh id and balance 0, keeps usernames unique, ids distinct, and every balance equal to its ledger balance. |
| Store.PostKeepsConsistent | bank/main.go:184-198 | Posting a positive amount for an existing user keeps the tables consistent when it is a deposit, or a withdrawal no larger than the balance. Posting means changing the balance by the signed amount and appending the matching row. |
| Store.DepositKeepsConsistent | bank/main.go:184-198 | A positive deposit to an existing user, with its Deposit row, keeps every balance equal to deposits minus withdrawals and non-negative. |
| Store.WithdrawKeepsConsistent | bank/main.go:236-255 | A withdrawal with its Withdrawal row keeps the tables consistent if and only if the amount is at most the balance. So the balance check is exactly what prevents a negative balance. |
| Store.HistoryOf | bank/main.go:285 | The user's history is never longer than the ledger. The lemmas below characterise it. |
| Store.HistoryAppend | bank/main.go:285 | A new row of the user becomes the first history entry, with the next timestamp. A row of another user leaves the history unchanged. |
| Store.HistoryRowsOwned | bank/main.go:285 | Every history entry is a ledger row of that user, with that row's type and amount. |
| Store.HistoryNewestFirst | bank/main.go:285 | History timestamps strictly decrease, so the history is newest first. |
| Store.HistoryComplete | bank/main.go:285-301 | Every ledger row of the user appears in the history. |
| Store.Consistent | bank/main.go:184-255 | The invariant every handler keeps: each user row is stored under its own username, ids are distinct and below the next id, each ledger row has a positive amount and an existing owner, and each balance is non-negative and equals that user's deposits minus withdrawals. |
| Outcomes.ValidAmount | bank/main.go:171-172 | The amount check of deposit and withdraw: the amount parsed and is greater than zero. |
| Handlers.Bank.Register | bank/main.go:74-112 | A mismatched confirmation gives PasswordMismatch. A failing count query gives a database error. A taken username gives DuplicateUsername, and DuplicateUsername comes only for a taken username. A failing insert of a new username gives a database error. On success exactly one user is added, with the next id, balance 0 and no ledger rows. Any failure leaves both tables unchanged. |
| Handlers.Bank.Login | bank/main.go:114-140 | Succeeds if and only if the username exists and the stored password equals the given one. Every other outcome is InvalidCredentials, except a failed query, which is a database error. |
| Handlers.Bank.Dashboard | bank/main.go:142-166 | A failed query gives a database error and an unknown user UnknownUser. Otherwise the result is the user's stored record with the password left blank. Its balance is non-negative and equals the user's deposits minus withdrawals. |
| Handlers.Bank.Deposit | bank/main.go:168-211 | An unparsed or non-positive amount gives InvalidAmount. Success comes exactly for a valid amount, an existing user and no failing statement. The user's balance then rises by the amount, one Deposit row is appended and no other user changes. Every failure leaves both tables unchanged. |
| Handlers.Bank.Withdraw | bank/main.go:213-268 | An invalid amount gives InvalidAmount. InsufficientFunds comes exactly when the balance read succeeds and the balance is below the amount. With a valid amount, an unknown user gives a database error, and so does every failure other than InsufficientFunds. Success comes exactly when the amount is at most the balance, the user exists and no statement fails. The balance then falls by the amount and stays non-negative, and one Withdrawal row is appended. Every failure leaves both tables unchanged. |
| Handlers.Bank.ReadHistoryRows | bank/main.go:285-301 | The rows read are always a prefix of the user's history, newest first. A failing scan, or an iteration that stops with an error (including an error from the final `rows.Next()` after the last row), is reported, and the prefix then has exactly as many rows as were delivered before it. Otherwise the rows are the whole history. |
| Handlers.Bank.HistoryAsWritten | bank/main.go:270-312 | A failed user lookup or query gives a database error and an unknown user UnknownUser. A failing scan gives a database error. An iteration that stops with an error before the last row still succeeds, with a strict prefix of the history; one reported by the final `rows.Next()` is ignored. Otherwise the result is exactly the user's ledger rows, newest first. |
| Handlers.Bank.History | bank/main.go:270-312 | The history handler with the iteration error checked. A failed user lookup gives a database error and an unknown user UnknownUser. For an existing user every failure is a database error. Success comes exactly when no query, scan or iteration fails, including the final `rows.Next()` after the last row, and the result is then exactly the user's ledger rows, newest first. |

## Left out

- HTTP routing, form and query parsing, redirects, template rendering and static files (`homeHandler`, `initTemplates`, `main`). These are I/O; a handler's redirect or page is its `Outcome`/`Result` here.
- The database connection and the postgres driver (`initDB`). The two tables are in-memory fields, and a store failure is the `fault` parameter.
- Floating point. Amounts are exact reals, so float64 rounding of `balance + amount` is not modelled. Neither is the fact that `ParseFloat` accepts "NaN" and "Inf", which both pass the `amount <= 0` check; "Inf" would make a balance infinite.
- Concurrency and isolation levels. Each handler is one atomic step. The race between the balance read and the update in a withdrawal is not modelled. Neither is the race between the username count and the insert at registration, nor the property that N concurrent withdrawals of A from a balance B succeed floor(B/A) times.
- Timestamps. The database sets them; here a row's timestamp is its ledger position. So rows that tie on a database timestamp, whose `ORDER BY` order is unspecified, do not occur in the model.
- `bank/main.go` does not define the table schema. The model assumes ids are issued in increasing order from 1, and a failed insert does not consume an id.
- Handlers.Bank.History and Handlers.Bank.HistoryAsWritten: return the transaction list only. The history page also shows part of the user record (id, name, username and balance), a subset of what `Handlers.Bank.Dashboard` returns.
- Plaintext password storage and comparison: a security concern, not bookkeeping logic.

## Findings

| source | as written | input that shows it | evidently intended | confidence | as-written member | corrected member |
|---|---|---|---|---|---|---|
| bank/main.go:293-301 | The `for rows.Next()` loop of the history handler never checks `rows.Err()`, so an iteration that stops with an error looks like the end of the result. | A user with two ledger rows, where `rows.Next()` fails instead of delivering the second row (`NextRow(1)`): the page shows one row as the whole history. | Report "Database error", as for a failed scan, rather than a truncated history. | medium; not executed | Handlers.Bank.HistoryAsWritten | Handlers.Bank.History |
