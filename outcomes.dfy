/**
  What a bank handler can answer, and the points at which the database can fail.

  Each handler of the bank either succeeds (a redirect to the next page) or ends
  with one of the user-facing messages or a generic "Database error" response.
  Those endings are the `Error` values below.
 */
module Outcomes {

  datatype Option<+T> = None | Some(value: T)

  /** The distinct ways a handler can end without success. */
  datatype Error =
    | InvalidAmount        // "Invalid amount": the amount did not parse or was <= 0
    | InsufficientFunds    // "Insufficient funds": a withdrawal above the balance
    | PasswordMismatch     // "Passwords do not match" at registration
    | DuplicateUsername    // "Username already exists" at registration
    | InvalidCredentials   // "Invalid credentials" at login
    | UnknownUser          // no such user on a read-only page: redirect to /login
    | DatabaseError        // a failed SQL statement: HTTP 500 "Database error"

  /** Result of a handler that changes the tables. */
  datatype Outcome = Pass | Fail(error: Error)

  /** Result of a handler that reads and returns something. */
  datatype Result<+T> = Ok(value: T) | Err(error: Error)

  /**
    The SQL statements the handlers issue, each a point at which the store can
    report an error. A handler is given at most one failing step: the first
    statement that fails ends the handler.
   */
  datatype Step =
    | Begin           // db.Begin()
    | ReadBalance     // SELECT balance FROM users WHERE username = $1
    | UpdateBalance   // UPDATE users SET balance = balance +/- $1 WHERE username = $2
    | ReadId          // SELECT id FROM users WHERE username = $1
    | InsertRow       // INSERT INTO transactions (user_id, type, amount)
    | Commit          // tx.Commit()
    | CountUsers      // SELECT COUNT(*) FROM users WHERE username = $1
    | InsertUser      // INSERT INTO users (...)
    | ReadUser        // SELECT ... FROM users WHERE username = $1 (login, dashboard, history)
    | QueryRows       // SELECT type, amount, timestamp FROM transactions WHERE user_id = $1 ...
    | NextRow(row: nat) // rows.Next() fails instead of delivering the row at this position
                        // (at the position after the last row: the final call reports an error)
    | ScanRow(row: nat) // rows.Scan of the row at this position of the query result

  /** True when the store fails at one of `steps`. */
  predicate FailsIn(fault: Option<Step>, steps: set<Step>)
  {
    fault.Some? && fault.value in steps
  }

  /** True when scanning one of the first `n` result rows fails. */
  predicate ScanFailsBefore(fault: Option<Step>, n: nat)
  {
    fault.Some? && fault.value.ScanRow? && fault.value.row < n
  }

  /** True when the row iteration stops with an error before delivering all of the first `n` rows. */
  predicate StopsBefore(fault: Option<Step>, n: nat)
  {
    fault.Some? && fault.value.NextRow? && fault.value.row < n
  }

  /** The amount check of the deposit and withdraw handlers: it parsed and is positive. */
  predicate ValidAmount(parsed: Option<real>)
  {
    parsed.Some? && parsed.value > 0.0
  }
}
