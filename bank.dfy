/**
  The bank's handlers with the HTTP and SQL layers removed: one class holding
  the `users` and `transactions` tables, one method per handler.

  Deposit and withdraw run as one database transaction whose deferred rollback
  undoes every statement unless the commit is reached. Here the transaction works
  on local copies of the two tables and only the commit assigns them back to the
  fields, so every failing path leaves the tables exactly as they were.
  Which SQL statement fails, if any, is the `fault` parameter.
 */
module Handlers {
  import opened Outcomes
  import opened Store

  /** The statements of the deposit transaction. */
  const DepositSteps: set<Step> := {Begin, UpdateBalance, ReadId, InsertRow, Commit}

  /** The statements of the withdraw transaction. */
  const WithdrawSteps: set<Step> := {Begin, ReadBalance, UpdateBalance, ReadId, InsertRow, Commit}

  class Bank {
    /** The `users` table, keyed by username. */
    var users: map<string, User>
    /** The `transactions` table in insertion order. */
    var ledger: seq<LedgerRow>
    /** The next id the `users` table hands out. */
    var nextId: nat

    ghost predicate Valid()
      reads this
    {
      Consistent(users, ledger, nextId)
    }

    /** Empty tables; ids start at 1. */
    constructor ()
      ensures Valid()
      ensures users == map[] && ledger == [] && nextId == 1
    {
      users, ledger, nextId := map[], [], 1;
      EmptyConsistent(1);
    }

    /**
      registerHandler (POST): a mismatched confirmation or a taken username changes
      nothing; otherwise exactly one user is added, with balance 0 and no ledger rows.
     */
    method Register(name: string, dob: string, gender: string, username: string,
                    password: string, confirm: string, fault: Option<Step>) returns (r: Outcome)
      requires Valid()
      modifies this
      ensures Valid()
      ensures password != confirm ==> r == Fail(PasswordMismatch)
      ensures password == confirm && fault == Some(CountUsers) ==> r == Fail(DatabaseError)
      ensures password == confirm && fault != Some(CountUsers) && username in old(users) ==>
                r == Fail(DuplicateUsername)
      ensures password == confirm && username !in old(users) && fault == Some(InsertUser) ==>
                r == Fail(DatabaseError)
      ensures r == Fail(DuplicateUsername) ==> username in old(users)
      ensures r == Pass <==>
                password == confirm && username !in old(users) && !FailsIn(fault, {CountUsers, InsertUser})
      ensures r.Fail? ==> users == old(users) && ledger == old(ledger) && nextId == old(nextId)
      ensures r == Pass ==>
                && users == old(users)[username := User(old(nextId), name, dob, gender, username, password, 0.0)]
                && ledger == old(ledger)
                && nextId == old(nextId) + 1
    {
      if password != confirm {
        return Fail(PasswordMismatch);
      }
      if fault == Some(CountUsers) {
        return Fail(DatabaseError);
      }
      var count := if username in users then 1 else 0;
      if count > 0 {
        return Fail(DuplicateUsername);
      }
      if fault == Some(InsertUser) {
        return Fail(DatabaseError);
      }
      var newUser := User(nextId, name, dob, gender, username, password, 0.0);
      RegisterKeepsConsistent(users, ledger, nextId, newUser);
      users := users[username := newUser];
      nextId := nextId + 1;
      r := Pass;
    }

    /**
      loginHandler (POST): succeeds exactly when the username exists and the stored
      password equals the given one; the answer does not say which check failed.
      On success the username is carried to the dashboard.
     */
    method Login(username: string, password: string, fault: Option<Step>) returns (r: Result<string>)
      ensures fault == Some(ReadUser) ==> r == Err(DatabaseError)
      ensures fault != Some(ReadUser) ==>
                (r.Ok? <==> username in users && users[username].password == password)
      ensures fault != Some(ReadUser) && r.Err? ==> r.error == InvalidCredentials
      ensures r.Ok? ==> r.value == username
    {
      if fault == Some(ReadUser) {
        return Err(DatabaseError);
      }
      if username !in users {
        return Err(InvalidCredentials);
      }
      var stored := users[username];
      if password == stored.password {
        r := Ok(username);
      } else {
        r := Err(InvalidCredentials);
      }
    }

    /**
      dashboardHandler: the user's record without the password column; an unknown
      user is sent back to the login page. The balance shown is never negative and
      is what the ledger accounts for.
     */
    method Dashboard(username: string, fault: Option<Step>) returns (r: Result<User>)
      requires Valid()
      ensures fault == Some(ReadUser) ==> r == Err(DatabaseError)
      ensures fault != Some(ReadUser) && username !in users ==> r == Err(UnknownUser)
      ensures r.Ok? <==> fault != Some(ReadUser) && username in users
      ensures r.Ok? ==>
                && r.value == users[username].(password := "")
                && r.value.username == username
                && r.value.balance >= 0.0
                && r.value.balance == LedgerBalance(ledger, r.value.id)
    {
      if fault == Some(ReadUser) {
        return Err(DatabaseError);
      }
      if username !in users {
        return Err(UnknownUser);
      }
      var user := users[username];
      assert UserOk(users, ledger, nextId, username);
      r := Ok(user.(password := ""));
    }

    /**
      depositHandler: an amount that did not parse or is not positive is refused
      before the transaction starts. Otherwise the balance rises by the amount and
      one Deposit row is appended; an unknown username updates zero rows and then
      fails at the id lookup, and any failing statement rolls everything back.
     */
    method Deposit(username: string, parsed: Option<real>, fault: Option<Step>) returns (r: Outcome)
      requires Valid()
      modifies this
      ensures Valid()
      ensures !ValidAmount(parsed) ==> r == Fail(InvalidAmount)
      ensures ValidAmount(parsed) && r != Pass ==> r == Fail(DatabaseError)
      ensures r == Pass <==> ValidAmount(parsed) && username in old(users) && !FailsIn(fault, DepositSteps)
      ensures r != Pass ==> users == old(users) && ledger == old(ledger) && nextId == old(nextId)
      ensures r == Pass ==>
                && users == Adjust(old(users), username, parsed.value)
                && users[username].balance == old(users)[username].balance + parsed.value
                && ledger == old(ledger) + [LedgerRow(old(users)[username].id, Kind.Deposit, parsed.value)]
                && nextId == old(nextId)
    {
      if parsed.None? || parsed.value <= 0.0 {
        return Fail(InvalidAmount);
      }
      var amount := parsed.value;
      if fault == Some(Begin) {
        return Fail(DatabaseError);
      }
      // The transaction's view of the tables; dropped on every early return.
      var txUsers, txLedger := users, ledger;
      if fault == Some(UpdateBalance) {
        return Fail(DatabaseError);
      }
      txUsers := Adjust(txUsers, username, amount);
      if fault == Some(ReadId) || username !in txUsers {
        return Fail(DatabaseError);
      }
      var userId := txUsers[username].id;
      if fault == Some(InsertRow) {
        return Fail(DatabaseError);
      }
      txLedger := txLedger + [LedgerRow(userId, Kind.Deposit, amount)];
      if fault == Some(Commit) {
        return Fail(DatabaseError);
      }
      assert userId == users[username].id;
      DepositKeepsConsistent(users, ledger, nextId, username, amount);
      users, ledger := txUsers, txLedger;
      r := Pass;
    }

    /**
      withdrawHandler: the same amount check as a deposit; then, inside the
      transaction, a balance below the amount is refused. Withdrawing the whole
      balance is allowed and leaves 0. On success the balance falls by the amount
      and one Withdrawal row is appended; any failing statement rolls everything back.
     */
    method Withdraw(username: string, parsed: Option<real>, fault: Option<Step>) returns (r: Outcome)
      requires Valid()
      modifies this
      ensures Valid()
      ensures !ValidAmount(parsed) ==> r == Fail(InvalidAmount)
      ensures r == Fail(InsufficientFunds) <==>
                && ValidAmount(parsed)
                && !FailsIn(fault, {Begin, ReadBalance})
                && username in old(users)
                && old(users)[username].balance < parsed.value
      ensures ValidAmount(parsed) && username !in old(users) ==> r == Fail(DatabaseError)
      ensures ValidAmount(parsed) && r.Fail? && r.error != InsufficientFunds ==> r.error == DatabaseError
      ensures r == Pass <==>
                && ValidAmount(parsed)
                && username in old(users)
                && parsed.value <= old(users)[username].balance
                && !FailsIn(fault, WithdrawSteps)
      ensures r != Pass ==> users == old(users) && ledger == old(ledger) && nextId == old(nextId)
      ensures r == Pass ==>
                && users == Adjust(old(users), username, -parsed.value)
                && users[username].balance == old(users)[username].balance - parsed.value
                && users[username].balance >= 0.0
                && ledger == old(ledger) + [LedgerRow(old(users)[username].id, Withdrawal, parsed.value)]
                && nextId == old(nextId)
    {
      if parsed.None? || parsed.value <= 0.0 {
        return Fail(InvalidAmount);
      }
      var amount := parsed.value;
      if fault == Some(Begin) {
        return Fail(DatabaseError);
      }
      // The transaction's view of the tables; dropped on every early return.
      var txUsers, txLedger := users, ledger;
      if fault == Some(ReadBalance) || username !in txUsers {
        return Fail(DatabaseError);
      }
      var balance := txUsers[username].balance;
      if balance < amount {
        return Fail(InsufficientFunds);
      }
      if fault == Some(UpdateBalance) {
        return Fail(DatabaseError);
      }
      txUsers := Adjust(txUsers, username, -amount);
      if fault == Some(ReadId) {
        return Fail(DatabaseError);
      }
      var userId := txUsers[username].id;
      if fault == Some(InsertRow) {
        return Fail(DatabaseError);
      }
      txLedger := txLedger + [LedgerRow(userId, Withdrawal, amount)];
      if fault == Some(Commit) {
        return Fail(DatabaseError);
      }
      assert userId == users[username].id;
      WithdrawKeepsConsistent(users, ledger, nextId, username, amount);
      users, ledger := txUsers, txLedger;
      r := Pass;
    }

    /**
      The row loop of transactionHistoryHandler, over the result of its query: the
      user's ledger rows, newest first. The query's filter and ordering and the loop
      are one downward scan of the ledger that appends each of the user's rows as it
      is read. The loop ends early when scanning a row fails, or when `rows.Next()`
      stops with an error; `read` is then what was appended so far. The last call of
      `rows.Next()`, after every row, can report an error too: `stopped` with the
      whole history read.
     */
    method ReadHistoryRows(id: nat, fault: Option<Step>) returns (read: seq<Transaction>, scanFailed: bool, stopped: bool)
      ensures read <= HistoryOf(ledger, id)
      ensures scanFailed <==> ScanFailsBefore(fault, |HistoryOf(ledger, id)|)
      ensures stopped <==> StopsBefore(fault, |HistoryOf(ledger, id)| + 1)
      ensures scanFailed || stopped ==> |read| == fault.value.row
      ensures !scanFailed && !stopped ==> read == HistoryOf(ledger, id)
    {
      read, scanFailed, stopped := [], false, false;
      var i := |ledger|;
      assert ledger[..i] == ledger;
      while i > 0
        invariant 0 <= i <= |ledger|
        invariant read + HistoryOf(ledger[..i], id) == HistoryOf(ledger, id)
        invariant !ScanFailsBefore(fault, |read|) && !StopsBefore(fault, |read|)
      {
        i := i - 1;
        assert ledger[..i + 1][..i] == ledger[..i];
        if ledger[i].userId == id {
          if fault == Some(NextRow(|read|)) {
            return read, false, true;
          }
          if fault == Some(ScanRow(|read|)) {
            return read, true, false;
          }
          read := read + [Transaction(ledger[i].kind, ledger[i].amount, i)];
        }
      }
      stopped := fault == Some(NextRow(|read|));
    }

    /**
      transactionHistoryHandler as written: after the row loop, `rows.Err()` is never
      consulted, so a loop that `rows.Next()` ended with an error is taken for the end
      of the result, and the page shows the rows read so far as the whole history.
     */
    method HistoryAsWritten(username: string, fault: Option<Step>) returns (r: Result<seq<Transaction>>)
      ensures fault == Some(ReadUser) ==> r == Err(DatabaseError)
      ensures fault != Some(ReadUser) && username !in users ==> r == Err(UnknownUser)
      ensures fault != Some(ReadUser) && username in users && r.Err? ==> r.error == DatabaseError
      ensures r.Ok? <==>
                && !FailsIn(fault, {ReadUser, QueryRows})
                && username in users
                && !ScanFailsBefore(fault, |HistoryOf(ledger, users[username].id)|)
      ensures r.Ok? ==> r.value <= HistoryOf(ledger, users[username].id)
      ensures (&& r.Ok?
               && !StopsBefore(fault, |HistoryOf(ledger, users[username].id)|)) ==>
                r.value == HistoryOf(ledger, users[username].id)
      ensures (&& username in users
               && StopsBefore(fault, |HistoryOf(ledger, users[username].id)|)) ==>
                && r.Ok?
                && r.value == HistoryOf(ledger, users[username].id)[..fault.value.row]
                && r.value != HistoryOf(ledger, users[username].id)
    {
      if fault == Some(ReadUser) {
        return Err(DatabaseError);
      }
      if username !in users {
        return Err(UnknownUser);
      }
      var id := users[username].id;
      if fault == Some(QueryRows) {
        return Err(DatabaseError);
      }
      var transactions, scanFailed, stopped := ReadHistoryRows(id, fault);
      if scanFailed {
        return Err(DatabaseError);
      }
      r := Ok(transactions);
    }

    /**
      transactionHistoryHandler with the iteration error checked: a loop that
      `rows.Next()` ended with an error is a database error, like a failed scan, so
      a page of history is shown only when it holds every row of the user.
     */
    method History(username: string, fault: Option<Step>) returns (r: Result<seq<Transaction>>)
      ensures fault == Some(ReadUser) ==> r == Err(DatabaseError)
      ensures fault != Some(ReadUser) && username !in users ==> r == Err(UnknownUser)
      ensures fault != Some(ReadUser) && username in users && r.Err? ==> r.error == DatabaseError
      ensures r.Ok? <==>
                && !FailsIn(fault, {ReadUser, QueryRows})
                && username in users
                && !ScanFailsBefore(fault, |HistoryOf(ledger, users[username].id)|)
                && !StopsBefore(fault, |HistoryOf(ledger, users[username].id)| + 1)
      ensures r.Ok? ==> r.value == HistoryOf(ledger, users[username].id)
    {
      if fault == Some(ReadUser) {
        return Err(DatabaseError);
      }
      if username !in users {
        return Err(UnknownUser);
      }
      var id := users[username].id;
      if fault == Some(QueryRows) {
        return Err(DatabaseError);
      }
      var transactions, scanFailed, stopped := ReadHistoryRows(id, fault);
      if scanFailed || stopped {
        return Err(DatabaseError);
      }
      r := Ok(transactions);
    }
  }

  /**
    A client of any consistent bank: after a deposit of 100 and a withdrawal of 30
    by an existing user, the history starts with the withdrawal, then the deposit.
   */
  method HistoryAfterDepositThenWithdraw(bank: Bank, name: string)
    requires bank.Valid() && name in bank.users
    modifies bank
  {
    ghost var before := bank.ledger;
    ghost var id := bank.users[name].id;
    assert UserOk(bank.users, bank.ledger, bank.nextId, name);
    var d := bank.Deposit(name, Some(100.0), None);
    assert d == Pass && bank.users[name].balance >= 100.0;
    var w := bank.Withdraw(name, Some(30.0), None);
    assert w == Pass;
    var h := bank.History(name, None);
    HistoryAppend(before, LedgerRow(id, Deposit, 100.0), id);
    HistoryAppend(before + [LedgerRow(id, Deposit, 100.0)], LedgerRow(id, Withdrawal, 30.0), id);
    assert h.Ok?;
    assert h.value[..2] == [Transaction(Withdrawal, 30.0, |before| + 1), Transaction(Deposit, 100.0, |before|)];
    var cut := bank.HistoryAsWritten(name, Some(NextRow(1)));
    assert cut == Ok([Transaction(Withdrawal, 30.0, |before| + 1)]) && cut != h;
  }

  /**
    A session on a fresh bank: a second registration under the same username is
    refused, an overdraft and a zero amount change nothing, and withdrawing the
    whole balance leaves 0.
   */
  method OverdraftSession()
  {
    var bank := new Bank();
    var reg := bank.Register("Ann", "1990-01-01", "F", "ann", "pw", "pw", None);
    var again := bank.Register("Bob", "1991-02-02", "M", "ann", "x", "x", None);
    assert again == Fail(DuplicateUsername);
    var d := bank.Deposit("ann", Some(50.0), None);
    var w := bank.Withdraw("ann", Some(20.0), None);
    assert w == Pass && bank.users["ann"].balance == 30.0;
    var over := bank.Withdraw("ann", Some(100.0), None);
    assert over == Fail(InsufficientFunds) && bank.users["ann"].balance == 30.0;
    var zero := bank.Deposit("ann", Some(0.0), None);
    assert zero == Fail(InvalidAmount);
    var all := bank.Withdraw("ann", Some(30.0), None);
    assert all == Pass && bank.users["ann"].balance == 0.0;
  }
}
