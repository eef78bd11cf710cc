/**
  The two tables of the bank as values: `users`, keyed by username, and the
  append-only `transactions` ledger; the consistency invariant that ties them
  together; and the history query over the ledger.

  Amounts and balances are exact `real`s. A ledger row's timestamp is its
  position in the ledger, so "newest first" means "largest position first".
 */
module Store {

  /** A row of the `users` table. */
  datatype User = User(
    id: nat,
    name: string,
    dob: string,
    gender: string,
    username: string,
    password: string,
    balance: real)

  /** The `type` column of the `transactions` table. */
  datatype Kind = Deposit | Withdrawal

  /** A row of the `transactions` table; its position in the ledger is its timestamp. */
  datatype LedgerRow = LedgerRow(userId: nat, kind: Kind, amount: real)

  /** What the history page shows of a ledger row: type, amount and timestamp. */
  datatype Transaction = Transaction(kind: Kind, amount: real, stamp: nat)

  // ---------------------------------------------------------------------------
  // Sums over the ledger
  // ---------------------------------------------------------------------------

  /** What one row contributes to the `kind` total of user `id`. */
  function Share(row: LedgerRow, id: nat, kind: Kind): (s: real)
  {
    if row.userId == id && row.kind == kind then row.amount else 0.0
  }

  /** Sum of the amounts of the rows of user `id` whose type is `kind`. */
  function Total(ledger: seq<LedgerRow>, id: nat, kind: Kind): (t: real)
  {
    if ledger == [] then 0.0 else Share(ledger[0], id, kind) + Total(ledger[1..], id, kind)
  }

  /** Deposits minus withdrawals of user `id`: the balance the ledger accounts for. */
  function LedgerBalance(ledger: seq<LedgerRow>, id: nat): (b: real)
  {
    Total(ledger, id, Deposit) - Total(ledger, id, Withdrawal)
  }

  /** Appending a row adds exactly that row's share to every total. */
  lemma {:induction false} TotalAppend(ledger: seq<LedgerRow>, row: LedgerRow, id: nat, kind: Kind)
    ensures Total(ledger + [row], id, kind) == Total(ledger, id, kind) + Share(row, id, kind)
  {
    if ledger == [] {
      assert [] + [row] == [row];
      assert [row][1..] == [];
    } else {
      assert (ledger + [row])[1..] == ledger[1..] + [row];
      TotalAppend(ledger[1..], row, id, kind);
    }
  }

  /** A user without rows in the ledger has totals of zero. */
  lemma {:induction false} TotalAbsent(ledger: seq<LedgerRow>, id: nat, kind: Kind)
    requires forall i :: 0 <= i < |ledger| ==> ledger[i].userId != id
    ensures Total(ledger, id, kind) == 0.0
  {
    if ledger != [] {
      assert ledger[0].userId != id;
      TotalAbsent(ledger[1..], id, kind);
    }
  }

  /** Appending a row moves the ledger balance of its owner by the signed amount, and no other. */
  lemma LedgerBalanceAppend(ledger: seq<LedgerRow>, row: LedgerRow, id: nat)
    ensures LedgerBalance(ledger + [row], id) ==
      LedgerBalance(ledger, id) + (if row.userId != id then 0.0
                                   else if row.kind == Deposit then row.amount
                                   else -row.amount)
  {
    TotalAppend(ledger, row, id, Deposit);
    TotalAppend(ledger, row, id, Withdrawal);
  }

  // ---------------------------------------------------------------------------
  // The users table
  // ---------------------------------------------------------------------------

  /**
    `UPDATE users SET balance = balance + delta WHERE username = $username`:
    the matching row, if there is one, moves by `delta`; no other row changes,
    and an unknown username updates zero rows.
   */
  function Adjust(users: map<string, User>, username: string, delta: real): (r: map<string, User>)
    ensures r.Keys == users.Keys
    ensures forall u :: u in users && u != username ==> r[u] == users[u]
    ensures username in users ==>
      r[username].balance == users[username].balance + delta &&
      r[username] == users[username].(balance := r[username].balance)
  {
    if username in users then
      users[username := users[username].(balance := users[username].balance + delta)]
    else
      users
  }

  /** The ids of all users. */
  ghost function UserIds(users: map<string, User>): (ids: set<nat>)
  {
    set u | u in users :: users[u].id
  }

  // ---------------------------------------------------------------------------
  // The consistency invariant
  // ---------------------------------------------------------------------------

  /**
    The row of user `u`, if there is one: its username column agrees with the key
    (so no username occurs twice), its id was handed out before `nextId`, and its
    balance is non-negative and equals deposits minus withdrawals in the ledger.
   */
  ghost predicate UserOk(users: map<string, User>, ledger: seq<LedgerRow>, nextId: nat, u: string)
  {
    u in users ==>
      && users[u].username == u
      && users[u].id < nextId
      && users[u].balance >= 0.0
      && users[u].balance == LedgerBalance(ledger, users[u].id)
  }

  /** Two different users have different ids. */
  ghost predicate IdsDiffer(users: map<string, User>, u: string, v: string)
  {
    u in users && v in users && u != v ==> users[u].id != users[v].id
  }

  /** Ledger row `i`, if there is one, has a positive amount and belongs to an existing user. */
  ghost predicate RowOk(users: map<string, User>, ledger: seq<LedgerRow>, i: int)
  {
    0 <= i < |ledger| ==> ledger[i].amount > 0.0 && ledger[i].userId in UserIds(users)
  }

  /**
    The invariant of the two tables. Each part is stated per user, per pair of
    users or per row, so that it is used only where a proof asks for it.
   */
  ghost predicate Consistent(users: map<string, User>, ledger: seq<LedgerRow>, nextId: nat)
  {
    && (forall u :: UserOk(users, ledger, nextId, u))
    && (forall u, v :: IdsDiffer(users, u, v))
    && (forall i :: RowOk(users, ledger, i))
  }

  /** The empty tables are consistent. */
  lemma EmptyConsistent(nextId: nat)
    ensures Consistent(map[], [], nextId)
  {
  }

  /**
    Registration inserts a fresh user with balance 0 and keeps the tables
    consistent: the new id has no ledger rows, so its ledger balance is 0 too.
   */
  lemma RegisterKeepsConsistent(users: map<string, User>, ledger: seq<LedgerRow>, nextId: nat,
                                newUser: User)
    requires Consistent(users, ledger, nextId)
    requires newUser.username !in users && newUser.id == nextId && newUser.balance == 0.0
    ensures Consistent(users[newUser.username := newUser], ledger, nextId + 1)
  {
    var users' := users[newUser.username := newUser];
    forall i ensures RowOk(users', ledger, i) && (0 <= i < |ledger| ==> ledger[i].userId != nextId) {
      assert RowOk(users, ledger, i);
      if 0 <= i < |ledger| {
        var u :| u in users && users[u].id == ledger[i].userId;
        assert UserOk(users, ledger, nextId, u);
        assert users'[u] == users[u];
      }
    }
    TotalAbsent(ledger, nextId, Deposit);
    TotalAbsent(ledger, nextId, Withdrawal);
    var nextId' := nextId + 1;
    forall u ensures UserOk(users', ledger, nextId', u) {
      assert UserOk(users, ledger, nextId, u);
    }
    forall u, v ensures IdsDiffer(users', u, v) {
      assert IdsDiffer(users, u, v);
      assert UserOk(users, ledger, nextId, u) && UserOk(users, ledger, nextId, v);
    }
  }

  /** Shared step of deposit and withdrawal: post a row of `kind` for an existing user. */
  lemma PostKeepsConsistent(users: map<string, User>, ledger: seq<LedgerRow>, nextId: nat,
                            username: string, kind: Kind, amount: real)
    requires Consistent(users, ledger, nextId)
    requires username in users && amount > 0.0
    requires kind == Withdrawal ==> amount <= users[username].balance
    ensures Consistent(Adjust(users, username, if kind == Deposit then amount else -amount),
                       ledger + [LedgerRow(users[username].id, kind, amount)], nextId)
  {
    var delta := if kind == Deposit then amount else -amount;
    var users' := Adjust(users, username, delta);
    var row := LedgerRow(users[username].id, kind, amount);
    var ledger' := ledger + [row];
    assert UserIds(users') == UserIds(users) by {
      forall x | x in UserIds(users) ensures x in UserIds(users') {
        var u :| u in users && users[u].id == x;
        assert users'[u].id == x;
      }
      forall x | x in UserIds(users') ensures x in UserIds(users) {
        var u :| u in users' && users'[u].id == x;
        assert users[u].id == x;
      }
    }
    forall i ensures RowOk(users', ledger', i) {
      if i == |ledger| {
        assert ledger'[i] == row;
      } else if 0 <= i < |ledger| {
        assert RowOk(users, ledger, i);
        assert ledger'[i] == ledger[i];
      }
    }
    forall u ensures UserOk(users', ledger', nextId, u) {
      assert UserOk(users, ledger, nextId, u);
      assert IdsDiffer(users, u, username);
      if u in users {
        LedgerBalanceAppend(ledger, row, users[u].id);
      }
    }
    forall u, v ensures IdsDiffer(users', u, v) {
      assert IdsDiffer(users, u, v);
    }
  }

  /** A deposit of a positive amount to an existing user keeps the tables consistent. */
  lemma DepositKeepsConsistent(users: map<string, User>, ledger: seq<LedgerRow>, nextId: nat,
                               username: string, amount: real)
    requires Consistent(users, ledger, nextId)
    requires username in users && amount > 0.0
    ensures Consistent(Adjust(users, username, amount),
                       ledger + [LedgerRow(users[username].id, Deposit, amount)], nextId)
  {
    PostKeepsConsistent(users, ledger, nextId, username, Deposit, amount);
  }

  /**
    A withdrawal keeps the tables consistent exactly when it does not exceed the
    balance: withdrawing the whole balance is allowed and leaves 0, one cent more
    would leave a negative balance.
   */
  lemma WithdrawKeepsConsistent(users: map<string, User>, ledger: seq<LedgerRow>, nextId: nat,
                                username: string, amount: real)
    requires Consistent(users, ledger, nextId)
    requires username in users && amount > 0.0
    ensures Consistent(Adjust(users, username, -amount),
                       ledger + [LedgerRow(users[username].id, Withdrawal, amount)], nextId)
            <==> amount <= users[username].balance
  {
    if amount <= users[username].balance {
      PostKeepsConsistent(users, ledger, nextId, username, Withdrawal, amount);
    } else {
      assert !UserOk(Adjust(users, username, -amount),
                     ledger + [LedgerRow(users[username].id, Withdrawal, amount)], nextId, username);
    }
  }

  // ---------------------------------------------------------------------------
  // History: SELECT type, amount, timestamp FROM transactions
  //          WHERE user_id = $1 ORDER BY timestamp DESC
  // ---------------------------------------------------------------------------

  /** The rows of user `id`, newest first, each with its position as timestamp. */
  function HistoryOf(ledger: seq<LedgerRow>, id: nat): (h: seq<Transaction>)
    ensures |h| <= |ledger|
  {
    if ledger == [] then []
    else
      var k := |ledger| - 1;
      var older := HistoryOf(ledger[..k], id);
      if ledger[k].userId == id then [Transaction(ledger[k].kind, ledger[k].amount, k)] + older
      else older
  }

  /** A new row of the user heads the history; a row of anyone else leaves it as it was. */
  lemma HistoryAppend(ledger: seq<LedgerRow>, row: LedgerRow, id: nat)
    ensures HistoryOf(ledger + [row], id) ==
      if row.userId == id then [Transaction(row.kind, row.amount, |ledger|)] + HistoryOf(ledger, id)
      else HistoryOf(ledger, id)
  {
    assert (ledger + [row])[..|ledger|] == ledger;
  }

  /** Every entry of the history is a row of that user, with that row's type and amount. */
  lemma {:induction false} HistoryRowsOwned(ledger: seq<LedgerRow>, id: nat, j: nat)
    requires j < |HistoryOf(ledger, id)|
    ensures HistoryOf(ledger, id)[j].stamp < |ledger|
    ensures ledger[HistoryOf(ledger, id)[j].stamp].userId == id
    ensures ledger[HistoryOf(ledger, id)[j].stamp].kind == HistoryOf(ledger, id)[j].kind
    ensures ledger[HistoryOf(ledger, id)[j].stamp].amount == HistoryOf(ledger, id)[j].amount
  {
    var k := |ledger| - 1;
    if ledger[k].userId == id && j == 0 {
    } else {
      var j' := if ledger[k].userId == id then j - 1 else j;
      HistoryRowsOwned(ledger[..k], id, j');
    }
  }

  /** The history is ordered newest first: timestamps strictly decrease. */
  lemma {:induction false} HistoryNewestFirst(ledger: seq<LedgerRow>, id: nat, i: nat, j: nat)
    requires i < j < |HistoryOf(ledger, id)|
    ensures HistoryOf(ledger, id)[i].stamp > HistoryOf(ledger, id)[j].stamp
  {
    var k := |ledger| - 1;
    if ledger[k].userId == id {
      if i == 0 {
        HistoryRowsOwned(ledger[..k], id, j - 1);
      } else {
        HistoryNewestFirst(ledger[..k], id, i - 1, j - 1);
      }
    } else {
      HistoryNewestFirst(ledger[..k], id, i, j);
    }
  }

  /** Every row of the user appears in the history. */
  lemma {:induction false} HistoryComplete(ledger: seq<LedgerRow>, id: nat, i: nat)
    requires i < |ledger| && ledger[i].userId == id
    ensures exists j :: 0 <= j < |HistoryOf(ledger, id)| && HistoryOf(ledger, id)[j].stamp == i
  {
    var k := |ledger| - 1;
    var h := HistoryOf(ledger, id);
    if i == k {
      assert h[0].stamp == i;
    } else {
      assert ledger[..k][i] == ledger[i];
      HistoryComplete(ledger[..k], id, i);
      var j :| 0 <= j < |HistoryOf(ledger[..k], id)| && HistoryOf(ledger[..k], id)[j].stamp == i;
      if ledger[k].userId == id {
        assert h[j + 1].stamp == i;
      } else {
        assert h[j].stamp == i;
      }
    }
  }
}
