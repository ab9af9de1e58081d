/**
 * The bank database: the users, accounts and transactions tables with their
 * keys and column defaults, and the single SQL statements that the account,
 * customer, administrator and login code issue against them. Every statement
 * is a function from the tables before it to the tables after it.
 */
module Schema {
  import opened Wrappers

  /** Every money column is decimal(15,2); the model counts whole cents. */
  type Cents = int

  /** Column defaults of the users table. */
  const DefaultCreditScore: int := 300
  const DefaultLoanDebt: Cents := 0

  /** The two values the userType column takes. */
  const Regular: string := "regular"
  const Admin: string := "admin"

  /** The transactionType values the core writes. */
  datatype TxType = Withdraw | Deposit | Send | Receive

  datatype UserRow = UserRow(
    username: string, password: string, name: string,
    creditScore: int, loanDebt: Cents, userType: string)

  datatype AccountRow = AccountRow(
    accountID: int, username: string, accountType: string,
    initialBalance: Cents, balance: Cents)

  /** transactionTime is left out: it is the clock at insertion. */
  datatype TxRow = TxRow(
    transactionID: int, senderAccountID: int, receiverAccountID: Option<int>,
    transactionType: TxType, amount: Cents)

  /**
   * The whole database. Rows are listed in rowid order; nextAccountID and
   * nextTransactionID are the AUTOINCREMENT sequences of the two integer keys.
   */
  datatype Tables = Tables(
    users: seq<UserRow>, accounts: seq<AccountRow>, transactions: seq<TxRow>,
    nextAccountID: int, nextTransactionID: int)
  {
    /** The keys: usernames are unique, and accountID and transactionID are
        handed out from 1 in increasing order, below their counters. */
    ghost predicate Valid() {
      && UniqueUsernames(users)
      && AccountKeys(accounts, nextAccountID)
      && TransactionKeys(transactions, nextTransactionID)
    }
  }

  /** No users row repeats the username of a row listed before it. */
  ghost predicate UniqueUsernames(users: seq<UserRow>) {
    users == [] ||
    (UniqueUsernames(users[..|users| - 1]) && !UserExists(users[..|users| - 1], users[|users| - 1].username))
  }

  /** AUTOINCREMENT keys: the last row's accountID is below next, and the
      rows before it are keyed, at least 1, below that accountID. */
  ghost predicate AccountKeys(accounts: seq<AccountRow>, next: int) {
    1 <= next &&
    (accounts == [] ||
     (accounts[|accounts| - 1].accountID < next
      && AccountKeys(accounts[..|accounts| - 1], accounts[|accounts| - 1].accountID)))
  }

  /** The same for transactionID. */
  ghost predicate TransactionKeys(txs: seq<TxRow>, next: int) {
    1 <= next &&
    (txs == [] ||
     (txs[|txs| - 1].transactionID < next
      && TransactionKeys(txs[..|txs| - 1], txs[|txs| - 1].transactionID)))
  }

  /** The tables as `create table if not exists` first leaves them. */
  const Empty: Tables := Tables([], [], [], 1, 1)

  /** The store every component opens: one handle whose tables change in place. */
  class Database {
    var tables: Tables

    constructor ()
      ensures tables == Empty && tables.Valid()
    {
      tables := Empty;
    }
  }

  // ---------------------------------------------------------------- users

  predicate UserExists(users: seq<UserRow>, username: string) {
    exists i | 0 <= i < |users| :: users[i].username == username
  }

  /** The row `SELECT ... FROM users WHERE username = u` steps to first. */
  function FindUser(users: seq<UserRow>, username: string): (r: Option<nat>)
    ensures r.Some? ==> r.value < |users| && users[r.value].username == username
    ensures r.Some? ==> forall j | 0 <= j < r.value :: users[j].username != username
    ensures r.None? <==> !UserExists(users, username)
  {
    if users == [] then None
    else
      match FindUser(users[..|users| - 1], username)
      case Some(i) => Some(i)
      case None =>
        if users[|users| - 1].username == username then Some(|users| - 1) else None
  }

  lemma FindUserKeyed(users: seq<UserRow>, i: nat)
    requires UniqueUsernames(users) && i < |users|
    ensures FindUser(users, users[i].username) == Some(i)
  {
    UniqueUsernamesAt(users);
  }

  /** A users row with the schema's defaults for creditScore and loanDebt. */
  function NewUser(username: string, password: string, name: string, userType: string): (r: UserRow)
    ensures r.creditScore == 300 && r.loanDebt == 0
  {
    UserRow(username, password, name, DefaultCreditScore, DefaultLoanDebt, userType)
  }

  /** `INSERT OR IGNORE INTO users`: a row whose username is taken is dropped. */
  function InsertUserOrIgnore(t: Tables, row: UserRow): Tables {
    if UserExists(t.users, row.username) then t else t.(users := t.users + [row])
  }

  /** `UPDATE users SET creditScore = score WHERE username = u`. */
  function SetCreditScore(users: seq<UserRow>, username: string, score: int): (r: seq<UserRow>)
    ensures |r| == |users|
  {
    if users == [] then []
    else
      var last := users[|users| - 1];
      SetCreditScore(users[..|users| - 1], username, score)
        + [if last.username == username then last.(creditScore := score) else last]
  }

  /** `UPDATE users SET loanDebt = loanDebt + delta WHERE username = u`. */
  function AddLoanDebt(users: seq<UserRow>, username: string, delta: Cents): (r: seq<UserRow>)
    ensures |r| == |users|
  {
    if users == [] then []
    else
      var last := users[|users| - 1];
      AddLoanDebt(users[..|users| - 1], username, delta)
        + [if last.username == username then last.(loanDebt := last.loanDebt + delta) else last]
  }

  /** `DELETE FROM users WHERE username = u`, without its cascades. */
  function DeleteUserRows(users: seq<UserRow>, username: string): (r: seq<UserRow>)
    ensures forall x :: x in r <==> x in users && x.username != username
    ensures |r| <= |users|
  {
    if users == [] then []
    else
      var last := users[|users| - 1];
      DeleteUserRows(users[..|users| - 1], username)
        + if last.username == username then [] else [last]
  }

  // ------------------------------------------------------------- accounts

  /** The WHERE clauses the core puts on the accounts table. */
  datatype AccountFilter =
    | ByID(id: int)
    | ByOwner(owner: string)
    | ByOwnerType(owner: string, kind: string)

  predicate Selects(f: AccountFilter, row: AccountRow) {
    match f
    case ByID(id) => row.accountID == id
    case ByOwner(u) => row.username == u
    case ByOwnerType(u, k) => row.username == u && row.accountType == k
  }

  predicate AccountExists(accounts: seq<AccountRow>, id: int) {
    exists i | 0 <= i < |accounts| :: accounts[i].accountID == id
  }

  /** The row a `SELECT ... FROM accounts WHERE f` steps to first. */
  function FirstAccount(accounts: seq<AccountRow>, f: AccountFilter): (r: Option<nat>)
    ensures r.Some? ==> r.value < |accounts| && Selects(f, accounts[r.value])
    ensures r.Some? ==> forall j | 0 <= j < r.value :: !Selects(f, accounts[j])
    ensures r.None? <==> forall j | 0 <= j < |accounts| :: !Selects(f, accounts[j])
  {
    if accounts == [] then None
    else
      match FirstAccount(accounts[..|accounts| - 1], f)
      case Some(i) => Some(i)
      case None =>
        if Selects(f, accounts[|accounts| - 1]) then Some(|accounts| - 1) else None
  }

  /** `SELECT COUNT(*) FROM accounts WHERE f`. */
  function CountAccounts(accounts: seq<AccountRow>, f: AccountFilter): nat {
    if accounts == [] then 0
    else
      CountAccounts(accounts[..|accounts| - 1], f)
        + if Selects(f, accounts[|accounts| - 1]) then 1 else 0
  }

  /** The rows `SELECT ... FROM accounts WHERE f` returns, in rowid order. */
  function SelectAccounts(accounts: seq<AccountRow>, f: AccountFilter): (r: seq<AccountRow>)
    ensures forall x :: x in r <==> x in accounts && Selects(f, x)
    ensures |r| <= |accounts|
  {
    if accounts == [] then []
    else
      var last := accounts[|accounts| - 1];
      SelectAccounts(accounts[..|accounts| - 1], f) + if Selects(f, last) then [last] else []
  }

  /** `DELETE FROM accounts WHERE f`, without cascades. */
  function DeleteAccountRows(accounts: seq<AccountRow>, f: AccountFilter): (r: seq<AccountRow>)
    ensures forall x :: x in r <==> x in accounts && !Selects(f, x)
    ensures |r| <= |accounts|
  {
    if accounts == [] then []
    else
      var last := accounts[|accounts| - 1];
      DeleteAccountRows(accounts[..|accounts| - 1], f) + if Selects(f, last) then [] else [last]
  }

  /** `UPDATE accounts SET balance = balance + delta WHERE accountID = id`. */
  function CreditRows(accounts: seq<AccountRow>, id: int, delta: Cents): (r: seq<AccountRow>)
    ensures |r| == |accounts|
  {
    if accounts == [] then []
    else
      var last := accounts[|accounts| - 1];
      CreditRows(accounts[..|accounts| - 1], id, delta)
        + [if last.accountID == id then last.(balance := last.balance + delta) else last]
  }

  /** What one more row contributes to a selection, a deletion and a balance update. */
  lemma SelectAppend(rows: seq<AccountRow>, x: AccountRow, f: AccountFilter)
    ensures Selects(f, x) ==> SelectAccounts(rows + [x], f) == SelectAccounts(rows, f) + [x]
    ensures !Selects(f, x) ==> SelectAccounts(rows + [x], f) == SelectAccounts(rows, f)
    ensures Selects(f, x) ==> DeleteAccountRows(rows + [x], f) == DeleteAccountRows(rows, f)
    ensures !Selects(f, x) ==> DeleteAccountRows(rows + [x], f) == DeleteAccountRows(rows, f) + [x]
    ensures CountAccounts(rows + [x], f) == CountAccounts(rows, f) + if Selects(f, x) then 1 else 0
  {
    assert (rows + [x])[..|rows|] == rows;
  }

  lemma CreditRowsAppend(rows: seq<AccountRow>, x: AccountRow, id: int, delta: Cents)
    ensures CreditRows(rows + [x], id, delta)
         == CreditRows(rows, id, delta) + [if x.accountID == id then x.(balance := x.balance + delta) else x]
  {
    assert (rows + [x])[..|rows|] == rows;
  }

  /** The balance a `SELECT balance FROM accounts WHERE username = u AND
      accountType = k` reads: the first such row's, or 0 when there is none. */
  function StoredBalance(accounts: seq<AccountRow>, username: string, accountType: string): Cents {
    match FirstAccount(accounts, ByOwnerType(username, accountType))
    case Some(i) => accounts[i].balance
    case None => 0
  }

  /** `INSERT INTO accounts(username, accountType, initialBalance, balance)`. */
  function InsertAccount(t: Tables, username: string, accountType: string, initialBalance: Cents, balance: Cents): Tables {
    t.(accounts := t.accounts + [AccountRow(t.nextAccountID, username, accountType, initialBalance, balance)],
       nextAccountID := t.nextAccountID + 1)
  }

  function UpdateBalance(t: Tables, id: int, delta: Cents): Tables {
    t.(accounts := CreditRows(t.accounts, id, delta))
  }

  // --------------------------------------------------------- transactions

  /** `INSERT INTO transactions(senderAccountID, receiverAccountID, transactionType, amount)`. */
  function InsertTransaction(t: Tables, sender: int, receiver: Option<int>, kind: TxType, amount: Cents): Tables {
    t.(transactions := t.transactions + [TxRow(t.nextTransactionID, sender, receiver, kind, amount)],
       nextTransactionID := t.nextTransactionID + 1)
  }

  /** `DELETE FROM transactions WHERE senderAccountID IN ids`. */
  function DeleteSentRows(txs: seq<TxRow>, ids: set<int>): (r: seq<TxRow>)
    ensures forall x :: x in r <==> x in txs && x.senderAccountID !in ids
    ensures |r| <= |txs|
  {
    if txs == [] then []
    else
      var last := txs[|txs| - 1];
      DeleteSentRows(txs[..|txs| - 1], ids) + if last.senderAccountID in ids then [] else [last]
  }

  /** The accountIDs of the rows a filter selects. */
  function SelectedIDs(accounts: seq<AccountRow>, f: AccountFilter): set<int> {
    set i | 0 <= i < |accounts| && Selects(f, accounts[i]) :: accounts[i].accountID
  }

  /**
   * `DELETE FROM users WHERE username = u` with foreign keys on: the
   * accounts the user owns go with it (ON DELETE CASCADE on accounts), and
   * with them every transaction those accounts sent (ON DELETE CASCADE on
   * transactions).
   */
  function DeleteUser(t: Tables, username: string): Tables {
    t.(users := DeleteUserRows(t.users, username),
       accounts := DeleteAccountRows(t.accounts, ByOwner(username)),
       transactions := DeleteSentRows(t.transactions, SelectedIDs(t.accounts, ByOwner(username))))
  }

  // ------------------------------------------- row updates, row by row

  /** The credit-score update rewrites exactly the rows of that user. */
  lemma {:induction false} SetCreditScoreAt(users: seq<UserRow>, username: string, score: int)
    ensures forall i | 0 <= i < |users| ::
      SetCreditScore(users, username, score)[i]
        == if users[i].username == username then users[i].(creditScore := score) else users[i]
  {
    if users != [] {
      SetCreditScoreAt(users[..|users| - 1], username, score);
    }
  }

  /** The loan-debt update raises exactly the rows of that user, by delta. */
  lemma {:induction false} AddLoanDebtAt(users: seq<UserRow>, username: string, delta: Cents)
    ensures forall i | 0 <= i < |users| ::
      AddLoanDebt(users, username, delta)[i]
        == if users[i].username == username then users[i].(loanDebt := users[i].loanDebt + delta) else users[i]
  {
    if users != [] {
      AddLoanDebtAt(users[..|users| - 1], username, delta);
    }
  }

  /** The balance update moves exactly the rows carrying that accountID, by delta. */
  lemma {:induction false} CreditRowsAt(accounts: seq<AccountRow>, id: int, delta: Cents)
    ensures forall i | 0 <= i < |accounts| ::
      CreditRows(accounts, id, delta)[i]
        == if accounts[i].accountID == id then accounts[i].(balance := accounts[i].balance + delta) else accounts[i]
  {
    if accounts != [] {
      CreditRowsAt(accounts[..|accounts| - 1], id, delta);
    }
  }

  /** The loan-debt update keeps every username. */
  lemma AddLoanDebtKeepsUsers(users: seq<UserRow>, owner: string, delta: Cents, username: string)
    ensures UserExists(AddLoanDebt(users, owner, delta), username) == UserExists(users, username)
  {
    var u := AddLoanDebt(users, owner, delta);
    AddLoanDebtAt(users, owner, delta);
    if UserExists(u, username) {
      var k :| 0 <= k < |u| && u[k].username == username;
      assert users[k].username == username;
    }
    if UserExists(users, username) {
      var k :| 0 <= k < |users| && users[k].username == username;
      assert u[k].username == username;
    }
  }

  // ------------------------------------------------ the keys are preserved

  /** The recursive keys are the table constraints: every accountID is at
      least 1 and below next, and the IDs increase in rowid order. */
  lemma {:induction false} AccountKeysAt(accounts: seq<AccountRow>, next: int)
    requires AccountKeys(accounts, next)
    ensures forall i | 0 <= i < |accounts| :: 1 <= accounts[i].accountID < next
    ensures forall i, j | 0 <= i < j < |accounts| :: accounts[i].accountID < accounts[j].accountID
  {
    if accounts != [] {
      var init := accounts[..|accounts| - 1];
      AccountKeysAt(init, accounts[|accounts| - 1].accountID);
      assert forall i | 0 <= i < |init| :: accounts[i] == init[i];
    }
  }

  lemma {:induction false} AccountKeysFrom(accounts: seq<AccountRow>, next: int)
    requires 1 <= next
    requires forall i | 0 <= i < |accounts| :: 1 <= accounts[i].accountID < next
    requires forall i, j | 0 <= i < j < |accounts| :: accounts[i].accountID < accounts[j].accountID
    ensures AccountKeys(accounts, next)
  {
    if accounts != [] {
      var init, last := accounts[..|accounts| - 1], accounts[|accounts| - 1];
      assert forall i | 0 <= i < |init| :: init[i] == accounts[i];
      AccountKeysFrom(init, last.accountID);
    }
  }

  lemma AccountKeysRaise(accounts: seq<AccountRow>, next: int, bound: int)
    requires AccountKeys(accounts, next) && next <= bound
    ensures AccountKeys(accounts, bound)
  {
  }

  lemma {:induction false} TransactionKeysAt(txs: seq<TxRow>, next: int)
    requires TransactionKeys(txs, next)
    ensures forall i | 0 <= i < |txs| :: 1 <= txs[i].transactionID < next
    ensures forall i, j | 0 <= i < j < |txs| :: txs[i].transactionID < txs[j].transactionID
  {
    if txs != [] {
      var init := txs[..|txs| - 1];
      TransactionKeysAt(init, txs[|txs| - 1].transactionID);
      assert forall i | 0 <= i < |init| :: txs[i] == init[i];
    }
  }

  /** The recursive uniqueness is the UNIQUE constraint: no two rows share a username. */
  lemma {:induction false} UniqueUsernamesAt(users: seq<UserRow>)
    requires UniqueUsernames(users)
    ensures forall i, j | 0 <= i < j < |users| :: users[i].username != users[j].username
  {
    if users != [] {
      var init := users[..|users| - 1];
      UniqueUsernamesAt(init);
      assert forall i | 0 <= i < |init| :: users[i] == init[i];
    }
  }

  lemma {:induction false} UniqueUsernamesFrom(users: seq<UserRow>)
    requires forall i, j | 0 <= i < j < |users| :: users[i].username != users[j].username
    ensures UniqueUsernames(users)
  {
    if users != [] {
      var init := users[..|users| - 1];
      assert forall i | 0 <= i < |init| :: init[i] == users[i];
      UniqueUsernamesFrom(init);
    }
  }

  /** Appending a row keyed below next to rows keyed below it. */
  lemma AppendAccountKeys(accounts: seq<AccountRow>, row: AccountRow, next: int)
    requires AccountKeys(accounts, row.accountID) && row.accountID < next
    ensures AccountKeys(accounts + [row], next)
  {
    assert (accounts + [row])[..|accounts|] == accounts;
  }

  lemma AppendTransactionKeys(txs: seq<TxRow>, row: TxRow, next: int)
    requires TransactionKeys(txs, row.transactionID) && row.transactionID < next
    ensures TransactionKeys(txs + [row], next)
  {
    assert (txs + [row])[..|txs|] == txs;
  }

  lemma AppendUnique(users: seq<UserRow>, row: UserRow)
    requires UniqueUsernames(users) && !UserExists(users, row.username)
    ensures UniqueUsernames(users + [row])
  {
    assert (users + [row])[..|users|] == users;
  }

  lemma {:induction false} DeleteUserRowsKeyed(users: seq<UserRow>, username: string)
    requires UniqueUsernames(users)
    ensures UniqueUsernames(DeleteUserRows(users, username))
  {
    if users != [] {
      var init, last := users[..|users| - 1], users[|users| - 1];
      DeleteUserRowsKeyed(init, username);
      var kept := DeleteUserRows(init, username);
      if last.username == username {
        assert DeleteUserRows(users, username) == kept + [];
        assert kept + [] == kept;
      } else {
        assert !UserExists(kept, last.username) by {
          forall k | 0 <= k < |kept| ensures kept[k].username != last.username {
            assert kept[k] in init;
          }
        }
        AppendUnique(kept, last);
      }
    }
  }

  lemma {:induction false} DeleteAccountRowsKeyed(accounts: seq<AccountRow>, f: AccountFilter, next: int)
    requires AccountKeys(accounts, next)
    ensures AccountKeys(DeleteAccountRows(accounts, f), next)
  {
    if accounts != [] {
      var init, last := accounts[..|accounts| - 1], accounts[|accounts| - 1];
      DeleteAccountRowsKeyed(init, f, last.accountID);
      var kept := DeleteAccountRows(init, f);
      if Selects(f, last) {
        assert DeleteAccountRows(accounts, f) == kept + [];
        assert kept + [] == kept;
        AccountKeysRaise(kept, last.accountID, next);
      } else {
        AppendAccountKeys(kept, last, next);
      }
    }
  }

  lemma {:induction false} DeleteSentRowsKeyed(txs: seq<TxRow>, ids: set<int>, next: int)
    requires TransactionKeys(txs, next)
    ensures TransactionKeys(DeleteSentRows(txs, ids), next)
  {
    if txs != [] {
      var init, last := txs[..|txs| - 1], txs[|txs| - 1];
      DeleteSentRowsKeyed(init, ids, last.transactionID);
      var kept := DeleteSentRows(init, ids);
      if last.senderAccountID in ids {
        assert DeleteSentRows(txs, ids) == kept + [];
        assert kept + [] == kept;
      } else {
        AppendTransactionKeys(kept, last, next);
      }
    }
  }

  /** A balance update keeps every key. */
  lemma {:induction false} CreditRowsKeyed(accounts: seq<AccountRow>, id: int, delta: Cents, next: int)
    requires AccountKeys(accounts, next)
    ensures AccountKeys(CreditRows(accounts, id, delta), next)
  {
    if accounts != [] {
      var init, last := accounts[..|accounts| - 1], accounts[|accounts| - 1];
      CreditRowsKeyed(init, id, delta, last.accountID);
      AppendAccountKeys(CreditRows(init, id, delta), if last.accountID == id then last.(balance := last.balance + delta) else last, next);
    }
  }

  /** Rewriting columns other than username keeps the usernames unique. */
  lemma SameNamesUnique(users: seq<UserRow>, r: seq<UserRow>)
    requires UniqueUsernames(users)
    requires |r| == |users| && forall i | 0 <= i < |users| :: r[i].username == users[i].username
    ensures UniqueUsernames(r)
  {
    UniqueUsernamesAt(users);
    UniqueUsernamesFrom(r);
  }

  /** Under the keys, COUNT(*) over one accountID is 1 exactly when the account exists, else 0. */
  lemma {:induction false} CountByIDKeyed(accounts: seq<AccountRow>, id: int, next: int)
    requires AccountKeys(accounts, next)
    ensures CountAccounts(accounts, ByID(id)) == if AccountExists(accounts, id) then 1 else 0
  {
    if accounts != [] {
      var init, last := accounts[..|accounts| - 1], accounts[|accounts| - 1];
      CountByIDKeyed(init, id, last.accountID);
      assert accounts == init + [last];
      ExistsAppend(init, last, id);
      if last.accountID == id {
        LastIDIsNew(accounts, next);
      }
    }
  }

  /** Under the keys, the last row's accountID appears nowhere before it. */
  lemma LastIDIsNew(rows: seq<AccountRow>, next: int)
    requires AccountKeys(rows, next) && rows != []
    ensures !AccountExists(rows[..|rows| - 1], rows[|rows| - 1].accountID)
  {
    AccountKeysAt(rows[..|rows| - 1], rows[|rows| - 1].accountID);
  }

  lemma UserExistsAppend(users: seq<UserRow>, x: UserRow, username: string)
    ensures UserExists(users + [x], username) == (UserExists(users, username) || x.username == username)
  {
    if UserExists(users, username) {
      var k :| 0 <= k < |users| && users[k].username == username;
      assert (users + [x])[k] == users[k];
    }
    if UserExists(users + [x], username) && x.username != username {
      var k :| 0 <= k < |users + [x]| && (users + [x])[k].username == username;
      assert k < |users| && users[k] == (users + [x])[k];
    }
    if x.username == username {
      assert (users + [x])[|users|] == x;
    }
  }

  lemma ExistsAppend(rows: seq<AccountRow>, x: AccountRow, id: int)
    ensures AccountExists(rows + [x], id) == (AccountExists(rows, id) || x.accountID == id)
  {
    if AccountExists(rows, id) {
      var k :| 0 <= k < |rows| && rows[k].accountID == id;
      assert (rows + [x])[k] == rows[k];
    }
    if AccountExists(rows + [x], id) && x.accountID != id {
      var k :| 0 <= k < |rows + [x]| && (rows + [x])[k].accountID == id;
      assert k < |rows| && rows[k] == (rows + [x])[k];
    }
    if x.accountID == id {
      assert (rows + [x])[|rows|] == x;
    }
  }

  /** The existence query on users, `SELECT EXISTS(SELECT 1 FROM users WHERE username = u)`,
      holds exactly when the lookup by username finds a row. */
  lemma UserExistsQuery(users: seq<UserRow>, username: string)
    ensures UserExists(users, username) <==> FindUser(users, username).Some?
  {
  }

  /** The existence query on accounts holds exactly when some row carries the
      accountID: the lookup by ID finds one and COUNT(*) over the ID is positive. */
  lemma {:induction false} AccountExistsQuery(accounts: seq<AccountRow>, id: int)
    ensures AccountExists(accounts, id) <==> FirstAccount(accounts, ByID(id)).Some?
    ensures AccountExists(accounts, id) <==> CountAccounts(accounts, ByID(id)) > 0
  {
    if accounts != [] {
      var init, last := accounts[..|accounts| - 1], accounts[|accounts| - 1];
      assert accounts == init + [last];
      AccountExistsQuery(init, id);
      ExistsAppend(init, last, id);
      SelectAppend(init, last, ByID(id));
    }
  }

  // Every statement of the core keeps the keys.

  lemma InsertUserKeeps(t: Tables, row: UserRow)
    requires t.Valid()
    ensures InsertUserOrIgnore(t, row).Valid()
  {
    if !UserExists(t.users, row.username) {
      AppendUnique(t.users, row);
    }
  }

  lemma InsertAccountKeeps(t: Tables, username: string, accountType: string, initialBalance: Cents, balance: Cents)
    requires t.Valid()
    ensures InsertAccount(t, username, accountType, initialBalance, balance).Valid()
  {
    AppendAccountKeys(t.accounts, AccountRow(t.nextAccountID, username, accountType, initialBalance, balance),
                      t.nextAccountID + 1);
  }

  lemma InsertTransactionKeeps(t: Tables, sender: int, receiver: Option<int>, kind: TxType, amount: Cents)
    requires t.Valid()
    ensures InsertTransaction(t, sender, receiver, kind, amount).Valid()
  {
    AppendTransactionKeys(t.transactions, TxRow(t.nextTransactionID, sender, receiver, kind, amount),
                          t.nextTransactionID + 1);
  }

  lemma UpdateBalanceKeeps(t: Tables, id: int, delta: Cents)
    requires t.Valid()
    ensures UpdateBalance(t, id, delta).Valid()
  {
    CreditRowsKeyed(t.accounts, id, delta, t.nextAccountID);
  }

  lemma SetCreditScoreKeeps(t: Tables, username: string, score: int)
    requires t.Valid()
    ensures t.(users := SetCreditScore(t.users, username, score)).Valid()
  {
    SetCreditScoreAt(t.users, username, score);
    SameNamesUnique(t.users, SetCreditScore(t.users, username, score));
  }

  lemma AddLoanDebtKeeps(t: Tables, username: string, delta: Cents)
    requires t.Valid()
    ensures t.(users := AddLoanDebt(t.users, username, delta)).Valid()
  {
    AddLoanDebtAt(t.users, username, delta);
    SameNamesUnique(t.users, AddLoanDebt(t.users, username, delta));
  }

  lemma DeleteSentKeeps(t: Tables, ids: set<int>)
    requires t.Valid()
    ensures t.(transactions := DeleteSentRows(t.transactions, ids)).Valid()
  {
    DeleteSentRowsKeyed(t.transactions, ids, t.nextTransactionID);
  }

  lemma DeleteAccountsKeeps(t: Tables, f: AccountFilter)
    requires t.Valid()
    ensures t.(accounts := DeleteAccountRows(t.accounts, f)).Valid()
  {
    DeleteAccountRowsKeyed(t.accounts, f, t.nextAccountID);
  }

  lemma DeleteUserKeeps(t: Tables, username: string)
    requires t.Valid()
    ensures DeleteUser(t, username).Valid()
  {
    DeleteUserRowsKeyed(t.users, username);
    DeleteAccountRowsKeyed(t.accounts, ByOwner(username), t.nextAccountID);
    DeleteSentRowsKeyed(t.transactions, SelectedIDs(t.accounts, ByOwner(username)), t.nextTransactionID);
  }
}
