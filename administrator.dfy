/**
 * The administrator of administrator.cpp: read-only lookups of a user's
 * profile, and four writes over a connection with foreign keys enabled —
 * set a credit score, remove a user (cascading to the user's accounts and
 * the transactions they sent), give a loan, and create a regular user.
 */
module Administration {
  import opened Wrappers
  import opened Schema
  import opened Aggregates

  /** The loan-debt lookup's answer for an unknown user: -1.00. */
  const UnknownDebt: Cents := -100

  // ------------------------------------------------------------- lookups

  /** The name of the user's row, or "" for an unknown user. */
  function NameOf(users: seq<UserRow>, username: string): (r: string)
    ensures !UserExists(users, username) ==> r == ""
  {
    match FindUser(users, username)
    case Some(i) => users[i].name
    case None => ""
  }

  /** The credit score of the user's row, or -1 for an unknown user. */
  function CreditScoreOf(users: seq<UserRow>, username: string): (r: int)
    ensures !UserExists(users, username) ==> r == -1
  {
    match FindUser(users, username)
    case Some(i) => users[i].creditScore
    case None => -1
  }

  /** The loan debt of the user's row, or -1.00 for an unknown user. */
  function LoanDebtOf(users: seq<UserRow>, username: string): (r: Cents)
    ensures !UserExists(users, username) ==> r == UnknownDebt
  {
    match FindUser(users, username)
    case Some(i) => users[i].loanDebt
    case None => UnknownDebt
  }

  /** The user type of the user's row, or "" for an unknown user. */
  function UserTypeOf(users: seq<UserRow>, username: string): (r: string)
    ensures !UserExists(users, username) ==> r == ""
  {
    match FindUser(users, username)
    case Some(i) => users[i].userType
    case None => ""
  }

  /** Under unique usernames every lookup reads the user's one row. */
  lemma LookupsReadRow(users: seq<UserRow>, i: nat)
    requires UniqueUsernames(users) && i < |users|
    ensures NameOf(users, users[i].username) == users[i].name
    ensures CreditScoreOf(users, users[i].username) == users[i].creditScore
    ensures LoanDebtOf(users, users[i].username) == users[i].loanDebt
    ensures UserTypeOf(users, users[i].username) == users[i].userType
  {
    FindUserKeyed(users, i);
  }

  // -------------------------------------------------------------- writes

  /** The owner of the first row carrying that accountID. */
  function OwnerOf(accounts: seq<AccountRow>, id: int): (r: Option<string>)
    ensures r.Some? <==> AccountExists(accounts, id)
  {
    match FirstAccount(accounts, ByID(id))
    case Some(i) => Some(accounts[i].username)
    case None => None
  }

  /** A loan: the balance update of the account, then the loan-debt update
      of its owner. No transaction row is written. */
  function Loaned(t: Tables, id: int, amount: Cents): Tables {
    var t1 := UpdateBalance(t, id, amount);
    match OwnerOf(t1.accounts, id)
    case Some(owner) => t1.(users := AddLoanDebt(t1.users, owner, amount))
    case None => t1
  }

  class Administrator {
    const db: Database

    /** Opens the shared store; foreign keys are enforced on this connection. */
    constructor (db: Database)
      ensures this.db == db
    {
      this.db := db;
    }

    /** Sets an existing user's credit score; an unknown user changes nothing. */
    method UpdateCreditScore(username: string, score: int)
      modifies db
      ensures db.tables == if UserExists(old(db.tables.users), username)
                           then old(db.tables).(users := SetCreditScore(old(db.tables.users), username, score))
                           else old(db.tables)
    {
      if UserExists(db.tables.users, username) {
        db.tables := db.tables.(users := SetCreditScore(db.tables.users, username, score));
      }
    }

    /** Deletes an existing user together with the cascades; an unknown user changes nothing. */
    method RemoveUser(username: string)
      modifies db
      ensures db.tables == if UserExists(old(db.tables.users), username)
                           then DeleteUser(old(db.tables), username)
                           else old(db.tables)
    {
      if UserExists(db.tables.users, username) {
        db.tables := DeleteUser(db.tables, username);
      }
    }

    /** Credits an existing account and charges the loan to its owner; an
        unknown accountID changes nothing. */
    method GiveLoan(id: int, amount: Cents)
      modifies db
      ensures db.tables == if AccountExists(old(db.tables.accounts), id) then Loaned(old(db.tables), id, amount)
                           else old(db.tables)
    {
      if AccountExists(db.tables.accounts, id) {
        db.tables := UpdateBalance(db.tables, id, amount);
        CreditKeepsSelection(old(db.tables.accounts), id, amount, ByID(id));
        var i := FirstAccount(db.tables.accounts, ByID(id)).value;
        var owner := db.tables.accounts[i].username;
        db.tables := db.tables.(users := AddLoanDebt(db.tables.users, owner, amount));
      }
    }

    /** Adds a regular user with the default credit score and no debt when
        the username is free; a taken username changes nothing. */
    method CreateUser(name: string, username: string, password: string)
      modifies db
      ensures db.tables == if UserExists(old(db.tables.users), username) then old(db.tables)
                           else old(db.tables).(users := old(db.tables.users) + [NewUser(username, password, name, Regular)])
    {
      if !UserExists(db.tables.users, username) {
        db.tables := InsertUserOrIgnore(db.tables, NewUser(username, password, name, Regular));
      }
    }
  }

  // ------------------------------------------------------------ read-back

  lemma {:induction false} FindUserSameNames(a: seq<UserRow>, b: seq<UserRow>, username: string)
    requires |a| == |b| && forall i | 0 <= i < |a| :: a[i].username == b[i].username
    ensures FindUser(a, username) == FindUser(b, username)
  {
    if a != [] {
      FindUserSameNames(a[..|a| - 1], b[..|b| - 1], username);
    }
  }

  /**
   * After the credit-score update the user's lookup reads the new score;
   * every other user's score, and every user's name, debt and type, read
   * as before.
   */
  lemma CreditScoreReadBack(users: seq<UserRow>, username: string, score: int, other: string)
    requires UniqueUsernames(users)
    ensures UserExists(users, username) ==> CreditScoreOf(SetCreditScore(users, username, score), username) == score
    ensures other != username ==>
      CreditScoreOf(SetCreditScore(users, username, score), other) == CreditScoreOf(users, other)
    ensures NameOf(SetCreditScore(users, username, score), other) == NameOf(users, other)
    ensures LoanDebtOf(SetCreditScore(users, username, score), other) == LoanDebtOf(users, other)
    ensures UserTypeOf(SetCreditScore(users, username, score), other) == UserTypeOf(users, other)
  {
    var r := SetCreditScore(users, username, score);
    SetCreditScoreAt(users, username, score);
    FindUserSameNames(r, users, username);
    FindUserSameNames(r, users, other);
  }

  /**
   * A created user reads back with the given name and password, the
   * regular type, a credit score of 300 and no debt; the others read as
   * before, and the keys hold.
   */
  lemma CreateUserReadBack(t: Tables, name: string, username: string, password: string, other: string)
    requires t.Valid() && !UserExists(t.users, username)
    ensures InsertUserOrIgnore(t, NewUser(username, password, name, Regular)).Valid()
    ensures var users := t.users + [NewUser(username, password, name, Regular)];
      && NameOf(users, username) == name && UserTypeOf(users, username) == Regular
      && CreditScoreOf(users, username) == DefaultCreditScore && LoanDebtOf(users, username) == DefaultLoanDebt
      && users[FindUser(users, username).value].password == password
      && (other != username ==>
            && NameOf(users, other) == NameOf(t.users, other)
            && CreditScoreOf(users, other) == CreditScoreOf(t.users, other)
            && LoanDebtOf(users, other) == LoanDebtOf(t.users, other)
            && UserTypeOf(users, other) == UserTypeOf(t.users, other))
  {
    InsertUserKeeps(t, NewUser(username, password, name, Regular));
    var users := t.users + [NewUser(username, password, name, Regular)];
    assert users[..|t.users|] == t.users;
    assert FindUser(users, username) == Some(|t.users|);
    if other != username {
      assert FindUser(users, other) == FindUser(t.users, other);
    }
  }

  /** Deleting the rows a filter selects removes exactly their balances from the total. */
  lemma {:induction false} DeleteSelectSum(rows: seq<AccountRow>, f: AccountFilter)
    ensures SumBalances(DeleteAccountRows(rows, f)) + SumBalances(SelectAccounts(rows, f)) == SumBalances(rows)
  {
    if rows != [] {
      var init, last := rows[..|rows| - 1], rows[|rows| - 1];
      assert rows == init + [last];
      DeleteSelectSum(init, f);
      SelectAppend(init, last, f);
      SumBalancesAppend(init, last);
      SumBalancesAppend(SelectAccounts(init, f), last);
      SumBalancesAppend(DeleteAccountRows(init, f), last);
    }
  }

  /**
   * Removing a user leaves no row of that username and no account it
   * owned, drops every transaction those accounts sent and keeps every
   * other row; the total money falls by the balances the user held.
   */
  lemma RemoveUserEffects(t: Tables, username: string)
    requires t.Valid()
    ensures DeleteUser(t, username).Valid()
    ensures !UserExists(DeleteUser(t, username).users, username)
    ensures CreditScoreOf(DeleteUser(t, username).users, username) == -1
    ensures forall x :: (x in DeleteUser(t, username).users <==> x in t.users && x.username != username)
    ensures forall x :: (x in DeleteUser(t, username).accounts <==> x in t.accounts && x.username != username)
    ensures forall x :: (x in DeleteUser(t, username).transactions
                         <==> x in t.transactions && x.senderAccountID !in SelectedIDs(t.accounts, ByOwner(username)))
    ensures SumBalances(DeleteUser(t, username).accounts)
         == SumBalances(t.accounts) - SumBalances(SelectAccounts(t.accounts, ByOwner(username)))
  {
    DeleteUserKeeps(t, username);
    DeleteSelectSum(t.accounts, ByOwner(username));
  }

  /**
   * A loan to an existing account raises the total money by the amount and
   * raises the owner's debt by the same amount — the total debt too, when
   * the owner has a users row. No transaction is logged.
   */
  lemma LoanLedger(t: Tables, id: int, amount: Cents)
    requires t.Valid() && AccountExists(t.accounts, id)
    ensures Loaned(t, id, amount).Valid()
    ensures Loaned(t, id, amount).transactions == t.transactions
    ensures SumBalances(Loaned(t, id, amount).accounts) == SumBalances(t.accounts) + amount
    ensures var owner := OwnerOf(t.accounts, id).value;
      && TotalDebt(Loaned(t, id, amount).users)
           == TotalDebt(t.users) + (if UserExists(t.users, owner) then amount else 0)
      && (UserExists(t.users, owner) ==>
            LoanDebtOf(Loaned(t, id, amount).users, owner) == LoanDebtOf(t.users, owner) + amount)
  {
    var owner := OwnerOf(t.accounts, id).value;
    var t1 := UpdateBalance(t, id, amount);
    LoanedShape(t, id, amount);
    UpdateBalanceKeeps(t, id, amount);
    AddLoanDebtKeeps(t1, owner, amount);
    UpdateBalanceTotal(t, id, amount);
    AddLoanDebtTotal(t.users, owner, amount);
    if UserExists(t.users, owner) {
      LoanDebtReadBack(t.users, owner, amount);
    }
  }

  /** On an existing account a loan credits it and debits its owner's row. */
  lemma LoanedShape(t: Tables, id: int, amount: Cents)
    requires AccountExists(t.accounts, id)
    ensures Loaned(t, id, amount)
         == UpdateBalance(t, id, amount).(users := AddLoanDebt(t.users, OwnerOf(t.accounts, id).value, amount))
  {
    var r := UpdateBalance(t, id, amount).accounts;
    CreditKeepsSelection(t.accounts, id, amount, ByID(id));
    var i := FirstAccount(t.accounts, ByID(id)).value;
    CreditRowsAt(t.accounts, id, amount);
    assert r[i].username == t.accounts[i].username;
    assert OwnerOf(r, id) == OwnerOf(t.accounts, id);
  }

  /** After the loan-debt update the user's lookup reads the debt raised by delta. */
  lemma LoanDebtReadBack(users: seq<UserRow>, username: string, delta: Cents)
    requires UserExists(users, username)
    ensures LoanDebtOf(AddLoanDebt(users, username, delta), username) == LoanDebtOf(users, username) + delta
  {
    var r := AddLoanDebt(users, username, delta);
    AddLoanDebtAt(users, username, delta);
    FindUserSameNames(r, users, username);
  }
}
