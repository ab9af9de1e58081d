/**
 * The analytics page of analytics.cpp: a user's total balance, the number
 * of regular users, the average balance and average credit score over the
 * regular users, and the number of transactions.
 */
module Reports {
  import opened Wrappers
  import opened Schema
  import opened Aggregates
  import opened Administration
  import opened Accounts
  import opened Customers
  import opened Logins

  /** The balance lookup's answer for an unknown user: -1.00. */
  const UnknownBalance: Cents := -100

  /** The total balance of the rows the username owns. */
  function OwnedBalance(accounts: seq<AccountRow>, username: string): Cents {
    SumBalances(SelectAccounts(accounts, ByOwner(username)))
  }

  /** What the balance lookup answers: -1.00 for an unknown user, else the
      total balance of the user's rows (0.00 when there are none). */
  function BalanceOf(t: Tables, username: string): Cents {
    if UserExists(t.users, username) then OwnedBalance(t.accounts, username) else UnknownBalance
  }

  /** COUNT(*) over the regular users. */
  function NumRegularUsers(users: seq<UserRow>): nat {
    if users == [] then 0
    else NumRegularUsers(users[..|users| - 1]) + if users[|users| - 1].userType == Regular then 1 else 0
  }

  /** The sum of the owned balances of the regular users among rows. */
  function RegularBalanceSum(rows: seq<UserRow>, accounts: seq<AccountRow>): Cents {
    if rows == [] then 0
    else
      var last := rows[|rows| - 1];
      RegularBalanceSum(rows[..|rows| - 1], accounts)
        + if last.userType == Regular then OwnedBalance(accounts, last.username) else 0
  }

  /** The sum of the credit scores of the regular users among rows. */
  function RegularCreditSum(rows: seq<UserRow>): int {
    if rows == [] then 0
    else
      var last := rows[|rows| - 1];
      RegularCreditSum(rows[..|rows| - 1]) + if last.userType == Regular then last.creditScore else 0
  }

  /** The average balance in cents, rounded down to a whole cent. */
  function AverageBalance(t: Tables): Cents
    requires NumRegularUsers(t.users) > 0
  {
    RegularBalanceSum(t.users, t.accounts) / NumRegularUsers(t.users)
  }

  /** The average credit score, not rounded. */
  function AverageCredit(users: seq<UserRow>): real
    requires NumRegularUsers(users) > 0
  {
    (RegularCreditSum(users) as real) / (NumRegularUsers(users) as real)
  }

  /** COUNT(*) over the transactions. */
  function NumTransactions(t: Tables): nat {
    |t.transactions|
  }

  class Analytics {
    const db: Database
    var averageBalance: real
    var averageCredit: real
    var totalTransactions: int

    constructor (db: Database)
      ensures this.db == db
    {
      this.db := db;
    }

    /** Steps through the user's balances and adds them up. */
    method GetBalance(username: string) returns (total: Cents)
      ensures total == BalanceOf(db.tables, username)
    {
      if !UserExists(db.tables.users, username) {
        return UnknownBalance;
      }
      var rows := SelectAccounts(db.tables.accounts, ByOwner(username));
      if rows == [] {
        return 0;
      }
      total := 0;
      var i := 0;
      while i < |rows|
        invariant 0 <= i <= |rows|
        invariant total == SumBalances(rows[..i])
      {
        SumBalancesAppend(rows[..i], rows[i]);
        assert rows[..i + 1] == rows[..i] + [rows[i]];
        total := total + rows[i].balance;
        i := i + 1;
      }
      assert rows[..i] == rows;
    }

    /** COUNT(*) over the regular users. */
    method GetNumUsers() returns (n: int)
      ensures n == NumRegularUsers(db.tables.users)
      ensures 0 <= n <= |db.tables.users|
    {
      RegularCountBound(db.tables.users);
      n := NumRegularUsers(db.tables.users);
    }

    /** The stored credit score, or -1 for an unknown user. */
    method GetCreditScore(username: string) returns (score: int)
      ensures score == CreditScoreOf(db.tables.users, username)
      ensures !UserExists(db.tables.users, username) ==> score == -1
    {
      if !UserExists(db.tables.users, username) {
        return -1;
      }
      score := db.tables.users[FindUser(db.tables.users, username).value].creditScore;
    }

    /** Adds up the balance of every regular user and divides by their number. */
    method CalculateAverageBalance()
      requires NumRegularUsers(db.tables.users) > 0
      modifies this`averageBalance
      ensures averageBalance == (RegularBalanceSum(db.tables.users, db.tables.accounts) as real)
                                / (NumRegularUsers(db.tables.users) as real)
    {
      var users := db.tables.users;
      averageBalance := 0.0;
      var i := 0;
      while i < |users|
        invariant 0 <= i <= |users|
        invariant averageBalance == (RegularBalanceSum(users[..i], db.tables.accounts) as real)
      {
        assert users[..i + 1][..i] == users[..i];
        if users[i].userType == Regular {
          assert UserExists(users, users[i].username);
          var b := GetBalance(users[i].username);
          averageBalance := averageBalance + (b as real);
        }
        i := i + 1;
      }
      assert users[..i] == users;
      averageBalance := averageBalance / (NumRegularUsers(users) as real);
    }

    /** Adds up the credit score of every regular user and divides by their number. */
    method CalculateAverageCreditScore()
      requires NumRegularUsers(db.tables.users) > 0
      modifies this`averageCredit
      ensures averageCredit == AverageCredit(db.tables.users)
    {
      var users := db.tables.users;
      averageCredit := 0.0;
      var i := 0;
      while i < |users|
        invariant 0 <= i <= |users|
        invariant averageCredit == (RegularCreditSum(users[..i]) as real)
      {
        assert users[..i + 1][..i] == users[..i];
        if users[i].userType == Regular {
          averageCredit := averageCredit + (users[i].creditScore as real);
        }
        i := i + 1;
      }
      assert users[..i] == users;
      averageCredit := averageCredit / (NumRegularUsers(users) as real);
    }

    /** The average balance rounded down to a whole cent. */
    method GetAverageBalance() returns (avg: Cents)
      requires NumRegularUsers(db.tables.users) > 0
      modifies this`averageBalance
      ensures avg == AverageBalance(db.tables)
      ensures averageBalance == (RegularBalanceSum(db.tables.users, db.tables.accounts) as real)
                                / (NumRegularUsers(db.tables.users) as real)
    {
      CalculateAverageBalance();
      FloorOfQuotient(RegularBalanceSum(db.tables.users, db.tables.accounts), NumRegularUsers(db.tables.users));
      avg := averageBalance.Floor;
    }

    /** The average credit score. */
    method GetAverageCreditScore() returns (avg: real)
      requires NumRegularUsers(db.tables.users) > 0
      modifies this`averageCredit
      ensures avg == averageCredit == AverageCredit(db.tables.users)
    {
      CalculateAverageCreditScore();
      avg := averageCredit;
    }

    /** The number of transaction rows. */
    method GetNumTransactions() returns (n: int)
      modifies this`totalTransactions
      ensures n == totalTransactions == NumTransactions(db.tables)
    {
      totalTransactions := |db.tables.transactions|;
      n := totalTransactions;
    }
  }

  // -------------------------------------------------------------- lemmas

  /** One more users row counts, and adds its score, only when it is a regular user. */
  lemma RegularAppend(users: seq<UserRow>, x: UserRow)
    ensures NumRegularUsers(users + [x]) == NumRegularUsers(users) + if x.userType == Regular then 1 else 0
    ensures RegularCreditSum(users + [x]) == RegularCreditSum(users) + if x.userType == Regular then x.creditScore else 0
  {
    assert (users + [x])[..|users|] == users;
  }

  /** The regular users are at most all users. */
  lemma {:induction false} RegularCountBound(users: seq<UserRow>)
    ensures NumRegularUsers(users) <= |users|
  {
    if users != [] {
      RegularCountBound(users[..|users| - 1]);
    }
  }

  /** On a fresh store the three seeded customers count as users and the
      administrator does not; with the default score, their average is 300. */
  lemma FirstOpeningAverages()
    ensures NumRegularUsers(Seeded(Empty).users) == 3
    ensures AverageCredit(Seeded(Empty).users) == 300.0
  {
    SeededUsersOnEmpty();
    var u := SeedUsers;
    assert u == [u[0]] + [u[1]] + [u[2]] + [u[3]];
    RegularAppend([], u[0]);
    RegularAppend([u[0]], u[1]);
    RegularAppend([u[0]] + [u[1]], u[2]);
    RegularAppend([u[0]] + [u[1]] + [u[2]], u[3]);
  }

  /** Rounding the real quotient down to a whole cent is integer division. */
  lemma FloorOfQuotient(total: int, n: int)
    requires n > 0
    ensures ((total as real) / (n as real)).Floor == total / n
  {
    var q, m := total / n, total % n;
    assert total == q * n + m && 0 <= m < n;
    var x := (total as real) / (n as real);
    assert (total as real) == (q as real) * (n as real) + (m as real);
    assert x == (q as real) + (m as real) / (n as real);
    assert 0.0 <= (m as real) / (n as real) < 1.0;
  }

  lemma {:induction false} CreditSumWithin(rows: seq<UserRow>, lo: int, hi: int)
    requires forall i | 0 <= i < |rows| :: rows[i].userType == Regular ==> lo <= rows[i].creditScore <= hi
    ensures lo * NumRegularUsers(rows) <= RegularCreditSum(rows) <= hi * NumRegularUsers(rows)
  {
    if rows != [] {
      var init := rows[..|rows| - 1];
      CreditSumWithin(init, lo, hi);
      var n := NumRegularUsers(init);
      assert lo * (n + 1) == lo * n + lo && hi * (n + 1) == hi * n + hi;
    }
  }

  /** When every regular user's score lies in [lo, hi], so does the average. */
  lemma AverageCreditWithin(users: seq<UserRow>, lo: int, hi: int)
    requires NumRegularUsers(users) > 0
    requires forall i | 0 <= i < |users| :: users[i].userType == Regular ==> lo <= users[i].creditScore <= hi
    ensures (lo as real) <= AverageCredit(users) <= (hi as real)
  {
    CreditSumWithin(users, lo, hi);
    IntQuotientWithin(RegularCreditSum(users), NumRegularUsers(users), lo, hi);
  }

  lemma IntQuotientWithin(s: int, n: int, lo: int, hi: int)
    requires n > 0 && lo * n <= s <= hi * n
    ensures (lo as real) <= (s as real) / (n as real) <= (hi as real)
  {
    RealProduct(lo, n);
    RealProduct(hi, n);
    QuotientWithin(s as real, n as real, lo as real, hi as real);
  }

  lemma RealProduct(a: int, b: int)
    ensures (a * b) as real == (a as real) * (b as real)
  {
  }

  lemma QuotientWithin(s: real, n: real, lo: real, hi: real)
    requires n > 0.0 && lo * n <= s <= hi * n
    ensures lo <= s / n <= hi
  {
  }

  /**
   * Under the keys, a balance update of one account moves the balance of
   * its owner by delta and leaves every other owner's balance as it was.
   */
  lemma {:induction false} OwnedBalanceCredit(rows: seq<AccountRow>, id: int, delta: Cents, username: string, next: int)
    requires AccountKeys(rows, next)
    ensures OwnedBalance(CreditRows(rows, id, delta), username)
         == OwnedBalance(rows, username) + if OwnerOf(rows, id) == Some(username) then delta else 0
  {
    if rows != [] {
      var init, last := rows[..|rows| - 1], rows[|rows| - 1];
      assert rows == init + [last];
      assert AccountKeys(init, next);
      OwnedBalanceCredit(init, id, delta, username, next);
      var prev := CreditRows(init, id, delta);
      var x := if last.accountID == id then last.(balance := last.balance + delta) else last;
      CreditRowsAppend(init, last, id, delta);
      var f := ByOwner(username);
      SelectAppend(prev, x, f);
      SelectAppend(init, last, f);
      OwnerOfAppend(init, last, id);
      if last.username == username {
        SumBalancesAppend(SelectAccounts(prev, f), x);
        SumBalancesAppend(SelectAccounts(init, f), last);
      }
      if last.accountID == id {
        LastIDIsNew(rows, next);
      }
    }
  }

  lemma OwnerOfAppend(rows: seq<AccountRow>, x: AccountRow, id: int)
    ensures OwnerOf(rows + [x], id)
         == if OwnerOf(rows, id).Some? then OwnerOf(rows, id)
            else if x.accountID == id then Some(x.username) else None
  {
    assert (rows + [x])[..|rows|] == rows;
  }

  /**
   * The money a freshly listed customer adds up is the balance the
   * analytics page reports for that user, when the user has at most one
   * account of each type.
   */
  lemma MoneyAgreesWithAnalytics(t: Tables, accs: seq<Account>, username: string)
    requires UserExists(t.users, username) && OneAccountPerType(t.accounts, username)
    requires |accs| == |SelectAccounts(t.accounts, ByOwner(username))|
    requires forall i | 0 <= i < |accs| ::
      accs[i].username == username
      && accs[i].accountType == SelectAccounts(t.accounts, ByOwner(username))[i].accountType
    ensures StoredTotal(t.accounts, accs) == BalanceOf(t, username)
  {
    ListedMoney(t.accounts, accs, username);
  }
}
