/**
 * The login screen of login.cpp: opening it creates the three tables when
 * they are missing and seeds four users (insert-or-ignore) and three
 * accounts (inserted on every opening); a login succeeds when some users
 * row carries both the username and the password.
 */
module Logins {
  import opened Wrappers
  import opened Schema
  import opened Administration

  /** The users seeded on every opening. */
  const SeedUsers: seq<UserRow> := [
    NewUser("admin001", "adminpassword", "bankAdmin", Admin),
    NewUser("user001", "oneuser", "bob", Regular),
    NewUser("user002", "twouser", "jannet", Regular),
    NewUser("user003", "threeuser", "sarah", Regular)]

  /** One multi-row `INSERT OR IGNORE INTO users`, row by row in order. */
  function InsertUsersOrIgnore(t: Tables, rows: seq<UserRow>): Tables
    decreases |rows|
  {
    if rows == [] then t else InsertUsersOrIgnore(InsertUserOrIgnore(t, rows[0]), rows[1..])
  }

  /** The seeding: the users, then three accounts with their initial and current balances in cents. */
  function Seeded(t: Tables): Tables {
    var t1 := InsertUsersOrIgnore(t, SeedUsers);
    var t2 := InsertAccount(t1, "user001", "chequing", 123422, 123455);
    var t3 := InsertAccount(t2, "user001", "savings", 1213422, 1243455);
    InsertAccount(t3, "user003", "savings", 13060, 65489)
  }

  /** Some users row carries both the username and the password. */
  predicate LoginMatches(users: seq<UserRow>, username: string, password: string) {
    exists i | 0 <= i < |users| :: users[i].username == username && users[i].password == password
  }

  class Login {
    const db: Database
    var accountFound: bool

    /** Opens the store and seeds it. */
    constructor (db: Database)
      modifies db
      ensures this.db == db && db.tables == Seeded(old(db.tables))
    {
      this.db := db;
      new;
      db.tables := InsertUsersOrIgnore(db.tables, SeedUsers);
      db.tables := InsertAccount(db.tables, "user001", "chequing", 123422, 123455);
      db.tables := InsertAccount(db.tables, "user001", "savings", 1213422, 1243455);
      db.tables := InsertAccount(db.tables, "user003", "savings", 13060, 65489);
    }

    /** Steps through every users row and records whether one matches both fields. */
    method VerifyLogin(username: string, password: string) returns (found: bool)
      modifies this`accountFound
      ensures found == accountFound == LoginMatches(db.tables.users, username, password)
    {
      var users := db.tables.users;
      accountFound := false;
      var i := 0;
      while i < |users|
        invariant 0 <= i <= |users|
        invariant accountFound <==> exists j | 0 <= j < i :: users[j].username == username && users[j].password == password
      {
        if users[i].username == username && users[i].password == password {
          accountFound := true;
        }
        i := i + 1;
      }
      found := accountFound;
    }

    /** The user type of an existing user's row. */
    method CheckUserType(username: string) returns (r: string)
      requires UserExists(db.tables.users, username)
      ensures r == UserTypeOf(db.tables.users, username)
      ensures exists i | 0 <= i < |db.tables.users| :: db.tables.users[i].username == username && db.tables.users[i].userType == r
    {
      r := db.tables.users[FindUser(db.tables.users, username).value].userType;
    }
  }

  // -------------------------------------------------------------- lemmas

  /** Under unique usernames a login matches exactly when the user exists and its row holds that password. */
  lemma LoginMatchesKeyed(users: seq<UserRow>, username: string, password: string)
    requires UniqueUsernames(users)
    ensures LoginMatches(users, username, password)
        <==> UserExists(users, username) && users[FindUser(users, username).value].password == password
  {
    if LoginMatches(users, username, password) {
      var i :| 0 <= i < |users| && users[i].username == username && users[i].password == password;
      FindUserKeyed(users, i);
    }
  }

  /** The scan's answer does not depend on the order of the rows. */
  lemma LoginOrderFree(a: seq<UserRow>, b: seq<UserRow>, username: string, password: string)
    requires multiset(a) == multiset(b)
    ensures LoginMatches(a, username, password) == LoginMatches(b, username, password)
  {
    if LoginMatches(a, username, password) {
      var i :| 0 <= i < |a| && a[i].username == username && a[i].password == password;
      assert a[i] in multiset(b);
      var j :| 0 <= j < |b| && b[j] == a[i];
    }
    if LoginMatches(b, username, password) {
      var i :| 0 <= i < |b| && b[i].username == username && b[i].password == password;
      assert b[i] in multiset(a);
      var j :| 0 <= j < |a| && a[j] == b[i];
    }
  }

  /**
   * Inserting users row by row keeps the keys, the accounts and the
   * transactions; the rows already there stay in front, and afterwards
   * every inserted username exists.
   */
  lemma InsertUsersLedger(t: Tables, rows: seq<UserRow>)
    requires t.Valid()
    ensures InsertUsersOrIgnore(t, rows).Valid()
    ensures InsertUsersOrIgnore(t, rows).accounts == t.accounts
    ensures InsertUsersOrIgnore(t, rows).transactions == t.transactions
    ensures InsertUsersOrIgnore(t, rows).nextAccountID == t.nextAccountID
    ensures |t.users| <= |InsertUsersOrIgnore(t, rows).users|
    ensures InsertUsersOrIgnore(t, rows).users[..|t.users|] == t.users
    ensures forall i | 0 <= i < |rows| :: UserExists(InsertUsersOrIgnore(t, rows).users, rows[i].username)
  {
    InsertUsersKeys(t, rows);
    InsertUsersPrefix(t, rows);
  }

  lemma {:induction false} InsertUsersKeys(t: Tables, rows: seq<UserRow>)
    requires t.Valid()
    ensures InsertUsersOrIgnore(t, rows).Valid()
    ensures InsertUsersOrIgnore(t, rows).accounts == t.accounts
    ensures InsertUsersOrIgnore(t, rows).transactions == t.transactions
    ensures InsertUsersOrIgnore(t, rows).nextAccountID == t.nextAccountID
    decreases |rows|
  {
    if rows != [] {
      InsertUserKeeps(t, rows[0]);
      InsertUsersKeys(InsertUserOrIgnore(t, rows[0]), rows[1..]);
    }
  }

  lemma {:induction false} InsertUsersPrefix(t: Tables, rows: seq<UserRow>)
    ensures |t.users| <= |InsertUsersOrIgnore(t, rows).users|
    ensures InsertUsersOrIgnore(t, rows).users[..|t.users|] == t.users
    ensures forall i | 0 <= i < |rows| :: UserExists(InsertUsersOrIgnore(t, rows).users, rows[i].username)
    decreases |rows|
  {
    if rows != [] {
      var t1 := InsertUserOrIgnore(t, rows[0]);
      InsertUsersPrefix(t1, rows[1..]);
      var r := InsertUsersOrIgnore(t, rows).users;
      assert r[..|t1.users|][..|t.users|] == r[..|t.users|];
      if !UserExists(t.users, rows[0].username) {
        assert t1.users[|t.users|] == rows[0];
      }
      assert UserExists(t1.users, rows[0].username);
      var k :| 0 <= k < |t1.users| && t1.users[k].username == rows[0].username;
      assert r[k] == t1.users[k];
      forall i | 1 <= i < |rows| ensures UserExists(r, rows[i].username) {
        assert rows[i] == rows[1..][i - 1];
      }
    }
  }

  /** Inserting users whose usernames all exist already changes nothing. */
  lemma {:induction false} InsertPresentUsers(t: Tables, rows: seq<UserRow>)
    requires forall i | 0 <= i < |rows| :: UserExists(t.users, rows[i].username)
    ensures InsertUsersOrIgnore(t, rows) == t
    decreases |rows|
  {
    if rows != [] {
      assert InsertUserOrIgnore(t, rows[0]) == t;
      forall i | 0 <= i < |rows[1..]| ensures UserExists(t.users, rows[1..][i].username) {
        assert rows[1..][i] == rows[i + 1];
      }
      InsertPresentUsers(t, rows[1..]);
    }
  }

  /**
   * Seeding keeps the keys and the transactions, keeps every existing
   * user row in front, makes the four seeded usernames exist and appends
   * exactly the three seeded accounts with the next three accountIDs.
   */
  lemma SeededLedger(t: Tables)
    requires t.Valid()
    ensures Seeded(t).Valid()
    ensures Seeded(t).transactions == t.transactions
    ensures |t.users| <= |Seeded(t).users| && Seeded(t).users[..|t.users|] == t.users
    ensures forall i | 0 <= i < |SeedUsers| :: UserExists(Seeded(t).users, SeedUsers[i].username)
    ensures Seeded(t).accounts == t.accounts + [
      AccountRow(t.nextAccountID, "user001", "chequing", 123422, 123455),
      AccountRow(t.nextAccountID + 1, "user001", "savings", 1213422, 1243455),
      AccountRow(t.nextAccountID + 2, "user003", "savings", 13060, 65489)]
  {
    var t1 := InsertUsersOrIgnore(t, SeedUsers);
    InsertUsersLedger(t, SeedUsers);
    var t2 := InsertAccount(t1, "user001", "chequing", 123422, 123455);
    var t3 := InsertAccount(t2, "user001", "savings", 1213422, 1243455);
    var t4 := InsertAccount(t3, "user003", "savings", 13060, 65489);
    assert Seeded(t) == t4;
    assert t4.users == t1.users && t4.transactions == t.transactions;
    InsertAccountKeeps(t1, "user001", "chequing", 123422, 123455);
    InsertAccountKeeps(t2, "user001", "savings", 1213422, 1243455);
    InsertAccountKeeps(t3, "user003", "savings", 13060, 65489);
  }

  /**
   * Opening the login screen again leaves the users as the first opening
   * left them, yet adds the three seeded accounts once more.
   */
  lemma ReopenedLedger(t: Tables)
    requires t.Valid()
    ensures Seeded(Seeded(t)).users == Seeded(t).users
    ensures |Seeded(Seeded(t)).accounts| == |t.accounts| + 6
  {
    SeededLedger(t);
    var s := Seeded(t);
    InsertPresentUsers(s, SeedUsers);
    SeededLedger(s);
  }

  /** On a fresh store the users table holds exactly the four seeded rows, in order. */
  lemma SeededUsersOnEmpty()
    ensures Seeded(Empty).users == SeedUsers
  {
    var t1 := InsertUserOrIgnore(Empty, SeedUsers[0]);
    assert t1.users == [SeedUsers[0]];
    var t2 := InsertUserOrIgnore(t1, SeedUsers[1]);
    assert t2.users == SeedUsers[..2];
    var t3 := InsertUserOrIgnore(t2, SeedUsers[2]);
    assert t3.users == SeedUsers[..3];
    var t4 := InsertUserOrIgnore(t3, SeedUsers[3]);
    assert t4.users == SeedUsers;
    assert InsertUsersOrIgnore(t4, SeedUsers[4..]) == t4;
    assert InsertUsersOrIgnore(t3, SeedUsers[3..]) == t4;
    assert InsertUsersOrIgnore(t2, SeedUsers[2..]) == t4;
    assert InsertUsersOrIgnore(t1, SeedUsers[1..]) == t4;
    assert InsertUsersOrIgnore(Empty, SeedUsers) == t4;
  }

  /** On a fresh store the administrator logs in with the seeded password and reads as an admin. */
  lemma FirstOpening()
    ensures LoginMatches(Seeded(Empty).users, "admin001", "adminpassword")
    ensures !LoginMatches(Seeded(Empty).users, "admin001", "oneuser")
    ensures UserTypeOf(Seeded(Empty).users, "admin001") == Admin
    ensures UserTypeOf(Seeded(Empty).users, "user001") == Regular
  {
    var users := Seeded(Empty).users;
    SeededUsersOnEmpty();
    UniqueUsernamesFrom(users);
    LoginMatchesKeyed(users, "admin001", "adminpassword");
    LoginMatchesKeyed(users, "admin001", "oneuser");
    LookupsReadRow(users, 0);
    LookupsReadRow(users, 1);
  }
}
