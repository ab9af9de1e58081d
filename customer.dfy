/**
 * A customer as customer.cpp keeps it: the profile fields of one users row
 * and a list of account views, one per accounts row of that username. The
 * list grows when an account is opened and shrinks when one is closed; the
 * scans over it find the first view of a type or of an accountID.
 */
module Customers {
  import opened Wrappers
  import opened Schema
  import opened Aggregates
  import opened Accounts

  /** The four statements of a transfer: a "send" row from the sender naming
      the receiver, the debit, a "receive" row sent by the receiver, the credit. */
  function Transferred(t: Tables, sender: int, receiver: int, amount: Cents): Tables {
    var debited := Posted(t, sender, Some(receiver), TxType.Send, -amount, amount);
    Posted(debited, receiver, None, TxType.Receive, amount, amount)
  }

  /** The two statements of closing an account: the transactions it sent,
      then every row of that owner and type. */
  function Closed(t: Tables, id: int, username: string, accountType: string): Tables {
    var t1 := t.(transactions := DeleteSentRows(t.transactions, {id}));
    t1.(accounts := DeleteAccountRows(t1.accounts, ByOwnerType(username, accountType)))
  }

  /** The first view of a type, as the scans over the list find it. */
  function FirstOfType(accs: seq<Account>, accountType: string): (r: Option<nat>)
    ensures r.Some? ==> r.value < |accs| && accs[r.value].accountType == accountType
    ensures r.Some? ==> forall j | 0 <= j < r.value :: accs[j].accountType != accountType
    ensures r.None? <==> forall j | 0 <= j < |accs| :: accs[j].accountType != accountType
  {
    if accs == [] then None
    else
      match FirstOfType(accs[..|accs| - 1], accountType)
      case Some(i) => Some(i)
      case None =>
        if accs[|accs| - 1].accountType == accountType then Some(|accs| - 1) else None
  }

  /** No two views of the list share an account type. */
  predicate DistinctTypes(accs: seq<Account>) {
    forall i, j | 0 <= i < j < |accs| :: accs[i].accountType != accs[j].accountType
  }

  /** The sum of the balances the views of the list read from the table. */
  function StoredTotal(rows: seq<AccountRow>, accs: seq<Account>): Cents {
    if accs == [] then 0
    else
      var a := accs[|accs| - 1];
      StoredTotal(rows, accs[..|accs| - 1]) + StoredBalance(rows, a.username, a.accountType)
  }

  /** Every view of the list reads that database. */
  predicate AllOn(db: Database, accs: seq<Account>) {
    forall i | 0 <= i < |accs| :: accs[i].db == db
  }

  /** No view is listed twice. */
  predicate DistinctRefs(accs: seq<Account>) {
    forall i, j | 0 <= i < j < |accs| :: accs[i] != accs[j]
  }

  /** Dropping one view keeps the list's invariants. */
  lemma DropKeeps(db: Database, accs: seq<Account>, i: nat)
    requires i < |accs|
    ensures AllOn(db, accs) ==> AllOn(db, accs[..i] + accs[i + 1..])
    ensures DistinctRefs(accs) ==> DistinctRefs(accs[..i] + accs[i + 1..])
    ensures DistinctTypes(accs) ==> DistinctTypes(accs[..i] + accs[i + 1..])
  {
    var r := accs[..i] + accs[i + 1..];
    assert forall k | 0 <= k < |r| :: r[k] == accs[if k < i then k else k + 1];
  }

  /** Joining two lists with no view in common keeps the list's invariants. */
  lemma JoinKeeps(db: Database, a: seq<Account>, b: seq<Account>)
    requires AllOn(db, a) && AllOn(db, b) && DistinctRefs(a) && DistinctRefs(b)
    requires forall i, j | 0 <= i < |a| && 0 <= j < |b| :: a[i] != b[j]
    ensures AllOn(db, a + b) && DistinctRefs(a + b)
  {
  }

  /** Some view of the sender's accountID reads a balance below the amount. */
  predicate Underfunded(rows: seq<AccountRow>, accs: seq<Account>, sender: int, amount: Cents) {
    exists i | 0 <= i < |accs| ::
      accs[i].accountID == sender && StoredBalance(rows, accs[i].username, accs[i].accountType) < amount
  }

  /** The views are those of the username's rows, in rowid order, each
      holding the accountID and balance of its first row. */
  ghost predicate ListedFrom(accs: seq<Account>, rows: seq<AccountRow>, username: string)
    reads accs
  {
    && |accs| == |SelectAccounts(rows, ByOwner(username))|
    && forall i | 0 <= i < |accs| ::
      && accs[i].username == username
      && accs[i].accountType == SelectAccounts(rows, ByOwner(username))[i].accountType
      && accs[i].Loaded(rows)
  }

  /** One fresh view per accounts row of the username, in rowid order. */
  method LoadAccounts(db: Database, username: string) returns (accs: seq<Account>)
    ensures ListedFrom(accs, db.tables.accounts, username)
    ensures forall i | 0 <= i < |accs| :: fresh(accs[i])
    ensures AllOn(db, accs) && DistinctRefs(accs)
  {
    var rows := SelectAccounts(db.tables.accounts, ByOwner(username));
    accs := [];
    var i := 0;
    while i < |rows|
      invariant 0 <= i <= |rows| && |accs| == i
      invariant forall k | 0 <= k < i ::
        && fresh(accs[k]) && accs[k].db == db && accs[k].username == username
        && accs[k].accountType == rows[k].accountType
        && accs[k].Loaded(db.tables.accounts)
      invariant forall k, j | 0 <= k < j < i :: accs[k] != accs[j]
    {
      assert rows[i] in db.tables.accounts;
      var at :| 0 <= at < |db.tables.accounts| && db.tables.accounts[at] == rows[i];
      assert Selects(ByOwnerType(username, rows[i].accountType), db.tables.accounts[at]);
      var a := new Account.Load(db, rows[i].accountType, username);
      accs := accs + [a];
      i := i + 1;
    }
  }

  class Customer {
    const db: Database
    var username: string
    var password: string
    var name: string
    var creditScore: int
    var loanDebt: Cents
    var userType: string
    var money: Cents
    var accounts: seq<Account>

    /** Every view reads this customer's database, and no view is listed twice. */
    ghost predicate Valid()
      reads this
    {
      AllOn(db, accounts) && DistinctRefs(accounts)
    }

    /** The profile fields are those of the user's row. */
    ghost predicate Profile(users: seq<UserRow>)
      reads this
    {
      match FindUser(users, username)
      case Some(i) =>
        && password == users[i].password && name == users[i].name
        && creditScore == users[i].creditScore && loanDebt == users[i].loanDebt
        && userType == users[i].userType
      case None => false
    }

    /** Loads the user's accounts and profile; nothing is written. */
    constructor (db: Database, username: string)
      requires UserExists(db.tables.users, username)
      ensures Valid() && this.db == db && this.username == username
      ensures ListedFrom(accounts, db.tables.accounts, username)
      ensures Profile(db.tables.users)
    {
      this.db := db;
      this.username := username;
      var accs := LoadAccounts(db, username);
      this.accounts := accs;
      new;
      StoreValues();
    }

    /** Reads the profile fields from the user's row. */
    method StoreValues()
      requires UserExists(db.tables.users, username)
      modifies this`password, this`name, this`creditScore, this`loanDebt, this`userType
      ensures Profile(db.tables.users)
    {
      var row := db.tables.users[FindUser(db.tables.users, username).value];
      password, name, creditScore := row.password, row.name, row.creditScore;
      loanDebt, userType := row.loanDebt, row.userType;
    }

    /** Loads another username's accounts after the ones already listed, and its profile. */
    method Fill(username: string)
      requires Valid() && UserExists(db.tables.users, username)
      modifies this
      ensures Valid() && this.username == username
      ensures |old(accounts)| <= |accounts| && accounts[..|old(accounts)|] == old(accounts)
      ensures ListedFrom(accounts[|old(accounts)|..], db.tables.accounts, username)
      ensures Profile(db.tables.users)
      ensures money == old(money)
    {
      this.username := username;
      var accs := LoadAccounts(db, username);
      JoinKeeps(db, accounts, accs);
      var before := accounts;
      accounts := accounts + accs;
      assert accounts[..|before|] == before && accounts[|before|..] == accs;
      StoreValues();
    }

    /** The sum of the balances stored for the listed accounts; each view's
        cached balance is refreshed on the way. */
    method GetMoney() returns (total: Cents)
      requires Valid()
      modifies this`money, accounts
      ensures total == money == StoredTotal(db.tables.accounts, accounts)
      ensures forall i | 0 <= i < |accounts| ::
        accounts[i].balance == StoredBalance(db.tables.accounts, accounts[i].username, accounts[i].accountType)
    {
      money := 0;
      var i := 0;
      while i < |accounts|
        invariant 0 <= i <= |accounts|
        invariant money == StoredTotal(db.tables.accounts, accounts[..i])
        invariant forall j | 0 <= j < i ::
          accounts[j].balance == StoredBalance(db.tables.accounts, accounts[j].username, accounts[j].accountType)
      {
        var b := accounts[i].GetBalance();
        assert accounts[..i + 1][..i] == accounts[..i];
        money := money + b;
        i := i + 1;
      }
      assert accounts[..i] == accounts;
      total := money;
    }

    /** The stored balance of the first listed account of that type, or 0
        when the list has none. */
    method CheckAccountBalance(accountType: string) returns (b: Cents)
      requires Valid()
      modifies accounts
      ensures b == match FirstOfType(accounts, accountType)
                   case Some(i) => StoredBalance(db.tables.accounts, accounts[i].username, accountType)
                   case None => 0
      ensures forall j | 0 <= j < |accounts| && FirstOfType(accounts, accountType) != Some(j) ::
                accounts[j].balance == old(accounts[j].balance)
    {
      var i := 0;
      while i < |accounts|
        invariant 0 <= i <= |accounts|
        invariant forall j | 0 <= j < i :: accounts[j].accountType != accountType
        invariant forall j | 0 <= j < |accounts| :: accounts[j].balance == old(accounts[j].balance)
      {
        if accounts[i].accountType == accountType {
          b := accounts[i].GetBalance();
          return;
        }
        i := i + 1;
      }
      b := 0;
    }

    /** Opens an account of a type not yet in the list, with smoney as its
        initial deposit; a type already listed is refused with no change. */
    method CreateAccount(accountType: string, smoney: Cents) returns (ok: bool)
      requires Valid()
      modifies this`accounts, db
      ensures Valid()
      ensures ok == FirstOfType(old(accounts), accountType).None?
      ensures !ok ==> accounts == old(accounts) && db.tables == old(db.tables)
      ensures ok ==> db.tables == InsertAccount(old(db.tables), username, accountType, smoney, smoney)
      ensures ok ==> |accounts| == |old(accounts)| + 1 && accounts[..|old(accounts)|] == old(accounts)
      ensures ok ==> fresh(accounts[|old(accounts)|])
      ensures ok ==> accounts[|old(accounts)|].accountType == accountType
      ensures ok ==> accounts[|old(accounts)|].username == username
      ensures ok ==> accounts[|old(accounts)|].Loaded(db.tables.accounts)
      ensures ok && FirstAccount(old(db.tables.accounts), ByOwnerType(username, accountType)).None? ==>
                && accounts[|old(accounts)|].accountID == old(db.tables.nextAccountID)
                && accounts[|old(accounts)|].balance == smoney
      ensures old(DistinctTypes(accounts)) ==> DistinctTypes(accounts)
    {
      var i := 0;
      while i < |accounts|
        invariant 0 <= i <= |accounts|
        invariant forall j | 0 <= j < i :: accounts[j].accountType != accountType
      {
        if accounts[i].accountType == accountType {
          return false;
        }
        i := i + 1;
      }
      var a := new Account.Create(db, accountType, username, smoney);
      accounts := accounts + [a];
      ok := true;
    }

    /** Closes the first listed account of that type: deletes the
        transactions it sent and the rows of this owner and type, and drops
        the view, keeping the others in order; false with no change when no
        listed account has that type. */
    method DeleteAccount(accountType: string) returns (ok: bool)
      requires Valid()
      modifies this`accounts, db
      ensures Valid()
      ensures ok == FirstOfType(old(accounts), accountType).Some?
      ensures !ok ==> accounts == old(accounts) && db.tables == old(db.tables)
      ensures ok ==>
        var i := FirstOfType(old(accounts), accountType).value;
        && db.tables == Closed(old(db.tables), old(accounts)[i].accountID, username, accountType)
        && accounts == old(accounts)[..i] + old(accounts)[i + 1..]
      ensures old(DistinctTypes(accounts)) ==> DistinctTypes(accounts)
    {
      var i := 0;
      while i < |accounts|
        invariant 0 <= i <= |accounts|
        invariant forall j | 0 <= j < i :: accounts[j].accountType != accountType
      {
        if accounts[i].accountType == accountType {
          db.tables := db.tables.(transactions := DeleteSentRows(db.tables.transactions, {accounts[i].accountID}));
          db.tables := db.tables.(accounts := DeleteAccountRows(db.tables.accounts, ByOwnerType(username, accountType)));
          DropKeeps(db, accounts, i);
          accounts := accounts[..i] + accounts[i + 1..];
          return true;
        }
        i := i + 1;
      }
      ok := false;
    }

    /**
     * Sends amount from the sender account to the receiver account. Every
     * listed view of the sender is checked against its stored balance; a
     * sender that is not listed is not checked at all. The receiver must
     * have exactly one row. On refusal nothing is written.
     */
    method Transaction(sender: int, receiver: int, amount: Cents) returns (ok: bool)
      requires Valid()
      modifies db, accounts
      ensures ok == (&& !Underfunded(old(db.tables.accounts), accounts, sender, amount)
                     && CountAccounts(old(db.tables.accounts), ByID(receiver)) == 1)
      ensures db.tables == if ok then Transferred(old(db.tables), sender, receiver, amount) else old(db.tables)
      ensures forall j | 0 <= j < |accounts| && accounts[j].accountID != sender ::
                accounts[j].balance == old(accounts[j].balance)
    {
      var i := 0;
      while i < |accounts|
        invariant 0 <= i <= |accounts|
        invariant db.tables == old(db.tables)
        invariant forall j | 0 <= j < |accounts| && accounts[j].accountID != sender ::
          accounts[j].balance == old(accounts[j].balance)
        invariant forall j | 0 <= j < i ::
          !(accounts[j].accountID == sender
            && StoredBalance(db.tables.accounts, accounts[j].username, accounts[j].accountType) < amount)
      {
        if accounts[i].accountID == sender {
          var b := accounts[i].GetBalance();
          if b < amount {
            return false;
          }
        }
        i := i + 1;
      }
      if CountAccounts(db.tables.accounts, ByID(receiver)) == 1 {
        db.tables := InsertTransaction(db.tables, sender, Some(receiver), TxType.Send, amount);
        db.tables := UpdateBalance(db.tables, sender, -amount);
        db.tables := InsertTransaction(db.tables, receiver, None, TxType.Receive, amount);
        db.tables := UpdateBalance(db.tables, receiver, amount);
        ok := true;
      } else {
        ok := false;
      }
    }
  }

  // ------------------------------------------------------------ ledger

  /**
   * Between two existing accounts a transfer appends a "send" and a
   * "receive" row with consecutive transactionIDs, debits the sender,
   * credits the receiver and conserves the total money.
   */
  lemma TransferLedger(t: Tables, sender: int, receiver: int, amount: Cents)
    requires t.Valid() && AccountExists(t.accounts, sender) && AccountExists(t.accounts, receiver)
    ensures Transferred(t, sender, receiver, amount).Valid()
    ensures Transferred(t, sender, receiver, amount).users == t.users
    ensures Transferred(t, sender, receiver, amount).transactions
         == t.transactions + [TxRow(t.nextTransactionID, sender, Some(receiver), TxType.Send, amount),
                              TxRow(t.nextTransactionID + 1, receiver, None, TxType.Receive, amount)]
    ensures |Transferred(t, sender, receiver, amount).accounts| == |t.accounts|
    ensures forall i | 0 <= i < |t.accounts| ::
      Transferred(t, sender, receiver, amount).accounts[i]
        == t.accounts[i].(balance := t.accounts[i].balance
                                     - (if t.accounts[i].accountID == sender then amount else 0)
                                     + (if t.accounts[i].accountID == receiver then amount else 0))
    ensures SumBalances(Transferred(t, sender, receiver, amount).accounts) == SumBalances(t.accounts)
  {
    TransferKeys(t, sender, receiver, amount);
    TransferBalances(t, sender, receiver, amount);
    TransferSum(t, sender, receiver, amount);
  }

  lemma TransferKeys(t: Tables, sender: int, receiver: int, amount: Cents)
    requires t.Valid()
    ensures Transferred(t, sender, receiver, amount).Valid()
    ensures Transferred(t, sender, receiver, amount).users == t.users
    ensures Transferred(t, sender, receiver, amount).transactions
         == t.transactions + [TxRow(t.nextTransactionID, sender, Some(receiver), TxType.Send, amount),
                              TxRow(t.nextTransactionID + 1, receiver, None, TxType.Receive, amount)]
  {
    var t2 := Posted(t, sender, Some(receiver), TxType.Send, -amount, amount);
    var t4 := Posted(t2, receiver, None, TxType.Receive, amount, amount);
    assert t2.Valid() && t2.users == t.users by {
      PostedLedger(t, sender, Some(receiver), TxType.Send, -amount, amount);
    }
    assert t4.Valid() && t4.users == t.users by {
      PostedLedger(t2, receiver, None, TxType.Receive, amount, amount);
    }
    var send := TxRow(t.nextTransactionID, sender, Some(receiver), TxType.Send, amount);
    var receive := TxRow(t.nextTransactionID + 1, receiver, None, TxType.Receive, amount);
    assert t4.transactions == (t.transactions + [send]) + [receive];
  }

  lemma TransferBalances(t: Tables, sender: int, receiver: int, amount: Cents)
    ensures |Transferred(t, sender, receiver, amount).accounts| == |t.accounts|
    ensures forall i | 0 <= i < |t.accounts| ::
      Transferred(t, sender, receiver, amount).accounts[i]
        == t.accounts[i].(balance := t.accounts[i].balance
                                     - (if t.accounts[i].accountID == sender then amount else 0)
                                     + (if t.accounts[i].accountID == receiver then amount else 0))
  {
    var t2 := Posted(t, sender, Some(receiver), TxType.Send, -amount, amount);
    PostedAccounts(t, sender, Some(receiver), TxType.Send, -amount, amount);
    PostedAccounts(t2, receiver, None, TxType.Receive, amount, amount);
    TransferRowsAt(t.accounts, sender, receiver, amount);
  }

  /** The total after a transfer to an existing account: credited by the
      amount, and debited by it only when the sender exists. */
  lemma TransferSum(t: Tables, sender: int, receiver: int, amount: Cents)
    requires AccountKeys(t.accounts, t.nextAccountID) && AccountExists(t.accounts, receiver)
    ensures SumBalances(Transferred(t, sender, receiver, amount).accounts)
         == SumBalances(t.accounts) - (if AccountExists(t.accounts, sender) then amount else 0) + amount
  {
    var t2 := Posted(t, sender, Some(receiver), TxType.Send, -amount, amount);
    PostedAccounts(t, sender, Some(receiver), TxType.Send, -amount, amount);
    PostedAccounts(t2, receiver, None, TxType.Receive, amount, amount);
    CreditPairSum(t.accounts, sender, receiver, amount, t.nextAccountID);
  }

  /** The two balance updates of a transfer, row by row. */
  lemma TransferRowsAt(rows: seq<AccountRow>, sender: int, receiver: int, amount: Cents)
    ensures |CreditRows(CreditRows(rows, sender, -amount), receiver, amount)| == |rows|
    ensures forall i | 0 <= i < |rows| ::
      CreditRows(CreditRows(rows, sender, -amount), receiver, amount)[i]
        == rows[i].(balance := rows[i].balance
                               - (if rows[i].accountID == sender then amount else 0)
                               + (if rows[i].accountID == receiver then amount else 0))
  {
    CreditRowsAt(rows, sender, -amount);
    CreditRowsAt(CreditRows(rows, sender, -amount), receiver, amount);
  }

  /**
   * A sender with no row is debited nowhere, yet the receiver is still
   * credited: the total money grows by the amount.
   */
  lemma TransferFromMissingSender(t: Tables, sender: int, receiver: int, amount: Cents)
    requires t.Valid() && !AccountExists(t.accounts, sender) && AccountExists(t.accounts, receiver)
    ensures SumBalances(Transferred(t, sender, receiver, amount).accounts) == SumBalances(t.accounts) + amount
  {
    TransferSum(t, sender, receiver, amount);
  }

  /**
   * Closing an account removes exactly the transactions it sent and the
   * rows of that owner and type; when the first such row carries the
   * closed accountID, no row carries it afterwards.
   */
  lemma CloseAccountLedger(t: Tables, id: int, username: string, accountType: string)
    requires t.Valid()
    ensures Closed(t, id, username, accountType).Valid()
    ensures Closed(t, id, username, accountType).users == t.users
    ensures forall x :: (x in Closed(t, id, username, accountType).transactions
                         <==> x in t.transactions && x.senderAccountID != id)
    ensures forall x :: (x in Closed(t, id, username, accountType).accounts
                         <==> x in t.accounts && !(x.username == username && x.accountType == accountType))
    ensures FirstAccount(t.accounts, ByOwnerType(username, accountType)).Some?
            && t.accounts[FirstAccount(t.accounts, ByOwnerType(username, accountType)).value].accountID == id
            ==> !AccountExists(Closed(t, id, username, accountType).accounts, id)
  {
    var t1 := t.(transactions := DeleteSentRows(t.transactions, {id}));
    assert Closed(t, id, username, accountType).Valid() by {
      DeleteSentKeeps(t, {id});
      DeleteAccountsKeeps(t1, ByOwnerType(username, accountType));
    }
    ClosedIDGone(t.accounts, t.nextAccountID, id, username, accountType);
  }

  /** Under the keys, deleting the rows of an owner and type removes the
      accountID of the first of them from the table. */
  lemma ClosedIDGone(rows: seq<AccountRow>, next: int, id: int, username: string, accountType: string)
    requires AccountKeys(rows, next)
    ensures FirstAccount(rows, ByOwnerType(username, accountType)).Some?
            && rows[FirstAccount(rows, ByOwnerType(username, accountType)).value].accountID == id
            ==> !AccountExists(DeleteAccountRows(rows, ByOwnerType(username, accountType)), id)
  {
    var r := DeleteAccountRows(rows, ByOwnerType(username, accountType));
    var first := FirstAccount(rows, ByOwnerType(username, accountType));
    if first.Some? && rows[first.value].accountID == id {
      AccountKeysAt(rows, next);
      forall k | 0 <= k < |r| ensures r[k].accountID != id {
        assert r[k] in r;
        var j :| 0 <= j < |rows| && rows[j] == r[k];
      }
    }
  }

  // ------------------------------------------------------ money of a list

  /** No two accounts of the username share a type. */
  predicate OneAccountPerType(rows: seq<AccountRow>, username: string) {
    var owned := SelectAccounts(rows, ByOwner(username));
    forall i, j | 0 <= i < j < |owned| :: owned[i].accountType != owned[j].accountType
  }

  /** With one account per type, the owner-and-type lookup of an owned row reads that row's balance. */
  lemma StoredBalanceOwned(rows: seq<AccountRow>, username: string, i: nat)
    requires OneAccountPerType(rows, username) && i < |SelectAccounts(rows, ByOwner(username))|
    ensures StoredBalance(rows, username, SelectAccounts(rows, ByOwner(username))[i].accountType)
         == SelectAccounts(rows, ByOwner(username))[i].balance
  {
    var owned := SelectAccounts(rows, ByOwner(username));
    var f := ByOwnerType(username, owned[i].accountType);
    assert owned[i] in owned;
    var p :| 0 <= p < |rows| && rows[p] == owned[i];
    assert Selects(f, rows[p]);
    var first := FirstAccount(rows, f).value;
    assert rows[first] in owned;
    var q :| 0 <= q < |owned| && owned[q] == rows[first];
    assert q == i;
  }

  lemma {:induction false} StoredTotalPointwise(rows: seq<AccountRow>, accs: seq<Account>, owned: seq<AccountRow>)
    requires |accs| == |owned|
    requires forall i | 0 <= i < |accs| ::
      StoredBalance(rows, accs[i].username, accs[i].accountType) == owned[i].balance
    ensures StoredTotal(rows, accs) == SumBalances(owned)
  {
    if accs != [] {
      StoredTotalPointwise(rows, accs[..|accs| - 1], owned[..|owned| - 1]);
    }
  }

  /**
   * For a freshly listed customer whose accounts have distinct types, the
   * money GetMoney adds up is the total balance of the customer's rows.
   */
  lemma ListedMoney(rows: seq<AccountRow>, accs: seq<Account>, username: string)
    requires OneAccountPerType(rows, username)
    requires |accs| == |SelectAccounts(rows, ByOwner(username))|
    requires forall i | 0 <= i < |accs| ::
      accs[i].username == username
      && accs[i].accountType == SelectAccounts(rows, ByOwner(username))[i].accountType
    ensures StoredTotal(rows, accs) == SumBalances(SelectAccounts(rows, ByOwner(username)))
  {
    var owned := SelectAccounts(rows, ByOwner(username));
    forall i | 0 <= i < |accs|
      ensures StoredBalance(rows, accs[i].username, accs[i].accountType) == owned[i].balance
    {
      StoredBalanceOwned(rows, username, i);
    }
    StoredTotalPointwise(rows, accs, owned);
  }
}
