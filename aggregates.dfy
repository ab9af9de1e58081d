/**
 * The SUM aggregates the read side computes over the tables, and how the
 * write statements of the schema move them.
 */
module Aggregates {
  import opened Wrappers
  import opened Schema

  /** SUM(balance) over account rows. */
  function SumBalances(rows: seq<AccountRow>): Cents {
    if rows == [] then 0 else SumBalances(rows[..|rows| - 1]) + rows[|rows| - 1].balance
  }

  /** SUM(initialBalance) over account rows. */
  function SumInitial(rows: seq<AccountRow>): Cents {
    if rows == [] then 0 else SumInitial(rows[..|rows| - 1]) + rows[|rows| - 1].initialBalance
  }

  /** SUM(loanDebt) over users rows. */
  function TotalDebt(users: seq<UserRow>): Cents {
    if users == [] then 0 else TotalDebt(users[..|users| - 1]) + users[|users| - 1].loanDebt
  }

  /** What one transaction row adds to SUM(amount) restricted to senders in ids and types in kinds. */
  function Counted(x: TxRow, ids: set<int>, kinds: set<TxType>): Cents {
    if x.senderAccountID in ids && x.transactionType in kinds then x.amount else 0
  }

  /** SUM(amount) over the transactions sent by one of ids whose type is one of kinds. */
  function SumAmounts(txs: seq<TxRow>, ids: set<int>, kinds: set<TxType>): Cents {
    if txs == [] then 0 else SumAmounts(txs[..|txs| - 1], ids, kinds) + Counted(txs[|txs| - 1], ids, kinds)
  }

  lemma SumAmountsAppend(txs: seq<TxRow>, x: TxRow, ids: set<int>, kinds: set<TxType>)
    ensures SumAmounts(txs + [x], ids, kinds) == SumAmounts(txs, ids, kinds) + Counted(x, ids, kinds)
  {
    assert (txs + [x])[..|txs|] == txs;
  }

  lemma SumBalancesAppend(rows: seq<AccountRow>, x: AccountRow)
    ensures SumBalances(rows + [x]) == SumBalances(rows) + x.balance
  {
    assert (rows + [x])[..|rows|] == rows;
  }

  /** Under the keys, a balance update moves SUM(balance) by delta exactly when the account exists. */
  lemma {:induction false} CreditRowsSum(rows: seq<AccountRow>, id: int, delta: Cents, next: int)
    requires AccountKeys(rows, next)
    ensures SumBalances(CreditRows(rows, id, delta))
         == SumBalances(rows) + if AccountExists(rows, id) then delta else 0
  {
    if rows != [] {
      var init, last := rows[..|rows| - 1], rows[|rows| - 1];
      assert rows == init + [last];
      CreditRowsSum(init, id, delta, last.accountID);
      var x := if last.accountID == id then last.(balance := last.balance + delta) else last;
      CreditRowsAppend(init, last, id, delta);
      ExistsAppend(init, last, id);
      SumBalancesAppend(CreditRows(init, id, delta), x);
      SumBalancesAppend(init, last);
      if last.accountID == id {
        LastIDIsNew(rows, next);
      }
    }
  }

  /** Under the keys, a balance update moves the total money by delta exactly when the account exists. */
  lemma UpdateBalanceTotal(t: Tables, id: int, delta: Cents)
    requires t.Valid()
    ensures SumBalances(UpdateBalance(t, id, delta).accounts)
         == SumBalances(t.accounts) + if AccountExists(t.accounts, id) then delta else 0
  {
    CreditRowsSum(t.accounts, id, delta, t.nextAccountID);
  }

  /** Two row sequences that agree on every key, owner and type. */
  predicate SameKeys(a: seq<AccountRow>, b: seq<AccountRow>) {
    && |a| == |b|
    && forall i | 0 <= i < |a| ::
      a[i].accountID == b[i].accountID && a[i].username == b[i].username && a[i].accountType == b[i].accountType
  }

  lemma SameKeysFirst(a: seq<AccountRow>, b: seq<AccountRow>, f: AccountFilter)
    requires SameKeys(a, b)
    ensures FirstAccount(a, f) == FirstAccount(b, f)
  {
    assert forall i | 0 <= i < |a| :: Selects(f, a[i]) == Selects(f, b[i]);
    var x, y := FirstAccount(a, f), FirstAccount(b, f);
    if x.Some? && y.Some? {
      assert x.value == y.value;
    }
  }

  lemma SameKeysIDs(a: seq<AccountRow>, b: seq<AccountRow>, f: AccountFilter)
    requires SameKeys(a, b)
    ensures SelectedIDs(a, f) == SelectedIDs(b, f)
  {
    forall x | x in SelectedIDs(a, f) ensures x in SelectedIDs(b, f) {
      var i :| 0 <= i < |a| && Selects(f, a[i]) && a[i].accountID == x;
      assert Selects(f, b[i]) && b[i].accountID == x;
    }
    forall x | x in SelectedIDs(b, f) ensures x in SelectedIDs(a, f) {
      var i :| 0 <= i < |b| && Selects(f, b[i]) && b[i].accountID == x;
      assert Selects(f, a[i]) && a[i].accountID == x;
    }
  }

  lemma SameKeysExist(a: seq<AccountRow>, b: seq<AccountRow>, id: int)
    requires SameKeys(a, b)
    ensures AccountExists(a, id) == AccountExists(b, id)
  {
    if AccountExists(a, id) {
      var i :| 0 <= i < |a| && a[i].accountID == id;
      assert b[i].accountID == id;
    }
    if AccountExists(b, id) {
      var i :| 0 <= i < |b| && b[i].accountID == id;
      assert a[i].accountID == id;
    }
  }

  /** A balance update keeps every accountID. */
  lemma CreditKeepsExists(rows: seq<AccountRow>, id: int, delta: Cents, other: int)
    ensures AccountExists(CreditRows(rows, id, delta), other) == AccountExists(rows, other)
  {
    CreditRowsAt(rows, id, delta);
    SameKeysExist(CreditRows(rows, id, delta), rows, other);
  }

  /** A debit of one account followed by a credit of an existing one moves
      the total by the credit, less the debit when the debited account exists. */
  lemma CreditPairSum(rows: seq<AccountRow>, sender: int, receiver: int, amount: Cents, next: int)
    requires AccountKeys(rows, next) && AccountExists(rows, receiver)
    ensures SumBalances(CreditRows(CreditRows(rows, sender, -amount), receiver, amount))
         == SumBalances(rows) - (if AccountExists(rows, sender) then amount else 0) + amount
  {
    CreditRowsSum(rows, sender, -amount, next);
    CreditKeepsKeys(rows, sender, -amount, next, receiver);
    CreditExistingSum(CreditRows(rows, sender, -amount), receiver, amount, next);
  }

  lemma CreditKeepsKeys(rows: seq<AccountRow>, id: int, delta: Cents, next: int, other: int)
    requires AccountKeys(rows, next) && AccountExists(rows, other)
    ensures AccountKeys(CreditRows(rows, id, delta), next) && AccountExists(CreditRows(rows, id, delta), other)
  {
    CreditRowsKeyed(rows, id, delta, next);
    CreditKeepsExists(rows, id, delta, other);
  }

  lemma CreditExistingSum(rows: seq<AccountRow>, id: int, delta: Cents, next: int)
    requires AccountKeys(rows, next) && AccountExists(rows, id)
    ensures SumBalances(CreditRows(rows, id, delta)) == SumBalances(rows) + delta
  {
    CreditRowsSum(rows, id, delta, next);
  }

  /** A balance update changes no key, owner or type, so every WHERE clause selects the same rows. */
  lemma CreditKeepsSelection(rows: seq<AccountRow>, id: int, delta: Cents, f: AccountFilter)
    ensures FirstAccount(CreditRows(rows, id, delta), f) == FirstAccount(rows, f)
    ensures SelectedIDs(CreditRows(rows, id, delta), f) == SelectedIDs(rows, f)
    ensures forall other :: AccountExists(CreditRows(rows, id, delta), other) == AccountExists(rows, other)
  {
    var r := CreditRows(rows, id, delta);
    CreditRowsAt(rows, id, delta);
    assert SameKeys(r, rows);
    SameKeysFirst(r, rows, f);
    SameKeysIDs(r, rows, f);
    forall other ensures AccountExists(r, other) == AccountExists(rows, other) {
      SameKeysExist(r, rows, other);
    }
  }

  /** A posting: a transaction row sent by id, then a balance update of id. */
  function Posted(t: Tables, id: int, receiver: Option<int>, kind: TxType, delta: Cents, amount: Cents): Tables {
    UpdateBalance(InsertTransaction(t, id, receiver, kind, amount), id, delta)
  }

  lemma PostedAccounts(t: Tables, id: int, receiver: Option<int>, kind: TxType, delta: Cents, amount: Cents)
    ensures Posted(t, id, receiver, kind, delta, amount).accounts == CreditRows(t.accounts, id, delta)
  {
  }

  /** A posting keeps the keys, appends its row and moves the total money
      by delta exactly when the account exists. */
  lemma PostedLedger(t: Tables, id: int, receiver: Option<int>, kind: TxType, delta: Cents, amount: Cents)
    requires t.Valid()
    ensures Posted(t, id, receiver, kind, delta, amount).Valid()
    ensures Posted(t, id, receiver, kind, delta, amount).users == t.users
    ensures Posted(t, id, receiver, kind, delta, amount).accounts == CreditRows(t.accounts, id, delta)
    ensures Posted(t, id, receiver, kind, delta, amount).transactions
         == t.transactions + [TxRow(t.nextTransactionID, id, receiver, kind, amount)]
    ensures Posted(t, id, receiver, kind, delta, amount).nextTransactionID == t.nextTransactionID + 1
    ensures SumBalances(Posted(t, id, receiver, kind, delta, amount).accounts)
         == SumBalances(t.accounts) + if AccountExists(t.accounts, id) then delta else 0
  {
    var t1 := InsertTransaction(t, id, receiver, kind, amount);
    InsertTransactionKeeps(t, id, receiver, kind, amount);
    UpdateBalanceKeeps(t1, id, delta);
    UpdateBalanceTotal(t1, id, delta);
  }

  lemma TotalDebtAppend(users: seq<UserRow>, x: UserRow)
    ensures TotalDebt(users + [x]) == TotalDebt(users) + x.loanDebt
  {
    assert (users + [x])[..|users|] == users;
  }

  /** Under unique usernames, a loanDebt update moves SUM(loanDebt) by delta exactly when the user exists. */
  lemma {:induction false} AddLoanDebtTotal(users: seq<UserRow>, username: string, delta: Cents)
    requires UniqueUsernames(users)
    ensures TotalDebt(AddLoanDebt(users, username, delta))
         == TotalDebt(users) + if UserExists(users, username) then delta else 0
  {
    if users != [] {
      var init, last := users[..|users| - 1], users[|users| - 1];
      var prev := AddLoanDebt(init, username, delta);
      var x := if last.username == username then last.(loanDebt := last.loanDebt + delta) else last;
      assert AddLoanDebt(users, username, delta) == prev + [x];
      AddLoanDebtTotal(init, username, delta);
      TotalDebtAppend(prev, x);
      TotalDebtAppend(init, last);
      assert users == init + [last];
      UserExistsAppend(init, last, username);
    }
  }

  /** A balance update on the row an owner-and-type lookup finds moves the balance that lookup reads. */
  lemma StoredBalanceCredit(rows: seq<AccountRow>, username: string, accountType: string, id: int, delta: Cents)
    requires FirstAccount(rows, ByOwnerType(username, accountType)).Some?
    requires rows[FirstAccount(rows, ByOwnerType(username, accountType)).value].accountID == id
    ensures StoredBalance(CreditRows(rows, id, delta), username, accountType)
         == StoredBalance(rows, username, accountType) + delta
  {
    var f := ByOwnerType(username, accountType);
    var i := FirstAccount(rows, f).value;
    CreditKeepsSelection(rows, id, delta, f);
    CreditRowsAt(rows, id, delta);
    assert CreditRows(rows, id, delta)[i].balance == rows[i].balance + delta;
  }
}
