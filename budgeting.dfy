/**
 * The budgeting page of budgeting.cpp: for one customer, the total amount
 * of "withdraw" and "send" rows sent from the customer's accounts
 * (spending), the total of "deposit" and "receive" rows (gained), their
 * difference (profit) and the total initial balance of the accounts.
 */
module Budgets {
  import opened Wrappers
  import opened Schema
  import opened Aggregates
  import opened Accounts
  import opened Customers
  import opened Administration

  const SpendKinds: set<TxType> := {TxType.Withdraw, TxType.Send}
  const GainKinds: set<TxType> := {TxType.Deposit, TxType.Receive}

  /** The accountIDs of the user's rows. */
  function OwnedIDs(t: Tables, username: string): set<int> {
    SelectedIDs(t.accounts, ByOwner(username))
  }

  /** The spending query: its join through users finds nothing for an
      unknown user, and a SUM over no rows reads as 0. */
  function Spending(t: Tables, username: string): Cents {
    if UserExists(t.users, username) then SumAmounts(t.transactions, OwnedIDs(t, username), SpendKinds) else 0
  }

  /** The gained query, over "deposit" and "receive" rows. */
  function Gained(t: Tables, username: string): Cents {
    if UserExists(t.users, username) then SumAmounts(t.transactions, OwnedIDs(t, username), GainKinds) else 0
  }

  function Profit(t: Tables, username: string): Cents {
    Gained(t, username) - Spending(t, username)
  }

  /** The initial-balance query: SUM(initialBalance) over the user's rows. */
  function InitialBalanceOf(t: Tables, username: string): Cents {
    if UserExists(t.users, username) then SumInitial(SelectAccounts(t.accounts, ByOwner(username))) else 0
  }

  class Budgeting {
    const db: Database
    const username: string
    var spending: Cents
    var moneyGained: Cents
    var initialBalance: Cents

    constructor (db: Database, username: string)
      ensures this.db == db && this.username == username
      ensures spending == 0 && moneyGained == 0 && initialBalance == 0
    {
      this.db := db;
      this.username := username;
      spending, moneyGained, initialBalance := 0, 0, 0;
    }

    method GetSpending() returns (r: Cents)
      modifies this`spending
      ensures r == spending == Spending(db.tables, username)
    {
      spending := Spending(db.tables, username);
      r := spending;
    }

    method GetGained() returns (r: Cents)
      modifies this`moneyGained
      ensures r == moneyGained == Gained(db.tables, username)
    {
      moneyGained := Gained(db.tables, username);
      r := moneyGained;
    }

    /** Gained minus spending; both caches are refreshed on the way. */
    method GetProfit() returns (r: Cents)
      modifies this`spending, this`moneyGained
      ensures r == Profit(db.tables, username)
      ensures spending == Spending(db.tables, username) && moneyGained == Gained(db.tables, username)
    {
      var g := GetGained();
      var s := GetSpending();
      r := g - s;
    }

    method GetInitialBalance() returns (r: Cents)
      modifies this`initialBalance
      ensures r == initialBalance == InitialBalanceOf(db.tables, username)
    {
      initialBalance := InitialBalanceOf(db.tables, username);
      r := initialBalance;
    }
  }

  // -------------------------------------------------------------- lemmas

  lemma SumInitialAppend(rows: seq<AccountRow>, x: AccountRow)
    ensures SumInitial(rows + [x]) == SumInitial(rows) + x.initialBalance
  {
    assert (rows + [x])[..|rows|] == rows;
  }

  /** A balance update leaves the total initial balance of every selection unchanged. */
  lemma {:induction false} CreditKeepsInitial(rows: seq<AccountRow>, id: int, delta: Cents, f: AccountFilter)
    ensures SumInitial(SelectAccounts(CreditRows(rows, id, delta), f)) == SumInitial(SelectAccounts(rows, f))
  {
    if rows != [] {
      var init, last := rows[..|rows| - 1], rows[|rows| - 1];
      assert rows == init + [last];
      CreditKeepsInitial(init, id, delta, f);
      var prev := CreditRows(init, id, delta);
      var x := if last.accountID == id then last.(balance := last.balance + delta) else last;
      CreditRowsAppend(init, last, id, delta);
      SelectAppend(prev, x, f);
      SelectAppend(init, last, f);
      if Selects(f, last) {
        SumInitialAppend(SelectAccounts(prev, f), x);
        SumInitialAppend(SelectAccounts(init, f), last);
      }
    }
  }

  /**
   * Appending one transaction row, with the user and the user's accountIDs
   * as they were, adds its amount to the spending or the gained total
   * according to its type, when it was sent from one of the user's accounts.
   */
  lemma AppendBudget(t: Tables, p: Tables, username: string, row: TxRow)
    requires UserExists(p.users, username) == UserExists(t.users, username)
    requires OwnedIDs(p, username) == OwnedIDs(t, username)
    requires p.transactions == t.transactions + [row]
    ensures Spending(p, username)
         == Spending(t, username)
            + (if UserExists(t.users, username) && row.senderAccountID in OwnedIDs(t, username)
                  && row.transactionType in SpendKinds then row.amount else 0)
    ensures Gained(p, username)
         == Gained(t, username)
            + (if UserExists(t.users, username) && row.senderAccountID in OwnedIDs(t, username)
                  && row.transactionType in GainKinds then row.amount else 0)
  {
    SumAmountsAppend(t.transactions, row, OwnedIDs(t, username), SpendKinds);
    SumAmountsAppend(t.transactions, row, OwnedIDs(t, username), GainKinds);
  }

  /** One posting keeps the user, the user's accountIDs and the initial balances. */
  lemma PostedKeepsOwner(t: Tables, username: string, id: int, receiver: Option<int>, kind: TxType, delta: Cents, amount: Cents)
    ensures Posted(t, id, receiver, kind, delta, amount).users == t.users
    ensures OwnedIDs(Posted(t, id, receiver, kind, delta, amount), username) == OwnedIDs(t, username)
    ensures InitialBalanceOf(Posted(t, id, receiver, kind, delta, amount), username) == InitialBalanceOf(t, username)
    ensures Posted(t, id, receiver, kind, delta, amount).transactions
         == t.transactions + [TxRow(t.nextTransactionID, id, receiver, kind, amount)]
  {
    var p := Posted(t, id, receiver, kind, delta, amount);
    PostedAccounts(t, id, receiver, kind, delta, amount);
    assert OwnedIDs(p, username) == OwnedIDs(t, username) by {
      CreditKeepsSelection(t.accounts, id, delta, ByOwner(username));
    }
    assert InitialBalanceOf(p, username) == InitialBalanceOf(t, username) by {
      CreditKeepsInitial(t.accounts, id, delta, ByOwner(username));
    }
  }

  /** A withdrawal from one of the user's accounts is spending: profit falls by the amount. */
  lemma WithdrawBudget(t: Tables, username: string, id: int, amount: Cents)
    requires UserExists(t.users, username) && id in OwnedIDs(t, username)
    ensures Spending(Withdrawn(t, id, amount), username) == Spending(t, username) + amount
    ensures Gained(Withdrawn(t, id, amount), username) == Gained(t, username)
    ensures Profit(Withdrawn(t, id, amount), username) == Profit(t, username) - amount
    ensures InitialBalanceOf(Withdrawn(t, id, amount), username) == InitialBalanceOf(t, username)
  {
    var p := Posted(t, id, None, TxType.Withdraw, -amount, amount);
    assert Withdrawn(t, id, amount) == p;
    PostedKeepsOwner(t, username, id, None, TxType.Withdraw, -amount, amount);
    AppendBudget(t, p, username, TxRow(t.nextTransactionID, id, None, TxType.Withdraw, amount));
  }

  /** A deposit into one of the user's accounts is gained: profit rises by the amount. */
  lemma DepositBudget(t: Tables, username: string, id: int, amount: Cents)
    requires UserExists(t.users, username) && id in OwnedIDs(t, username)
    ensures Gained(Deposited(t, id, amount), username) == Gained(t, username) + amount
    ensures Spending(Deposited(t, id, amount), username) == Spending(t, username)
    ensures Profit(Deposited(t, id, amount), username) == Profit(t, username) + amount
    ensures InitialBalanceOf(Deposited(t, id, amount), username) == InitialBalanceOf(t, username)
  {
    var p := Posted(t, id, None, TxType.Deposit, amount, amount);
    assert Deposited(t, id, amount) == p;
    PostedKeepsOwner(t, username, id, None, TxType.Deposit, amount, amount);
    AppendBudget(t, p, username, TxRow(t.nextTransactionID, id, None, TxType.Deposit, amount));
  }

  /** The two postings of a transfer, each appending one row and keeping the owners. */
  lemma TransferPostings(t: Tables, username: string, sender: int, receiver: int, amount: Cents)
    ensures var t2 := Posted(t, sender, Some(receiver), TxType.Send, -amount, amount);
      && Transferred(t, sender, receiver, amount) == Posted(t2, receiver, None, TxType.Receive, amount, amount)
      && t2.users == t.users && OwnedIDs(t2, username) == OwnedIDs(t, username)
      && t2.transactions == t.transactions + [TxRow(t.nextTransactionID, sender, Some(receiver), TxType.Send, amount)]
  {
    PostedKeepsOwner(t, username, sender, Some(receiver), TxType.Send, -amount, amount);
  }

  /**
   * A transfer is spending for the owner of the sender and gained for the
   * owner of the receiver; between two accounts of one user it leaves that
   * user's profit unchanged.
   */
  lemma TransferBudget(t: Tables, username: string, sender: int, receiver: int, amount: Cents)
    requires UserExists(t.users, username)
    ensures Spending(Transferred(t, sender, receiver, amount), username)
         == Spending(t, username) + if sender in OwnedIDs(t, username) then amount else 0
    ensures Gained(Transferred(t, sender, receiver, amount), username)
         == Gained(t, username) + if receiver in OwnedIDs(t, username) then amount else 0
    ensures sender in OwnedIDs(t, username) && receiver in OwnedIDs(t, username) ==>
              Profit(Transferred(t, sender, receiver, amount), username) == Profit(t, username)
  {
    var t2 := Posted(t, sender, Some(receiver), TxType.Send, -amount, amount);
    TransferPostings(t, username, sender, receiver, amount);
    AppendBudget(t, t2, username, TxRow(t.nextTransactionID, sender, Some(receiver), TxType.Send, amount));
    var t4 := Posted(t2, receiver, None, TxType.Receive, amount, amount);
    PostedKeepsOwner(t2, username, receiver, None, TxType.Receive, amount, amount);
    AppendBudget(t2, t4, username, TxRow(t2.nextTransactionID, receiver, None, TxType.Receive, amount));
  }

  /** A loan writes no transaction row, so it is neither spending nor gained. */
  lemma LoanNotBudgeted(t: Tables, username: string, id: int, amount: Cents)
    ensures Spending(Loaned(t, id, amount), username) == Spending(t, username)
    ensures Gained(Loaned(t, id, amount), username) == Gained(t, username)
  {
    var t1 := UpdateBalance(t, id, amount);
    assert OwnedIDs(t1, username) == OwnedIDs(t, username) by {
      CreditKeepsSelection(t.accounts, id, amount, ByOwner(username));
    }
    match OwnerOf(t1.accounts, id)
    case Some(owner) =>
      AddLoanDebtKeepsUsers(t1.users, owner, amount, username);
    case None =>
  }
}
