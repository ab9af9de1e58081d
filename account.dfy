/**
 * One bank account as account.cpp keeps it: a view on the accounts row of
 * one owner and account type, which caches that row's key and balance and
 * re-reads the balance from the database before every decision.
 */
module Accounts {
  import opened Wrappers
  import opened Schema
  import opened Aggregates

  /** A loan is approved only when the balance is above $500.00. */
  const LoanThreshold: Cents := 50000

  /** The two statements of a withdrawal: a "withdraw" row sent by id, then the debit. */
  function Withdrawn(t: Tables, id: int, amount: Cents): Tables {
    Posted(t, id, None, Withdraw, -amount, amount)
  }

  /** The two statements of a deposit: a "deposit" row sent by id, then the credit. */
  function Deposited(t: Tables, id: int, amount: Cents): Tables {
    Posted(t, id, None, Deposit, amount, amount)
  }

  class Account {
    const db: Database
    const username: string
    const accountType: string
    const accountID: int
    var balance: Cents

    /** The key and balance are those of the first row of this owner and type. */
    ghost predicate Loaded(rows: seq<AccountRow>)
      reads this
    {
      match FirstAccount(rows, ByOwnerType(username, accountType))
      case Some(i) => accountID == rows[i].accountID && balance == rows[i].balance
      case None => false
    }

    /** Opens an account: inserts its row with the initial deposit as both
        initial balance and balance, then loads the row back. */
    constructor Create(db: Database, accountType: string, username: string, smoney: Cents)
      modifies db
      ensures this.db == db && this.username == username && this.accountType == accountType
      ensures db.tables == InsertAccount(old(db.tables), username, accountType, smoney, smoney)
      ensures Loaded(db.tables.accounts)
      ensures FirstAccount(old(db.tables.accounts), ByOwnerType(username, accountType)).None? ==>
                accountID == old(db.tables.nextAccountID) && balance == smoney
    {
      this.db := db;
      this.username := username;
      this.accountType := accountType;
      db.tables := InsertAccount(db.tables, username, accountType, smoney, smoney);
      var rows := db.tables.accounts;
      assert Selects(ByOwnerType(username, accountType), rows[|rows| - 1]);
      var i := FirstAccount(rows, ByOwnerType(username, accountType)).value;
      accountID := rows[i].accountID;
      balance := rows[i].balance;
    }

    /** Views an account that already has a row; nothing is written. */
    constructor Load(db: Database, accountType: string, username: string)
      requires FirstAccount(db.tables.accounts, ByOwnerType(username, accountType)).Some?
      ensures this.db == db && this.username == username && this.accountType == accountType
      ensures Loaded(db.tables.accounts)
    {
      this.db := db;
      this.username := username;
      this.accountType := accountType;
      var rows := db.tables.accounts;
      var i := FirstAccount(rows, ByOwnerType(username, accountType)).value;
      accountID := rows[i].accountID;
      balance := rows[i].balance;
    }

    /** Re-reads the balance of the first row of this owner and type (0 when there is none). */
    method RefreshBalance()
      modifies this`balance
      ensures balance == StoredBalance(db.tables.accounts, username, accountType)
    {
      balance := StoredBalance(db.tables.accounts, username, accountType);
    }

    /** The balance stored at the time of the call, never a stale copy. */
    method GetBalance() returns (b: Cents)
      modifies this`balance
      ensures b == balance == StoredBalance(db.tables.accounts, username, accountType)
    {
      RefreshBalance();
      b := balance;
    }

    /** Approves a loan when the stored balance is above the threshold; the
        requested amount plays no part and nothing is written. */
    method ApplyForLoan(amount: Cents) returns (approved: bool)
      modifies this`balance
      ensures approved == (StoredBalance(db.tables.accounts, username, accountType) > LoanThreshold)
      ensures balance == StoredBalance(db.tables.accounts, username, accountType)
    {
      RefreshBalance();
      approved := balance > LoanThreshold;
    }

    /** Withdraws when the freshly read balance covers the amount; otherwise
        writes nothing. */
    method Withdraw(amount: Cents) returns (ok: bool)
      modifies this`balance, db
      ensures ok == (StoredBalance(old(db.tables.accounts), username, accountType) >= amount)
      ensures db.tables == if ok then Withdrawn(old(db.tables), accountID, amount) else old(db.tables)
      ensures balance == StoredBalance(db.tables.accounts, username, accountType)
    {
      RefreshBalance();
      if balance >= amount {
        db.tables := InsertTransaction(db.tables, accountID, None, TxType.Withdraw, amount);
        db.tables := UpdateBalance(db.tables, accountID, -amount);
        RefreshBalance();
        ok := true;
      } else {
        ok := false;
      }
    }

    /** Deposits unconditionally. */
    method Deposit(amount: Cents) returns (ok: bool)
      modifies this`balance, db
      ensures ok
      ensures db.tables == Deposited(old(db.tables), accountID, amount)
      ensures balance == StoredBalance(db.tables.accounts, username, accountType)
    {
      db.tables := InsertTransaction(db.tables, accountID, None, TxType.Deposit, amount);
      db.tables := UpdateBalance(db.tables, accountID, amount);
      RefreshBalance();
      ok := true;
    }
  }

  /**
   * A withdrawal on an existing account appends exactly one "withdraw" row,
   * debits that account alone, takes the amount out of the bank's total and
   * keeps the keys.
   */
  lemma WithdrawLedger(t: Tables, id: int, amount: Cents)
    requires t.Valid() && AccountExists(t.accounts, id)
    ensures Withdrawn(t, id, amount).Valid()
    ensures Withdrawn(t, id, amount).users == t.users
    ensures Withdrawn(t, id, amount).transactions
         == t.transactions + [TxRow(t.nextTransactionID, id, None, Withdraw, amount)]
    ensures |Withdrawn(t, id, amount).accounts| == |t.accounts|
    ensures forall i | 0 <= i < |t.accounts| ::
      Withdrawn(t, id, amount).accounts[i]
        == if t.accounts[i].accountID == id then t.accounts[i].(balance := t.accounts[i].balance - amount)
           else t.accounts[i]
    ensures SumBalances(Withdrawn(t, id, amount).accounts) == SumBalances(t.accounts) - amount
  {
    assert && Withdrawn(t, id, amount).Valid() && Withdrawn(t, id, amount).users == t.users
           && Withdrawn(t, id, amount).transactions
              == t.transactions + [TxRow(t.nextTransactionID, id, None, Withdraw, amount)]
           && SumBalances(Withdrawn(t, id, amount).accounts) == SumBalances(t.accounts) - amount by {
      PostedLedger(t, id, None, Withdraw, -amount, amount);
    }
    WithdrawnRows(t, id, amount);
  }

  lemma WithdrawnRows(t: Tables, id: int, amount: Cents)
    ensures |Withdrawn(t, id, amount).accounts| == |t.accounts|
    ensures forall i | 0 <= i < |t.accounts| ::
      Withdrawn(t, id, amount).accounts[i]
        == if t.accounts[i].accountID == id then t.accounts[i].(balance := t.accounts[i].balance - amount)
           else t.accounts[i]
  {
    PostedAccounts(t, id, None, Withdraw, -amount, amount);
    CreditRowsAt(t.accounts, id, -amount);
  }

  /** A deposit appends exactly one "deposit" row and credits that account alone. */
  lemma DepositLedger(t: Tables, id: int, amount: Cents)
    requires t.Valid() && AccountExists(t.accounts, id)
    ensures Deposited(t, id, amount).Valid()
    ensures Deposited(t, id, amount).users == t.users
    ensures Deposited(t, id, amount).transactions
         == t.transactions + [TxRow(t.nextTransactionID, id, None, Deposit, amount)]
    ensures |Deposited(t, id, amount).accounts| == |t.accounts|
    ensures forall i | 0 <= i < |t.accounts| ::
      Deposited(t, id, amount).accounts[i]
        == if t.accounts[i].accountID == id then t.accounts[i].(balance := t.accounts[i].balance + amount)
           else t.accounts[i]
    ensures SumBalances(Deposited(t, id, amount).accounts) == SumBalances(t.accounts) + amount
  {
    assert && Deposited(t, id, amount).Valid() && Deposited(t, id, amount).users == t.users
           && Deposited(t, id, amount).transactions
              == t.transactions + [TxRow(t.nextTransactionID, id, None, Deposit, amount)]
           && SumBalances(Deposited(t, id, amount).accounts) == SumBalances(t.accounts) + amount by {
      PostedLedger(t, id, None, Deposit, amount, amount);
    }
    DepositedRows(t, id, amount);
  }

  lemma DepositedRows(t: Tables, id: int, amount: Cents)
    ensures |Deposited(t, id, amount).accounts| == |t.accounts|
    ensures forall i | 0 <= i < |t.accounts| ::
      Deposited(t, id, amount).accounts[i]
        == if t.accounts[i].accountID == id then t.accounts[i].(balance := t.accounts[i].balance + amount)
           else t.accounts[i]
  {
    PostedAccounts(t, id, None, Deposit, amount, amount);
    CreditRowsAt(t.accounts, id, amount);
  }

  /**
   * Read back through the account's own owner and type, a withdrawal lowers
   * the stored balance by the amount and a deposit raises it, so a
   * withdrawal of a non-negative amount the balance covered leaves it
   * non-negative.
   */
  lemma StoredBalanceAfter(t: Tables, username: string, accountType: string, id: int, amount: Cents)
    requires FirstAccount(t.accounts, ByOwnerType(username, accountType)).Some?
    requires t.accounts[FirstAccount(t.accounts, ByOwnerType(username, accountType)).value].accountID == id
    ensures StoredBalance(Withdrawn(t, id, amount).accounts, username, accountType)
         == StoredBalance(t.accounts, username, accountType) - amount
    ensures StoredBalance(Deposited(t, id, amount).accounts, username, accountType)
         == StoredBalance(t.accounts, username, accountType) + amount
    ensures 0 <= amount <= StoredBalance(t.accounts, username, accountType) ==>
              StoredBalance(Withdrawn(t, id, amount).accounts, username, accountType) >= 0
  {
    PostedAccounts(t, id, None, Withdraw, -amount, amount);
    PostedAccounts(t, id, None, Deposit, amount, amount);
    StoredBalanceCredit(t.accounts, username, accountType, id, -amount);
    StoredBalanceCredit(t.accounts, username, accountType, id, amount);
  }
}
