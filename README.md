# Bank ledger

A Dafny model of the ledger behind Patrick-Rocha/Bank-Management-System. The system keeps three
SQLite tables:

- **users**: username (primary key), password, name, creditScore (default 300), loanDebt
  (default 0) and userType ("regular" or "admin").
- **accounts**: accountID (AUTOINCREMENT), the owner's username, accountType, initialBalance and
  balance. Deleting a user cascades to these rows when foreign keys are on.
- **transactions**: transactionID (AUTOINCREMENT), senderAccountID, an optional
  receiverAccountID, transactionType ("withdraw", "deposit", "send" or "receive") and amount.
  Deleting an account cascades to these rows when foreign keys are on.

Only the administrator's and the login's connections turn foreign keys on
(src/administrator.cpp:41, src/login.cpp:43). An administrator's user removal therefore cascades.
The customer's connection (src/customer.cpp:42) never does, so closing an account deletes only
what its two statements name.

Six components act on these tables:

- An **account** views one row of an owner and account type. It withdraws, deposits and judges
  loan applications, and re-reads its balance from the table before each decision.
- A **customer** holds a list of account views. It opens and closes accounts, totals its money
  and transfers between accountIDs.
- An **administrator** looks users up, with sentinel answers for unknown users. It creates,
  updates and removes users and gives loans.
- The **budgeting** page sums one customer's transactions by type.
- The **analytics** page totals balances and averages them, and the credit scores, over the
  regular users.
- The **login** screen creates and seeds the tables, checks credentials and reads the user type.

## How the model is built

- The database is one value of type `Schema.Tables`. It holds the three tables as sequences in
  rowid order and the two AUTOINCREMENT counters.
- The value lives in `Schema.Database`, a class every component shares and updates in place.
- Every SQL statement the core issues is a function from the tables before it to the tables
  after it, for example `InsertTransaction`, `UpdateBalance`, `DeleteSentRows` and `DeleteUser`.
- The components are classes whose methods apply those statements one at a time and refresh
  their cached fields, as the C++ objects do.
- `Tables.Valid()` states the table keys:
  - usernames are unique;
  - accountIDs and transactionIDs are at least 1, strictly increasing in rowid order, and below
    their counters.
- Every statement is proved to keep these keys.
- Money is a whole number of cents, because the money columns are `decimal(15,2)`.
- The average credit score is a `real`.
- The average balance is the total in cents divided by the number of regular users and rounded
  down to a cent. This matches `floor(average * 100) / 100`.

Modules: `Wrappers` (Option), `Schema` (tables, statements, keys), `Aggregates` (SUMs and
postings), `Accounts`, `Customers`, `Administration`, `Reports` (analytics), `Budgets` and
`Logins`.

## Model

| member | source | states |
|---|---|---|
| Schema.Database.constructor | src/login.cpp:47-74 | The freshly created tables are empty, both counters start at 1, and the keys hold. |
| Schema.UserExistsQuery | src/administrator.cpp:51-62 | The username-exists query answers true exactly when the lookup by username finds a row. Schema.UserExists is that query. |
| Schema.AccountExistsQuery | src/administrator.cpp:70-81 | The accountID-exists query answers true exactly when the lookup by ID finds a row, and exactly when COUNT(*) over the ID is positive. Schema.AccountExists is that query, read as intended (see the line on `accountExists` under Left out). |
| Schema.FindUser | src/administrator.cpp:92-95 | The lookup by username finds the first row with that username. It finds none exactly when no row has the username. |
| Schema.FindUserKeyed | src/login.cpp:48 | Under the username primary key, looking up a row's username finds that very row. |
| Schema.NewUser | src/login.cpp:51-52 | A row inserted without creditScore and loanDebt gets the column defaults 300 and 0. |
| Schema.SetCreditScore | src/administrator.cpp:167 | The credit-score UPDATE keeps the number of user rows. |
| Schema.SetCreditScoreAt | src/administrator.cpp:167 | The credit-score UPDATE sets the score on exactly the rows with that username and leaves every other row as it was. |
| Schema.AddLoanDebt | src/administrator.cpp:207 | The loan-debt UPDATE keeps the number of user rows. |
| Schema.AddLoanDebtAt | src/administrator.cpp:207 | The loan-debt UPDATE raises exactly the rows with that username by delta and leaves every other row as it was. |
| Schema.AddLoanDebtKeepsUsers | src/administrator.cpp:207 | The loan-debt UPDATE neither adds nor removes any username. |
| Schema.DeleteUserRows | src/administrator.cpp:179 | The user DELETE keeps exactly the rows with another username. |
| Schema.FirstAccount | src/account.cpp:248-255 | An accounts SELECT stepped once finds the first row its WHERE clause matches. It finds none exactly when no row matches. |
| Schema.SelectAccounts | src/analytics.cpp:97-103 | An accounts SELECT returns exactly the matching rows and never more rows than the table has. |
| Schema.DeleteAccountRows | src/customer.cpp:196 | An accounts DELETE keeps exactly the rows its WHERE clause does not match. |
| Schema.CreditRows | src/account.cpp:176 | The balance UPDATE keeps the number of account rows. |
| Schema.CreditRowsAt | src/account.cpp:176 | The balance UPDATE moves the balance of exactly the rows with that accountID by delta and leaves every other row as it was. |
| Schema.DeleteSentRows | src/customer.cpp:193 | The transactions DELETE keeps exactly the rows whose sender is not in the deleted set. |
| Schema.AccountKeysAt | src/login.cpp:58 | Under the AUTOINCREMENT key, every accountID lies in [1, counter) and the IDs increase in rowid order. |
| Schema.AccountKeysFrom | src/login.cpp:58 | Conversely, IDs in [1, counter) that increase in rowid order satisfy the key invariant. |
| Schema.TransactionKeysAt | src/login.cpp:68 | Under the AUTOINCREMENT key, every transactionID lies in [1, counter) and the IDs increase in rowid order. |
| Schema.UniqueUsernamesAt | src/login.cpp:48 | Under the username primary key, no two user rows share a username. |
| Schema.UniqueUsernamesFrom | src/login.cpp:48 | Conversely, rows that pairwise differ in username satisfy the uniqueness invariant. |
| Schema.LastIDIsNew | src/login.cpp:58 | Under the key, the newest account's ID appears on no earlier row. |
| Schema.CountByIDKeyed | src/customer.cpp:241-245 | Under the key, COUNT(*) over one accountID is 1 when the account exists and 0 when it does not. |
| Schema.DeleteUserRowsKeyed | src/administrator.cpp:179 | Deleting users keeps usernames unique. |
| Schema.DeleteAccountRowsKeyed | src/customer.cpp:196 | Deleting accounts keeps the accountID key. |
| Schema.DeleteSentRowsKeyed | src/customer.cpp:193 | Deleting transactions keeps the transactionID key. |
| Schema.CreditRowsKeyed | src/account.cpp:176 | A balance update keeps the accountID key. |
| Schema.SameNamesUnique | src/administrator.cpp:167 | Rewriting user columns other than username keeps usernames unique. |
| Schema.InsertUserKeeps | src/administrator.cpp:221-224 | INSERT OR IGNORE into users keeps the table keys. |
| Schema.InsertAccountKeeps | src/account.cpp:52 | Inserting an account keeps the table keys. |
| Schema.InsertTransactionKeeps | src/account.cpp:173 | Inserting a transaction keeps the table keys. |
| Schema.UpdateBalanceKeeps | src/account.cpp:176 | The balance UPDATE keeps the table keys. |
| Schema.SetCreditScoreKeeps | src/administrator.cpp:167 | The credit-score UPDATE keeps the table keys. |
| Schema.AddLoanDebtKeeps | src/administrator.cpp:207 | The loan-debt UPDATE keeps the table keys. |
| Schema.DeleteSentKeeps | src/customer.cpp:193 | Deleting the transactions an account sent keeps the table keys. |
| Schema.DeleteAccountsKeeps | src/customer.cpp:196 | Deleting the accounts of an owner and type keeps the table keys. |
| Schema.DeleteUserKeeps | src/administrator.cpp:177-184 | Deleting a user keeps the table keys. This holds with the cascades to the user's accounts and to the transactions those accounts sent. |
| Aggregates.CreditRowsSum | src/account.cpp:176 | Under the key, a balance update moves the bank's total balance by delta when the account exists and leaves it unchanged otherwise. |
| Aggregates.UpdateBalanceTotal | src/account.cpp:176 | The same statement on valid tables moves the total by delta exactly when the account exists. |
| Aggregates.CreditExistingSum | src/customer.cpp:264 | Crediting an existing account moves the total by exactly the credit. |
| Aggregates.CreditKeepsKeys | src/customer.cpp:258 | A balance update keeps the key and keeps every existing account. |
| Aggregates.CreditKeepsExists | src/account.cpp:176 | A balance update neither adds nor removes an accountID. |
| Aggregates.CreditPairSum | src/customer.cpp:258-265 | A debit followed by a credit of an existing account moves the total by the credit, less the debit when the debited account exists. |
| Aggregates.CreditKeepsSelection | src/account.cpp:248 | A balance update changes no key, owner or type, so every WHERE clause selects the same rows and IDs. |
| Aggregates.PostedAccounts | src/account.cpp:173-177 | Posting a transaction row and then updating the balance changes the accounts table only by that balance update. |
| Aggregates.PostedLedger | src/account.cpp:173-177 | A posting keeps the keys and the users, and appends exactly one row with the next transactionID. It moves the total by delta exactly when the account exists. |
| Aggregates.AddLoanDebtTotal | src/administrator.cpp:207 | Under unique usernames, the loan-debt UPDATE moves the bank's total debt by delta exactly when the user exists. |
| Aggregates.StoredBalanceCredit | src/account.cpp:176-180 | A balance update of the row an owner-and-type lookup finds moves the balance that lookup reads by delta. |
| Accounts.Account.Create | src/account.cpp:40-57 | Opening an account inserts one row whose initial balance and balance are both the deposit, then loads the first row of that owner and type. A new owner and type gets the next accountID and the deposit as balance. |
| Accounts.Account.Load | src/account.cpp:67-78 | Viewing an existing account writes nothing and loads the key and balance of the first row of that owner and type. |
| Accounts.Account.RefreshBalance | src/account.cpp:242-259 | The cached balance becomes the stored balance of the first row of that owner and type, or 0 when there is no such row. |
| Accounts.Account.GetBalance | src/account.cpp:94-99 | Returns the balance stored at the time of the call, never a stale copy. |
| Accounts.Account.ApplyForLoan | src/account.cpp:108-122 | Approves exactly when the freshly read balance is above 500.00. The requested amount plays no part and no table changes. |
| Accounts.Account.Withdraw | src/account.cpp:165-188 | Succeeds exactly when the freshly read balance covers the amount. On success it makes the two writes of a withdrawal. On failure no table changes. Either way the cache ends equal to the stored balance. |
| Accounts.Account.Deposit | src/account.cpp:198-210 | Always succeeds, makes the two writes of a deposit, and ends with the cache equal to the stored balance. |
| Accounts.WithdrawLedger | src/account.cpp:171-181 | A withdrawal on an existing account appends exactly one "withdraw" row and debits that account alone. The total falls by the amount, and the keys and users are kept. |
| Accounts.WithdrawnRows | src/account.cpp:176 | After a withdrawal, row by row, only the rows of that accountID are debited. |
| Accounts.DepositLedger | src/account.cpp:201-205 | A deposit appends exactly one "deposit" row and credits that account alone. The total rises by the amount, and the keys and users are kept. |
| Accounts.DepositedRows | src/account.cpp:204 | After a deposit, row by row, only the rows of that accountID are credited. |
| Accounts.StoredBalanceAfter | src/account.cpp:171-180 | Read back through the account's owner and type, a withdrawal lowers the balance by the amount and a deposit raises it. A covered withdrawal of a non-negative amount leaves the balance non-negative. |
| Customers.FirstOfType | src/customer.cpp:136-143 | The scan of the list stops at the first view of the type. None means no view has that type. |
| Customers.DropKeeps | src/customer.cpp:200 | Erasing one view keeps the views on one database, distinct and of distinct types. |
| Customers.JoinKeeps | src/customer.cpp:333-340 | Appending fresh views keeps the list's views on one database and distinct. |
| Customers.LoadAccounts | src/customer.cpp:45-66 | Yields one fresh view per accounts row of the username, in rowid order. Each view is loaded from the first row of its owner and type. |
| Customers.Customer.constructor | src/customer.cpp:38-72 | Loading a customer lists its accounts in rowid order and reads its profile from its users row. Nothing is written. |
| Customers.Customer.StoreValues | src/customer.cpp:282-303 | The password, name, credit score, loan debt and user type become those of the user's row. |
| Customers.Customer.Fill | src/customer.cpp:311-349 | Appends the username's views after the ones already listed, keeping those, and reloads the profile. The money total is left as it was. |
| Customers.Customer.GetMoney | src/customer.cpp:101-111 | Returns, and caches, the sum of the stored balances of the listed accounts, which is 0 for an empty list. Every view's cache is refreshed. |
| Customers.Customer.CheckAccountBalance | src/customer.cpp:132-145 | Returns the stored balance of the first listed account of the type, or 0 when none is listed. Only that view's cached balance is refreshed. |
| Customers.Customer.CreateAccount | src/customer.cpp:155-172 | Refuses a type already listed, with no change. Otherwise it inserts one row and appends one fresh view of that type, loaded from a row of the table. For a new owner and type that row is the one inserted: the view has its accountID and the deposit as balance. Both branches keep the types distinct. |
| Customers.Customer.DeleteAccount | src/customer.cpp:183-206 | Refuses, with no change, when no listed account has the type. Otherwise it deletes the transactions the first such account sent and every row of that owner and type, and drops its view, keeping the others in order. Nothing cascades: the customer's connection runs with foreign keys off. |
| Customers.Customer.Transaction | src/customer.cpp:218-275 | Succeeds exactly when no listed view of the sender reads a balance below the amount and the receiver's COUNT(*) is 1. It then makes the four writes of a transfer. On refusal no table changes. Views of other accounts keep their cached balances. |
| Customers.TransferLedger | src/customer.cpp:251-268 | Between existing accounts, a transfer appends a "send" and a "receive" row with consecutive IDs, debits the sender, credits the receiver and conserves the total. |
| Customers.TransferKeys | src/customer.cpp:255-265 | A transfer keeps the keys and the users, and appends exactly the "send" row and then the "receive" row. |
| Customers.TransferBalances | src/customer.cpp:258-265 | After a transfer, row by row, the sender's rows lose the amount and the receiver's rows gain it. |
| Customers.TransferSum | src/customer.cpp:258-265 | A transfer to an existing account raises the total by the amount, less the amount when the sender exists. |
| Customers.TransferRowsAt | src/customer.cpp:258-265 | The two balance updates of a transfer compose row by row as debit-then-credit. |
| Customers.TransferFromMissingSender | src/customer.cpp:225-238 | A sender with no row is debited nowhere, yet the receiver is credited: the total money grows by the amount. |
| Customers.CloseAccountLedger | src/customer.cpp:193-197 | Closing an account keeps the keys and users and removes exactly the transactions it sent and the rows of that owner and type. The closed accountID is then gone. |
| Customers.ClosedIDGone | src/customer.cpp:196 | Under the key, deleting the rows of an owner and type removes the accountID of the first of them. |
| Customers.StoredBalanceOwned | src/customer.cpp:63 | With one account per type, an owned row's owner-and-type lookup reads that row's balance. |
| Customers.StoredTotalPointwise | src/customer.cpp:106-109 | Views that read the balances of given rows add up to those rows' total. |
| Customers.ListedMoney | src/customer.cpp:101-111 | For a freshly listed customer with one account per type, the money is the total balance of the customer's rows. |
| Administration.NameOf | src/administrator.cpp:89-100 | The name lookup answers "" for an unknown user. |
| Administration.CreditScoreOf | src/administrator.cpp:108-119 | The credit-score lookup answers -1 for an unknown user. |
| Administration.LoanDebtOf | src/administrator.cpp:127-138 | The loan-debt lookup answers -1.00 for an unknown user. |
| Administration.UserTypeOf | src/administrator.cpp:146-157 | The user-type lookup answers "" for an unknown user. |
| Administration.LookupsReadRow | src/administrator.cpp:89-157 | Under unique usernames, each lookup of an existing user reads that user's own row. |
| Administration.OwnerOf | src/administrator.cpp:200-203 | The owner lookup of an accountID finds an owner exactly when the account exists. |
| Administration.Administrator.constructor | src/administrator.cpp:34-43 | The administrator works on the shared store. |
| Administration.Administrator.UpdateCreditScore | src/administrator.cpp:165-170 | Sets the score of an existing user. An unknown user changes nothing. |
| Administration.Administrator.RemoveUser | src/administrator.cpp:177-184 | Deletes an existing user with the cascades to their accounts and those accounts' transactions. An unknown user changes nothing. |
| Administration.Administrator.GiveLoan | src/administrator.cpp:192-210 | Credits an existing account and raises its owner's loan debt by the same amount. An unknown accountID changes nothing. |
| Administration.Administrator.CreateUser | src/administrator.cpp:219-226 | Appends a regular user with the defaults when the username is free. A taken username changes nothing. |
| Administration.CreditScoreReadBack | src/administrator.cpp:165-170 | After the update the user reads back the new score. Every other score, and every name, debt and type, reads as before. |
| Administration.CreateUserReadBack | src/administrator.cpp:219-226 | A created user reads back with the given name and password, type regular, score 300 and debt 0. Others read as before and the keys hold. |
| Administration.DeleteSelectSum | src/administrator.cpp:179 | Deleting the rows a filter selects removes exactly their balances from the total. |
| Administration.RemoveUserEffects | src/administrator.cpp:177-184 | After removal, no row of that username remains, its score reads -1, and its accounts and their sent transactions are gone. All else is kept, and the total falls by the user's balances. |
| Administration.LoanLedger | src/administrator.cpp:192-210 | A loan keeps the keys and logs no transaction. It raises the total money by the amount, and raises the owner's debt and the total debt by the same amount when the owner has a row. |
| Administration.LoanedShape | src/administrator.cpp:196-208 | On an existing account, a loan is the balance update followed by the loan-debt update of the account's owner. |
| Administration.LoanDebtReadBack | src/administrator.cpp:207 | After the loan-debt update, the user reads back the debt raised by delta. |
| Reports.Analytics.constructor | src/analytics.cpp:34-41 | The analytics page works on the shared store. |
| Reports.Analytics.GetBalance | src/analytics.cpp:83-108 | Answers -1.00 for an unknown user and 0.00 for a user without accounts. Otherwise the loop adds up exactly the user's balances. |
| Reports.Analytics.GetNumUsers | src/analytics.cpp:67-75 | Counts the regular users only, so the count is at most the number of rows. |
| Reports.Analytics.GetCreditScore | src/analytics.cpp:189-200 | Returns the stored score, or -1 for an unknown user. |
| Reports.Analytics.CalculateAverageBalance | src/analytics.cpp:114-128 | Caches the sum of the regular users' balances divided by their number. |
| Reports.Analytics.CalculateAverageCreditScore | src/analytics.cpp:134-146 | Caches the sum of the regular users' scores divided by their number. |
| Reports.Analytics.GetAverageBalance | src/analytics.cpp:153-156 | Returns the average balance rounded down to a whole cent, after caching the exact quotient of the regular users' balance sum by their number. |
| Reports.Analytics.GetAverageCreditScore | src/analytics.cpp:163-166 | Returns the average credit score, which it also caches. |
| Reports.Analytics.GetNumTransactions | src/analytics.cpp:173-181 | Returns, and caches, the number of transaction rows. |
| Reports.FloorOfQuotient | src/analytics.cpp:155 | Rounding the real average down is integer division of the cents. |
| Reports.RegularAppend | src/analytics.cpp:68 | A users row counts, and adds its score, exactly when its type is regular, so administrators are excluded. |
| Reports.RegularCountBound | src/analytics.cpp:67-75 | There are never more regular users than user rows. |
| Reports.CreditSumWithin | src/analytics.cpp:134-146 | When every regular score lies in [lo, hi], the score sum lies between lo and hi times the count. |
| Reports.AverageCreditWithin | src/analytics.cpp:134-146 | When every regular score lies in [lo, hi], so does the average. |
| Reports.FirstOpeningAverages | src/analytics.cpp:134-146 | On a freshly seeded store there are 3 regular users and their average credit score is the default 300. |
| Reports.OwnedBalanceCredit | src/analytics.cpp:97-105 | Under the key, a balance update moves the balance of the account's owner by delta and no other user's. |
| Reports.MoneyAgreesWithAnalytics | src/analytics.cpp:97-105 | The money a freshly listed customer adds up is the balance analytics reports, when the user has one account per type. |
| Budgets.Budgeting.constructor | src/budgeting.cpp:18-29 | A new page starts with spending, gained and initial balance all 0. |
| Budgets.Budgeting.GetSpending | src/budgeting.cpp:52-72 | Returns, and caches, the total of the "withdraw" and "send" rows sent from the user's accounts. |
| Budgets.Budgeting.GetGained | src/budgeting.cpp:79-100 | Returns, and caches, the total of the "deposit" and "receive" rows sent from the user's accounts. |
| Budgets.Budgeting.GetProfit | src/budgeting.cpp:107-110 | Returns gained minus spending and refreshes both caches. |
| Budgets.Budgeting.GetInitialBalance | src/budgeting.cpp:117-136 | Returns, and caches, the total initial balance of the user's accounts. |
| Budgets.CreditKeepsInitial | src/budgeting.cpp:120-122 | A balance update leaves the total initial balance of every selection unchanged. |
| Budgets.AppendBudget | src/budgeting.cpp:55-59 | A new transaction row counts toward the user's spending or gained total only when one of the user's accounts sent it and its type is in that group. |
| Budgets.PostedKeepsOwner | src/budgeting.cpp:55-59 | A posting keeps the users, the user's accountIDs and initial balances, and appends its one row. |
| Budgets.WithdrawBudget | src/budgeting.cpp:55-59 | A withdrawal from the user's account raises spending by the amount and leaves gained unchanged, so profit falls by it. |
| Budgets.DepositBudget | src/budgeting.cpp:82-86 | A deposit into the user's account raises gained by the amount and leaves spending unchanged, so profit rises by it. |
| Budgets.TransferPostings | src/budgeting.cpp:55-59 | A transfer is two postings, and the first keeps the users and the user's accountIDs. |
| Budgets.TransferBudget | src/budgeting.cpp:55-86 | A transfer is spending for the sender's owner and gained for the receiver's owner. Between two accounts of one user, profit is unchanged. |
| Budgets.LoanNotBudgeted | src/budgeting.cpp:55-86 | A loan writes no transaction row, so it changes neither spending nor gained. |
| Logins.Login.constructor | src/login.cpp:34-93 | Opening the login screen applies the seeding: four users insert-or-ignore, then three account rows. |
| Logins.Login.VerifyLogin | src/login.cpp:102-120 | The scan reports exactly whether some row has both the username and the password. Only the flag changes. |
| Logins.Login.CheckUserType | src/login.cpp:128-135 | Returns the stored user type of an existing user and writes nothing. |
| Logins.LoginMatchesKeyed | src/login.cpp:102-120 | Under unique usernames, a login matches exactly when the user exists and that user's row holds the password. |
| Logins.LoginOrderFree | src/login.cpp:102-120 | The scan's answer does not depend on the order of the rows. |
| Logins.InsertUsersLedger | src/login.cpp:78-84 | Inserting users keeps the keys, the accounts and the transactions. The old rows stay in front, and every inserted username exists afterwards. |
| Logins.InsertUsersKeys | src/login.cpp:78-84 | Inserting users keeps the keys, the accounts, the transactions and the account counter. |
| Logins.InsertUsersPrefix | src/login.cpp:78-84 | Inserting users keeps the old rows in front, and every inserted username exists afterwards. |
| Logins.InsertPresentUsers | src/login.cpp:78-84 | Inserting only usernames that already exist changes nothing. |
| Logins.SeededLedger | src/login.cpp:78-92 | Seeding keeps the keys and the transactions and makes the four seeded usernames exist. It appends exactly the three seeded accounts with the next three accountIDs. |
| Logins.ReopenedLedger | src/login.cpp:78-92 | Opening again duplicates no user, yet adds the three seeded accounts once more. |
| Logins.SeededUsersOnEmpty | src/login.cpp:78-83 | On a fresh store the users are exactly the four seeded rows, in order. |
| Logins.FirstOpening | src/login.cpp:80-81 | On a fresh store the administrator logs in with its seeded password but not another user's, and reads as an admin. user001 reads as regular. |

## Left out

- SQLite itself is not modelled: opening files, preparing and stepping statements, the printing
  callbacks and console output. Each statement is modelled by its meaning, not by its text.
- The components open two database files, newDatabase.db and bankDatabase.db. The model treats
  them as one shared store.
- The SQL is built by concatenating strings. Injection through quotes in usernames is not
  modelled.
- `accountExists` (src/administrator.cpp:71) lacks a closing parenthesis, so as written the query
  fails to prepare. The model gives it the meaning its comment states: the accountID has a row.
- `giveLoan` leaves the username unquoted (src/administrator.cpp:207). The model updates the
  owner's row, as the comment intends.
- The first assignment to `sql` in analytics' `getBalance` (src/analytics.cpp:87) is dead and is
  not modelled.
- The stray backtick in include/login.h:21 is not modelled.
- The `budget::budgeting()` default constructor (src/budgeting.cpp:35) does not compile as written.
  It is not modelled, since it only serves the GUI.
- `double` arithmetic and `to_string` rounding to six decimals are not modelled. Money is whole
  cents and the average credit score is a `real`.
- The transactionTime column is not modelled, because it is filled from the clock.
- Concurrency is not modelled. The source runs its statements without locks or SQL transactions,
  and the model is sequential.
- src/mainUI.cpp, src/user.cpp, the headers and the test drivers are not part of this model.
- The getters that only return a field (`getID`, `getUserName`, `getAccountType`,
  `getCreditScore`, `getLoanDebt`) are the classes' fields.
- The customer constructor never initialises `money`. The model sets it only in `GetMoney`.
- Accounts.Account.Load requires the owner-and-type row to exist. Without it, the source builds a
  string from a NULL column, which is undefined behaviour.
- Customers.Customer.constructor requires the user to have a row, for the same reason in
  `storeValues`. Customers.Customer.StoreValues and Customers.Customer.Fill carry the same
  requirement.
- Logins.Login.CheckUserType requires the user to have a row, for the same reason.
- Reports.Analytics.CalculateAverageBalance and the other three average methods require at least
  one regular user. The source divides by zero and returns NaN or infinity otherwise.
- Customers.Customer.CreateAccount: the new view's accountID and balance are those of the
  inserted row only when the table had no row of that owner and type before. The source reloads
  the first such row, which may be an older one.
- Customers.Customer.Fill: only the views it appends are tied to the table. The views already
  listed are kept as they were.
- The budgeting queries join users, accounts and transactions. The model sums over the set of
  the user's accountIDs instead, which counts each row once as the join does under the username
  and accountID keys.
