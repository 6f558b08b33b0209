# Digital banking: ledger and transfer saga

A Dafny model of the core of a small digital-banking back end built from two
services:

- The **accounts API** keeps the accounts table. Each row has an owner, a
  balance, a currency and a status. The API opens accounts, deposits,
  withdraws, changes an account's status, and answers owner-scoped lookups.
- The **transactions API** keeps the transactions table. It runs transfers
  and payments against the accounts API: a transfer is a two-step saga
  (withdraw from the source, deposit to the destination, and one
  compensating deposit back to the source when the deposit fails), and a
  payment is a single withdrawal. A `completed` row is committed only when
  every leg went through. Three queries list and look up the caller's rows.

Both services check the request body with declarative validators and run an
authentication middleware before any route.

Money is held in integer cents, matching the DECIMAL(15, 2) columns. A JSON
body field is a `Json.Value`, and a number is kept in hundredths. Each call
from the transactions API to the accounts API goes through a `Saga.Delivery`
that says how it went:

- `Delivered`: handled, and the answer came back;
- `Unreachable`: it never reached the accounts API;
- `ReplyLost`: handled, but the answer was lost;
- `Refused`: a non-2xx answer given before the ledger ran.

This makes every failure of the network calls a parameter of the model. The
SERIAL counters, the clock and the generated correlation id and account
number are parameters too, or counters of the service objects.

Layout, one module per file:

| module | file | what it holds |
|---|---|---|
| `Wrappers` | wrappers.dfy | `Option` |
| `Json` | json.dfy | body values and express-validator's string conversions (`isInt`, `trim`, `notEmpty`, ...) |
| `Http` | http.dfy | replies, query parameters, the authenticate middleware, axios's status message |
| `Sequences` | sequences.dfy | reversal and LIMIT/OFFSET pages |
| `AccountRoutes` | account_routes.dfy | the account-route validators |
| `Accounts` | accounts.dfy | the ledger as step functions on the table, their properties, the router, and the `Ledger` class that updates its rows in place |
| `TransactionRoutes` | transaction_routes.dfy | the transaction-route validators and the same-account guard |
| `TransactionLog` | transaction_log.dfy | the transactions table, its invariant and the three queries |
| `Saga` | saga.dfy | the transfer and payment handlers as functions of both tables and the deliveries, and the saga's properties |
| `Transactions` | transactions.dfy | the router and the `TransactionService` class, which drives a `Ledger` and appends to its table, proved to agree with `Saga` |

Source paths below are relative to the repository root.

## Model

| member | source | states |
|---|---|---|
| Json.NumberIsInt | transactions-api/src/routes/transaction.routes.js:10-11 | isInt() accepts a JSON number exactly when it is whole, and then the id is that number |
| Json.TrimCutsOnlySpace | transactions-api/src/routes/transaction.routes.js:13 | trim() removes only white space, from both ends, and what it keeps starts and ends with a non-space character |
| Json.TrimIdempotent | transactions-api/src/routes/transaction.routes.js:20 | trimming a trimmed description changes nothing |
| Http.Authenticate | transactions-api/src/middleware/auth.middleware.js:5-26 | the caller is authenticated exactly when the header starts with "Bearer " and the auth service verifies it, and then the user id is the verified one; a missing or non-Bearer header is refused with 401 "Authentication required"; every refusal is 401 or 500 |
| Http.OrElse | transactions-api/src/controllers/transaction.controller.js:74 | JavaScript's logical or of a message and a fallback string: the message when it is non-empty, the fallback when it is empty |
| AccountRoutes.CreateAccountErrors | accounts-api/src/routes/account.routes.js:9-12 | a body passes exactly when account_type is checking, savings or investment and currency is absent or three characters long; each field is named exactly when its own rule fails |
| AccountRoutes.AmountErrors | accounts-api/src/routes/account.routes.js:14-16 | an amount passes exactly when it is a number of at least 0.01; otherwise only "amount" is named |
| AccountRoutes.AccountTypeIsText | accounts-api/src/routes/account.routes.js:10 | only a JSON string can pass the account-type rule |
| Accounts.ParseStatus | accounts-api/src/controllers/account.controller.js:168-170 | a status is accepted exactly when it is the string active, suspended or closed, and is then that status |
| Accounts.StatusRoundTrip | accounts-api/src/controllers/account.controller.js:168 | every status is accepted under its own name and under no other value |
| Accounts.DepositStep | accounts-api/src/controllers/account.controller.js:71-99 | a failed deposit leaves the table unchanged; a successful one answers 200 for a numeric amount and replaces only the row with that id; an invalid amount answers 400 with its field errors, and field errors come from nothing else; an id outside INTEGER answers 500 "Deposit failed"; an unknown id answers 404 "Account not found or inactive" |
| Accounts.WithdrawStep | accounts-api/src/controllers/account.controller.js:101-139 | a failed withdrawal leaves the table unchanged; a successful one answers 200 and replaces only the row with that id; an invalid amount answers 400 with its field errors, and field errors come from nothing else; an id outside INTEGER answers 500 "Withdrawal failed"; an unknown id answers 404 "Account not found or inactive" |
| Accounts.StatusStep | accounts-api/src/controllers/account.controller.js:162-189 | a status outside the three names answers 400 "Invalid status" with no field errors; for a valid status, an id outside INTEGER answers 500 "Failed to update status" and an unknown id 404 "Account not found"; success sets the parsed status on the row with that id and replaces only that row; failure changes nothing |
| Accounts.CreateStep | accounts-api/src/controllers/account.controller.js:9-33 | an invalid body answers 400 with its field errors; a valid body that still fails answers 500 "Failed to create account"; a failure leaves the table unchanged; success answers 201 and appends exactly the returned row |
| Accounts.DepositAt | accounts-api/src/controllers/account.controller.js:81-89 | a deposit into an existing account succeeds exactly when the amount is valid, the account is active (whoever owns it) and the sum fits DECIMAL(15, 2); an inactive account answers 404 "Account not found or inactive" |
| Accounts.DepositCredits | accounts-api/src/controllers/account.controller.js:82-85 | a successful deposit raises that row's balance, and the total of all balances, by exactly the amount, changes nothing else and keeps the table invariant |
| Accounts.WithdrawAt | accounts-api/src/controllers/account.controller.js:113-124 | a withdrawal succeeds exactly when the amount is valid, the account is the caller's and active and the balance covers the amount; another user's or an inactive account answers 404; a short balance answers 400 "Insufficient funds" |
| Accounts.WithdrawDebits | accounts-api/src/controllers/account.controller.js:122-129 | a successful withdrawal lowers that row's balance and the total by exactly the amount, changes nothing else, and keeps every balance non-negative |
| Accounts.StatusAt | accounts-api/src/controllers/account.controller.js:168-179 | a status change reaches an existing account exactly when the status is valid and the account is the caller's; otherwise, with a valid status, it answers 404 "Account not found" |
| Accounts.StatusSets | accounts-api/src/controllers/account.controller.js:172-175 | a successful status change sets that one field of that one row and leaves every balance, and the invariant, as they were |
| Accounts.WithdrawSucceeded | accounts-api/src/controllers/account.controller.js:113-129 | a withdrawal that went through came from the caller's active account, which covered the amount and lost exactly it |
| Accounts.DepositSucceeded | accounts-api/src/controllers/account.controller.js:82-89 | a deposit that went through reached an active account, which gained exactly the amount |
| Accounts.RefundUndoesWithdraw | transactions-api/src/controllers/transaction.controller.js:46-52 | depositing back what was just withdrawn from an account always goes through and restores the table exactly |
| Accounts.CreateOpensAccount | accounts-api/src/controllers/account.controller.js:16-23 | opening succeeds exactly when the body is valid, the SERIAL is not exhausted and the number is unused; the new account belongs to the caller, has the requested account_type, the given currency ("USD" when none is given, three characters either way), the generated number, the clock reading as creation time, balance 0.00 and status active; the total is unchanged and the table stays well formed |
| Accounts.Owned | accounts-api/src/controllers/account.controller.js:38-41 | the rows selected are exactly the caller's |
| Accounts.OwnAccounts | accounts-api/src/controllers/account.controller.js:35-48 | GET / lists exactly the caller's accounts |
| Accounts.OwnAccountsNewestFirst | accounts-api/src/controllers/account.controller.js:39 | the listing comes ordered by creation time, newest first |
| Accounts.GetAccountById | accounts-api/src/controllers/account.controller.js:50-69 | an account is returned only when it is the caller's and has the requested id; an id outside INTEGER answers 500 "Failed to retrieve account"; a missing id answers 404 "Account not found", and so does every other failure of an in-range id |
| Accounts.GetBalance | accounts-api/src/controllers/account.controller.js:141-160 | the balance is returned exactly when the account lookup succeeds, and it is that account's balance and currency; an id outside INTEGER answers 500 "Failed to retrieve balance", and any other failure is 404 "Account not found" |
| Accounts.LookupsAreOwnerScoped | accounts-api/src/controllers/account.controller.js:55-62 | the lookups succeed for an existing account exactly when the caller owns it; another user's account answers 404 "Account not found", the same answer `GetAccountById` gives for a missing one |
| Accounts.Serve | accounts-api/src/routes/account.routes.js:19-28 | a refused caller gets the middleware's answer and the table is untouched; reads never change the table; deposit and withdraw run the same amount validator; the status route has no body validator |
| Accounts.Ledger.CreateAccount | accounts-api/src/controllers/account.controller.js:9-33 | the in-place INSERT agrees with `CreateStep`, keeps the ledger invariant, and moves the counters only when a row is inserted |
| Accounts.Ledger.Deposit | accounts-api/src/controllers/account.controller.js:71-99 | the in-place UPDATE agrees with `DepositStep` and keeps the ledger invariant and the counters |
| Accounts.Ledger.Withdraw | accounts-api/src/controllers/account.controller.js:101-139 | the check-then-UPDATE agrees with `WithdrawStep` and keeps the ledger invariant (no negative balance) and the counters |
| Accounts.Ledger.UpdateStatus | accounts-api/src/controllers/account.controller.js:162-189 | the in-place UPDATE agrees with `StatusStep` and keeps the ledger invariant and the counters |
| Accounts.Ledger.Handle | accounts-api/src/routes/account.routes.js:19-28 | one request agrees with `Serve` and keeps the invariant; table and counters stay alone for reads and refused callers; the counters move by one exactly on a successful POST /, and stay as they were after every other request |
| TransactionRoutes.TransferErrors | transactions-api/src/routes/transaction.routes.js:9-14 | a transfer body passes exactly when both account ids pass isInt and the amount is a number of at least 0.01; each field is named exactly when its rule fails |
| TransactionRoutes.PaymentErrors | transactions-api/src/routes/transaction.routes.js:16-21 | a payment body passes exactly when account_id passes isInt, the amount is at least 0.01 and the recipient is not empty; each field is named exactly when its rule fails |
| TransactionRoutes.Description | transactions-api/src/routes/transaction.routes.js:13 | the description stays undefined exactly when it is absent; otherwise it is the string sent with its outer white space trimmed, never longer than what was sent |
| TransactionRoutes.DescriptionIsTrimmed | transactions-api/src/routes/transaction.routes.js:20 | a sanitized description is already trimmed |
| TransactionRoutes.SameAccountAsWrittenIsWeaker | transactions-api/src/controllers/transaction.controller.js:25-27 | every body the written `===` guard stops, the guard on account ids stops too |
| TransactionRoutes.SameAccountGuardBypass | transactions-api/src/controllers/transaction.controller.js:25 | a valid body naming account 5 once as a string and once as a number passes the written guard although both name the same account |
| Sequences.Page | transactions-api/src/controllers/transaction.controller.js:135 | LIMIT/OFFSET keeps at most `limit` elements, exactly the ones from position `offset` on |
| Sequences.PagesJoin | transactions-api/src/controllers/transaction.controller.js:132-137 | two consecutive pages are the page spanning both, so a listing resumes by offset without gaps or repeats |
| TransactionLog.Select | transactions-api/src/controllers/transaction.controller.js:173-179 | the rows selected are exactly the caller's, restricted to rows from or to the account when one is given |
| TransactionLog.Newest | transactions-api/src/controllers/transaction.controller.js:135 | ORDER BY created_at DESC reorders exactly the selected rows |
| TransactionLog.NewestIsNewestFirst | transactions-api/src/controllers/transaction.controller.js:135 | in a well-formed table the selection comes strictly newest first |
| TransactionLog.Window | transactions-api/src/controllers/transaction.controller.js:132 | a missing limit or offset takes its default, a given one is used when Postgres accepts it as a non-negative BIGINT, and anything else is an error |
| TransactionLog.Listing | transactions-api/src/controllers/transaction.controller.js:132-143 | a listing succeeds exactly when both window parameters are accepted, and is then one page of the newest-first selection holding only selected rows; otherwise it answers 500 "Failed to retrieve transactions" |
| TransactionLog.ListTransactions | transactions-api/src/controllers/transaction.controller.js:129-144 | GET / returns only the caller's rows, and without query parameters at most 50 of them |
| TransactionLog.ListAccountTransactions | transactions-api/src/controllers/transaction.controller.js:167-187 | GET /account/:accountId returns only the caller's rows from or to that account; an id outside INTEGER answers 500 |
| TransactionLog.ListingNewestFirst | transactions-api/src/controllers/transaction.controller.js:174-178 | every page of a listing comes newest first |
| TransactionLog.GetTransactionById | transactions-api/src/controllers/transaction.controller.js:146-165 | a row is returned only when it has that correlation id and is the caller's; 404 "Transaction not found" exactly when no such row exists |
| TransactionLog.GetTransactionByIdFindsTheRow | transactions-api/src/controllers/transaction.controller.js:151-158 | since correlation ids are unique, looking up a row's id finds that very row, and finds it exactly when the caller owns it |
| Saga.Settle | transactions-api/src/controllers/transaction.controller.js:37-39 | an axios promise resolves exactly on a 2xx answer; a rejection carries the body's `error` text ("" without one) and "Request failed with status code N" |
| Saga.Deliver | transactions-api/src/controllers/transaction.controller.js:33-39 | a call resolves exactly when it is delivered and the ledger accepts it; the table changes exactly as the ledger handler changes it when the call was handled (even if its answer was lost), and not at all otherwise; a delivered refusal reports what `Settle` gives, an unreachable ledger or a lost answer reports no ledger text and the network reason, and a refusal before the handler reports its own text and status message |
| Saga.RunTransfer | transactions-api/src/controllers/transaction.controller.js:33-54 | the saga ends debit-failed after the withdrawal alone, credited after withdraw-from and deposit-to, and otherwise after a third call depositing back to the source; every ending other than credited carries a non-empty error |
| Saga.CreditLegs | transactions-api/src/controllers/transaction.controller.js:41-53 | after a debit that went through, the saga either credits with the single deposit-to call or makes exactly one compensating deposit-back call and ends compensated or unreconciled with a non-empty error |
| Saga.Record | transactions-api/src/controllers/transaction.controller.js:57-70 | the INSERT commits the row and answers 201 with it exactly when the SERIAL is not exhausted and the correlation id is new; otherwise nothing is committed and 500 carries the database error |
| Saga.TransferStep | transactions-api/src/controllers/transaction.controller.js:30-74 | past validation a transfer commits a row exactly when it answers 2xx, and then answers 201 with that row |
| Saga.TransferSpec | transactions-api/src/controllers/transaction.controller.js:12-78 | a transfer commits a row exactly when it answers 2xx, and then answers 201 with that row |
| Saga.PaymentStep | transactions-api/src/controllers/transaction.controller.js:93-123 | past validation a payment commits a row exactly when it answers 2xx, and then answers 201 with that row |
| Saga.PaymentSpec | transactions-api/src/controllers/transaction.controller.js:80-127 | a payment commits a row exactly when it answers 2xx, and then answers 201 with that row |
| Saga.DebitFailureStopsSaga | transactions-api/src/controllers/transaction.controller.js:33-39 | a failed withdrawal stops the saga: no credit or compensation call is made, the error is the ledger's text or "Withdrawal failed", and the table is untouched unless only the answer was lost |
| Saga.CreditFailureRefundsSourceOnce | transactions-api/src/controllers/transaction.controller.js:42-54 | a failed deposit leads to exactly one compensating deposit of the same amount to the source; the error is the deposit's text or "Deposit failed" when the compensation went through, and the compensation's own axios message when it did not |
| Saga.RefundRestoresBalances | transactions-api/src/controllers/transaction.controller.js:46-54 | a compensation that is delivered after a credit that took no effect restores every balance to its value before the transfer |
| Saga.UnreconciledLeavesSourceDebited | transactions-api/src/controllers/transaction.controller.js:46-54 | when a credit that took no effect is followed by a compensation that does not reach the ledger, the saga ends unreconciled, the source stays debited, nothing is credited, the total drops by the amount, and the error comes from the compensation call |
| Saga.UnreconciledOnlyWhenRefundUndelivered | transactions-api/src/controllers/transaction.controller.js:48-52 | between two different accounts a delivered compensation always goes through, so the saga is only left unreconciled by an undelivered compensation |
| Saga.RefundAfterCredit | transactions-api/src/controllers/transaction.controller.js:42-52 | after a debit and a credit elsewhere, depositing the amount back to the source goes through and the total grows by the amount |
| Saga.WithdrawThenDepositMoves | transactions-api/src/controllers/transaction.controller.js:33-45 | a withdrawal from one account followed by a deposit to another moves exactly the amount between two distinct rows, keeps the total and keeps the table well formed |
| Saga.BothLegsMoveMoney | transactions-api/src/controllers/transaction.controller.js:33-54 | when both legs went through, exactly the amount moved from the caller's source row to a different destination row, nothing else changed, the total is conserved and the table stays well formed |
| Saga.DeliveredSagaConservesMoney | transactions-api/src/controllers/transaction.controller.js:33-54 | between two different accounts, with the debit and the credit delivered and the compensation taking effect (even if its answer is lost), the total of all balances is conserved, and a saga that did not complete leaves every balance as it was |
| Saga.LostDebitReplyLosesMoney | transactions-api/src/controllers/transaction.controller.js:33-39 | a withdrawal whose answer is lost is reported as "Withdrawal failed" while the amount has left the source for good |
| Saga.LostCreditReplyCreatesMoney | transactions-api/src/controllers/transaction.controller.js:42-54 | a deposit whose answer is lost is compensated all the same, so the total of all balances grows by the amount |
| Saga.LostCreditReplyHidesTransfer | transactions-api/src/controllers/transaction.controller.js:42-54 | a credit that took effect but lost its answer, followed by a compensation that does not reach the ledger, ends unreconciled (the phase in which `TransferIsSaga` gives a 500 and no row) although the amount moved from the source to the destination and the total is unchanged |
| Saga.TransferRejectedBeforeAnyCall | transactions-api/src/controllers/transaction.controller.js:15-27 | a transfer makes no call exactly when its body fails validation or names the same account twice, and then changes nothing, records nothing and answers 400 ("Cannot transfer to the same account" for the guard) |
| Saga.TransferIsSaga | transactions-api/src/controllers/transaction.controller.js:30-74 | past validation the two account ids differ, the table and calls are the saga's, the INSERT is reached exactly when both legs went through, and every other ending answers 500 with the saga's error |
| Saga.CompletedTransferMovesMoney | transactions-api/src/controllers/transaction.controller.js:57-74 | a transfer that reached the INSERT moved exactly the amount between two distinct rows and conserved the total, whether or not the INSERT then failed |
| Saga.AppendKeepsLogWellFormed | transactions-api/src/config/database.js:11-24 | appending a well-formed row with fresh keys, a fresh correlation id and a later time keeps the transactions table well formed |
| Saga.RecordedTransferStepRow | transactions-api/src/controllers/transaction.controller.js:57-63 | the row a transfer between two accounts records is a completed "transfer" of the moved amount for the caller, between exactly those accounts, and keeps the table well formed |
| Saga.RecordedTransferRow | transactions-api/src/controllers/transaction.controller.js:57-70 | the row a transfer records carries the body's two account ids, amount and trimmed description, the caller and type "transfer", is completed, and keeps the table well formed |
| Saga.PaymentCallsOnlyWithdraw | transactions-api/src/controllers/transaction.controller.js:83-103 | a payment makes no call exactly when its body fails validation, and otherwise exactly one call, a withdrawal of the amount from the paying account |
| Saga.PaymentIsDebit | transactions-api/src/controllers/transaction.controller.js:97-123 | past validation the table is the debit's; a failed debit answers 500 with the ledger's text or "Payment failed"; the INSERT fails exactly when the SERIAL is exhausted or the correlation id is taken |
| Saga.RecordedPaymentDebits | transactions-api/src/controllers/transaction.controller.js:97-112 | a recorded payment debited exactly the amount from one active account of the caller that covered it, and nothing else |
| Saga.RecordedPaymentStepRow | transactions-api/src/controllers/transaction.controller.js:106-112 | the row a payment records is a completed "payment" from that account, with no destination and the given description, and keeps the table well formed |
| Saga.RecordedPaymentRow | transactions-api/src/controllers/transaction.controller.js:106-112 | the row a payment records names the body's account, no destination, the amount and the payment description, and keeps the table well formed |
| Saga.PaymentDescriptionNamesRecipient | transactions-api/src/controllers/transaction.controller.js:111 | a payment description is "Payment to ", then the recipient as sent, then ": ", then the trimmed description, or nothing when none was sent |
| Transactions.Route | transactions-api/src/routes/transaction.routes.js:23-31 | authentication runs first: a refused caller gets 401 or 500, causes no ledger call and changes nothing; reads change nothing and make no call; the transactions table only ever grows by one row, answered with 201 |
| Transactions.TransactionService.Call | transactions-api/src/controllers/transaction.controller.js:33-39 | a call into the ledger under its delivery leaves the ledger as `Deliver` says and keeps its invariant |
| Transactions.TransactionService.Insert | transactions-api/src/controllers/transaction.controller.js:57-65 | committing a well-formed row with a fresh correlation id appends it and advances the counters, keeping the table invariant |
| Transactions.TransactionService.Store | transactions-api/src/controllers/transaction.controller.js:57-74 | the INSERT agrees with `Record` and keeps the service invariant, advancing the counters only when it commits |
| Transactions.TransactionService.Legs | transactions-api/src/controllers/transaction.controller.js:33-54 | the calls made in place agree with `RunTransfer` and keep the ledger invariant |
| Transactions.TransactionService.Credit | transactions-api/src/controllers/transaction.controller.js:41-53 | the deposit and compensation calls made in place agree with `CreditLegs` and keep the ledger invariant |
| Transactions.TransactionService.RecordTransfer | transactions-api/src/controllers/transaction.controller.js:30-74 | the transfer past validation agrees with `TransferStep` and keeps the service invariant, so every committed row is completed; the ledger's counters stay as they were, and its own move by one exactly when a row is committed |
| Transactions.TransactionService.Transfer | transactions-api/src/controllers/transaction.controller.js:12-78 | POST /transfer agrees with `TransferSpec` and keeps the service invariant; the ledger's counters stay as they were, and its own move by one exactly when a row is committed |
| Transactions.TransactionService.RecordPayment | transactions-api/src/controllers/transaction.controller.js:93-123 | the payment past validation agrees with `PaymentStep` and keeps the service invariant; the ledger's counters stay as they were, and its own move by one exactly when a row is committed |
| Transactions.TransactionService.Payment | transactions-api/src/controllers/transaction.controller.js:80-127 | POST /payment agrees with `PaymentSpec` and keeps the service invariant; the ledger's counters stay as they were, and its own move by one exactly when a row is committed |
| Transactions.TransactionService.Handle | transactions-api/src/routes/transaction.routes.js:23-31 | one request agrees with `Route` and keeps both tables well formed; the ledger's counters stay as they were; the service's serial and clock move by one exactly when the log grows, and stay as they were otherwise |

## Left out

- HTTP and Express plumbing is not modelled: JSON shaping of the responses, the success `message` texts, logging and the servers. A reply is a status with a payload or an error body.
- The `pg` pool and BEGIN/COMMIT/ROLLBACK are not modelled as such. Local atomicity is "the row is appended or not". The schema DDL appears only as the row fields, the column defaults and the UNIQUE constraints.
- A SERIAL value that a failed INSERT consumed is not modelled. The counters move only on a committed row.
- The axios calls are direct calls into the modelled ledger, each under a `Delivery`. The ledger calls run for the same caller as the transfer. A refusal by the accounts API's own middleware is one `Refused` delivery.
- The accounts API's authentication middleware is not part of this model. The accounts routes take the middleware's decision as an input.
- The auth API and the verify call's transport are left out. The verify call is a `VerifyReply` parameter.
- generateTransactionId and generateAccountNumber are parameters: any id may be passed, and a collision with an existing one is modelled as the INSERT failing.
- Timestamps are a counter that moves once per inserted row. Ties between created_at values are not modelled, so the ORDER BY is total. updated_at is not modelled.
- Json.IsFloatAtLeast: does not accept numeric strings such as "12.50", which isFloat() does accept. Only JSON numbers are amounts.
- Json.Value: a JSON number with more than two decimals is not represented, since a number is a count of hundredths. Exponent notation is not modelled either. That covers a string such as "1e3" and a JSON number of 1e21 or more, which JavaScript prints in exponent form; isInt() rejects both, while `Json.NumberIsInt` accepts every whole number. A JSON array or object as a body field has no `Value` case either, although express-validator would check each element of an array.
- parseFloat on the balance, and every other floating-point step, is exact integer arithmetic in cents.
- Database errors other than an overflowing balance, an id outside INTEGER, an exhausted SERIAL and a duplicate key (a lost connection, for example) are not modelled.
- Path parameters are integers. A path id that is not a number at all is not modelled, and ids outside INTEGER are answered with the handler's 500.
- VARCHAR length limits, the account-number format, NUL characters in strings and UTF-16 string lengths are not modelled. A string is a sequence of characters.
- The withdraw handler's check-then-update race, and any other interleaving of requests, is not modelled. The model is sequential.
- The frontend is not modelled.

## Findings

| source | as written | input that shows it | evidently intended | confidence | as-written member | corrected member |
|---|---|---|---|---|---|---|
| transactions-api/src/controllers/transaction.controller.js:25-27 | the same-account guard compares the raw body values with `===` | a transfer body with from_account_id "5" (a string), to_account_id 5 (a number) and amount 1.00: both ids pass isInt and name account 5, but `"5" === 5` is false, so the saga withdraws from and deposits to account 5 and records a transfer from 5 to 5 | compare the ids as the accounts they name (`TransactionRoutes.SameAccount`), so that past the guard the two ids always differ | not executed | TransactionRoutes.SameAccountGuardBypass | Saga.TransferIsSaga |
