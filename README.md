# Ledger balances of a personal finance service, in Dafny

The service keeps users, their categories (budget envelopes) and their
transactions (debits and credits against a category). Each user row and each
category row carries a denormalised `balance`. Creating a transaction
adds its signed amount to both balances, and deleting it takes the amount
back. This project models the transaction handlers, the category handlers
and the bearer-token extraction of the authentication middleware. It proves
what they do to the three tables.

- `outcomes.dfy`: the handlers' error responses (`Unauthorized`, `NotFound`,
  `InsufficientBalance`, `InvalidType`) and the `Result` type.
- `ledger.dfy`: the rows, and `Total`, the signed sum of a user's or a
  category's transactions (CREDIT adds, DEBIT subtracts, any other type
  string counts 0). Two invariants: `WellFormed` (ids come from the counters;
  a transaction and its category have the same owner) and `Consistent`
  (every balance equals its `Total`). `Posted` and `Unposted` are the effect
  of an accepted create and an accepted delete. The lemmas prove that every
  operation preserves both invariants.
- `store.dfy`: the database as a class with three maps and three
  auto-increment counters. `AddUser` stands for the row that sign-up inserts.
- `transactions.dfy`: the delta table, the lookups, `UpdateBalances`, and
  the create / update / delete handlers as methods. Each method states its
  whole new state in terms of the old one. Also the non-negativity lemmas.
- `categories.dfy`: the category lookups and the create / update / delete
  handlers.
- `auth.dfy`: `ExtractToken` on the raw bytes of the Authorization header.
- `scenarios.dfy`: clients that use only the contracts. They cover the
  create-then-delete round trip and three concrete request sequences.

Each handler takes the caller's user id as a parameter. In the service it is
read from the request extensions (`src/utils/auth.rs:3-5`). The current time
is also a parameter (`now`).

The model follows the code as written, including where a cleaner design
would differ:
- Create and delete are not atomic.
- Create stores the row before it adjusts the balances. So a create with a
  type other than "DEBIT" or "CREDIT" leaves its row stored and the balances
  untouched, and returns `InvalidType`.
- A delete of such a row removes it and returns `InvalidType`.
- `UpdateBalances` writes the user's balance before it looks up the category.
  A missing category therefore leaves the user's balance already changed.
  Under the invariants this path cannot be reached, because both handlers
  check the category first.
- No handler checks the sign of `amount`. Balances stay non-negative only for
  non-negative amounts. `NegativeCreditOverdraws` shows a CREDIT of -1
  being accepted on zero balances and leaving both at -1.

## Model

| member | source | states |
|---|---|---|
| `Transactions.BalanceDelta` | src/controllers/transactions.rs:225-235 | A known type gives the pair (d, d): d is the signed amount on create and its negation on delete. Any other type is `InvalidType`. |
| `Transactions.DeltaReversal` | src/controllers/transactions.rs:225-229 | For DEBIT and CREDIT, the create delta plus the delete delta is 0, for both the user and the category. |
| `Transactions.FetchUserAndCategory` | src/controllers/transactions.rs:169-198 | Succeeds iff the user exists and the category exists and is the caller's, and then returns both rows. A missing user gives `Unauthorized("User not found")`. Otherwise the error is `NotFound("Category not found or unauthorized")`. |
| `Transactions.FindTransaction` | src/controllers/transactions.rs:200-215 | Returns the row iff it exists and belongs to the caller. Otherwise it gives the single not-found error. `show_transaction` returns exactly this. |
| `Transactions.GetAllTransactions` | src/controllers/transactions.rs:42-48 | Contains exactly the caller's rows, unchanged. |
| `Transactions.FindAgreesWithListing` | src/controllers/transactions.rs:200-215 | A lookup succeeds iff the id is in the caller's listing, and then returns the listed row. |
| `Transactions.TransactionLookupHidesOtherOwners` | src/controllers/transactions.rs:205-214 | A missing row id and a row id owned by someone else get identical answers. |
| `Transactions.CategoryLookupHidesOtherOwners` | src/controllers/transactions.rs:186-195 | A missing category id and a category id owned by someone else get identical answers. |
| `Transactions.IsCredit` | src/controllers/transactions.rs:262-264 | A type that passes this test is a known type; the test itself is the exact, case-sensitive comparison with "CREDIT". |
| `Transactions.CreateOverdraws` | src/controllers/transactions.rs:64-68 | The create guard holds exactly for a DEBIT that would take the caller's balance or the category's balance below 0. |
| `Transactions.DeleteOverdraws` | src/controllers/transactions.rs:143-149 | The delete guard holds exactly for a CREDIT whose removal would take its user's balance or its category's balance below 0. |
| `Transactions.DebitGuardKeepsBalances` | src/controllers/transactions.rs:64-68 | On any tables, a DEBIT passes the create guard iff both balances are non-negative after it is stored. |
| `Transactions.CreditGuardKeepsBalances` | src/controllers/transactions.rs:143-149 | On any tables, a CREDIT passes the delete guard iff both balances are non-negative after it is removed. |
| `Transactions.UpdateBalances` | src/controllers/transactions.rs:217-260 | Unknown type: `InvalidType`, nothing written. Missing user: not found, nothing written. Otherwise the user's balance gets the delta. Then a missing category is not found, leaving the user's write in place. Otherwise the category's balance gets the same delta. Transactions and counters never change. |
| `Transactions.CreateTransaction` | src/controllers/transactions.rs:53-96 | A failed lookup or an overdrawing DEBIT returns that error and changes nothing. Otherwise the tables become `Posted(old, row)`: the row is stored under the next id and both balances move by its signed amount. It returns the row for a known type and `InvalidType` otherwise. Both invariants are preserved, and so is non-negativity when the amount is non-negative. |
| `Transactions.UpdateTransaction` | src/controllers/transactions.rs:109-129 | A missing or foreign id is not found and changes nothing. Otherwise only that row's memo, description and update time change. No balance and no other row changes. |
| `Transactions.DeleteTransaction` | src/controllers/transactions.rs:131-166 | In order: the scoped lookup of the row, the lookup of its user and category, the CREDIT guard. Each failure returns its error and changes nothing. Otherwise the tables become `Unposted(old, id)`: the row is removed and its signed amount is taken back from both balances. Invariants and non-negativity are preserved. |
| `Transactions.PostedNonNegative` | src/controllers/transactions.rs:64-68 | On non-negative tables, a create with a non-negative amount that passes the DEBIT guard leaves every balance non-negative. |
| `Transactions.UnpostedNonNegative` | src/controllers/transactions.rs:143-149 | On non-negative tables, a delete that passes the CREDIT guard leaves every balance non-negative. A DEBIT delete has no guard and needs none. |
| `Transactions.NegativeCreditOverdraws` | src/controllers/transactions.rs:64-68 | The guard lets a CREDIT of -1 through on valid zero balances, and both balances end at -1. |
| `Ledger.PostedPreserves` | src/controllers/transactions.rs:70-93 | Storing a row of a category the caller owns, and adding its signed amount to its user and category, keeps `WellFormed` and `Consistent`. |
| `Ledger.UnpostedPreserves` | src/controllers/transactions.rs:151-163 | Removing a row and taking its signed amount back keeps `WellFormed` and `Consistent`. |
| `Ledger.PostThenUnpost` | src/controllers/transactions.rs:85-163 | A create followed by a delete of the new row restores users, categories and transactions exactly. |
| `Ledger.EditedPreserves` | src/controllers/transactions.rs:117-126 | Editing memo, description and update time leaves every signed sum, and both invariants, intact. |
| `Ledger.TotalInsert` | src/controllers/transactions.rs:70-83 | A row stored under an id above every existing id adds exactly its contribution to every sum. |
| `Ledger.TotalRemove` | src/controllers/transactions.rs:151-153 | Removing a row takes exactly its contribution from every sum. |
| `Ledger.UserAddedPreserves` | src/controllers/auth.rs:73-85 | A new user with balance 0 keeps both invariants, because no transaction refers to a fresh user id. |
| `Ledger.CategoryAddedPreserves` | src/controllers/categories.rs:54-66 | A new category with balance 0 keeps both invariants, because no transaction refers to a fresh category id. |
| `Ledger.CategoryEditedPreserves` | src/controllers/categories.rs:93-98 | Renaming a category keeps both invariants. |
| `Ledger.CategoryRemovedPreserves` | src/controllers/categories.rs:114-119 | Removing a category keeps both invariants. The remaining balances still equal their sums. This holds because the category's transactions stay in the table, still counted in the owner's sum. Under the ON DELETE CASCADE of the migrations (`src/migrations/m20250323_101235_create_transactions_table.rs:40-46`) those rows would go, and the owner's balance would no longer equal the sum whenever the removed rows' signed amounts do not cancel. |
| `Store.Database.AddUser` | src/controllers/auth.rs:73-85 | A new user under the next id with balance 0. Nothing else changes. |
| `Categories.FindCategory` | src/controllers/categories.rs:144-159 | Returns the category iff it exists and is the caller's. Otherwise it gives the single "Not found or unauthorized" error. `show_category` returns exactly this. |
| `Categories.GetAllCategories` | src/controllers/categories.rs:35-41 | Contains exactly the caller's categories, unchanged. |
| `Categories.FindCategoryAgreesWithListing` | src/controllers/categories.rs:144-159 | A lookup succeeds iff the id is in the caller's listing, and then returns the listed category. |
| `Categories.FindCategoryHidesOtherOwners` | src/controllers/categories.rs:149-158 | A failed lookup, for another owner's category, gives the same answer as one for a missing id. |
| `Categories.GetCategoryTransactions` | src/controllers/categories.rs:124-142 | Fails with not found iff the ownership check fails. Otherwise it returns exactly the rows whose category id is `id`. |
| `Categories.CategoryTransactionsAreTheCallers` | src/controllers/categories.rs:131-134 | On well-formed tables, every row that listing returns belongs to the caller, although the query filters only by category. |
| `Categories.CreateCategory` | src/controllers/categories.rs:46-69 | Stores the caller's category under the next id with the given name and description, balance 0 and both timestamps `now`. It is always accepted, and the invariants are preserved. |
| `Categories.UpdateCategory` | src/controllers/categories.rs:83-103 | A missing or foreign id changes nothing. Otherwise only name, description and update time change. Owner, balance and every other row stay. |
| `Categories.DeleteCategory` | src/controllers/categories.rs:105-122 | A missing or foreign id changes nothing. Otherwise exactly that category is removed. No balance and no transaction changes. |
| `Auth.ToStr` | src/middlewares/auth.rs:32-33 | The header value reads as text iff every byte is visible ASCII, space or tab. The text then has the same characters. |
| `Auth.ExtractToken` | src/middlewares/auth.rs:27-38 | No header gives "missing". An unreadable value gives "malformed". Text not starting with exactly "Bearer " gives "must start with 'Bearer '". Otherwise "Bearer " + token is the header text. |
| `Auth.TokenIsSuffix` | src/middlewares/auth.rs:35-36 | The token is the header text from position 7 on, and is 7 characters shorter. |
| `Auth.ToStrEncode` | src/middlewares/auth.rs:32-33 | The bytes of a visible text read back as that text. |
| `Auth.BearerRoundTrip` | src/middlewares/auth.rs:35-36 | "Bearer " + t gives t for any visible t. The prefix is removed once, so "Bearer Bearer x" gives "Bearer x". |
| `Scenarios.CreateThenDelete` | src/controllers/transactions.rs:53-166 | When neither the caller's balance nor the category's balance was negative, deleting a just-created row restores all three tables. For a known type the delete returns Ok, and for an unknown one `InvalidType`. |

## Left out

- HTTP transport: actix handlers, requests and responses, JSON, status codes. Outcomes are the `Result` type.
- Database failures: every "Database error" response (`InternalServerError`), including a foreign-key violation when a category is created for a user id that has no row. The model stores such a category.
- Cascading deletes declared by the migrations. `DeleteCategory` leaves the category's transactions in the table. In the real database they would be removed, and the user's balance would still include their amounts.
- Atomicity and concurrency: each handler is a plain sequence of steps with no database transaction and no interleaving of requests.
- Sign-up and sign-in: password hashing, JWT issuing, the email-uniqueness check. Only the new user's row with balance 0 is kept, as `AddUser`.
- `verify_jwt` and `validate_token`: token decoding and storing the claims in the request extensions (`src/utils/auth.rs` is replaced by the `userId` parameter).
- The Authorization header's name lookup: `ExtractToken` gets the header's value, or `None` when there is none.
- i64 and i32 widths: balances, amounts and ids are unbounded integers. Overflow in `balance + delta` and in `-amount` is not modelled.
- Row order of the listings: `GetAllTransactions`, `GetAllCategories` and `GetCategoryTransactions` return maps keyed by id.
- Timestamps are values passed by the caller. The database's own `ON UPDATE` timestamps are not modelled.
