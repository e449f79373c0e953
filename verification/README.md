# Shop ledger model

A Dafny model of the ledger logic inside the Flask handlers of `app.py`.
Shop owners add customers by phone number. A customer known to one shop is
reused when another shop adds the same phone. Owners record credit and
payment entries against a customer. Anyone logged in may view one shop's
ledger with one customer, with its running total, except that a customer
session may only view its own ledgers.

The SQLite tables are one immutable `Store` value (`schema.dfy`):

- `customers` is a map from id to name, phone and optional pin;
- `owner_customers` is a set of links (owner id, customer id, active flag);
- `transactions` is a sequence of entries in insertion order.

The schema's UNIQUE constraints become the invariants `PhonesUnique` and
`PairsUnique`. Each handler is a pure function from the store, the session
and the form fields to an outcome and the next store (`Step`). The
redirects become `Outcome` values; every outcome but `Ok` leaves the store
unchanged. The session is an explicit `Session` value holding the two keys
the handlers read, either of which may be missing (`access.dfy`).

Modules:

- `Text`: Python's `strip`, `isdigit` and `lower`, as the handlers apply
  them to form fields and stored types.
- `Schema`: the tables, their constraints and the outcomes.
- `Access`: the session and the two gates (owner role; read access).
- `Linkage`: `add_customer` and `update_customer_phone`.
- `Ledger`: the POST branch of `add_transaction`, the shop-scoped query,
  the balance fold and the transactions page.
- `Shop`: properties that span several handlers.

Modelling choices:

- The customer lookup by phone (`fetchone` on `WHERE phone=?`) is only
  deterministic because the column is UNIQUE. `AddCustomer` therefore
  requires `PhonesUnique`, which the database guarantees for every stored
  state.
- `uuid.uuid4()` is the parameter `freshId`. It is required to be `Fresh`:
  no customer has that id and no link refers to it.
- A session with role `"owner"` but no `user_id` makes `session["user_id"]`
  raise. This happens before anything is committed, so the model returns
  `NoUserId` with the store unchanged. `update_customer_phone` never reads
  `user_id`, so it has no such outcome.
- `update_customer_phone` does not check that the customer exists. An
  unknown id updates no row, and the model returns `Ok` with the store
  unchanged.
- Amounts are Dafny `real`s. `app.py` checks neither their sign nor the
  transaction type, so the model accepts any amount and stores the type
  verbatim.
- The transactions page checks the path only against customer sessions. An
  owner session, or any session with a `user_id` and a role other than
  `"customer"`, may view any shop's ledger. `OwnerSeesEveryShop` records
  this.

## Model

| member | source | states |
|---|---|---|
| Text.Strip | app.py:90-91 | The stripped field is the infix left after removing leading and trailing whitespace. Everything removed is whitespace in Python's sense. The result neither starts nor ends with whitespace. |
| Text.Lower | app.py:201 | Lower-casing keeps the length and folds each character on its own: A-Z become a-z, every other character is kept. |
| Linkage.ValidPhoneIsTenDigits | app.py:94 | The phone rule `not p or not p.isdigit() or len(p) != 10` accepts exactly the strings of ten ASCII digits. |
| Linkage.FindByPhone | app.py:101-102 | Under the UNIQUE phone column, the lookup finds a customer exactly when some customer holds the phone, and the id it returns holds that phone. |
| Linkage.StoredPin | app.py:92 | The stored pin is NULL when the pin field is missing or empty, and is the field itself otherwise. |
| Linkage.InsertLink | app.py:119-122 | Inserting a link for a pair not yet linked adds exactly one active link, touches no other table, and keeps (owner, customer) pairs unique. |
| Linkage.InsertCustomer | app.py:128-131 | Inserting a customer under a fresh id, for a phone nobody holds, adds exactly one customer, keeps every existing one, and keeps phones unique. |
| Linkage.LinkByPhone | app.py:100-136 | Once the checks pass, the request is refused (no change) exactly when the phone's holder is already linked to this owner. Otherwise it adds exactly one active link from the owner, keeps every existing customer, adds at most one customer, and preserves both uniqueness constraints. |
| Linkage.AddCustomer | app.py:85-141 | Non-owner sessions are refused. A stripped phone that is not ten digits is refused. A missing user id fails. A phone held by a customer already linked to this owner gives `already_added`. Every refusal leaves the store unchanged. On success exactly one active link from the session's owner is added, existing customers are kept, at most one customer is added, transactions are untouched, and both uniqueness constraints are preserved. |
| Linkage.AddLinkedCustomer | app.py:104-117 | If the phone's holder is already linked to this owner (active or not), the outcome is `already_added` and the store is unchanged. |
| Linkage.AddKnownCustomer | app.py:104-122 | If the phone's holder is not yet linked to this owner, no customer is created or changed. The only change is one new active link from the owner to that holder. |
| Linkage.AddNewCustomer | app.py:124-136 | If nobody holds the phone, exactly one customer is created under the fresh id, with the stripped name, the phone and the stored pin. Exactly one active link from the owner to it is added. |
| Linkage.AddCustomerTwice | app.py:104-117 | Once an owner's request for a valid phone has gone through, a second request by the same owner for the same phone gives `already_added` and changes nothing, whatever the name, pin and fresh id. |
| Linkage.UpdateCustomerPhone | app.py:219-246 | Non-owner sessions are refused. Phones that are not ten digits are refused. A phone held by a different customer gives `phone_exists`. Every refusal leaves the store unchanged. On success only that customer's phone changes; every other customer, the links and the transactions are untouched. Phone uniqueness is preserved. |
| Linkage.UpdateCustomerPhoneIdempotent | app.py:232-241 | Repeating the same phone update leaves the store as the first update left it. |
| Ledger.AddTransaction | app.py:148-169 | Non-owner sessions are refused. A missing user id fails. Both leave the store unchanged. On success exactly one entry is appended and every earlier entry is kept. The new entry carries the session's user id as owner, the path's customer id, and the type, amount and note as given. Customers and links are untouched. |
| Ledger.ShopLedger | app.py:191-195 | The shop query returns no more entries than are stored, and each returned entry has the requested owner id and customer id. |
| Ledger.ShopLedgerComplete | app.py:191-195 | The shop query returns every matching entry as often as it is stored, and no other entry. |
| Ledger.ShopLedgerAppend | app.py:161-164 | Appending an entry extends the query result for the entry's own owner and customer by that entry, and leaves every other shop's result unchanged. |
| Ledger.IsPaymentIgnoresCase | app.py:201 | The type counts as a payment exactly when it is seven letters spelling "payment" in any mix of case. |
| Ledger.BalanceAppend | app.py:199-204 | The running total over a concatenation is the sum of the two totals. |
| Ledger.BalanceIsCreditsMinusPayments | app.py:199-204 | The running total equals the sum of the non-payment amounts minus the sum of the payment amounts. |
| Ledger.BalancePermutation | app.py:194-204 | Any rearrangement of the same entries has the same total, so the display order does not affect it. |
| Ledger.ComputeBalance | app.py:199-204 | The loop starting at 0, subtracting payments and adding every other entry, ends with credits minus payments. |
| Ledger.ViewTransactions | app.py:178-212 | The page is shown exactly when the session has a user id and, for a customer session, that id is the requested customer. It then lists exactly the shop's entries, with every matching entry as often as stored, and its total is credits minus payments. |
| Shop.OwnerOnlyGate | app.py:87 | Adding a customer, changing a phone and recording an entry all refuse any session whose role is not `"owner"`, and change nothing (the same gate stands at app.py:150 and app.py:221). |
| Shop.ViewNeedsSession | app.py:180-181 | Without a user id in the session the transactions page is refused, whatever the role. |
| Shop.OwnerSeesEveryShop | app.py:183-186 | Only customer sessions are checked against the path: an owner session with a user id sees any owner's ledger with any customer. |
| Shop.RecordThenView | app.py:161-204 | After an owner records an entry, that owner's page for the customer lists one more entry, the new one last. Its total moves by the entry's signed amount. Every other shop's page is unchanged. |
| Shop.BalanceExamples | app.py:199-204 | A credit of 100 and a payment of 30 total 70. An upper-case PAYMENT of 10 totals -10. No entries total 0. |

## Left out

- Flask routing, `render_template`, the GET branch of `add_transaction` (it only renders a form), redirect targets and query-string error codes: presentation. Outcomes are the `Outcome` and `View` datatypes instead.
- sqlite3 connections, cursors, commit and close, and the DDL run by `init_db`. The tables are pure values and their UNIQUE constraints are invariants.
- The `owners` table, registration, login and pin update: not part of this model (no handler here reads or writes them).
- Missing form fields (`request.form[...]` raising, answered with HTTP 400): the model takes the name, phone, type, amount and note fields as given strings. The pin field, read with `.get`, is an `Option`.
- `float(request.form["amount"])` parsing and floating-point rounding: amounts are exact reals.
- The `created_at` column and `ORDER BY created_at DESC`: entries stay in insertion order. `BalancePermutation` shows the total does not depend on the order.
- The autoincrement `id` columns of `owner_customers` and `transactions`: no modelled operation reads them.
- Linkage.ValidPhoneIsTenDigits: only '0'..'9' count as digits. Python's `str.isdigit` also accepts non-ASCII digits (superscript two, Arabic-Indic digits), so `app.py` accepts some ten-character phones that the model rejects.
- Text.Lower: only A-Z are folded; Python's `str.lower` also folds non-ASCII letters. No non-ASCII character lower-cases to a letter of "payment", so the payment test is unaffected.
- Session and cookie storage, `logout`, the cache headers of `add_header`, `app.run` and the `PORT` variable: the session is a parameter.
- Toggling, deleting links and the customer-wide transactions view: no handler for them is in `app.py`.
- Concurrent requests: the model runs each handler alone, as a single database transaction.
