# Wallet ledger and order settlement

A Dafny model of how a digital-goods marketplace moves money. Buyers pay from
an internal dollar wallet. Downloadable products pay the seller at once.
Account products hold the price in escrow until the order is completed. A
wallet is topped up with a simulated crypto deposit: first a request is
created, then it is confirmed, and the confirmation credits the wallet.
Every balance change is recorded as a row in a wallet transaction ledger.

The model covers:

- `OrderController`: `store`, `update` and `completeDownloadableOrder`.
- `WalletController`: `store`, `createCryptoDeposit` and `confirmCryptoDeposit`.
- The authorization and validation rules of `StoreProductRequest` and
  `UpdateProductRequest`.
- The wallets, wallet transactions, orders and crypto deposits tables.

## How the model is built

- **State.** The database is one immutable value, `Market.State`. It holds:
  - the wallets, keyed by user (the table has one wallet per user);
  - the ledger, a sequence of rows in insertion order;
  - the orders and the deposits, each a sequence where an id is the position;
  - the product catalogue, keyed by product id.
- **Tables.** The `Schema` module has one datatype per table row:
  - each enum column is a datatype with exactly the column's values;
  - nullable columns are `Option`s;
  - the polymorphic `transactionable` pair is an optional tagged reference
    to an order or a deposit;
  - column defaults are named constants.
- **Requests.** Each controller action is a pure function from a state to a
  `Step`: the new state and an outcome. The outcome is `Done`, or a refusal
  naming why the request was turned away. The refusals are:
  - `Invalid`: a validation failure;
  - `NotFound`: a missing route model or `findOrFail`;
  - `Forbidden`: a policy or ownership failure (a 403);
  - one of the controllers' own redirects with an error message;
  - `DuplicateKey`: a unique-column collision on the request's first insert.
- **Wallet creation before checks.** Validation and the product lookup come
  first. Then `Wallet::firstOrCreate` inserts the zero row, before the
  balance and stock checks. A purchase refused by either check can therefore
  return a state with one more (empty) wallet, exactly as the controller
  does.
  `Market.WalletOf` reads a missing wallet as that zero row.
- **Money.** Money is integer cents. A dollar amount from a request is a
  `real`, stored in a two-decimal column. How that column rounds is up to the
  database engine; the model chooses the nearest cent, halves up.
- **Parameters.** These inputs become arguments of the operations:
  - everything `Str::random` and `array_rand` would draw;
  - the clock reading `now()`;
  - the `view` policy of orders, as a predicate `mayView(actor, order)`.
- **Validation.** Request validation is a small interpreter of Laravel's rule
  vocabulary in the `Validation` module:
  - submitted text stays text, so text fields take digits too;
  - `numeric` reads a number out of text as PHP's `is_numeric` does
    (fractions and exponents included);
  - `integer` reads one as `FILTER_VALIDATE_INT` does (plain whole numbers
    only, in the 64-bit range);
  - a blank string runs only the `required` rules.

  Each rule table is written out as in the request class. It is then proved
  equal to a hand-written field-by-field description.
- **Invariant.** `Invariants.Valid` states what every reachable state
  satisfies:
  - balances agree with the ledger;
  - every `balance_after` is the running balance;
  - orders and deposits are booked exactly as often as their status says;
  - wallets plus escrow hold exactly what confirmed deposits brought in.

  Every request keeps `Valid`, and so does every run of requests from an
  empty database. This holds as long as the transaction ids each request
  draws are not already in the ledger.

Behaviour of the code that the model keeps:

- A purchase checks the balance before the stock. A buyer who cannot pay
  is told so even when the product is sold out.
- A seller who buys their own downloadable product sees both rows: the
  purchase row shows the debited balance, and the sale row shows the
  balance restored.
- A refused purchase can leave a new zero wallet behind, because
  `Wallet::firstOrCreate` runs before the balance and stock checks.
  `Orders.StoreOrderRefusalKeepsState` proves that no balance, total, ledger
  row, order or product changes.
- Every new deposit request is stored with the same placeholder hash
  `pending` in a unique column. So in every state these controllers can
  reach from an empty database, at most one deposit request is pending in
  the whole system. While any user's request is pending, every other create
  request fails on the unique key (`Invariants.AtMostOnePending`,
  `Invariants.CreateBlockedWhilePending`). Rows inserted some other way,
  such as by the deposit factory, are outside this guarantee.
- `escrow_release_at` is recorded, but nothing releases escrow except a
  `complete` request.
- `expires_at` is recorded, but confirmation ignores it. No code marks a
  deposit expired or failed, so an expired request can still be confirmed.
- No request runs in a database transaction. The model's steps are atomic,
  which is the most the code can deliver.
- Release authority is the order `view` policy, a parameter here; no check
  on buyer or seller is made in the controller.
- Every non-pending deposit gets the same error redirect
  (`NotConfirmable`), whether or not it was confirmed before.

## Model

| member | source | states |
|---|---|---|
| `Market.EnsureWallet` | database/migrations/2024_01_01_000003_create_wallets_table.php:16-23 | get-or-create of the one wallet row per user: adds exactly that user's key, a new row has zero balance, pending balance and totals, and no existing wallet changes |
| `Market.Post` | app/Http/Controllers/OrderController.php:138-152 | one settlement leg: only the named user's balance and running totals move, by the given amounts, and exactly one ledger row is appended whose balance after is the updated balance |
| `Common.Upper` | app/Http/Controllers/OrderController.php:61 | upper-casing keeps the length, makes every letter or digit an upper-case letter or digit, and leaves upper-case characters alone |
| `Common.OrderNumberFormat` | app/Http/Controllers/OrderController.php:61 | an order number is `ORD-` followed by ten upper-case letters or digits, and two draws give the same number exactly when they agree after upper-casing |
| `Common.TransactionIdFormat` | app/Http/Controllers/OrderController.php:85 | a transaction id is `TXN-` followed by twelve upper-case letters or digits |
| `Common.DemoHashIsNotPlaceholder` | app/Http/Controllers/WalletController.php:119 | a confirmed deposit's demo hash can never equal the placeholder hash of a pending request |
| `ProductRequests.StoreRulesMeaning` | app/Http/Requests/StoreProductRequest.php:22-36 | a new-product submission passes the create rules exactly when every required field is present and well formed (text fields take any non-blank text within their length bounds, digits included; the price is a number or numeric text in range; the stock is an integer or plainly written whole-number text in range), the payload matching its product type is a non-blank string, and the optional arrays are null, blank or short enough |
| `ProductRequests.UpdateRulesMeaning` | app/Http/Requests/UpdateProductRequest.php:24-40 | an update passes exactly when every field it sends with something in it is well formed, read as on create; any field may be left out or sent blank; the payload of a named type is still required |
| `ProductRequests.EmptySubmissions` | app/Http/Requests/UpdateProductRequest.php:26-38 | an empty update is accepted and an empty create is refused |
| `ProductRequests.StockZeroOnlyOnUpdate` | app/Http/Requests/UpdateProductRequest.php:34 | a stock that reads as the integer zero (0 or "0") always sinks a create and never decides an update |
| `ProductRequests.CreateSubmissionPassesUpdate` | app/Http/Requests/UpdateProductRequest.php:26-38 | a valid create submission that sends no null arrays and no malformed flags also passes the update rules |
| `ProductRequests.NullImagesOnlyOnCreate` | app/Http/Requests/StoreProductRequest.php:33 | null images pass the create rules but fail the update rules |
| `Validation.TextReadings` | app/Http/Requests/StoreProductRequest.php:28-32 | `numeric` reads "1984", "5.0" and "1e3" as 1984, 5 and 1000, and no number from "abc" or the empty string; `integer` reads " 42 " as 42 and refuses "5.0", "1e3" and "007" |
| `Validation.IntegerTextIsNumeric` | app/Http/Requests/StoreProductRequest.php:32 | text `integer` accepts is numeric text too, read as the same number, so `min` and `max` compare that integer |
| `Validation.NumericTextNotBlank` | app/Http/Requests/StoreProductRequest.php:28 | text that reads as a number is never blank, so it always satisfies `required` |
| `ProductRequests.TitleAnyText` | app/Http/Requests/StoreProductRequest.php:26 | any non-blank title of at most 255 characters, digits included, can replace a valid create submission's title |
| `ProductRequests.DecimalStockRefused` | app/Http/Requests/StoreProductRequest.php:32 | a stock sent as text `integer` does not read, such as "5.0" or "1e3", sinks a create submission whatever else is sent |
| `ProductRequests.PriceTextAsNumber` | app/Http/Requests/StoreProductRequest.php:28 | a price sent as numeric text, exponent text included, is judged on create exactly as the number it reads |
| `ProductRequests.BlankDescription` | app/Http/Requests/UpdateProductRequest.php:29 | a blank description sinks a create but never turns a valid update invalid, since blank text runs only `required` rules |
| `ProductRequests.AuthorityCompared` | app/Http/Requests/UpdateProductRequest.php:12-17 | admins may create and update; sellers may create but update only what they own; owners may update; nobody signed out may do either |
| `Orders.CompleteDownloadableOrder` | app/Http/Controllers/OrderController.php:169-197 | the seller is paid the price, the sale row shows the seller's balance after the credit, and only this order changes: it becomes completed and delivered with the download link at `now` |
| `Orders.StoreOrderGuards` | app/Http/Controllers/OrderController.php:41-69 | a purchase succeeds exactly when the product exists, the buyer can afford it, it is in stock and the order number is new; an unknown product is refused as invalid, a short balance before anything else |
| `Orders.StoreOrderRefusalKeepsState` | app/Http/Controllers/OrderController.php:45-57 | a refused purchase changes no ledger row, order, deposit or product, and no wallet reads differently |
| `Orders.StoreOrderPlacesOrder` | app/Http/Controllers/OrderController.php:59-97 | the new order records the price, the parties, the product snapshot and the order number; an account order is pending in escrow with release three days on; a downloadable order is completed and delivered at once |
| `Orders.StoreOrderMovesMoney` | app/Http/Controllers/OrderController.php:78-97 | for every user: the buyer pays the price into total spent, the seller of a downloadable product receives it into total earned, an account product's seller receives nothing yet, and pending balance never moves |
| `Orders.StoreOrderLedger` | app/Http/Controllers/OrderController.php:82-92 | the first appended row is the buyer's purchase row for minus the price, with the debited balance, naming the new order; an account purchase appends only that row |
| `Orders.StoreOrderSaleRow` | app/Http/Controllers/OrderController.php:176-186 | a downloadable purchase appends a second row, the seller's sale row for the price, whose balance after includes the buyer's debit when seller and buyer are the same user |
| `Orders.StoreOrderStock` | app/Http/Controllers/OrderController.php:99-101 | the bought product loses one unit of stock and gains one sale; no other product changes |
| `Orders.UpdateOrderGuards` | app/Http/Controllers/OrderController.php:124-135 | a release succeeds exactly when the order exists, the action is `complete`, the policy lets the actor view it and its escrow is held; a refusal changes nothing |
| `Orders.UpdateOrderReleases` | app/Http/Controllers/OrderController.php:137-158 | a release credits the seller's balance and total earned with the order amount, appends the seller's sale row, and marks only this order completed with escrow released |
| `Orders.ReleaseOnlyOnce` | app/Http/Controllers/OrderController.php:132-135 | after a successful release, any further release of the same order is refused |
| `Deposits.CryptoFrom` | app/Http/Controllers/WalletController.php:46 | a submitted currency name is accepted exactly when it is BTC, ETH or USDT, and names back the same currency |
| `Deposits.CryptoNameRoundTrip` | app/Http/Controllers/WalletController.php:46 | every currency's name is an accepted name and reads back as that currency |
| `Deposits.ToCents` | database/migrations/2024_01_01_000008_create_crypto_deposits_table.php:20 | a dollar amount stored with two decimals is within half a cent of the amount |
| `Deposits.ToCentsExact` | database/migrations/2024_01_01_000008_create_crypto_deposits_table.php:20 | a whole number of cents is stored unchanged |
| `Deposits.ToCentsInRange` | app/Http/Controllers/WalletController.php:47 | an accepted amount of 10 to 10000 dollars is stored as 1000 to 1000000 cents |
| `Deposits.CreateGuard` | app/Http/Controllers/WalletController.php:85-95 | creating a request fails on the unique hash exactly when some deposit still carries the placeholder hash, and then nothing changes |
| `Deposits.CreateRecordsRequest` | app/Http/Controllers/WalletController.php:61-95 | the new request is the actor's, pending, with the placeholder hash, zero of three confirmations, the table rate, a coin amount worth exactly the dollars asked, and a two-hour deadline; no wallet or ledger row changes |
| `Deposits.AddressShape` | app/Http/Controllers/WalletController.php:76-83 | a deposit address starts with one of its currency's prefixes and is 34 characters for BTC and 42 for the others |
| `Deposits.ConfirmGuards` | app/Http/Controllers/WalletController.php:105-113 | a missing deposit is not found, another user's is forbidden, a non-pending one cannot be confirmed, checked in that order; a refusal changes nothing |
| `Deposits.ConfirmCredits` | app/Http/Controllers/WalletController.php:115-136 | a confirmation credits only the owner's balance with the deposit's dollar amount, appends the owner's deposit row with the balance after, and rewrites only this deposit as confirmed with six confirmations and a demo hash |
| `Deposits.ConfirmOnlyOnce` | app/Http/Controllers/WalletController.php:111-113 | after a successful confirmation, confirming the same deposit again is refused |
| `Deposits.Below` | database/migrations/2024_01_01_000008_create_crypto_deposits_table.php:15 | the deposit ids that exist are exactly those below the number of deposits |
| `Deposits.StoreRulesMeaning` | app/Http/Controllers/WalletController.php:44-49 | a wallet request passes validation exactly when its type is known, a deposit request names a known currency and 10 to 10000 dollars (a number or numeric text), a confirmation names an existing deposit, and any of those fields sent anyway with something in it is well formed |
| `Deposits.HandleStoreDispatch` | app/Http/Controllers/WalletController.php:42-56 | an invalid request is refused as invalid and changes nothing; a valid one is handled as exactly the create or the confirmation it names |
| `Market.UserSumAppend` | database/migrations/2024_01_01_000004_create_wallet_transactions_table.php:19 | appending a row adds its amount to its owner's ledger sum and nothing to anyone else's |
| `Invariants.AppendConsistent` | database/migrations/2024_01_01_000004_create_wallet_transactions_table.php:17-20 | appending a row with a new id that moves its owner's balance by its amount and records the new balance keeps balances, running balances and id uniqueness consistent |
| `Invariants.InitValid` | database/migrations/2024_01_01_000003_create_wallets_table.php:16-23 | an empty database over a sound catalogue satisfies the invariant |
| `Invariants.StoreOrderConserves` | app/Http/Controllers/OrderController.php:78-97 | a purchase neither creates nor destroys money: what leaves the buyer is in escrow or in the seller's wallet |
| `Invariants.StoreOrderKeepsWallets` | app/Http/Controllers/OrderController.php:49-52 | because the balance is checked first, no purchase drives a balance negative |
| `Invariants.StoreOrderKeepsLedger` | app/Http/Controllers/OrderController.php:78-92 | a purchase with new transaction ids keeps every balance equal to its ledger sum and every balance after equal to the running balance |
| `Invariants.StoreOrderKeepsOrders` | database/migrations/2024_01_01_000005_create_orders_table.php:16-22 | after a purchase every order is in a shape the controller creates and order numbers stay unique |
| `Invariants.StoreOrderKeepsBooks` | app/Http/Controllers/OrderController.php:82-97 | after a purchase every order has exactly one purchase row and a sale row exactly when settled |
| `Invariants.StoreOrderPreserves` | app/Http/Controllers/OrderController.php:39-105 | every purchase keeps the whole invariant |
| `Invariants.UpdateOrderConserves` | app/Http/Controllers/OrderController.php:137-158 | a release moves the held amount from escrow to the seller without changing the total |
| `Invariants.UpdateOrderKeepsLedger` | app/Http/Controllers/OrderController.php:138-152 | a release with a new transaction id keeps the wallets sound and the ledger consistent |
| `Invariants.UpdateOrderKeepsBooks` | app/Http/Controllers/OrderController.php:142-158 | a release books exactly one sale row against the released order |
| `Invariants.UpdateOrderPreserves` | app/Http/Controllers/OrderController.php:124-164 | every release keeps the whole invariant |
| `Invariants.CreateConserves` | app/Http/Controllers/WalletController.php:85-95 | creating a deposit request moves no money |
| `Invariants.CreatePreserves` | app/Http/Controllers/WalletController.php:61-98 | creating a deposit request for an accepted amount keeps the whole invariant |
| `Invariants.ConfirmAddsMoney` | app/Http/Controllers/WalletController.php:122-124 | a confirmation brings exactly the deposit's dollar amount into the system |
| `Invariants.ConfirmKeepsLedger` | app/Http/Controllers/WalletController.php:122-136 | a confirmation with a new transaction id keeps the wallets sound and the ledger consistent |
| `Invariants.ConfirmKeepsBooks` | app/Http/Controllers/WalletController.php:115-136 | a confirmation keeps deposit hashes unique and books exactly one deposit row against the confirmed deposit |
| `Invariants.ConfirmPreserves` | app/Http/Controllers/WalletController.php:103-139 | every confirmation keeps the whole invariant |
| `Invariants.HandleStorePreserves` | app/Http/Controllers/WalletController.php:42-56 | every wallet request keeps the whole invariant |
| `Invariants.AtMostOnePending` | database/migrations/2024_01_01_000008_create_crypto_deposits_table.php:17 | in a valid state at most one deposit request is pending, system-wide |
| `Invariants.CreateBlockedWhilePending` | app/Http/Controllers/WalletController.php:85-95 | in a valid state a create request succeeds exactly when no request is pending |
| `Invariants.LatestRowShowsBalance` | database/migrations/2024_01_01_000004_create_wallet_transactions_table.php:20 | a user's latest ledger row shows their current balance |
| `Invariants.MoneyComesFromDeposits` | app/Http/Controllers/WalletController.php:122-124 | all money in wallets and escrow together is what confirmed deposits brought in, and escrow holds nothing negative |
| `Invariants.StoreOrderEvolves` | app/Http/Controllers/OrderController.php:59-101 | a purchase only appends to the ledger and the orders, and running totals never fall |
| `Invariants.UpdateOrderEvolves` | app/Http/Controllers/OrderController.php:154-158 | a release only moves an order from held to released, appends to the ledger, and running totals never fall |
| `Invariants.CreateEvolves` | app/Http/Controllers/WalletController.php:85-95 | creating a request only appends a deposit |
| `Invariants.ConfirmEvolves` | app/Http/Controllers/WalletController.php:116-120 | a confirmation only moves a deposit from pending to confirmed and appends to the ledger |
| `Invariants.RunPreserves` | app/Http/Controllers/OrderController.php:39-164 | any run of purchases, releases and wallet requests over a valid state, drawing new transaction ids, ends valid and only moves forward |
| `Invariants.ReachableValid` | database/migrations/2024_01_01_000003_create_wallets_table.php:17 | in every state reachable from an empty database no balance is negative and every balance is its ledger sum |

## Left out

- Concurrency and transactions: the controllers run without database
  transactions or locks. The model treats each request as one atomic step.
  A failure part-way through a request, which would leave partial writes,
  is not modelled.
- Invariants.StoreOrderPreserves: assumes that the transaction ids a request
  draws are new and distinct. A collision on the ledger's unique id would
  fail after the wallet update; that partial failure is not an error path
  here.
- Invariants.UpdateOrderPreserves: assumes a new transaction id, for the same
  reason.
- Invariants.ConfirmPreserves: assumes a new transaction id, for the same
  reason.
- Invariants.HandleStorePreserves: assumes a new transaction id, for the same
  reason.
- Invariants.RunPreserves: assumes a new transaction id for every request of
  the run, for the same reason.
- Invariants.ReachableValid: assumes a new transaction id for every request of
  the run, for the same reason.
- Invariants.CreatePreserves: assumes the amount the wallet request's
  validation accepts (10 to 10000 dollars). The create operation itself
  accepts any amount, as the protected method does.
- Deposits.AddressShape: assumes the random draw has the length the
  controller asks for. `array_rand`'s draw is modelled as an arbitrary
  number reduced into the prefix list.
- Floating point: `crypto_amount` is the exact quotient of dollars by rate.
  PHP float division and the column's eight-decimal rounding are not
  modelled.
- Request middleware: values are those the validator receives. Laravel's
  default stack runs `TrimStrings` and `ConvertEmptyStringsToNull` first,
  which turns blank text into null. The application's middleware setup is
  not part of this model, so a request whose strings were trimmed and
  emptied beforehand is simply one without blank text, and blank text that
  does arrive is treated as the validator itself treats it.
- Numbers sent as numbers (JSON bodies) are one `Number` value. PHP's split
  between integers and floats is not kept, so `boolean` accepts 1.0 as it
  accepts 1. A float's conversion to text, for `max` on a text field, is not
  modelled.
- `exists` on a deposit or category id: modelled as the id read as a
  number being that of an existing row. The database's own comparison of
  text with an integer column is not modelled.
- Deposits.ToCents: rounding half up to the cent is this model's choice. A
  two-decimal column's rounding is up to the database engine (SQLite keeps
  the value unrounded).
- Validation of `product_id` on purchase (`exists:products,id`): modelled as
  "the product is in the catalogue", refused as invalid otherwise.
- Escrow auto-release: `escrow_release_at` is recorded, but no code releases
  escrow automatically, so no sweep is modelled.
- `pending_balance`: the column exists, but no modelled code writes it. It is
  proved to stay zero.
- Refunds, disputes, cancellation and withdrawals: the enum values exist, but
  no modelled code produces them.
- Listing and display actions (`index`, `show`), product creation and editing
  in `ProductController`, the front end, factories and the seeder: not part
  of the settlement core.
- The `metadata`, notes and `raw_transaction_data` columns, and timestamps
  other than those the controllers set: not read by any modelled code.
- Authentication: a signed-in user is a parameter. Session handling is not
  modelled.
- The order `view` policy: the policy class is not part of this model, so
  `mayView` is a parameter.
