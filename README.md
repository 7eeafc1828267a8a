# Retail back office and shop: a verified model

This project models the logic of a small retail system. A MySQL-backed API keeps
products, customers, sales and sale items, and a MongoDB collection keeps "ventas"
(recorded sales amounts with a category). Two React screens build carts: the
point-of-sale form and the customer shop page.

Modules:

- `Base`: optional values and results, decimal rendering of integers, and the
  `startsWith`/`includes` tests.
- `Database`: the four tables as one `Tables` value, with their auto-increment
  counters. It also holds the `Store` class, whose fields the controllers update in
  place, and the `WellFormed` invariant the engine guarantees:
  - ids are positive and below their counter;
  - no two customers share a non-NULL e-mail;
  - sale ids grow in insertion order;
  - every foreign key resolves.
- `SaleController`: `createSale`, which runs in this order:
  1. validation before any transaction;
  2. a lock-read loop over the items in request order, which accumulates the total;
  3. insertion of the header and one row per item;
  4. stock writes from the stock read under lock;
  5. commit, or rollback with the error mapped to 400 or 500;
  6. release of the connection on every path.

  The connection's history is returned as a trace of events. The module also models
  the newest-first listing of `getSales`. `CreateSale` is a module-level method that
  takes the `Store`, modifies it, and keeps the three loops of the source. It is proved
  equal to the function `CreateSaleSpec`, and the properties are proved about that
  function.
- `ProductController`: list and fetch active products, create, update only the
  supplied fields, and soft delete.
- `CustomerController`: fetch, create, update and hard delete. It includes the e-mail
  test `/\S+@\S+\.\S+/`, decided by a local window check that is proved equal to the
  unanchored regular expression. The unique e-mail index and the foreign key from
  sales are modelled as database constraints.
- `VentaController`: `createVenta`'s field mapping with the schema's `required`
  checks, and `getEstadisticas`: the grand total and the per-category and per-month
  sums. The source's grouping reduce becomes the loop method `GroupSum`.
- `SaleForm`: the point-of-sale cart. It covers:
  - merge-or-append within stock, as a method with the two linear searches of the
    source, proved equal to `AddToCart`;
  - remove;
  - total;
  - the submit guard and payload, with a lemma that a valid cart passes the sale
    controller's validation with distinct product ids.
- `Comprar`: the shop cart (increment or append, remove, quantity floor of one,
  total, checkout guard and payload) and the three card-field filters.

Money is in integer cents. A field a client leaves out is `None`.

Two behaviours of the sale controller are modelled as the code has them:

- Items are locked and checked in request order, not in product-id order.
- The lock-read ignores the `active` flag, so a soft-deleted product can still be sold.

A request naming the same product twice checks each item against the stock before
the sale, and the last stock write wins. `SaleController.DuplicateProductOversells`
exhibits it: five in stock and two items of three give six sold, with two left in
stock. The stock properties that need it assume distinct ids.

## Model

| member | source | states |
|---|---|---|
| Base.NatToStringRoundTrip | backend/controllers/saleController.js:66 | the decimal text that messages such as "Customer with ID … not found." embed reads back as the same number |
| SaleController.Validate | backend/controllers/saleController.js:52-68 | the checks before the transaction pass exactly when `items` is a non-empty array of items with truthy ids and positive quantities and a truthy `customer_id` names an existing customer |
| SaleController.CustomerRef | backend/controllers/saleController.js:93 | `customer_id \|\| null`: the stored reference is present exactly when the id is truthy, and is then that id |
| SaleController.ErrorResponse | backend/controllers/saleController.js:132-136 | a thrown error is answered with 400 exactly when its message starts with "Insufficient stock" or contains "not found", and then carries that message; every other error gets 500 with the generic text |
| SaleController.ValidateItems | backend/controllers/saleController.js:56-61 | the item loop answers true exactly when every item is valid |
| SaleController.LockReadItems | backend/controllers/saleController.js:74-86 | the lock-read loop gives the first thrown error or one detail per item, and the accumulated total is the sum of the subtotals |
| SaleController.PersistSale | backend/controllers/saleController.js:89-107 | inserting the header, the item rows and the stock writes yields exactly the committed tables |
| SaleController.CreateSaleSpec | backend/controllers/saleController.js:44-141 | a failed request leaves the tables as they were, and every connection history starts by taking the connection and ends by releasing it; its behaviour is stated by `CommitIff`, `ConnectionLifecycle`, the `Committed…` lemmas and the rejection lemmas |
| SaleController.CreateSale | backend/controllers/saleController.js:44-141 | the controller's new store, response and connection history are those of `CreateSaleSpec`, and the store stays well formed |
| SaleController.LockReadOne | backend/controllers/saleController.js:77-85 | one item's locked read succeeds exactly when its product exists with stock covering the quantity; its detail and message are stated by `LockReadDetails`, `ProductNotFoundIsBadRequest` and `InsufficientStockIsBadRequest` |
| SaleController.LockRead | backend/controllers/saleController.js:77-86 | on success there is one detail per item; what the details hold and which error is thrown is stated by `LockReadSucceedsIff`, `LockReadDetails` and `LockReadFirstError` |
| SaleController.LockReadKeepsFirstError | backend/controllers/saleController.js:77-81 | once an item throws, the loop ends with that error |
| SaleController.LockReadSucceedsIff | backend/controllers/saleController.js:77-81 | the loop succeeds exactly when every item's product exists with stock covering the quantity |
| SaleController.LockReadDetails | backend/controllers/saleController.js:77-85 | on success there is one detail per item, in request order, with the price and stock as they were before the sale and `subtotal = price * quantity` |
| SaleController.LockReadFirstError | backend/controllers/saleController.js:77-81 | the error is the one of the first item that cannot be read |
| SaleController.ProductNotFoundIsBadRequest | backend/controllers/saleController.js:132-133 | the "Product with ID … not found." message maps to 400 and is kept |
| SaleController.InsufficientStockIsBadRequest | backend/controllers/saleController.js:132-133 | the "Insufficient stock …" message maps to 400 and is kept |
| SaleController.LockReadErrorsAreBadRequests | backend/controllers/saleController.js:128-136 | every error the loop can throw is answered with 400 and its own message |
| SaleController.Total | backend/controllers/saleController.js:74-84 | the accumulated total is non-negative when every subtotal is; `TotalIsSumOfItemRows` and `TotalIsRequestTotal` state what it sums |
| SaleController.Persist | backend/controllers/saleController.js:89-107 | the committed tables keep the customers and the set of product rows, gain one sale header and one item row per detail; `PersistSale` is proved to compute them and `PersistKeepsWellFormed` to keep them well formed |
| SaleController.ItemRows | backend/controllers/saleController.js:100-104 | one item row per detail |
| SaleController.TotalIsSumOfItemRows | backend/controllers/saleController.js:83-104 | the total equals the sum of the inserted rows' subtotals |
| SaleController.TotalIsRequestTotal | backend/controllers/saleController.js:82-85 | the total is `Σ price * quantity` over the request at the locked prices |
| SaleController.WriteStock | backend/controllers/saleController.js:100-107 | the stock writes neither add nor remove product rows; the values written are stated by `WriteStockLastWins` and `CommittedStock` |
| SaleController.WriteStockLastWins | backend/controllers/saleController.js:105-106 | after the stock writes, a product's stock is the one written by the last detail naming it; rows are neither added nor removed |
| SaleController.EmptyItemsRejected | backend/controllers/saleController.js:52-55 | missing, non-array or empty `items`: 400, no transaction, tables unchanged |
| SaleController.InvalidItemRejected | backend/controllers/saleController.js:56-61 | any invalid item: 400, no transaction, tables unchanged |
| SaleController.UnknownCustomerRejected | backend/controllers/saleController.js:62-68 | a truthy unknown `customer_id`: 400 with its message, no transaction, tables unchanged |
| SaleController.LockFailureRollsBack | backend/controllers/saleController.js:77-134 | an unknown product or short stock in any item rolls back the whole sale (earlier valid items included), with 400 and the first failing item's message |
| SaleController.CommitIff | backend/controllers/saleController.js:71-136 | a sale commits exactly when validation passes and every item can be read; otherwise the tables are unchanged and the status is 400 or 500 |
| SaleController.ConnectionLifecycle | backend/controllers/saleController.js:46-140 | the connection is taken first and released last, once; begin happens only after validation, commit only for a created sale, rollback on every failure inside the transaction |
| SaleController.CommittedSaleHeader | backend/controllers/saleController.js:82-95 | the new header has the next id, the request total at the locked prices and the customer reference, and is appended; customers are untouched |
| SaleController.CommittedItemRows | backend/controllers/saleController.js:98-104 | exactly one row per request item, in order, with the sale id, the locked unit price and `subtotal = unit_price * quantity`; the header total is their sum |
| SaleController.CommittedStock | backend/controllers/saleController.js:105-106 | each named product ends with its stock before the sale minus the quantity of the last item naming it; other products are untouched |
| SaleController.CommittedStockNonNegative | backend/controllers/saleController.js:81-106 | every product a committed sale names ends with non-negative stock, even with repeated ids |
| SaleController.DistinctItemsStock | backend/controllers/saleController.js:78-106 | with distinct ids, each product's stock drops by exactly its item's quantity and stays non-negative |
| SaleController.DuplicateProductOversells | backend/controllers/saleController.js:78-106 | as written, two items of three against a stock of five both pass; six are sold, the total is 900 and the stock ends at two |
| SaleController.InactiveProductSold | backend/controllers/saleController.js:78-81 | a soft-deleted product can be sold and stays inactive |
| SaleController.CreateSaleKeepsWellFormed | backend/controllers/saleController.js:89-111 | a committed or failed request keeps ids, counters and foreign keys consistent |
| SaleController.PersistKeepsWellFormed | backend/controllers/saleController.js:89-107 | inserting a header with the next id and an existing or NULL customer, plus item rows naming existing products, keeps the tables well formed |
| SaleController.AppendSale | backend/controllers/saleController.js:91-95 | the appended header keeps sale ids ordered, positive and below the advanced counter, and keeps every customer reference resolved |
| SaleController.AppendItemRows | backend/controllers/saleController.js:100-104 | the appended item rows get fresh ids below the advanced counter, with existing products and an existing sale |
| SaleController.SalesNewestFirst | backend/controllers/saleController.js:30-32 | the listing is the sales in reverse insertion order; the ordering by id is `NewestFirstByDescendingId` |
| SaleController.NewestFirstByDescendingId | backend/controllers/saleController.js:32 | in that listing the sale ids strictly decrease |
| ProductController.ActiveProducts | backend/controllers/productController.js:4-12 | the listing holds exactly the products whose `active` flag is set, unchanged |
| ProductController.GetProductById | backend/controllers/productController.js:15-27 | a row is found exactly when the id names an active product, and the answer then carries that id and that row unchanged; any other id gets 404 with "Product not found" |
| ProductController.GetByIdAgreesWithList | backend/controllers/productController.js:6-18 | an id is fetched exactly when it is listed, with the same row |
| ProductController.MissingRequired | backend/controllers/productController.js:34 | `!name \|\| !price \|\| stock === undefined`; its meaning is stated by `CreateProduct` (400 and nothing inserted when it holds) and by `NewProduct` (a created row has a non-empty name and a non-zero price) |
| ProductController.NewProduct | backend/controllers/productController.js:37-40 | the inserted row carries the body's name, description, price and stock, has a non-empty name and a non-zero price, and is active through the column default |
| ProductController.CreateProduct | backend/controllers/productController.js:30-46 | falsy name, falsy price (0 too) or missing stock: 400 and nothing inserted; otherwise one row at the next id, and the reply echoes the body |
| ProductController.ApplyPatch | backend/controllers/productController.js:61-71 | exactly the supplied fields are overwritten; every other column, `active` included, is kept |
| ProductController.ApplyPatchIdempotent | backend/controllers/productController.js:61-71 | the same update applied twice equals once, and the empty descriptor changes nothing |
| ProductController.UpdateProduct | backend/controllers/productController.js:49-86 | absent id: 404, checked first even when no field is given, and an inactive row passes; no field: 400; otherwise only that row changes, as `ApplyPatch` says |
| ProductController.DeleteProduct | backend/controllers/productController.js:89-110 | an active row gets `active = false`, stays in the table and the answer is 204; an absent or inactive id gives 404 and no change |
| ProductController.DeleteProductTwice | backend/controllers/productController.js:94-105 | a second delete of the same id is a 404, the row is still there, and neither listing nor fetching shows it |
| CustomerController.WindowMatches | backend/controllers/customerController.js:37 | a window around an '@' and a later '.' matches `\S+@\S+\.\S+` as a whole |
| CustomerController.MatchHasWindow | backend/controllers/customerController.js:37 | a substring that matches the pattern whole contains a window, so the window check accepts the text |
| CustomerController.LooksLikeEmail | backend/controllers/customerController.js:37 | a text that passes has at least five characters and an '@'; `LooksLikeEmailIsRegexTest` states that it is the regular-expression test |
| CustomerController.LooksLikeEmailIsRegexTest | backend/controllers/customerController.js:37 | the window check holds exactly when some substring matches `\S+@\S+\.\S+` whole (the regex is unanchored) |
| CustomerController.EmailExamples | backend/controllers/customerController.js:37 | "ana@mail.com" passes, so does an address inside other text, and "ana@mail" fails |
| CustomerController.OrNull | backend/controllers/customerController.js:43 | `x \|\| null`: a missing or empty field becomes NULL, any other value is kept |
| CustomerController.NewCustomer | backend/controllers/customerController.js:41-44 | the inserted row has the given name and NULL for each empty or missing contact field |
| CustomerController.FieldsToUpdate | backend/controllers/customerController.js:63-72 | the descriptor holds exactly the defined fields, a defined empty contact field becomes NULL, and it is empty exactly when no field is defined |
| CustomerController.ApplyFields | backend/controllers/customerController.js:82 | the columns in the descriptor are set and the others kept |
| CustomerController.UpdateWithCreationBody | backend/controllers/customerController.js:63-82 | updating with a complete body gives the row that creating from it would, and the update is idempotent |
| CustomerController.InsertKeepsWellFormed | backend/controllers/customerController.js:41-44 | an insert at the next id that the unique e-mail index accepts keeps the tables well formed |
| CustomerController.UpdateKeepsWellFormed | backend/controllers/customerController.js:82 | an update of an existing row that the unique e-mail index accepts keeps the tables well formed |
| CustomerController.DeleteKeepsWellFormed | backend/controllers/customerController.js:107 | deleting a customer no sale refers to keeps every foreign key resolved |
| CustomerController.BuildFields | backend/controllers/customerController.js:63-72 | the descriptor build stops exactly when a present e-mail fails the format test, and otherwise yields `FieldsToUpdate` |
| CustomerController.GetCustomerById | backend/controllers/customerController.js:15-27 | the row of that id, or 404 exactly when it is absent |
| CustomerController.CreateCustomer | backend/controllers/customerController.js:30-54 | falsy name: 400; a present bad e-mail: 400; an e-mail held by another customer: 409; otherwise one row at the next id with empty fields as NULL; each failure leaves the table unchanged |
| CustomerController.UpdateCustomer | backend/controllers/customerController.js:57-99 | bad e-mail: 400 (even for an unknown id); no defined field: 400; empty name: 400; absent id: 404; an e-mail held by another customer: 409; otherwise only that row changes, as `ApplyFields` says |
| CustomerController.DeleteCustomer | backend/controllers/customerController.js:102-117 | absent id: 404; a customer a sale refers to: 500 and no change; otherwise the row is removed and the answer is 204 |
| VentaController.MissingPaths | backend/models/Venta.js:9-20 | `monto` fails `required` when missing; `descripcion` and `categoria` fail when missing or empty |
| VentaController.CreateVenta | backend/controllers/ventaController.js:14-27 | a venta is saved exactly when no required path fails; it holds the body's `monto`, `descripcion` and `categoria` and the current month; otherwise 400 with the failing paths |
| VentaController.KeysOfOccur | backend/controllers/ventaController.js:36-46 | a key is in a grouping exactly when some venta has it |
| VentaController.GroupSum | backend/controllers/ventaController.js:36-46 | the grouping loop's keys are the occurring keys, each value is the sum of `monto` for its key, and the values add up to the grand total |
| VentaController.GroupStep | backend/controllers/ventaController.js:37 | one `acc[k] = (acc[k] \|\| 0) + monto` step keeps the three grouping invariants |
| VentaController.TotalVentas | backend/controllers/ventaController.js:33 | the grand total is non-negative when every `monto` is; its relation to the groupings is stated by `GetEstadisticas` and `CreatedVentaCounts` |
| VentaController.GroupByCategoriaAsWritten | backend/controllers/ventaController.js:36-39 | the as-written grouping never gets a `__proto__` entry and has only occurring categories as keys; `AsWrittenAgreesOffPrototype` and `PrototypeCategoriesBreakGrouping` state where it agrees with and departs from `GroupSum` |
| VentaController.GetEstadisticas | backend/controllers/ventaController.js:30-56 | the total is the sum of `monto`; the category and month groupings hold exactly the occurring keys with their sums, month keys lie in 0..11, and each grouping adds up to the total; no ventas gives 0 and two empty groupings |
| VentaController.CreatedVentaCounts | backend/controllers/ventaController.js:14-46 | saving a venta adds its amount to the total, to its category and to its month, and leaves every other group as it was |
| VentaController.AsWrittenAgreesOffPrototype | backend/controllers/ventaController.js:36-39 | as written, a category that is not an inherited property name gets exactly the intended numeric sum |
| VentaController.PrototypeCategoriesBreakGrouping | backend/controllers/ventaController.js:36-39 | as written, category "constructor" yields the text "function Object() { [native code] }5", and category "__proto__" yields no entry |
| SaleForm.Available | frontend/src/components/SaleForm.jsx:32 | the offered products are exactly those with positive stock |
| SaleForm.FindProduct | frontend/src/components/SaleForm.jsx:57 | the product returned is an offered one with the requested id, and none is returned exactly when no offered product has it |
| SaleForm.FindProductFirst | frontend/src/components/SaleForm.jsx:57 | `find` returns the first offered product with the id, not merely some product with it |
| SaleForm.IndexOf | frontend/src/components/SaleForm.jsx:83 | the first cart index with the product, or none exactly when it is absent |
| SaleForm.AddToCart | frontend/src/components/SaleForm.jsx:46-125 | the selected customer is always kept, and a rejected add keeps the cart and the quantity input; the rest is stated by `AddRejected`, `AddAccepted`, `AddMergesOrAppends` and `AddKeepsCartValid` |
| SaleForm.AddProductToCart | frontend/src/components/SaleForm.jsx:46-125 | the handler with its two searches and its cart copy computes `AddToCart` |
| SaleForm.AddRejected | frontend/src/components/SaleForm.jsx:50-63 | a rejected add keeps cart and inputs; no product or `quantity <= 0` and a product not on offer each give their message |
| SaleForm.AddAccepted | frontend/src/components/SaleForm.jsx:79-118 | a successful add changes the cart, resets the inputs and raises the total by price times the requested quantity |
| SaleForm.AddMergesOrAppends | frontend/src/components/SaleForm.jsx:83-108 | a product in the cart gets old + requested quantity, never above stock; a new product is appended last |
| SaleForm.AddKeepsCartValid | frontend/src/components/SaleForm.jsx:73-108 | an add keeps product ids unique and every quantity within 1..stock |
| SaleForm.CartTotal | frontend/src/components/SaleForm.jsx:132-136 | the total is non-negative when every price and quantity is; how it changes is stated by `CartTotalUpdate`, `MergeTotal`, `AppendTotal` and `AddAccepted` |
| SaleForm.CartTotalUpdate | frontend/src/components/SaleForm.jsx:133 | replacing one entry changes the total by the difference of the two entries' `price * quantity` |
| SaleForm.MergeTotal | frontend/src/components/SaleForm.jsx:133 | raising one entry's quantity by q raises the total by its price times q |
| SaleForm.AppendTotal | frontend/src/components/SaleForm.jsx:133 | appending an entry raises the total by its `price * quantity` |
| SaleForm.RemoveFromCart | frontend/src/components/SaleForm.jsx:129 | what is left is exactly the entries with a different product id |
| SaleForm.RemoveFromCartConcat | frontend/src/components/SaleForm.jsx:129 | removal works piece by piece, so the order of the rest is kept |
| SaleForm.RemoveFromCartAbsent | frontend/src/components/SaleForm.jsx:129 | removing an id the cart lacks keeps the cart |
| SaleForm.RemoveKeepsValid | frontend/src/components/SaleForm.jsx:129 | removal keeps a valid cart valid, with only entries of the cart |
| SaleForm.RemoveProperties | frontend/src/components/SaleForm.jsx:127-130 | removal keeps the cart valid and consistent with the offered products, and removing twice equals removing once |
| SaleForm.AddThenRemove | frontend/src/components/SaleForm.jsx:100-129 | adding a product not in the cart, then removing it, gives back the earlier cart |
| SaleForm.SubmitSale | frontend/src/components/SaleForm.jsx:142-159 | an empty cart or a failed load is refused with its message; otherwise the payload lists `(product_id, quantity)` in cart order with `customer_id` NULL when none is selected |
| SaleForm.SubmittedCartIsValidRequest | frontend/src/components/SaleForm.jsx:156-159 | a valid cart's payload passes the sale controller's item validation and names each product once |
| Comprar.AddToCart | frontend/src/components/Comprar.jsx:35-46 | the ids of the existing entries keep their places, the length grows by one exactly when the product was not in the cart, and the new entry is then last with quantity 1; see `AddIncrementsExisting` and `AddAppendsNew` |
| Comprar.UpdateQuantity | frontend/src/components/Comprar.jsx:52-56 | the length and every entry's id, name, price and stock are kept; see `UpdateQuantityProperties` |
| Comprar.Total | frontend/src/components/Comprar.jsx:58 | the total is non-negative when every price and quantity is; see `TotalUpdate`, `IncrementTotal`, `AddTotalExisting` and `AddTotalNew` |
| Comprar.RemoveFromCart | frontend/src/components/Comprar.jsx:48-50 | what is left is exactly the entries with a different id |
| Comprar.AtLeastOne | frontend/src/components/Comprar.jsx:54 | `Math.max(1, q)` is at least 1 and at least q, and is q when q >= 1 and 1 when q < 1 |
| Comprar.AddIncrementsExisting | frontend/src/components/Comprar.jsx:37-41 | adding a product in the cart raises only its entries, by one, and keeps length and order |
| Comprar.AddAppendsNew | frontend/src/components/Comprar.jsx:42-44 | adding a product not in the cart appends it with quantity 1 |
| Comprar.AddExistingIsUpdate | frontend/src/components/Comprar.jsx:37-41 | with unique ids, that increment changes one entry only |
| Comprar.TotalUpdate | frontend/src/components/Comprar.jsx:58 | replacing one entry changes the total by the difference of the two entries' `price * quantity` |
| Comprar.AddTotalExisting | frontend/src/components/Comprar.jsx:35-58 | with unique ids, adding a product in the cart raises the total by that entry's price |
| Comprar.IncrementTotal | frontend/src/components/Comprar.jsx:58 | raising one entry's quantity by one raises the total by its price |
| Comprar.AddTotalNew | frontend/src/components/Comprar.jsx:35-58 | adding a new product raises the total by its price |
| Comprar.OperationsKeepCartValid | frontend/src/components/Comprar.jsx:35-56 | add, remove and update keep ids unique and quantities at least 1 |
| Comprar.RemoveKeepsValid | frontend/src/components/Comprar.jsx:48-50 | removal keeps a valid cart valid |
| Comprar.RemoveFromCartConcat | frontend/src/components/Comprar.jsx:48-50 | removal works piece by piece, so the order of the rest is kept |
| Comprar.RemoveFromCartAbsent | frontend/src/components/Comprar.jsx:48-50 | removing an absent id keeps the cart |
| Comprar.AddThenRemove | frontend/src/components/Comprar.jsx:35-50 | adding a new product and then removing it gives back the cart |
| Comprar.UpdateQuantityProperties | frontend/src/components/Comprar.jsx:52-56 | length and ids are kept; each matching entry becomes that entry with quantity `max(1, q)` and nothing else changed; the other entries are unchanged; the update is idempotent |
| Comprar.Checkout | frontend/src/components/Comprar.jsx:60-70 | an empty cart does nothing; an empty card field is refused without a request; otherwise the entries are posted in order as `(id, quantity)` with no customer |
| Comprar.CheckoutRequestValid | frontend/src/components/Comprar.jsx:69-70 | a valid cart's request passes the sale controller's validation and names each product once |
| Comprar.Keep | frontend/src/components/Comprar.jsx:136 | the filter keeps only accepted characters and never lengthens the text |
| Comprar.Take | frontend/src/components/Comprar.jsx:136 | `slice(0, n)` is a prefix of length `min(n, length)` |
| Comprar.KeepConcat | frontend/src/components/Comprar.jsx:136 | filtering works piece by piece, so the order of the kept characters is preserved |
| Comprar.KeepAccepted | frontend/src/components/Comprar.jsx:136 | text of accepted characters only passes unchanged |
| Comprar.CardNumberInput | frontend/src/components/Comprar.jsx:136 | the card-number field holds at most 16 characters, all digits, and is never longer than what was typed |
| Comprar.CardExpiryInput | frontend/src/components/Comprar.jsx:145 | the expiry field holds at most 5 characters, each a digit or '/', and is never longer than what was typed |
| Comprar.CardCvvInput | frontend/src/components/Comprar.jsx:153 | the CVV field holds at most 4 characters, all digits, and is never longer than what was typed |
| Comprar.CardFieldsSanitised | frontend/src/components/Comprar.jsx:136-153 | the card number is at most 16 digits, the first ones of the input; expiry is at most 5 digits or '/'; CVV is at most 4 digits; each filter is idempotent |
| Comprar.CardNumberLimit | frontend/src/components/Comprar.jsx:136 | up to 16 digits are kept as typed, and more digits after 16 change nothing |

## Left out

- MySQL itself is not modelled: the pool and connections, SQL text, `JSON_ARRAYAGG` and result shaping. Tables are maps and sequences, and a transaction either commits or leaves them as they were.
- `FOR UPDATE` row locks and concurrent requests are not modelled. Each request runs alone, as the engine's serialisation provides.
- Database faults are not modelled: lost connections, constraint errors other than the unique e-mail and the sales-to-customers foreign key, and everything else that would end in a generic 500. The affectedRows re-checks in `updateProduct` and `deleteProduct`, which cannot fail after the existence check, are not modelled either.
- The post-commit read-back of `createSale` (`customer_name`, `sale_date`) and the `getSales` join are not modelled. The listing is ordered by insertion, which stands for `sale_date`; ties in that timestamp are not modelled.
- Request parameters arrive as text in the source (`req.params.id`, option values). The model uses integers. JSON `null`, values of the wrong type and fractional quantities are not modelled.
- ProductController.NewProduct: the `INSERT` of `createProduct` leaves out `active`, so the row is active only because the column defaults to TRUE. The schema is not part of this model, and that default is assumed.
- CustomerController.DeleteCustomer: the 500 for a customer that sales refer to assumes the sales-to-customers foreign key refuses the delete (`ON DELETE RESTRICT`, MySQL's default). The schema is not part of this model.
- The `console.log` and `console.error` logging of the controllers and components is not modelled, since it changes no state.
- Money is in integer cents. JavaScript floating point, `parseFloat(price) || 0` and `toFixed` are not modelled.
- `getCustomers`, `getVentas` and their ordering are not modelled. Neither are authentication, Express routing or the other React components.
- The storing of ventas in MongoDB is not modelled. `fecha` is represented by its month; the clock is a parameter.
- VentaController.CreateVenta: the 400 reply carries the set of failing paths, not Mongoose's message text; type casting of the body is not modelled.
- VentaController.GetEstadisticas: it uses the intended grouping, not the as-written plain-object accumulator. See Findings.
- CustomerController.CreateCustomer: a failed insert's effect on the auto-increment counter is not modelled.
- CustomerController.CreateCustomer and CustomerController.UpdateCustomer: the unique index on `email` is assumed to compare addresses exactly, as a binary collation does. The schema is not part of this model. Under a case-insensitive collation "Ana@mail.com" and "ana@mail.com" would collide and get 409, and trailing spaces would be ignored; neither case folding nor padding is modelled, so `EmailTaken` and the unique-e-mail part of `WellFormed` use exact equality.
- SaleForm.AddProductToCart: the second quantity check (`parseInt` giving NaN or a value <= 0) cannot fire once the quantity is an integer above 0, so it is not modelled. The `try`/`catch` around `setCart` is left out the same way.
- The inputs the UI disables are not modelled, since the handlers are modelled directly: the add button for a product with no stock in the shop page, and the submit button while an error is shown.
- React state scheduling is not modelled. Each handler is a function from the state before to the state after.
- The form's reset after a successful sale and the redirect after checkout are not modelled.

## Findings

| source | as written | input that shows it | evidently intended | confidence | as-written member | corrected member |
|---|---|---|---|---|---|---|
| backend/controllers/ventaController.js:36-39 | the per-category reduce starts from `{}`, so `acc[categoria]` reads members inherited from `Object.prototype` | one venta with `monto` 5 and `categoria` "constructor" gives the text "function Object() { [native code] }5"; with `categoria` "__proto__" the category disappears | a numeric sum for every category, with no entry missing | high; not executed | VentaController.PrototypeCategoriesBreakGrouping | VentaController.GroupSum |
