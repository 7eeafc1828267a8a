/** `createSale` and `getSales` of the sale controller. A sale is validated
    before any transaction begins; inside the transaction every item is read
    under lock in request order, the total is accumulated from the locked prices,
    the header and one row per item are inserted, and each product's stock is
    written as the locked stock minus the item's quantity. A thrown error rolls
    everything back; the connection is released on every path. */
module SaleController {
  import opened Base
  import opened Database

  /** One element of the body's `items`; a field the client left out is `None`. */
  datatype ItemRequest = ItemRequest(productId: Option<int>, quantity: Option<int>)

  /** The request body. `items` is `None` when it is missing or not an array. */
  datatype SaleRequest = SaleRequest(customerId: Option<int>, items: Option<seq<ItemRequest>>)

  /** What the controller does with its pooled connection, in order. */
  datatype TxEvent = GetConnection | BeginTransaction | Commit | Rollback | Release

  /** 201 with the inserted sale header, or an error status with its message. */
  datatype SaleResponse = Created(sale: Sale) | Failed(status: int, message: string)

  /** An item after its lock-read: quantity, the price and stock seen under lock, and the subtotal. */
  datatype Detail = Detail(productId: int, quantity: int, unitPrice: int, subtotal: int, currentStock: int)

  /** The outcome of one request: the tables afterwards, the response, and the connection's history. */
  datatype SaleRun = SaleRun(tables: Tables, response: SaleResponse, trace: seq<TxEvent>)

  // ---------------------------------------------------------------------------
  // Validation (before the transaction)
  // ---------------------------------------------------------------------------

  /** JavaScript truthiness of an optional number: `undefined` and `0` are falsy. */
  predicate Truthy(x: Option<int>) {
    x.Some? && x.value != 0
  }

  /** An item with a truthy `product_id` and a positive `quantity`. */
  predicate ValidItem(item: ItemRequest) {
    Truthy(item.productId) && item.quantity.Some? && item.quantity.value > 0
  }

  predicate AllValid(items: seq<ItemRequest>) {
    forall i :: 0 <= i < |items| ==> ValidItem(items[i])
  }

  const NoItemsMessage := "Sale must include at least one item."
  const InvalidItemMessage := "Invalid item data. Each item requires product_id and positive quantity."
  const GenericErrorMessage := "Error creating sale"

  function CustomerNotFoundMessage(id: int): string {
    "Customer with ID " + IntToString(id) + " not found."
  }

  function ProductNotFoundMessage(id: int): string {
    "Product with ID " + IntToString(id) + " not found."
  }

  function InsufficientStockMessage(name: string, stock: int): string {
    "Insufficient stock" + (" for product " + name + ". Available: " + IntToString(stock))
  }

  /** The checks made before the transaction, in the order the controller makes them;
      on success, the items to process. */
  function Validate(customers: map<int, Customer>, req: SaleRequest): (r: Result<seq<ItemRequest>, string>)
    ensures r.Ok? <==> (req.items.Some? && |req.items.value| > 0 && AllValid(req.items.value)
                        && (Truthy(req.customerId) ==> req.customerId.value in customers))
    ensures r.Ok? ==> r.value == req.items.value
  {
    if req.items.None? || |req.items.value| == 0 then Err(NoItemsMessage)
    else if exists i :: 0 <= i < |req.items.value| && !ValidItem(req.items.value[i]) then Err(InvalidItemMessage)
    else if Truthy(req.customerId) && req.customerId.value !in customers then
      Err(CustomerNotFoundMessage(req.customerId.value))
    else Ok(req.items.value)
  }

  /** `customer_id || null`. */
  function CustomerRef(customerId: Option<int>): (r: Option<int>)
    ensures r.Some? <==> Truthy(customerId)
    ensures r.Some? ==> r == customerId
  {
    if Truthy(customerId) then customerId else None
  }

  // ---------------------------------------------------------------------------
  // Lock-read phase
  // ---------------------------------------------------------------------------

  /** The item's product exists and its stock covers the quantity. */
  predicate Lockable(products: map<int, Product>, item: ItemRequest)
    requires ValidItem(item)
  {
    item.productId.value in products && products[item.productId.value].stock >= item.quantity.value
  }

  /** The lock-read of one item: the error it throws, or its detail. */
  function LockReadOne(products: map<int, Product>, item: ItemRequest): (r: Result<Detail, string>)
    requires ValidItem(item)
    ensures r.Ok? <==> Lockable(products, item)
  {
    var id := item.productId.value;
    var q := item.quantity.value;
    if id !in products then Err(ProductNotFoundMessage(id))
    else if products[id].stock < q then Err(InsufficientStockMessage(products[id].name, products[id].stock))
    else Ok(Detail(id, q, products[id].price, products[id].price * q, products[id].stock))
  }

  /** The lock-read loop over the items in request order: the first error thrown, or
      one detail per item. Every read sees the stock as it was before the sale, since
      no write happens until the loop is over. */
  function LockRead(products: map<int, Product>, items: seq<ItemRequest>): (r: Result<seq<Detail>, string>)
    requires AllValid(items)
    ensures r.Ok? ==> |r.value| == |items|
  {
    if items == [] then Ok([])
    else
      match LockRead(products, items[..|items| - 1])
      case Err(m) => Err(m)
      case Ok(ds) =>
        match LockReadOne(products, items[|items| - 1])
        case Err(m) => Err(m)
        case Ok(d) => Ok(ds + [d])
  }

  /** `calculatedTotalAmount`: the sum of the subtotals. */
  function Total(ds: seq<Detail>): (r: int)
    ensures (forall k :: 0 <= k < |ds| ==> ds[k].subtotal >= 0) ==> r >= 0
  {
    if ds == [] then 0
    else
      var init := ds[..|ds| - 1];
      assert forall k :: 0 <= k < |init| ==> init[k] == ds[k];
      Total(init) + ds[|ds| - 1].subtotal
  }

  // ---------------------------------------------------------------------------
  // Persist phase
  // ---------------------------------------------------------------------------

  /** The `sale_items` rows inserted for the details, ids allocated from `firstId`. */
  function ItemRows(saleId: int, firstId: int, ds: seq<Detail>): (rows: seq<SaleItem>)
    ensures |rows| == |ds|
  {
    seq(|ds|, k requires 0 <= k < |ds| =>
      SaleItem(firstId + k, saleId, ds[k].productId, ds[k].quantity, ds[k].unitPrice, ds[k].subtotal))
  }

  /** `UPDATE products SET stock = current_stock - quantity WHERE id = ?`, once per detail, in order. */
  function WriteStock(products: map<int, Product>, ds: seq<Detail>): (r: map<int, Product>)
    ensures r.Keys == products.Keys
  {
    if ds == [] then products
    else
      var m := WriteStock(products, ds[..|ds| - 1]);
      var d := ds[|ds| - 1];
      if d.productId in m then m[d.productId := m[d.productId].(stock := d.currentStock - d.quantity)] else m
  }

  /** The committed state: stock written, header and item rows appended, counters advanced. */
  function Persist(t: Tables, sale: Sale, ds: seq<Detail>): (r: Tables)
    ensures r.customers == t.customers && r.products.Keys == t.products.Keys
    ensures |r.sales| == |t.sales| + 1 && |r.saleItems| == |t.saleItems| + |ds|
  {
    t.(products := WriteStock(t.products, ds),
       sales := t.sales + [sale],
       saleItems := t.saleItems + ItemRows(sale.id, t.nextItemId, ds),
       nextSaleId := t.nextSaleId + 1,
       nextItemId := t.nextItemId + |ds|)
  }

  /** A thrown error's response: 400 with its message when it starts with
      "Insufficient stock" or mentions "not found", otherwise a generic 500. */
  function ErrorResponse(message: string): (r: SaleResponse)
    ensures r.Failed? && (r.status == 400 || r.status == 500)
    ensures r.status == 400 <==> StartsWith(message, "Insufficient stock") || Contains(message, "not found")
    ensures r.status == 400 ==> r.message == message
    ensures r.status == 500 ==> r.message == GenericErrorMessage
  {
    if StartsWith(message, "Insufficient stock") || Contains(message, "not found") then Failed(400, message)
    else Failed(500, GenericErrorMessage)
  }

  /** `createSale` as a function of the tables before the request. */
  function CreateSaleSpec(t: Tables, req: SaleRequest): (run: SaleRun)
    ensures run.response.Failed? ==> run.tables == t
    ensures |run.trace| >= 2 && run.trace[0] == GetConnection && run.trace[|run.trace| - 1] == Release
  {
    match Validate(t.customers, req)
    case Err(m) => SaleRun(t, Failed(400, m), [GetConnection, Release])
    case Ok(items) =>
      match LockRead(t.products, items)
      case Err(m) => SaleRun(t, ErrorResponse(m), [GetConnection, BeginTransaction, Rollback, Release])
      case Ok(ds) =>
        var sale := Sale(t.nextSaleId, Total(ds), CustomerRef(req.customerId));
        SaleRun(Persist(t, sale, ds), Created(sale), [GetConnection, BeginTransaction, Commit, Release])
  }

  // ---------------------------------------------------------------------------
  // The controller
  // ---------------------------------------------------------------------------

  /** The per-item validation loop: every item has a truthy product id and a positive quantity. */
  method ValidateItems(items: seq<ItemRequest>) returns (ok: bool)
    ensures ok <==> AllValid(items)
  {
    for i := 0 to |items|
      invariant AllValid(items[..i])
    {
      if !ValidItem(items[i]) {
        return false;
      }
      assert items[..i + 1] == items[..i] + [items[i]];
    }
    assert items[..|items|] == items;
    return true;
  }

  /** The lock-read loop: reads every item's product in request order, stops at the
      first one that is missing or short of stock, and accumulates the total. */
  method LockReadItems(products: map<int, Product>, items: seq<ItemRequest>)
    returns (r: Result<seq<Detail>, string>, total: int)
    requires AllValid(items)
    ensures r == LockRead(products, items)
    ensures r.Ok? ==> total == Total(r.value)
  {
    total := 0;
    var details: seq<Detail> := [];
    for i := 0 to |items|
      invariant LockRead(products, items[..i]) == Ok(details)
      invariant total == Total(details)
    {
      var id := items[i].productId.value;
      var q := items[i].quantity.value;
      assert items[..i + 1][..i] == items[..i];
      if id !in products {
        LockReadKeepsFirstError(products, items, i + 1);
        return Err(ProductNotFoundMessage(id)), total;
      }
      var product := products[id];
      if product.stock < q {
        LockReadKeepsFirstError(products, items, i + 1);
        return Err(InsufficientStockMessage(product.name, product.stock)), total;
      }
      var subtotal := product.price * q;
      total := total + subtotal;
      var d := Detail(id, q, product.price, subtotal, product.stock);
      assert (details + [d])[..|details|] == details;
      details := details + [d];
    }
    assert items[..|items|] == items;
    r := Ok(details);
  }

  /** Inserts the sale header, then one item row per detail, each followed by the
      stock write of its product. */
  method PersistSale(db: Store, sale: Sale, details: seq<Detail>)
    requires sale.id == db.nextSaleId
    modifies db
    ensures db.Snapshot() == Persist(old(db.Snapshot()), sale, details)
  {
    ghost var t := db.Snapshot();
    db.sales := db.sales + [sale];
    db.nextSaleId := db.nextSaleId + 1;
    for k := 0 to |details|
      invariant db.products == WriteStock(t.products, details[..k])
      invariant db.saleItems == t.saleItems + ItemRows(sale.id, t.nextItemId, details[..k])
      invariant db.nextItemId == t.nextItemId + k
      invariant db.sales == t.sales + [sale] && db.nextSaleId == t.nextSaleId + 1
      invariant db.customers == t.customers
      invariant db.nextProductId == t.nextProductId && db.nextCustomerId == t.nextCustomerId
    {
      var d := details[k];
      var row := SaleItem(db.nextItemId, sale.id, d.productId, d.quantity, d.unitPrice, d.subtotal);
      assert details[..k + 1][..k] == details[..k];
      assert ItemRows(sale.id, t.nextItemId, details[..k + 1]) == ItemRows(sale.id, t.nextItemId, details[..k]) + [row];
      db.saleItems := db.saleItems + [row];
      db.nextItemId := db.nextItemId + 1;
      var newStock := d.currentStock - d.quantity;
      if d.productId in db.products {
        db.products := db.products[d.productId := db.products[d.productId].(stock := newStock)];
      }
    }
    assert details[..|details|] == details;
  }

  /** `POST /sales`. */
  method CreateSale(db: Store, req: SaleRequest) returns (response: SaleResponse, trace: seq<TxEvent>)
    requires db.Valid()
    modifies db
    ensures db.Valid()
    ensures SaleRun(db.Snapshot(), response, trace) == CreateSaleSpec(old(db.Snapshot()), req)
  {
    CreateSaleKeepsWellFormed(db.Snapshot(), req);
    trace := [GetConnection];

    // input validation, before any transaction
    if req.items.None? || |req.items.value| == 0 {
      response := Failed(400, NoItemsMessage);
      trace := trace + [Release];
      return;
    }
    var items := req.items.value;
    var ok := ValidateItems(items);
    if !ok {
      response := Failed(400, InvalidItemMessage);
      trace := trace + [Release];
      return;
    }
    if Truthy(req.customerId) && req.customerId.value !in db.customers {
      response := Failed(400, CustomerNotFoundMessage(req.customerId.value));
      trace := trace + [Release];
      return;
    }

    trace := trace + [BeginTransaction];
    var read, total := LockReadItems(db.products, items);
    if read.Err? {
      // the thrown error: roll back and map its message to a status
      response := ErrorResponse(read.error);
      trace := trace + [Rollback, Release];
      return;
    }
    var sale := Sale(db.nextSaleId, total, CustomerRef(req.customerId));
    PersistSale(db, sale, read.value);
    trace := trace + [Commit, Release];
    response := Created(sale);
  }

  // ---------------------------------------------------------------------------
  // Lemmas about the lock-read loop
  // ---------------------------------------------------------------------------

  /** Once a prefix of the items has thrown, the whole loop throws the same error. */
  lemma {:induction false} LockReadKeepsFirstError(products: map<int, Product>, items: seq<ItemRequest>, k: nat)
    requires AllValid(items) && 0 < k <= |items|
    requires LockRead(products, items[..k]).Err?
    ensures LockRead(products, items) == LockRead(products, items[..k])
    decreases |items| - k
  {
    if k < |items| {
      var init := items[..|items| - 1];
      assert init[..k] == items[..k];
      LockReadKeepsFirstError(products, init, k);
    } else {
      assert items[..k] == items;
    }
  }

  /** The loop succeeds exactly when every item's product exists with enough stock. */
  lemma {:induction false} LockReadSucceedsIff(products: map<int, Product>, items: seq<ItemRequest>)
    requires AllValid(items)
    ensures LockRead(products, items).Ok? <==> forall i :: 0 <= i < |items| ==> Lockable(products, items[i])
  {
    if items != [] {
      var init := items[..|items| - 1];
      LockReadSucceedsIff(products, init);
      assert forall i :: 0 <= i < |init| ==> init[i] == items[i];
    }
  }

  /** The detail of a successful lock-read of `item`. */
  predicate ReadUnderLock(products: map<int, Product>, item: ItemRequest, d: Detail)
    requires ValidItem(item)
  {
    var id := item.productId.value;
    var q := item.quantity.value;
    && id in products
    && products[id].stock >= q
    && d == Detail(id, q, products[id].price, products[id].price * q, products[id].stock)
  }

  /** On success there is one detail per item, in request order, each carrying the
      product's price and stock as they were before the sale. */
  lemma {:induction false} LockReadDetails(products: map<int, Product>, items: seq<ItemRequest>)
    requires AllValid(items) && LockRead(products, items).Ok?
    ensures |LockRead(products, items).value| == |items|
    ensures forall i :: 0 <= i < |items| ==> ReadUnderLock(products, items[i], LockRead(products, items).value[i])
  {
    if items != [] {
      var init := items[..|items| - 1];
      LockReadDetails(products, init);
      assert forall i :: 0 <= i < |init| ==> init[i] == items[i];
    }
  }

  /** On failure the error is the one thrown by the first item that cannot be read. */
  lemma {:induction false} LockReadFirstError(products: map<int, Product>, items: seq<ItemRequest>, i: nat)
    requires AllValid(items) && i < |items|
    requires !Lockable(products, items[i])
    requires forall j :: 0 <= j < i ==> Lockable(products, items[j])
    ensures LockRead(products, items) == Err(LockReadOne(products, items[i]).error)
  {
    var init := items[..|items| - 1];
    assert forall j :: 0 <= j < |init| ==> init[j] == items[j];
    if i < |items| - 1 {
      LockReadFirstError(products, init, i);
    } else {
      LockReadSucceedsIff(products, init);
    }
  }

  lemma ProductNotFoundIsBadRequest(id: int)
    ensures ErrorResponse(ProductNotFoundMessage(id)) == Failed(400, ProductNotFoundMessage(id))
  {
    var prefix := "Product with ID " + IntToString(id) + " ";
    assert ProductNotFoundMessage(id) == prefix + "not found" + ".";
    ContainsInfix(prefix, "not found", ".");
  }

  lemma InsufficientStockIsBadRequest(name: string, stock: int)
    ensures ErrorResponse(InsufficientStockMessage(name, stock)) == Failed(400, InsufficientStockMessage(name, stock))
  {
    PrefixOfConcat("Insufficient stock", " for product " + name + ". Available: " + IntToString(stock));
  }

  /** Every error the loop throws maps to status 400 and keeps its message. */
  lemma {:induction false} LockReadErrorsAreBadRequests(products: map<int, Product>, items: seq<ItemRequest>)
    requires AllValid(items) && LockRead(products, items).Err?
    ensures ErrorResponse(LockRead(products, items).error) == Failed(400, LockRead(products, items).error)
  {
    var init := items[..|items| - 1];
    if LockRead(products, init).Err? {
      LockReadErrorsAreBadRequests(products, init);
    } else {
      var id := items[|items| - 1].productId.value;
      if id !in products {
        ProductNotFoundIsBadRequest(id);
      } else {
        InsufficientStockIsBadRequest(products[id].name, products[id].stock);
      }
    }
  }

  /** The sale total is the sum of the item subtotals. */
  function SumSubtotals(rows: seq<SaleItem>): int {
    if rows == [] then 0 else SumSubtotals(rows[..|rows| - 1]) + rows[|rows| - 1].subtotal
  }

  lemma {:induction false} TotalIsSumOfItemRows(saleId: int, firstId: int, ds: seq<Detail>)
    ensures Total(ds) == SumSubtotals(ItemRows(saleId, firstId, ds))
  {
    if ds != [] {
      var init := ds[..|ds| - 1];
      TotalIsSumOfItemRows(saleId, firstId, init);
      assert ItemRows(saleId, firstId, ds)[..|ds| - 1] == ItemRows(saleId, firstId, init);
    }
  }

  /** `Σ price * quantity` over the request, with each price read from `products`. */
  ghost function RequestTotal(products: map<int, Product>, items: seq<ItemRequest>): int
    requires AllValid(items)
    requires forall i :: 0 <= i < |items| ==> items[i].productId.value in products
  {
    if items == [] then 0
    else
      var item := items[|items| - 1];
      RequestTotal(products, items[..|items| - 1]) + products[item.productId.value].price * item.quantity.value
  }

  lemma {:induction false} TotalIsRequestTotal(products: map<int, Product>, items: seq<ItemRequest>)
    requires AllValid(items) && LockRead(products, items).Ok?
    ensures forall i :: 0 <= i < |items| ==> items[i].productId.value in products
    ensures Total(LockRead(products, items).value) == RequestTotal(products, items)
  {
    LockReadDetails(products, items);
    if items != [] {
      var init := items[..|items| - 1];
      assert forall j :: 0 <= j < |init| ==> init[j] == items[j];
      TotalIsRequestTotal(products, init);
    }
  }

  // ---------------------------------------------------------------------------
  // Lemmas about the stock writes
  // ---------------------------------------------------------------------------

  /** The index of the last id equal to `id`, or -1. */
  function LastIndex(ids: seq<int>, id: int): (r: int)
    ensures -1 <= r < |ids|
    ensures r >= 0 ==> ids[r] == id && forall j :: r < j < |ids| ==> ids[j] != id
    ensures r < 0 ==> forall j :: 0 <= j < |ids| ==> ids[j] != id
  {
    if ids == [] then -1
    else if ids[|ids| - 1] == id then |ids| - 1
    else LastIndex(ids[..|ids| - 1], id)
  }

  function DetailIds(ds: seq<Detail>): (ids: seq<int>)
    ensures |ids| == |ds| && forall k :: 0 <= k < |ds| ==> ids[k] == ds[k].productId
  {
    seq(|ds|, k requires 0 <= k < |ds| => ds[k].productId)
  }

  function RequestIds(items: seq<ItemRequest>): (ids: seq<int>)
    requires AllValid(items)
    ensures |ids| == |items| && forall k :: 0 <= k < |items| ==> ids[k] == items[k].productId.value
  {
    seq(|items|, k requires 0 <= k < |items| && ValidItem(items[k]) => items[k].productId.value)
  }

  /** Last write wins: a product's row ends with the stock written by the last detail
      that names it, computed from the stock it had before the loop. */
  lemma {:induction false} WriteStockLastWins(products: map<int, Product>, ds: seq<Detail>, id: int)
    ensures id in WriteStock(products, ds) <==> id in products
    ensures id in products ==>
      var j := LastIndex(DetailIds(ds), id);
      WriteStock(products, ds)[id]
        == if j < 0 then products[id] else products[id].(stock := ds[j].currentStock - ds[j].quantity)
  {
    if ds != [] {
      var init := ds[..|ds| - 1];
      WriteStockLastWins(products, init, id);
      assert DetailIds(ds)[..|ds| - 1] == DetailIds(init);
    }
  }

  predicate DistinctIds(ids: seq<int>) {
    forall i, j :: 0 <= i < j < |ids| ==> ids[i] != ids[j]
  }

  // ---------------------------------------------------------------------------
  // Lemmas about createSale
  // ---------------------------------------------------------------------------

  /** A missing, non-array or empty `items` is refused before any transaction. */
  lemma EmptyItemsRejected(t: Tables, req: SaleRequest)
    requires req.items.None? || req.items.value == []
    ensures CreateSaleSpec(t, req) == SaleRun(t, Failed(400, NoItemsMessage), [GetConnection, Release])
  {
  }

  /** An item without a truthy product id or a positive quantity is refused before any transaction. */
  lemma InvalidItemRejected(t: Tables, req: SaleRequest, i: nat)
    requires req.items.Some? && i < |req.items.value| && !ValidItem(req.items.value[i])
    ensures CreateSaleSpec(t, req) == SaleRun(t, Failed(400, InvalidItemMessage), [GetConnection, Release])
  {
  }

  /** A truthy `customer_id` that names no customer is refused before any transaction. */
  lemma UnknownCustomerRejected(t: Tables, req: SaleRequest)
    requires req.items.Some? && |req.items.value| > 0 && AllValid(req.items.value)
    requires Truthy(req.customerId) && req.customerId.value !in t.customers
    ensures CreateSaleSpec(t, req)
         == SaleRun(t, Failed(400, CustomerNotFoundMessage(req.customerId.value)), [GetConnection, Release])
  {
  }

  /** An unknown product or a short stock in any item rolls the whole sale back: no
      header, no item rows and no stock change, answered with 400 and the message of
      the first item that failed. */
  lemma {:induction false} LockFailureRollsBack(t: Tables, req: SaleRequest, i: nat)
    requires Validate(t.customers, req).Ok?
    requires i < |req.items.value| && !Lockable(t.products, req.items.value[i])
    requires forall j :: 0 <= j < i ==> Lockable(t.products, req.items.value[j])
    ensures var m := LockReadOne(t.products, req.items.value[i]).error;
            CreateSaleSpec(t, req) == SaleRun(t, Failed(400, m), [GetConnection, BeginTransaction, Rollback, Release])
  {
    LockReadFirstError(t.products, req.items.value, i);
    LockReadErrorsAreBadRequests(t.products, req.items.value);
  }

  /** A sale is committed exactly when validation passes and every item can be read
      under lock; any other outcome leaves every table as it was. */
  lemma {:induction false} CommitIff(t: Tables, req: SaleRequest)
    ensures CreateSaleSpec(t, req).response.Created? <==>
      (Validate(t.customers, req).Ok?
       && forall i :: 0 <= i < |req.items.value| ==> Lockable(t.products, req.items.value[i]))
    ensures !CreateSaleSpec(t, req).response.Created? ==> CreateSaleSpec(t, req).tables == t
    ensures CreateSaleSpec(t, req).response.Failed? ==> CreateSaleSpec(t, req).response.status in {400, 500}
  {
    if Validate(t.customers, req).Ok? {
      LockReadSucceedsIff(t.products, req.items.value);
    }
  }

  /** The connection is taken first and released last, exactly once; a transaction is
      begun only after validation passes, committed only for a created sale, and rolled
      back on every failure inside it. */
  lemma ConnectionLifecycle(t: Tables, req: SaleRequest)
    ensures var tr := CreateSaleSpec(t, req).trace;
      && |tr| >= 2 && tr[0] == GetConnection && tr[|tr| - 1] == Release
      && (forall k :: 0 <= k < |tr| - 1 ==> tr[k] != Release)
      && (BeginTransaction in tr <==> Validate(t.customers, req).Ok?)
      && (Commit in tr <==> CreateSaleSpec(t, req).response.Created?)
      && (Rollback in tr <==> BeginTransaction in tr && !CreateSaleSpec(t, req).response.Created?)
  {
  }

  /** On success: one new header with the next sale id, the customer reference (null
      when falsy), and a total equal to `Σ price * quantity` over the request at the
      prices read under lock; the customers table is untouched. */
  lemma {:induction false} CommittedSaleHeader(t: Tables, req: SaleRequest)
    requires CreateSaleSpec(t, req).response.Created?
    ensures Validate(t.customers, req).Ok?
    ensures forall i :: 0 <= i < |req.items.value| ==> req.items.value[i].productId.value in t.products
    ensures var run := CreateSaleSpec(t, req);
      && run.response.sale == Sale(t.nextSaleId, RequestTotal(t.products, req.items.value), CustomerRef(req.customerId))
      && run.tables.sales == t.sales + [run.response.sale]
      && run.tables.customers == t.customers
  {
    TotalIsRequestTotal(t.products, req.items.value);
  }

  /** On success: exactly one item row per request item, in request order, each with
      the new sale's id, the locked unit price and `subtotal = unit_price * quantity`;
      the header's total is the sum of those subtotals. */
  lemma {:induction false} CommittedItemRows(t: Tables, req: SaleRequest)
    requires CreateSaleSpec(t, req).response.Created?
    ensures Validate(t.customers, req).Ok?
    ensures var run := CreateSaleSpec(t, req);
      var items := req.items.value;
      var n := |t.saleItems|;
      && |run.tables.saleItems| == n + |items|
      && run.tables.saleItems[..n] == t.saleItems
      && (forall i :: 0 <= i < |items| ==>
            var row := run.tables.saleItems[n + i];
            && row.id == t.nextItemId + i
            && row.saleId == run.response.sale.id
            && row.productId == items[i].productId.value
            && row.productId in t.products
            && row.quantity == items[i].quantity.value
            && row.unitPrice == t.products[row.productId].price
            && row.subtotal == row.unitPrice * row.quantity)
      && run.response.sale.totalAmount == SumSubtotals(run.tables.saleItems[n..])
  {
    var items := req.items.value;
    LockReadDetails(t.products, items);
    var ds := LockRead(t.products, items).value;
    var run := CreateSaleSpec(t, req);
    assert run.tables.saleItems[|t.saleItems|..] == ItemRows(t.nextSaleId, t.nextItemId, ds);
    TotalIsSumOfItemRows(t.nextSaleId, t.nextItemId, ds);
  }

  /** On success every product keeps its row; a product named by the request ends with
      its pre-sale stock minus the quantity of the LAST item naming it, and any other
      product is untouched. */
  lemma {:induction false} CommittedStock(t: Tables, req: SaleRequest, id: int)
    requires CreateSaleSpec(t, req).response.Created?
    ensures Validate(t.customers, req).Ok?
    ensures var run := CreateSaleSpec(t, req);
      var items := req.items.value;
      var j := LastIndex(RequestIds(items), id);
      && (id in run.tables.products <==> id in t.products)
      && (id in t.products ==>
            run.tables.products[id]
              == if j < 0 then t.products[id]
                 else t.products[id].(stock := t.products[id].stock - items[j].quantity.value))
  {
    var items := req.items.value;
    LockReadDetails(t.products, items);
    var ds := LockRead(t.products, items).value;
    WriteStockLastWins(t.products, ds, id);
    assert DetailIds(ds) == RequestIds(items);
  }

  /** Even with repeated ids, a committed sale leaves every product it names with a
      non-negative stock: the last write subtracts a quantity that was checked against
      the stock read under lock. */
  lemma CommittedStockNonNegative(t: Tables, req: SaleRequest, i: nat)
    requires CreateSaleSpec(t, req).response.Created?
    requires Validate(t.customers, req).Ok? && i < |req.items.value|
    ensures var id := req.items.value[i].productId.value;
      id in CreateSaleSpec(t, req).tables.products && CreateSaleSpec(t, req).tables.products[id].stock >= 0
  {
    var items := req.items.value;
    var id := items[i].productId.value;
    CommitIff(t, req);
    CommittedStock(t, req, id);
    var j := LastIndex(RequestIds(items), id);
    assert j >= 0 by { assert RequestIds(items)[i] == id; }
    assert Lockable(t.products, items[j]);
  }

  /** With distinct product ids, each referenced product's stock drops by exactly its
      item's quantity and stays non-negative. */
  lemma {:induction false} DistinctItemsStock(t: Tables, req: SaleRequest, i: nat)
    requires CreateSaleSpec(t, req).response.Created?
    requires Validate(t.customers, req).Ok? && DistinctIds(RequestIds(req.items.value))
    requires i < |req.items.value|
    ensures var run := CreateSaleSpec(t, req);
      var id := req.items.value[i].productId.value;
      && id in t.products && id in run.tables.products
      && run.tables.products[id] == t.products[id].(stock := t.products[id].stock - req.items.value[i].quantity.value)
      && run.tables.products[id].stock >= 0
  {
    var items := req.items.value;
    var id := items[i].productId.value;
    LockReadDetails(t.products, items);
    CommittedStock(t, req, id);
    var j := LastIndex(RequestIds(items), id);
    assert j == i;
  }

  /** As written, a request naming one product twice passes both stock checks against
      the original stock and the last write wins: five in stock, two items of three,
      six sold, and the stock ends at two. */
  lemma DuplicateProductOversells()
    ensures
      var t := EmptyTables().(products := map[1 := Product("Pen", None, 150, 5, true)], nextProductId := 2);
      var req := SaleRequest(None, Some([ItemRequest(Some(1), Some(3)), ItemRequest(Some(1), Some(3))]));
      var run := CreateSaleSpec(t, req);
      && run.response.Created?
      && run.response.sale.totalAmount == 900
      && |run.tables.saleItems| == 2
      && run.tables.saleItems[0].quantity + run.tables.saleItems[1].quantity == 6
      && 1 in run.tables.products && run.tables.products[1].stock == 2
  {
    var t := EmptyTables().(products := map[1 := Product("Pen", None, 150, 5, true)], nextProductId := 2);
    var item := ItemRequest(Some(1), Some(3));
    var req := SaleRequest(None, Some([item, item]));
    var d := Detail(1, 3, 150, 450, 5);
    assert AllValid([item, item]);
    assert Validate(t.customers, req) == Ok([item, item]);
    DuplicateRead();
    DuplicateWrite();
    assert ItemRows(1, 1, [d, d])[0].quantity == 3 && ItemRows(1, 1, [d, d])[1].quantity == 3;
  }

  /** The two reads of the example both see the stock of five. */
  lemma DuplicateRead()
    ensures AllValid([ItemRequest(Some(1), Some(3)), ItemRequest(Some(1), Some(3))])
    ensures LockRead(map[1 := Product("Pen", None, 150, 5, true)],
                     [ItemRequest(Some(1), Some(3)), ItemRequest(Some(1), Some(3))])
            == Ok([Detail(1, 3, 150, 450, 5), Detail(1, 3, 150, 450, 5)])
    ensures Total([Detail(1, 3, 150, 450, 5), Detail(1, 3, 150, 450, 5)]) == 900
  {
    var products := map[1 := Product("Pen", None, 150, 5, true)];
    var item := ItemRequest(Some(1), Some(3));
    var items := [item, item];
    var d := Detail(1, 3, 150, 450, 5);
    assert Lockable(products, items[0]) && Lockable(products, items[1]);
    LockReadSucceedsIff(products, items);
    LockReadDetails(products, items);
    var ds := LockRead(products, items).value;
    assert ReadUnderLock(products, items[0], ds[0]) && ReadUnderLock(products, items[1], ds[1]);
    assert ds == [d, d];
    assert [d, d][..1] == [d] && [d][..0] == [];
  }

  /** Both writes of the example store 5 - 3, so the last one leaves two in stock. */
  lemma DuplicateWrite()
    ensures var stock := WriteStock(map[1 := Product("Pen", None, 150, 5, true)],
                                    [Detail(1, 3, 150, 450, 5), Detail(1, 3, 150, 450, 5)]);
            1 in stock && stock[1].stock == 2
  {
    var products := map[1 := Product("Pen", None, 150, 5, true)];
    var d := Detail(1, 3, 150, 450, 5);
    assert [d][..0] == [] && [d, d][..1] == [d];
    assert WriteStock(products, []) == products;
    assert 1 in WriteStock(products, [d]) && WriteStock(products, [d])[1].stock == 2;
  }

  /** The lock-read does not look at `active`: a soft-deleted product can still be sold. */
  lemma InactiveProductSold()
    ensures
      var t := EmptyTables().(products := map[1 := Product("Pen", None, 150, 5, false)], nextProductId := 2);
      var req := SaleRequest(None, Some([ItemRequest(Some(1), Some(2))]));
      var run := CreateSaleSpec(t, req);
      run.response.Created? && run.tables.products[1].stock == 3 && !run.tables.products[1].active
  {
    var items := [ItemRequest(Some(1), Some(2))];
    assert items[..0] == [];
    var d := Detail(1, 2, 150, 300, 5);
    assert [d][..0] == [];
  }

  /** `createSale` keeps the database's invariants, foreign keys included. */
  lemma CreateSaleKeepsWellFormed(t: Tables, req: SaleRequest)
    requires WellFormed(t)
    ensures WellFormed(CreateSaleSpec(t, req).tables)
  {
    if CreateSaleSpec(t, req).response.Created? {
      var items := req.items.value;
      LockReadDetails(t.products, items);
      var ds := LockRead(t.products, items).value;
      assert forall k :: 0 <= k < |ds| ==> ds[k].productId in t.products by {
        forall k | 0 <= k < |ds|
          ensures ds[k].productId in t.products
        {
          assert ReadUnderLock(t.products, items[k], ds[k]);
        }
      }
      PersistKeepsWellFormed(t, Sale(t.nextSaleId, Total(ds), CustomerRef(req.customerId)), ds);
    }
  }

  /** Inserting a header with the next sale id and an existing or NULL customer, with
      item rows naming existing products, keeps the tables well formed. */
  lemma PersistKeepsWellFormed(t: Tables, sale: Sale, ds: seq<Detail>)
    requires WellFormed(t) && sale.id == t.nextSaleId
    requires sale.customerId.Some? ==> sale.customerId.value in t.customers
    requires forall k :: 0 <= k < |ds| ==> ds[k].productId in t.products
    ensures WellFormed(Persist(t, sale, ds))
  {
    var u := Persist(t, sale, ds);
    forall id
      ensures id in u.products <==> id in t.products
    {
      WriteStockLastWins(t.products, ds, id);
    }
    AppendSale(t.sales, sale, t.nextSaleId, t.customers);
    AppendItemRows(t.saleItems, sale.id, t.nextItemId, ds, t.products, u.sales);
  }

  /** The header appended with the next id keeps the ids ordered and below the counter. */
  lemma AppendSale(sales: seq<Sale>, sale: Sale, next: int, customers: map<int, Customer>)
    requires forall i :: 0 <= i < |sales| ==> 1 <= sales[i].id < next
    requires forall i, j :: 0 <= i < j < |sales| ==> sales[i].id < sales[j].id
    requires forall i :: 0 <= i < |sales| && sales[i].customerId.Some? ==> sales[i].customerId.value in customers
    requires 1 <= next && sale.id == next
    requires sale.customerId.Some? ==> sale.customerId.value in customers
    ensures var u := sales + [sale];
      && (forall i :: 0 <= i < |u| ==> 1 <= u[i].id < next + 1)
      && (forall i, j :: 0 <= i < j < |u| ==> u[i].id < u[j].id)
      && (forall i :: 0 <= i < |u| && u[i].customerId.Some? ==> u[i].customerId.value in customers)
      && IsSaleId(u, sale.id)
      && (forall id :: IsSaleId(sales, id) ==> IsSaleId(u, id))
  {
    var u := sales + [sale];
    assert u[|sales|] == sale;
    forall id | IsSaleId(sales, id)
      ensures IsSaleId(u, id)
    {
      var i :| 0 <= i < |sales| && sales[i].id == id;
      assert u[i] == sales[i];
    }
  }

  /** The appended item rows get fresh ids, name existing products and the new sale. */
  lemma AppendItemRows(items: seq<SaleItem>, saleId: int, firstId: int, ds: seq<Detail>,
                       products: map<int, Product>, sales: seq<Sale>)
    requires 1 <= firstId && forall k :: 0 <= k < |items| ==> 1 <= items[k].id < firstId
    requires forall k :: 0 <= k < |items| ==> items[k].productId in products
    requires forall k :: 0 <= k < |items| ==> IsSaleId(sales, items[k].saleId)
    requires forall k :: 0 <= k < |ds| ==> ds[k].productId in products
    requires IsSaleId(sales, saleId)
    ensures var u := items + ItemRows(saleId, firstId, ds);
      && (forall k :: 0 <= k < |u| ==> 1 <= u[k].id < firstId + |ds|)
      && (forall k :: 0 <= k < |u| ==> u[k].productId in products)
      && (forall k :: 0 <= k < |u| ==> IsSaleId(sales, u[k].saleId))
  {
    var rows := ItemRows(saleId, firstId, ds);
    var u := items + rows;
    assert forall k :: 0 <= k < |rows| ==>
      rows[k].id == firstId + k && rows[k].saleId == saleId && rows[k].productId == ds[k].productId;
    assert forall k :: |items| <= k < |u| ==> u[k] == rows[k - |items|];
  }

  // ---------------------------------------------------------------------------
  // getSales
  // ---------------------------------------------------------------------------

  /** `GET /sales` ordered newest first: the sales in reverse insertion order. The
      ensures only say what reversal is; the ordering the query promises is
      `NewestFirstByDescendingId`. */
  function SalesNewestFirst(sales: seq<Sale>): (r: seq<Sale>)
    ensures |r| == |sales|
    ensures forall i :: 0 <= i < |r| ==> r[i] == sales[|sales| - 1 - i]
  {
    seq(|sales|, i requires 0 <= i < |sales| => sales[|sales| - 1 - i])
  }

  /** Since sale ids grow with insertion, the listing's ids strictly decrease. */
  lemma NewestFirstByDescendingId(t: Tables)
    requires WellFormed(t)
    ensures forall i, j :: 0 <= i < j < |t.sales| ==> SalesNewestFirst(t.sales)[i].id > SalesNewestFirst(t.sales)[j].id
  {
  }
}
