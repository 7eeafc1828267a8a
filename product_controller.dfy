/** The product controller: list and fetch active products, create with
    field-presence validation, update only the supplied fields, and soft delete
    (the row stays, `active` becomes false). */
module ProductController {
  import opened Base
  import opened Database

  /** The request body; a field the client left out is `None`. The same shape
      serves as the update descriptor `fieldsToUpdate`, which holds exactly the
      supplied fields. */
  datatype ProductBody = ProductBody(name: Option<string>, description: Option<string>, price: Option<int>, stock: Option<int>)

  /** 200 with a row, 201 with the new id and the body's fields as sent, 204, or an
      error status with its message. */
  datatype ProductReply =
    | Found(id: int, product: Product)
    | Created(id: int, sent: ProductBody)
    | NoContent
    | Failed(status: int, message: string)

  const NotFoundMessage := "Product not found"
  const MissingFieldsMessage := "Missing required fields: name, price, stock"
  const NoFieldsMessage := "No fields provided for update"
  const NotFoundOrDeletedMessage := "Product not found or already deleted"

  const NoFields := ProductBody(None, None, None, None)

  /** `GET /products`: the rows whose `active` flag is set, unchanged. */
  function ActiveProducts(products: map<int, Product>): (r: map<int, Product>)
    ensures forall id :: id in r <==> id in products && products[id].active
    ensures forall id :: id in r ==> r[id] == products[id]
  {
    map id | id in products && products[id].active :: products[id]
  }

  /** `GET /products/:id`: 404 when the row is absent or soft-deleted. */
  function GetProductById(products: map<int, Product>, id: int): (r: ProductReply)
    ensures r.Found? <==> id in products && products[id].active
    ensures r.Found? ==> r.id == id && r.product == products[id]
    ensures !r.Found? ==> r == Failed(404, NotFoundMessage)
  {
    if id in products && products[id].active then Found(id, products[id]) else Failed(404, NotFoundMessage)
  }

  /** Fetching one product and listing them agree: an id is found exactly when it is
      listed, with the same row. */
  lemma GetByIdAgreesWithList(products: map<int, Product>, id: int)
    ensures GetProductById(products, id).Found? <==> id in ActiveProducts(products)
    ensures GetProductById(products, id).Found? ==> GetProductById(products, id).product == ActiveProducts(products)[id]
  {
  }

  /** `!name || !price || stock === undefined`: an empty name and a zero price count as missing. */
  predicate MissingRequired(body: ProductBody) {
    body.name.None? || body.name.value == "" || body.price.None? || body.price.value == 0 || body.stock.None?
  }

  /** The row `createProduct` inserts; `active` takes its column default, TRUE. */
  function NewProduct(body: ProductBody): (p: Product)
    requires !MissingRequired(body)
    ensures p.active && p.name != "" && p.price != 0
    ensures Some(p.name) == body.name && p.description == body.description
    ensures Some(p.price) == body.price && Some(p.stock) == body.stock
  {
    Product(body.name.value, body.description, body.price.value, body.stock.value, true)
  }

  /** `POST /products`. */
  method CreateProduct(db: Store, body: ProductBody) returns (reply: ProductReply)
    requires db.Valid()
    modifies db
    ensures db.Valid()
    ensures MissingRequired(body) ==>
      reply == Failed(400, MissingFieldsMessage) && db.Snapshot() == old(db.Snapshot())
    ensures !MissingRequired(body) ==>
      var id := old(db.nextProductId);
      && id !in old(db.products)
      && reply == Created(id, body)
      && db.Snapshot() == old(db.Snapshot()).(products := old(db.products)[id := NewProduct(body)], nextProductId := id + 1)
  {
    if MissingRequired(body) {
      return Failed(400, MissingFieldsMessage);
    }
    var id := db.nextProductId;
    var row := NewProduct(body);
    db.products := db.products[id := row];
    db.nextProductId := id + 1;
    reply := Created(id, body);
  }

  /** `UPDATE products SET ? WHERE id = ?` with the descriptor: the supplied fields
      are overwritten, every other column (the `active` flag among them) is kept. */
  function ApplyPatch(p: Product, fields: ProductBody): (r: Product)
    ensures r.active == p.active
    ensures fields.name.Some? ==> r.name == fields.name.value
    ensures fields.name.None? ==> r.name == p.name
    ensures fields.description.Some? ==> r.description == fields.description
    ensures fields.description.None? ==> r.description == p.description
    ensures fields.price.Some? ==> r.price == fields.price.value
    ensures fields.price.None? ==> r.price == p.price
    ensures fields.stock.Some? ==> r.stock == fields.stock.value
    ensures fields.stock.None? ==> r.stock == p.stock
  {
    Product(
      if fields.name.Some? then fields.name.value else p.name,
      if fields.description.Some? then fields.description else p.description,
      if fields.price.Some? then fields.price.value else p.price,
      if fields.stock.Some? then fields.stock.value else p.stock,
      p.active)
  }

  /** Applying the same update twice is the same as applying it once, and updating
      with every field supplied forgets the previous values except the flag. */
  lemma ApplyPatchIdempotent(p: Product, fields: ProductBody)
    ensures ApplyPatch(ApplyPatch(p, fields), fields) == ApplyPatch(p, fields)
    ensures fields == NoFields ==> ApplyPatch(p, fields) == p
  {
  }

  /** `PUT /products/:id`. The existence check ignores `active`, so a soft-deleted
      row can still be updated; it comes before the empty-descriptor check. */
  method UpdateProduct(db: Store, id: int, body: ProductBody) returns (reply: ProductReply)
    requires db.Valid()
    modifies db
    ensures db.Valid()
    ensures id !in old(db.products) ==>
      reply == Failed(404, NotFoundMessage) && db.Snapshot() == old(db.Snapshot())
    ensures id in old(db.products) && body == NoFields ==>
      reply == Failed(400, NoFieldsMessage) && db.Snapshot() == old(db.Snapshot())
    ensures id in old(db.products) && body != NoFields ==>
      var row := ApplyPatch(old(db.products)[id], body);
      && reply == Found(id, row)
      && db.Snapshot() == old(db.Snapshot()).(products := old(db.products)[id := row])
  {
    if id !in db.products {
      return Failed(404, NotFoundMessage);
    }
    // the descriptor, field by field
    var fields := NoFields;
    if body.name.Some? { fields := fields.(name := body.name); }
    if body.description.Some? { fields := fields.(description := body.description); }
    if body.price.Some? { fields := fields.(price := body.price); }
    if body.stock.Some? { fields := fields.(stock := body.stock); }
    if fields == NoFields {
      return Failed(400, NoFieldsMessage);
    }
    var row := ApplyPatch(db.products[id], fields);
    db.products := db.products[id := row];
    reply := Found(id, row);
  }

  /** `DELETE /products/:id`: only an existing active row can be deleted; it stays in
      the table with `active` cleared. */
  method DeleteProduct(db: Store, id: int) returns (reply: ProductReply)
    requires db.Valid()
    modifies db
    ensures db.Valid()
    ensures id in old(db.products) && old(db.products)[id].active ==>
      && reply == NoContent
      && db.Snapshot() == old(db.Snapshot()).(products := old(db.products)[id := old(db.products)[id].(active := false)])
    ensures !(id in old(db.products) && old(db.products)[id].active) ==>
      reply == Failed(404, NotFoundOrDeletedMessage) && db.Snapshot() == old(db.Snapshot())
  {
    if !(id in db.products && db.products[id].active) {
      return Failed(404, NotFoundOrDeletedMessage);
    }
    db.products := db.products[id := db.products[id].(active := false)];
    reply := NoContent;
  }

  /** Deleting twice: the second delete of the same id is a 404, the row is still in
      the table, and neither listing nor fetching shows it any more. */
  method DeleteProductTwice(db: Store, id: int) returns (first: ProductReply, second: ProductReply)
    requires db.Valid()
    modifies db
    ensures db.Valid()
    ensures first == NoContent <==> id in old(db.products) && old(db.products)[id].active
    ensures second == Failed(404, NotFoundOrDeletedMessage)
    ensures id in db.products <==> id in old(db.products)
    ensures id !in ActiveProducts(db.products) && GetProductById(db.products, id) == Failed(404, NotFoundMessage)
  {
    first := DeleteProduct(db, id);
    second := DeleteProduct(db, id);
  }
}
