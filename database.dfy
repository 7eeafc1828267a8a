/** The relational schema the controllers work on: `products`, `customers`,
    `sales` and `sale_items`, each with its auto-increment counter. Money is in
    whole cents. */
module Database {
  import opened Base

  /** A row of `products`. `active` is the soft-delete flag. */
  datatype Product = Product(name: string, description: Option<string>, price: int, stock: int, active: bool)

  /** A row of `customers`; the optional contact fields are NULL when absent. */
  datatype Customer = Customer(name: string, email: Option<string>, phone: Option<string>, address: Option<string>)

  /** A row of `sales`. `customerId` is NULL for an anonymous sale. */
  datatype Sale = Sale(id: int, totalAmount: int, customerId: Option<int>)

  /** A row of `sale_items`; `unitPrice` is the price captured when the sale was made. */
  datatype SaleItem = SaleItem(id: int, saleId: int, productId: int, quantity: int, unitPrice: int, subtotal: int)

  /** Every table as one value, with the id the next insert into each will receive. */
  datatype Tables = Tables(
    products: map<int, Product>,
    customers: map<int, Customer>,
    sales: seq<Sale>,
    saleItems: seq<SaleItem>,
    nextProductId: int,
    nextCustomerId: int,
    nextSaleId: int,
    nextItemId: int)

  function EmptyTables(): Tables {
    Tables(map[], map[], [], [], 1, 1, 1, 1)
  }

  predicate IsSaleId(sales: seq<Sale>, id: int) {
    exists i :: 0 <= i < |sales| && sales[i].id == id
  }

  /** A customer some sale refers to: the foreign key from `sales` forbids deleting it. */
  predicate CustomerReferenced(sales: seq<Sale>, id: int) {
    exists i :: 0 <= i < |sales| && sales[i].customerId == Some(id)
  }

  /** What the database engine guarantees of its tables: auto-increment ids are
      positive and below the counter, no two customers share a non-NULL e-mail
      (the unique index on `email`), sale ids grow in insertion order, and every
      foreign key resolves. */
  ghost predicate WellFormed(t: Tables) {
    && 1 <= t.nextProductId && 1 <= t.nextCustomerId && 1 <= t.nextSaleId && 1 <= t.nextItemId
    && (forall id :: id in t.products ==> 1 <= id < t.nextProductId)
    && (forall id :: id in t.customers ==> 1 <= id < t.nextCustomerId)
    && (forall a, b :: a in t.customers && b in t.customers && a != b && t.customers[a].email.Some? ==>
          t.customers[a].email != t.customers[b].email)
    && (forall i :: 0 <= i < |t.sales| ==> 1 <= t.sales[i].id < t.nextSaleId)
    && (forall i, j :: 0 <= i < j < |t.sales| ==> t.sales[i].id < t.sales[j].id)
    && (forall i :: 0 <= i < |t.sales| && t.sales[i].customerId.Some? ==> t.sales[i].customerId.value in t.customers)
    && (forall k :: 0 <= k < |t.saleItems| ==> 1 <= t.saleItems[k].id < t.nextItemId)
    && (forall k :: 0 <= k < |t.saleItems| ==> t.saleItems[k].productId in t.products)
    && (forall k :: 0 <= k < |t.saleItems| ==> IsSaleId(t.sales, t.saleItems[k].saleId))
  }

  /** The database: one field per table, updated in place by the controllers. */
  class Store {
    var products: map<int, Product>
    var customers: map<int, Customer>
    var sales: seq<Sale>
    var saleItems: seq<SaleItem>
    var nextProductId: int
    var nextCustomerId: int
    var nextSaleId: int
    var nextItemId: int

    /** The tables as a value. */
    function Snapshot(): Tables
      reads this
    {
      Tables(products, customers, sales, saleItems, nextProductId, nextCustomerId, nextSaleId, nextItemId)
    }

    ghost predicate Valid()
      reads this
    {
      WellFormed(Snapshot())
    }

    /** A freshly created schema with no rows. */
    constructor ()
      ensures Valid() && Snapshot() == EmptyTables()
    {
      products, customers, sales, saleItems := map[], map[], [], [];
      nextProductId, nextCustomerId, nextSaleId, nextItemId := 1, 1, 1, 1;
    }
  }
}
