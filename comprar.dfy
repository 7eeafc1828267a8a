/** The shop page: a cart of catalogue products where adding a product again
    raises its quantity by one, quantities are edited with a floor of one,
    entries are removed, the total is shown, and checkout posts the cart once
    the three card fields are filled. The card fields filter what is typed. */
module Comprar {
  import opened Base
  import Database
  import SaleController

  /** A product of the catalogue, as `GET /products` returned it. */
  datatype CatalogProduct = CatalogProduct(id: int, name: string, price: int, stock: int)

  /** A cart entry: the product's fields and the quantity. */
  datatype ShopItem = ShopItem(id: int, name: string, price: int, stock: int, quantity: int)

  /** What pressing checkout does: nothing, refuse with a message, or post the request. */
  datatype CheckoutStep = Idle | Refused(error: string) | Post(request: SaleController.SaleRequest)

  const CardMessage := "Por favor, ingresa los datos de la tarjeta."

  predicate InCart(cart: seq<ShopItem>, id: int) {
    exists k :: 0 <= k < |cart| && cart[k].id == id
  }

  /** `{ ...product, quantity: 1 }`. */
  function NewItem(p: CatalogProduct): ShopItem {
    ShopItem(p.id, p.name, p.price, p.stock, 1)
  }

  /** `addToCart`: a product already in the cart has its entry's quantity raised by one
      (each entry with its id, through `map`); a new product is appended with quantity 1. */
  function AddToCart(cart: seq<ShopItem>, p: CatalogProduct): (r: seq<ShopItem>)
    ensures |r| == if InCart(cart, p.id) then |cart| else |cart| + 1
    ensures forall k :: 0 <= k < |cart| ==> r[k].id == cart[k].id
    ensures !InCart(cart, p.id) ==> r[|cart|] == NewItem(p)
  {
    if InCart(cart, p.id) then
      seq(|cart|, k requires 0 <= k < |cart| =>
        if cart[k].id == p.id then cart[k].(quantity := cart[k].quantity + 1) else cart[k])
    else cart + [NewItem(p)]
  }

  /** `removeFromCart`: `filter` on the id. */
  function RemoveFromCart(cart: seq<ShopItem>, id: int): (r: seq<ShopItem>)
    ensures forall l :: l in r <==> l in cart && l.id != id
  {
    if cart == [] then []
    else
      var init := RemoveFromCart(cart[..|cart| - 1], id);
      var l := cart[|cart| - 1];
      assert forall x :: x in cart <==> x in cart[..|cart| - 1] || x == l;
      if l.id != id then init + [l] else init
  }

  /** `Math.max(1, quantity)`. */
  function AtLeastOne(q: int): (r: int)
    ensures r >= 1 && r >= q && (q >= 1 ==> r == q) && (q < 1 ==> r == 1)
  {
    if q > 1 then q else 1
  }

  /** `updateQuantity`: `map` setting the quantity of the entries with that id. */
  function UpdateQuantity(cart: seq<ShopItem>, id: int, q: int): (r: seq<ShopItem>)
    ensures |r| == |cart|
    ensures forall k :: 0 <= k < |cart| ==>
      r[k].id == cart[k].id && r[k].name == cart[k].name && r[k].price == cart[k].price && r[k].stock == cart[k].stock
  {
    seq(|cart|, k requires 0 <= k < |cart| =>
      if cart[k].id == id then cart[k].(quantity := AtLeastOne(q)) else cart[k])
  }

  /** `cart.reduce((sum, item) => sum + item.price * item.quantity, 0)`. */
  function Total(cart: seq<ShopItem>): (r: int)
    ensures (forall k :: 0 <= k < |cart| ==> cart[k].price >= 0 && cart[k].quantity >= 0) ==> r >= 0
  {
    if cart == [] then 0
    else
      var init := cart[..|cart| - 1];
      var last := cart[|cart| - 1];
      assert forall k :: 0 <= k < |init| ==> init[k] == cart[k];
      NonNegativeProduct(last.price, last.quantity);
      Total(init) + last.price * last.quantity
  }

  /** One entry per product id, every quantity at least one and every id truthy. */
  predicate CartValid(cart: seq<ShopItem>) {
    && (forall i, j :: 0 <= i < j < |cart| ==> cart[i].id != cart[j].id)
    && (forall i :: 0 <= i < |cart| ==> cart[i].id != 0 && cart[i].quantity >= 1)
  }

  // ---------------------------------------------------------------------------
  // Cart operations
  // ---------------------------------------------------------------------------

  /** Adding a product already in the cart raises only its entry, by one, and keeps the
      length and order. */
  lemma AddIncrementsExisting(cart: seq<ShopItem>, p: CatalogProduct)
    requires InCart(cart, p.id)
    ensures |AddToCart(cart, p)| == |cart|
    ensures forall k :: 0 <= k < |cart| && cart[k].id == p.id ==>
      AddToCart(cart, p)[k] == cart[k].(quantity := cart[k].quantity + 1)
    ensures forall k :: 0 <= k < |cart| && cart[k].id != p.id ==> AddToCart(cart, p)[k] == cart[k]
  {
  }

  /** Adding a product not in the cart appends one entry after the others. */
  lemma AddAppendsNew(cart: seq<ShopItem>, p: CatalogProduct)
    requires !InCart(cart, p.id)
    ensures AddToCart(cart, p) == cart + [ShopItem(p.id, p.name, p.price, p.stock, 1)]
  {
  }

  lemma {:induction false} TotalUpdate(cart: seq<ShopItem>, k: nat, item: ShopItem)
    requires k < |cart|
    ensures Total(cart[k := item]) == Total(cart) - cart[k].price * cart[k].quantity + item.price * item.quantity
  {
    var n := |cart| - 1;
    if k < n {
      assert cart[k := item][..n] == cart[..n][k := item];
      TotalUpdate(cart[..n], k, item);
    } else {
      assert cart[k := item][..n] == cart[..n];
    }
  }

  /** With one entry per id, adding a product already in the cart raises the total by
      that entry's price. */
  lemma AddTotalExisting(cart: seq<ShopItem>, p: CatalogProduct, k: nat)
    requires CartValid(cart) && k < |cart| && cart[k].id == p.id
    ensures Total(AddToCart(cart, p)) == Total(cart) + cart[k].price
  {
    AddExistingIsUpdate(cart, p, k);
    IncrementTotal(cart, k);
  }

  /** Raising one entry's quantity by one raises the total by its price. */
  lemma IncrementTotal(cart: seq<ShopItem>, k: nat)
    requires k < |cart|
    ensures Total(cart[k := cart[k].(quantity := cart[k].quantity + 1)]) == Total(cart) + cart[k].price
  {
    TotalUpdate(cart, k, cart[k].(quantity := cart[k].quantity + 1));
    OneMore(cart[k].price, cart[k].quantity);
  }

  /** With one entry per id, adding a product already in the cart updates that entry alone. */
  lemma AddExistingIsUpdate(cart: seq<ShopItem>, p: CatalogProduct, k: nat)
    requires CartValid(cart) && k < |cart| && cart[k].id == p.id
    ensures AddToCart(cart, p) == cart[k := cart[k].(quantity := cart[k].quantity + 1)]
  {
    var item := cart[k].(quantity := cart[k].quantity + 1);
    assert InCart(cart, p.id);
    var added := AddToCart(cart, p);
    forall j | 0 <= j < |cart|
      ensures added[j] == cart[k := item][j]
    {
      if j != k {
        assert cart[j].id != cart[k].id;
      }
    }
  }

  lemma OneMore(price: int, q: int)
    ensures price * (q + 1) == price * q + price
  {
  }

  /** Adding a product not in the cart raises the total by the product's price. */
  lemma AddTotalNew(cart: seq<ShopItem>, p: CatalogProduct)
    requires !InCart(cart, p.id)
    ensures Total(AddToCart(cart, p)) == Total(cart) + p.price
  {
    assert (cart + [NewItem(p)])[..|cart|] == cart;
  }

  /** Add, remove and update keep one entry per id with quantities of at least one. */
  lemma OperationsKeepCartValid(cart: seq<ShopItem>, p: CatalogProduct, id: int, q: int)
    requires CartValid(cart) && p.id != 0
    ensures CartValid(AddToCart(cart, p))
    ensures CartValid(RemoveFromCart(cart, id))
    ensures CartValid(UpdateQuantity(cart, id, q))
  {
    RemoveKeepsValid(cart, id);
  }

  /** Removing keeps only entries of the cart, so a valid cart stays valid. */
  lemma {:induction false} RemoveKeepsValid(cart: seq<ShopItem>, id: int)
    requires CartValid(cart)
    ensures CartValid(RemoveFromCart(cart, id))
  {
    if cart != [] {
      var init := cart[..|cart| - 1];
      var l := cart[|cart| - 1];
      assert CartValid(init) by { assert forall k :: 0 <= k < |init| ==> init[k] == cart[k]; }
      RemoveKeepsValid(init, id);
      var r := RemoveFromCart(init, id);
      if l.id != id {
        forall i | 0 <= i < |r|
          ensures r[i].id != l.id
        {
          assert r[i] in init;
          var j :| 0 <= j < |init| && init[j] == r[i];
          assert cart[j] == init[j];
        }
        AppendValid(r, l);
      }
    }
  }

  lemma AppendValid(cart: seq<ShopItem>, l: ShopItem)
    requires CartValid(cart) && l.id != 0 && l.quantity >= 1
    requires forall i :: 0 <= i < |cart| ==> cart[i].id != l.id
    ensures CartValid(cart + [l])
  {
  }

  /** `removeFromCart` works piece by piece, so the order of the rest is kept. */
  lemma {:induction false} RemoveFromCartConcat(a: seq<ShopItem>, b: seq<ShopItem>, id: int)
    ensures RemoveFromCart(a + b, id) == RemoveFromCart(a, id) + RemoveFromCart(b, id)
    decreases |b|
  {
    if b == [] {
      assert a + b == a;
    } else {
      var n := |b| - 1;
      assert (a + b)[..|a + b| - 1] == a + b[..n];
      RemoveFromCartConcat(a, b[..n], id);
    }
  }

  /** Removing an id absent from the cart keeps the cart. */
  lemma {:induction false} RemoveFromCartAbsent(cart: seq<ShopItem>, id: int)
    requires !InCart(cart, id)
    ensures RemoveFromCart(cart, id) == cart
  {
    if cart != [] {
      var init := cart[..|cart| - 1];
      assert forall k :: 0 <= k < |init| ==> init[k] == cart[k];
      RemoveFromCartAbsent(init, id);
      assert cart[|cart| - 1].id != id;
      assert cart == init + [cart[|cart| - 1]];
    }
  }

  /** Adding a product that was not in the cart and then removing it gives back the cart. */
  lemma AddThenRemove(cart: seq<ShopItem>, p: CatalogProduct)
    requires !InCart(cart, p.id)
    ensures RemoveFromCart(AddToCart(cart, p), p.id) == cart
  {
    RemoveFromCartConcat(cart, [NewItem(p)], p.id);
    RemoveFromCartAbsent(cart, p.id);
    assert [NewItem(p)][..0] == [];
  }

  /** Updating sets the matching entries to at least one, keeps the others and the order,
      and is idempotent. */
  lemma UpdateQuantityProperties(cart: seq<ShopItem>, id: int, q: int)
    ensures var r := UpdateQuantity(cart, id, q);
      && |r| == |cart|
      && (forall k :: 0 <= k < |cart| ==> r[k].id == cart[k].id)
      && (forall k :: 0 <= k < |cart| && cart[k].id == id ==> r[k] == cart[k].(quantity := AtLeastOne(q)))
      && (forall k :: 0 <= k < |cart| && cart[k].id != id ==> r[k] == cart[k])
      && UpdateQuantity(r, id, q) == r
  {
  }

  // ---------------------------------------------------------------------------
  // Checkout
  // ---------------------------------------------------------------------------

  /** `handleCheckout`: an empty cart does nothing, a missing card field is refused
      without a request, otherwise the entries are posted in order, without a customer. */
  function Checkout(cart: seq<ShopItem>, cardNumber: string, cardExpiry: string, cardCVV: string): (r: CheckoutStep)
    ensures cart == [] ==> r == Idle
    ensures cart != [] && (cardNumber == "" || cardExpiry == "" || cardCVV == "") ==> r == Refused(CardMessage)
    ensures r.Post? <==> cart != [] && cardNumber != "" && cardExpiry != "" && cardCVV != ""
    ensures r.Post? ==>
      && r.request.customerId.None?
      && r.request.items.Some? && |r.request.items.value| == |cart|
      && forall k :: 0 <= k < |cart| ==>
           r.request.items.value[k] == SaleController.ItemRequest(Some(cart[k].id), Some(cart[k].quantity))
  {
    if cart == [] then Idle
    else if cardNumber == "" || cardExpiry == "" || cardCVV == "" then Refused(CardMessage)
    else
      Post(SaleController.SaleRequest(None,
        Some(seq(|cart|, k requires 0 <= k < |cart| =>
          SaleController.ItemRequest(Some(cart[k].id), Some(cart[k].quantity))))))
  }

  /** A valid cart posts a request the sale controller's validation accepts, as an
      anonymous sale naming each product once. */
  lemma CheckoutRequestValid(cart: seq<ShopItem>, cardNumber: string, cardExpiry: string, cardCVV: string, customers: map<int, Database.Customer>)
    requires CartValid(cart)
    requires Checkout(cart, cardNumber, cardExpiry, cardCVV).Post?
    ensures var req := Checkout(cart, cardNumber, cardExpiry, cardCVV).request;
      && SaleController.Validate(customers, req) == Ok(req.items.value)
      && SaleController.DistinctIds(SaleController.RequestIds(req.items.value))
  {
  }

  // ---------------------------------------------------------------------------
  // Card fields
  // ---------------------------------------------------------------------------

  /** `replace(/[^…]/g, '')`: the characters `ok` accepts, in order. */
  function Keep(s: string, ok: char -> bool): (r: string)
    ensures |r| <= |s| && forall i :: 0 <= i < |r| ==> ok(r[i])
  {
    if s == [] then [] else Keep(s[..|s| - 1], ok) + (if ok(s[|s| - 1]) then [s[|s| - 1]] else [])
  }

  /** `slice(0, n)`. */
  function Take(s: string, n: nat): (r: string)
    ensures r <= s && |r| == if |s| <= n then |s| else n
  {
    if |s| <= n then s else s[..n]
  }

  predicate ExpiryChar(c: char) {
    IsDigit(c) || c == '/'
  }

  /** The three `onChange` sanitisers: drop the rejected characters, then cut to length. */
  function CardNumberInput(s: string): (r: string)
    ensures |r| <= 16 && |r| <= |s|
    ensures forall i :: 0 <= i < |r| ==> IsDigit(r[i])
  {
    Take(Keep(s, IsDigit), 16)
  }

  function CardExpiryInput(s: string): (r: string)
    ensures |r| <= 5 && |r| <= |s|
    ensures forall i :: 0 <= i < |r| ==> ExpiryChar(r[i])
  {
    Take(Keep(s, ExpiryChar), 5)
  }

  function CardCvvInput(s: string): (r: string)
    ensures |r| <= 4 && |r| <= |s|
    ensures forall i :: 0 <= i < |r| ==> IsDigit(r[i])
  {
    Take(Keep(s, IsDigit), 4)
  }

  /** Filtering works piece by piece: what is kept of a longer input starts with what
      was kept of its beginning. */
  lemma {:induction false} KeepConcat(a: string, b: string, ok: char -> bool)
    ensures Keep(a + b, ok) == Keep(a, ok) + Keep(b, ok)
    decreases |b|
  {
    if b == [] {
      assert a + b == a;
    } else {
      var n := |b| - 1;
      assert (a + b)[..|a + b| - 1] == a + b[..n];
      KeepConcat(a, b[..n], ok);
    }
  }

  /** Text made only of accepted characters passes the filter unchanged. */
  lemma {:induction false} KeepAccepted(s: string, ok: char -> bool)
    requires forall i :: 0 <= i < |s| ==> ok(s[i])
    ensures Keep(s, ok) == s
  {
    if s != [] {
      KeepAccepted(s[..|s| - 1], ok);
    }
  }

  /** The card number field holds at most 16 digits, the first ones typed, in order;
      expiry at most 5 digits or slashes; the code at most 4 digits. Each filter leaves
      its own output unchanged. */
  lemma CardFieldsSanitised(s: string)
    ensures AllDigits(CardNumberInput(s)) && |CardNumberInput(s)| <= 16
    ensures CardNumberInput(s) <= Keep(s, IsDigit)
    ensures forall i :: 0 <= i < |CardExpiryInput(s)| ==> ExpiryChar(CardExpiryInput(s)[i])
    ensures |CardExpiryInput(s)| <= 5
    ensures AllDigits(CardCvvInput(s)) && |CardCvvInput(s)| <= 4
    ensures CardNumberInput(CardNumberInput(s)) == CardNumberInput(s)
    ensures CardExpiryInput(CardExpiryInput(s)) == CardExpiryInput(s)
    ensures CardCvvInput(CardCvvInput(s)) == CardCvvInput(s)
  {
    var n := CardNumberInput(s);
    KeepAccepted(n, IsDigit);
    var e := CardExpiryInput(s);
    KeepAccepted(e, ExpiryChar);
    var c := CardCvvInput(s);
    KeepAccepted(c, IsDigit);
  }

  /** A number of at most 16 digits is kept as typed, and typing more digits after 16
      changes nothing. */
  lemma CardNumberLimit(s: string, more: string)
    ensures AllDigits(s) && |s| <= 16 ==> CardNumberInput(s) == s
    ensures |Keep(s, IsDigit)| >= 16 ==> CardNumberInput(s + more) == CardNumberInput(s)
  {
    if AllDigits(s) {
      KeepAccepted(s, IsDigit);
    }
    KeepConcat(s, more, IsDigit);
    var k := Keep(s, IsDigit);
    if |k| >= 16 {
      assert (k + Keep(more, IsDigit))[..16] == k[..16];
    }
  }
}
