/** The point-of-sale form: it loads the products with stock, builds a cart one
    product at a time (merging a product already in the cart, within its
    stock), removes products, shows the cart total and submits the cart as a
    sale request to the sale controller. */
module SaleForm {
  import opened Base
  import SaleController

  /** A product as the form received it from `GET /products`. */
  datatype ProductRow = ProductRow(id: int, name: string, price: int, stock: int)

  /** A cart entry; name, price and stock are copied from the product when it is first added. */
  datatype CartLine = CartLine(productId: int, name: string, quantity: int, price: int, stock: int)

  /** The form's state: the cart, the selected product (`None` for the empty choice),
      the quantity input, the selected customer and the error shown. */
  datatype FormState = FormState(
    cart: seq<CartLine>,
    selectedProductId: Option<int>,
    quantity: int,
    selectedCustomerId: Option<int>,
    formError: Option<string>)

  const SelectMessage := "Por favor, seleccione un producto e ingrese una cantidad válida."
  const NotAvailableMessage := "Producto seleccionado no encontrado o sin stock."
  const EmptySaleMessage := "No se puede enviar una venta vacía. Por favor, añada productos."
  const LoadErrorMessage := "No se puede enviar la venta debido a errores de carga."

  function StockMessage(name: string, stock: int): string {
    "Stock insuficiente para " + name + ". Solo " + IntToString(stock) + " disponibles."
  }

  function StockTotalMessage(name: string, stock: int): string {
    "Stock insuficiente para " + name + ". Solo " + IntToString(stock) + " disponibles en total."
  }

  /** `products.filter(p => p.stock > 0)`: the products offered, in the order received. */
  function Available(products: seq<ProductRow>): (r: seq<ProductRow>)
    ensures forall i :: 0 <= i < |r| ==> r[i].stock > 0 && r[i] in products
    ensures forall i :: 0 <= i < |products| && products[i].stock > 0 ==> products[i] in r
  {
    if products == [] then []
    else
      var init := Available(products[..|products| - 1]);
      var p := products[|products| - 1];
      assert forall i :: 0 <= i < |products| - 1 ==> products[i] == products[..|products| - 1][i];
      if p.stock > 0 then init + [p] else init
  }

  /** `available.find(p => p.id === id)`: the first product with that id. */
  function FindProduct(available: seq<ProductRow>, id: int): (r: Option<ProductRow>)
    ensures r.Some? ==> r.value in available && r.value.id == id
    ensures r.None? <==> forall i :: 0 <= i < |available| ==> available[i].id != id
  {
    if available == [] then None
    else if available[0].id == id then Some(available[0])
    else FindProduct(available[1..], id)
  }

  /** `find` answers the first product with the id, not just any one. */
  lemma {:induction false} FindProductFirst(available: seq<ProductRow>, id: int, i: nat)
    requires i < |available| && available[i].id == id
    requires forall j :: 0 <= j < i ==> available[j].id != id
    ensures FindProduct(available, id) == Some(available[i])
  {
    if i > 0 {
      assert available[0].id != id;
      FindProductFirst(available[1..], id, i - 1);
    }
  }

  /** `cart.findIndex(item => item.product_id === id)`, with `None` for -1. */
  function IndexOf(cart: seq<CartLine>, id: int): (r: Option<nat>)
    ensures r.Some? ==> r.value < |cart| && cart[r.value].productId == id
                        && forall j :: 0 <= j < r.value ==> cart[j].productId != id
    ensures r.None? <==> forall j :: 0 <= j < |cart| ==> cart[j].productId != id
  {
    if cart == [] then None
    else if cart[0].productId == id then Some(0)
    else match IndexOf(cart[1..], id)
      case None => None
      case Some(k) => Some(k + 1)
  }

  /** `handleAddProductToCart` as a function of the state: the checks in order, then merge
      into the existing entry or append a new one, and on success reset the inputs. */
  function AddToCart(available: seq<ProductRow>, s: FormState): (r: FormState)
    ensures r.selectedCustomerId == s.selectedCustomerId
    ensures r.formError.Some? ==> r.cart == s.cart && r.quantity == s.quantity
  {
    var cleared := s.(formError := None);
    if !SaleController.Truthy(s.selectedProductId) || s.quantity <= 0 then
      cleared.(formError := Some(SelectMessage))
    else match FindProduct(available, s.selectedProductId.value)
      case None => cleared.(formError := Some(NotAvailableMessage))
      case Some(p) =>
        if s.quantity > p.stock then cleared.(formError := Some(StockMessage(p.name, p.stock)))
        else match IndexOf(s.cart, p.id)
          case Some(k) =>
            if s.cart[k].quantity + s.quantity > p.stock then
              cleared.(formError := Some(StockTotalMessage(p.name, p.stock)))
            else
              FormState(s.cart[k := s.cart[k].(quantity := s.cart[k].quantity + s.quantity)], None, 1, s.selectedCustomerId, None)
          case None =>
            FormState(s.cart + [CartLine(p.id, p.name, s.quantity, p.price, p.stock)], None, 1, s.selectedCustomerId, None)
  }

  /** The handler itself: a linear search of the offered products, a linear search of the
      cart, then an assignment into a copy of the cart or a push onto it. */
  method AddProductToCart(available: seq<ProductRow>, s: FormState) returns (next: FormState)
    ensures next == AddToCart(available, s)
  {
    next := s.(formError := None);
    if !SaleController.Truthy(s.selectedProductId) || s.quantity <= 0 {
      next := next.(formError := Some(SelectMessage));
      return;
    }
    var id := s.selectedProductId.value;
    var i := 0;
    while i < |available| && available[i].id != id
      invariant 0 <= i <= |available|
      invariant FindProduct(available, id) == FindProduct(available[i..], id)
    {
      assert available[i..][1..] == available[i + 1..];
      i := i + 1;
    }
    if i == |available| {
      next := next.(formError := Some(NotAvailableMessage));
      return;
    }
    var p := available[i];
    if s.quantity > p.stock {
      next := next.(formError := Some(StockMessage(p.name, p.stock)));
      return;
    }
    var k := 0;
    while k < |s.cart| && s.cart[k].productId != p.id
      invariant 0 <= k <= |s.cart|
      invariant forall j :: 0 <= j < k ==> s.cart[j].productId != p.id
    {
      k := k + 1;
    }
    var updated := s.cart;
    if k < |s.cart| {
      var newQuantity := updated[k].quantity + s.quantity;
      if newQuantity > p.stock {
        next := next.(formError := Some(StockTotalMessage(p.name, p.stock)));
        return;
      }
      updated := updated[k := updated[k].(quantity := newQuantity)];
    } else {
      updated := updated + [CartLine(p.id, p.name, s.quantity, p.price, p.stock)];
    }
    next := FormState(updated, None, 1, s.selectedCustomerId, None);
  }

  /** One entry per product, each with a truthy product id and a quantity between 1
      and the stock captured with it. */
  predicate CartValid(cart: seq<CartLine>) {
    && (forall i, j :: 0 <= i < j < |cart| ==> cart[i].productId != cart[j].productId)
    && (forall i :: 0 <= i < |cart| ==> cart[i].productId != 0 && 1 <= cart[i].quantity <= cart[i].stock)
  }

  /** Every entry still describes the product the offered list gives for its id. */
  predicate CartConsistent(cart: seq<CartLine>, available: seq<ProductRow>) {
    forall i :: 0 <= i < |cart| ==>
      FindProduct(available, cart[i].productId) == Some(ProductRow(cart[i].productId, cart[i].name, cart[i].price, cart[i].stock))
  }

  /** `cart.reduce((total, item) => total + item.price * item.quantity, 0)`. */
  function CartTotal(cart: seq<CartLine>): (r: int)
    ensures (forall k :: 0 <= k < |cart| ==> cart[k].price >= 0 && cart[k].quantity >= 0) ==> r >= 0
  {
    if cart == [] then 0
    else
      var init := cart[..|cart| - 1];
      var last := cart[|cart| - 1];
      assert forall k :: 0 <= k < |init| ==> init[k] == cart[k];
      NonNegativeProduct(last.price, last.quantity);
      CartTotal(init) + last.price * last.quantity
  }

  lemma {:induction false} CartTotalUpdate(cart: seq<CartLine>, k: nat, line: CartLine)
    requires k < |cart|
    ensures CartTotal(cart[k := line]) == CartTotal(cart) - cart[k].price * cart[k].quantity + line.price * line.quantity
  {
    var n := |cart| - 1;
    if k < n {
      assert cart[k := line][..n] == cart[..n][k := line];
      CartTotalUpdate(cart[..n], k, line);
    } else {
      assert cart[k := line][..n] == cart[..n];
    }
  }

  /** A rejected add keeps the cart and the inputs and says why; the first two checks
      are on the inputs and on the offered list. */
  lemma AddRejected(available: seq<ProductRow>, s: FormState)
    ensures var next := AddToCart(available, s);
      next.formError.Some? ==> next == s.(formError := next.formError)
    ensures !SaleController.Truthy(s.selectedProductId) || s.quantity <= 0 ==>
      AddToCart(available, s).formError == Some(SelectMessage)
    ensures (SaleController.Truthy(s.selectedProductId) && s.quantity > 0
             && FindProduct(available, s.selectedProductId.value).None?) ==>
      AddToCart(available, s).formError == Some(NotAvailableMessage)
  {
  }

  /** A successful add resets the inputs, changes the cart by merging into the existing
      entry (keeping it within stock) or appending one entry at the end, and raises the
      total by price times the requested quantity. */
  lemma AddAccepted(available: seq<ProductRow>, s: FormState)
    requires CartConsistent(s.cart, available)
    requires AddToCart(available, s).formError.None?
    ensures var next := AddToCart(available, s);
      var p := FindProduct(available, s.selectedProductId.value).value;
      && SaleController.Truthy(s.selectedProductId) && s.quantity > 0
      && next == FormState(next.cart, None, 1, s.selectedCustomerId, None)
      && next.cart != s.cart
      && CartTotal(next.cart) == CartTotal(s.cart) + p.price * s.quantity
  {
    var next := AddToCart(available, s);
    var p := FindProduct(available, s.selectedProductId.value).value;
    AddMergesOrAppends(available, s);
    var found := IndexOf(s.cart, p.id);
    if found.Some? {
      var k := found.value;
      var line := s.cart[k];
      assert FindProduct(available, line.productId) == Some(ProductRow(line.productId, line.name, line.price, line.stock));
      MergeTotal(s.cart, k, s.quantity);
      assert next.cart[k].quantity != line.quantity;
    } else {
      var line := CartLine(p.id, p.name, s.quantity, p.price, p.stock);
      AppendTotal(s.cart, line);
      assert |next.cart| != |s.cart|;
    }
  }

  lemma MergeTotal(cart: seq<CartLine>, k: nat, q: int)
    requires k < |cart|
    ensures CartTotal(cart[k := cart[k].(quantity := cart[k].quantity + q)]) == CartTotal(cart) + cart[k].price * q
  {
    var line := cart[k];
    CartTotalUpdate(cart, k, line.(quantity := line.quantity + q));
    assert line.price * (line.quantity + q) == line.price * line.quantity + line.price * q;
  }

  lemma AppendTotal(cart: seq<CartLine>, line: CartLine)
    ensures CartTotal(cart + [line]) == CartTotal(cart) + line.price * line.quantity
  {
    assert (cart + [line])[..|cart|] == cart;
  }

  /** Merge or append: the entry for the product, if any, gets the sum of the quantities
      and stays within stock; otherwise the new entry goes last. */
  lemma AddMergesOrAppends(available: seq<ProductRow>, s: FormState)
    requires AddToCart(available, s).formError.None?
    ensures var next := AddToCart(available, s);
      var p := FindProduct(available, s.selectedProductId.value).value;
      && (IndexOf(s.cart, p.id).Some? ==>
            var k := IndexOf(s.cart, p.id).value;
            && next.cart == s.cart[k := s.cart[k].(quantity := s.cart[k].quantity + s.quantity)]
            && next.cart[k].quantity <= p.stock)
      && (IndexOf(s.cart, p.id).None? ==>
            next.cart == s.cart + [CartLine(p.id, p.name, s.quantity, p.price, p.stock)])
  {
  }

  /** An add keeps the cart well formed: ids stay unique and every quantity stays within
      1..stock, and the entries keep matching the offered products. */
  lemma AddKeepsCartValid(available: seq<ProductRow>, s: FormState)
    requires CartValid(s.cart) && CartConsistent(s.cart, available)
    ensures CartValid(AddToCart(available, s).cart)
    ensures CartConsistent(AddToCart(available, s).cart, available)
  {
    var next := AddToCart(available, s);
    if SaleController.Truthy(s.selectedProductId) && s.quantity > 0 {
      var found := FindProduct(available, s.selectedProductId.value);
      if found.Some? && s.quantity <= found.value.stock && IndexOf(s.cart, found.value.id).None? {
        var p := found.value;
        assert next.cart == s.cart + [CartLine(p.id, p.name, s.quantity, p.price, p.stock)];
        assert FindProduct(available, p.id) == Some(p);
      }
    }
  }

  /** `cart.filter(item => item.product_id !== id)`. */
  function RemoveFromCart(cart: seq<CartLine>, id: int): (r: seq<CartLine>)
    ensures forall i :: 0 <= i < |r| ==> r[i].productId != id
    ensures forall l :: l in r <==> l in cart && l.productId != id
  {
    if cart == [] then []
    else
      var init := RemoveFromCart(cart[..|cart| - 1], id);
      var l := cart[|cart| - 1];
      assert forall x :: x in cart <==> x in cart[..|cart| - 1] || x == l;
      if l.productId != id then init + [l] else init
  }

  /** Removing keeps the order of what is left: it works piece by piece. */
  lemma {:induction false} RemoveFromCartConcat(a: seq<CartLine>, b: seq<CartLine>, id: int)
    ensures RemoveFromCart(a + b, id) == RemoveFromCart(a, id) + RemoveFromCart(b, id)
    decreases |b|
  {
    if b == [] {
      assert a + b == a;
    } else {
      var n := |b| - 1;
      assert (a + b)[..|a + b| - 1] == a + b[..n];
      RemoveFromCartConcat(a, b[..n], id);
    }
  }

  /** Removing an id absent from the cart keeps the cart. */
  lemma {:induction false} RemoveFromCartAbsent(cart: seq<CartLine>, id: int)
    requires forall i :: 0 <= i < |cart| ==> cart[i].productId != id
    ensures RemoveFromCart(cart, id) == cart
  {
    if cart != [] {
      RemoveFromCartAbsent(cart[..|cart| - 1], id);
    }
  }

  /** Removing keeps the cart well formed and consistent, and removing twice is removing once. */
  lemma RemoveProperties(available: seq<ProductRow>, cart: seq<CartLine>, id: int)
    requires CartValid(cart) && CartConsistent(cart, available)
    ensures CartValid(RemoveFromCart(cart, id)) && CartConsistent(RemoveFromCart(cart, id), available)
    ensures RemoveFromCart(RemoveFromCart(cart, id), id) == RemoveFromCart(cart, id)
  {
    var r := RemoveFromCart(cart, id);
    RemoveKeepsValid(cart, id);
    RemoveFromCartAbsent(r, id);
  }

  /** Adding a product that was not in the cart and then removing it gives back the
      cart from before the add. */
  lemma AddThenRemove(available: seq<ProductRow>, s: FormState, id: int)
    requires AddToCart(available, s).formError.None?
    requires s.selectedProductId == Some(id) && IndexOf(s.cart, id).None?
    ensures RemoveFromCart(AddToCart(available, s).cart, id) == s.cart
  {
    var p := FindProduct(available, id).value;
    var line := CartLine(p.id, p.name, s.quantity, p.price, p.stock);
    assert AddToCart(available, s).cart == s.cart + [line];
    RemoveFromCartConcat(s.cart, [line], id);
    RemoveFromCartAbsent(s.cart, id);
    assert [line][..0] == [];
  }

  lemma {:induction false} RemoveKeepsValid(cart: seq<CartLine>, id: int)
    requires CartValid(cart)
    ensures CartValid(RemoveFromCart(cart, id))
    ensures forall i :: 0 <= i < |RemoveFromCart(cart, id)| ==> RemoveFromCart(cart, id)[i] in cart
  {
    if cart != [] {
      var init := cart[..|cart| - 1];
      var l := cart[|cart| - 1];
      assert CartValid(init) by { assert forall k :: 0 <= k < |init| ==> init[k] == cart[k]; }
      RemoveKeepsValid(init, id);
      var r := RemoveFromCart(init, id);
      assert forall i :: 0 <= i < |r| ==> r[i] in cart by {
        assert forall x :: x in init ==> x in cart;
      }
      if l.productId != id {
        forall i | 0 <= i < |r|
          ensures r[i].productId != l.productId
        {
          var j :| 0 <= j < |init| && init[j] == r[i];
          assert cart[j] == init[j];
        }
        AppendValid(r, l);
      }
    }
  }

  lemma AppendValid(cart: seq<CartLine>, l: CartLine)
    requires CartValid(cart) && l.productId != 0 && 1 <= l.quantity <= l.stock
    requires forall i :: 0 <= i < |cart| ==> cart[i].productId != l.productId
    ensures CartValid(cart + [l])
  {
  }

  /** `handleSubmitSale`'s guard and payload: an empty cart or a failed initial load are
      refused; otherwise the request lists the entries in cart order, and the customer is
      NULL when none is selected. */
  function SubmitSale(s: FormState, loadingError: bool): (r: Result<SaleController.SaleRequest, string>)
    ensures s.cart == [] ==> r == Err(EmptySaleMessage)
    ensures s.cart != [] && loadingError ==> r == Err(LoadErrorMessage)
    ensures r.Ok? <==> s.cart != [] && !loadingError
    ensures r.Ok? ==>
      && r.value.customerId == s.selectedCustomerId
      && r.value.items.Some? && |r.value.items.value| == |s.cart|
      && forall k :: 0 <= k < |s.cart| ==>
           r.value.items.value[k] == SaleController.ItemRequest(Some(s.cart[k].productId), Some(s.cart[k].quantity))
  {
    if s.cart == [] then Err(EmptySaleMessage)
    else if loadingError then Err(LoadErrorMessage)
    else
      Ok(SaleController.SaleRequest(
        s.selectedCustomerId,
        Some(seq(|s.cart|, k requires 0 <= k < |s.cart| =>
          SaleController.ItemRequest(Some(s.cart[k].productId), Some(s.cart[k].quantity))))))
  }

  /** What the form submits passes the sale controller's item validation, names each
      product once, and so is not exposed to the duplicate-item overselling of `createSale`. */
  lemma SubmittedCartIsValidRequest(s: FormState, loadingError: bool)
    requires CartValid(s.cart)
    requires SubmitSale(s, loadingError).Ok?
    ensures var items := SubmitSale(s, loadingError).value.items.value;
      && |items| > 0
      && SaleController.AllValid(items)
      && SaleController.DistinctIds(SaleController.RequestIds(items))
  {
  }
}
