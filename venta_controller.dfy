/** The venta controller: a venta is a recorded amount with a description and a
    category, stamped with the moment it was saved. Creating one keeps exactly the
    three body fields; the statistics are the grand total and the totals per
    category and per calendar month. */
module VentaController {
  import opened Base

  /** `fecha.getMonth()`: January is 0, December 11. */
  type Month = m: int | 0 <= m < 12

  /** A stored venta; `month` is the month of its `fecha`. */
  datatype Venta = Venta(monto: int, descripcion: string, categoria: string, month: Month)

  /** The fields `createVenta` reads from the request body. */
  datatype VentaBody = VentaBody(monto: Option<int>, descripcion: Option<string>, categoria: Option<string>)

  /** 201 with the saved venta, or 400 naming the required paths that failed. */
  datatype VentaReply = Created(venta: Venta) | Failed(status: int, missing: set<string>)

  /** The schema's `required` validator: a number must be present, a string present
      and non-empty. */
  function MissingPaths(body: VentaBody): (r: set<string>)
    ensures "monto" in r <==> body.monto.None?
    ensures "descripcion" in r <==> body.descripcion.None? || body.descripcion.value == ""
    ensures "categoria" in r <==> body.categoria.None? || body.categoria.value == ""
    ensures r <= {"monto", "descripcion", "categoria"}
  {
    (if body.monto.None? then {"monto"} else {})
    + (if body.descripcion.None? || body.descripcion.value == "" then {"descripcion"} else {})
    + (if body.categoria.None? || body.categoria.value == "" then {"categoria"} else {})
  }

  /** `POST /ventas`: the record is built from the three body fields alone, and
      `fecha` takes its default, the current time, whose month is `now`. */
  function CreateVenta(body: VentaBody, now: Month): (r: VentaReply)
    ensures r.Created? <==> MissingPaths(body) == {}
    ensures r.Created? ==>
      && Some(r.venta.monto) == body.monto
      && Some(r.venta.descripcion) == body.descripcion
      && Some(r.venta.categoria) == body.categoria
      && r.venta.month == now
    ensures r.Failed? ==> r.status == 400 && r.missing == MissingPaths(body)
  {
    if MissingPaths(body) == {} then
      Created(Venta(body.monto.value, body.descripcion.value, body.categoria.value, now))
    else
      Failed(400, MissingPaths(body))
  }

  // ---------------------------------------------------------------------------
  // Statistics
  // ---------------------------------------------------------------------------

  /** `ventas.reduce((sum, venta) => sum + venta.monto, 0)`. */
  function TotalVentas(vs: seq<Venta>): (r: int)
    ensures (forall k :: 0 <= k < |vs| ==> vs[k].monto >= 0) ==> r >= 0
  {
    if vs == [] then 0
    else
      var init := vs[..|vs| - 1];
      assert forall k :: 0 <= k < |init| ==> init[k] == vs[k];
      TotalVentas(init) + vs[|vs| - 1].monto
  }

  /** The sum of `monto` over the ventas whose key is `k`. */
  function SumWhere<K(==,!new)>(vs: seq<Venta>, key: Venta -> K, k: K): int {
    if vs == [] then 0
    else SumWhere(vs[..|vs| - 1], key, k) + (if key(vs[|vs| - 1]) == k then vs[|vs| - 1].monto else 0)
  }

  /** The keys that occur among the ventas. */
  function KeysOf<K(==,!new)>(vs: seq<Venta>, key: Venta -> K): set<K> {
    if vs == [] then {} else KeysOf(vs[..|vs| - 1], key) + {key(vs[|vs| - 1])}
  }

  lemma {:induction false} KeysOfOccur<K(!new)>(vs: seq<Venta>, key: Venta -> K, k: K)
    ensures k in KeysOf(vs, key) <==> exists i :: 0 <= i < |vs| && key(vs[i]) == k
  {
    if vs != [] {
      var init := vs[..|vs| - 1];
      KeysOfOccur(init, key, k);
      assert forall i :: 0 <= i < |init| ==> init[i] == vs[i];
      if key(vs[|vs| - 1]) != k && exists i :: 0 <= i < |vs| && key(vs[i]) == k {
        var i :| 0 <= i < |vs| && key(vs[i]) == k;
        assert key(init[i]) == k;
      }
    }
  }

  /** The sum of the values of a map. */
  ghost function SumValues<K>(m: map<K, int>): int
    decreases |m.Keys|
  {
    if m == map[] then 0
    else
      var k :| k in m;
      m[k] + SumValues(m - {k})
  }

  lemma {:induction false} SumValuesRemove<K>(m: map<K, int>, k: K)
    requires k in m
    ensures SumValues(m) == m[k] + SumValues(m - {k})
    decreases |m.Keys|
  {
    var j :| j in m && SumValues(m) == m[j] + SumValues(m - {j});
    if j != k {
      var mj, mk := m - {j}, m - {k};
      assert |mj.Keys| < |m.Keys| && |mk.Keys| < |m.Keys| by {
        assert mj.Keys < m.Keys && mk.Keys < m.Keys;
      }
      SumValuesRemove(mj, k);
      SumValuesRemove(mk, j);
      assert mj - {k} == mk - {j};
    }
  }

  /** Setting one entry changes the sum by the difference it makes. */
  lemma SumValuesUpdate<K>(m: map<K, int>, k: K, v: int)
    ensures SumValues(m[k := v]) == SumValues(m) - (if k in m then m[k] else 0) + v
  {
    var m' := m[k := v];
    SumValuesRemove(m', k);
    if k in m {
      SumValuesRemove(m, k);
      assert m' - {k} == m - {k};
    } else {
      assert m' - {k} == m;
    }
  }

  /** The grouping `reduce`: `acc[key(v)] = (acc[key(v)] || 0) + v.monto` for each venta
      in turn. The keys are the ones that occur, each value is the sum for its key, and
      the values add up to the grand total. */
  method GroupSum<K(==,!new)>(vs: seq<Venta>, key: Venta -> K) returns (acc: map<K, int>)
    ensures acc.Keys == KeysOf(vs, key)
    ensures forall k :: k in acc ==> acc[k] == SumWhere(vs, key, k)
    ensures SumValues(acc) == TotalVentas(vs)
  {
    acc := map[];
    var i := 0;
    while i < |vs|
      invariant 0 <= i <= |vs|
      invariant acc.Keys == KeysOf(vs[..i], key)
      invariant forall k :: k in acc ==> acc[k] == SumWhere(vs[..i], key, k)
      invariant SumValues(acc) == TotalVentas(vs[..i])
    {
      var c := key(vs[i]);
      var before := if c in acc then acc[c] else 0;
      GroupStep(vs, key, i, acc);
      acc := acc[c := before + vs[i].monto];
      i := i + 1;
    }
    assert vs[..i] == vs;
  }

  /** One step of the grouping keeps its three invariants. */
  lemma GroupStep<K(!new)>(vs: seq<Venta>, key: Venta -> K, i: int, acc: map<K, int>)
    requires 0 <= i < |vs|
    requires acc.Keys == KeysOf(vs[..i], key)
    requires forall k :: k in acc ==> acc[k] == SumWhere(vs[..i], key, k)
    requires SumValues(acc) == TotalVentas(vs[..i])
    ensures var c := key(vs[i]);
      var acc' := acc[c := (if c in acc then acc[c] else 0) + vs[i].monto];
      && acc'.Keys == KeysOf(vs[..i + 1], key)
      && (forall k :: k in acc' ==> acc'[k] == SumWhere(vs[..i + 1], key, k))
      && SumValues(acc') == TotalVentas(vs[..i + 1])
  {
    var c := key(vs[i]);
    var before := if c in acc then acc[c] else 0;
    var acc' := acc[c := before + vs[i].monto];
    SumValuesUpdate(acc, c, before + vs[i].monto);
    assert vs[..i + 1][..i] == vs[..i];
    if c !in acc {
      SumWhereAbsent(vs[..i], key, c);
    }
    forall k | k in acc'
      ensures acc'[k] == SumWhere(vs[..i + 1], key, k)
    {
    }
  }

  lemma {:induction false} SumWhereAbsent<K(!new)>(vs: seq<Venta>, key: Venta -> K, k: K)
    requires k !in KeysOf(vs, key)
    ensures SumWhere(vs, key, k) == 0
  {
    if vs != [] {
      assert k !in KeysOf(vs[..|vs| - 1], key);
      SumWhereAbsent(vs[..|vs| - 1], key, k);
    }
  }

  function Categoria(v: Venta): string { v.categoria }
  function MonthOf(v: Venta): Month { v.month }

  /** `GET /ventas/estadisticas`: the grand total, then the category and month groupings;
      both groupings account for the whole total, and no ventas means total 0 and two
      empty groupings. */
  method GetEstadisticas(vs: seq<Venta>) returns (total: int, porCategoria: map<string, int>, porMes: map<Month, int>)
    ensures total == TotalVentas(vs)
    ensures forall c :: c in porCategoria <==> exists i :: 0 <= i < |vs| && vs[i].categoria == c
    ensures forall c :: c in porCategoria ==> porCategoria[c] == SumWhere(vs, Categoria, c)
    ensures forall m: Month :: m in porMes <==> exists i :: 0 <= i < |vs| && vs[i].month == m
    ensures forall m :: m in porMes ==> porMes[m] == SumWhere(vs, MonthOf, m)
    ensures SumValues(porCategoria) == total && SumValues(porMes) == total
    ensures vs == [] ==> total == 0 && porCategoria == map[] && porMes == map[]
  {
    total := TotalVentas(vs);
    porCategoria := GroupSum(vs, Categoria);
    porMes := GroupSum(vs, MonthOf);
    forall c: string
      ensures c in porCategoria <==> exists i :: 0 <= i < |vs| && vs[i].categoria == c
    {
      KeysOfOccur(vs, Categoria, c);
    }
    forall m: Month
      ensures m in porMes <==> exists i :: 0 <= i < |vs| && vs[i].month == m
    {
      KeysOfOccur(vs, MonthOf, m);
    }
  }

  /** Saving a venta adds its amount to the total, to its category's sum and to its
      month's sum, and leaves every other group as it was. */
  lemma CreatedVentaCounts(vs: seq<Venta>, body: VentaBody, now: Month, c: string, m: Month)
    requires CreateVenta(body, now).Created?
    ensures var v := CreateVenta(body, now).venta;
      && TotalVentas(vs + [v]) == TotalVentas(vs) + body.monto.value
      && SumWhere(vs + [v], Categoria, c) == SumWhere(vs, Categoria, c) + (if Some(c) == body.categoria then body.monto.value else 0)
      && SumWhere(vs + [v], MonthOf, m) == SumWhere(vs, MonthOf, m) + (if m == now then body.monto.value else 0)
  {
    var v := CreateVenta(body, now).venta;
    assert (vs + [v])[..|vs + [v]| - 1] == vs;
  }
  // ---------------------------------------------------------------------------
  // The category grouping as written: a plain object literal as accumulator
  // ---------------------------------------------------------------------------

  /** The JavaScript values the as-written accumulator can hold or look up. */
  datatype JsValue = Undefined | Num(n: int) | Text(s: string) | Inherited(name: string)

  /** Property names every `{}` inherits from `Object.prototype`. */
  const PrototypeNames: set<string> := {
    "constructor", "toString", "toLocaleString", "valueOf", "hasOwnProperty",
    "isPrototypeOf", "propertyIsEnumerable", "__proto__", "__defineGetter__",
    "__defineSetter__", "__lookupGetter__", "__lookupSetter__"}

  /** `acc[c]` on an object created by `{}`: own entries first, then the prototype. */
  function Lookup(acc: map<string, JsValue>, c: string): JsValue {
    if c in acc then acc[c] else if c in PrototypeNames then Inherited(c) else Undefined
  }

  /** `x || 0`. */
  function OrZero(x: JsValue): JsValue {
    match x
    case Undefined => Num(0)
    case Num(n) => Num(n)
    case Text(t) => if t == "" then Num(0) else x
    case Inherited(_) => x
  }

  /** How an inherited member converts to a string under `+`. */
  function InheritedText(name: string): string {
    if name == "__proto__" then "[object Object]"
    else if name == "constructor" then "function Object() { [native code] }"
    else "function " + name + "() { [native code] }"
  }

  /** `x + monto`: a number adds, anything else concatenates. */
  function Plus(x: JsValue, monto: int): JsValue {
    match x
    case Undefined => Undefined
    case Num(n) => Num(n + monto)
    case Text(t) => Text(t + IntToString(monto))
    case Inherited(name) => Text(InheritedText(name) + IntToString(monto))
  }

  /** `acc[c] = x`: the `__proto__` setter ignores a value that is not an object. */
  function Assign(acc: map<string, JsValue>, c: string, x: JsValue): map<string, JsValue> {
    if c == "__proto__" then acc else acc[c := x]
  }

  /** `ventasPorCategoria` exactly as the reduce computes it over `{}`. */
  function GroupByCategoriaAsWritten(vs: seq<Venta>): (r: map<string, JsValue>)
    ensures "__proto__" !in r
    ensures r.Keys <= KeysOf(vs, Categoria)
  {
    if vs == [] then map[]
    else
      var acc := GroupByCategoriaAsWritten(vs[..|vs| - 1]);
      var v := vs[|vs| - 1];
      Assign(acc, v.categoria, Plus(OrZero(Lookup(acc, v.categoria)), v.monto))
  }

  /** For every category that is not an inherited property name the as-written
      grouping is the intended one: present exactly when the category occurs, holding
      the number `GroupSum` computes. */
  lemma {:induction false} AsWrittenAgreesOffPrototype(vs: seq<Venta>, c: string)
    requires c !in PrototypeNames
    ensures c in GroupByCategoriaAsWritten(vs) <==> c in KeysOf(vs, Categoria)
    ensures c in GroupByCategoriaAsWritten(vs) ==> GroupByCategoriaAsWritten(vs)[c] == Num(SumWhere(vs, Categoria, c))
  {
    if vs != [] {
      var init := vs[..|vs| - 1];
      AsWrittenAgreesOffPrototype(init, c);
      if c !in KeysOf(init, Categoria) {
        SumWhereAbsent(init, Categoria, c);
      }
    }
  }

  /** One venta in category "constructor" makes the category total a string, and one in
      category "__proto__" leaves no entry at all, where the intended grouping holds the
      amounts. */
  lemma PrototypeCategoriesBreakGrouping()
    ensures var vs := [Venta(5, "caja", "constructor", 0)];
      && GroupByCategoriaAsWritten(vs)["constructor"] == Text("function Object() { [native code] }5")
      && SumWhere(vs, Categoria, "constructor") == 5
    ensures var vs := [Venta(5, "caja", "__proto__", 0)];
      && "__proto__" !in GroupByCategoriaAsWritten(vs)
      && "__proto__" in KeysOf(vs, Categoria) && SumWhere(vs, Categoria, "__proto__") == 5
  {
    var vs := [Venta(5, "caja", "constructor", 0)];
    assert vs[..0] == [];
    assert IntToString(5) == "5";
    var ws := [Venta(5, "caja", "__proto__", 0)];
    assert ws[..0] == [];
  }
}
