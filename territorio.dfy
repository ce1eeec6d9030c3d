/**
 * The territorial part of `dashboard_screen`: the sales lines of the
 * selected salespeople (and species), their aggregation per customer, the
 * join to the customer list, the optional top-N cut, and the complement of
 * customers in scope that bought nothing, with its search box.
 */
module Territorio {
  import opened Wrappers
  import opened Text
  import opened Ordering
  import opened Grouping
  import opened Helpers
  import opened Ventas
  import opened Negados

  /** A customer as `load_clientes` delivers it: codes stripped, coordinates present. */
  datatype Cliente = Cliente(cveCte: string, vendedorCliente: string, nombre: string, latitud: real, longitud: real)

  // ----- dfv: the filtered sales lines -----

  /** A sales line passes the salesperson filter and, when some species is selected, the species filter. */
  predicate SaleKept(s: Sale, vendSel: seq<string>, especieSel: seq<string>) {
    s.vendedor in vendSel && (especieSel == [] || s.especie in especieSel)
  }

  /**
   * `ventas[ventas["vendedor"].isin(vend_sel_str)]`, then
   * `[dfv["especie"].isin(especie_sel)]` only when some species is selected:
   * every copy of a passing line is kept, in order (see FilterSalesAppend).
   */
  function FilterSales(sales: seq<Sale>, vendSel: seq<string>, especieSel: seq<string>): (r: seq<Sale>)
    ensures sales == [] ==> r == []
    ensures |r| <= |sales|
    ensures forall s :: s in r <==> s in sales && SaleKept(s, vendSel, especieSel)
  {
    if sales == [] then []
    else
      var rest := FilterSales(sales[1..], vendSel, especieSel);
      assert forall s :: s in sales <==> s == sales[0] || s in sales[1..];
      var s := sales[0];
      if SaleKept(s, vendSel, especieSel) then [s] + rest else rest
  }

  /** Filtering distributes over appending a line, which fixes the order of what is kept. */
  lemma {:induction false} FilterSalesAppend(sales: seq<Sale>, x: Sale, vendSel: seq<string>, especieSel: seq<string>)
    ensures FilterSales(sales + [x], vendSel, especieSel)
         == FilterSales(sales, vendSel, especieSel) + (if SaleKept(x, vendSel, especieSel) then [x] else [])
  {
    if sales == [] {
      assert [x][1..] == [];
    } else {
      assert (sales + [x])[1..] == sales[1..] + [x];
      FilterSalesAppend(sales[1..], x, vendSel, especieSel);
    }
  }

  /** Every copy of a passing line survives the filter, and no copy of any other line does. */
  lemma {:induction false} FilterSalesCounts(sales: seq<Sale>, vendSel: seq<string>, especieSel: seq<string>)
    ensures forall s :: multiset(FilterSales(sales, vendSel, especieSel))[s]
                     == if SaleKept(s, vendSel, especieSel) then multiset(sales)[s] else 0
  {
    if sales != [] {
      FilterSalesCounts(sales[1..], vendSel, especieSel);
      assert sales == [sales[0]] + sales[1..];
    }
  }

  // ----- unique SKUs -----

  /** `.astype(str).str.strip().replace("", NA).dropna()` of a text column. */
  function SkuCodes(cells: seq<Option<string>>): (r: seq<string>)
    ensures |r| <= |cells|
    ensures forall v :: v in r <==> v != [] && exists k :: 0 <= k < |cells| && Trim(AsStr(cells[k])) == v
  {
    if cells == [] then []
    else
      var rest := SkuCodes(cells[1..]);
      assert forall k :: 1 <= k < |cells| ==> cells[k] == cells[1..][k - 1];
      var v := Trim(AsStr(cells[0]));
      if v != [] then [v] + rest else rest
  }

  /**
   * `sku_unicos`: counted only when one salesperson was chosen explicitly and
   * some line is left. `cells` gives the filtered lines' text in each
   * column, and `columns` the table's column names.
   */
  method SkuUnicos(mode: Mode, vendedorSel: seq<string>, columns: seq<string>,
                   cells: string -> seq<Option<string>>, dfvEmpty: bool)
    returns (r: Option<nat>)
    ensures !(mode == Elegir && |vendedorSel| == 1 && !dfvEmpty) ==> r.None?
    ensures (forall k :: 0 <= k < |SkuCandidates| ==> !HasKey(columns, HeaderKey, HeaderKey(SkuCandidates[k]))) ==> r.None?
    ensures (mode == Elegir && |vendedorSel| == 1 && !dfvEmpty
             && exists k :: 0 <= k < |SkuCandidates| && HasKey(columns, HeaderKey, HeaderKey(SkuCandidates[k]))) ==> r.Some?
    ensures r.Some? ==> exists c, k ::
      && 0 <= k < |SkuCandidates|
      && IsLastWithKey(columns, HeaderKey, c, HeaderKey(SkuCandidates[k]))
      && (forall j :: 0 <= j < k ==> !HasKey(columns, HeaderKey, HeaderKey(SkuCandidates[j])))
      && r.value == |Unique(SkuCodes(cells(c)))|
    ensures r.Some? ==> exists c :: c in columns && r.value <= |cells(c)|
  {
    r := None;
    var mostrarSkus := mode == Elegir && |vendedorSel| == 1;
    if mostrarSkus && !dfvEmpty {
      var skuCol := PickSkuCol(columns);
      if skuCol.Some? {
        ghost var k :| && 0 <= k < |SkuCandidates|
                       && IsLastWithKey(columns, HeaderKey, skuCol.value, HeaderKey(SkuCandidates[k]))
                       && forall j :: 0 <= j < k ==> !HasKey(columns, HeaderKey, HeaderKey(SkuCandidates[j]));
        SkuHeaderNonEmpty(columns, skuCol.value, k);
        if skuCol.value != "" {
          r := Some(|Unique(SkuCodes(cells(skuCol.value)))|);
        }
      }
    }
  }

  // ----- per-customer aggregation -----

  /** One row of `grp`. */
  datatype CustomerGroup = CustomerGroup(cveCte: string, vendedor: string, ventaSinIva: real, especies: seq<string>, renglones: nat)

  function SaleKey(s: Sale): (string, string) { (s.cveCte, s.vendedor) }

  function SaleValue(s: Sale): real { s.ventaSinIva }

  function GroupKey(g: CustomerGroup): (string, string) { (g.cveCte, g.vendedor) }

  function GroupValue(g: CustomerGroup): real { g.ventaSinIva }

  /** The `especie` column of some sales lines. */
  function Species(rows: seq<Sale>): seq<string> {
    seq(|rows|, i requires 0 <= i < |rows| => rows[i].especie)
  }

  /** The species of the lines of group `k`, in order and with repeats. */
  function GroupSpecies(rows: seq<Sale>, k: (string, string)): (r: seq<string>)
    ensures |r| == CountWhere(rows, SaleKey, k)
    ensures forall e :: e in r <==> exists i :: 0 <= i < |rows| && SaleKey(rows[i]) == k && rows[i].especie == e
  {
    var w := RowsWhere(rows, SaleKey, k);
    var r := Species(w);
    assert forall e :: e in r <==> exists i :: 0 <= i < |rows| && SaleKey(rows[i]) == k && rows[i].especie == e by {
      forall e ensures e in r <==> exists i :: 0 <= i < |rows| && SaleKey(rows[i]) == k && rows[i].especie == e {
        if e in r {
          var j :| 0 <= j < |w| && r[j] == e;
          assert w[j] in w;
          var i :| 0 <= i < |rows| && rows[i] == w[j];
        }
        if exists i :: 0 <= i < |rows| && SaleKey(rows[i]) == k && rows[i].especie == e {
          var i :| 0 <= i < |rows| && SaleKey(rows[i]) == k && rows[i].especie == e;
          assert rows[i] in w;
          var j :| 0 <= j < |w| && w[j] == rows[i];
          assert r[j] == e;
        }
      }
    }
    r
  }

  /** `sorted(unique(especies))[:10]`. */
  function TopSpecies(species: seq<string>): (r: seq<string>)
    ensures |r| <= 10
    ensures StrictlyAscending(LexLess, r)
    ensures forall e :: e in r ==> e in species
    ensures |r| < 10 ==> forall e :: e in species ==> e in r
    ensures |r| == 10 ==> forall e :: e in species && e !in r ==> LexLess(r[9], e)
  {
    LexStrictTotal();
    var u := SortedSet(LexLess, species);
    if |u| <= 10 then u
    else
      assert forall e :: e in species && e !in u[..10] ==> LexLess(u[9], e) by {
        forall e | e in species && e !in u[..10] ensures LexLess(u[9], e) {
          var j :| 0 <= j < |u| && u[j] == e;
          assert j >= 10;
        }
      }
      u[..10]
  }

  function SaleKeys(rows: seq<Sale>): (r: seq<(string, string)>)
    ensures forall k :: k in r <==> exists i :: 0 <= i < |rows| && SaleKey(rows[i]) == k
  {
    var r := seq(|rows|, i requires 0 <= i < |rows| => SaleKey(rows[i]));
    assert forall i :: 0 <= i < |rows| ==> r[i] == SaleKey(rows[i]);
    r
  }

  /** One group per key: the value sum, the first ten species, the line count. */
  function GroupCustomers(keys: seq<(string, string)>, rows: seq<Sale>): (r: seq<CustomerGroup>)
    ensures |r| == |keys|
    ensures forall i :: 0 <= i < |r| ==> GroupKey(r[i]) == keys[i]
    ensures forall i :: 0 <= i < |r| ==> r[i].ventaSinIva == SumWhere(rows, SaleKey, SaleValue, keys[i])
    ensures forall i :: 0 <= i < |r| ==> r[i].renglones == CountWhere(rows, SaleKey, keys[i])
    ensures forall i :: 0 <= i < |r| ==> r[i].especies == TopSpecies(GroupSpecies(rows, keys[i]))
    ensures SumBy(GroupValue, r) == SumOverKeys(keys, rows, SaleKey, SaleValue)
    ensures Renglones(r) == CountOverKeys(keys, rows, SaleKey)
  {
    if keys == [] then []
    else
      var k := keys[0];
      [CustomerGroup(k.0, k.1, SumWhere(rows, SaleKey, SaleValue, k), TopSpecies(GroupSpecies(rows, k)),
                     CountWhere(rows, SaleKey, k))]
      + GroupCustomers(keys[1..], rows)
  }

  /** Total of the `renglones` column. */
  function Renglones(groups: seq<CustomerGroup>): nat {
    if groups == [] then 0 else groups[0].renglones + Renglones(groups[1..])
  }

  /**
   * `dfv.groupby(["cve_cte","vendedor"]).agg(...)`: one group per
   * (customer, salesperson) pair present, in ascending pair order.
   */
  function Aggregate(dfv: seq<Sale>): (r: seq<CustomerGroup>)
    ensures forall i, j :: 0 <= i < j < |r| ==> PairLess(GroupKey(r[i]), GroupKey(r[j]))
    ensures forall i :: 0 <= i < |r| ==> r[i].ventaSinIva == SumWhere(dfv, SaleKey, SaleValue, GroupKey(r[i]))
    ensures forall i :: 0 <= i < |r| ==> r[i].renglones == CountWhere(dfv, SaleKey, GroupKey(r[i]))
    ensures forall i :: 0 <= i < |r| ==> r[i].especies == TopSpecies(GroupSpecies(dfv, GroupKey(r[i])))
  {
    PairStrictTotal();
    var keys := SortedSet(PairLess, SaleKeys(dfv));
    GroupCustomers(keys, dfv)
  }

  /** Every group comes from some line's (customer, salesperson) pair. */
  lemma AggregateKeys(dfv: seq<Sale>)
    ensures forall g :: g in Aggregate(dfv) ==> exists k :: 0 <= k < |dfv| && SaleKey(dfv[k]) == GroupKey(g)
  {
    PairStrictTotal();
    var keys := SortedSet(PairLess, SaleKeys(dfv));
    var r := GroupCustomers(keys, dfv);
    assert r == Aggregate(dfv);
    forall g | g in r ensures exists k :: 0 <= k < |dfv| && SaleKey(dfv[k]) == GroupKey(g) {
      var i :| 0 <= i < |r| && r[i] == g;
      assert GroupKey(g) == keys[i];
      assert keys[i] in SaleKeys(dfv);
    }
  }

  /** Every line's (customer, salesperson) pair has its group. */
  lemma AggregateCovers(dfv: seq<Sale>)
    ensures forall k :: 0 <= k < |dfv| ==> exists g :: g in Aggregate(dfv) && GroupKey(g) == SaleKey(dfv[k])
  {
    PairStrictTotal();
    var keys := SortedSet(PairLess, SaleKeys(dfv));
    var r := GroupCustomers(keys, dfv);
    assert r == Aggregate(dfv);
    forall k | 0 <= k < |dfv| ensures exists g :: g in r && GroupKey(g) == SaleKey(dfv[k]) {
      assert SaleKey(dfv[k]) in SaleKeys(dfv);
      var i :| 0 <= i < |keys| && keys[i] == SaleKey(dfv[k]);
      assert r[i] in r;
    }
  }

  /** Grouping keeps the total value of the lines. */
  lemma AggregateKeepsValue(dfv: seq<Sale>)
    ensures SumBy(GroupValue, Aggregate(dfv)) == SumBy(SaleValue, dfv)
  {
    PairStrictTotal();
    var keys := SortedSet(PairLess, SaleKeys(dfv));
    AscendingIsDistinct(PairLess, keys);
    PartitionSum(keys, dfv, SaleKey, SaleValue);
  }

  /** Grouping counts every line exactly once. */
  lemma AggregateKeepsLines(dfv: seq<Sale>)
    ensures Renglones(Aggregate(dfv)) == |dfv|
  {
    PairStrictTotal();
    var keys := SortedSet(PairLess, SaleKeys(dfv));
    AscendingIsDistinct(PairLess, keys);
    PartitionCount(keys, dfv, SaleKey);
  }

  // ----- join to customers -----

  /** A row of `df_sales`: a group with the customer record it matched. */
  datatype SalesPoint = SalesPoint(group: CustomerGroup, cliente: Cliente)

  function PointValue(p: SalesPoint): real { p.group.ventaSinIva }

  /** The customers carrying a code, in order. */
  function ClientesOf(clientes: seq<Cliente>, cveCte: string): (r: seq<Cliente>)
    ensures clientes == [] ==> r == []
    ensures |r| <= |clientes|
    ensures forall c :: c in r <==> c in clientes && c.cveCte == cveCte
  {
    if clientes == [] then []
    else
      var rest := ClientesOf(clientes[1..], cveCte);
      assert forall c :: c in clientes <==> c == clientes[0] || c in clientes[1..];
      if clientes[0].cveCte == cveCte then [clientes[0]] + rest else rest
  }

  /** A group paired with each of its customer records, one row per record, in order. */
  function Pair(g: CustomerGroup, cs: seq<Cliente>): (r: seq<SalesPoint>)
    ensures |r| == |cs|
    ensures forall i :: 0 <= i < |cs| ==> r[i] == SalesPoint(g, cs[i])
    ensures forall p :: p in r <==> p.group == g && p.cliente in cs
  {
    var r := seq(|cs|, i requires 0 <= i < |cs| => SalesPoint(g, cs[i]));
    assert forall i :: 0 <= i < |cs| ==> r[i] == SalesPoint(g, cs[i]);
    assert forall c :: c in cs ==> SalesPoint(g, c) in r by {
      forall c | c in cs ensures SalesPoint(g, c) in r {
        var i :| 0 <= i < |cs| && cs[i] == c;
        assert r[i] == SalesPoint(g, c);
      }
    }
    r
  }

  /**
   * `grp.merge(clientes, on="cve_cte", how="left").dropna(subset=[lat, lon])`:
   * every customer has coordinates, so a group survives once per customer
   * record with its code, and a group with no customer record disappears.
   */
  function JoinClientes(groups: seq<CustomerGroup>, clientes: seq<Cliente>): (r: seq<SalesPoint>)
    ensures forall p :: p in r <==> p.group in groups && p.cliente in clientes && p.cliente.cveCte == p.group.cveCte
  {
    if groups == [] then []
    else
      var rest := JoinClientes(groups[1..], clientes);
      assert forall g :: g in groups <==> g == groups[0] || g in groups[1..];
      Pair(groups[0], ClientesOf(clientes, groups[0].cveCte)) + rest
  }

  /** The records of a code keep their order and copies: the lookup distributes over appending a record. */
  lemma {:induction false} ClientesOfAppend(clientes: seq<Cliente>, x: Cliente, cveCte: string)
    ensures ClientesOf(clientes + [x], cveCte) == ClientesOf(clientes, cveCte) + (if x.cveCte == cveCte then [x] else [])
  {
    if clientes == [] {
      assert [x][1..] == [];
    } else {
      assert (clientes + [x])[1..] == clientes[1..] + [x];
      ClientesOfAppend(clientes[1..], x, cveCte);
    }
  }

  /** The join distributes over appending a group: the group appears once per record of its code. */
  lemma {:induction false} JoinClientesAppend(groups: seq<CustomerGroup>, g: CustomerGroup, clientes: seq<Cliente>)
    ensures JoinClientes(groups + [g], clientes) == JoinClientes(groups, clientes) + Pair(g, ClientesOf(clientes, g.cveCte))
  {
    if groups == [] {
      assert [g][1..] == [];
    } else {
      assert (groups + [g])[1..] == groups[1..] + [g];
      JoinClientesAppend(groups[1..], g, clientes);
    }
  }

  /** `v` added `n` times. */
  function Times(v: real, n: nat): (r: real)
    ensures r == v * n as real
  {
    if n == 0 then 0.0 else v + Times(v, n - 1)
  }

  /** Each group's value counted once per customer record of its code. */
  function RecordWeightedValue(groups: seq<CustomerGroup>, clientes: seq<Cliente>): real {
    if groups == [] then 0.0
    else Times(groups[0].ventaSinIva, |ClientesOf(clientes, groups[0].cveCte)|)
         + RecordWeightedValue(groups[1..], clientes)
  }

  lemma {:induction false} PairValue(g: CustomerGroup, cs: seq<Cliente>)
    ensures SumBy(PointValue, Pair(g, cs)) == Times(g.ventaSinIva, |cs|)
  {
    if cs != [] {
      var p := Pair(g, cs);
      assert p[1..] == Pair(g, cs[1..]);
      PairValue(g, cs[1..]);
      calc {
        SumBy(PointValue, p);
        PointValue(p[0]) + SumBy(PointValue, p[1..]);
        g.ventaSinIva + Times(g.ventaSinIva, |cs[1..]|);
      }
    }
  }

  /**
   * The joined total counts each group's value once per customer record of
   * its code: a code with two records doubles its groups' value.
   */
  lemma {:induction false} JoinValue(groups: seq<CustomerGroup>, clientes: seq<Cliente>)
    ensures SumBy(PointValue, JoinClientes(groups, clientes)) == RecordWeightedValue(groups, clientes)
  {
    if groups != [] {
      var g := groups[0];
      var head := Pair(g, ClientesOf(clientes, g.cveCte));
      var rest := JoinClientes(groups[1..], clientes);
      assert JoinClientes(groups, clientes) == head + rest;
      var a := SumBy(PointValue, head);
      var b := SumBy(PointValue, rest);
      assert SumBy(PointValue, head + rest) == a + b by { SumByAppend(PointValue, head, rest); }
      assert a == Times(g.ventaSinIva, |ClientesOf(clientes, g.cveCte)|) by { PairValue(g, ClientesOf(clientes, g.cveCte)); }
      assert b == RecordWeightedValue(groups[1..], clientes) by { JoinValue(groups[1..], clientes); }
    }
  }

  /** When each group's customer has exactly one record, the join keeps the groups' total value. */
  lemma {:induction false} JoinKeepsValue(groups: seq<CustomerGroup>, clientes: seq<Cliente>)
    requires forall g :: g in groups ==> |ClientesOf(clientes, g.cveCte)| == 1
    ensures SumBy(PointValue, JoinClientes(groups, clientes)) == SumBy(GroupValue, groups)
  {
    if groups != [] {
      var g := groups[0];
      var cs := ClientesOf(clientes, g.cveCte);
      assert Pair(g, cs) == [SalesPoint(g, cs[0])];
      assert forall h :: h in groups[1..] ==> h in groups;
      JoinKeepsValue(groups[1..], clientes);
      SumByAppend(PointValue, Pair(g, cs), JoinClientes(groups[1..], clientes));
    }
  }

  // ----- top N -----

  /**
   * `df_sales.sort_values("venta_sin_iva", ascending=False).head(n)` when
   * `n > 0` and there are rows; otherwise the rows unchanged.
   */
  function TopRows(rows: seq<SalesPoint>, n: nat): (r: seq<SalesPoint>)
    ensures n == 0 || rows == [] ==> r == rows
    ensures n > 0 && rows != [] ==> |r| == if n < |rows| then n else |rows|
    ensures n > 0 && rows != [] ==> NonIncreasing(PointValue, r)
    ensures multiset(r) <= multiset(rows)
  {
    if n > 0 && rows != [] then
      var s := SortDesc(PointValue, rows);
      var m := if n < |s| then n else |s|;
      assert s == s[..m] + s[m..];
      assert multiset(s[..m]) <= multiset(s);
      s[..m]
    else rows
  }

  /** The rows the cut keeps are worth at least as much as every row it drops. */
  lemma TopRowsKeepHighest(rows: seq<SalesPoint>, n: nat)
    requires n > 0 && rows != []
    ensures forall x, y :: x in TopRows(rows, n) && y in multiset(rows) - multiset(TopRows(rows, n)) ==>
      PointValue(x) >= PointValue(y)
  {
    var s := SortDesc(PointValue, rows);
    var m := if n < |s| then n else |s|;
    HeadOutranksTail(PointValue, s, m);
    assert TopRows(rows, n) == s[..m];
    assert multiset(rows) - multiset(s[..m]) == multiset(s[m..]);
  }

  // ----- no-sale complement -----

  /** The customer codes left in `df_sales`. */
  function VentasCtes(points: seq<SalesPoint>): (r: set<string>)
    ensures forall c :: c in r <==> exists i :: 0 <= i < |points| && points[i].cliente.cveCte == c
  {
    set i | 0 <= i < |points| :: points[i].cliente.cveCte
  }

  /** `clientes_scope`: every customer in "Todos" mode, else those of a selected salesperson. */
  function ClientesScope(mode: Mode, clientes: seq<Cliente>, vendSel: seq<string>): (r: seq<Cliente>)
    ensures mode == Todos ==> r == clientes
    ensures mode == Elegir ==> forall c :: c in r <==> c in clientes && c.vendedorCliente in vendSel
  {
    match mode
    case Todos => clientes
    case Elegir => KeepClientes(clientes, (c: Cliente) => c.vendedorCliente in vendSel)
  }

  /** A row filter on the customer sheet: the kept records, in order, with their copies. */
  function KeepClientes(clientes: seq<Cliente>, keep: Cliente -> bool): (r: seq<Cliente>)
    ensures clientes == [] ==> r == []
    ensures |r| <= |clientes|
    ensures forall c :: c in r <==> c in clientes && keep(c)
  {
    if clientes == [] then []
    else
      var rest := KeepClientes(clientes[1..], keep);
      assert forall c :: c in clientes <==> c == clientes[0] || c in clientes[1..];
      if keep(clientes[0]) then [clientes[0]] + rest else rest
  }

  lemma {:induction false} KeepClientesAppend(clientes: seq<Cliente>, x: Cliente, keep: Cliente -> bool)
    ensures KeepClientes(clientes + [x], keep) == KeepClientes(clientes, keep) + (if keep(x) then [x] else [])
  {
    if clientes == [] {
      assert [x][1..] == [];
    } else {
      assert (clientes + [x])[1..] == clientes[1..] + [x];
      KeepClientesAppend(clientes[1..], x, keep);
    }
  }

  /** The chosen salespeople's scope keeps the customer sheet's order and copies. */
  lemma ClientesScopeAppend(clientes: seq<Cliente>, x: Cliente, vendSel: seq<string>)
    ensures ClientesScope(Elegir, [], vendSel) == []
    ensures ClientesScope(Elegir, clientes + [x], vendSel)
         == ClientesScope(Elegir, clientes, vendSel) + (if x.vendedorCliente in vendSel then [x] else [])
  {
    KeepClientesAppend(clientes, x, (c: Cliente) => c.vendedorCliente in vendSel);
  }

  /** `df_no_sales_all`: the customers in scope whose code is not among the sale codes. */
  function NoSales(scope: seq<Cliente>, ventasCtes: set<string>): (r: seq<Cliente>)
    ensures forall c :: c in r ==> c in scope
    ensures forall c :: c in r ==> c.cveCte !in ventasCtes
    ensures forall c :: c in scope && c.cveCte !in ventasCtes ==> c in r
  {
    KeepClientes(scope, (c: Cliente) => c.cveCte !in ventasCtes)
  }

  /** `df_no_sales`: the first `maxNoSales` of them when the layer is on and there are more. */
  function NoSalesShown(all: seq<Cliente>, show: bool, maxNoSales: nat): (r: seq<Cliente>)
    ensures show && maxNoSales > 0 ==> |r| <= maxNoSales
    ensures r <= all
    ensures |r| < |all| ==> show && maxNoSales > 0 && |r| == maxNoSales
  {
    if show && maxNoSales > 0 && |all| > maxNoSales then all[..maxNoSales] else all
  }

  /** The no-sale list keeps the scope's order and copies. */
  lemma NoSalesAppend(scope: seq<Cliente>, x: Cliente, ventasCtes: set<string>)
    ensures NoSales([], ventasCtes) == []
    ensures NoSales(scope + [x], ventasCtes) == NoSales(scope, ventasCtes) + (if x.cveCte !in ventasCtes then [x] else [])
  {
    KeepClientesAppend(scope, x, (c: Cliente) => c.cveCte !in ventasCtes);
  }

  // ----- the search box -----

  /** The search box: a blank query keeps everyone, otherwise a substring match on name or code. */
  function Search(rows: seq<Cliente>, bus: string): (r: seq<Cliente>)
    ensures Trim(bus) == [] ==> r == rows
    ensures Trim(bus) != [] ==> forall c :: c in r <==>
      c in rows && (Contains(Lower(c.nombre), Lower(Trim(bus))) || Contains(Lower(c.cveCte), Lower(Trim(bus))))
  {
    if Trim(bus) == [] then rows
    else
      var b := Lower(Trim(bus));
      KeepClientes(rows, (c: Cliente) => Contains(Lower(c.nombre), b) || Contains(Lower(c.cveCte), b))
  }

  /** A search keeps the table's order and copies. */
  lemma SearchAppend(rows: seq<Cliente>, x: Cliente, bus: string)
    ensures Search([], bus) == []
    ensures Trim(bus) != [] ==>
              Search(rows + [x], bus) == Search(rows, bus) +
                (if Contains(Lower(x.nombre), Lower(Trim(bus))) || Contains(Lower(x.cveCte), Lower(Trim(bus))) then [x] else [])
  {
    var b := Lower(Trim(bus));
    KeepClientesAppend(rows, x, (c: Cliente) => Contains(Lower(c.nombre), b) || Contains(Lower(c.cveCte), b));
  }

  /** The query "muñoz" finds the customer named "MUÑOZ". */
  lemma SearchFindsAccentedName(c: Cliente)
    requires c.nombre == "MUÑOZ"
    ensures Search([c], " muñoz ") == [c]
  {
    assert Trim(" muñoz ") == "muñoz" by { TrimSpec(" muñoz "); }
    LowerSurname();
    assert Lower("muñoz") == "muñoz";
    assert OccursAt(Lower(c.nombre), "muñoz", 0);
  }
}
