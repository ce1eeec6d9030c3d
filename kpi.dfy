/**
 * The KPI cards of `dashboard_screen`: total pre-tax sales, customers with a
 * sale, average ticket, assigned customers, coverage, and denied value as a
 * percentage of sales, each division guarded against a zero denominator.
 */
module Kpi {
  import opened Wrappers
  import opened Ordering
  import opened Helpers
  import opened Ventas
  import opened Precios
  import opened Negados
  import opened Territorio

  /** The KPI bundle. */
  datatype Kpis = Kpis(
    ventaTotal: real,
    clientesConVenta: nat,
    ticketProm: real,
    clientesAsignados: nat,
    cobertura: real,
    pctNegadoVsVendido: real)

  /** `ventas / clientes`, 0 without customers. */
  function TicketProm(ventaTotal: real, clientes: nat): (r: real)
    ensures clientes == 0 ==> r == 0.0
    ensures clientes > 0 ==> r * clientes as real == ventaTotal
  {
    if clientes != 0 then ventaTotal / clientes as real else 0.0
  }

  /** `con_venta / asignados * 100`, 0 without assigned customers. */
  function Cobertura(conVenta: nat, asignados: nat): (r: real)
    ensures asignados == 0 ==> r == 0.0
    ensures asignados > 0 ==> r * asignados as real == conVenta as real * 100.0
    ensures r >= 0.0
    ensures conVenta <= asignados ==> r <= 100.0
  {
    if asignados != 0 then conVenta as real / asignados as real * 100.0 else 0.0
  }

  /** `negado / vendido * 100`, 0 unless something positive was sold. */
  function PctNegado(negadoValor: real, ventaTotal: real): (r: real)
    ensures ventaTotal <= 0.0 ==> r == 0.0
    ensures ventaTotal > 0.0 ==> r * ventaTotal == negadoValor * 100.0
  {
    if ventaTotal > 0.0 then negadoValor / ventaTotal * 100.0 else 0.0
  }

  /** The customer codes of a customer list. */
  function Codes(clientes: seq<Cliente>): (r: set<string>)
    ensures forall c :: c in r <==> exists i :: 0 <= i < |clientes| && clientes[i].cveCte == c
  {
    set i | 0 <= i < |clientes| :: clientes[i].cveCte
  }

  /**
   * The KPIs over the (possibly top-N-cut) sales rows, the customers in
   * scope and the denied value: `clientes_con_venta` and
   * `clientes_asignados` count distinct customer codes.
   */
  function ComputeKpis(points: seq<SalesPoint>, scope: seq<Cliente>, negadoValor: real): (k: Kpis)
    ensures points == [] ==> k.ventaTotal == 0.0 && k.clientesConVenta == 0
    ensures k.ventaTotal == SumBy(PointValue, points)
    ensures k.clientesConVenta == |VentasCtes(points)| && k.clientesConVenta <= |points|
    ensures k.clientesAsignados == |Codes(scope)| && k.clientesAsignados <= |scope|
    ensures k.clientesConVenta == 0 ==> k.ticketProm == 0.0
    ensures k.clientesAsignados == 0 ==> k.cobertura == 0.0
    ensures k.ventaTotal <= 0.0 ==> k.pctNegadoVsVendido == 0.0
    ensures k.ticketProm == TicketProm(k.ventaTotal, k.clientesConVenta)
    ensures k.cobertura == Cobertura(k.clientesConVenta, k.clientesAsignados)
    ensures k.pctNegadoVsVendido == PctNegado(negadoValor, k.ventaTotal)
  {
    var total := if points == [] then 0.0 else SumBy(PointValue, points);
    var conVenta := if points == [] then 0 else CodeCount(points);
    var asignados := ScopeCount(scope);
    Kpis(total, conVenta, TicketProm(total, conVenta), asignados, Cobertura(conVenta, asignados),
         PctNegado(negadoValor, total))
  }

  /** Number of distinct customer codes among the sales rows. */
  function CodeCount(points: seq<SalesPoint>): (n: nat)
    ensures n == |VentasCtes(points)| && n <= |points|
  {
    if points == [] then
      assert VentasCtes(points) == {};
      0
    else
      var pre := points[..|points| - 1];
      var c := points[|points| - 1].cliente.cveCte;
      assert VentasCtes(points) == VentasCtes(pre) + {c} by {
        forall x ensures x in VentasCtes(points) <==> x in VentasCtes(pre) + {c} {
          if x in VentasCtes(points) && x != c {
            var i :| 0 <= i < |points| && points[i].cliente.cveCte == x;
            assert pre[i] == points[i];
          }
          if x in VentasCtes(pre) {
            var i :| 0 <= i < |pre| && pre[i].cliente.cveCte == x;
            assert points[i] == pre[i];
          }
        }
      }
      var m := CodeCount(pre);
      if c in VentasCtes(pre) then
        assert VentasCtes(pre) + {c} == VentasCtes(pre);
        m
      else
        assert |VentasCtes(pre) + {c}| == |VentasCtes(pre)| + 1;
        m + 1
  }

  /** Number of distinct customer codes in scope. */
  function ScopeCount(scope: seq<Cliente>): (n: nat)
    ensures n == |Codes(scope)| && n <= |scope|
  {
    if scope == [] then
      assert Codes(scope) == {};
      0
    else
      var pre := scope[..|scope| - 1];
      var c := scope[|scope| - 1].cveCte;
      assert Codes(scope) == Codes(pre) + {c} by {
        forall x ensures x in Codes(scope) <==> x in Codes(pre) + {c} {
          if x in Codes(scope) && x != c {
            var i :| 0 <= i < |scope| && scope[i].cveCte == x;
            assert pre[i] == scope[i];
          }
          if x in Codes(pre) {
            var i :| 0 <= i < |pre| && pre[i].cveCte == x;
            assert scope[i] == pre[i];
          }
        }
      }
      var m := ScopeCount(pre);
      if c in Codes(pre) then
        assert Codes(pre) + {c} == Codes(pre);
        m
      else
        assert |Codes(pre) + {c}| == |Codes(pre)| + 1;
        m + 1
  }

  /** The salesperson column of the sales lines. */
  function VendedorCol(ventas: seq<Sale>): seq<string> {
    seq(|ventas|, i requires 0 <= i < |ventas| => ventas[i].vendedor)
  }

  /** What the territorial and NEGADOS parts of the screen compute. */
  datatype TerritoryView = TerritoryView(
    dfv: seq<Sale>,
    points: seq<SalesPoint>,
    scope: seq<Cliente>,
    noSalesAll: seq<Cliente>,
    noSales: seq<Cliente>,
    negados: DeniedSummary,
    kpis: Kpis)

  /** `vend_sel_str`: the chosen salespeople, every listed one in "Todos" mode, stripped. */
  function VendSel(mode: Mode, vendedorSel: seq<string>, ventas: seq<Sale>): seq<string> {
    VendSelStr(if mode == Todos then SortedNonBlank(VendedorCol(ventas)) else vendedorSel)
  }

  /**
   * The territorial steps of `dashboard_screen` in the order it takes them:
   * the salesperson choice, the sales filter, the aggregation, the join to
   * customers and the top-N cut; only then the sale codes, the scope, the
   * no-sale list and the KPIs. The NEGADOS block runs on the whole sales
   * sheet's salesperson numbers, and its total feeds the last KPI.
   */
  function Territory(mode: Mode, vendedorSel: seq<string>, especieSel: seq<string>, ventas: seq<Sale>,
                     clientes: seq<Cliente>, soloTop: nat, showNoSales: bool, maxNoSales: nat,
                     negados: Result<seq<Denied>>, prices: Result<seq<PriceEntry>>,
                     toNumeric: string -> Option<real>)
    : (t: TerritoryView)
    requires prices.Ok? ==> UniqueCodes(prices.value)
    ensures t.dfv == FilterSales(ventas, VendSel(mode, vendedorSel, ventas), especieSel)
    ensures t.points == TopRows(JoinClientes(Aggregate(t.dfv), clientes), soloTop)
    ensures t.scope == ClientesScope(mode, clientes, VendSel(mode, vendedorSel, ventas))
    ensures t.noSalesAll == NoSales(t.scope, VentasCtes(t.points))
    ensures t.noSales == NoSalesShown(t.noSalesAll, showNoSales, maxNoSales)
    ensures t.negados == NegadosBlock(negados, prices, SelectedCveVnd(mode, ventas, VendSel(mode, vendedorSel, ventas), toNumeric))
    ensures t.kpis == ComputeKpis(t.points, t.scope, t.negados.negadoValor)
    ensures forall c :: c in t.noSalesAll ==> c in t.scope
    ensures forall c, i :: c in t.noSalesAll && 0 <= i < |t.points| ==> t.points[i].cliente.cveCte != c.cveCte
    ensures forall c :: (c in t.scope && forall i :: 0 <= i < |t.points| ==> t.points[i].cliente.cveCte != c.cveCte) ==>
              c in t.noSalesAll
    ensures t.noSales <= t.noSalesAll
    ensures t.kpis.clientesConVenta == |VentasCtes(t.points)|
    ensures t.kpis.clientesAsignados == |Codes(t.scope)|
  {
    var sel := VendSel(mode, vendedorSel, ventas);
    var dfv := FilterSales(ventas, sel, especieSel);
    var points := TopRows(JoinClientes(Aggregate(dfv), clientes), soloTop);
    var scope := ClientesScope(mode, clientes, sel);
    var all := NoSales(scope, VentasCtes(points));
    var neg := NegadosBlock(negados, prices, SelectedCveVnd(mode, ventas, sel, toNumeric));
    TerritoryView(dfv, points, scope, all, NoSalesShown(all, showNoSales, maxNoSales), neg,
                  ComputeKpis(points, scope, neg.negadoValor))
  }

  /**
   * Without a top-N cut, and with one customer record per customer code that
   * was sold to, `venta_total` is the total value of the filtered sales lines.
   */
  lemma VentaTotalIsLinesTotal(dfv: seq<Sale>, clientes: seq<Cliente>, scope: seq<Cliente>, negadoValor: real)
    requires forall k :: 0 <= k < |dfv| ==> |ClientesOf(clientes, dfv[k].cveCte)| == 1
    ensures ComputeKpis(JoinClientes(Aggregate(dfv), clientes), scope, negadoValor).ventaTotal == SumBy(SaleValue, dfv)
  {
    var groups := Aggregate(dfv);
    AggregateKeys(dfv);
    forall g | g in groups ensures |ClientesOf(clientes, g.cveCte)| == 1 {
      var k :| 0 <= k < |dfv| && SaleKey(dfv[k]) == GroupKey(g);
    }
    JoinKeepsValue(groups, clientes);
    AggregateKeepsValue(dfv);
  }

  /** Coverage stays within 100 whenever every customer with a sale is in scope. */
  lemma CoverageBounded(points: seq<SalesPoint>, scope: seq<Cliente>, negadoValor: real)
    requires VentasCtes(points) <= Codes(scope)
    ensures 0.0 <= ComputeKpis(points, scope, negadoValor).cobertura <= 100.0
  {
    var k := ComputeKpis(points, scope, negadoValor);
    CardMono(VentasCtes(points), Codes(scope));
  }

  lemma CardMono(a: set<string>, b: set<string>)
    requires a <= b
    ensures |a| <= |b|
  {
    assert b == a + (b - a);
  }

  /**
   * In "Todos" mode the scope is the whole customer list, and every joined
   * sales row carries one of its customers, so coverage stays within 100
   * with or without the top-N cut.
   */
  lemma TodosCoverageBounded(groups: seq<CustomerGroup>, clientes: seq<Cliente>, n: nat, vendSel: seq<string>, negadoValor: real)
    ensures var points := TopRows(JoinClientes(groups, clientes), n);
      0.0 <= ComputeKpis(points, ClientesScope(Todos, clientes, vendSel), negadoValor).cobertura <= 100.0
  {
    var joined := JoinClientes(groups, clientes);
    var points := TopRows(joined, n);
    forall c | c in VentasCtes(points) ensures c in Codes(clientes) {
      var i :| 0 <= i < |points| && points[i].cliente.cveCte == c;
      assert points[i] in multiset(joined);
      var j :| 0 <= j < |clientes| && clientes[j] == points[i].cliente;
    }
    CoverageBounded(points, clientes, negadoValor);
  }

  /**
   * In "Elegir" mode the numerator counts the customers the selected
   * salespeople sold to, the denominator the customers assigned to them:
   * two sales by "V2" to customers assigned to "V1", against the one
   * customer assigned to "V2", give a coverage of 200.
   */
  lemma ElegirCoverageCanExceedHundred()
    ensures ComputeKpis(ExamplePoints(), ClientesScope(Elegir, ExampleClientes(), ["V2"]), 0.0).cobertura == 200.0
  {
    var scope := ClientesScope(Elegir, ExampleClientes(), ["V2"]);
    ExampleScopeCodes();
    ExamplePointCodes();
    var k := ComputeKpis(ExamplePoints(), scope, 0.0);
    assert k.clientesConVenta == 2 && k.clientesAsignados == 1;
    assert k.cobertura == Cobertura(2, 1);
  }

  function ExampleClientes(): seq<Cliente> {
    [Cliente("A", "V1", "", 0.0, 0.0), Cliente("B", "V2", "", 0.0, 0.0), Cliente("C", "V1", "", 0.0, 0.0)]
  }

  function ExamplePoints(): seq<SalesPoint> {
    [SalesPoint(CustomerGroup("A", "V2", 1.0, [], 1), ExampleClientes()[0]),
     SalesPoint(CustomerGroup("C", "V2", 1.0, [], 1), ExampleClientes()[2])]
  }

  lemma ExampleScopeCodes()
    ensures |Codes(ClientesScope(Elegir, ExampleClientes(), ["V2"]))| == 1
  {
    var cl := ExampleClientes();
    var scope := ClientesScope(Elegir, cl, ["V2"]);
    assert cl[1] in scope;
    assert forall x :: x in scope ==> x == cl[1];
    assert Codes(scope) == {"B"} by {
      assert scope[0] in scope;
    }
  }

  lemma ExamplePointCodes()
    ensures |VentasCtes(ExamplePoints())| == 2
  {
    var points := ExamplePoints();
    assert points[0].cliente.cveCte == "A";
    assert points[1].cliente.cveCte == "C";
    assert VentasCtes(points) == {"A", "C"};
  }
}
