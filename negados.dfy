/**
 * NEGADOS (denied demand): `load_negados_serur` and the valuation block of
 * `dashboard_screen`, which restricts the denied lines to the selected
 * salespeople, prices them against the reduced price list and breaks the
 * valued total down by article.
 */
module Negados {
  import opened Wrappers
  import opened Text
  import opened Ordering
  import opened Grouping
  import opened Helpers
  import opened Ventas
  import opened Precios

  /** A denied-demand row as read; numeric cells already coerced (None = NaN). */
  datatype RawDeniedRow = RawDeniedRow(cveVnd: Option<real>, cveArt: Option<string>, expression: Option<real>)

  /** A sheet: its column names (already stripped and lower-cased) and its data rows. */
  datatype DeniedSheet = DeniedSheet(headers: seq<string>, rows: seq<RawDeniedRow>)

  /** A loaded denied line: salesperson number, article code, denied quantity. */
  datatype Denied = Denied(cveVnd: Option<int>, cveArt: string, cantNegada: real)

  const NoCveArt: string := "No encontré cve_art en NEGADOS."
  const NoExpression: string := "No encontré (expression) en NEGADOS (ahí debe venir la cantidad negada)."
  const NoCveVnd: string := "No encontré cve_vnd (número de vendedor) en NEGADOS."

  /** The column rewrites of the loader, for one row. */
  function LoadDeniedRow(raw: RawDeniedRow): (d: Denied)
    ensures d.cveVnd.Some? <==> raw.cveVnd.Some?
    ensures d.cveVnd == NormalizeInt(raw.cveVnd)
    ensures d.cveArt == Trim(AsStr(raw.cveArt))
    ensures raw.expression.None? ==> d.cantNegada == 0.0
    ensures raw.expression.Some? ==> d.cantNegada == raw.expression.value
  {
    Denied(NormalizeInt(raw.cveVnd), Trim(AsStr(raw.cveArt)), ToNum(raw.expression))
  }

  /**
   * `load_negados_serur`: the three schema checks, in the order the loader
   * makes them, then the row rewrites.
   */
  method LoadNegados(sheet: DeniedSheet) returns (r: Result<seq<Denied>>)
    ensures r.Err? <==> !("cve_art" in sheet.headers && "(expression)" in sheet.headers && "cve_vnd" in sheet.headers)
    ensures "cve_art" !in sheet.headers ==> r == Err(NoCveArt)
    ensures "cve_art" in sheet.headers && "(expression)" !in sheet.headers ==> r == Err(NoExpression)
    ensures "cve_art" in sheet.headers && "(expression)" in sheet.headers && "cve_vnd" !in sheet.headers ==>
      r == Err(NoCveVnd)
    ensures r.Ok? ==> |r.value| == |sheet.rows|
    ensures r.Ok? ==> forall k :: 0 <= k < |sheet.rows| ==> r.value[k] == LoadDeniedRow(sheet.rows[k])
  {
    if "cve_art" !in sheet.headers {
      return Err(NoCveArt);
    }
    if "(expression)" !in sheet.headers {
      return Err(NoExpression);
    }
    if "cve_vnd" !in sheet.headers {
      return Err(NoCveVnd);
    }
    var lines: seq<Denied> := [];
    var i := 0;
    while i < |sheet.rows|
      invariant 0 <= i <= |sheet.rows| && |lines| == i
      invariant forall k :: 0 <= k < i ==> lines[k] == LoadDeniedRow(sheet.rows[k])
    {
      lines := lines + [LoadDeniedRow(sheet.rows[i])];
      i := i + 1;
    }
    return Ok(lines);
  }

  // ----- salesperson scope -----

  /** The salesperson radio button. */
  datatype Mode = Todos | Elegir

  /** `[str(x).strip() for x in vendedor_sel]`. */
  function VendSelStr(vendedorSel: seq<string>): (r: seq<string>)
    ensures |r| == |vendedorSel|
    ensures forall i :: 0 <= i < |r| ==> r[i] == Trim(vendedorSel[i])
  {
    seq(|vendedorSel|, i requires 0 <= i < |vendedorSel| => Trim(vendedorSel[i]))
  }

  /** Some sales line carries a salesperson number. */
  predicate AnyCveVnd(sales: seq<Sale>) {
    exists k :: 0 <= k < |sales| && sales[k].cveVnd.Some?
  }

  /**
   * The numbers of the sales lines whose (already stripped) salesperson name
   * is selected; the sales mapping `vendedor -> cve_vnd` with NA dropped.
   */
  function MappedCodes(sales: seq<Sale>, sel: seq<string>): (r: seq<int>)
    ensures forall c :: c in r <==> exists k :: 0 <= k < |sales| && sales[k].cveVnd == Some(c) && sales[k].vendedor in sel
  {
    if sales == [] then []
    else
      var rest := MappedCodes(sales[1..], sel);
      assert forall k :: 1 <= k < |sales| ==> sales[k] == sales[1..][k - 1];
      var s := sales[0];
      if s.cveVnd.Some? && s.vendedor in sel then [s.cveVnd.value] + rest else rest
  }

  /** `normalize_int_series(vend_sel_str).dropna()`: the names that parse as numbers, rounded. */
  function ParsedCodes(sel: seq<string>, toNumeric: string -> Option<real>): (r: seq<int>)
    ensures forall c :: c in r <==> exists k :: 0 <= k < |sel| && NormalizeInt(toNumeric(sel[k])) == Some(c)
  {
    if sel == [] then []
    else
      var rest := ParsedCodes(sel[1..], toNumeric);
      assert forall k :: 1 <= k < |sel| ==> sel[k] == sel[1..][k - 1];
      match NormalizeInt(toNumeric(sel[0]))
      case Some(c) => [c] + rest
      case None => rest
  }

  /**
   * `selected_cve_vnd`: None ("Todos", no filter) or the sorted distinct
   * salesperson numbers. They come from the sales mapping when some sales line
   * carries a number, and otherwise from reading the selected names as numbers
   * (`toNumeric` stands for `pd.to_numeric(errors="coerce")` on one string).
   */
  function SelectedCveVnd(mode: Mode, sales: seq<Sale>, sel: seq<string>, toNumeric: string -> Option<real>)
    : (r: Option<seq<int>>)
    ensures r.None? <==> mode == Todos
    ensures r.Some? ==> StrictlyAscending(IntLess, r.value)
    ensures r.Some? && AnyCveVnd(sales) ==> forall c :: c in r.value <==>
      exists k :: 0 <= k < |sales| && sales[k].cveVnd == Some(c) && sales[k].vendedor in sel
    ensures r.Some? && !AnyCveVnd(sales) ==> forall c :: c in r.value <==>
      exists k :: 0 <= k < |sel| && NormalizeInt(toNumeric(sel[k])) == Some(c)
  {
    IntStrictTotal();
    match mode
    case Todos => None
    case Elegir =>
      if AnyCveVnd(sales) then Some(SortedSet(IntLess, MappedCodes(sales, sel)))
      else Some(SortedSet(IntLess, ParsedCodes(sel, toNumeric)))
  }

  /** A denied line whose salesperson number is among `codes` (an NA number never is). */
  predicate InScope(d: Denied, codes: seq<int>) {
    d.cveVnd.Some? && d.cveVnd.value in codes
  }

  /** A line survives the scope: there is no scope, or its salesperson number is in it. */
  predicate Kept(scope: Option<seq<int>>, d: Denied) {
    scope.None? || InScope(d, scope.value)
  }

  /**
   * `dfn[dfn["cve_vnd"].isin(selected_cve_vnd)]`, skipped when the scope is
   * None: every copy of a passing line is kept, in order (see FilterScopeAppend).
   */
  function FilterScope(scope: Option<seq<int>>, lines: seq<Denied>): (r: seq<Denied>)
    ensures lines == [] ==> r == []
    ensures |r| <= |lines|
    ensures scope.None? ==> r == lines
    ensures scope.Some? ==> forall d :: d in r <==> d in lines && InScope(d, scope.value)
  {
    match scope
    case None => lines
    case Some(codes) =>
      if lines == [] then []
      else
        var rest := FilterScope(scope, lines[1..]);
        assert forall d :: d in lines <==> d == lines[0] || d in lines[1..];
        if InScope(lines[0], codes) then [lines[0]] + rest else rest
  }

  /** The scope filter distributes over appending a line, which fixes the order of what is kept. */
  lemma {:induction false} FilterScopeAppend(scope: Option<seq<int>>, lines: seq<Denied>, x: Denied)
    ensures FilterScope(scope, lines + [x]) == FilterScope(scope, lines) + (if Kept(scope, x) then [x] else [])
  {
    if scope.Some? {
      if lines == [] {
        assert [x][1..] == [];
      } else {
        assert (lines + [x])[1..] == lines[1..] + [x];
        FilterScopeAppend(scope, lines[1..], x);
      }
    }
  }

  /** Every copy of a line in scope survives the filter, and no copy of any other line does. */
  lemma {:induction false} FilterScopeCounts(scope: Option<seq<int>>, lines: seq<Denied>)
    ensures forall d :: multiset(FilterScope(scope, lines))[d] == if Kept(scope, d) then multiset(lines)[d] else 0
  {
    if scope.Some? && lines != [] {
      FilterScopeCounts(scope, lines[1..]);
      assert lines == [lines[0]] + lines[1..];
    }
  }

  // ----- valuation -----

  /** A denied line after the price join. */
  datatype ValuedLine = ValuedLine(cveVnd: Option<int>, cveArt: string, cantNegada: real, precio: real, descri: string, valorNegado: real)

  /**
   * One denied line through the left join on `cve_art`: a line without a
   * price entry gets `precio` 0 and, as `astype(str)` renders the missing
   * description, the description "nan".
   */
  function JoinLine(d: Denied, prices: seq<PriceEntry>): (v: ValuedLine)
    ensures v.cveVnd == d.cveVnd && v.cveArt == d.cveArt && v.cantNegada == d.cantNegada
    ensures v.valorNegado == v.cantNegada * v.precio
    ensures (forall e :: e in prices ==> e.cveArt != d.cveArt) ==> v.precio == 0.0 && v.descri == "nan"
    ensures (exists e :: e in prices && e.cveArt == d.cveArt) ==>
      exists e :: e in prices && e.cveArt == d.cveArt && v.precio == e.precio && v.descri == Trim(e.descri)
    ensures UniqueCodes(prices) ==>
      forall e :: e in prices && e.cveArt == d.cveArt ==> v.precio == e.precio && v.descri == Trim(e.descri)
  {
    match FindEntry(prices, d.cveArt)
    case Some(e) =>
      assert UniqueCodes(prices) ==> forall f :: f in prices && f.cveArt == d.cveArt ==> f == e by {
        if UniqueCodes(prices) {
          forall f | f in prices && f.cveArt == d.cveArt ensures f == e {
            var i :| 0 <= i < |prices| && prices[i] == f;
            var j :| 0 <= j < |prices| && prices[j] == e;
            assert i == j;
          }
        }
      }
      ValuedLine(d.cveVnd, d.cveArt, d.cantNegada, e.precio, Trim(e.descri), d.cantNegada * e.precio)
    case None => ValuedLine(d.cveVnd, d.cveArt, d.cantNegada, 0.0, "nan", d.cantNegada * 0.0)
  }

  /** `dfn.merge(precios_df, on="cve_art", how="left")`: one valued line per denied line, in order. */
  function Join(lines: seq<Denied>, prices: seq<PriceEntry>): (r: seq<ValuedLine>)
    ensures |r| == |lines|
    ensures forall i :: 0 <= i < |r| ==> r[i] == JoinLine(lines[i], prices)
  {
    seq(|lines|, i requires 0 <= i < |lines| => JoinLine(lines[i], prices))
  }

  function LineValue(v: ValuedLine): real { v.valorNegado }

  function LineKey(v: ValuedLine): (string, string) { (v.cveArt, v.descri) }

  /** A line with a positive denied quantity and no usable price. */
  predicate Unpriced(v: ValuedLine) {
    v.cantNegada > 0.0 && v.precio <= 0.0
  }

  /** `faltan_precios`: the number of unpriced lines. */
  function CountUnpriced(lines: seq<ValuedLine>): (n: nat)
    ensures n <= |lines|
    ensures n == 0 <==> forall i :: 0 <= i < |lines| ==> !Unpriced(lines[i])
  {
    if lines == [] then 0
    else
      assert forall i :: 1 <= i < |lines| ==> lines[i] == lines[1..][i - 1];
      (if Unpriced(lines[0]) then 1 else 0) + CountUnpriced(lines[1..])
  }

  /** Appending a line adds one to `faltan_precios` exactly when that line is unpriced. */
  lemma {:induction false} CountUnpricedAppend(lines: seq<ValuedLine>, v: ValuedLine)
    ensures CountUnpriced(lines + [v]) == CountUnpriced(lines) + if Unpriced(v) then 1 else 0
  {
    if lines == [] {
      assert [v][1..] == [];
    } else {
      assert (lines + [v])[1..] == lines[1..] + [v];
      CountUnpricedAppend(lines[1..], v);
    }
  }

  /** When every denied article has a positive price, no line is reported without one. */
  lemma AllPricedNoneMissing(lines: seq<Denied>, prices: seq<PriceEntry>)
    requires forall i :: 0 <= i < |lines| ==> exists e :: e in prices && e.cveArt == lines[i].cveArt
    requires forall e :: e in prices ==> e.precio > 0.0
    ensures CountUnpriced(Join(lines, prices)) == 0
  {
    var r := Join(lines, prices);
    forall i | 0 <= i < |r| ensures !Unpriced(r[i]) {
      assert r[i] == JoinLine(lines[i], prices);
    }
  }

  // ----- breakdown by article -----

  /** A row of the per-article breakdown. */
  datatype ArticleLine = ArticleLine(cveArt: string, descri: string, valorNegado: real, pctTotal: real)

  function ArticleValue(a: ArticleLine): real { a.valorNegado }

  function ArticleKey(a: ArticleLine): (string, string) { (a.cveArt, a.descri) }

  /** One row per key, carrying the sum of the values of that key's lines. */
  function GroupRows(keys: seq<(string, string)>, lines: seq<ValuedLine>): (r: seq<ArticleLine>)
    ensures |r| == |keys|
    ensures forall i :: 0 <= i < |r| ==> ArticleKey(r[i]) == keys[i]
    ensures forall i :: 0 <= i < |r| ==> r[i].valorNegado == SumWhere(lines, LineKey, LineValue, keys[i])
    ensures SumBy(ArticleValue, r) == SumOverKeys(keys, lines, LineKey, LineValue)
  {
    if keys == [] then []
    else
      var a := ArticleLine(keys[0].0, keys[0].1, SumWhere(lines, LineKey, LineValue, keys[0]), 0.0);
      [a] + GroupRows(keys[1..], lines)
  }

  function LineKeys(lines: seq<ValuedLine>): (r: seq<(string, string)>)
    ensures forall k :: k in r <==> exists i :: 0 <= i < |lines| && LineKey(lines[i]) == k
  {
    var r := seq(|lines|, i requires 0 <= i < |lines| => LineKey(lines[i]));
    assert forall i :: 0 <= i < |lines| ==> r[i] == LineKey(lines[i]);
    r
  }

  /**
   * `groupby(["cve_art","descri"]).agg(valor_negado=sum)
   * .sort_values("valor_negado", ascending=False)`, before `pct_total`.
   */
  function Grouped(lines: seq<ValuedLine>): (r: seq<ArticleLine>)
    ensures NonIncreasing(ArticleValue, r)
    ensures forall a :: a in r ==> a.valorNegado == SumWhere(lines, LineKey, LineValue, ArticleKey(a))
  {
    PairStrictTotal();
    var keys := SortedSet(PairLess, LineKeys(lines));
    var g := GroupRows(keys, lines);
    var r := SortDesc(ArticleValue, g);
    assert forall a :: a in r ==> a in g by {
      forall a | a in r ensures a in g {
        assert a in multiset(r);
      }
    }
    r
  }

  /** The groups are exactly the (article, description) pairs of the lines. */
  lemma GroupedKeys(lines: seq<ValuedLine>)
    ensures forall a :: a in Grouped(lines) ==> exists i :: 0 <= i < |lines| && LineKey(lines[i]) == ArticleKey(a)
    ensures forall i :: 0 <= i < |lines| ==> exists a :: a in Grouped(lines) && ArticleKey(a) == LineKey(lines[i])
  {
    PairStrictTotal();
    var keys := SortedSet(PairLess, LineKeys(lines));
    var g := GroupRows(keys, lines);
    var r := SortDesc(ArticleValue, g);
    assert r == Grouped(lines);
    forall a | a in r ensures exists i :: 0 <= i < |lines| && LineKey(lines[i]) == ArticleKey(a) {
      assert a in multiset(g);
      var j :| 0 <= j < |g| && g[j] == a;
      assert ArticleKey(a) in keys;
    }
    forall i | 0 <= i < |lines| ensures exists a :: a in r && ArticleKey(a) == LineKey(lines[i]) {
      var k := LineKey(lines[i]);
      assert k in keys;
      var j :| 0 <= j < |keys| && keys[j] == k;
      assert g[j] in multiset(r);
    }
  }

  /** No two groups share an (article, description) pair. */
  lemma GroupedDistinct(lines: seq<ValuedLine>)
    ensures DistinctKeys(ArticleKey, Grouped(lines))
  {
    PairStrictTotal();
    var keys := SortedSet(PairLess, LineKeys(lines));
    AscendingIsDistinct(PairLess, keys);
    var g := GroupRows(keys, lines);
    SortDescDistinct(ArticleValue, ArticleKey, g);
  }

  /** The groups' values add up to the valued total. */
  lemma {:induction false} GroupedSum(lines: seq<ValuedLine>)
    ensures SumBy(ArticleValue, Grouped(lines)) == SumBy(LineValue, lines)
  {
    PairStrictTotal();
    var keys := SortedSet(PairLess, LineKeys(lines));
    AscendingIsDistinct(PairLess, keys);
    PartitionSum(keys, lines, LineKey, LineValue);
    SortDescSum(ArticleValue, ArticleValue, GroupRows(keys, lines));
  }

  /** `pct_total`: each group's share of the total, or 0 everywhere when the total is not positive. */
  function WithPct(rows: seq<ArticleLine>, total: real): (r: seq<ArticleLine>)
    ensures |r| == |rows|
    ensures forall i :: 0 <= i < |r| ==> ArticleKey(r[i]) == ArticleKey(rows[i]) && r[i].valorNegado == rows[i].valorNegado
    ensures total > 0.0 ==> forall i :: 0 <= i < |r| ==> r[i].pctTotal * total == rows[i].valorNegado * 100.0
    ensures total <= 0.0 ==> forall i :: 0 <= i < |r| ==> r[i].pctTotal == 0.0
  {
    seq(|rows|, i requires 0 <= i < |rows| =>
      var a := rows[i];
      ArticleLine(a.cveArt, a.descri, a.valorNegado, if total > 0.0 then a.valorNegado / total * 100.0 else 0.0))
  }

  function Pct(a: ArticleLine): real { a.pctTotal }

  lemma {:induction false} WithPctSums(rows: seq<ArticleLine>, total: real)
    ensures SumBy(ArticleValue, WithPct(rows, total)) == SumBy(ArticleValue, rows)
    ensures total > 0.0 ==> SumBy(Pct, WithPct(rows, total)) * total == SumBy(ArticleValue, rows) * 100.0
  {
    if rows != [] {
      WithPctSums(rows[1..], total);
      assert WithPct(rows, total)[1..] == WithPct(rows[1..], total);
    }
  }

  // ----- the block -----

  /** What the block yields: `negado_valor`, `faltan_precios` and `detalle_negados`. */
  datatype DeniedSummary = DeniedSummary(negadoValor: real, faltanPrecios: nat, detalle: seq<ArticleLine>)

  /** The valuation once both loaders succeeded. */
  function Valuate(negados: seq<Denied>, prices: seq<PriceEntry>, scope: Option<seq<int>>): DeniedSummary {
    var lines := Join(FilterScope(scope, negados), prices);
    var total := SumBy(LineValue, lines);
    DeniedSummary(total, CountUnpriced(lines), WithPct(Grouped(lines), total))
  }

  /**
   * The NEGADOS block: zero, zero and no detail unless both loaders succeeded.
   * The price list is the reduced one, with one entry per code
   * (`Precios.ReducedCodesUnique`), so the left merge yields one line per
   * denied line.
   */
  function NegadosBlock(negados: Result<seq<Denied>>, prices: Result<seq<PriceEntry>>, scope: Option<seq<int>>)
    : (s: DeniedSummary)
    requires prices.Ok? ==> UniqueCodes(prices.value)
    ensures (negados.Err? || prices.Err?) ==> s == DeniedSummary(0.0, 0, [])
    ensures negados.Ok? && prices.Ok? ==> s == Valuate(negados.value, prices.value, scope)
  {
    if negados.Ok? && prices.Ok? then Valuate(negados.value, prices.value, scope)
    else DeniedSummary(0.0, 0, [])
  }

  /** The detail's values add up to `negado_valor`, and sit in non-increasing order. */
  lemma DetailSumsToTotal(negados: seq<Denied>, prices: seq<PriceEntry>, scope: Option<seq<int>>)
    ensures var s := Valuate(negados, prices, scope);
      SumBy(ArticleValue, s.detalle) == s.negadoValor && NonIncreasing(ArticleValue, s.detalle)
  {
    var lines := Join(FilterScope(scope, negados), prices);
    var total := SumBy(LineValue, lines);
    GroupedSum(lines);
    WithPctSums(Grouped(lines), total);
  }

  /** The percentages add up to 100 when something was denied. */
  lemma PctSumsToHundred(negados: seq<Denied>, prices: seq<PriceEntry>, scope: Option<seq<int>>)
    requires Valuate(negados, prices, scope).negadoValor > 0.0
    ensures SumBy(Pct, Valuate(negados, prices, scope).detalle) == 100.0
  {
    var lines := Join(FilterScope(scope, negados), prices);
    var total := SumBy(LineValue, lines);
    var g := Grouped(lines);
    var d := WithPct(g, total);
    assert Valuate(negados, prices, scope) == DeniedSummary(total, CountUnpriced(lines), d);
    GroupedSum(lines);
    PctOfTotal(g, total);
  }

  lemma PctOfTotal(rows: seq<ArticleLine>, total: real)
    requires total > 0.0 && SumBy(ArticleValue, rows) == total
    ensures SumBy(Pct, WithPct(rows, total)) == 100.0
  {
    WithPctSums(rows, total);
    CancelPositive(SumBy(Pct, WithPct(rows, total)), total);
  }

  lemma CancelPositive(p: real, t: real)
    requires t > 0.0 && p * t == t * 100.0
    ensures p == 100.0
  {
    assert (p - 100.0) * t == 0.0;
  }

  /** Every percentage is 0 when nothing positive was denied. */
  lemma PctZeroWithoutTotal(negados: seq<Denied>, prices: seq<PriceEntry>, scope: Option<seq<int>>)
    requires Valuate(negados, prices, scope).negadoValor <= 0.0
    ensures forall a :: a in Valuate(negados, prices, scope).detalle ==> a.pctTotal == 0.0
  {
  }

  lemma {:induction false} FilterScopeEmpty(lines: seq<Denied>)
    ensures FilterScope(Some([]), lines) == []
  {
    if lines != [] {
      FilterScopeEmpty(lines[1..]);
    }
  }

  /** An explicit empty scope values nothing. */
  lemma EmptyScopeValuesNothing(negados: seq<Denied>, prices: seq<PriceEntry>)
    ensures Valuate(negados, prices, Some([])) == DeniedSummary(0.0, 0, [])
  {
    FilterScopeEmpty(negados);
    var lines := Join(FilterScope(Some([]), negados), prices);
    GroupedKeys(lines);
  }

  /** Any explicit scope keeps a sub-collection of what "Todos" keeps. */
  lemma ScopeNarrows(negados: seq<Denied>, codes: seq<int>)
    ensures forall d :: d in FilterScope(Some(codes), negados) ==> d in FilterScope(None, negados)
    ensures |FilterScope(Some(codes), negados)| <= |FilterScope(None, negados)|
  {
  }
}
