/**
 * `load_ventas`: one month's sales sheet turned into typed sales lines with
 * their pre-tax value `venta_sin_iva`.
 */
module Ventas {
  import opened Wrappers
  import opened Text
  import opened Helpers

  /** IVA (16%) divided out of a tax-inclusive total. */
  const IvaFactor: real := 1.16

  /** A sales row as read: text cells, and numeric cells already coerced (None = NaN). */
  datatype RawSale = RawSale(
    cveCte: Option<string>,
    vendedor: Option<string>,
    cveVnd: Option<real>,
    especie: Option<string>,
    total: Option<real>,
    cantidad: Option<real>,
    importe: Option<real>)

  /** A sheet: its column names (already stripped and lower-cased) and its data rows. */
  datatype SalesSheet = SalesSheet(headers: seq<string>, rows: seq<RawSale>)

  /** A loaded sales line. */
  datatype Sale = Sale(cveCte: string, vendedor: string, cveVnd: Option<int>, especie: string, ventaSinIva: real)

  predicate HasColumn(headers: seq<string>, name: string) {
    name in headers
  }

  /** A text column after `ensure_col(df, name, "")` and `.astype(str).str.strip()`. */
  function TextCol(headers: seq<string>, name: string, cell: Option<string>): string {
    if HasColumn(headers, name) then Trim(AsStr(cell)) else ""
  }

  /** A numeric column after `ensure_col(df, name, 0)` and `to_num`. */
  function NumCol(headers: seq<string>, name: string, cell: Option<real>): real {
    if HasColumn(headers, name) then ToNum(cell) else 0.0
  }

  function TotalOf(sheet: SalesSheet, k: nat): real
    requires k < |sheet.rows|
  {
    NumCol(sheet.headers, "total", sheet.rows[k].total)
  }

  function QtyValueOf(sheet: SalesSheet, k: nat): real
    requires k < |sheet.rows|
  {
    NumCol(sheet.headers, "cantidad", sheet.rows[k].cantidad) * NumCol(sheet.headers, "importe", sheet.rows[k].importe)
  }

  /** The batch carries totals when any coerced `total` is nonzero. */
  ghost predicate TotalBearing(sheet: SalesSheet) {
    exists k :: 0 <= k < |sheet.rows| && TotalOf(sheet, k) != 0.0
  }

  /** The identifying columns of row `k`, normalised as the loader does. */
  ghost predicate LoadedKeys(sheet: SalesSheet, k: nat, s: Sale)
    requires k < |sheet.rows|
  {
    var raw := sheet.rows[k];
    && s.cveCte == TextCol(sheet.headers, "cve_cte", raw.cveCte)
    && s.vendedor == TextCol(sheet.headers, "vendedor", raw.vendedor)
    && s.especie == TextCol(sheet.headers, "especie", raw.especie)
    && s.cveVnd == (if HasColumn(sheet.headers, "cve_vnd") then NormalizeInt(raw.cveVnd) else None)
  }

  /** Row `k` loaded under the batch's value rule. */
  function LoadRow(sheet: SalesSheet, k: nat, totalBearing: bool): (s: Sale)
    requires k < |sheet.rows|
    ensures LoadedKeys(sheet, k, s)
    ensures s.ventaSinIva == if totalBearing then TotalOf(sheet, k) / IvaFactor else QtyValueOf(sheet, k)
  {
    var raw := sheet.rows[k];
    Sale(
      TextCol(sheet.headers, "cve_cte", raw.cveCte),
      TextCol(sheet.headers, "vendedor", raw.vendedor),
      if HasColumn(sheet.headers, "cve_vnd") then NormalizeInt(raw.cveVnd) else None,
      TextCol(sheet.headers, "especie", raw.especie),
      if totalBearing then TotalOf(sheet, k) / IvaFactor else QtyValueOf(sheet, k))
  }

  /**
   * `load_ventas`. The pre-tax rule is decided once per batch: when any row
   * has a nonzero total, every row (a zero-total one too) is valued
   * `total / 1.16`; otherwise every row is valued `cantidad * importe`.
   */
  method LoadVentas(sheet: SalesSheet) returns (sales: seq<Sale>)
    ensures |sales| == |sheet.rows|
    ensures forall k :: 0 <= k < |sales| ==> LoadedKeys(sheet, k, sales[k])
    ensures TotalBearing(sheet) ==>
      forall k :: 0 <= k < |sales| ==> sales[k].ventaSinIva == TotalOf(sheet, k) / IvaFactor
    ensures !TotalBearing(sheet) ==>
      forall k :: 0 <= k < |sales| ==> sales[k].ventaSinIva == QtyValueOf(sheet, k)
  {
    var n := |sheet.rows|;
    var anyTotal := false;
    var i := 0;
    while i < n
      invariant 0 <= i <= n
      invariant anyTotal <==> exists k :: 0 <= k < i && TotalOf(sheet, k) != 0.0
    {
      if TotalOf(sheet, i) != 0.0 {
        anyTotal := true;
      }
      i := i + 1;
    }
    sales := [];
    i := 0;
    while i < n
      invariant 0 <= i <= n && |sales| == i
      invariant forall k :: 0 <= k < i ==> sales[k] == LoadRow(sheet, k, anyTotal)
    {
      sales := sales + [LoadRow(sheet, i, anyTotal)];
      i := i + 1;
    }
    assert anyTotal == TotalBearing(sheet);
    forall k | 0 <= k < n
      ensures LoadedKeys(sheet, k, sales[k])
      ensures sales[k].ventaSinIva == if anyTotal then TotalOf(sheet, k) / IvaFactor else QtyValueOf(sheet, k)
    {
      assert sales[k] == LoadRow(sheet, k, anyTotal);
    }
  }
}
