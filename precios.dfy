/**
 * `load_precios_serur`: the price list reduced to one entry per article code
 * (`cve_art`), restricted first to the primary price type when there is one.
 */
module Precios {
  import opened Wrappers
  import opened Text
  import opened Ordering
  import opened Helpers

  /** A price-list row as read; numeric cells already coerced (None = NaN). */
  datatype RawPriceRow = RawPriceRow(tipPre: Option<real>, cveArt: Option<string>, descri: Option<string>, precio: Option<real>)

  /** A sheet: its column names (already stripped and lower-cased) and its data rows. */
  datatype PriceSheet = PriceSheet(headers: seq<string>, rows: seq<RawPriceRow>)

  /** A row after coercion of its columns. */
  datatype PriceRow = PriceRow(cveArt: string, precio: real, descri: string, tipPre: int)

  /** One reduced price-list entry. */
  datatype PriceEntry = PriceEntry(cveArt: string, precio: real, descri: string)

  const MissingPriceColumns: string := "No encontré columnas cve_art/precio en PRECIOS."

  /** `astype(int)` of a float: truncation toward zero. */
  function Trunc(x: real): (r: int)
    ensures x >= 0.0 ==> r as real <= x < r as real + 1.0
    ensures x < 0.0 ==> r as real - 1.0 < x <= r as real
  {
    if x >= 0.0 then x.Floor else -((-x).Floor)
  }

  /**
   * The column rewrites of the loader, for one row: the code stripped (a
   * missing code reads "nan"), a missing price 0, the description stripped or
   * "" without the column, and the price type truncated (0 when missing or
   * without the column).
   */
  function CoerceRow(headers: seq<string>, raw: RawPriceRow): (r: PriceRow)
    ensures raw.cveArt.Some? ==> r.cveArt == Trim(raw.cveArt.value)
    ensures raw.cveArt.None? ==> r.cveArt == "nan"
    ensures raw.precio.Some? ==> r.precio == raw.precio.value
    ensures raw.precio.None? ==> r.precio == 0.0
    ensures "descri" !in headers ==> r.descri == ""
    ensures "descri" in headers && raw.descri.Some? ==> r.descri == Trim(raw.descri.value)
    ensures "descri" in headers && raw.descri.None? ==> r.descri == "nan"
    ensures "tip_pre" in headers && raw.tipPre.Some? ==> r.tipPre == Trunc(raw.tipPre.value)
    ensures !("tip_pre" in headers && raw.tipPre.Some?) ==> r.tipPre == 0
  {
    PriceRow(
      Trim(AsStr(raw.cveArt)),
      ToNum(raw.precio),
      if "descri" in headers then Trim(AsStr(raw.descri)) else "",
      if "tip_pre" in headers then Trunc(ToNum(raw.tipPre)) else 0)
  }

  /** The coerced table: one row per sheet row, each through CoerceRow. */
  function Coerced(sheet: PriceSheet): (rows: seq<PriceRow>)
    ensures |rows| == |sheet.rows|
    ensures forall i :: 0 <= i < |rows| ==> rows[i] == CoerceRow(sheet.headers, sheet.rows[i])
  {
    seq(|sheet.rows|, i requires 0 <= i < |sheet.rows| => CoerceRow(sheet.headers, sheet.rows[i]))
  }

  /** The rows of price type 1, in order. */
  function PrimaryRows(rows: seq<PriceRow>): (r: seq<PriceRow>)
    ensures forall x :: x in r <==> x in rows && x.tipPre == 1
    ensures |r| <= |rows|
  {
    if rows == [] then []
    else if rows[0].tipPre == 1 then [rows[0]] + PrimaryRows(rows[1..])
    else PrimaryRows(rows[1..])
  }

  /** The tip_pre rule: when the column exists and some row has type 1, only those rows remain. */
  function KeepPrimary(headers: seq<string>, rows: seq<PriceRow>): (r: seq<PriceRow>)
    ensures ("tip_pre" in headers && exists x :: x in rows && x.tipPre == 1) ==> r == PrimaryRows(rows)
    ensures ("tip_pre" in headers && exists x :: x in rows && x.tipPre == 1) ==>
      forall x :: x in r <==> x in rows && x.tipPre == 1
    ensures !("tip_pre" in headers && exists x :: x in rows && x.tipPre == 1) ==> r == rows
  {
    if "tip_pre" in headers && exists x :: x in rows && x.tipPre == 1 then PrimaryRows(rows) else rows
  }

  /** The rows that reach the reduction. */
  function Survivors(sheet: PriceSheet): seq<PriceRow> {
    KeepPrimary(sheet.headers, Coerced(sheet))
  }

  predicate HasArt(rows: seq<PriceRow>, k: string) {
    exists i :: 0 <= i < |rows| && rows[i].cveArt == k
  }

  /** `p` is the largest price among the rows of article `k`. */
  ghost predicate IsMaxPrice(rows: seq<PriceRow>, k: string, p: real) {
    && (exists i :: 0 <= i < |rows| && rows[i].cveArt == k && rows[i].precio == p)
    && (forall i :: 0 <= i < |rows| && rows[i].cveArt == k ==> rows[i].precio <= p)
  }

  /**
   * `d` is the description of the first row, in the order of a stable sort by
   * (cve_art ascending, precio descending), of article `k`: the earliest row
   * of `k` carrying its maximum price `p`.
   */
  ghost predicate IsFirstAtMax(rows: seq<PriceRow>, k: string, p: real, d: string) {
    exists i :: 0 <= i < |rows| && rows[i].cveArt == k && rows[i].precio == p && rows[i].descri == d
      && forall j :: 0 <= j < i ==> !(rows[j].cveArt == k && rows[j].precio == p)
  }

  function MaxPrice(rows: seq<PriceRow>, k: string): (p: real)
    requires HasArt(rows, k)
    ensures IsMaxPrice(rows, k, p)
  {
    if rows[0].cveArt != k then
      assert HasArt(rows[1..], k) by {
        var i :| 0 <= i < |rows| && rows[i].cveArt == k;
        assert rows[1..][i - 1].cveArt == k;
      }
      var p := MaxPrice(rows[1..], k);
      assert forall i :: 1 <= i < |rows| ==> rows[i] == rows[1..][i - 1];
      p
    else if !HasArt(rows[1..], k) then
      assert forall i :: 1 <= i < |rows| ==> rows[i] == rows[1..][i - 1];
      rows[0].precio
    else
      var p := MaxPrice(rows[1..], k);
      assert forall i :: 1 <= i < |rows| ==> rows[i] == rows[1..][i - 1];
      if rows[0].precio >= p then rows[0].precio else p
  }

  /** Description of the earliest row of article `k` priced `p`. */
  function FirstDescri(rows: seq<PriceRow>, k: string, p: real): (d: string)
    requires exists i :: 0 <= i < |rows| && rows[i].cveArt == k && rows[i].precio == p
    ensures IsFirstAtMax(rows, k, p, d)
  {
    if rows[0].cveArt == k && rows[0].precio == p then rows[0].descri
    else
      assert exists i :: 0 <= i < |rows| - 1 && rows[1..][i].cveArt == k && rows[1..][i].precio == p by {
        var i :| 0 <= i < |rows| && rows[i].cveArt == k && rows[i].precio == p;
        assert rows[1..][i - 1] == rows[i];
      }
      var d := FirstDescri(rows[1..], k, p);
      assert forall i :: 1 <= i < |rows| ==> rows[i] == rows[1..][i - 1];
      d
  }

  function ArtCodes(rows: seq<PriceRow>): (r: seq<string>)
    ensures forall k :: k in r <==> HasArt(rows, k)
  {
    var r := seq(|rows|, i requires 0 <= i < |rows| => rows[i].cveArt);
    assert forall k :: HasArt(rows, k) ==> k in r by {
      forall k | HasArt(rows, k) ensures k in r {
        var i :| 0 <= i < |rows| && rows[i].cveArt == k;
        assert r[i] == k;
      }
    }
    r
  }

  /** One entry per listed code, with that code's maximum price and first description at it. */
  function EntriesFor(rows: seq<PriceRow>, keys: seq<string>): (r: seq<PriceEntry>)
    requires forall k :: k in keys ==> HasArt(rows, k)
    ensures |r| == |keys|
    ensures forall i :: 0 <= i < |r| ==> r[i].cveArt == keys[i]
    ensures forall i :: 0 <= i < |r| ==> IsMaxPrice(rows, r[i].cveArt, r[i].precio)
    ensures forall i :: 0 <= i < |r| ==> IsFirstAtMax(rows, r[i].cveArt, r[i].precio, r[i].descri)
  {
    if keys == [] then []
    else
      var p := MaxPrice(rows, keys[0]);
      [PriceEntry(keys[0], p, FirstDescri(rows, keys[0], p))] + EntriesFor(rows, keys[1..])
  }

  /**
   * The reduction `sort_values(["cve_art","precio"], [True, False])
   * .groupby("cve_art").agg(precio=max, descri=first)`: one entry per article
   * code, in ascending code order, carrying that code's maximum price and the
   * description of its first maximum-price row.
   */
  function ReducePrices(rows: seq<PriceRow>): (r: seq<PriceEntry>)
    ensures forall i, j :: 0 <= i < j < |r| ==> LexLess(r[i].cveArt, r[j].cveArt)
    ensures forall k :: (exists i :: 0 <= i < |r| && r[i].cveArt == k) <==> HasArt(rows, k)
    ensures forall i :: 0 <= i < |r| ==> IsMaxPrice(rows, r[i].cveArt, r[i].precio)
    ensures forall i :: 0 <= i < |r| ==> IsFirstAtMax(rows, r[i].cveArt, r[i].precio, r[i].descri)
  {
    LexStrictTotal();
    var keys := SortedSet(LexLess, ArtCodes(rows));
    var r := EntriesFor(rows, keys);
    assert forall k :: k in keys ==> exists i :: 0 <= i < |r| && r[i].cveArt == k by {
      forall k | k in keys ensures exists i :: 0 <= i < |r| && r[i].cveArt == k {
        var i :| 0 <= i < |keys| && keys[i] == k;
        assert r[i].cveArt == k;
      }
    }
    r
  }

  /** The column rewrites, row by row, noting whether any row has price type 1. */
  method CoerceAll(sheet: PriceSheet) returns (rows: seq<PriceRow>, anyPrimary: bool)
    ensures rows == Coerced(sheet)
    ensures anyPrimary <==> exists x :: x in rows && x.tipPre == 1
  {
    ghost var all := Coerced(sheet);
    rows := [];
    anyPrimary := false;
    var i := 0;
    while i < |sheet.rows|
      invariant 0 <= i <= |sheet.rows|
      invariant rows == all[..i]
      invariant anyPrimary <==> exists x :: x in rows && x.tipPre == 1
    {
      var row := CoerceRow(sheet.headers, sheet.rows[i]);
      assert all[..i + 1] == all[..i] + [row];
      rows := rows + [row];
      anyPrimary := anyPrimary || row.tipPre == 1;
      i := i + 1;
    }
    assert all[..i] == all;
  }

  /** `df[df["tip_pre"] == 1]`. */
  method SelectPrimary(rows: seq<PriceRow>) returns (kept: seq<PriceRow>)
    ensures kept == PrimaryRows(rows)
  {
    kept := [];
    var i := 0;
    while i < |rows|
      invariant 0 <= i <= |rows|
      invariant kept == PrimaryRows(rows[..i])
    {
      assert rows[..i + 1] == rows[..i] + [rows[i]];
      PrimaryRowsAppend(rows[..i], rows[i]);
      if rows[i].tipPre == 1 {
        kept := kept + [rows[i]];
      }
      i := i + 1;
    }
    assert rows[..i] == rows;
  }

  /**
   * `load_precios_serur`: the schema check, the column coercions, the
   * primary-type restriction and the reduction.
   */
  method LoadPrecios(sheet: PriceSheet) returns (r: Result<seq<PriceEntry>>)
    ensures r.Err? <==> !("cve_art" in sheet.headers && "precio" in sheet.headers)
    ensures r.Err? ==> r.reason == MissingPriceColumns
    ensures r.Ok? ==> r.value == ReducePrices(Survivors(sheet))
  {
    if !("cve_art" in sheet.headers && "precio" in sheet.headers) {
      return Err(MissingPriceColumns);
    }
    var rows, anyPrimary := CoerceAll(sheet);
    if "tip_pre" in sheet.headers && anyPrimary {
      rows := SelectPrimary(rows);
    }
    r := Ok(ReducePrices(rows));
  }

  lemma {:induction false} PrimaryRowsAppend(rows: seq<PriceRow>, x: PriceRow)
    ensures PrimaryRows(rows + [x]) == PrimaryRows(rows) + (if x.tipPre == 1 then [x] else [])
  {
    if rows == [] {
      assert [x][1..] == [];
    } else {
      assert (rows + [x])[1..] == rows[1..] + [x];
      PrimaryRowsAppend(rows[1..], x);
    }
  }

  /** No two entries of a price list share an article code. */
  predicate UniqueCodes(entries: seq<PriceEntry>) {
    forall i, j :: 0 <= i < j < |entries| ==> entries[i].cveArt != entries[j].cveArt
  }

  /** The reduced price list has one entry per code, so a left merge on it matches each line at most once. */
  lemma ReducedCodesUnique(rows: seq<PriceRow>)
    ensures UniqueCodes(ReducePrices(rows))
  {
    var r := ReducePrices(rows);
    forall i, j | 0 <= i < j < |r| ensures r[i].cveArt != r[j].cveArt {
      LexIrreflexive(r[i].cveArt);
    }
  }

  /** Looks up the entry of an article code (`merge(..., on="cve_art", how="left")`). */
  function FindEntry(entries: seq<PriceEntry>, art: string): (r: Option<PriceEntry>)
    ensures r.Some? ==> r.value in entries && r.value.cveArt == art
    ensures r.None? ==> forall e :: e in entries ==> e.cveArt != art
  {
    if entries == [] then None
    else if entries[0].cveArt == art then Some(entries[0])
    else FindEntry(entries[1..], art)
  }
}
