/**
 * The small helpers at the top of app1.py (`to_num`, `clean_text`,
 * `make_color_map`, `pick_sku_col`, `normalize_int_series`) and the sorted
 * option lists the dashboard offers in its selectors.
 */
module Helpers {
  import opened Wrappers
  import opened Text
  import opened Ordering

  /** `to_num`: a coerced numeric cell, NaN replaced by 0. */
  function ToNum(x: Option<real>): real {
    x.GetOr(0.0)
  }

  /** `astype(str)` of a text cell: pandas renders NaN as "nan". */
  function AsStr(x: Option<string>): string {
    match x
    case Some(s) => s
    case None => "nan"
  }

  /** `clean_text`: stripped text, and "" for a missing value. */
  function CleanText(x: Option<string>): (r: string)
    ensures r == [] <==> x.None? || forall k :: 0 <= k < |x.value| ==> IsSpace(x.value[k])
    ensures x.Some? ==> r == Trim(x.value)
  {
    match x
    case Some(s) => TrimSpec(s); Trim(s)
    case None => ""
  }

  /**
   * `round(0)` on a float (NumPy rounds half to even): the nearest integer,
   * and the even one of the two on a tie.
   */
  function RoundHalfEven(x: real): (r: int)
    ensures -0.5 <= x - r as real <= 0.5
    ensures x - r as real == 0.5 || x - r as real == -0.5 ==> r % 2 == 0
  {
    var f := x.Floor;
    var d := x - f as real;
    if d < 0.5 then f
    else if d > 0.5 then f + 1
    else if f % 2 == 0 then f
    else f + 1
  }

  /** `normalize_int_series` on one cell: round and keep NA as NA. */
  function NormalizeInt(x: Option<real>): (r: Option<int>)
    ensures r.Some? <==> x.Some?
    ensures r.Some? ==> -0.5 <= x.value - r.value as real <= 0.5
    ensures r.Some? && (x.value - r.value as real == 0.5 || x.value - r.value as real == -0.5) ==> r.value % 2 == 0
  {
    match x
    case Some(v) => Some(RoundHalfEven(v))
    case None => None
  }

  /** An integral value is its own normalisation. */
  lemma NormalizeIntOfInteger(n: int)
    ensures NormalizeInt(Some(n as real)) == Some(n)
  {
  }

  // ----- pick_sku_col -----

  const SkuCandidates: seq<string> :=
    ["codigo", "código", "sku", "clave", "clave_art", "cve_art", "producto", "articulo", "artículo"]

  /** The key `c.lower().strip()` under which a header is looked up. */
  function HeaderKey(c: string): string {
    Trim(Lower(c))
  }

  ghost predicate HasKey(columns: seq<string>, key: string -> string, name: string) {
    exists i :: 0 <= i < |columns| && key(columns[i]) == name
  }

  /** `c` is the last header with key `name`: the one a dict comprehension keeps. */
  ghost predicate IsLastWithKey(columns: seq<string>, key: string -> string, c: string, name: string) {
    exists i :: 0 <= i < |columns| && columns[i] == c && key(c) == name
      && forall j :: i < j < |columns| ==> key(columns[j]) != name
  }

  /** `{key(c): c for c in columns}`: later headers overwrite earlier ones. */
  function HeaderIndex(columns: seq<string>, key: string -> string): (m: map<string, string>)
    ensures forall name :: name in m <==> HasKey(columns, key, name)
    ensures forall name :: name in m ==> IsLastWithKey(columns, key, m[name], name)
  {
    if columns == [] then map[]
    else
      var c := columns[0];
      var rest := HeaderIndex(columns[1..], key);
      var m := if key(c) in rest then rest else rest[key(c) := c];
      forall name ensures name in m <==> HasKey(columns, key, name) {
        if HasKey(columns, key, name) && name != key(c) {
          var i :| 0 <= i < |columns| && key(columns[i]) == name;
          assert key(columns[1..][i - 1]) == name;
        }
        if name in rest {
          var i :| 0 <= i < |columns| - 1 && key(columns[1..][i]) == name;
          assert key(columns[i + 1]) == name;
        }
      }
      forall name | name in m ensures IsLastWithKey(columns, key, m[name], name) {
        if name in rest {
          var i :| 0 <= i < |columns| - 1 && columns[1..][i] == rest[name] && key(rest[name]) == name
            && forall j :: i < j < |columns| - 1 ==> key(columns[1..][j]) != name;
          assert columns[i + 1] == m[name];
          assert forall j :: i + 1 < j < |columns| ==> key(columns[j]) != name by {
            forall j | i + 1 < j < |columns| ensures key(columns[j]) != name {
              assert columns[j] == columns[1..][j - 1];
            }
          }
        } else {
          assert forall j :: 0 < j < |columns| ==> key(columns[j]) != name by {
            forall j | 0 < j < |columns| ensures key(columns[j]) != name {
              assert columns[j] == columns[1..][j - 1];
              assert !HasKey(columns[1..], key, name);
            }
          }
          assert columns[0] == m[name];
        }
      }
      m
  }

  /**
   * The loop of `pick_sku_col`: the first candidate name, in priority order,
   * that some header matches case- and space-insensitively; the header
   * returned is the last one carrying that key.
   */
  method PickColumn(columns: seq<string>, key: string -> string, candidates: seq<string>)
    returns (r: Option<string>)
    ensures r.None? <==> forall k :: 0 <= k < |candidates| ==> !HasKey(columns, key, key(candidates[k]))
    ensures r.Some? ==> exists k ::
              && 0 <= k < |candidates|
              && IsLastWithKey(columns, key, r.value, key(candidates[k]))
              && forall j :: 0 <= j < k ==> !HasKey(columns, key, key(candidates[j]))
  {
    var cols := HeaderIndex(columns, key);
    var k := 0;
    while k < |candidates|
      invariant 0 <= k <= |candidates|
      invariant forall j :: 0 <= j < k ==> !HasKey(columns, key, key(candidates[j]))
    {
      var name := key(candidates[k]);
      if name in cols {
        return Some(cols[name]);
      }
      k := k + 1;
    }
    return None;
  }

  /** `pick_sku_col` with its fixed list of article-code header names. */
  method PickSkuCol(columns: seq<string>) returns (r: Option<string>)
    ensures r.None? <==> forall k :: 0 <= k < |SkuCandidates| ==> !HasKey(columns, HeaderKey, HeaderKey(SkuCandidates[k]))
    ensures r.Some? ==> exists k ::
              && 0 <= k < |SkuCandidates|
              && IsLastWithKey(columns, HeaderKey, r.value, HeaderKey(SkuCandidates[k]))
              && forall j :: 0 <= j < k ==> !HasKey(columns, HeaderKey, HeaderKey(SkuCandidates[j]))
  {
    r := PickColumn(columns, HeaderKey, SkuCandidates);
  }

  /** Every article-code candidate has a non-empty key, so a header found through one is never "". */
  lemma SkuHeaderNonEmpty(columns: seq<string>, c: string, k: int)
    requires 0 <= k < |SkuCandidates| && IsLastWithKey(columns, HeaderKey, c, HeaderKey(SkuCandidates[k]))
    ensures c != ""
  {
    var s := SkuCandidates[k];
    assert 'a' <= s[0] <= 'z';
    assert Lower(s)[0] == s[0];
    TrimSpec(Lower(s));
    assert HeaderKey(s) != "";
    assert Lower("") == "";
  }

  // ----- make_color_map -----

  const Palette: seq<string> := [
    "red", "blue", "green", "purple", "orange", "darkred", "cadetblue", "darkgreen",
    "darkblue", "pink", "gray", "black", "lightblue", "lightgreen", "beige",
    "lightgray", "darkpurple", "lightred"
  ]

  /** `.dropna()`: the present values, in order (see PresentAppend). */
  function Present(xs: seq<Option<string>>): (r: seq<string>)
    ensures xs == [] ==> r == []
    ensures forall v :: v in r <==> Some(v) in xs
    ensures |r| <= |xs|
  {
    if xs == [] then []
    else
      var rest := Present(xs[1..]);
      assert forall v :: Some(v) in xs <==> xs[0] == Some(v) || Some(v) in xs[1..];
      match xs[0]
      case Some(v) => [v] + rest
      case None => rest
  }

  /** `.dropna()` keeps the present values in their order: it distributes over appending a cell. */
  lemma {:induction false} PresentAppend(xs: seq<Option<string>>, x: Option<string>)
    ensures Present(xs + [x]) == Present(xs) + (if x.Some? then [x.value] else [])
  {
    if xs == [] {
      assert [x][1..] == [];
    } else {
      assert (xs + [x])[1..] == xs[1..] + [x];
      PresentAppend(xs[1..], x);
    }
  }

  /** Position of the first occurrence of `v` in `xs`. */
  function FirstIndex(xs: seq<string>, v: string): (i: nat)
    requires v in xs
    ensures i < |xs| && xs[i] == v
    ensures forall j :: 0 <= j < i ==> xs[j] != v
  {
    if xs[0] == v then 0 else 1 + FirstIndex(xs[1..], v)
  }

  lemma {:induction false} FirstIndexExtend(xs: seq<string>, x: string, v: string)
    requires v in xs
    ensures FirstIndex(xs + [x], v) == FirstIndex(xs, v)
  {
    if xs[0] != v {
      assert (xs + [x])[1..] == xs[1..] + [x];
      FirstIndexExtend(xs[1..], x, v);
    }
  }

  lemma FirstIndexNew(xs: seq<string>, v: string)
    requires v !in xs
    ensures FirstIndex(xs + [v], v) == |xs|
  {
    assert forall j :: 0 <= j < |xs| ==> (xs + [v])[j] != v;
  }

  /** `.unique()`: each distinct value once (order: see UniqueFirstSeen). */
  function Unique(xs: seq<string>): (u: seq<string>)
    ensures Distinct(u)
    ensures forall v :: v in u <==> v in xs
    ensures |u| <= |xs|
  {
    if xs == [] then []
    else
      var pre := xs[..|xs| - 1];
      var last := xs[|xs| - 1];
      assert xs == pre + [last];
      var u := Unique(pre);
      if last in u then u else u + [last]
  }

  /** `.unique()` lists values in the order of their first appearance. */
  lemma {:induction false} UniqueFirstSeen(xs: seq<string>)
    ensures forall i, j :: 0 <= i < j < |Unique(xs)| ==>
      FirstIndex(xs, Unique(xs)[i]) < FirstIndex(xs, Unique(xs)[j])
  {
    if xs != [] {
      var pre := xs[..|xs| - 1];
      var last := xs[|xs| - 1];
      assert xs == pre + [last];
      UniqueFirstSeen(pre);
      var u := Unique(pre);
      forall v | v in u ensures FirstIndex(xs, v) == FirstIndex(pre, v) {
        FirstIndexExtend(pre, last, v);
      }
      if last !in u {
        FirstIndexNew(pre, last);
      }
    }
  }

  /** The k-th distinct present value (first-seen order) gets `palette[k % |palette|]`. */
  function ColorMap(values: seq<Option<string>>, palette: seq<string>): (m: map<string, string>)
    requires |palette| > 0
    ensures forall v :: v in m <==> Some(v) in values
    ensures forall k :: 0 <= k < |Unique(Present(values))| ==>
      m[Unique(Present(values))[k]] == palette[k % |palette|]
  {
    var u := Unique(Present(values));
    map k | 0 <= k < |u| :: u[k] := palette[k % |palette|]
  }

  /** `make_color_map` with its fixed 18-colour palette. */
  function MakeColorMap(values: seq<Option<string>>): map<string, string> {
    ColorMap(values, Palette)
  }

  // ----- selector options -----

  /** The names that `clean_text` does not reduce to "". */
  function NonBlank(xs: seq<string>): (r: seq<string>)
    ensures forall v :: v in r <==> v in xs && CleanText(Some(v)) != ""
  {
    if xs == [] then []
    else
      var rest := NonBlank(xs[1..]);
      assert forall v :: v in xs <==> v == xs[0] || v in xs[1..];
      if CleanText(Some(xs[0])) != "" then [xs[0]] + rest else rest
  }

  /**
   * `sorted([v for v in col.dropna().unique() if clean_text(v) != ""])`: the
   * distinct non-blank values of a text column, ascending.
   */
  function SortedNonBlank(col: seq<string>): (r: seq<string>)
    ensures StrictlyAscending(LexLess, r)
    ensures forall v :: v in r <==> v in col && exists k :: 0 <= k < |v| && !IsSpace(v[k])
  {
    LexStrictTotal();
    var r := SortedSet(LexLess, NonBlank(col));
    assert forall v :: CleanText(Some(v)) != "" <==> exists k :: 0 <= k < |v| && !IsSpace(v[k]);
    r
  }
}
