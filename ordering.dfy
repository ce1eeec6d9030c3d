/**
 * The orderings the dashboard sorts by: Python's `sorted(set(...))` over a
 * strict total order, pandas' descending `sort_values` over a real key, and
 * the sums pandas takes with `.sum()`.
 */
module Ordering {
  import opened Text

  ghost predicate StrictTotal<T(!new)>(lt: (T, T) -> bool) {
    && (forall x :: !lt(x, x))
    && (forall x, y, z :: lt(x, y) && lt(y, z) ==> lt(x, z))
    && (forall x, y :: x != y ==> lt(x, y) || lt(y, x))
  }

  ghost predicate StrictlyAscending<T>(lt: (T, T) -> bool, s: seq<T>) {
    forall i, j :: 0 <= i < j < |s| ==> lt(s[i], s[j])
  }

  ghost predicate Distinct<T>(s: seq<T>) {
    forall i, j :: 0 <= i < j < |s| ==> s[i] != s[j]
  }

  lemma AscendingIsDistinct<T(!new)>(lt: (T, T) -> bool, s: seq<T>)
    requires StrictTotal(lt) && StrictlyAscending(lt, s)
    ensures Distinct(s)
  {
  }

  /** Python's string order is a strict total order. */
  lemma LexStrictTotal()
    ensures StrictTotal(LexLess)
  {
    forall x: string ensures !LexLess(x, x) { LexIrreflexive(x); }
    forall x: string, y: string, z: string | LexLess(x, y) && LexLess(y, z) ensures LexLess(x, z) {
      LexTransitive(x, y, z);
    }
    forall x: string, y: string | x != y ensures LexLess(x, y) || LexLess(y, x) { LexTotal(x, y); }
  }

  predicate IntLess(a: int, b: int) { a < b }

  lemma IntStrictTotal()
    ensures StrictTotal(IntLess)
  {
  }

  /** Tuple order of pandas' multi-key `groupby`: first component, then second. */
  predicate PairLess(a: (string, string), b: (string, string)) {
    LexLess(a.0, b.0) || (a.0 == b.0 && LexLess(a.1, b.1))
  }

  lemma PairStrictTotal()
    ensures StrictTotal(PairLess)
  {
    LexStrictTotal();
  }

  /** Puts `x` into its place in a strictly ascending sequence, dropping it if present. */
  function Insert<T(==,!new)>(lt: (T, T) -> bool, x: T, s: seq<T>): (r: seq<T>)
    requires StrictTotal(lt) && StrictlyAscending(lt, s)
    ensures StrictlyAscending(lt, r)
    ensures forall y :: y in r <==> y == x || y in s
  {
    if s == [] then [x]
    else if x == s[0] then s
    else if lt(x, s[0]) then [x] + s
    else
      var t := Insert(lt, x, s[1..]);
      assert forall y :: y in t ==> lt(s[0], y) by {
        forall y | y in t ensures lt(s[0], y) {
          if y != x {
            var k :| 1 <= k < |s| && s[k] == y;
          }
        }
      }
      [s[0]] + t
  }

  /** `sorted(set(s))`: the distinct elements of `s` in ascending order. */
  function SortedSet<T(==,!new)>(lt: (T, T) -> bool, s: seq<T>): (r: seq<T>)
    requires StrictTotal(lt)
    ensures StrictlyAscending(lt, r)
    ensures forall y :: y in r <==> y in s
    ensures |r| <= |s|
  {
    if s == [] then []
    else
      var t := SortedSet(lt, s[1..]);
      var r := Insert(lt, s[0], t);
      assert |r| <= |t| + 1 by { InsertLength(lt, s[0], t); }
      r
  }

  lemma {:induction false} InsertLength<T(!new)>(lt: (T, T) -> bool, x: T, s: seq<T>)
    requires StrictTotal(lt) && StrictlyAscending(lt, s)
    ensures |Insert(lt, x, s)| <= |s| + 1
  {
    if s != [] && x != s[0] && !lt(x, s[0]) {
      InsertLength(lt, x, s[1..]);
    }
  }

  ghost predicate NonIncreasing<T>(key: T -> real, s: seq<T>) {
    forall i, j :: 0 <= i < j < |s| ==> key(s[i]) >= key(s[j])
  }

  /** Inserts `x` before the first element with a strictly smaller key. */
  function InsertDesc<T>(key: T -> real, x: T, s: seq<T>): (r: seq<T>)
    requires NonIncreasing(key, s)
    ensures NonIncreasing(key, r)
    ensures multiset(r) == multiset(s) + multiset{x}
    ensures |r| == |s| + 1
  {
    if s == [] || key(s[0]) < key(x) then
      ConsNonIncreasing(key, x, s);
      [x] + s
    else
      var t := InsertDesc(key, x, s[1..]);
      assert s == [s[0]] + s[1..];
      assert forall y :: y in t ==> key(s[0]) >= key(y) by {
        forall y | y in t ensures key(s[0]) >= key(y) {
          assert y in multiset(t);
          if y != x {
            assert y in multiset(s[1..]);
            var k :| 0 <= k < |s[1..]| && s[1..][k] == y;
            assert s[k + 1] == y;
          }
        }
      }
      ConsNonIncreasing(key, s[0], t);
      [s[0]] + t
  }

  lemma ConsNonIncreasing<T>(key: T -> real, x: T, s: seq<T>)
    requires NonIncreasing(key, s)
    requires forall y :: y in s ==> key(x) >= key(y)
    ensures NonIncreasing(key, [x] + s)
  {
    var r := [x] + s;
    forall i, j | 0 <= i < j < |r| ensures key(r[i]) >= key(r[j]) {
      assert r[j] == s[j - 1];
      if i == 0 {
        assert s[j - 1] in s;
      } else {
        assert r[i] == s[i - 1];
      }
    }
  }

  /** `sort_values(key, ascending=False)` as an insertion sort; rows with equal keys end up in reverse input order. */
  function SortDesc<T>(key: T -> real, s: seq<T>): (r: seq<T>)
    ensures NonIncreasing(key, r)
    ensures multiset(r) == multiset(s)
    ensures |r| == |s|
  {
    if s == [] then []
    else
      assert s == [s[0]] + s[1..];
      InsertDesc(key, s[0], SortDesc(key, s[1..]))
  }

  /** `.sum()` of a column. */
  function SumBy<T>(f: T -> real, s: seq<T>): real {
    if s == [] then 0.0 else f(s[0]) + SumBy(f, s[1..])
  }

  lemma {:induction false} SumByAppend<T>(f: T -> real, a: seq<T>, b: seq<T>)
    ensures SumBy(f, a + b) == SumBy(f, a) + SumBy(f, b)
  {
    if a != [] {
      assert (a + b)[1..] == a[1..] + b;
      SumByAppend(f, a[1..], b);
    } else {
      assert a + b == b;
    }
  }

  lemma {:induction false} InsertDescSum<T>(key: T -> real, f: T -> real, x: T, s: seq<T>)
    requires NonIncreasing(key, s)
    ensures SumBy(f, InsertDesc(key, x, s)) == f(x) + SumBy(f, s)
  {
    if s != [] && key(s[0]) >= key(x) {
      InsertDescSum(key, f, x, s[1..]);
    }
  }

  /** Sorting does not change a column's sum. */
  lemma {:induction false} SortDescSum<T>(key: T -> real, f: T -> real, s: seq<T>)
    ensures SumBy(f, SortDesc(key, s)) == SumBy(f, s)
  {
    if s != [] {
      SortDescSum(key, f, s[1..]);
      InsertDescSum(key, f, s[0], SortDesc(key, s[1..]));
    }
  }

  ghost predicate DistinctKeys<T, K>(key: T -> K, s: seq<T>) {
    forall i, j :: 0 <= i < j < |s| ==> key(s[i]) != key(s[j])
  }

  lemma {:induction false} InsertDescDistinct<T, K>(key: T -> real, id: T -> K, x: T, s: seq<T>)
    requires NonIncreasing(key, s) && DistinctKeys(id, s)
    requires forall y :: y in s ==> id(y) != id(x)
    ensures DistinctKeys(id, InsertDesc(key, x, s))
  {
    if s == [] || key(s[0]) < key(x) {
      ConsDistinct(id, x, s);
    } else {
      assert forall y :: y in s[1..] ==> y in s;
      InsertDescDistinct(key, id, x, s[1..]);
      var t := InsertDesc(key, x, s[1..]);
      forall y | y in t ensures id(s[0]) != id(y) {
        assert y in multiset(t);
        if y != x {
          var k :| 0 <= k < |s[1..]| && s[1..][k] == y;
          assert s[k + 1] == y;
        }
      }
      ConsDistinct(id, s[0], t);
    }
  }

  lemma ConsDistinct<T, K>(id: T -> K, x: T, s: seq<T>)
    requires DistinctKeys(id, s)
    requires forall y :: y in s ==> id(y) != id(x)
    ensures DistinctKeys(id, [x] + s)
  {
    var r := [x] + s;
    forall i, j | 0 <= i < j < |r| ensures id(r[i]) != id(r[j]) {
      assert r[j] == s[j - 1];
      if i == 0 {
        assert s[j - 1] in s;
      } else {
        assert r[i] == s[i - 1];
      }
    }
  }

  /** Sorting rows whose identities are pairwise distinct keeps them pairwise distinct. */
  lemma {:induction false} SortDescDistinct<T, K>(key: T -> real, id: T -> K, s: seq<T>)
    requires DistinctKeys(id, s)
    ensures DistinctKeys(id, SortDesc(key, s))
  {
    if s != [] {
      SortDescDistinct(key, id, s[1..]);
      var t := SortDesc(key, s[1..]);
      forall y | y in t ensures id(y) != id(s[0]) {
        assert y in multiset(t);
        var k :| 0 <= k < |s[1..]| && s[1..][k] == y;
        assert s[k + 1] == y;
      }
      InsertDescDistinct(key, id, s[0], t);
    }
  }

  /** The first `n` rows of a descending sort outrank every row left behind. */
  lemma HeadOutranksTail<T>(key: T -> real, s: seq<T>, n: nat)
    requires NonIncreasing(key, s) && n <= |s|
    ensures multiset(s[..n]) + multiset(s[n..]) == multiset(s)
    ensures forall x, y :: x in s[..n] && y in s[n..] ==> key(x) >= key(y)
  {
    assert s == s[..n] + s[n..];
    forall x, y | x in s[..n] && y in s[n..] ensures key(x) >= key(y) {
      var i :| 0 <= i < n && s[i] == x;
      var j :| n <= j < |s| && s[j] == y;
    }
  }
}
