/**
 * `groupby(keys).agg(sum / count)`: per-key sums and counts, and the fact
 * that summing them over every key gives back the column total.
 */
module Grouping {
  import opened Ordering

  /** Sum of `val` over the rows whose key is `k`. */
  function SumWhere<T, K(==)>(rows: seq<T>, key: T -> K, val: T -> real, k: K): real {
    if rows == [] then 0.0
    else (if key(rows[0]) == k then val(rows[0]) else 0.0) + SumWhere(rows[1..], key, val, k)
  }

  /** Number of rows whose key is `k`. */
  function CountWhere<T, K(==)>(rows: seq<T>, key: T -> K, k: K): nat {
    if rows == [] then 0
    else (if key(rows[0]) == k then 1 else 0) + CountWhere(rows[1..], key, k)
  }

  /** The rows whose key is `k`, in their order. */
  function RowsWhere<T(!new), K(==)>(rows: seq<T>, key: T -> K, k: K): (r: seq<T>)
    ensures |r| == CountWhere(rows, key, k)
    ensures forall x :: x in r <==> x in rows && key(x) == k
  {
    if rows == [] then []
    else if key(rows[0]) == k then [rows[0]] + RowsWhere(rows[1..], key, k)
    else RowsWhere(rows[1..], key, k)
  }

  function SumOverKeys<T, K(==)>(keys: seq<K>, rows: seq<T>, key: T -> K, val: T -> real): real {
    if keys == [] then 0.0 else SumWhere(rows, key, val, keys[0]) + SumOverKeys(keys[1..], rows, key, val)
  }

  function CountOverKeys<T, K(==)>(keys: seq<K>, rows: seq<T>, key: T -> K): nat {
    if keys == [] then 0 else CountWhere(rows, key, keys[0]) + CountOverKeys(keys[1..], rows, key)
  }

  lemma SumWhereSingle<T, K>(x: T, key: T -> K, val: T -> real, k: K)
    ensures SumWhere([x], key, val, k) == if key(x) == k then val(x) else 0.0
  {
    assert [x][1..] == [];
  }

  lemma CountWhereSingle<T, K>(x: T, key: T -> K, k: K)
    ensures CountWhere([x], key, k) == if key(x) == k then 1 else 0
  {
    assert [x][1..] == [];
  }

  lemma {:induction false} PeelSum<T, K>(keys: seq<K>, rows: seq<T>, key: T -> K, val: T -> real)
    requires rows != []
    ensures SumOverKeys(keys, rows, key, val)
         == SumOverKeys(keys, [rows[0]], key, val) + SumOverKeys(keys, rows[1..], key, val)
  {
    if keys != [] {
      SumWhereSingle(rows[0], key, val, keys[0]);
      PeelSum(keys[1..], rows, key, val);
    }
  }

  lemma {:induction false} SingleSum<T, K>(keys: seq<K>, x: T, key: T -> K, val: T -> real)
    requires Distinct(keys) && key(x) in keys
    ensures SumOverKeys(keys, [x], key, val) == val(x)
  {
    SumWhereSingle(x, key, val, keys[0]);
    if keys[0] == key(x) {
      ZeroSum(keys[1..], x, key, val);
    } else {
      SingleSum(keys[1..], x, key, val);
    }
  }

  lemma {:induction false} ZeroSum<T, K>(keys: seq<K>, x: T, key: T -> K, val: T -> real)
    requires key(x) !in keys
    ensures SumOverKeys(keys, [x], key, val) == 0.0
  {
    if keys != [] {
      SumWhereSingle(x, key, val, keys[0]);
      ZeroSum(keys[1..], x, key, val);
    }
  }

  /** Grouping by a list of distinct keys that covers every row preserves the column sum. */
  lemma {:induction false} PartitionSum<T, K>(keys: seq<K>, rows: seq<T>, key: T -> K, val: T -> real)
    requires Distinct(keys)
    requires forall x :: x in rows ==> key(x) in keys
    ensures SumOverKeys(keys, rows, key, val) == SumBy(val, rows)
  {
    if rows == [] {
      EmptySum(keys, key, val);
    } else {
      PeelSum(keys, rows, key, val);
      SingleSum(keys, rows[0], key, val);
      PartitionSum(keys, rows[1..], key, val);
    }
  }

  lemma {:induction false} EmptySum<T, K>(keys: seq<K>, key: T -> K, val: T -> real)
    ensures SumOverKeys(keys, [], key, val) == 0.0
  {
    if keys != [] { EmptySum(keys[1..], key, val); }
  }

  lemma {:induction false} PeelCount<T, K>(keys: seq<K>, rows: seq<T>, key: T -> K)
    requires rows != []
    ensures CountOverKeys(keys, rows, key)
         == CountOverKeys(keys, [rows[0]], key) + CountOverKeys(keys, rows[1..], key)
  {
    if keys != [] {
      CountWhereSingle(rows[0], key, keys[0]);
      PeelCount(keys[1..], rows, key);
    }
  }

  lemma {:induction false} SingleCount<T, K>(keys: seq<K>, x: T, key: T -> K)
    requires Distinct(keys) && key(x) in keys
    ensures CountOverKeys(keys, [x], key) == 1
  {
    CountWhereSingle(x, key, keys[0]);
    if keys[0] == key(x) {
      ZeroCount(keys[1..], x, key);
    } else {
      SingleCount(keys[1..], x, key);
    }
  }

  lemma {:induction false} ZeroCount<T, K>(keys: seq<K>, x: T, key: T -> K)
    requires key(x) !in keys
    ensures CountOverKeys(keys, [x], key) == 0
  {
    if keys != [] {
      CountWhereSingle(x, key, keys[0]);
      ZeroCount(keys[1..], x, key);
    }
  }

  /** Grouping by a list of distinct keys that covers every row keeps every row exactly once. */
  lemma {:induction false} PartitionCount<T, K>(keys: seq<K>, rows: seq<T>, key: T -> K)
    requires Distinct(keys)
    requires forall x :: x in rows ==> key(x) in keys
    ensures CountOverKeys(keys, rows, key) == |rows|
  {
    if rows == [] {
      EmptyCount(keys, key);
    } else {
      PeelCount(keys, rows, key);
      SingleCount(keys, rows[0], key);
      PartitionCount(keys, rows[1..], key);
    }
  }

  lemma {:induction false} EmptyCount<T, K>(keys: seq<K>, key: T -> K)
    ensures CountOverKeys(keys, [], key) == 0
  {
    if keys != [] { EmptyCount(keys[1..], key); }
  }
}
