// Python's `sorted(items, key=key, reverse=True)`: a stable sort by decreasing key, and
// `sorted(items, key=key)` with a string key.
// Python's sort is stable also in reverse mode, so items with equal keys keep their
// input order.
module Sorting {

  predicate SortedDesc<T>(xs: seq<T>, key: T -> int)
  {
    forall i, j :: 0 <= i < j < |xs| ==> key(xs[i]) >= key(xs[j])
  }

  /** x placed after every element with a larger key and before the rest. */
  function InsertDesc<T>(x: T, ys: seq<T>, key: T -> int): (r: seq<T>)
    requires SortedDesc(ys, key)
    ensures multiset(r) == multiset(ys) + multiset{x}
    ensures SortedDesc(r, key)
    ensures |r| == |ys| + 1
    ensures |r| > 0 && (key(r[0]) == key(x) || (|ys| > 0 && r[0] == ys[0]))
  {
    if |ys| == 0 || key(ys[0]) <= key(x) then [x] + ys
    else
      var tail := InsertDesc(x, ys[1..], key);
      assert ys == [ys[0]] + ys[1..];
      [ys[0]] + tail
  }

  /** sorted(xs, key=key, reverse=True) */
  function SortDesc<T>(xs: seq<T>, key: T -> int): (r: seq<T>)
    ensures multiset(r) == multiset(xs)
    ensures |r| == |xs|
    ensures SortedDesc(r, key)
  {
    if |xs| == 0 then []
    else
      assert xs == [xs[0]] + xs[1..];
      InsertDesc(xs[0], SortDesc(xs[1..], key), key)
  }

  /** The elements of xs whose key is v, in order. */
  function WithKey<T>(xs: seq<T>, key: T -> int, v: int): (r: seq<T>)
    ensures |r| <= |xs|
  {
    if |xs| == 0 then []
    else (if key(xs[0]) == v then [xs[0]] else []) + WithKey(xs[1..], key, v)
  }

  lemma {:induction false} InsertWithKey<T>(x: T, ys: seq<T>, key: T -> int, v: int)
    requires SortedDesc(ys, key)
    ensures WithKey(InsertDesc(x, ys, key), key, v)
            == (if key(x) == v then [x] else []) + WithKey(ys, key, v)
    decreases |ys|
  {
    var r := InsertDesc(x, ys, key);
    var kx := if key(x) == v then [x] else [];
    if |ys| == 0 || key(ys[0]) <= key(x) {
      assert r[1..] == ys;
    } else {
      var tail := InsertDesc(x, ys[1..], key);
      InsertWithKey(x, ys[1..], key, v);
      var k0 := if key(ys[0]) == v then [ys[0]] else [];
      assert r[1..] == tail;
      assert WithKey(r, key, v) == k0 + (kx + WithKey(ys[1..], key, v));
      assert WithKey(ys, key, v) == k0 + WithKey(ys[1..], key, v);
      assert k0 == [] || kx == [];
    }
  }

  /** Stability: for every key value, the elements with that key keep their input order. */
  lemma {:induction false} SortDescStable<T>(xs: seq<T>, key: T -> int, v: int)
    ensures WithKey(SortDesc(xs, key), key, v) == WithKey(xs, key, v)
  {
    if |xs| > 0 {
      SortDescStable(xs[1..], key, v);
      InsertWithKey(xs[0], SortDesc(xs[1..], key), key, v);
    }
  }

  // ---------------------------------------------------------------------
  // `sorted(items, key=key)` with a string key: Python compares strings
  // lexicographically by code point, and a proper prefix comes first.

  /** a <= b in Python's string order. */
  predicate StrLe(a: string, b: string)
    decreases |a|
  {
    |a| == 0 || (|b| > 0 && (a[0] < b[0] || (a[0] == b[0] && StrLe(a[1..], b[1..]))))
  }

  lemma {:induction false} StrLeTotal(a: string, b: string)
    ensures StrLe(a, b) || StrLe(b, a)
    decreases |a|
  {
    if |a| > 0 && |b| > 0 && a[0] == b[0] {
      StrLeTotal(a[1..], b[1..]);
    }
  }

  lemma {:induction false} StrLeTrans(a: string, b: string, c: string)
    requires StrLe(a, b) && StrLe(b, c)
    ensures StrLe(a, c)
    decreases |a|
  {
    if |a| > 0 && a[0] == b[0] && b[0] == c[0] {
      StrLeTrans(a[1..], b[1..], c[1..]);
    }
  }

  lemma {:induction false} StrLeAntisymmetric(a: string, b: string)
    requires StrLe(a, b) && StrLe(b, a)
    ensures a == b
    decreases |a|
  {
    if |a| > 0 {
      StrLeAntisymmetric(a[1..], b[1..]);
      assert a == [a[0]] + a[1..];
      assert b == [b[0]] + b[1..];
    }
  }

  predicate SortedAsc<T>(xs: seq<T>, key: T -> string)
  {
    forall i, j :: 0 <= i < j < |xs| ==> StrLe(key(xs[i]), key(xs[j]))
  }

  lemma SortedPrepend<T>(y: T, zs: seq<T>, key: T -> string)
    requires SortedAsc(zs, key) && (|zs| > 0 ==> StrLe(key(y), key(zs[0])))
    ensures SortedAsc([y] + zs, key)
  {
    var r := [y] + zs;
    forall i, j | 0 <= i < j < |r| ensures StrLe(key(r[i]), key(r[j])) {
      if i == 0 && j > 1 {
        StrLeTrans(key(y), key(zs[0]), key(zs[j - 1]));
      }
    }
  }

  /** x placed before the first element whose key is not smaller, so ties keep x first. */
  function InsertAsc<T>(x: T, ys: seq<T>, key: T -> string): (r: seq<T>)
    requires SortedAsc(ys, key)
    ensures multiset(r) == multiset(ys) + multiset{x}
    ensures SortedAsc(r, key)
    ensures |r| == |ys| + 1
    ensures r[0] == x || (|ys| > 0 && r[0] == ys[0])
  {
    if |ys| == 0 || StrLe(key(x), key(ys[0])) then
      SortedPrepend(x, ys, key);
      [x] + ys
    else
      var tail := InsertAsc(x, ys[1..], key);
      assert ys == [ys[0]] + ys[1..];
      StrLeTotal(key(x), key(ys[0]));
      SortedPrepend(ys[0], tail, key);
      [ys[0]] + tail
  }

  /** sorted(xs, key=key) */
  function SortAsc<T>(xs: seq<T>, key: T -> string): (r: seq<T>)
    ensures multiset(r) == multiset(xs)
    ensures |r| == |xs|
    ensures SortedAsc(r, key)
  {
    if |xs| == 0 then []
    else
      assert xs == [xs[0]] + xs[1..];
      InsertAsc(xs[0], SortAsc(xs[1..], key), key)
  }

  /** The elements of xs whose key is v, in order. */
  function WithStrKey<T>(xs: seq<T>, key: T -> string, v: string): (r: seq<T>)
    ensures |r| <= |xs|
  {
    if |xs| == 0 then []
    else (if key(xs[0]) == v then [xs[0]] else []) + WithStrKey(xs[1..], key, v)
  }

  lemma WithStrKeyCons<T>(y: T, zs: seq<T>, key: T -> string, v: string)
    ensures WithStrKey([y] + zs, key, v) == (if key(y) == v then [y] else []) + WithStrKey(zs, key, v)
  {
    assert ([y] + zs)[1..] == zs;
  }

  lemma {:induction false} InsertWithStrKey<T>(x: T, ys: seq<T>, key: T -> string, v: string)
    requires SortedAsc(ys, key)
    ensures WithStrKey(InsertAsc(x, ys, key), key, v)
            == (if key(x) == v then [x] else []) + WithStrKey(ys, key, v)
    decreases |ys|
  {
    if |ys| == 0 || StrLe(key(x), key(ys[0])) {
      WithStrKeyCons(x, ys, key, v);
    } else {
      var tail := InsertAsc(x, ys[1..], key);
      InsertWithStrKey(x, ys[1..], key, v);
      WithStrKeyCons(ys[0], tail, key, v);
      assert ys == [ys[0]] + ys[1..];
      WithStrKeyCons(ys[0], ys[1..], key, v);
      StrLeTotal(key(x), key(x));
    }
  }

  /** Stability: elements with equal keys keep their input order. */
  lemma {:induction false} SortAscStable<T>(xs: seq<T>, key: T -> string, v: string)
    ensures WithStrKey(SortAsc(xs, key), key, v) == WithStrKey(xs, key, v)
  {
    if |xs| > 0 {
      SortAscStable(xs[1..], key, v);
      InsertWithStrKey(xs[0], SortAsc(xs[1..], key), key, v);
    }
  }

}
