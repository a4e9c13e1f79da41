// Python dictionaries as insertion-ordered association lists: a new key is appended,
// an existing key keeps its position and gets the new value. Iterating `.items()`
// visits the list in order.
module PyDict {
  import opened Wrappers

  type Dict<K, V> = seq<(K, V)>

  /** `d.get(k)` */
  function Lookup<K(==), V>(d: Dict<K, V>, k: K): (r: Option<V>)
    ensures r.None? <==> forall i :: 0 <= i < |d| ==> d[i].0 != k
  {
    if |d| == 0 then None else if d[0].0 == k then Some(d[0].1) else Lookup(d[1..], k)
  }

  /** A value found for k is stored under k. */
  lemma {:induction false} LookupFound<K, V>(d: Dict<K, V>, k: K)
    requires Lookup(d, k).Some?
    ensures exists i :: 0 <= i < |d| && d[i] == (k, Lookup(d, k).value)
  {
    if d[0].0 != k {
      LookupFound(d[1..], k);
      var i :| 0 <= i < |d[1..]| && d[1..][i] == (k, Lookup(d[1..], k).value);
      assert d[i + 1] == d[1..][i];
    }
  }

  /** No key is listed twice. */
  ghost predicate DistinctKeys<K, V>(d: Dict<K, V>)
  {
    forall i, j :: 0 <= i < j < |d| ==> d[i].0 != d[j].0
  }

  /** `d[k] = v` */
  function Set<K(==), V>(d: Dict<K, V>, k: K, v: V): Dict<K, V>
    decreases |d|
  {
    if |d| == 0 then [(k, v)]
    else if d[0].0 == k then [(k, v)] + d[1..]
    else [d[0]] + Set(d[1..], k, v)
  }

  /** After `d[k] = v`, k maps to v; a new key is appended, an existing one keeps the length. */
  lemma {:induction false} SetShape<K, V>(d: Dict<K, V>, k: K, v: V)
    ensures Lookup(Set(d, k, v), k) == Some(v)
    ensures Lookup(d, k).None? ==> Set(d, k, v) == d + [(k, v)]
    ensures Lookup(d, k).Some? ==> |Set(d, k, v)| == |d|
    decreases |d|
  {
    if |d| > 0 && d[0].0 != k {
      SetShape(d[1..], k, v);
      if Lookup(d, k).None? {
        assert d == [d[0]] + d[1..];
      }
    }
  }

  /** Setting k leaves every other key's value alone. */
  lemma {:induction false} SetOther<K, V>(d: Dict<K, V>, k: K, v: V, k': K)
    requires k' != k
    ensures Lookup(Set(d, k, v), k') == Lookup(d, k')
    decreases |d|
  {
    if |d| > 0 && d[0].0 != k {
      SetOther(d[1..], k, v, k');
      assert Set(d, k, v)[1..] == Set(d[1..], k, v);
    }
  }

  /** Setting a key keeps the keys distinct and in place. */
  lemma {:induction false} SetKeys<K, V>(d: Dict<K, V>, k: K, v: V)
    ensures Lookup(d, k).Some? ==> |Set(d, k, v)| == |d| && forall i :: 0 <= i < |d| ==> Set(d, k, v)[i].0 == d[i].0
    ensures DistinctKeys(d) ==> DistinctKeys(Set(d, k, v))
    decreases |d|
  {
    if |d| > 0 && d[0].0 != k {
      var tail := d[1..];
      var rest := Set(tail, k, v);
      var r := [d[0]] + rest;
      assert Set(d, k, v) == r;
      SetKeys(tail, k, v);
      SetShape(tail, k, v);
      assert Lookup(d, k) == Lookup(tail, k);
      if Lookup(tail, k).Some? {
        forall i | 0 <= i < |d| ensures r[i].0 == d[i].0 {
          if i > 0 {
            assert r[i] == rest[i - 1] && d[i] == tail[i - 1];
          }
        }
      }
      if DistinctKeys(d) {
        assert DistinctKeys(tail) by {
          forall i, j | 0 <= i < j < |tail| ensures tail[i].0 != tail[j].0 {
            assert tail[i] == d[i + 1] && tail[j] == d[j + 1];
          }
        }
        forall j | 0 <= j < |rest| ensures rest[j].0 != d[0].0 {
          if Lookup(tail, k).None? && j == |tail| {
            assert rest[j] == (k, v);
          } else {
            assert rest[j].0 == tail[j].0 && tail[j] == d[j + 1];
          }
        }
        forall i, j | 0 <= i < j < |r| ensures r[i].0 != r[j].0 {
          assert r[j] == rest[j - 1];
          if i > 0 {
            assert r[i] == rest[i - 1];
          }
        }
      }
    }
  }

  /** In a dictionary with distinct keys, looking up an entry's key finds that entry. */
  lemma {:induction false} LookupOfDistinct<K, V>(d: Dict<K, V>, j: nat)
    requires DistinctKeys(d) && j < |d|
    ensures Lookup(d, d[j].0) == Some(d[j].1)
    decreases |d|
  {
    if j > 0 {
      assert d[0].0 != d[j].0;
      assert d[1..][j - 1] == d[j];
      LookupOfDistinct(d[1..], j - 1);
    }
  }

  // ---------------------------------------------------------------------
  // A loop that sets a key for some of the items it visits

  /** The dictionary built by `d[k] = v` for each item that f turns into (k, v), in order. */
  function SetEach<T, K(==), V>(items: seq<T>, f: T -> Option<(K, V)>): Dict<K, V>
    decreases |items|
  {
    if items == [] then []
    else
      var n := |items| - 1;
      var before := SetEach(items[..n], f);
      match f(items[n])
      case Some((k, v)) => Set(before, k, v)
      case None => before
  }

  lemma SetEachSnoc<T, K, V>(items: seq<T>, f: T -> Option<(K, V)>, i: nat)
    requires i < |items|
    ensures SetEach(items[..i + 1], f) == match f(items[i]) case Some((k, v)) => Set(SetEach(items[..i], f), k, v) case None => SetEach(items[..i], f)
  {
    assert items[..i + 1][..i] == items[..i];
  }

  /** Every value found was set by one of the items. */
  lemma {:induction false} SetEachSound<T, K, V>(items: seq<T>, f: T -> Option<(K, V)>, k: K)
    requires Lookup(SetEach(items, f), k).Some?
    ensures exists j :: 0 <= j < |items| && f(items[j]) == Some((k, Lookup(SetEach(items, f), k).value))
    decreases |items|
  {
    var n := |items| - 1;
    var before := SetEach(items[..n], f);
    match f(items[n])
    case Some((c, v)) =>
      if c == k {
        SetShape(before, c, v);
      } else {
        SetOther(before, c, v, k);
        SetEachSound(items[..n], f, k);
        var j :| 0 <= j < n && f(items[..n][j]) == Some((k, Lookup(before, k).value));
        assert items[..n][j] == items[j];
      }
    case None =>
      SetEachSound(items[..n], f, k);
      var j :| 0 <= j < n && f(items[..n][j]) == Some((k, Lookup(before, k).value));
      assert items[..n][j] == items[j];
  }

  /** f sets key k with the item. */
  predicate SetsKey<T, K(==), V>(f: T -> Option<(K, V)>, item: T, k: K)
  {
    f(item).Some? && f(item).value.0 == k
  }

  /** The last item that sets a key decides its value. */
  lemma {:induction false} SetEachLastWins<T, K, V>(items: seq<T>, f: T -> Option<(K, V)>, i: nat, k: K, v: V)
    requires i < |items| && f(items[i]) == Some((k, v))
    requires forall j :: i < j < |items| ==> !SetsKey(f, items[j], k)
    ensures Lookup(SetEach(items, f), k) == Some(v)
    decreases |items|
  {
    var n := |items| - 1;
    var before := SetEach(items[..n], f);
    if i == n {
      SetShape(before, k, v);
    } else {
      assert items[..n][i] == items[i];
      forall j | i < j < n
        ensures !SetsKey(f, items[..n][j], k)
      {
        assert items[..n][j] == items[j];
      }
      SetEachLastWins(items[..n], f, i, k, v);
      match f(items[n])
      case Some((c, w)) =>
        SetOther(before, c, w, k);
      case None =>
    }
  }
}
