// Facts about sequence slicing and concatenation, stated once for any element
// type. Proving them for sequences of strings at each use makes the solver
// compare the strings themselves; called from here they are plain facts.
module Seqs {

  lemma TakeSnoc<T>(s: seq<T>, i: nat)
    requires i < |s|
    ensures s[..i + 1] == s[..i] + [s[i]]
  {
  }

  lemma TakeLast<T>(s: seq<T>, i: nat)
    requires i < |s|
    ensures |s[..i + 1]| == i + 1 && s[..i + 1][..i] == s[..i] && s[..i + 1][i] == s[i]
  {
  }

  lemma DropTake<T>(s: seq<T>, a: nat, n: nat)
    requires a + n <= |s|
    ensures s[a..][..n] == s[a..a + n]
  {
  }

  lemma SliceOfSlice<T>(s: seq<T>, l: seq<T>, r: seq<T>, a: nat)
    requires a <= |s| && l == s[a..] && |r| <= |l| && r == l[..|r|]
    ensures a + |r| <= |s| && r == s[a..a + |r|]
    ensures r != [] ==> r[0] == l[0]
  {
  }

  lemma PrefixOfSlice<T>(s: seq<T>, a: nat, e: nat, n: nat)
    requires a + n <= e <= |s|
    ensures s[a..e][..n] == s[a..a + n]
  {
  }

  lemma SuffixOfSlice<T>(s: seq<T>, a: nat, e: nat, d: nat)
    requires a + d <= e <= |s|
    ensures s[a..e][d..] == s[a + d..e]
  {
  }

  lemma SuffixOfSuffix<T>(s: seq<T>, r: seq<T>, n: nat)
    requires |r| <= |s| && r == s[|s| - |r|..] && n <= |r|
    ensures r[|r| - n..] == s[|s| - n..]
  {
  }

  lemma SuffixSnoc<T>(s: seq<T>, r: seq<T>)
    requires |s| > 0 && |r| < |s| && r == s[..|s| - 1][|s| - 1 - |r|..]
    ensures r + [s[|s| - 1]] == s[|s| - 1 - |r|..]
  {
    assert r == s[|s| - 1 - |r|..|s| - 1];
  }

  lemma ShiftedSlice<T>(s: seq<T>, t: seq<T>, d: int, i: nat, e: nat)
    requires i <= e <= |s| && 0 <= i + d && e + d <= |t|
    requires forall k :: i <= k < e ==> s[k] == t[k + d]
    ensures s[i..e] == t[i + d..e + d]
  {
    assert forall k :: 0 <= k < e - i ==> s[i..e][k] == s[i + k] && t[i + d..e + d][k] == t[i + d + k];
  }

  lemma TakeAll<T>(s: seq<T>)
    ensures s[..|s|] == s
  {
  }

  lemma DropCons<T>(s: seq<T>, i: nat)
    requires i < |s|
    ensures s[i..][0] == s[i] && s[i..][1..] == s[i + 1..]
  {
  }

  lemma DropAll<T>(s: seq<T>)
    ensures s[|s|..] == []
  {
  }

  lemma ConsAppend<T>(a: seq<T>, b: seq<T>)
    requires a != []
    ensures (a + b)[0] == a[0] && (a + b)[1..] == a[1..] + b
  {
  }

  lemma NilAppend<T>(a: seq<T>, b: seq<T>)
    requires a == []
    ensures a + b == b
  {
  }

  lemma AppendAssoc<T>(x: seq<T>, y: seq<T>, z: seq<T>)
    ensures (x + y) + z == x + (y + z)
  {
  }

  lemma SplitAround<T>(s: seq<T>, k: nat)
    requires k < |s|
    ensures s == s[..k] + ([s[k]] + s[k + 1..])
  {
  }

  lemma IndexInMiddle<T>(x: seq<T>, y: seq<T>, z: seq<T>, i: nat)
    requires i < |y|
    ensures |x + y + z| == |x| + |y| + |z| && (x + y + z)[|x| + i] == y[i]
  {
  }

  lemma Singleton<T>(x: T)
    ensures [x][0] == x && [x][1..] == []
  {
  }

  // ---------------------------------------------------------------------
  // Numbered lists written out one item after another

  /** f(first, s[0]) + f(first + 1, s[1]) + …: each item written out under its number. */
  function Numbered<T, U>(s: seq<T>, first: nat, f: (nat, T) -> seq<U>): seq<U>
    decreases |s|
  {
    if s == [] then []
    else Numbered(s[..|s| - 1], first, f) + f(first + |s| - 1, s[|s| - 1])
  }

  /** One more item adds its own text at the end. */
  lemma NumberedSnoc<T, U>(s: seq<T>, i: nat, first: nat, f: (nat, T) -> seq<U>)
    requires i < |s|
    ensures Numbered(s[..i + 1], first, f) == Numbered(s[..i], first, f) + f(first + i, s[i])
  {
    assert s[..i + 1][..i] == s[..i];
  }

  /** The numbering runs on: the items of a + b are those of a, then those of b numbered after them. */
  lemma {:induction false} NumberedAppend<T, U>(a: seq<T>, b: seq<T>, first: nat, f: (nat, T) -> seq<U>)
    ensures Numbered(a + b, first, f) == Numbered(a, first, f) + Numbered(b, first + |a|, f)
    decreases |b|
  {
    if b == [] {
      assert a + b == a;
    } else {
      var n := |b| - 1;
      assert (a + b)[..|a + b| - 1] == a + b[..n];
      assert (a + b)[|a + b| - 1] == b[n];
      NumberedAppend(a, b[..n], first, f);
    }
  }

  /** Item k stands between the items before it and those after it. */
  lemma NumberedAt<T, U>(s: seq<T>, k: nat, first: nat, f: (nat, T) -> seq<U>)
    requires k < |s|
    ensures Numbered(s, first, f) == Numbered(s[..k], first, f) + f(first + k, s[k]) + Numbered(s[k + 1..], first + k + 1, f)
  {
    var rest := [s[k]] + s[k + 1..];
    assert s == s[..k] + rest;
    NumberedAppend(s[..k], rest, first, f);
    NumberedAppend([s[k]], s[k + 1..], first + k, f);
    NumberedSingle(s[k], first + k, f);
    AppendAssoc(Numbered(s[..k], first, f), f(first + k, s[k]), Numbered(s[k + 1..], first + k + 1, f));
  }

  lemma NumberedSingle<T, U>(x: T, first: nat, f: (nat, T) -> seq<U>)
    ensures Numbered([x], first, f) == f(first, x)
  {
    assert [x][..0] == [];
  }

  /** When every item is written as w elements, the list has w elements per item. */
  lemma {:induction false} NumberedWidth<T, U>(s: seq<T>, first: nat, f: (nat, T) -> seq<U>, w: nat)
    requires forall i: nat, x :: |f(i, x)| == w
    ensures |Numbered(s, first, f)| == w * |s|
    decreases |s|
  {
    if s != [] {
      var n := |s| - 1;
      NumberedWidth(s[..n], first, f, w);
      assert w * |s| == w * n + w;
    }
  }

  // ---------------------------------------------------------------------
  // List comprehensions with a condition

  /** `[x for x in xs if p(x)]` */
  function Filter<T>(xs: seq<T>, p: T -> bool): seq<T>
    decreases |xs|
  {
    if xs == [] then [] else (if p(xs[0]) then [xs[0]] else []) + Filter(xs[1..], p)
  }

  /** The comprehension keeps exactly the elements that satisfy p, and no more of them than there were. */
  lemma {:induction false} FilterMembers<T>(xs: seq<T>, p: T -> bool)
    ensures forall x :: x in Filter(xs, p) <==> x in xs && p(x)
    ensures |Filter(xs, p)| <= |xs|
    decreases |xs|
  {
    if xs != [] {
      FilterMembers(xs[1..], p);
      assert xs == [xs[0]] + xs[1..];
    }
  }

  /** When every element satisfies p, the comprehension gives the list back. */
  lemma {:induction false} FilterAllKept<T>(xs: seq<T>, p: T -> bool)
    requires forall k :: 0 <= k < |xs| ==> p(xs[k])
    ensures Filter(xs, p) == xs
    decreases |xs|
  {
    if xs != [] {
      FilterAllKept(xs[1..], p);
      assert xs == [xs[0]] + xs[1..];
    }
  }

  /** When no element satisfies p, the comprehension is empty. */
  lemma {:induction false} FilterNone<T>(xs: seq<T>, p: T -> bool)
    requires forall k :: 0 <= k < |xs| ==> !p(xs[k])
    ensures Filter(xs, p) == []
    decreases |xs|
  {
    if xs != [] {
      FilterNone(xs[1..], p);
    }
  }
}
