// Character classes and the Python string operations the program relies on:
// str.isspace, str.strip, str.split() with and without a separator, str.join,
// str.lower/upper, `in` on strings, slicing and `s.split('.')[-1]`.
// Letters, digits and word characters are the ASCII ones; whitespace is the
// full set Python's str.isspace() accepts.
module Text {
  import opened Seqs

  /** Python's str.isspace(): the characters str.split(), str.strip() and \s treat as whitespace. */
  predicate IsSpace(c: char)
  {
    ('\t' <= c <= '\r') || ('\U{1C}' <= c <= '\U{1F}') || c == ' ' || c == '\U{85}' || c == '\U{A0}'
    || c == '\U{1680}' || ('\U{2000}' <= c <= '\U{200A}') || c == '\U{2028}' || c == '\U{2029}'
    || c == '\U{202F}' || c == '\U{205F}' || c == '\U{3000}'
  }

  predicate NonSpace(c: char) { !IsSpace(c) }
  predicate IsDigit(c: char) { '0' <= c <= '9' }
  predicate IsUpper(c: char) { 'A' <= c <= 'Z' }
  predicate IsLower(c: char) { 'a' <= c <= 'z' }
  predicate IsAlpha(c: char) { IsUpper(c) || IsLower(c) }
  predicate IsAlnum(c: char) { IsAlpha(c) || IsDigit(c) }
  /** Membership in the regex class \w. */
  predicate IsWord(c: char) { IsAlnum(c) || c == '_' }
  /** Membership in [0-9a-f]. */
  predicate IsHexLower(c: char) { IsDigit(c) || 'a' <= c <= 'f' }
  /** Membership in [0-9a-f] under re.IGNORECASE. */
  predicate IsHex(c: char) { IsHexLower(c) || 'A' <= c <= 'F' }
  /** Membership in [^\]]. */
  predicate NotCloseBracket(c: char) { c != ']' }

  function LowerChar(c: char): char
  {
    if IsUpper(c) then (c as int + 32) as char else c
  }

  function UpperChar(c: char): char
  {
    if IsLower(c) then (c as int - 32) as char else c
  }

  /** str.lower() */
  function Lower(s: string): string
  {
    seq(|s|, i requires 0 <= i < |s| => LowerChar(s[i]))
  }

  /** str.upper() */
  function Upper(s: string): string
  {
    seq(|s|, i requires 0 <= i < |s| => UpperChar(s[i]))
  }

  /** `not s or not s.strip()`: the string is empty or consists of whitespace only. */
  predicate IsBlank(s: string)
  {
    forall i :: 0 <= i < |s| ==> IsSpace(s[i])
  }

  predicate StartsWith(s: string, p: string)
  {
    |p| <= |s| && s[..|p|] == p
  }

  predicate EndsWith(s: string, p: string)
  {
    |p| <= |s| && s[|s| - |p|..] == p
  }

  /** `sub` occurs in `s` at position i. */
  predicate OccursAt(s: string, i: nat, sub: string)
  {
    i + |sub| <= |s| && s[i..i + |sub|] == sub
  }

  /** Python's `sub in s`. */
  predicate Contains(s: string, sub: string)
  {
    exists i :: 0 <= i <= |s| && OccursAt(s, i, sub)
  }

  /** Python's slice s[:n]. */
  function Take(s: string, n: nat): (r: string)
    ensures |r| == if n < |s| then n else |s|
    ensures r <= s
  {
    if n < |s| then s[..n] else s
  }

  /**
   * The end of the longest run of characters satisfying p that starts at i:
   * the position a greedy `[class]*` starting at i stops at.
   */
  function RunEnd(s: string, i: nat, p: char -> bool): (e: nat)
    requires i <= |s|
    ensures i <= e <= |s|
    ensures forall k :: i <= k < e ==> p(s[k])
    ensures e == |s| || !p(s[e])
    decreases |s| - i
  {
    if i < |s| && p(s[i]) then RunEnd(s, i + 1, p) else i
  }

  /** A run characterized by its end: p holds up to e and fails at e (or the string ends). */
  lemma RunEndIs(s: string, i: nat, e: nat, p: char -> bool)
    requires i <= e <= |s|
    requires forall k :: i <= k < e ==> p(s[k])
    requires e == |s| || !p(s[e])
    ensures RunEnd(s, i, p) == e
  {
  }

  /** Two strings that agree from i to a position j where p fails have the same run from i. */
  lemma RunEndAgree(s: string, t: string, i: nat, j: nat, p: char -> bool)
    requires i <= j < |s| && j < |t|
    requires forall k :: i <= k <= j ==> s[k] == t[k]
    requires !p(s[j])
    ensures RunEnd(s, i, p) == RunEnd(t, i, p) <= j
  {
    var e := RunEnd(s, i, p);
    RunEndIs(t, i, e, p);
  }

  /** A run starting at i in s starts at i + d in t when t continues s shifted by d. */
  lemma RunEndShift(s: string, t: string, d: int, i: nat, p: char -> bool)
    requires i <= |s| && 0 <= i + d && |s| + d == |t|
    requires forall k :: i <= k < |s| ==> s[k] == t[k + d]
    ensures RunEnd(t, i + d, p) == RunEnd(s, i, p) + d
  {
    var e := RunEnd(s, i, p);
    forall k | i + d <= k < e + d
      ensures p(t[k])
    {
      assert t[k] == s[k - d];
    }
    if e < |s| {
      assert t[e + d] == s[e];
    }
    RunEndIs(t, i + d, e + d, p);
  }

  // ---------------------------------------------------------------------
  // str.strip()

  function LStrip(s: string): (r: string)
    ensures |r| <= |s| && r == s[|s| - |r|..]
    ensures r == [] || !IsSpace(r[0])
    ensures forall k {:trigger IsSpace(s[k])} :: 0 <= k < |s| - |r| ==> IsSpace(s[k])
  {
    s[RunEnd(s, 0, IsSpace)..]
  }

  /** The start of the run of whitespace that ends at j. */
  function SpaceRunStart(s: string, j: nat): (b: nat)
    requires j <= |s|
    ensures b <= j
    ensures forall k :: b <= k < j ==> IsSpace(s[k])
    ensures b == 0 || !IsSpace(s[b - 1])
    decreases j
  {
    if j > 0 && IsSpace(s[j - 1]) then SpaceRunStart(s, j - 1) else j
  }

  function RStrip(s: string): (r: string)
    ensures |r| <= |s| && r == s[..|r|]
    ensures r == [] || !IsSpace(r[|r| - 1])
    ensures forall k {:trigger IsSpace(s[k])} :: |r| <= k < |s| ==> IsSpace(s[k])
  {
    s[..SpaceRunStart(s, |s|)]
  }

  /** str.strip() */
  function Strip(s: string): string
  {
    RStrip(LStrip(s))
  }

  /** Strip removes exactly the whitespace at both ends and keeps the middle. */
  lemma StripShape(s: string)
    ensures Strip(s) == [] || (!IsSpace(Strip(s)[0]) && !IsSpace(Strip(s)[|Strip(s)| - 1]))
    ensures |s| - |LStrip(s)| + |Strip(s)| <= |s|
    ensures Strip(s) == s[|s| - |LStrip(s)|..|s| - |LStrip(s)| + |Strip(s)|]
  {
    StripEdges(s);
    StripMiddle(s);
  }

  lemma StripEdges(s: string)
    ensures Strip(s) == [] || (!IsSpace(Strip(s)[0]) && !IsSpace(Strip(s)[|Strip(s)| - 1]))
  {
    var l := LStrip(s);
    var r := RStrip(l);
    if r != [] {
      assert r[0] == l[0];
    }
  }

  lemma StripMiddle(s: string)
    ensures |s| - |LStrip(s)| + |Strip(s)| <= |s|
    ensures Strip(s) == s[|s| - |LStrip(s)|..|s| - |LStrip(s)| + |Strip(s)|]
  {
    var l := LStrip(s);
    var r := RStrip(l);
    assert Strip(s) == r;
    SliceOfSlice(s, l, r, |s| - |l|);
  }

  /** The stripped text is empty exactly when the input is blank. */
  lemma StripEmptyIffBlank(s: string)
    ensures Strip(s) == [] <==> IsBlank(s)
  {
    var l := LStrip(s);
    forall k | 0 <= k < |l| ensures l[k] == s[|s| - |l| + k] { }
    if !IsBlank(s) {
      var k :| 0 <= k < |s| && !IsSpace(s[k]);
      assert RStrip(l) != [] ==> RStrip(l)[0] == l[0];
      assert l != [] && !IsSpace(l[0]);
    }
  }

  // ---------------------------------------------------------------------
  // str.split() without arguments, str.join and their combination

  /** Python's str.split(): the maximal runs of non-whitespace characters, in order. */
  function Words(s: string): seq<string>
    decreases |s|
  {
    if s == [] then []
    else if IsSpace(s[0]) then Words(s[1..])
    else
      var e := RunEnd(s, 0, NonSpace);
      [s[..e]] + Words(s[e..])
  }

  /** No whitespace character at all. */
  predicate NoSpaceIn(p: string)
  {
    forall k :: 0 <= k < |p| ==> !IsSpace(p[k])
  }

  /** A word of str.split() is non-empty and holds no whitespace. */
  predicate IsWordToken(w: string)
  {
    w != [] && forall k :: 0 <= k < |w| ==> !IsSpace(w[k])
  }

  lemma {:induction false} WordsAreTokens(s: string)
    ensures forall j :: 0 <= j < |Words(s)| ==> IsWordToken(Words(s)[j])
    decreases |s|
  {
    if s == [] {
    } else if IsSpace(s[0]) {
      WordsAreTokens(s[1..]);
    } else {
      var e := RunEnd(s, 0, NonSpace);
      WordsAreTokens(s[e..]);
      assert Words(s) == [s[..e]] + Words(s[e..]);
    }
  }

  /** sep.join(parts) */
  function Join(sep: string, parts: seq<string>): string
  {
    if |parts| == 0 then ""
    else if |parts| == 1 then parts[0]
    else parts[0] + sep + Join(sep, parts[1..])
  }

  /** `' '.join(s.split())`: runs of whitespace become one space, the ends are trimmed. */
  function Collapse(s: string): string
  {
    Join(" ", Words(s))
  }

  /**
   * A single-spaced string: the only whitespace is a plain space, never at either end
   * and never next to another whitespace character.
   */
  predicate SingleSpaced(r: string)
  {
    forall i :: 0 <= i < |r| && IsSpace(r[i]) ==> r[i] == ' ' && 0 < i < |r| - 1 && !IsSpace(r[i + 1])
  }

  lemma {:induction false} JoinTokensSingleSpaced(ws: seq<string>)
    requires forall j :: 0 <= j < |ws| ==> IsWordToken(ws[j])
    ensures SingleSpaced(Join(" ", ws))
    ensures |ws| > 0 ==> Join(" ", ws) != [] && !IsSpace(Join(" ", ws)[0])
    decreases |ws|
  {
    if |ws| > 1 {
      JoinTokensSingleSpaced(ws[1..]);
      var w, rest := ws[0], Join(" ", ws[1..]);
      var r := Join(" ", ws);
      assert r == w + " " + rest;
      assert forall i :: 0 <= i < |w| ==> r[i] == w[i];
      assert r[|w|] == ' ' && r[|w| + 1] == rest[0];
      assert forall i :: |w| < i < |r| ==> r[i] == rest[i - |w| - 1];
    } else if |ws| == 1 {
      assert Join(" ", ws) == ws[0];
    }
  }

  /** The normalized text is single-spaced: no tab, newline or edge space, no double space. */
  lemma CollapseSingleSpaced(s: string)
    ensures SingleSpaced(Collapse(s))
  {
    WordsAreTokens(s);
    JoinTokensSingleSpaced(Words(s));
  }

  /** Splitting a space-joined list of words gives the words back. */
  lemma {:induction false} WordsOfJoin(ws: seq<string>)
    requires forall j :: 0 <= j < |ws| ==> IsWordToken(ws[j])
    ensures Words(Join(" ", ws)) == ws
    decreases |ws|
  {
    if |ws| == 1 {
      WordsOfToken(ws[0], "");
      assert Join(" ", ws) == ws[0] + "";
    } else if |ws| > 1 {
      var w, rest := ws[0], Join(" ", ws[1..]);
      var tail := " " + rest;
      assert Join(" ", ws) == w + tail;
      WordsOfJoin(ws[1..]);
      WordsOfToken(w, tail);
      assert tail[1..] == rest;
    }
  }

  /** A token followed by nothing or by whitespace is split off as one word. */
  lemma WordsOfToken(w: string, tail: string)
    requires IsWordToken(w)
    requires tail == [] || IsSpace(tail[0])
    ensures Words(w + tail) == [w] + Words(if tail == [] then [] else tail[1..])
  {
    var s := w + tail;
    var e := RunEnd(s, 0, NonSpace);
    assert forall k :: 0 <= k < |w| ==> s[k] == w[k];
    assert s[|w|..] == tail;
    assert |w| < |s| ==> !NonSpace(s[|w|]);
    assert e == |w|;
    assert s[..e] == w;
    if tail != [] {
      assert Words(tail) == Words(tail[1..]);
    }
  }

  /** Collapsing whitespace twice changes nothing more: `' '.join(s.split())` is idempotent. */
  lemma CollapseIdempotent(s: string)
    ensures Collapse(Collapse(s)) == Collapse(s)
  {
    WordsAreTokens(s);
    WordsOfJoin(Words(s));
  }

  // ---------------------------------------------------------------------
  // str.split(sep) with a one-character separator, and s.split('.')[-1]

  /** The position of the first c in s, or |s| when there is none. */
  function IndexOf(s: string, c: char): (e: nat)
    ensures e <= |s|
    ensures forall k :: 0 <= k < e ==> s[k] != c
    ensures e == |s| || s[e] == c
    decreases |s|
  {
    if s == [] then 0 else if s[0] == c then 0 else 1 + IndexOf(s[1..], c)
  }

  /** Python's s.split(c) for a one-character separator c. */
  function SplitOn(s: string, c: char): (parts: seq<string>)
    ensures |parts| >= 1
    ensures forall k :: 0 <= k < |parts| ==> c !in parts[k]
    ensures parts[0] <= s
    decreases |s|
  {
    var e := IndexOf(s, c);
    if e == |s| then
      assert s[..e] == s;
      [s]
    else
      [s[..e]] + SplitOn(s[e + 1..], c)
  }

  /** Joining the parts with the separator gives the text back. */
  lemma {:induction false} JoinSplitOn(s: string, c: char)
    ensures Join([c], SplitOn(s, c)) == s
    decreases |s|
  {
    var e := IndexOf(s, c);
    if e < |s| {
      JoinSplitOn(s[e + 1..], c);
      assert s == s[..e] + [c] + s[e + 1..];
    }
  }

  /** s.split(c)[-1]: the part after the last c. */
  function AfterLast(s: string, c: char): (r: string)
    ensures |r| <= |s| && r == s[|s| - |r|..]
    ensures c !in r
    ensures r == s || s[|s| - |r| - 1] == c
  {
    if s == [] then []
    else if s[|s| - 1] == c then []
    else
      var prev := AfterLast(s[..|s| - 1], c);
      SuffixSnoc(s, prev);
      prev + [s[|s| - 1]]
  }

  /** s.split('.')[-1]: the part after the last dot. */
  function LastSegment(s: string): (r: string)
    ensures |r| <= |s| && r == s[|s| - |r|..]
    ensures '.' !in r
    ensures r == s || s[|s| - |r| - 1] == '.'
  {
    AfterLast(s, '.')
  }

}
