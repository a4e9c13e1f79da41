// Python's re.sub as a left-to-right scan. A pattern is given by a matcher that,
// looking at the whole original string (so that \b and other look-behinds see the
// character before the position), tells where a match starting at a position ends.
// The scan tries each position from the left; at a match it emits the replacement
// for the matched text and resumes after the match, otherwise it copies one
// character. Matches therefore never overlap and earlier matches win. Every pattern
// of the program matches at least one character, so re.sub's rule for empty
// matches never applies.
module Rewrite {
  import opened Wrappers
  import Text
  import opened Seqs

  /** A compiled pattern: the end of the match that starts at i, if any. */
  type Matcher = (string, nat) -> Option<nat>

  /** The match of m at i as re.sub uses it: non-empty and inside the string. */
  function MatchAt(m: Matcher, s: string, i: nat): (r: Option<nat>)
    ensures r.Some? ==> i < r.value <= |s|
    ensures r.Some? ==> r == m(s, i)
  {
    var r := m(s, i);
    if r.Some? && i < r.value <= |s| then r else None
  }

  /** The output re.sub produces for s[i..]. */
  function ScanFrom(s: string, i: nat, m: Matcher, rep: string -> string): string
    requires i <= |s|
    decreases |s| - i
  {
    if i == |s| then ""
    else match MatchAt(m, s, i)
      case Some(e) => rep(s[i..e]) + ScanFrom(s, e, m, rep)
      case None => [s[i]] + ScanFrom(s, i + 1, m, rep)
  }

  /** re.sub(pattern, rep, s) */
  function Sub(s: string, m: Matcher, rep: string -> string): string
  {
    ScanFrom(s, 0, m, rep)
  }

  /** ScanSkip over the stretch of a word w and n characters after it. */
  lemma ScanSkipPast(s: string, i: nat, w: string, n: nat, m: Matcher, rep: string -> string)
    requires i + |w| + n <= |s|
    requires forall k :: i <= k < i + |w| + n ==> MatchAt(m, s, k).None?
    ensures ScanFrom(s, i, m, rep) == s[i..i + |w| + n] + ScanFrom(s, i + |w| + n, m, rep)
  {
    ScanSkip(s, i, i + |w| + n, m, rep);
  }

  /** Positions where nothing matches are copied unchanged. */
  lemma {:induction false} ScanSkip(s: string, i: nat, j: nat, m: Matcher, rep: string -> string)
    requires i <= j <= |s|
    requires forall k :: i <= k < j ==> MatchAt(m, s, k).None?
    ensures ScanFrom(s, i, m, rep) == s[i..j] + ScanFrom(s, j, m, rep)
    decreases j - i
  {
    if i < j {
      ScanSkip(s, i + 1, j, m, rep);
      assert ScanFrom(s, i, m, rep) == [s[i]] + ScanFrom(s, i + 1, m, rep);
      assert s[i..j] == [s[i]] + s[i + 1..j];
      AppendAssoc([s[i]], s[i + 1..j], ScanFrom(s, j, m, rep));
    }
  }

  /** A string in which the pattern never matches comes back unchanged. */
  lemma SubNoMatch(s: string, m: Matcher, rep: string -> string)
    requires forall k :: 0 <= k < |s| ==> MatchAt(m, s, k).None?
    ensures Sub(s, m, rep) == s
  {
    ScanSkip(s, 0, |s|, m, rep);
    assert s[0..|s|] == s;
  }

  /** A match at i is replaced and the scan resumes at its end. */
  lemma ScanMatch(s: string, i: nat, e: nat, m: Matcher, rep: string -> string)
    requires i < |s| && MatchAt(m, s, i) == Some(e)
    ensures ScanFrom(s, i, m, rep) == rep(s[i..e]) + ScanFrom(s, e, m, rep)
  {
  }

  /** Where nothing matches, the character is copied and the scan moves on by one. */
  lemma ScanCopy(s: string, i: nat, m: Matcher, rep: string -> string)
    requires i < |s| && MatchAt(m, s, i).None?
    ensures ScanFrom(s, i, m, rep) == [s[i]] + ScanFrom(s, i + 1, m, rep)
  {
  }

  /** A match at i ending at e, and no match at e: the replacement, then s[e] copied. */
  lemma ScanMatchThenCopy(s: string, i: nat, e: nat, m: Matcher, rep: string -> string)
    requires e < |s| && MatchAt(m, s, i) == Some(e) && m(s, e).None?
    ensures ScanFrom(s, i, m, rep) == rep(s[i..e]) + [s[e]] + ScanFrom(s, e + 1, m, rep)
  {
    assert MatchAt(m, s, e).None?;
  }

  /**
   * The scan depends only on what the matcher says at the positions it visits:
   * two strings that agree from i on, and whose matchers agree at every position
   * from i on, are rewritten alike from i on.
   */
  lemma {:induction false} ScanAgree(s: string, t: string, d: int, i: nat, m: Matcher, rep: string -> string)
    requires i <= |s| && 0 <= i + d && |s| + d == |t|
    requires forall k :: i <= k < |s| ==> s[k] == t[k + d]
    requires forall k :: i <= k < |s| ==> (MatchAt(m, t, k + d).Some? <==> MatchAt(m, s, k).Some?)
    requires forall k :: i <= k < |s| && MatchAt(m, s, k).Some? ==> MatchAt(m, t, k + d).value == MatchAt(m, s, k).value + d
    ensures ScanFrom(s, i, m, rep) == ScanFrom(t, i + d, m, rep)
    decreases |s| - i, 1
  {
    if i < |s| {
      if MatchAt(m, s, i).Some? {
        ScanAgreeAtMatch(s, t, d, i, m, rep);
      } else {
        assert MatchAt(m, t, i + d).None? && s[i] == t[i + d];
        ScanCopy(s, i, m, rep);
        ScanCopy(t, i + d, m, rep);
        ScanAgree(s, t, d, i + 1, m, rep);
      }
    }
  }

  /** The match case of ScanAgree: both scans replace the same text and resume at the same place. */
  lemma {:induction false} ScanAgreeAtMatch(s: string, t: string, d: int, i: nat, m: Matcher, rep: string -> string)
    requires i < |s| && 0 <= i + d && |s| + d == |t|
    requires forall k :: i <= k < |s| ==> s[k] == t[k + d]
    requires forall k :: i <= k < |s| ==> (MatchAt(m, t, k + d).Some? <==> MatchAt(m, s, k).Some?)
    requires forall k :: i <= k < |s| && MatchAt(m, s, k).Some? ==> MatchAt(m, t, k + d).value == MatchAt(m, s, k).value + d
    requires MatchAt(m, s, i).Some?
    ensures ScanFrom(s, i, m, rep) == ScanFrom(t, i + d, m, rep)
    decreases |s| - i, 0
  {
    var e := MatchAt(m, s, i).value;
    assert MatchAt(m, t, i + d) == Some(e + d);
    ScanMatch(s, i, e, m, rep);
    ScanMatch(t, i + d, e + d, m, rep);
    ShiftedSlice(s, t, d, i, e);
    ScanAgree(s, t, d, e, m, rep);
  }

  /**
   * Before lo the two strings agree and so does the matcher, whose matches there never
   * run past lo: once the scans agree from lo, they agree from i.
   */
  lemma {:induction false} ScanPrefixAgree(s: string, t: string, i: nat, lo: nat, m: Matcher, rep: string -> string)
    requires i <= lo <= |s| && lo <= |t|
    requires forall k :: i <= k < lo ==> s[k] == t[k] && MatchAt(m, s, k) == MatchAt(m, t, k)
    requires forall k :: i <= k < lo && MatchAt(m, s, k).Some? ==> MatchAt(m, s, k).value <= lo
    requires ScanFrom(s, lo, m, rep) == ScanFrom(t, lo, m, rep)
    ensures ScanFrom(s, i, m, rep) == ScanFrom(t, i, m, rep)
    decreases lo - i
  {
    if i < lo {
      match MatchAt(m, s, i)
      case Some(e) =>
        assert s[i..e] == t[i..e];
        ScanPrefixAgree(s, t, e, lo, m, rep);
      case None =>
        ScanPrefixAgree(s, t, i + 1, lo, m, rep);
    }
  }

  /**
   * Two strings that differ only in a token at lo, which the pattern matches in both and
   * replaces alike, while everywhere else the matcher sees the same thing (before the
   * token at the same positions, after it shifted by d): re.sub gives the same output.
   */
  lemma SubAtToken(s: string, t: string, lo: nat, hi: nat, d: int, m: Matcher, rep: string -> string)
    requires lo < hi <= |s| && lo < hi + d && |s| + d == |t|
    requires MatchAt(m, s, lo) == Some(hi) && MatchAt(m, t, lo) == Some(hi + d)
    requires rep(s[lo..hi]) == rep(t[lo..hi + d])
    requires forall k :: 0 <= k < lo ==> s[k] == t[k] && MatchAt(m, s, k) == MatchAt(m, t, k)
    requires forall k :: 0 <= k < lo && MatchAt(m, s, k).Some? ==> MatchAt(m, s, k).value <= lo
    requires forall k :: hi <= k < |s| ==> s[k] == t[k + d]
    requires forall k :: hi <= k < |s| ==> (MatchAt(m, t, k + d).Some? <==> MatchAt(m, s, k).Some?)
    requires forall k :: hi <= k < |s| && MatchAt(m, s, k).Some? ==> MatchAt(m, t, k + d).value == MatchAt(m, s, k).value + d
    ensures Sub(s, m, rep) == Sub(t, m, rep)
  {
    ScanAgree(s, t, d, hi, m, rep);
    assert ScanFrom(s, lo, m, rep) == ScanFrom(t, lo, m, rep);
    ScanPrefixAgree(s, t, 0, lo, m, rep);
  }

  /** The same, for two strings of one length on which the matcher agrees everywhere. */
  lemma SubSameMatches(s: string, t: string, lo: nat, hi: nat, m: Matcher, rep: string -> string)
    requires lo < hi <= |s| == |t|
    requires forall k :: 0 <= k < |s| ==> MatchAt(m, s, k) == MatchAt(m, t, k)
    requires MatchAt(m, s, lo) == Some(hi) && rep(s[lo..hi]) == rep(t[lo..hi])
    requires forall k :: 0 <= k < lo ==> s[k] == t[k]
    requires forall k :: 0 <= k < lo && MatchAt(m, s, k).Some? ==> MatchAt(m, s, k).value <= lo
    requires forall k :: hi <= k < |s| ==> s[k] == t[k]
    ensures Sub(s, m, rep) == Sub(t, m, rep)
  {
    SubAtToken(s, t, lo, hi, 0, m, rep);
  }

  // ---------------------------------------------------------------------
  // Building blocks of the patterns

  /** The regex assertion \b at position i (ASCII word characters). */
  predicate Boundary(s: string, i: nat)
  {
    (0 < i <= |s| && Text.IsWord(s[i - 1])) != (i < |s| && Text.IsWord(s[i]))
  }

  /** One character of a fixed-width pattern: '#' is \d, '%' is [0-9a-f] under IGNORECASE, anything else is literal. */
  predicate FitsChar(c: char, t: char)
  {
    if t == '#' then Text.IsDigit(c) else if t == '%' then Text.IsHex(c) else c == t
  }

  /** The fixed-width pattern `shape` matches s at i: each character fits its place. */
  predicate FitsAt(s: string, i: nat, shape: string)
  {
    i + |shape| <= |s| && forall k :: 0 <= k < |shape| ==> FitsChar(s[i + k], shape[k])
  }

  /** The largest j in [lo, hi) with p(s[j]), scanning down from hi as a backtracking greedy loop does. */
  function LastWhere(s: string, lo: nat, hi: nat, p: char -> bool): (r: Option<nat>)
    requires hi <= |s|
    ensures r.Some? ==> lo <= r.value < hi && p(s[r.value])
    ensures r.Some? ==> forall j :: r.value < j < hi ==> !p(s[j])
    ensures r.None? ==> forall j :: lo <= j < hi ==> !p(s[j])
    decreases hi
  {
    if hi <= lo then None
    else if p(s[hi - 1]) then Some(hi - 1)
    else LastWhere(s, lo, hi - 1, p)
  }

  // ---------------------------------------------------------------------
  // re.search

  /**
   * re.search from position i: the leftmost position at which m matches, with what it
   * matched. Every position up to and including |s| is tried, as Python does.
   */
  function SearchFrom<T>(s: string, i: nat, m: (string, nat) -> Option<T>): (r: Option<(nat, T)>)
    requires i <= |s|
    ensures r.Some? ==> i <= r.value.0 <= |s| && m(s, r.value.0) == Some(r.value.1)
    ensures r.Some? ==> forall k :: i <= k < r.value.0 ==> m(s, k).None?
    ensures r.None? ==> forall k :: i <= k <= |s| ==> m(s, k).None?
    decreases |s| - i
  {
    match m(s, i)
    case Some(v) => Some((i, v))
    case None => if i == |s| then None else SearchFrom(s, i + 1, m)
  }

  /** re.search(pattern, s) */
  function Search<T>(s: string, m: (string, nat) -> Option<T>): Option<(nat, T)>
  {
    SearchFrom(s, 0, m)
  }

  // ---------------------------------------------------------------------
  // Chains of substitutions

  /** One `text = re.sub(pattern, replacement, text)` step. */
  datatype Rule = Rule(pattern: Matcher, replacement: string -> string)

  /** A replacement that ignores the matched text. */
  function Const(r: string): string -> string
  {
    _ => r
  }

  /** The substitutions applied one after another, in order. */
  function ApplyRules(s: string, rules: seq<Rule>): string
    decreases |rules|
  {
    if |rules| == 0 then s else ApplyRules(Sub(s, rules[0].pattern, rules[0].replacement), rules[1..])
  }

  /** The first substitution of a chain, then the rest of it. */
  lemma ApplyRulesHead(s: string, rules: seq<Rule>)
    requires |rules| > 0
    ensures ApplyRules(s, rules) == ApplyRules(Sub(s, rules[0].pattern, rules[0].replacement), rules[1..])
  {
  }

  /** No pattern of the chain matches anywhere in s. */
  ghost predicate NoRuleMatches(s: string, rules: seq<Rule>)
  {
    forall n, k :: 0 <= n < |rules| && 0 <= k < |s| ==> MatchAt(rules[n].pattern, s, k).None?
  }

  /** A text in which no pattern of the chain matches comes out of the chain unchanged. */
  lemma {:induction false} ApplyRulesNoMatch(s: string, rules: seq<Rule>)
    requires NoRuleMatches(s, rules)
    ensures ApplyRules(s, rules) == s
    decreases |rules|
  {
    if |rules| > 0 {
      SubNoMatch(s, rules[0].pattern, rules[0].replacement);
      forall n, k | 0 <= n < |rules[1..]| && 0 <= k < |s|
        ensures MatchAt(rules[1..][n].pattern, s, k).None?
      {
        assert rules[1..][n] == rules[n + 1];
      }
      ApplyRulesNoMatch(s, rules[1..]);
    }
  }

  /** Once a chain's first k steps have made two texts equal, the rest of the chain keeps them equal. */
  lemma {:induction false} ApplyRulesSplit(s: string, rules: seq<Rule>, k: nat)
    requires k <= |rules|
    ensures ApplyRules(s, rules) == ApplyRules(ApplyRules(s, rules[..k]), rules[k..])
    decreases k
  {
    if k > 0 {
      var s1 := Sub(s, rules[0].pattern, rules[0].replacement);
      ApplyRulesSplit(s1, rules[1..], k - 1);
      assert rules[1..][..k - 1] == rules[..k][1..];
      assert rules[1..][k - 1..] == rules[k..];
    } else {
      assert rules[..0] == [] && rules[0..] == rules;
    }
  }

}
