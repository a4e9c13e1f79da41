// What the error-message normalizers promise: a token that the chain replaces by a
// fixed placeholder does not influence the result, so messages that differ only in a
// UUID, an ISO timestamp or a standalone number fall into the same bucket; and a long
// hexadecimal word that is not 16 characters long is a [HEX-ID] only under classify_errors.
module NormalizerLaws {
  import opened Wrappers
  import opened Text
  import opened Rewrite
  import opened Normalizer

  // ---------------------------------------------------------------------
  // The surroundings of a token

  /** The text before a token is empty or ends with a character that is neither a word character nor in `extra`. */
  predicate ClearBefore(a: string, extra: string)
  {
    a == [] || (!IsWord(a[|a| - 1]) && a[|a| - 1] !in extra)
  }

  /** The text after a token is empty or starts with a character that is neither a word character nor in `extra`. */
  predicate ClearAfter(b: string, extra: string)
  {
    b == [] || (!IsWord(b[0]) && b[0] !in extra)
  }

  /** The positions of a + x + b. */
  lemma TokenIndex(a: string, x: string, b: string)
    ensures |a + x + b| == |a| + |x| + |b|
    ensures forall k :: 0 <= k < |a| ==> (a + x + b)[k] == a[k]
    ensures forall k :: 0 <= k < |x| ==> (a + x + b)[|a| + k] == x[k]
    ensures forall k :: 0 <= k < |b| ==> (a + x + b)[|a| + |x| + k] == b[k]
  {
  }

  // ---------------------------------------------------------------------
  // UUIDs: the first rule of both chains

  /** A UUID in the case-insensitive 8-4-4-4-12 hex form: each character fits its place in the shape. */
  predicate IsUuid(u: string)
  {
    |u| == 36 && forall j :: 0 <= j < 36 ==> FitsChar(u[j], UuidShape[j])
  }

  lemma UuidShapeChars()
    ensures |UuidShape| == 36
    ensures forall j :: 0 <= j < 36 ==> UuidShape[j] == '%' || UuidShape[j] == '-'
  {
  }

  /** Every character of a UUID is a hex digit or '-', the same kind at the same place in any two. */
  lemma UuidChars(u: string, v: string, j: nat)
    requires IsUuid(u) && IsUuid(v) && j < 36
    ensures u[j] == v[j] || (IsHex(u[j]) && IsHex(v[j]))
    ensures IsHex(u[j]) || u[j] == '-'
  {
    UuidShapeChars();
  }

  /** The two strings hold the same character, or two hex digits, at every position. */
  predicate HexAlike(s: string, t: string)
  {
    |s| == |t| && forall k :: 0 <= k < |s| ==> s[k] == t[k] || (IsHex(s[k]) && IsHex(t[k]))
  }

  /** A fixed-width pattern built of hex classes and non-hex literals cannot tell hex digits apart. */
  lemma FitsAlike(s: string, t: string, i: nat, shape: string)
    requires HexAlike(s, t)
    requires forall j :: 0 <= j < |shape| ==> shape[j] == '%' || (shape[j] != '#' && !IsHex(shape[j]))
    ensures FitsAt(s, i, shape) == FitsAt(t, i, shape)
  {
  }

  /** \b and the UUID pattern cannot tell hex digits apart either. */
  lemma UuidAtAlike(s: string, t: string, k: nat)
    requires HexAlike(s, t)
    ensures UuidAt(s, k) == UuidAt(t, k)
  {
    UuidShapeChars();
    FitsAlike(s, t, k, UuidShape);
  }

  lemma UuidTokenAlike(a: string, u: string, v: string, b: string)
    requires IsUuid(u) && IsUuid(v)
    ensures HexAlike(a + u + b, a + v + b)
  {
    TokenIndex(a, u, b);
    TokenIndex(a, v, b);
    var s, t := a + u + b, a + v + b;
    forall k | 0 <= k < |s|
      ensures s[k] == t[k] || (IsHex(s[k]) && IsHex(t[k]))
    {
      if |a| <= k < |a| + 36 {
        UuidChars(u, v, k - |a|);
      } else if k >= |a| + 36 {
        assert s[k] == b[k - |a| - 36] == t[k];
      }
    }
  }

  /** The UUID of a clear context is matched where it starts. */
  lemma UuidAtToken(a: string, u: string, b: string)
    requires IsUuid(u) && ClearBefore(a, "-") && ClearAfter(b, "")
    ensures UuidAt(a + u + b, |a|) == Some(|a| + 36)
  {
    TokenIndex(a, u, b);
    var s := a + u + b;
    UuidShapeChars();
    UuidChars(u, u, 0);
    UuidChars(u, u, 35);
  }

  /** A UUID match starting before a clear context ends there: it cannot cover the character before the token. */
  lemma UuidAtBefore(a: string, u: string, b: string, k: nat)
    requires ClearBefore(a, "-") && k < |a|
    ensures UuidAt(a + u + b, k).Some? ==> UuidAt(a + u + b, k).value <= |a|
  {
    var s := a + u + b;
    var c := s[|a| - 1];
    assert c == a[|a| - 1];
    UuidShapeChars();
    if k + 36 > |a| {
      var j := |a| - 1 - k;
      assert s[k + j] == c;
      assert !FitsChar(s[k + j], UuidShape[j]);
    }
  }

  lemma UuidMatchAlike(s: string, t: string)
    requires HexAlike(s, t)
    ensures forall k :: 0 <= k < |s| ==> MatchAt(UuidAt, s, k) == MatchAt(UuidAt, t, k)
  {
    forall k | 0 <= k < |s|
      ensures MatchAt(UuidAt, s, k) == MatchAt(UuidAt, t, k)
    {
      UuidAtAlike(s, t, k);
    }
  }

  /** re.sub of the UUID rule sees no difference between two UUIDs standing clear of their context. */
  lemma UuidSubAgree(a: string, u: string, v: string, b: string)
    requires IsUuid(u) && IsUuid(v) && ClearBefore(a, "-") && ClearAfter(b, "")
    ensures Sub(a + u + b, UuidAt, Const("[UUID]")) == Sub(a + v + b, UuidAt, Const("[UUID]"))
  {
    TokenIndex(a, u, b);
    TokenIndex(a, v, b);
    var s, t := a + u + b, a + v + b;
    var lo, hi := |a|, |a| + 36;
    UuidTokenAlike(a, u, v, b);
    UuidMatchAlike(s, t);
    UuidAtToken(a, u, b);
    forall k | 0 <= k < lo
      ensures MatchAt(UuidAt, s, k).Some? ==> MatchAt(UuidAt, s, k).value <= lo
    {
      UuidAtBefore(a, u, b, k);
    }
    forall k | hi <= k < |s|
      ensures s[k] == t[k]
    {
      assert s[k] == b[k - hi] == t[k];
    }
    SubSameMatches(s, t, lo, hi, UuidAt, Const("[UUID]"));
  }

  /**
   * Two messages that differ only in a UUID standing clear of its context (not glued to a
   * word character or a '-') normalize alike, in both versions of the normalizer.
   */
  lemma UuidInvariance(a: string, u: string, v: string, b: string)
    requires IsUuid(u) && IsUuid(v) && ClearBefore(a, "-") && ClearAfter(b, "")
    ensures NormalizeErrorMessage(a + u + b) == NormalizeErrorMessage(a + v + b)
    ensures LegacyNormalizeErrorMessage(a + u + b) == LegacyNormalizeErrorMessage(a + v + b)
  {
    UuidSubAgree(a, u, v, b);
    assert MessageRules[0] == Rule(UuidAt, Const("[UUID]"));
    assert LegacyMessageRules[0] == MessageRules[0];
  }

  // ---------------------------------------------------------------------
  // Word boundaries after a token that changes length

  /** Past a token that ends in a word character in both strings, \b sees the same thing, shifted by d. */
  lemma BoundaryShift(s: string, t: string, d: int, hi: nat, p: nat)
    requires 0 < hi <= p <= |s| && 0 < hi + d && |s| + d == |t|
    requires IsWord(s[hi - 1]) && IsWord(t[hi - 1 + d])
    requires forall k :: hi <= k < |s| ==> s[k] == t[k + d]
    ensures Boundary(s, p) == Boundary(t, p + d)
  {
    if p > hi {
      assert s[p - 1] == t[p - 1 + d];
    }
    if p < |s| {
      assert s[p] == t[p + d];
    }
  }

  // ---------------------------------------------------------------------
  // Numbers of three or more digits: the last rule of both chains

  /** A run of at least three decimal digits. */
  predicate IsNumber(x: string)
  {
    |x| >= 3 && forall j :: 0 <= j < |x| ==> IsDigit(x[j])
  }

  /** A digit run of three or more, between two \b positions, is matched whole. */
  lemma NumberAtRun(s: string, lo: nat, hi: nat)
    requires lo + 3 <= hi <= |s|
    requires forall j :: lo <= j < hi ==> IsDigit(s[j])
    requires lo == 0 || !IsWord(s[lo - 1])
    requires hi == |s| || !IsWord(s[hi])
    ensures MatchAt(NumberAt, s, lo) == Some(hi)
  {
    RunEndIs(s, lo, hi, IsDigit);
    assert IsDigit(s[lo]) && IsDigit(s[hi - 1]);
  }

  /** Where two strings agree up to a non-word character just before lo, a number match there is the same and ends before lo. */
  lemma NumberAtPrefix(s: string, t: string, lo: nat, k: nat)
    requires k < lo <= |s| && lo <= |t|
    requires forall j :: 0 <= j < lo ==> s[j] == t[j]
    requires !IsWord(s[lo - 1])
    ensures MatchAt(NumberAt, s, k) == MatchAt(NumberAt, t, k)
    ensures MatchAt(NumberAt, s, k).Some? ==> MatchAt(NumberAt, s, k).value <= lo
  {
    RunEndAgree(s, t, k, lo - 1, IsDigit);
    var e := RunEnd(s, k, IsDigit);
    if k > 0 {
      assert s[k - 1] == t[k - 1];
    }
    if e > 0 {
      assert s[e - 1] == t[e - 1];
    }
    assert s[k] == t[k] && s[e] == t[e];
  }

  /** Past a token ending in a word character in both strings, the number rule matches alike, shifted by d. */
  lemma NumberAtShift(s: string, t: string, d: int, hi: nat, k: nat)
    requires 0 < hi <= k < |s| && 0 < hi + d && |s| + d == |t|
    requires IsWord(s[hi - 1]) && IsWord(t[hi - 1 + d])
    requires forall j :: hi <= j < |s| ==> s[j] == t[j + d]
    ensures MatchAt(NumberAt, t, k + d).Some? <==> MatchAt(NumberAt, s, k).Some?
    ensures MatchAt(NumberAt, s, k).Some? ==> MatchAt(NumberAt, t, k + d).value == MatchAt(NumberAt, s, k).value + d
  {
    RunEndShift(s, t, d, k, IsDigit);
    BoundaryShift(s, t, d, hi, k);
    BoundaryShift(s, t, d, hi, RunEnd(s, k, IsDigit));
    assert s[k] == t[k + d];
  }

  /** Two strings that differ only in a digit run between lo and its end, which \b delimits in both, are rewritten alike. */
  lemma NumberSubShift(s: string, t: string, lo: nat, hi: nat, d: int)
    requires lo + 3 <= hi <= |s| && lo + 3 <= hi + d && |s| + d == |t|
    requires forall j :: lo <= j < hi ==> IsDigit(s[j])
    requires forall j :: lo <= j < hi + d ==> IsDigit(t[j])
    requires forall j :: 0 <= j < lo ==> s[j] == t[j]
    requires forall j :: hi <= j < |s| ==> s[j] == t[j + d]
    requires lo == 0 || !IsWord(s[lo - 1])
    requires hi == |s| || !IsWord(s[hi])
    ensures Sub(s, NumberAt, Const("[NUM]")) == Sub(t, NumberAt, Const("[NUM]"))
  {
    if hi < |s| {
      assert s[hi] == t[hi + d];
    }
    if lo > 0 {
      assert s[lo - 1] == t[lo - 1];
    }
    NumberAtRun(s, lo, hi);
    NumberAtRun(t, lo, hi + d);
    forall k | 0 <= k < lo
      ensures MatchAt(NumberAt, s, k) == MatchAt(NumberAt, t, k)
      ensures MatchAt(NumberAt, s, k).Some? ==> MatchAt(NumberAt, s, k).value <= lo
    {
      NumberAtPrefix(s, t, lo, k);
    }
    forall k | hi <= k < |s|
      ensures MatchAt(NumberAt, t, k + d).Some? <==> MatchAt(NumberAt, s, k).Some?
      ensures MatchAt(NumberAt, s, k).Some? ==> MatchAt(NumberAt, t, k + d).value == MatchAt(NumberAt, s, k).value + d
    {
      NumberAtShift(s, t, d, hi, k);
    }
    SubAtToken(s, t, lo, hi, d, NumberAt, Const("[NUM]"));
  }

  /** After the token, a + x + b and a + y + b agree up to the difference in length. */
  lemma SwapSuffix(a: string, x: string, y: string, b: string)
    ensures forall j :: |a| + |x| <= j < |a + x + b| ==> (a + x + b)[j] == (a + y + b)[j + (|y| - |x|)]
  {
    var s, t, d := a + x + b, a + y + b, |y| - |x|;
    forall j | |a| + |x| <= j < |s|
      ensures s[j] == t[j + d]
    {
      assert s[j] == b[j - |a| - |x|];
      assert t[j + d] == b[j - |a| - |x|];
    }
  }

  /** Where a + x + b and a + y + b agree, and what x and y hold. */
  lemma TokenSwap(a: string, x: string, y: string, b: string)
    ensures |a + y + b| == |a + x + b| + (|y| - |x|)
    ensures forall j :: 0 <= j < |a| ==> (a + x + b)[j] == (a + y + b)[j]
    ensures forall j :: |a| + |x| <= j < |a + x + b| ==> (a + x + b)[j] == (a + y + b)[j + (|y| - |x|)]
    ensures forall j :: |a| <= j < |a| + |x| ==> (a + x + b)[j] == x[j - |a|]
    ensures forall j :: |a| <= j < |a| + |y| ==> (a + y + b)[j] == y[j - |a|]
    ensures |a| > 0 ==> (a + x + b)[|a| - 1] == a[|a| - 1]
    ensures |b| > 0 ==> (a + x + b)[|a| + |x|] == b[0]
  {
    SwapSuffix(a, x, y, b);
  }

  /** re.sub of the number rule sees no difference between two numbers standing clear of their context. */
  lemma NumberSubAgree(a: string, x: string, y: string, b: string)
    requires IsNumber(x) && IsNumber(y) && ClearBefore(a, "") && ClearAfter(b, "")
    ensures Sub(a + x + b, NumberAt, Const("[NUM]")) == Sub(a + y + b, NumberAt, Const("[NUM]"))
  {
    TokenSwap(a, x, y, b);
    NumberSubShift(a + x + b, a + y + b, |a|, |a| + |x|, |y| - |x|);
  }

  /**
   * Two messages that differ only in a number of three or more digits standing clear of
   * its context, and in which no earlier rule of the chain matches, normalize alike.
   */
  lemma NumberInvariance(a: string, x: string, y: string, b: string)
    requires IsNumber(x) && IsNumber(y) && ClearBefore(a, "") && ClearAfter(b, "")
    requires NoRuleMatches(a + x + b, MessageRules[..10]) && NoRuleMatches(a + y + b, MessageRules[..10])
    ensures NormalizeErrorMessage(a + x + b) == NormalizeErrorMessage(a + y + b)
  {
    var s, t := a + x + b, a + y + b;
    NumberSubAgree(a, x, y, b);
    assert MessageRules[10..] == [Rule(NumberAt, Const("[NUM]"))];
    ApplyRulesSplit(s, MessageRules, 10);
    ApplyRulesNoMatch(s, MessageRules[..10]);
    ApplyRulesSplit(t, MessageRules, 10);
    ApplyRulesNoMatch(t, MessageRules[..10]);
  }

  /** The same for classify_errors' chain, whose number rule comes after the 12-or-more hex rule. */
  lemma LegacyNumberInvariance(a: string, x: string, y: string, b: string)
    requires IsNumber(x) && IsNumber(y) && ClearBefore(a, "") && ClearAfter(b, "")
    requires NoRuleMatches(a + x + b, LegacyMessageRules[..11]) && NoRuleMatches(a + y + b, LegacyMessageRules[..11])
    ensures LegacyNormalizeErrorMessage(a + x + b) == LegacyNormalizeErrorMessage(a + y + b)
  {
    var s, t := a + x + b, a + y + b;
    NumberSubAgree(a, x, y, b);
    assert LegacyMessageRules[11..] == [Rule(NumberAt, Const("[NUM]"))];
    ApplyRulesSplit(s, LegacyMessageRules, 11);
    ApplyRulesNoMatch(s, LegacyMessageRules[..11]);
    ApplyRulesSplit(t, LegacyMessageRules, 11);
    ApplyRulesNoMatch(t, LegacyMessageRules[..11]);
  }

  // ---------------------------------------------------------------------
  // ISO timestamps: the third rule (the fourth in classify_errors)

  /** yyyy-mm-ddThh:mm:ss, optionally a '.' and one or more digits, optionally a final 'Z'. */
  predicate IsIsoTimestamp(x: string)
  {
    |x| >= 19 && FitsAt(x, 0, DateTimeShape) &&
    var n := if x[|x| - 1] == 'Z' then |x| - 1 else |x|;
    n == 19 || (n >= 21 && x[19] == '.' && forall j :: 20 <= j < n ==> IsDigit(x[j]))
  }

  lemma DateTimeShapeChars()
    ensures |DateTimeShape| == 19
    ensures forall j :: 0 <= j < 19 ==> DateTimeShape[j] in "#-T:"
    ensures DateTimeShape[0] == '#' && DateTimeShape[18] == '#'
  {
  }

  /** The same fixed-width pattern at the same place, where two strings agree on its width. */
  lemma FitsAtSame(s: string, t: string, i: nat, d: int, shape: string)
    requires i + |shape| <= |s| && 0 <= i + d && i + d + |shape| <= |t|
    requires forall j :: i <= j < i + |shape| ==> s[j] == t[j + d]
    ensures FitsAt(s, i, shape) == FitsAt(t, i + d, shape)
  {
    forall j | 0 <= j < |shape|
      ensures FitsChar(s[i + j], shape[j]) == FitsChar(t[i + d + j], shape[j])
    {
      assert s[i + j] == t[(i + j) + d];
    }
  }

  /** A timestamp standing clear of what follows it is matched whole. */
  lemma TimestampAtRun(s: string, x: string, lo: nat)
    requires IsIsoTimestamp(x) && lo + |x| <= |s|
    requires forall j :: lo <= j < lo + |x| ==> s[j] == x[j - lo]
    requires lo + |x| == |s| || (!IsWord(s[lo + |x|]) && s[lo + |x|] != '.')
    ensures MatchAt(TimestampAt, s, lo) == Some(lo + |x|)
  {
    var hi := lo + |x|;
    var n := if x[|x| - 1] == 'Z' then |x| - 1 else |x|;
    var f := lo + 19;
    assert FitsAt(s, lo, DateTimeShape) by {
      DateTimeShapeChars();
      forall j | 0 <= j < 19 ensures FitsChar(s[lo + j], DateTimeShape[j]) {
        assert s[lo + j] == x[j];
        assert FitsChar(x[0 + j], DateTimeShape[j]);
      }
    }
    if n == 19 {
      if hi > f {
        assert s[f] == x[19] == 'Z';
      }
    } else {
      assert s[f] == x[19] && s[f + 1] == x[20];
      forall j | f + 1 <= j < lo + n ensures IsDigit(s[j]) {
        assert s[j] == x[j - lo];
      }
      if lo + n < |s| {
        assert s[lo + n] == 'Z' || lo + n == hi;
      }
      RunEndIs(s, f + 1, lo + n, IsDigit);
    }
  }

  /** A timestamp match cannot cover a character that fits no place of its date-time part. */
  lemma TimestampAtCovering(s: string, t: string, lo: nat, k: nat)
    requires k < lo <= |s| && lo <= |t| && lo < k + 19
    requires s[lo - 1] == t[lo - 1]
    requires !IsWord(s[lo - 1]) && s[lo - 1] !in "-:."
    ensures MatchAt(TimestampAt, s, k).None? && MatchAt(TimestampAt, t, k).None?
  {
    DateTimeShapeChars();
    var j := lo - 1 - k;
    assert s[k + j] == t[k + j];
    assert !FitsChar(s[k + j], DateTimeShape[j]);
  }

  /** A timestamp match whose date-time part lies before lo reads only the agreeing prefix, or a digit at lo. */
  lemma TimestampAtInside(s: string, t: string, lo: nat, k: nat)
    requires k + 19 <= lo < |s| && lo < |t|
    requires forall j :: 0 <= j < lo ==> s[j] == t[j]
    requires !IsWord(s[lo - 1]) && s[lo - 1] !in "-:."
    requires IsDigit(s[lo]) && IsDigit(t[lo])
    ensures MatchAt(TimestampAt, s, k) == MatchAt(TimestampAt, t, k)
    ensures MatchAt(TimestampAt, s, k).Some? ==> MatchAt(TimestampAt, s, k).value <= lo
  {
    FitsAtSame(s, t, k, 0, DateTimeShape);
    if FitsAt(s, k, DateTimeShape) {
      var f := k + 19;
      if f < lo && s[f] == '.' && IsDigit(s[f + 1]) {
        TimestampFractionInside(s, t, lo, k);
      } else {
        assert f < lo ==> s[f] == t[f];
        if f < lo && s[f] == '.' {
          assert s[f + 1] == t[f + 1];
        }
        var e := if f < lo && s[f] == 'Z' then f + 1 else f;
        assert TimestampAt(s, k) == Some(e) == TimestampAt(t, k);
      }
    }
  }

  /** The fraction case of TimestampAtInside: the digit run after the dot stops before lo. */
  lemma TimestampFractionInside(s: string, t: string, lo: nat, k: nat)
    requires k + 19 + 1 < lo < |s| && lo < |t|
    requires forall j :: 0 <= j < lo ==> s[j] == t[j]
    requires !IsDigit(s[lo - 1])
    requires FitsAt(s, k, DateTimeShape) && FitsAt(t, k, DateTimeShape)
    requires s[k + 19] == '.' && IsDigit(s[k + 19 + 1])
    ensures TimestampAt(s, k) == TimestampAt(t, k)
    ensures TimestampAt(s, k).Some? && TimestampAt(s, k).value <= lo
  {
    var f := k + 19;
    assert s[f] == t[f] && s[f + 1] == t[f + 1];
    RunEndAgree(s, t, f + 1, lo - 1, IsDigit);
    var g := RunEnd(s, f + 1, IsDigit);
    assert s[g] == t[g];
  }

  /** TimestampAt looks only forward: on two strings that agree from k on (shifted by d) it matches alike. */
  lemma TimestampAtShift(s: string, t: string, d: int, k: nat)
    requires k < |s| && 0 <= k + d && |s| + d == |t|
    requires forall j :: k <= j < |s| ==> s[j] == t[j + d]
    ensures MatchAt(TimestampAt, t, k + d).Some? <==> MatchAt(TimestampAt, s, k).Some?
    ensures MatchAt(TimestampAt, s, k).Some? ==> MatchAt(TimestampAt, t, k + d).value == MatchAt(TimestampAt, s, k).value + d
  {
    DateTimeShapeChars();
    if k + 19 <= |s| {
      FitsAtSame(s, t, k, d, DateTimeShape);
      if FitsAt(s, k, DateTimeShape) {
        var f := k + 19;
        if f + 1 < |s| && s[f] == '.' && IsDigit(s[f + 1]) {
          TimestampFractionShift(s, t, d, k);
        } else {
          if f < |s| {
            assert s[f] == t[f + d];
          }
          if f + 1 < |s| {
            assert s[f + 1] == t[f + 1 + d];
          }
        }
      }
    }
  }

  /** The fraction case of TimestampAtShift: the digit run after the dot moves with the text. */
  lemma TimestampFractionShift(s: string, t: string, d: int, k: nat)
    requires k + 19 + 1 < |s| && 0 <= k + d && |s| + d == |t|
    requires forall j :: k <= j < |s| ==> s[j] == t[j + d]
    requires FitsAt(s, k, DateTimeShape) && FitsAt(t, k + d, DateTimeShape)
    requires s[k + 19] == '.' && IsDigit(s[k + 19 + 1])
    ensures TimestampAt(t, k + d).Some? && TimestampAt(s, k).Some?
    ensures TimestampAt(t, k + d).value == TimestampAt(s, k).value + d
  {
    var f := k + 19;
    assert s[f] == t[f + d] && s[f + 1] == t[f + 1 + d];
    RunEndShift(s, t, d, f + 1, IsDigit);
    var g := RunEnd(s, f + 1, IsDigit);
    if g < |s| {
      assert s[g] == t[g + d];
    }
  }

  /** Two strings that differ only in a timestamp at lo, standing clear of its context, are rewritten alike. */
  lemma TimestampSubShift(s: string, t: string, lo: nat, hi: nat, d: int)
    requires lo < hi <= |s| && lo < hi + d && |s| + d == |t|
    requires MatchAt(TimestampAt, s, lo) == Some(hi) && MatchAt(TimestampAt, t, lo) == Some(hi + d)
    requires IsDigit(s[lo]) && IsDigit(t[lo])
    requires forall j :: 0 <= j < lo ==> s[j] == t[j]
    requires forall j :: hi <= j < |s| ==> s[j] == t[j + d]
    requires lo == 0 || (!IsWord(s[lo - 1]) && s[lo - 1] !in "-:.")
    ensures Sub(s, TimestampAt, Const("[TIMESTAMP]")) == Sub(t, TimestampAt, Const("[TIMESTAMP]"))
  {
    forall k | 0 <= k < lo
      ensures MatchAt(TimestampAt, s, k) == MatchAt(TimestampAt, t, k)
      ensures MatchAt(TimestampAt, s, k).Some? ==> MatchAt(TimestampAt, s, k).value <= lo
    {
      if lo < k + 19 {
        TimestampAtCovering(s, t, lo, k);
      } else {
        TimestampAtInside(s, t, lo, k);
      }
    }
    forall k | hi <= k < |s|
      ensures MatchAt(TimestampAt, t, k + d).Some? <==> MatchAt(TimestampAt, s, k).Some?
      ensures MatchAt(TimestampAt, s, k).Some? ==> MatchAt(TimestampAt, t, k + d).value == MatchAt(TimestampAt, s, k).value + d
    {
      TimestampAtShift(s, t, d, k);
    }
    SubAtToken(s, t, lo, hi, d, TimestampAt, Const("[TIMESTAMP]"));
  }

  /** re.sub of the timestamp rule sees no difference between two timestamps standing clear of their context. */
  lemma TimestampSubAgree(a: string, x: string, y: string, b: string)
    requires IsIsoTimestamp(x) && IsIsoTimestamp(y) && ClearBefore(a, "-:.") && ClearAfter(b, ".")
    ensures Sub(a + x + b, TimestampAt, Const("[TIMESTAMP]")) == Sub(a + y + b, TimestampAt, Const("[TIMESTAMP]"))
  {
    var s, t, lo := a + x + b, a + y + b, |a|;
    TokenSwap(a, x, y, b);
    if lo + |x| < |s| {
      assert s[lo + |x|] == b[0];
    }
    if lo + |y| < |t| {
      assert t[lo + |y|] == b[0];
    }
    TimestampAtRun(s, x, lo);
    TimestampAtRun(t, y, lo);
    DateTimeShapeChars();
    assert FitsChar(x[0 + 0], DateTimeShape[0]) && FitsChar(y[0 + 0], DateTimeShape[0]);
    TimestampSubShift(s, t, lo, lo + |x|, |y| - |x|);
  }

  /**
   * Two messages that differ only in an ISO timestamp standing clear of its context, and
   * in which neither a UUID nor a 16-hex id is matched, normalize alike.
   */
  lemma TimestampInvariance(a: string, x: string, y: string, b: string)
    requires IsIsoTimestamp(x) && IsIsoTimestamp(y) && ClearBefore(a, "-:.") && ClearAfter(b, ".")
    requires NoRuleMatches(a + x + b, MessageRules[..2]) && NoRuleMatches(a + y + b, MessageRules[..2])
    ensures NormalizeErrorMessage(a + x + b) == NormalizeErrorMessage(a + y + b)
  {
    var s, t := a + x + b, a + y + b;
    TimestampSubAgree(a, x, y, b);
    assert MessageRules[2..][0] == Rule(TimestampAt, Const("[TIMESTAMP]"));
    ApplyRulesSplit(s, MessageRules, 2);
    ApplyRulesNoMatch(s, MessageRules[..2]);
    ApplyRulesSplit(t, MessageRules, 2);
    ApplyRulesNoMatch(t, MessageRules[..2]);
  }

  /** The same for classify_errors' chain, where the 12-or-more hex rule also runs first. */
  lemma LegacyTimestampInvariance(a: string, x: string, y: string, b: string)
    requires IsIsoTimestamp(x) && IsIsoTimestamp(y) && ClearBefore(a, "-:.") && ClearAfter(b, ".")
    requires NoRuleMatches(a + x + b, LegacyMessageRules[..3]) && NoRuleMatches(a + y + b, LegacyMessageRules[..3])
    ensures LegacyNormalizeErrorMessage(a + x + b) == LegacyNormalizeErrorMessage(a + y + b)
  {
    var s, t := a + x + b, a + y + b;
    TimestampSubAgree(a, x, y, b);
    assert LegacyMessageRules[3..][0] == Rule(TimestampAt, Const("[TIMESTAMP]"));
    ApplyRulesSplit(s, LegacyMessageRules, 3);
    ApplyRulesNoMatch(s, LegacyMessageRules[..3]);
    ApplyRulesSplit(t, LegacyMessageRules, 3);
    ApplyRulesNoMatch(t, LegacyMessageRules[..3]);
  }

  // ---------------------------------------------------------------------
  // Long hexadecimal words

  /**
   * A whole word of 12 or more lower-case hex digits: the 12-or-more rule that only
   * classify_errors has matches all of it, the 16-hex rule of both chains only when it is
   * exactly 16 long, and the number rule only when it is all decimal digits.
   */
  lemma HexWordMatchers(s: string, lo: nat, hi: nat)
    requires lo + 12 <= hi <= |s|
    requires forall j :: lo <= j < hi ==> IsHexLower(s[j])
    requires lo == 0 || !IsWord(s[lo - 1])
    requires hi == |s| || !IsWord(s[hi])
    ensures MatchAt(LongHexAt, s, lo) == Some(hi)
    ensures MatchAt(HexIdAt, s, lo) == (if hi == lo + 16 then Some(hi) else None)
    ensures MatchAt(NumberAt, s, lo).Some? <==> forall j :: lo <= j < hi ==> IsDigit(s[j])
  {
    HexWordHexMatchers(s, lo, hi);
    HexWordNumber(s, lo, hi);
  }

  /** The two hexadecimal matchers on a word of lower-case hexadecimal digits. */
  lemma HexWordHexMatchers(s: string, lo: nat, hi: nat)
    requires lo + 12 <= hi <= |s|
    requires forall j :: lo <= j < hi ==> IsHexLower(s[j])
    requires lo == 0 || !IsWord(s[lo - 1])
    requires hi == |s| || !IsWord(s[hi])
    ensures MatchAt(LongHexAt, s, lo) == Some(hi)
    ensures MatchAt(HexIdAt, s, lo) == (if hi == lo + 16 then Some(hi) else None)
  {
    RunEndIs(s, lo, hi, IsHexLower);
    assert IsWord(s[lo]) && IsWord(s[hi - 1]);
    if hi > lo + 16 {
      assert IsWord(s[lo + 15]) && IsWord(s[lo + 16]);
    }
  }

  /** The number matcher on a word of lower-case hexadecimal digits fires only when all are decimal. */
  lemma HexWordNumber(s: string, lo: nat, hi: nat)
    requires lo + 12 <= hi <= |s|
    requires forall j :: lo <= j < hi ==> IsHexLower(s[j])
    requires lo == 0 || !IsWord(s[lo - 1])
    requires hi == |s| || !IsWord(s[hi])
    ensures MatchAt(NumberAt, s, lo).Some? <==> forall j :: lo <= j < hi ==> IsDigit(s[j])
  {
    if forall j :: lo <= j < hi ==> IsDigit(s[j]) {
      NumberAtRun(s, lo, hi);
    } else {
      var e := RunEnd(s, lo, IsDigit);
      assert e < hi;
      assert IsWord(s[lo]);
      if e >= lo + 3 {
        assert IsWord(s[e - 1]) && IsWord(s[e]);
      }
    }
  }
}
