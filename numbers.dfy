// Conversions between integers and decimal text as Python performs them:
// `str(n)` for an int and `int(s)` for a string (base 10).
module Numbers {
  import opened Wrappers
  import opened Text

  function DigitValue(c: char): (d: nat)
    requires IsDigit(c)
    ensures d < 10
  {
    c as int - '0' as int
  }

  function DigitChar(d: nat): (c: char)
    requires d < 10
    ensures IsDigit(c) && DigitValue(c) == d
  {
    ('0' as int + d) as char
  }

  /** The decimal digits of n, without leading zeros ("0" for zero). */
  function NatDigits(n: nat): (r: string)
    ensures |r| > 0 && (|r| > 1 ==> r[0] != '0')
    ensures forall k :: 0 <= k < |r| ==> IsDigit(r[k])
    decreases n
  {
    if n < 10 then [DigitChar(n)] else NatDigits(n / 10) + [DigitChar(n % 10)]
  }

  /** `str(n)` */
  function IntToString(n: int): (r: string)
    ensures |r| > 0 && !IsSpace(r[0]) && !IsSpace(r[|r| - 1])
  {
    if n < 0 then "-" + NatDigits(-n) else NatDigits(n)
  }

  predicate DigitOrUnderscore(c: char) { IsDigit(c) || c == '_' }

  /** The number written by a run of digits, the underscores between them being ignored. */
  function DigitsValue(s: string): nat
    requires forall k :: 0 <= k < |s| ==> DigitOrUnderscore(s[k])
  {
    if s == [] then 0
    else
      assert DigitOrUnderscore(s[|s| - 1]);
      var init := DigitsValue(s[..|s| - 1]);
      if s[|s| - 1] == '_' then init else init * 10 + DigitValue(s[|s| - 1])
  }

  /**
   * What `int()` accepts after the sign: digits, where a single underscore may
   * stand between two digits.
   */
  predicate DecimalBody(s: string)
  {
    && |s| > 0 && IsDigit(s[0]) && IsDigit(s[|s| - 1])
    && forall k :: 0 <= k < |s| ==> DigitOrUnderscore(s[k]) && (s[k] == '_' ==> k + 1 < |s| && IsDigit(s[k + 1]))
  }

  /**
   * `int(s)`: surrounding whitespace is ignored, an optional sign precedes the
   * digits, and anything else raises ValueError (here None).
   */
  function ParseInt(s: string): (r: Option<int>)
    ensures r.Some? ==> exists k :: 0 <= k < |s| && IsDigit(s[k])
  {
    StripShape(s);
    var r := ParseSigned(Strip(s));
    if r.Some? then
      assert Strip(s)[0] == s[|s| - |LStrip(s)|];
      assert Strip(s)[|Strip(s)| - 1] == s[|s| - |LStrip(s)| + |Strip(s)| - 1];
      r
    else r
  }

  /** The part of `int()` after the whitespace is stripped: an optional sign and a digit body. */
  function ParseSigned(t: string): (r: Option<int>)
    ensures r.Some? ==> |t| > 0 && IsDigit(t[|t| - 1])
  {
    if |t| > 0 && (t[0] == '+' || t[0] == '-') then
      var body := t[1..];
      if DecimalBody(body) then
        assert t[|t| - 1] == body[|body| - 1];
        Some(if t[0] == '-' then -(DigitsValue(body) as int) else DigitsValue(body))
      else None
    else if DecimalBody(t) then Some(DigitsValue(t))
    else None
  }

  lemma {:induction false} NatDigitsValue(n: nat)
    ensures DecimalBody(NatDigits(n))
    ensures DigitsValue(NatDigits(n)) == n
    decreases n
  {
    var r := NatDigits(n);
    if n >= 10 {
      NatDigitsValue(n / 10);
      assert r[..|r| - 1] == NatDigits(n / 10);
    }
  }

  lemma StripNoEdgeSpace(s: string)
    requires |s| > 0 && !IsSpace(s[0]) && !IsSpace(s[|s| - 1])
    ensures Strip(s) == s
  {
  }

  /** Text without whitespace at its ends is parsed as it stands. */
  lemma ParseIntUnstripped(s: string)
    requires |s| > 0 && !IsSpace(s[0]) && !IsSpace(s[|s| - 1])
    ensures ParseInt(s) == ParseSigned(s)
  {
    StripNoEdgeSpace(s);
  }

  /** Text without surrounding whitespace or sign that is a digit body parses to its value. */
  lemma ParseIntOfBody(s: string)
    requires DecimalBody(s)
    ensures ParseInt(s) == Some(DigitsValue(s))
  {
    StripNoEdgeSpace(s);
  }

  /** A minus sign followed by a digit body parses to the negated value. */
  lemma ParseIntOfNegated(d: string)
    requires DecimalBody(d)
    ensures ParseSigned("-" + d) == Some(-(DigitsValue(d) as int))
  {
    assert ("-" + d)[1..] == d;
  }

  lemma NegatedDigits(m: nat)
    requires m > 0
    ensures ParseSigned("-" + NatDigits(m)) == Some(-(m as int))
  {
    NatDigitsValue(m);
    ParseIntOfNegated(NatDigits(m));
  }

  /** `int(str(n)) == n` */
  lemma ParseIntToString(n: int)
    ensures ParseInt(IntToString(n)) == Some(n)
  {
    if n < 0 {
      ParseIntToStringNegative(n);
    } else {
      ParseIntToStringNatural(n);
    }
  }

  lemma ParseIntToStringNatural(n: nat)
    ensures ParseInt(IntToString(n)) == Some(n)
  {
    NatDigitsValue(n);
    ParseIntOfBody(NatDigits(n));
  }

  lemma ParseIntToStringNegative(n: int)
    requires n < 0
    ensures ParseInt(IntToString(n)) == Some(n)
  {
    ParseIntUnstripped(IntToString(n));
    NegatedDigits(-n);
  }

  /** An underscore between two runs of digits does not change the value they write. */
  lemma {:induction false} DigitsValueUnderscore(a: string, b: string)
    requires forall k :: 0 <= k < |a| ==> DigitOrUnderscore(a[k])
    requires forall k :: 0 <= k < |b| ==> DigitOrUnderscore(b[k])
    ensures DigitsValue(a + "_" + b) == DigitsValue(a + b)
    decreases |b|
  {
    if b == [] {
      assert (a + "_" + b)[..|a|] == a;
      assert a + b == a;
    } else {
      var b' := b[..|b| - 1];
      DigitsValueUnderscore(a, b');
      assert (a + "_" + b)[..|a + "_" + b| - 1] == a + "_" + b';
      assert (a + b)[..|a + b| - 1] == a + b';
    }
  }

  /** A single underscore between two digit bodies is accepted and ignored: int("1_000") == int("1000"). */
  lemma ParseIntUnderscored(a: string, b: string)
    requires DecimalBody(a) && DecimalBody(b)
    ensures ParseInt(a + "_" + b) == ParseInt(a + b) == Some(DigitsValue(a + b))
  {
    var s := a + "_" + b;
    forall k | 0 <= k < |s|
      ensures DigitOrUnderscore(s[k]) && (s[k] == '_' ==> k + 1 < |s| && IsDigit(s[k + 1]))
    {
      if k < |a| {
        assert s[k] == a[k];
        if k + 1 < |a| { assert s[k + 1] == a[k + 1]; }
      } else if k > |a| {
        assert s[k] == b[k - |a| - 1];
        if k + 1 < |s| { assert s[k + 1] == b[k - |a|]; }
      } else {
        assert s[k + 1] == b[0];
      }
    }
    assert s[|s| - 1] == b[|b| - 1];
    var t := a + b;
    forall k | 0 <= k < |t|
      ensures DigitOrUnderscore(t[k]) && (t[k] == '_' ==> k + 1 < |t| && IsDigit(t[k + 1]))
    {
      if k < |a| {
        assert t[k] == a[k];
        if k + 1 < |a| { assert t[k + 1] == a[k + 1]; } else if k + 1 < |t| { assert t[k + 1] == b[0]; }
      } else {
        assert t[k] == b[k - |a|];
        if k + 1 < |t| { assert t[k + 1] == b[k - |a| + 1]; }
      }
    }
    assert t[|t| - 1] == b[|b| - 1];
    DigitsValueUnderscore(a, b);
    ParseIntOfBody(s);
    ParseIntOfBody(t);
  }

  /** Text with no whitespace at its ends, no sign and no valid digit body is rejected. */
  lemma ParseIntNoBody(s: string)
    requires |s| > 0 && !IsSpace(s[0]) && !IsSpace(s[|s| - 1])
    requires s[0] != '+' && s[0] != '-' && !DecimalBody(s)
    ensures ParseInt(s) == None
  {
    StripNoEdgeSpace(s);
  }

  /** Two underscores in a row make int() fail, wherever they stand. */
  lemma ParseIntRejectsDoubleUnderscore(s: string, k: nat)
    requires |s| > 0 && !IsSpace(s[0]) && !IsSpace(s[|s| - 1]) && s[0] != '+' && s[0] != '-'
    requires k + 1 < |s| && s[k] == '_' && s[k + 1] == '_'
    ensures ParseInt(s) == None
  {
    ParseIntNoBody(s);
  }

  /** A letter anywhere makes int() fail. */
  lemma ParseIntRejectsLetter(s: string, k: nat)
    requires |s| > 0 && !IsSpace(s[0]) && !IsSpace(s[|s| - 1]) && s[0] != '+' && s[0] != '-'
    requires k < |s| && IsAlpha(s[k])
    ensures ParseInt(s) == None
  {
    ParseIntNoBody(s);
  }
}
