// The older anonymizer, anonymizer.py at the top of the repository: `anonymize_log_message`
// as eight substitutions without any tenant redaction. Seven of its patterns are those of
// the newer anonymizer; the e-mail pattern differs in its top-level-domain class
// [A-Z|a-z], which also accepts '|'.
module LegacyAnonymizer {
  import opened Wrappers
  import opened Text
  import opened Rewrite
  import opened Anonymizer
  import AnonymizerLaws

  /** [A-Z|a-z] : inside a class '|' is a literal character, not an alternation. */
  predicate IsLegacyTldChar(c: char) { IsAlpha(c) || c == '|' }

  /** The largest j in [lo, hi] at which \b holds, as a backtracking greedy run gives back characters. */
  function LastBoundary(s: string, lo: nat, hi: nat): (r: Option<nat>)
    ensures r.Some? ==> lo <= r.value <= hi && Boundary(s, r.value)
    ensures r.Some? ==> forall j :: r.value < j <= hi ==> !Boundary(s, j)
    ensures r.None? ==> forall j :: lo <= j <= hi ==> !Boundary(s, j)
    decreases hi
  {
    if hi < lo then None
    else if Boundary(s, hi) then Some(hi)
    else if hi == 0 then None
    else LastBoundary(s, lo, hi - 1)
  }

  /**
   * [A-Z|a-z]{2,}\b after the dot at x: the run of the class is given back one character
   * at a time until a \b holds. As '|' is not a word character, \b can hold inside the run.
   */
  function LegacyTldAt(s: string, x: nat): Option<nat>
  {
    if x < |s| then
      var y := RunEnd(s, x + 1, IsLegacyTldChar);
      if y >= x + 3 then LastBoundary(s, x + 3, y) else None
    else None
  }

  /** \b[A-Za-z0-9._%+-]+@[A-Za-z0-9.-]+\.[A-Z|a-z]{2,}\b */
  function LegacyEmailAt(s: string, i: nat): Option<nat> { EmailShapeAt(s, i, LegacyTldAt) }

  /** The substitutions of the older `anonymize_log_message`, in program order. */
  const LegacyRules: seq<Rule> := [
    Rule(LegacyEmailAt, Const("[EMAIL_REDACTED]")),
    Rule(UserNameQuotedAt, Const("userName='[USER_NAME_REDACTED]'")),
    Rule(UserNameJsonAt, Const("\"userName\":\"[USER_NAME_REDACTED]\"")),
    Rule(FullNameAt, Const("[NAME_REDACTED]")),
    Rule(StatusUpdaterAt, Const("statusUpdaterName='[NAME_REDACTED]'")),
    Rule(UserCommentAt, Const("userComment='[COMMENT_REDACTED]'")),
    Rule(UserBracketAt, Const("[user:[USER_REDACTED]]")),
    Rule(PhoneAt, Const("[PHONE_REDACTED]"))
  ]

  /** `anonymize_log_message` of anonymizer.py */
  function LegacyAnonymizeLogMessage(message: string): (r: string)
    ensures IsBlank(message) ==> r == message
  {
    if IsBlank(message) then message else ApplyRules(message, LegacyRules)
  }

  /**
   * An address whose top-level domain holds a '|' is one address for the older pattern, as
   * [A-Z|a-z] lets the bar in; the newer pattern, whose class is [A-Za-z], never takes it whole.
   */
  lemma LegacyEmailAcceptsBar(s: string, a: nat, x: nat, b: nat)
    requires 0 < a && a + 1 < x && x + 3 <= |s| && s[a] == '@' && s[x] == '.'
    requires (forall j :: 0 <= j < a ==> IsLocalChar(s[j])) && (forall j :: a < j < x ==> IsDomainChar(s[j]))
    requires (forall j :: x < j < |s| ==> IsLegacyTldChar(s[j])) && IsAlpha(s[|s| - 1]) && Boundary(s, 0)
    requires x < b < |s| && s[b] == '|'
    ensures LegacyEmailAt(s, 0) == Some(|s|)
    ensures EmailAt(s, 0) != Some(|s|)
  {
    RunEndIs(s, x + 1, |s|, IsLegacyTldChar);
    assert Boundary(s, |s|);
    assert LegacyTldAt(s, x) == Some(|s|);
    RunEndIs(s, 0, a, IsLocalChar);
    var d := RunEnd(s, a + 1, IsDomainChar);
    assert IsDomainChar(s[x]);
    AnonymizerLaws.EmailFromFinds(s, a, d, x, LegacyTldAt);
    BarStopsNewerEmail(s, b);
  }

  /** The newer pattern's match never runs over a '|'. */
  lemma BarStopsNewerEmail(s: string, b: nat)
    requires b < |s| && s[b] == '|'
    ensures EmailAt(s, 0) != Some(|s|)
  {
    if EmailAt(s, 0) == Some(|s|) {
      EmailShape(s, 0);
    }
  }

  /** An e-mail address that is the whole message becomes [EMAIL_REDACTED] in the older pipeline too. */
  lemma LegacyAnonymizeAddress(s: string, a: nat, x: nat)
    requires EmailSpan(s, 0, a, x, |s|)
    ensures LegacyAnonymizeLogMessage(s) == "[EMAIL_REDACTED]"
  {
    var p := "[EMAIL_REDACTED]";
    assert !IsSpace(s[0]);
    LegacyAddressEmailRule(s, a, x);
    ApplyRulesHead(s, LegacyRules);
    assert LegacyRules[1..] == PiiRules[1..];
    AnonymizerLaws.EmailPlaceholderInert();
    AnonymizerLaws.PiiFreeUnchanged(p);
  }

  /** The older e-mail rule turns a lone address into [EMAIL_REDACTED]. */
  lemma LegacyAddressEmailRule(s: string, a: nat, x: nat)
    requires EmailSpan(s, 0, a, x, |s|)
    ensures Sub(s, LegacyRules[0].pattern, LegacyRules[0].replacement) == "[EMAIL_REDACTED]"
  {
    RunEndIs(s, x + 1, |s|, IsLegacyTldChar);
    assert LegacyTldAt(s, x) == Some(|s|);
    AnonymizerLaws.EmailShapeMatched(s, 0, a, x, |s|, LegacyTldAt);
    ScanMatch(s, 0, |s|, LegacyEmailAt, Const("[EMAIL_REDACTED]"));
    assert ScanFrom(s, |s|, LegacyEmailAt, Const("[EMAIL_REDACTED]")) == "";
  }

  /** Characters every one of the eight patterns needs somewhere in its match. */
  predicate PlainChar(c: char)
  {
    c != '@' && c != '\'' && c != '"' && c != '[' && !IsSpace(c) && !IsDigit(c)
  }

  lemma {:induction false} PlainNoLegacyMatch(s: string, n: nat, k: nat)
    requires forall j :: 0 <= j < |s| ==> PlainChar(s[j])
    requires n < |LegacyRules|
    ensures MatchAt(LegacyRules[n].pattern, s, k).None?
  {
    if n == 0 { AnonymizerLaws.EmailNeedsAt(s, k, LegacyTldAt); }
    else if n == 1 { AnonymizerLaws.QuotedFieldNeedsQuote("userName", s, k); }
    else if n == 2 { AnonymizerLaws.UserNameJsonNeedsQuote(s, k); }
    else if n == 4 { AnonymizerLaws.QuotedFieldNeedsQuote("statusUpdaterName", s, k); }
    else if n == 5 { AnonymizerLaws.QuotedFieldNeedsQuote("userComment", s, k); }
    else if n == 7 { AnonymizerLaws.PhoneNeedsDigit(s, k); }
  }

  /**
   * The older pipeline has no tenant rules: a text without '@', quotes, '[', whitespace
   * or digits, such as "tenantId=acme", comes out unchanged.
   */
  lemma LegacyPlainUnchanged(s: string)
    requires forall k :: 0 <= k < |s| ==> PlainChar(s[k])
    ensures LegacyAnonymizeLogMessage(s) == s
  {
    if !IsBlank(s) {
      forall n, k | 0 <= n < |LegacyRules| && 0 <= k < |s|
        ensures MatchAt(LegacyRules[n].pattern, s, k).None?
      {
        PlainNoLegacyMatch(s, n, k);
      }
      ApplyRulesNoMatch(s, LegacyRules);
    }
  }

  /** A text none of the eight patterns matches comes out unchanged. */
  lemma LegacyNoMatch(s: string)
    requires NoRuleMatches(s, LegacyRules)
    ensures LegacyAnonymizeLogMessage(s) == s
  {
    ApplyRulesNoMatch(s, LegacyRules);
  }
}
