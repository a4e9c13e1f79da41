// The PII anonymizer of src/prod_monitoring/anonymizer.py: `anonymize_log_message` and
// `_redact_tenant_like_values` with their compiled patterns. Every pattern is a matcher
// for the scan of module Rewrite; the backtracking of each regex is worked out in the
// comment above it. re.IGNORECASE is ASCII case folding.
module Anonymizer {
  import opened Wrappers
  import opened Text
  import opened Rewrite

  /** The lower-case literal `lit` occurs at i under re.IGNORECASE. */
  predicate CiAt(s: string, i: nat, lit: string)
  {
    i + |lit| <= |s| && Lower(s[i..i + |lit|]) == lit
  }

  // ---------------------------------------------------------------------
  // Character classes

  /** [A-Za-z0-9._%+-] */
  predicate IsLocalChar(c: char) { IsAlnum(c) || c == '.' || c == '_' || c == '%' || c == '+' || c == '-' }
  /** [A-Za-z0-9.-] */
  predicate IsDomainChar(c: char) { IsAlnum(c) || c == '.' || c == '-' }
  predicate NotSingleQuote(c: char) { c != '\'' }
  predicate NotDoubleQuote(c: char) { c != '"' }
  /** [-.\s] */
  predicate IsPhoneSep(c: char) { c == '-' || c == '.' || IsSpace(c) }
  /** [\s,\'\"] */
  predicate IsNameFollower(c: char) { IsSpace(c) || c == ',' || c == '\'' || c == '"' }
  /** [A-Za-z0-9._-] */
  predicate IsIdChar(c: char) { IsAlnum(c) || c == '.' || c == '_' || c == '-' }
  /** [^,\s\]}] */
  predicate IsKvValueChar(c: char) { c != ',' && !IsSpace(c) && c != ']' && c != '}' }
  /** [^/?\s] */
  predicate IsPathChar(c: char) { c != '/' && c != '?' && !IsSpace(c) }
  /** [^&\s] */
  predicate IsQueryChar(c: char) { c != '&' && !IsSpace(c) }
  predicate NotEquals(c: char) { c != '=' }

  // ---------------------------------------------------------------------
  // E-mail: \b[A-Za-z0-9._%+-]+@[A-Za-z0-9.-]+\.[A-Za-z]{2,}\b

  /**
   * The top-level domain after the dot at x: [A-Za-z]{2,}\b. A shorter run of letters
   * would end between two letters, where \b fails, so only the whole run can match.
   */
  function TldEnd(s: string, x: nat): Option<nat>
    requires x < |s|
  {
    var y := RunEnd(s, x + 1, IsAlpha);
    if y >= x + 3 && Boundary(s, y) then Some(y) else None
  }

  /**
   * The domain part [A-Za-z0-9.-]+ gives back characters one at a time, from its greedy
   * end down to one character after the '@' at a; the first dot that leaves a
   * top-level domain behind it wins.
   */
  function EmailFrom(s: string, a: nat, hi: nat, tld: (string, nat) -> Option<nat>): Option<nat>
    requires hi <= |s|
    decreases hi
  {
    if hi <= a + 2 then None
    else
      var x := hi - 1;
      if s[x] == '.' && tld(s, x).Some? then tld(s, x) else EmailFrom(s, a, x, tld)
  }

  /**
   * The local part is the maximal run of its class ('@' is outside it) and must be
   * followed by '@'; the domain part starts right after.
   */
  function EmailShapeAt(s: string, i: nat, tld: (string, nat) -> Option<nat>): Option<nat>
  {
    if i < |s| && Boundary(s, i) then
      var a := RunEnd(s, i, IsLocalChar);
      if i < a < |s| && s[a] == '@' then EmailFrom(s, a, RunEnd(s, a + 1, IsDomainChar), tld)
      else None
    else None
  }

  function TldAt(s: string, x: nat): Option<nat>
  {
    if x < |s| then TldEnd(s, x) else None
  }

  function EmailAt(s: string, i: nat): Option<nat> { EmailShapeAt(s, i, TldAt) }

  // ---------------------------------------------------------------------
  // key='value' fields: userName='([^']+)', statusUpdaterName=..., userComment=...

  /** key='([^']+)' : the key, =', a non-empty run without quotes, and the closing quote. */
  function QuotedFieldAt(key: string, s: string, i: nat): Option<nat>
  {
    if OccursAt(s, i, key + "='") then
      var a := i + |key| + 2;
      var e := RunEnd(s, a, NotSingleQuote);
      if a < e < |s| then Some(e + 1) else None
    else None
  }

  function UserNameQuotedAt(s: string, i: nat): Option<nat> { QuotedFieldAt("userName", s, i) }
  function StatusUpdaterAt(s: string, i: nat): Option<nat> { QuotedFieldAt("statusUpdaterName", s, i) }
  function UserCommentAt(s: string, i: nat): Option<nat> { QuotedFieldAt("userComment", s, i) }

  /**
   * "userName"\s*:\s*"([^"]+)" : both \s* are greedy, and giving back a space would put
   * the ':' or the '"' on a space, so the match is determined.
   */
  function UserNameJsonAt(s: string, i: nat): Option<nat>
  {
    if OccursAt(s, i, "\"userName\"") then
      var a := RunEnd(s, i + 10, IsSpace);
      if a < |s| && s[a] == ':' then
        var b := RunEnd(s, a + 1, IsSpace);
        if b < |s| && s[b] == '"' then
          var e := RunEnd(s, b + 1, NotDoubleQuote);
          if b + 1 < e < |s| then Some(e + 1) else None
        else None
      else None
    else None
  }

  // ---------------------------------------------------------------------
  // Names: \b([A-Z][a-z]+\s+[A-Z][a-z]+)\b(?=[\s,\'\"])

  /**
   * Each run is maximal: a shorter [a-z]+ would leave a lower-case letter where \s+ or
   * \b is needed. After the second word the next character must be whitespace, a comma
   * or a quote (which also makes the \b hold).
   */
  function FullNameAt(s: string, i: nat): Option<nat>
  {
    if i < |s| && Boundary(s, i) && IsUpper(s[i]) then
      var a := RunEnd(s, i + 1, IsLower);
      var b := RunEnd(s, a, IsSpace);
      if a > i + 1 && b > a && b < |s| && IsUpper(s[b]) then
        var c := RunEnd(s, b + 1, IsLower);
        if c > b + 1 && c < |s| && IsNameFollower(s[c]) then Some(c) else None
      else None
    else None
  }

  // ---------------------------------------------------------------------
  // [user: v]: \[user:\s*([^]]+)] under IGNORECASE

  /**
   * Spaces are not ']' either, so \s*([^]]+) together take the maximal run without ']'
   * after the colon, which must be non-empty and be followed by ']'.
   */
  function UserBracketAt(s: string, i: nat): Option<nat>
  {
    if i < |s| && s[i] == '[' && CiAt(s, i + 1, "user:") then
      var e := RunEnd(s, i + 6, NotCloseBracket);
      if i + 6 < e < |s| then Some(e + 1) else None
    else None
  }

  // ---------------------------------------------------------------------
  // Phone numbers: \b\d{3}[-.\s]?\d{3}[-.\s]?\d{4}\b

  /** Three digits at i, then an optional separator: the position after them. */
  function DigitsThenSep(s: string, i: nat, n: nat): Option<nat>
  {
    if i + n <= |s| && RunEnd(s, i, IsDigit) >= i + n then
      if i + n < |s| && IsPhoneSep(s[i + n]) then Some(i + n + 1) else Some(i + n)
    else None
  }

  /**
   * A separator is never a digit, so each optional separator is taken exactly when one is
   * present; the final \b needs the four digits not to continue a word.
   */
  function PhoneAt(s: string, i: nat): Option<nat>
  {
    if i < |s| && Boundary(s, i) then
      match DigitsThenSep(s, i, 3)
      case None => None
      case Some(a) =>
        match DigitsThenSep(s, a, 3)
        case None => None
        case Some(b) =>
          if b + 4 <= |s| && RunEnd(s, b, IsDigit) >= b + 4 && Boundary(s, b + 4) then Some(b + 4) else None
    else None
  }

  // ---------------------------------------------------------------------
  // Tenant patterns

  /**
   * \[[A-Za-z0-9][A-Za-z0-9._-]*\d{3,}] : ']' is outside the class, so the closing bracket
   * follows the maximal run, whose last three characters are the digits.
   */
  function BracketedIdAt(s: string, i: nat): Option<nat>
  {
    if i + 1 < |s| && s[i] == '[' && IsAlnum(s[i + 1]) then
      var e := RunEnd(s, i + 2, IsIdChar);
      if e < |s| && s[e] == ']' && e >= i + 5 && IsDigit(s[e - 3]) && IsDigit(s[e - 2]) && IsDigit(s[e - 1])
      then Some(e + 1)
      else None
    else None
  }

  const BracketedKeys: seq<string> := ["tenant", "customer", "org", "organization", "account"]

  /** The alternatives of the key group, tried in order, each followed by [:=]\s*[^]]+] . */
  function BracketedKvFrom(s: string, i: nat, keys: seq<string>): Option<nat>
    decreases |keys|
  {
    if |keys| == 0 then None
    else
      var k := i + 1 + |keys[0]|;
      if CiAt(s, i + 1, keys[0]) && k < |s| && (s[k] == ':' || s[k] == '=') then
        var e := RunEnd(s, k + 1, NotCloseBracket);
        if k + 1 < e < |s| then Some(e + 1) else BracketedKvFrom(s, i, keys[1..])
      else BracketedKvFrom(s, i, keys[1..])
  }

  /** \[(tenant|customer|org|organization|account)[:=]\s*[^]]+] under IGNORECASE */
  function BracketedKvAt(s: string, i: nat): Option<nat>
  {
    if i < |s| && s[i] == '[' then BracketedKvFrom(s, i, BracketedKeys) else None
  }

  const TenantKeys: seq<string> := ["tenantid", "tenantid", "tenant", "tenantname", "customer", "customername",
                                    "organization", "organizationname", "org", "account", "accountname"]

  /**
   * \s*[:=]\s*(?:'[^']+'|"[^"]+"|[^,\s\]}]+) after the key, ending at k. Giving back a
   * space of either \s* would put [:=] or the value on a space, so only the three value
   * alternatives are tried, in order, at the end of the second \s*. With `skip` the
   * value may not start with the placeholder [TENANT_REDACTED], as a negative lookahead
   * (?!\[TENANT_REDACTED\]) in front of the value group would say.
   */
  function KvValueAt(s: string, k: nat, skip: bool): (r: Option<nat>)
    ensures r.Some? ==> k < r.value <= |s|
  {
    if k <= |s| then
      var a := RunEnd(s, k, IsSpace);
      if a < |s| && (s[a] == ':' || s[a] == '=') then
        var b := RunEnd(s, a + 1, IsSpace);
        var sq := if b < |s| && s[b] == '\'' then RunEnd(s, b + 1, NotSingleQuote) else b;
        var dq := if b < |s| && s[b] == '"' then RunEnd(s, b + 1, NotDoubleQuote) else b;
        var run := RunEnd(s, b, IsKvValueChar);
        if skip && OccursAt(s, b, "[TENANT_REDACTED]") then None
        else if b < |s| && s[b] == '\'' && b + 1 < sq < |s| then Some(sq + 1)
        else if b < |s| && s[b] == '"' && b + 1 < dq < |s| then Some(dq + 1)
        else if run > b then Some(run)
        else None
      else None
    else None
  }

  /** One alternative of the key group: the key, the \b after it and the rest of the pattern. */
  function KeyValueAt(s: string, i: nat, key: string, skip: bool): (r: Option<nat>)
    ensures r.Some? ==> CiAt(s, i, key) && Boundary(s, i + |key|) && r == KvValueAt(s, i + |key|, skip)
    ensures r.Some? ==> i + |key| < r.value <= |s|
  {
    if CiAt(s, i, key) && Boundary(s, i + |key|) then KvValueAt(s, i + |key|, skip) else None
  }

  /** The key alternatives in order. */
  function TenantKvFrom(s: string, i: nat, keys: seq<string>, skip: bool): (r: Option<nat>)
    ensures r.Some? ==> i < r.value <= |s|
    decreases |keys|
  {
    if |keys| == 0 then None
    else
      var r := KeyValueAt(s, i, keys[0], skip);
      if r.Some? then r else TenantKvFrom(s, i, keys[1..], skip)
  }

  /** \b(tenantId|...|accountName)\b\s*[:=]\s*(?:...) under IGNORECASE, as the program writes it. */
  function TenantKvAt(s: string, i: nat): Option<nat>
  {
    if i < |s| && Boundary(s, i) then TenantKvFrom(s, i, TenantKeys, false) else None
  }

  /**
   * The key rule with (?!\[TENANT_REDACTED\]) in front of the value: the corrected rule
   * of the corrected pipeline, which leaves a value the first pass redacted alone (see
   * KvPassOnPlaceholder for what the rule as written does to it).
   */
  function TenantKvUnredactedAt(s: string, i: nat): Option<nat>
  {
    if i < |s| && Boundary(s, i) then TenantKvFrom(s, i, TenantKeys, true) else None
  }

  /**
   * `_tenant_kv_repl`: group 1, the key as written, then "=[TENANT_REDACTED]". The key is
   * all letters and is followed by a non-word character, so it is the leading word run
   * of the matched text.
   */
  function TenantKvReplacement(m: string): string
  {
    m[..RunEnd(m, 0, IsWord)] + "=[TENANT_REDACTED]"
  }

  /** (/tenants/)([^/?\s]+) under IGNORECASE */
  function TenantPathAt(s: string, i: nat): Option<nat>
  {
    if CiAt(s, i, "/tenants/") then
      var e := RunEnd(s, i + 9, IsPathChar);
      if e > i + 9 then Some(e) else None
    else None
  }

  /** \1[TENANT_REDACTED] for the path rule: group 1 is the nine characters of /tenants/. */
  function TenantPathReplacement(m: string): string
  {
    Take(m, 9) + "[TENANT_REDACTED]"
  }

  /** `=([^&\s]+)` at k. */
  function QueryValueAt(s: string, k: nat): Option<nat>
  {
    if k < |s| && s[k] == '=' then
      var e := RunEnd(s, k + 1, IsQueryChar);
      if e > k + 1 then Some(e) else None
    else None
  }

  /**
   * (tenant(?:Id|ID|Name)?=)([^&\s]+) under IGNORECASE: the optional group tries Id, ID
   * and Name, then nothing, each with the rest of the pattern after it.
   */
  function TenantQueryAt(s: string, i: nat): Option<nat>
  {
    if CiAt(s, i, "tenant") then
      if CiAt(s, i + 6, "id") && QueryValueAt(s, i + 8).Some? then QueryValueAt(s, i + 8)
      else if CiAt(s, i + 6, "name") && QueryValueAt(s, i + 10).Some? then QueryValueAt(s, i + 10)
      else QueryValueAt(s, i + 6)
    else None
  }

  /** \1[TENANT_REDACTED] for the query rule: group 1 runs up to and including the first '='. */
  function TenantQueryReplacement(m: string): string
  {
    var k := RunEnd(m, 0, NotEquals);
    (if k < |m| then m[..k + 1] else m) + "[TENANT_REDACTED]"
  }

  // ---------------------------------------------------------------------
  // The pipelines

  /** The key rule as the program writes it, or (with skip) the corrected one. */
  function KeyRule(skip: bool): Matcher
  {
    if skip then TenantKvUnredactedAt else TenantKvAt
  }

  /** The substitutions of `_redact_tenant_like_values`, in program order, with the key rule chosen by skip. */
  function TenantRulesWith(skip: bool): seq<Rule>
  {
    [ Rule(BracketedIdAt, Const("[TENANT_REDACTED]")),
      Rule(BracketedKvAt, Const("[TENANT_REDACTED]")),
      Rule(KeyRule(skip), TenantKvReplacement),
      Rule(TenantPathAt, TenantPathReplacement),
      Rule(TenantQueryAt, TenantQueryReplacement) ]
  }

  /** The tenant substitutions as the program writes them. */
  const TenantRules: seq<Rule> := TenantRulesWith(false)

  /** The tenant substitutions with the corrected key rule (see KvPassOnPlaceholder for why). */
  const CorrectedTenantRules: seq<Rule> := TenantRulesWith(true)

  /** `_redact_tenant_like_values` */
  function RedactTenantLikeValues(text: string): (r: string)
    ensures text == "" ==> r == text
  {
    if text == "" then text else ApplyRules(text, TenantRules)
  }

  /** `_redact_tenant_like_values` with the corrected key rule. */
  function CorrectedRedactTenantLikeValues(text: string): (r: string)
    ensures text == "" ==> r == text
  {
    if text == "" then text else ApplyRules(text, CorrectedTenantRules)
  }

  /** The substitutions between the two tenant passes of `anonymize_log_message`, in program order. */
  const PiiRules: seq<Rule> := [
    Rule(EmailAt, Const("[EMAIL_REDACTED]")),
    Rule(UserNameQuotedAt, Const("userName='[USER_NAME_REDACTED]'")),
    Rule(UserNameJsonAt, Const("\"userName\":\"[USER_NAME_REDACTED]\"")),
    Rule(FullNameAt, Const("[NAME_REDACTED]")),
    Rule(StatusUpdaterAt, Const("statusUpdaterName='[NAME_REDACTED]'")),
    Rule(UserCommentAt, Const("userComment='[COMMENT_REDACTED]'")),
    Rule(UserBracketAt, Const("[user:[USER_REDACTED]]")),
    Rule(PhoneAt, Const("[PHONE_REDACTED]"))
  ]

  /** `anonymize_log_message` */
  function AnonymizeLogMessage(message: string): (r: string)
    ensures IsBlank(message) ==> r == message
  {
    if IsBlank(message) then message
    else RedactTenantLikeValues(ApplyRules(RedactTenantLikeValues(message), PiiRules))
  }

  /** `anonymize_log_message` with both tenant passes using the corrected key rule. */
  function CorrectedAnonymizeLogMessage(message: string): (r: string)
    ensures IsBlank(message) ==> r == message
  {
    if IsBlank(message) then message
    else CorrectedRedactTenantLikeValues(ApplyRules(CorrectedRedactTenantLikeValues(message), PiiRules))
  }

  /** A message in which none of the patterns matches comes back unchanged. */
  lemma AnonymizeNoMatch(message: string)
    requires NoRuleMatches(message, TenantRules) && NoRuleMatches(message, PiiRules)
    ensures AnonymizeLogMessage(message) == message
  {
    ApplyRulesNoMatch(message, TenantRules);
    ApplyRulesNoMatch(message, PiiRules);
  }

  // ---------------------------------------------------------------------
  // What each pattern matches

  /** The span [i, e) is local@domain.tld with the dot of the top-level domain at x. */
  ghost predicate EmailSpan(s: string, i: nat, a: nat, x: nat, e: nat)
  {
    i < a && a + 1 < x && x + 3 <= e <= |s| && s[a] == '@' && s[x] == '.'
    && (forall j :: i <= j < a ==> IsLocalChar(s[j]))
    && (forall j :: a < j < x ==> IsDomainChar(s[j]))
    && (forall j :: x < j < e ==> IsAlpha(s[j]))
    && Boundary(s, i) && Boundary(s, e)
  }

  lemma {:induction false} EmailFromDot(s: string, a: nat, hi: nat, tld: (string, nat) -> Option<nat>)
    requires hi <= |s| && EmailFrom(s, a, hi, tld).Some?
    ensures exists x :: a + 2 <= x < hi && s[x] == '.' && tld(s, x) == EmailFrom(s, a, hi, tld)
    decreases hi
  {
    if !(s[hi - 1] == '.' && tld(s, hi - 1).Some?) {
      EmailFromDot(s, a, hi - 1, tld);
    }
  }

  /** Every match of the e-mail pattern is an address: local part, '@', domain, dot, two or more letters. */
  lemma EmailShape(s: string, i: nat)
    requires EmailAt(s, i).Some?
    ensures exists a, x :: EmailSpan(s, i, a, x, EmailAt(s, i).value)
  {
    var a := RunEnd(s, i, IsLocalChar);
    var d := RunEnd(s, a + 1, IsDomainChar);
    EmailFromDot(s, a, d, TldAt);
    var x :| a + 2 <= x < d && s[x] == '.' && TldAt(s, x) == EmailAt(s, i);
    EmailSpanOf(s, i, a, d, x, EmailAt(s, i).value);
  }

  /** The runs the e-mail pattern scans, and a dot with a top-level domain inside the domain run, make an address. */
  lemma EmailSpanOf(s: string, i: nat, a: nat, d: nat, x: nat, e: nat)
    requires i < a < |s| && Boundary(s, i) && s[a] == '@'
    requires a == RunEnd(s, i, IsLocalChar) && d == RunEnd(s, a + 1, IsDomainChar)
    requires a + 2 <= x < d && s[x] == '.' && TldAt(s, x) == Some(e)
    ensures EmailSpan(s, i, a, x, e)
  {
  }

  /** key='v' fields: the key and quotes around a non-empty value without quotes. */
  lemma QuotedFieldShape(key: string, s: string, i: nat)
    requires QuotedFieldAt(key, s, i).Some?
    ensures var e := QuotedFieldAt(key, s, i).value;
            && OccursAt(s, i, key + "='") && i + |key| + 3 < e <= |s| && s[e - 1] == '\''
            && forall j :: i + |key| + 2 <= j < e - 1 ==> s[j] != '\''
  {
  }

  /** "userName" : "v": the quoted key, a colon between optional spaces, and a non-empty quoted value. */
  lemma UserNameJsonShape(s: string, i: nat)
    requires UserNameJsonAt(s, i).Some?
    ensures var e := UserNameJsonAt(s, i).value;
            exists a, b :: && OccursAt(s, i, "\"userName\"") && i + 10 <= a < b && b + 2 < e <= |s|
                           && s[a] == ':' && s[b] == '"' && s[e - 1] == '"'
                           && (forall j :: i + 10 <= j < a ==> IsSpace(s[j]))
                           && (forall j :: a < j < b ==> IsSpace(s[j]))
                           && (forall j :: b < j < e - 1 ==> s[j] != '"')
  {
    var a := RunEnd(s, i + 10, IsSpace);
    var b := RunEnd(s, a + 1, IsSpace);
    assert s[a] == ':' && s[b] == '"';
  }

  /** s[i..c] is First Last, the first name ending at a and the second starting at b. */
  ghost predicate NameSpan(s: string, i: nat, a: nat, b: nat, c: nat)
  {
    i + 1 < a < b && b + 1 < c < |s| && IsUpper(s[i]) && IsUpper(s[b])
    && (forall j :: i < j < a ==> IsLower(s[j]))
    && (forall j :: a <= j < b ==> IsSpace(s[j]))
    && (forall j :: b < j < c ==> IsLower(s[j]))
    && Boundary(s, i) && IsNameFollower(s[c])
  }

  /** First Last: two capitalised words with whitespace between and whitespace, a comma or a quote after. */
  lemma FullNameShape(s: string, i: nat)
    requires FullNameAt(s, i).Some?
    ensures exists a, b :: NameSpan(s, i, a, b, FullNameAt(s, i).value)
  {
    var a := RunEnd(s, i + 1, IsLower);
    var b := RunEnd(s, a, IsSpace);
    assert NameSpan(s, i, a, b, FullNameAt(s, i).value);
  }

  /** [user: v] in any case: a non-empty content without ']' and the closing bracket. */
  lemma UserBracketShape(s: string, i: nat)
    requires UserBracketAt(s, i).Some?
    ensures var e := UserBracketAt(s, i).value;
            && s[i] == '[' && CiAt(s, i + 1, "user:") && i + 7 < e <= |s| && s[e - 1] == ']'
            && forall j :: i + 6 <= j < e - 1 ==> s[j] != ']'
  {
  }

  /** s[i..e] is a phone number whose second group starts at a and third at b. */
  ghost predicate PhoneSpan(s: string, i: nat, a: nat, b: nat, e: nat)
  {
    && i + 3 <= a <= i + 4 && a + 3 <= b <= a + 4 && e == b + 4 <= |s|
    && (a == i + 3 || IsPhoneSep(s[i + 3]))
    && (b == a + 3 || IsPhoneSep(s[a + 3]))
    && (forall j :: i <= j < i + 3 ==> IsDigit(s[j]))
    && (forall j :: a <= j < a + 3 ==> IsDigit(s[j]))
    && (forall j :: b <= j < e ==> IsDigit(s[j]))
    && Boundary(s, i) && Boundary(s, e)
  }

  lemma DigitsThenSepShape(s: string, i: nat)
    requires DigitsThenSep(s, i, 3).Some?
    ensures var a := DigitsThenSep(s, i, 3).value;
            && (a == i + 3 || (a == i + 4 && IsPhoneSep(s[i + 3])))
            && forall j :: i <= j < i + 3 ==> IsDigit(s[j])
  {
  }

  /** A phone number: ten digits in groups of three, three and four, each of the first two optionally followed by one separator. */
  lemma PhoneShape(s: string, i: nat)
    requires PhoneAt(s, i).Some?
    ensures exists a, b :: PhoneSpan(s, i, a, b, PhoneAt(s, i).value)
  {
    var a := DigitsThenSep(s, i, 3).value;
    var b := DigitsThenSep(s, a, 3).value;
    DigitsThenSepShape(s, i);
    DigitsThenSepShape(s, a);
    assert PhoneSpan(s, i, a, b, PhoneAt(s, i).value);
  }

  /** [id]: a bracketed run of letters, digits, '.', '_' and '-' starting with a letter or digit and ending in three digits. */
  lemma BracketedIdShape(s: string, i: nat)
    requires BracketedIdAt(s, i).Some?
    ensures var e := BracketedIdAt(s, i).value;
            && i + 6 <= e <= |s| && s[i] == '[' && s[e - 1] == ']' && IsAlnum(s[i + 1])
            && (forall j :: i + 1 <= j < e - 1 ==> IsIdChar(s[j]))
            && IsDigit(s[e - 4]) && IsDigit(s[e - 3]) && IsDigit(s[e - 2])
  {
  }

  /** s[i..e] is [key, then ':' or '=', then a non-empty value without ']', then ']'; key in any case. */
  ghost predicate KvSpan(s: string, i: nat, key: string, e: nat)
  {
    var k := i + 1 + |key|;
    && CiAt(s, i + 1, key) && k + 2 < e <= |s| && (s[k] == ':' || s[k] == '=') && s[e - 1] == ']'
    && forall j :: k < j < e - 1 ==> s[j] != ']'
  }

  lemma {:induction false} BracketedKvFromShape(s: string, i: nat, keys: seq<string>)
    requires BracketedKvFrom(s, i, keys).Some?
    ensures exists n :: 0 <= n < |keys| && KvSpan(s, i, keys[n], BracketedKvFrom(s, i, keys).value)
    decreases |keys|
  {
    var k := i + 1 + |keys[0]|;
    if CiAt(s, i + 1, keys[0]) && k < |s| && (s[k] == ':' || s[k] == '=') && k + 1 < RunEnd(s, k + 1, NotCloseBracket) < |s| {
      assert KvSpan(s, i, keys[0], BracketedKvFrom(s, i, keys).value);
    } else {
      BracketedKvFromShape(s, i, keys[1..]);
      var n :| 0 <= n < |keys[1..]| && KvSpan(s, i, keys[1..][n], BracketedKvFrom(s, i, keys).value);
      assert keys[1..][n] == keys[n + 1];
    }
  }

  /** [key: v]: a bracketed tenant, customer, org, organization or account key in any case, ':' or '=', and a value. */
  lemma BracketedKvShape(s: string, i: nat)
    requires BracketedKvAt(s, i).Some?
    ensures s[i] == '['
    ensures exists n :: 0 <= n < |BracketedKeys| && KvSpan(s, i, BracketedKeys[n], BracketedKvAt(s, i).value)
  {
    BracketedKvFromShape(s, i, BracketedKeys);
  }

  // ---------------------------------------------------------------------
  // The keys of the tenant patterns

  /** A non-empty word of lower-case ASCII letters, as every key of the tenant patterns is. */
  predicate LowerWord(w: string)
  {
    |w| > 0 && forall j :: 0 <= j < |w| ==> IsLower(w[j])
  }

  lemma TenantKeysAreWords()
    ensures forall n :: 0 <= n < |TenantKeys| ==> LowerWord(TenantKeys[n])
  {
  }

  lemma CiAtChar(s: string, i: nat, lit: string, n: nat)
    requires CiAt(s, i, lit) && n < |lit|
    ensures LowerChar(s[i + n]) == lit[n]
  {
    assert Lower(s[i..i + |lit|])[n] == LowerChar(s[i + n]);
  }

  /** A key found under IGNORECASE is spelled in ASCII letters. */
  lemma CiLetters(s: string, i: nat, lit: string)
    requires CiAt(s, i, lit) && LowerWord(lit)
    ensures forall j :: i <= j < i + |lit| ==> IsAlpha(s[j])
  {
    forall j | i <= j < i + |lit|
      ensures IsAlpha(s[j])
    {
      CiAtChar(s, i, lit, j - i);
    }
  }

  /** There is no word boundary inside a key. */
  lemma NoBoundaryInKey(s: string, i: nat, lit: string, n: nat)
    requires CiAt(s, i, lit) && LowerWord(lit) && 0 < n < |lit|
    ensures !Boundary(s, i + n)
  {
    CiLetters(s, i, lit);
    assert IsAlpha(s[i + n - 1]) && IsAlpha(s[i + n]);
  }

  /** Two keys found at i that are both followed by \b have the same length. */
  lemma KeyLengthUnique(s: string, i: nat, k1: string, k2: string)
    requires LowerWord(k1) && LowerWord(k2) && CiAt(s, i, k1) && CiAt(s, i, k2)
    requires Boundary(s, i + |k1|) && Boundary(s, i + |k2|)
    ensures |k1| == |k2|
  {
    if |k1| < |k2| {
      NoBoundaryInKey(s, i, k2, |k1|);
    } else if |k2| < |k1| {
      NoBoundaryInKey(s, i, k1, |k2|);
    }
  }

  /**
   * Whichever alternative of the key group fires, the match is that of the key kw found
   * at i: alternatives that both end at a \b differ only in letter case.
   */
  lemma {:induction false} KvFromKey(s: string, i: nat, keys: seq<string>, skip: bool, kw: string)
    requires forall n :: 0 <= n < |keys| ==> LowerWord(keys[n])
    requires LowerWord(kw) && CiAt(s, i, kw) && Boundary(s, i + |kw|)
    ensures TenantKvFrom(s, i, keys, skip).Some? ==> TenantKvFrom(s, i, keys, skip) == KvValueAt(s, i + |kw|, skip)
    ensures kw in keys ==> TenantKvFrom(s, i, keys, skip) == KvValueAt(s, i + |kw|, skip)
    decreases |keys|
  {
    if |keys| > 0 {
      var tail := keys[1..];
      assert forall n :: 0 <= n < |tail| ==> tail[n] == keys[n + 1];
      KvFromKey(s, i, tail, skip, kw);
      KvFromHead(s, i, keys[0], skip, kw);
      assert TenantKvFrom(s, i, keys, skip) == if KeyValueAt(s, i, keys[0], skip).Some? then KeyValueAt(s, i, keys[0], skip) else TenantKvFrom(s, i, tail, skip);
      assert keys == [keys[0]] + tail;
    }
  }

  /** One alternative of the key group against the key kw found at i. */
  lemma KvFromHead(s: string, i: nat, key: string, skip: bool, kw: string)
    requires LowerWord(key) && LowerWord(kw) && CiAt(s, i, kw) && Boundary(s, i + |kw|)
    ensures KeyValueAt(s, i, key, skip).Some? ==> KeyValueAt(s, i, key, skip) == KvValueAt(s, i + |kw|, skip)
    ensures key == kw ==> KeyValueAt(s, i, key, skip) == KvValueAt(s, i + |kw|, skip)
  {
    if CiAt(s, i, key) && Boundary(s, i + |key|) {
      KeyLengthUnique(s, i, kw, key);
    }
  }

  lemma KeyStartsWithLetter(s: string, i: nat, lit: string)
    requires LowerWord(lit)
    ensures CiAt(s, i, lit) ==> IsAlpha(s[i])
  {
    if CiAt(s, i, lit) {
      CiAtChar(s, i, lit, 0);
    }
  }

  /** No key starts at a character that is not a letter. */
  lemma {:induction false} KvFromNonLetter(s: string, i: nat, keys: seq<string>, skip: bool)
    requires forall n :: 0 <= n < |keys| ==> LowerWord(keys[n])
    requires i < |s| && !IsAlpha(s[i])
    ensures TenantKvFrom(s, i, keys, skip) == None
    decreases |keys|
  {
    if |keys| > 0 {
      KeyStartsWithLetter(s, i, keys[0]);
      KvFromNonLetter(s, i, keys[1..], skip);
    }
  }

  /** `_tenant_kv_repl` on a match that starts with the key kw: the key as written, then "=[TENANT_REDACTED]". */
  lemma KvReplacementOf(s: string, i: nat, e: nat, kw: string)
    requires LowerWord(kw) && CiAt(s, i, kw) && Boundary(s, i + |kw|) && i + |kw| < e <= |s|
    ensures TenantKvReplacement(s[i..e]) == s[i..i + |kw|] + "=[TENANT_REDACTED]"
  {
    var m := s[i..e];
    var k := i + |kw|;
    CiLetters(s, i, kw);
    assert IsWord(s[k - 1]);
    assert RunEnd(m, 0, IsWord) == |kw| by {
      assert forall j :: 0 <= j < |kw| ==> IsWord(m[j]);
      assert !IsWord(m[|kw|]);
    }
    assert m[..|kw|] == s[i..k];
  }

  lemma KvFromKeepsKey(s: string, i: nat, keys: seq<string>, skip: bool)
    requires forall n :: 0 <= n < |keys| ==> LowerWord(keys[n])
    requires TenantKvFrom(s, i, keys, skip).Some?
    ensures var e := TenantKvFrom(s, i, keys, skip).value;
            exists n :: 0 <= n < |keys| && CiAt(s, i, keys[n]) && i + |keys[n]| < e
                        && TenantKvReplacement(s[i..e]) == s[i..i + |keys[n]|] + "=[TENANT_REDACTED]"
  {
    var n := KvFromWitness(s, i, keys, skip);
    KvReplacementOf(s, i, TenantKvFrom(s, i, keys, skip).value, keys[n]);
  }

  /** The key rule as written keeps the key as written in the log and always writes '=' after it. */
  lemma TenantKvKeepsKey(s: string, i: nat)
    requires TenantKvAt(s, i).Some?
    ensures var e := TenantKvAt(s, i).value;
            exists n :: 0 <= n < |TenantKeys| && CiAt(s, i, TenantKeys[n]) && i + |TenantKeys[n]| < e
                        && TenantKvReplacement(s[i..e]) == s[i..i + |TenantKeys[n]|] + "=[TENANT_REDACTED]"
  {
    TenantKeysAreWords();
    KvFromKeepsKey(s, i, TenantKeys, false);
  }

  /** The corrected key rule does the same. */
  lemma UnredactedKvKeepsKey(s: string, i: nat)
    requires TenantKvUnredactedAt(s, i).Some?
    ensures var e := TenantKvUnredactedAt(s, i).value;
            exists n :: 0 <= n < |TenantKeys| && CiAt(s, i, TenantKeys[n]) && i + |TenantKeys[n]| < e
                        && TenantKvReplacement(s[i..e]) == s[i..i + |TenantKeys[n]|] + "=[TENANT_REDACTED]"
  {
    TenantKeysAreWords();
    KvFromKeepsKey(s, i, TenantKeys, true);
  }

  /** The alternative that fired, with the end of its value. */
  lemma {:induction false} KvFromWitness(s: string, i: nat, keys: seq<string>, skip: bool) returns (n: nat)
    requires TenantKvFrom(s, i, keys, skip).Some?
    ensures n < |keys| && TenantKvFrom(s, i, keys, skip) == KeyValueAt(s, i, keys[n], skip)
    decreases |keys|
  {
    var r := KeyValueAt(s, i, keys[0], skip);
    if r.Some? {
      assert TenantKvFrom(s, i, keys, skip) == r;
      n := 0;
    } else {
      var tail := keys[1..];
      assert TenantKvFrom(s, i, keys, skip) == TenantKvFrom(s, i, tail, skip);
      var n' := KvFromWitness(s, i, tail, skip);
      assert tail[n'] == keys[n' + 1];
      n := n' + 1;
    }
  }

  // ---------------------------------------------------------------------
  // The second tenant pass over text the first pass has already redacted

  /** The unquoted value alternative takes the placeholder after '=' up to, not including, its closing bracket. */
  lemma KvValueOverPlaceholder(s: string, k: nat)
    requires OccursAt(s, k, "=[TENANT_REDACTED]")
    ensures KvValueAt(s, k, false) == Some(k + 17)
  {
    assert s[k] == '=' && s[k + 1] == '[' && s[k + 17] == ']';
    forall j | k + 1 <= j < k + 17
      ensures IsKvValueChar(s[j])
    {
      assert s[j] == "=[TENANT_REDACTED]"[j - k];
    }
  }

  /** A key of the rule followed by a character that is not a word character decides the match alone. */
  lemma KvAtKey(s: string, i: nat, kw: string, skip: bool)
    requires kw in TenantKeys && CiAt(s, i, kw) && i + |kw| < |s| && !IsWord(s[i + |kw|])
    ensures TenantKvFrom(s, i, TenantKeys, skip) == KvValueAt(s, i + |kw|, skip)
  {
    TenantKeysAreWords();
    CiLetters(s, i, kw);
    assert IsAlpha(s[i + |kw| - 1]);
    KvFromKey(s, i, TenantKeys, skip, kw);
  }

  /** The key rule matches a redacted key up to, not including, the placeholder's closing bracket. */
  lemma KvMatchOnPlaceholder(s: string, i: nat, kw: string)
    requires kw in TenantKeys && i < |s| && Boundary(s, i) && CiAt(s, i, kw)
    requires OccursAt(s, i + |kw|, "=[TENANT_REDACTED]")
    ensures TenantKvAt(s, i) == Some(i + |kw| + 17)
  {
    var k := i + |kw|;
    assert s[k] == '=';
    KvValueOverPlaceholder(s, k);
    KvAtKey(s, i, kw, false);
  }

  /** The key rule never matches at a character that is not a letter. */
  lemma KvNoMatchAtNonLetter(s: string, j: nat)
    requires j < |s| && !IsAlpha(s[j])
    ensures TenantKvAt(s, j) == None
  {
    TenantKeysAreWords();
    KvFromNonLetter(s, j, TenantKeys, false);
  }

  /**
   * The key rule on a key whose value the first pass already redacted: as the unquoted
   * value class [^,\s\]}]+ accepts '[', the pattern matches again up to the placeholder's
   * closing bracket, and the replacement brings its own bracket. The pass leaves one ']'
   * too many, whatever the key.
   */
  lemma KvPassOnPlaceholder(s: string, i: nat, kw: string)
    requires kw in TenantKeys && i < |s| && Boundary(s, i) && CiAt(s, i, kw)
    requires OccursAt(s, i + |kw|, "=[TENANT_REDACTED]")
    ensures ScanFrom(s, i, TenantKvAt, TenantKvReplacement)
            == s[i..i + |kw|] + "=[TENANT_REDACTED]" + "]" + ScanFrom(s, i + |kw| + 18, TenantKvAt, TenantKvReplacement)
  {
    var k := i + |kw|;
    assert s[k] == '=' && s[k + 17] == ']';
    assert s[k + 17..k + 18] == "]";
    TenantKeysAreWords();
    CiLetters(s, i, kw);
    KvReplacementOf(s, i, k + 17, kw);
    KvNoMatchAtNonLetter(s, k + 17);
    KvMatchOnPlaceholder(s, i, kw);
    ScanMatchThenCopy(s, i, k + 17, TenantKvAt, TenantKvReplacement);
  }

  lemma CiAtLiteral(s: string, i: nat, lit: string)
    requires OccursAt(s, i, lit) && LowerWord(lit)
    ensures CiAt(s, i, lit)
  {
    assert Lower(s[i..i + |lit|]) == lit;
  }

  /** The query rule matches tenant, tenantId or tenantName followed by '=' and the placeholder with a stray bracket. */
  lemma QueryMatchOnPlaceholder(s: string, i: nat, suffix: string)
    requires suffix == "" || suffix == "id" || suffix == "name"
    requires CiAt(s, i, "tenant") && CiAt(s, i + 6, suffix)
    requires OccursAt(s, i + 6 + |suffix|, "=[TENANT_REDACTED]]")
    ensures var k := i + 6 + |suffix|;
            var e := RunEnd(s, k + 1, IsQueryChar);
            k + 19 <= e && TenantQueryAt(s, i) == Some(e)
  {
    var k := i + 6 + |suffix|;
    QueryValueOverPlaceholder(s, k);
    QuerySuffixChoice(s, i, suffix);
  }

  /**
   * After tenant, the alternative the query rule takes is the suffix that is there: id and
   * name start with different letters, and neither is there when the suffix is empty.
   */
  lemma QuerySuffixChoice(s: string, i: nat, suffix: string)
    requires suffix == "" || suffix == "id" || suffix == "name"
    requires CiAt(s, i, "tenant") && CiAt(s, i + 6, suffix)
    requires QueryValueAt(s, i + 6 + |suffix|).Some?
    ensures TenantQueryAt(s, i) == QueryValueAt(s, i + 6 + |suffix|)
  {
    if suffix == "" {
      KeyStartsWithLetter(s, i + 6, "id");
      KeyStartsWithLetter(s, i + 6, "name");
    } else if suffix == "name" {
      CiAtChar(s, i + 6, "name", 0);
      assert !CiAt(s, i + 6, "id") by {
        if CiAt(s, i + 6, "id") {
          CiAtChar(s, i + 6, "id", 0);
        }
      }
    }
  }

  /** The query value class accepts the whole placeholder with its stray bracket. */
  lemma QueryValueOverPlaceholder(s: string, k: nat)
    requires OccursAt(s, k, "=[TENANT_REDACTED]]")
    ensures var e := RunEnd(s, k + 1, IsQueryChar);
            k + 19 <= e && QueryValueAt(s, k) == Some(e)
  {
    assert s[k] == '=';
    forall j | k + 1 <= j < k + 19
      ensures IsQueryChar(s[j])
    {
      assert s[j] == "=[TENANT_REDACTED]]"[j - k];
    }
  }

  /** \1[TENANT_REDACTED] on a match whose first '=' is at k. */
  lemma QueryReplacementOf(s: string, i: nat, k: nat, e: nat)
    requires i <= k < e <= |s| && s[k] == '=' && forall j :: i <= j < k ==> IsAlpha(s[j])
    ensures TenantQueryReplacement(s[i..e]) == s[i..k] + "=[TENANT_REDACTED]"
  {
    var m := s[i..e];
    assert RunEnd(m, 0, NotEquals) == k - i by {
      assert forall j :: 0 <= j < k - i ==> NotEquals(m[j]);
      assert m[k - i] == '=';
    }
    assert m[..k - i + 1] == s[i..k] + "=";
  }

  /**
   * For the tenant, tenantId and tenantName keys the query rule comes after the key
   * rule: its value class [^&\s]+ takes the placeholder with the extra bracket, and
   * whatever follows up to the next '&' or whitespace, and puts back one placeholder.
   */
  lemma QueryPassOnPlaceholder(s: string, i: nat, suffix: string)
    requires suffix == "" || suffix == "id" || suffix == "name"
    requires CiAt(s, i, "tenant") && CiAt(s, i + 6, suffix)
    requires OccursAt(s, i + 6 + |suffix|, "=[TENANT_REDACTED]]")
    ensures var k := i + 6 + |suffix|;
            var e := RunEnd(s, k + 1, IsQueryChar);
            && k + 19 <= e
            && ScanFrom(s, i, TenantQueryAt, TenantQueryReplacement)
               == s[i..k] + "=[TENANT_REDACTED]" + ScanFrom(s, e, TenantQueryAt, TenantQueryReplacement)
  {
    var k := i + 6 + |suffix|;
    var e := RunEnd(s, k + 1, IsQueryChar);
    assert s[k] == '=';
    CiLetters(s, i, "tenant");
    if suffix != "" {
      CiLetters(s, i + 6, suffix);
    }
    QueryMatchOnPlaceholder(s, i, suffix);
    QueryReplacementOf(s, i, k, e);
    ScanMatch(s, i, e, TenantQueryAt, TenantQueryReplacement);
  }

  // ---------------------------------------------------------------------
  // The key rule with a lookahead that leaves placeholders alone

  lemma {:induction false} KvFromNoKey(s: string, i: nat, keys: seq<string>, skip: bool)
    requires forall n :: 0 <= n < |keys| ==> !(CiAt(s, i, keys[n]) && Boundary(s, i + |keys[n]|))
    ensures TenantKvFrom(s, i, keys, skip) == None
    decreases |keys|
  {
    if |keys| > 0 {
      KvFromNoKey(s, i, keys[1..], skip);
    }
  }

  /** The letters of the placeholder and its underscore are word characters. */
  lemma PlaceholderWordChars(s: string, k: nat)
    requires OccursAt(s, k, "=[TENANT_REDACTED]")
    ensures forall j :: k + 2 <= j < k + 17 ==> IsWord(s[j])
  {
    forall j | k + 2 <= j < k + 17
      ensures IsWord(s[j])
    {
      assert s[j] == "=[TENANT_REDACTED]"[j - k];
    }
  }

  /** No key followed by \b starts at the T of TENANT_REDACTED: the longest candidate, tenant, runs into the underscore. */
  lemma NoKeyAtPlaceholder(s: string, k: nat, key: string)
    requires OccursAt(s, k, "=[TENANT_REDACTED]") && LowerWord(key)
    ensures !(CiAt(s, k + 2, key) && Boundary(s, k + 2 + |key|))
  {
    PlaceholderWordChars(s, k);
    if CiAt(s, k + 2, key) {
      if |key| > 6 {
        assert s[k + 8] == '_';
        CiAtChar(s, k + 2, key, 6);
      } else {
        assert IsWord(s[k + 1 + |key|]) && IsWord(s[k + 2 + |key|]);
      }
    }
  }

  /** The lookahead refuses the placeholder as a value. */
  lemma KvValueSkipsPlaceholder(s: string, k: nat)
    requires OccursAt(s, k, "=[TENANT_REDACTED]")
    ensures KvValueAt(s, k, true) == None
  {
    assert s[k] == '=' && s[k + 1] == '[';
    assert RunEnd(s, k, IsSpace) == k && RunEnd(s, k + 1, IsSpace) == k + 1;
    assert s[k + 1..k + 18] == s[k..k + 18][1..];
    assert "=[TENANT_REDACTED]"[1..] == "[TENANT_REDACTED]";
  }

  /** At the key itself the lookahead refuses the placeholder. */
  lemma UnredactedNoMatchAtKey(s: string, i: nat, kw: string)
    requires kw in TenantKeys && CiAt(s, i, kw)
    requires OccursAt(s, i + |kw|, "=[TENANT_REDACTED]")
    ensures TenantKvUnredactedAt(s, i) == None
  {
    var k := i + |kw|;
    assert s[k] == '=';
    KvValueSkipsPlaceholder(s, k);
    KvAtKey(s, i, kw, true);
  }

  /** At the T of the placeholder no key ends at a \b. */
  lemma UnredactedNoMatchAtPlaceholder(s: string, k: nat)
    requires OccursAt(s, k, "=[TENANT_REDACTED]")
    ensures TenantKvUnredactedAt(s, k + 2) == None
  {
    TenantKeysAreWords();
    forall n | 0 <= n < |TenantKeys|
      ensures !(CiAt(s, k + 2, TenantKeys[n]) && Boundary(s, k + 2 + |TenantKeys[n]|))
    {
      NoKeyAtPlaceholder(s, k, TenantKeys[n]);
    }
    KvFromNoKey(s, k + 2, TenantKeys, true);
  }

  lemma UnredactedNoMatchAtNonLetter(s: string, j: nat)
    requires j < |s| && !IsAlpha(s[j])
    ensures TenantKvUnredactedAt(s, j) == None
  {
    TenantKeysAreWords();
    KvFromNonLetter(s, j, TenantKeys, true);
  }

  /** The rule with the lookahead finds no match anywhere in key=[TENANT_REDACTED]. */
  lemma UnredactedNoMatchInToken(s: string, i: nat, kw: string, j: nat)
    requires kw in TenantKeys && CiAt(s, i, kw)
    requires OccursAt(s, i + |kw|, "=[TENANT_REDACTED]")
    requires i <= j < i + |kw| + 18
    ensures TenantKvUnredactedAt(s, j) == None
  {
    var k := i + |kw|;
    if j == i {
      UnredactedNoMatchAtKey(s, i, kw);
    } else if j < k {
      TenantKeysAreWords();
      NoBoundaryInKey(s, i, kw, j - i);
    } else if j == k + 2 {
      UnredactedNoMatchAtPlaceholder(s, k);
    } else if j == k || j == k + 1 || j == k + 17 {
      assert s[k] == '=' && s[k + 1] == '[' && s[k + 17] == ']';
      UnredactedNoMatchAtNonLetter(s, j);
    } else {
      PlaceholderWordChars(s, k);
      assert IsWord(s[j - 1]) && IsWord(s[j]);
    }
  }

  /** With the lookahead the second pass leaves a redacted key as it is, for every key. */
  lemma UnredactedPassKeepsPlaceholder(s: string, i: nat, kw: string)
    requires kw in TenantKeys && CiAt(s, i, kw)
    requires OccursAt(s, i + |kw|, "=[TENANT_REDACTED]")
    ensures ScanFrom(s, i, TenantKvUnredactedAt, TenantKvReplacement)
            == s[i..i + |kw| + 18] + ScanFrom(s, i + |kw| + 18, TenantKvUnredactedAt, TenantKvReplacement)
  {
    UnredactedNoneInToken(s, i, kw);
    ScanSkipPast(s, i, kw, 18, TenantKvUnredactedAt, TenantKvReplacement);
  }

  /** The corrected key rule matches nowhere inside a redacted key=[TENANT_REDACTED] token. */
  lemma UnredactedNoneInToken(s: string, i: nat, kw: string)
    requires kw in TenantKeys && CiAt(s, i, kw)
    requires OccursAt(s, i + |kw|, "=[TENANT_REDACTED]")
    ensures i + |kw| + 18 <= |s|
    ensures forall j :: i <= j < i + |kw| + 18 ==> MatchAt(TenantKvUnredactedAt, s, j).None?
  {
    forall j | i <= j < i + |kw| + 18
      ensures MatchAt(TenantKvUnredactedAt, s, j).None?
    {
      UnredactedNoMatchInToken(s, i, kw, j);
    }
  }
}
