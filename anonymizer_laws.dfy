// What the anonymizer of src/prod_monitoring/anonymizer.py redacts. For every pattern, a
// span of the pattern's shape is matched, with exactly its end, and re.sub puts the
// placeholder in its place whenever the left-to-right scan reaches the span. Then, for
// whole messages: an e-mail address, a `key=value` pair and a /tenants/ path segment come
// out of anonymize_log_message redacted, for the pipeline as written and the corrected one.
module AnonymizerLaws {
  import opened Wrappers
  import opened Text
  import opened Rewrite
  import opened Anonymizer

  // ---------------------------------------------------------------------
  // Each pattern matches a span of its shape and replaces it

  /** The backtracking domain loop stops at the last dot before hi that leaves a top-level domain. */
  lemma {:induction false} EmailFromFinds(s: string, a: nat, hi: nat, x: nat, tld: (string, nat) -> Option<nat>)
    requires hi <= |s| && a + 2 <= x < hi && s[x] == '.' && tld(s, x).Some?
    requires forall j :: x < j < hi ==> s[j] != '.'
    ensures EmailFrom(s, a, hi, tld) == tld(s, x)
    decreases hi
  {
    if hi - 1 != x {
      EmailFromFinds(s, a, hi - 1, x, tld);
    }
  }

  /**
   * An address local@domain.tld between word boundaries, whose domain is not continued
   * by another domain character, is matched exactly, for any top-level-domain matcher
   * that accepts its top-level domain.
   */
  lemma EmailShapeMatched(s: string, i: nat, a: nat, x: nat, e: nat, tld: (string, nat) -> Option<nat>)
    requires EmailSpan(s, i, a, x, e) && (e == |s| || !IsDomainChar(s[e]))
    requires tld(s, x) == Some(e)
    ensures EmailShapeAt(s, i, tld) == Some(e)
  {
    RunEndIs(s, i, a, IsLocalChar);
    RunEndIs(s, a + 1, e, IsDomainChar);
    EmailFromFinds(s, a, e, x, tld);
  }

  /** Every such address is matched by the e-mail pattern and becomes [EMAIL_REDACTED]. */
  lemma EmailMatched(s: string, i: nat, a: nat, x: nat, e: nat)
    requires EmailSpan(s, i, a, x, e) && (e == |s| || !IsDomainChar(s[e]))
    ensures EmailAt(s, i) == Some(e)
    ensures ScanFrom(s, i, EmailAt, Const("[EMAIL_REDACTED]"))
            == "[EMAIL_REDACTED]" + ScanFrom(s, e, EmailAt, Const("[EMAIL_REDACTED]"))
  {
    RunEndIs(s, x + 1, e, IsAlpha);
    assert TldAt(s, x) == Some(e);
    EmailShapeMatched(s, i, a, x, e, TldAt);
    ScanMatch(s, i, e, EmailAt, Const("[EMAIL_REDACTED]"));
  }

  /** key='v' with a non-empty v free of quotes, closed at c, is matched up to and including the closing quote. */
  lemma QuotedFieldMatched(key: string, s: string, i: nat, c: nat)
    requires OccursAt(s, i, key + "='") && i + |key| + 2 < c < |s| && s[c] == '\''
    requires forall j :: i + |key| + 2 <= j < c ==> s[j] != '\''
    ensures QuotedFieldAt(key, s, i) == Some(c + 1)
  {
    RunEndIs(s, i + |key| + 2, c, NotSingleQuote);
  }

  /** userName='v' becomes userName='[USER_NAME_REDACTED]'. */
  lemma UserNameQuotedMatched(s: string, i: nat, c: nat)
    requires OccursAt(s, i, "userName='") && i + 10 < c < |s| && s[c] == '\''
    requires forall j :: i + 10 <= j < c ==> s[j] != '\''
    ensures UserNameQuotedAt(s, i) == Some(c + 1)
    ensures ScanFrom(s, i, UserNameQuotedAt, Const("userName='[USER_NAME_REDACTED]'"))
            == "userName='[USER_NAME_REDACTED]'" + ScanFrom(s, c + 1, UserNameQuotedAt, Const("userName='[USER_NAME_REDACTED]'"))
  {
    QuotedFieldMatched("userName", s, i, c);
    ScanMatch(s, i, c + 1, UserNameQuotedAt, Const("userName='[USER_NAME_REDACTED]'"));
  }

  /** statusUpdaterName='v' becomes statusUpdaterName='[NAME_REDACTED]'. */
  lemma StatusUpdaterMatched(s: string, i: nat, c: nat)
    requires OccursAt(s, i, "statusUpdaterName='") && i + 19 < c < |s| && s[c] == '\''
    requires forall j :: i + 19 <= j < c ==> s[j] != '\''
    ensures StatusUpdaterAt(s, i) == Some(c + 1)
    ensures ScanFrom(s, i, StatusUpdaterAt, Const("statusUpdaterName='[NAME_REDACTED]'"))
            == "statusUpdaterName='[NAME_REDACTED]'" + ScanFrom(s, c + 1, StatusUpdaterAt, Const("statusUpdaterName='[NAME_REDACTED]'"))
  {
    QuotedFieldMatched("statusUpdaterName", s, i, c);
    ScanMatch(s, i, c + 1, StatusUpdaterAt, Const("statusUpdaterName='[NAME_REDACTED]'"));
  }

  /** userComment='v' becomes userComment='[COMMENT_REDACTED]'. */
  lemma UserCommentMatched(s: string, i: nat, c: nat)
    requires OccursAt(s, i, "userComment='") && i + 13 < c < |s| && s[c] == '\''
    requires forall j :: i + 13 <= j < c ==> s[j] != '\''
    ensures UserCommentAt(s, i) == Some(c + 1)
    ensures ScanFrom(s, i, UserCommentAt, Const("userComment='[COMMENT_REDACTED]'"))
            == "userComment='[COMMENT_REDACTED]'" + ScanFrom(s, c + 1, UserCommentAt, Const("userComment='[COMMENT_REDACTED]'"))
  {
    QuotedFieldMatched("userComment", s, i, c);
    ScanMatch(s, i, c + 1, UserCommentAt, Const("userComment='[COMMENT_REDACTED]'"));
  }

  /**
   * "userName" : "v", with whitespace before the colon up to a and after it up to the
   * opening quote at b, and v closed at c, becomes "userName":"[USER_NAME_REDACTED]".
   */
  lemma UserNameJsonMatched(s: string, i: nat, a: nat, b: nat, c: nat)
    requires OccursAt(s, i, "\"userName\"") && i + 10 <= a < b && b + 1 < c < |s|
    requires s[a] == ':' && s[b] == '"' && s[c] == '"'
    requires forall j :: i + 10 <= j < a ==> IsSpace(s[j])
    requires forall j :: a < j < b ==> IsSpace(s[j])
    requires forall j :: b < j < c ==> s[j] != '"'
    ensures UserNameJsonAt(s, i) == Some(c + 1)
    ensures ScanFrom(s, i, UserNameJsonAt, Const("\"userName\":\"[USER_NAME_REDACTED]\""))
            == "\"userName\":\"[USER_NAME_REDACTED]\"" + ScanFrom(s, c + 1, UserNameJsonAt, Const("\"userName\":\"[USER_NAME_REDACTED]\""))
  {
    RunEndIs(s, i + 10, a, IsSpace);
    RunEndIs(s, a + 1, b, IsSpace);
    RunEndIs(s, b + 1, c, NotDoubleQuote);
    ScanMatch(s, i, c + 1, UserNameJsonAt, Const("\"userName\":\"[USER_NAME_REDACTED]\""));
  }

  /** First Last, followed by whitespace, a comma or a quote, is matched by the name pattern. */
  lemma FullNameAtSpan(s: string, i: nat, a: nat, b: nat, c: nat)
    requires NameSpan(s, i, a, b, c)
    ensures FullNameAt(s, i) == Some(c)
  {
    RunEndIs(s, i + 1, a, IsLower);
    RunEndIs(s, a, b, IsSpace);
    RunEndIs(s, b + 1, c, IsLower);
    FullNameAtRuns(s, i, a, b, c);
  }

  /** The name pattern in terms of its three runs. */
  lemma FullNameAtRuns(s: string, i: nat, a: nat, b: nat, c: nat)
    requires i + 1 < a < b && b + 1 < c < |s| && Boundary(s, i) && IsUpper(s[i]) && IsUpper(s[b]) && IsNameFollower(s[c])
    requires RunEnd(s, i + 1, IsLower) == a && RunEnd(s, a, IsSpace) == b && RunEnd(s, b + 1, IsLower) == c
    ensures FullNameAt(s, i) == Some(c)
  {
  }

  /** First Last, followed by whitespace, a comma or a quote, becomes [NAME_REDACTED]. */
  lemma FullNameMatched(s: string, i: nat, a: nat, b: nat, c: nat)
    requires NameSpan(s, i, a, b, c)
    ensures FullNameAt(s, i) == Some(c)
    ensures ScanFrom(s, i, FullNameAt, Const("[NAME_REDACTED]")) == "[NAME_REDACTED]" + ScanFrom(s, c, FullNameAt, Const("[NAME_REDACTED]"))
  {
    FullNameAtSpan(s, i, a, b, c);
    ScanMatch(s, i, c, FullNameAt, Const("[NAME_REDACTED]"));
  }

  /** [user: v] in any case, with a non-empty v free of ']' closed at c, becomes [user:[USER_REDACTED]]. */
  lemma UserBracketMatched(s: string, i: nat, c: nat)
    requires i + 6 < c < |s| && s[i] == '[' && CiAt(s, i + 1, "user:") && s[c] == ']'
    requires forall j :: i + 6 <= j < c ==> s[j] != ']'
    ensures UserBracketAt(s, i) == Some(c + 1)
    ensures ScanFrom(s, i, UserBracketAt, Const("[user:[USER_REDACTED]]"))
            == "[user:[USER_REDACTED]]" + ScanFrom(s, c + 1, UserBracketAt, Const("[user:[USER_REDACTED]]"))
  {
    RunEndIs(s, i + 6, c, NotCloseBracket);
    ScanMatch(s, i, c + 1, UserBracketAt, Const("[user:[USER_REDACTED]]"));
  }

  /** A three-digit group at i, with the separator after it exactly when a is i + 4. */
  lemma DigitsThenSepMatched(s: string, i: nat, a: nat)
    requires i + 3 <= a <= i + 4 && a < |s|
    requires forall j :: i <= j < i + 3 ==> IsDigit(s[j])
    requires a == i + 3 ==> IsDigit(s[a])
    requires a == i + 4 ==> IsPhoneSep(s[i + 3])
    ensures DigitsThenSep(s, i, 3) == Some(a)
  {
  }

  /** A number grouped 3-3-4 between word boundaries becomes [PHONE_REDACTED]. */
  lemma PhoneMatched(s: string, i: nat, a: nat, b: nat, e: nat)
    requires PhoneSpan(s, i, a, b, e)
    ensures PhoneAt(s, i) == Some(e)
    ensures ScanFrom(s, i, PhoneAt, Const("[PHONE_REDACTED]")) == "[PHONE_REDACTED]" + ScanFrom(s, e, PhoneAt, Const("[PHONE_REDACTED]"))
  {
    assert IsDigit(s[a]) && IsDigit(s[b]);
    DigitsThenSepMatched(s, i, a);
    DigitsThenSepMatched(s, a, b);
    ScanMatch(s, i, e, PhoneAt, Const("[PHONE_REDACTED]"));
  }

  /** [id], an id closed at c whose last three characters are digits, becomes [TENANT_REDACTED]. */
  lemma BracketedIdMatched(s: string, i: nat, c: nat)
    requires i + 5 <= c < |s| && s[i] == '[' && s[c] == ']' && IsAlnum(s[i + 1])
    requires forall j :: i + 1 <= j < c ==> IsIdChar(s[j])
    requires IsDigit(s[c - 3]) && IsDigit(s[c - 2]) && IsDigit(s[c - 1])
    ensures BracketedIdAt(s, i) == Some(c + 1)
    ensures ScanFrom(s, i, BracketedIdAt, Const("[TENANT_REDACTED]")) == "[TENANT_REDACTED]" + ScanFrom(s, c + 1, BracketedIdAt, Const("[TENANT_REDACTED]"))
  {
    RunEndIs(s, i + 2, c, IsIdChar);
    ScanMatch(s, i, c + 1, BracketedIdAt, Const("[TENANT_REDACTED]"));
  }

  /**
   * Two keys found at one place, each followed by a character that is not a letter,
   * are the same length: the shorter would be followed by a letter of the longer.
   */
  lemma SeparatedKeyLength(s: string, i: nat, k1: string, k2: string)
    requires LowerWord(k1) && LowerWord(k2) && CiAt(s, i, k1) && CiAt(s, i, k2)
    requires i + |k1| < |s| && !IsAlpha(s[i + |k1|])
    requires i + |k2| < |s| && !IsAlpha(s[i + |k2|])
    ensures |k1| == |k2|
  {
    if |k1| < |k2| {
      CiLetters(s, i, k2);
    } else if |k2| < |k1| {
      CiLetters(s, i, k1);
    }
  }

  /** One alternative of the bracketed key group against the key kw of the span. */
  lemma BracketedKvHead(s: string, i: nat, keys: seq<string>, kw: string, e: nat)
    requires |keys| > 0 && LowerWord(keys[0]) && LowerWord(kw) && KvSpan(s, i, kw, e)
    ensures var k := i + 1 + |keys[0]|;
            CiAt(s, i + 1, keys[0]) && k < |s| && (s[k] == ':' || s[k] == '=')
            ==> BracketedKvFrom(s, i, keys) == Some(e)
    ensures keys[0] == kw ==> BracketedKvFrom(s, i, keys) == Some(e)
  {
    var k := i + 1 + |keys[0]|;
    if CiAt(s, i + 1, keys[0]) && k < |s| && (s[k] == ':' || s[k] == '=') {
      SeparatedKeyLength(s, i + 1, keys[0], kw);
      RunEndIs(s, k + 1, e - 1, NotCloseBracket);
    }
  }

  /** The key group finds the key of the span, whichever alternative fires, and the match ends with the span. */
  lemma {:induction false} BracketedKvFromMatched(s: string, i: nat, keys: seq<string>, kw: string, e: nat)
    requires forall n :: 0 <= n < |keys| ==> LowerWord(keys[n])
    requires LowerWord(kw) && KvSpan(s, i, kw, e)
    ensures kw in keys ==> BracketedKvFrom(s, i, keys) == Some(e)
    decreases |keys|
  {
    if kw in keys {
      var k := i + 1 + |keys[0]|;
      BracketedKvHead(s, i, keys, kw, e);
      if !(CiAt(s, i + 1, keys[0]) && k < |s| && (s[k] == ':' || s[k] == '=')) {
        var tail := keys[1..];
        assert forall n :: 0 <= n < |tail| ==> tail[n] == keys[n + 1];
        assert kw in tail by {
          assert keys == [keys[0]] + tail;
        }
        BracketedKvFromMatched(s, i, tail, kw, e);
      }
    }
  }

  /** [key: v] and [key=v] for the five keys, in any case, become [TENANT_REDACTED]. */
  lemma BracketedKvMatched(s: string, i: nat, n: nat, e: nat)
    requires n < |BracketedKeys| && KvSpan(s, i, BracketedKeys[n], e) && s[i] == '['
    ensures BracketedKvAt(s, i) == Some(e)
    ensures ScanFrom(s, i, BracketedKvAt, Const("[TENANT_REDACTED]")) == "[TENANT_REDACTED]" + ScanFrom(s, e, BracketedKvAt, Const("[TENANT_REDACTED]"))
  {
    assert forall m :: 0 <= m < |BracketedKeys| ==> LowerWord(BracketedKeys[m]);
    BracketedKvFromMatched(s, i, BracketedKeys, BracketedKeys[n], e);
    ScanMatch(s, i, e, BracketedKvAt, Const("[TENANT_REDACTED]"));
  }

  /**
   * One of the three value alternatives from b to e: '…' without a single quote inside,
   * "…" without a double quote inside, or the longest unquoted run of value characters.
   */
  ghost predicate KvValueSpan(s: string, b: nat, e: nat)
  {
    && b < e <= |s|
    && (|| (s[b] == '\'' && b + 2 < e && s[e - 1] == '\'' && forall j :: b + 1 <= j < e - 1 ==> s[j] != '\'')
        || (s[b] == '"' && b + 2 < e && s[e - 1] == '"' && forall j :: b + 1 <= j < e - 1 ==> s[j] != '"')
        || (&& s[b] != '\'' && s[b] != '"'
            && (forall j :: b <= j < e ==> IsKvValueChar(s[j]))
            && (e == |s| || !IsKvValueChar(s[e]))))
  }

  /** The quoted and unquoted value alternatives of the key rule, starting at b. */
  lemma KvValueAlternatives(s: string, b: nat, e: nat)
    requires KvValueSpan(s, b, e)
    ensures !IsSpace(s[b])
    ensures s[b] == '\'' ==> b + 1 < RunEnd(s, b + 1, NotSingleQuote) == e - 1 < |s|
    ensures s[b] == '"' ==> b + 1 < RunEnd(s, b + 1, NotDoubleQuote) == e - 1 < |s|
    ensures s[b] != '\'' && s[b] != '"' ==> RunEnd(s, b, IsKvValueChar) == e
  {
    if s[b] == '\'' {
      RunEndIs(s, b + 1, e - 1, NotSingleQuote);
    } else if s[b] == '"' {
      RunEndIs(s, b + 1, e - 1, NotDoubleQuote);
    } else {
      assert IsKvValueChar(s[b]);
      RunEndIs(s, b, e, IsKvValueChar);
    }
  }

  /**
   * After the key, ending at k: white space up to the separator ':' or '=' at a, white
   * space up to b and a value from b to e. The value part of the key rule ends at e,
   * unless the corrected rule refuses a value that is already the placeholder.
   */
  lemma KvValueMatched(s: string, k: nat, a: nat, b: nat, e: nat, skip: bool)
    requires k <= a < b && KvValueSpan(s, b, e) && (s[a] == ':' || s[a] == '=')
    requires forall j :: k <= j < a ==> IsSpace(s[j])
    requires forall j :: a < j < b ==> IsSpace(s[j])
    requires skip ==> !OccursAt(s, b, "[TENANT_REDACTED]")
    ensures KvValueAt(s, k, skip) == Some(e)
  {
    RunEndIs(s, k, a, IsSpace);
    KvValueAlternatives(s, b, e);
    RunEndIs(s, a + 1, b, IsSpace);
    KvValueOfRuns(s, k, a, b, e, skip);
  }

  /** The value part of the key rule in terms of the runs it scans. */
  lemma KvValueOfRuns(s: string, k: nat, a: nat, b: nat, e: nat, skip: bool)
    requires k <= a < b < e <= |s| && (s[a] == ':' || s[a] == '=')
    requires RunEnd(s, k, IsSpace) == a && RunEnd(s, a + 1, IsSpace) == b
    requires s[b] == '\'' ==> b + 1 < RunEnd(s, b + 1, NotSingleQuote) == e - 1 < |s|
    requires s[b] == '"' ==> b + 1 < RunEnd(s, b + 1, NotDoubleQuote) == e - 1 < |s|
    requires s[b] != '\'' && s[b] != '"' ==> RunEnd(s, b, IsKvValueChar) == e
    requires skip ==> !OccursAt(s, b, "[TENANT_REDACTED]")
    ensures KvValueAt(s, k, skip) == Some(e)
  {
  }

  /**
   * A key of the key rule at a word boundary, white space, ':' or '=' at a, white space
   * and a value from b to e.
   */
  ghost predicate KeyValueSpan(s: string, i: nat, kw: string, a: nat, b: nat, e: nat)
  {
    var k := i + |kw|;
    && kw in TenantKeys && Boundary(s, i) && CiAt(s, i, kw)
    && k <= a < b && KvValueSpan(s, b, e) && (s[a] == ':' || s[a] == '=')
    && (forall j :: k <= j < a ==> IsSpace(s[j]))
    && (forall j :: a < j < b ==> IsSpace(s[j]))
  }

  /** A key followed by white space and ':' or '=' ends at a word boundary. */
  lemma KeyBeforeSeparator(s: string, i: nat, kw: string, a: nat)
    requires kw in TenantKeys && CiAt(s, i, kw) && i + |kw| <= a < |s| && (s[a] == ':' || s[a] == '=')
    requires forall j :: i + |kw| <= j < a ==> IsSpace(s[j])
    ensures LowerWord(kw) && !IsWord(s[i + |kw|]) && Boundary(s, i + |kw|)
  {
    var k := i + |kw|;
    TenantKeysAreWords();
    CiLetters(s, i, kw);
    assert IsAlpha(s[k - 1]);
    if k < a {
      assert IsSpace(s[k]);
    }
  }

  /** Either key rule on such a span, the corrected one only when the value is not the placeholder already. */
  lemma KeyRuleMatched(s: string, i: nat, kw: string, a: nat, b: nat, e: nat, skip: bool)
    requires KeyValueSpan(s, i, kw, a, b, e)
    requires skip ==> !OccursAt(s, b, "[TENANT_REDACTED]")
    ensures MatchAt(KeyRule(skip), s, i) == Some(e)
    ensures ScanFrom(s, i, KeyRule(skip), TenantKvReplacement)
            == s[i..i + |kw|] + "=[TENANT_REDACTED]" + ScanFrom(s, e, KeyRule(skip), TenantKvReplacement)
  {
    KeyRuleMatchAt(s, i, kw, a, b, e, skip);
    KvRuleScan(s, i, kw, e, skip);
  }

  /** The match of either key rule on such a span ends at e. */
  lemma KeyRuleMatchAt(s: string, i: nat, kw: string, a: nat, b: nat, e: nat, skip: bool)
    requires KeyValueSpan(s, i, kw, a, b, e)
    requires skip ==> !OccursAt(s, b, "[TENANT_REDACTED]")
    ensures LowerWord(kw) && CiAt(s, i, kw) && Boundary(s, i + |kw|) && i + |kw| < e <= |s|
    ensures MatchAt(KeyRule(skip), s, i) == Some(e)
  {
    KeyBeforeSeparator(s, i, kw, a);
    KvValueMatched(s, i + |kw|, a, b, e, skip);
    KeyRuleOfValue(s, i, kw, e, skip);
  }

  /** A key at a word boundary, not followed by a word character, is matched as far as its value part reaches. */
  lemma KeyRuleOfValue(s: string, i: nat, kw: string, e: nat, skip: bool)
    requires kw in TenantKeys && i < |s| && Boundary(s, i) && CiAt(s, i, kw)
    requires i + |kw| < |s| && !IsWord(s[i + |kw|]) && KvValueAt(s, i + |kw|, skip) == Some(e)
    ensures MatchAt(KeyRule(skip), s, i) == Some(e)
  {
    KvAtKey(s, i, kw, skip);
    KeyRuleAt(s, i, e, skip);
  }

  /** The key rule at a word boundary is the first key that matches there. */
  lemma KeyRuleAt(s: string, i: nat, e: nat, skip: bool)
    requires i < |s| && Boundary(s, i) && TenantKvFrom(s, i, TenantKeys, skip) == Some(e)
    ensures MatchAt(KeyRule(skip), s, i) == Some(e)
  {
  }

  /** Once the key rule matches a span, the scan writes its replacement and goes on after it. */
  lemma KvRuleScan(s: string, i: nat, kw: string, e: nat, skip: bool)
    requires LowerWord(kw) && CiAt(s, i, kw) && Boundary(s, i + |kw|) && i + |kw| < e <= |s|
    requires MatchAt(KeyRule(skip), s, i) == Some(e)
    ensures ScanFrom(s, i, KeyRule(skip), TenantKvReplacement)
            == s[i..i + |kw|] + "=[TENANT_REDACTED]" + ScanFrom(s, e, KeyRule(skip), TenantKvReplacement)
  {
    KvReplacementOf(s, i, e, kw);
    ScanMatch(s, i, e, KeyRule(skip), TenantKvReplacement);
  }

  /** The key rule as written matches such a span up to e and writes the key as found, then "=[TENANT_REDACTED]". */
  lemma TenantKvMatched(s: string, i: nat, kw: string, a: nat, b: nat, e: nat)
    requires KeyValueSpan(s, i, kw, a, b, e)
    ensures TenantKvAt(s, i) == Some(e)
    ensures ScanFrom(s, i, TenantKvAt, TenantKvReplacement)
            == s[i..i + |kw|] + "=[TENANT_REDACTED]" + ScanFrom(s, e, TenantKvAt, TenantKvReplacement)
  {
    KeyRuleMatched(s, i, kw, a, b, e, false);
  }

  /** The corrected key rule does the same unless the value already is the placeholder. */
  lemma UnredactedKvMatched(s: string, i: nat, kw: string, a: nat, b: nat, e: nat)
    requires KeyValueSpan(s, i, kw, a, b, e) && !OccursAt(s, b, "[TENANT_REDACTED]")
    ensures TenantKvUnredactedAt(s, i) == Some(e)
    ensures ScanFrom(s, i, TenantKvUnredactedAt, TenantKvReplacement)
            == s[i..i + |kw|] + "=[TENANT_REDACTED]" + ScanFrom(s, e, TenantKvUnredactedAt, TenantKvReplacement)
  {
    KeyRuleMatched(s, i, kw, a, b, e, true);
  }

  /** /tenants/ in any case, then a non-empty segment up to e: the segment becomes [TENANT_REDACTED]. */
  lemma TenantPathMatched(s: string, i: nat, e: nat)
    requires CiAt(s, i, "/tenants/") && i + 9 < e <= |s|
    requires forall j :: i + 9 <= j < e ==> IsPathChar(s[j])
    requires e == |s| || !IsPathChar(s[e])
    ensures TenantPathAt(s, i) == Some(e)
    ensures ScanFrom(s, i, TenantPathAt, TenantPathReplacement)
            == s[i..i + 9] + "[TENANT_REDACTED]" + ScanFrom(s, e, TenantPathAt, TenantPathReplacement)
  {
    RunEndIs(s, i + 9, e, IsPathChar);
    assert s[i..e][..9] == s[i..i + 9];
    ScanMatch(s, i, e, TenantPathAt, TenantPathReplacement);
  }

  /** Every match of the path rule is /tenants/ followed by the longest non-empty segment. */
  lemma TenantPathShape(s: string, i: nat)
    requires TenantPathAt(s, i).Some?
    ensures var e := TenantPathAt(s, i).value;
            && CiAt(s, i, "/tenants/") && i + 9 < e <= |s|
            && (forall j :: i + 9 <= j < e ==> IsPathChar(s[j]))
            && (e == |s| || !IsPathChar(s[e]))
  {
  }

  /** The query value after an '=' at k: the longest non-empty run without '&' or whitespace. */
  lemma QueryValueMatched(s: string, k: nat, e: nat)
    requires k + 1 < e <= |s| && s[k] == '='
    requires forall j :: k + 1 <= j < e ==> IsQueryChar(s[j])
    requires e == |s| || !IsQueryChar(s[e])
    ensures QueryValueAt(s, k) == Some(e)
  {
    RunEndIs(s, k + 1, e, IsQueryChar);
  }

  /**
   * tenant=, tenantId= or tenantName= in any case, then a value up to e: the value becomes
   * [TENANT_REDACTED] after the key as found.
   */
  lemma TenantQueryMatched(s: string, i: nat, suffix: string, e: nat)
    requires suffix == "" || suffix == "id" || suffix == "name"
    requires CiAt(s, i, "tenant") && CiAt(s, i + 6, suffix)
    requires var k := i + 6 + |suffix|;
             && k + 1 < e <= |s| && s[k] == '='
             && (forall j :: k + 1 <= j < e ==> IsQueryChar(s[j]))
             && (e == |s| || !IsQueryChar(s[e]))
    ensures TenantQueryAt(s, i) == Some(e)
    ensures var k := i + 6 + |suffix|;
            ScanFrom(s, i, TenantQueryAt, TenantQueryReplacement)
            == s[i..k] + "=[TENANT_REDACTED]" + ScanFrom(s, e, TenantQueryAt, TenantQueryReplacement)
  {
    var k := i + 6 + |suffix|;
    QueryValueMatched(s, k, e);
    QuerySuffixChoice(s, i, suffix);
    QueryKeyLetters(s, i, suffix);
    QueryReplacementOf(s, i, k, e);
    ScanMatch(s, i, e, TenantQueryAt, TenantQueryReplacement);
  }

  /** The key of the query rule, tenant with its suffix, is all letters. */
  lemma QueryKeyLetters(s: string, i: nat, suffix: string)
    requires suffix == "" || suffix == "id" || suffix == "name"
    requires CiAt(s, i, "tenant") && CiAt(s, i + 6, suffix)
    ensures forall j :: i <= j < i + 6 + |suffix| ==> IsAlpha(s[j])
  {
    CiLetters(s, i, "tenant");
    if suffix != "" {
      CiLetters(s, i + 6, suffix);
    }
  }

  /**
   * Every match of the query rule is tenant, optionally followed by id or name (in any
   * case), all letters, then '=' at k and the longest non-empty value after it.
   */
  lemma TenantQueryShape(s: string, i: nat) returns (k: nat)
    requires TenantQueryAt(s, i).Some?
    ensures var e := TenantQueryAt(s, i).value;
            && i + 6 <= k <= i + 10 && k + 1 < e <= |s| && s[k] == '=' && CiAt(s, i, "tenant")
            && (forall j :: i <= j < k ==> IsAlpha(s[j]))
            && e == RunEnd(s, k + 1, IsQueryChar)
  {
    CiLetters(s, i, "tenant");
    if CiAt(s, i + 6, "id") && QueryValueAt(s, i + 8).Some? {
      CiLetters(s, i + 6, "id");
      k := i + 8;
    } else if CiAt(s, i + 6, "name") && QueryValueAt(s, i + 10).Some? {
      CiLetters(s, i + 6, "name");
      k := i + 10;
    } else {
      k := i + 6;
    }
  }

  // ---------------------------------------------------------------------
  // Characters each pattern needs

  lemma OccursAtChar(s: string, i: nat, sub: string, j: nat)
    requires OccursAt(s, i, sub) && j < |sub|
    ensures s[i + j] == sub[j]
  {
    assert s[i..i + |sub|][j] == s[i + j];
  }

  /** Both e-mail patterns need an '@'. */
  lemma EmailNeedsAt(s: string, i: nat, tld: (string, nat) -> Option<nat>)
    requires forall j :: 0 <= j < |s| ==> s[j] != '@'
    ensures EmailShapeAt(s, i, tld).None?
  {
  }

  /** The `key='v'` patterns need a quote. */
  lemma QuotedFieldNeedsQuote(key: string, s: string, i: nat)
    requires forall j :: 0 <= j < |s| ==> s[j] != '\''
    ensures QuotedFieldAt(key, s, i).None?
  {
    if OccursAt(s, i, key + "='") {
      OccursAtChar(s, i, key + "='", |key| + 1);
    }
  }

  /** The JSON userName pattern needs a double quote. */
  lemma UserNameJsonNeedsQuote(s: string, i: nat)
    requires forall j :: 0 <= j < |s| ==> s[j] != '"'
    ensures UserNameJsonAt(s, i).None?
  {
    if OccursAt(s, i, "\"userName\"") {
      OccursAtChar(s, i, "\"userName\"", 0);
    }
  }

  /** The name pattern needs whitespace between the two words. */
  lemma FullNameNeedsSpace(s: string, i: nat)
    requires forall j :: 0 <= j < |s| ==> !IsSpace(s[j])
    ensures FullNameAt(s, i).None?
  {
  }

  /** The [user: v] pattern needs a colon. */
  lemma UserBracketNeedsColon(s: string, i: nat)
    requires forall j :: 0 <= j < |s| ==> s[j] != ':'
    ensures UserBracketAt(s, i).None?
  {
    if i < |s| && s[i] == '[' && CiAt(s, i + 1, "user:") {
      CiAtChar(s, i + 1, "user:", 4);
    }
  }

  /** The phone pattern needs digits. */
  lemma PhoneNeedsDigit(s: string, i: nat)
    requires forall j :: 0 <= j < |s| ==> !IsDigit(s[j])
    ensures PhoneAt(s, i).None?
  {
    if i < |s| && Boundary(s, i) {
      assert !IsDigit(s[i]);
    }
  }

  /** The bracketed-id pattern needs digits. */
  lemma BracketedIdNeedsDigit(s: string, i: nat)
    requires forall j :: 0 <= j < |s| ==> !IsDigit(s[j])
    ensures BracketedIdAt(s, i).None?
  {
  }

  /** The bracketed key pattern needs a ':' or '=' after its '['. */
  lemma BracketedKvNeedsSeparator(s: string, i: nat)
    requires forall j :: i < j < |s| ==> s[j] != ':' && s[j] != '='
    ensures BracketedKvAt(s, i).None?
  {
    if BracketedKvAt(s, i).Some? {
      BracketedKvShape(s, i);
    }
  }

  /** The value part of the key rule needs a ':' or '='. */
  lemma KvValueNeedsSeparator(s: string, k: nat, skip: bool)
    requires forall j :: 0 <= j < |s| ==> s[j] != ':' && s[j] != '='
    ensures KvValueAt(s, k, skip).None?
  {
  }

  lemma {:induction false} KvFromNeedsSeparator(s: string, i: nat, keys: seq<string>, skip: bool)
    requires forall j :: 0 <= j < |s| ==> s[j] != ':' && s[j] != '='
    ensures TenantKvFrom(s, i, keys, skip).None?
    decreases |keys|
  {
    if |keys| > 0 {
      KvValueNeedsSeparator(s, i + |keys[0]|, skip);
      KvFromNeedsSeparator(s, i, keys[1..], skip);
    }
  }

  /** The path rule needs a '/'. */
  lemma PathNeedsSlash(s: string, i: nat)
    requires forall j :: 0 <= j < |s| ==> s[j] != '/'
    ensures TenantPathAt(s, i).None?
  {
    if CiAt(s, i, "/tenants/") {
      CiAtChar(s, i, "/tenants/", 0);
    }
  }

  /** The query rule needs an '='. */
  lemma QueryNeedsEquals(s: string, i: nat)
    requires forall j :: 0 <= j < |s| ==> s[j] != '='
    ensures TenantQueryAt(s, i).None?
  {
  }

  // ---------------------------------------------------------------------
  // Text the chains leave alone

  /** Text without ':', '=' or '/', and without '[' or without digits: no tenant pattern can match. */
  ghost predicate TenantFree(s: string)
  {
    && (forall j :: 0 <= j < |s| ==> s[j] != ':' && s[j] != '=' && s[j] != '/')
    && ((forall j :: 0 <= j < |s| ==> s[j] != '[') || (forall j :: 0 <= j < |s| ==> !IsDigit(s[j])))
  }

  /** A character that none of the e-mail, user-name, name, [user:] and phone patterns can rely on. */
  predicate PiiFreeChar(c: char)
  {
    c != '@' && c != '\'' && c != '"' && c != ':' && !IsSpace(c) && !IsDigit(c)
  }

  ghost predicate PiiFree(s: string)
  {
    forall j :: 0 <= j < |s| ==> PiiFreeChar(s[j])
  }

  /** The tenant pass, with either key rule, leaves text without the characters its patterns need as it is. */
  lemma TenantFreeUnchanged(s: string, skip: bool)
    requires TenantFree(s)
    ensures ApplyRules(s, TenantRulesWith(skip)) == s
  {
    var rules := TenantRulesWith(skip);
    forall n, k | 0 <= n < |rules| && 0 <= k < |s|
      ensures MatchAt(rules[n].pattern, s, k).None?
    {
      if n == 0 {
        if !(forall j :: 0 <= j < |s| ==> s[j] != '[') {
          BracketedIdNeedsDigit(s, k);
        }
      } else if n == 1 {
        BracketedKvNeedsSeparator(s, k);
      } else if n == 2 {
        KvFromNeedsSeparator(s, k, TenantKeys, skip);
      } else if n == 3 {
        PathNeedsSlash(s, k);
      } else {
        QueryNeedsEquals(s, k);
      }
    }
    ApplyRulesNoMatch(s, rules);
  }

  /** None of the patterns between the tenant passes matches anywhere in such text. */
  lemma PiiFreeNoMatch(s: string, n: nat, k: nat)
    requires PiiFree(s) && n < |PiiRules|
    ensures MatchAt(PiiRules[n].pattern, s, k).None?
  {
    if n == 0 { EmailNeedsAt(s, k, TldAt); }
    else if n == 1 { QuotedFieldNeedsQuote("userName", s, k); }
    else if n == 2 { UserNameJsonNeedsQuote(s, k); }
    else if n == 3 { FullNameNeedsSpace(s, k); }
    else if n == 4 { QuotedFieldNeedsQuote("statusUpdaterName", s, k); }
    else if n == 5 { QuotedFieldNeedsQuote("userComment", s, k); }
    else if n == 6 { UserBracketNeedsColon(s, k); }
    else { PhoneNeedsDigit(s, k); }
  }

  /** The substitutions between the tenant passes leave such text as it is, also without the e-mail rule. */
  lemma PiiFreeUnchanged(s: string)
    requires PiiFree(s)
    ensures ApplyRules(s, PiiRules) == s
    ensures ApplyRules(s, PiiRules[1..]) == s
  {
    forall n, k | 0 <= n < |PiiRules| && 0 <= k < |s|
      ensures MatchAt(PiiRules[n].pattern, s, k).None?
    {
      PiiFreeNoMatch(s, n, k);
    }
    ApplyRulesNoMatch(s, PiiRules);
    var tail := PiiRules[1..];
    forall n, k | 0 <= n < |tail| && 0 <= k < |s|
      ensures MatchAt(tail[n].pattern, s, k).None?
    {
      assert tail[n] == PiiRules[n + 1];
      PiiFreeNoMatch(s, n + 1, k);
    }
    ApplyRulesNoMatch(s, tail);
  }

  // ---------------------------------------------------------------------
  // Whole messages

  /** The five tenant substitutions, one after another. */
  lemma TenantPassSteps(s: string, skip: bool)
    ensures var s1 := Sub(s, BracketedIdAt, Const("[TENANT_REDACTED]"));
            var s2 := Sub(s1, BracketedKvAt, Const("[TENANT_REDACTED]"));
            var s3 := Sub(s2, KeyRule(skip), TenantKvReplacement);
            var s4 := Sub(s3, TenantPathAt, TenantPathReplacement);
            ApplyRules(s, TenantRulesWith(skip)) == Sub(s4, TenantQueryAt, TenantQueryReplacement)
  {
    var r := TenantRulesWith(skip);
    var s1 := Sub(s, BracketedIdAt, Const("[TENANT_REDACTED]"));
    var s2 := Sub(s1, BracketedKvAt, Const("[TENANT_REDACTED]"));
    var s3 := Sub(s2, KeyRule(skip), TenantKvReplacement);
    var s4 := Sub(s3, TenantPathAt, TenantPathReplacement);
    var s5 := Sub(s4, TenantQueryAt, TenantQueryReplacement);
    assert ApplyRules(s, r) == ApplyRules(s1, r[1..]);
    assert ApplyRules(s1, r[1..]) == ApplyRules(s2, r[2..]) by { assert r[1..][0] == r[1] && r[1..][1..] == r[2..]; }
    assert ApplyRules(s2, r[2..]) == ApplyRules(s3, r[3..]) by { assert r[2..][0] == r[2] && r[2..][1..] == r[3..]; }
    assert ApplyRules(s3, r[3..]) == ApplyRules(s4, r[4..]) by { assert r[3..][0] == r[3] && r[3..][1..] == r[4..]; }
    assert ApplyRules(s4, r[4..]) == ApplyRules(s5, r[5..]) by { assert r[4..][0] == r[4] && r[4..][1..] == r[5..]; }
  }

  /** The e-mail placeholder holds none of the characters the two chains rely on. */
  lemma EmailPlaceholderInert()
    ensures PiiFree("[EMAIL_REDACTED]") && TenantFree("[EMAIL_REDACTED]")
  {
  }

  /** An address has no character the tenant patterns need. */
  lemma AddressTenantFree(s: string, a: nat, x: nat)
    requires EmailSpan(s, 0, a, x, |s|)
    ensures TenantFree(s) && !IsBlank(s)
  {
    assert !IsSpace(s[0]);
  }

  /** The e-mail rule turns a lone address into [EMAIL_REDACTED]. */
  lemma AddressEmailRule(s: string, a: nat, x: nat)
    requires EmailSpan(s, 0, a, x, |s|)
    ensures Sub(s, EmailAt, Const("[EMAIL_REDACTED]")) == "[EMAIL_REDACTED]"
  {
    EmailMatched(s, 0, a, x, |s|);
    assert ScanFrom(s, |s|, EmailAt, Const("[EMAIL_REDACTED]")) == "";
  }

  /** Text the e-mail rule turns into its placeholder comes out of the rest of the chain as that placeholder. */
  lemma EmailThenInert(s: string)
    requires Sub(s, EmailAt, Const("[EMAIL_REDACTED]")) == "[EMAIL_REDACTED]"
    ensures ApplyRules(s, PiiRules) == "[EMAIL_REDACTED]"
  {
    ApplyRulesHead(s, PiiRules);
    EmailPlaceholderInert();
    PiiFreeUnchanged("[EMAIL_REDACTED]");
  }

  /** An e-mail address that is the whole message becomes [EMAIL_REDACTED], in the pipeline as written and in the corrected one. */
  lemma AnonymizeAddress(s: string, a: nat, x: nat)
    requires EmailSpan(s, 0, a, x, |s|)
    ensures AnonymizeLogMessage(s) == "[EMAIL_REDACTED]"
    ensures CorrectedAnonymizeLogMessage(s) == "[EMAIL_REDACTED]"
  {
    AddressTenantFree(s, a, x);
    TenantFreeUnchanged(s, false);
    TenantFreeUnchanged(s, true);
    AddressEmailRule(s, a, x);
    EmailThenInert(s);
    EmailPlaceholderInert();
    TenantFreeUnchanged("[EMAIL_REDACTED]", false);
    TenantFreeUnchanged("[EMAIL_REDACTED]", true);
  }

  /** A value of the unquoted alternative that is not a placeholder already: non-empty, no quote first, no '['. */
  predicate PlainKvValue(v: string)
  {
    |v| > 0 && v[0] != '\'' && v[0] != '"' && forall j :: 0 <= j < |v| ==> IsKvValueChar(v[j]) && v[j] != '['
  }

  /** A key of the tenant patterns as spelled in a log is found under IGNORECASE and is made of letters. */
  lemma KeyText(w: string, tail: string)
    requires Lower(w) in TenantKeys
    ensures LowerWord(Lower(w)) && CiAt(w + tail, 0, Lower(w))
    ensures forall j :: 0 <= j < |w| ==> IsAlpha(w[j])
  {
    TenantKeysAreWords();
    var m := w + tail;
    assert m[0..|w|] == w;
    CiLetters(m, 0, Lower(w));
    forall j | 0 <= j < |w|
      ensures IsAlpha(w[j])
    {
      assert m[j] == w[j];
    }
  }

  /** The redacted token key=[TENANT_REDACTED] holds none of the characters the substitutions between the passes rely on. */
  lemma RedactedKeyPiiFree(w: string)
    requires forall j :: 0 <= j < |w| ==> IsAlpha(w[j])
    ensures PiiFree(w + "=[TENANT_REDACTED]")
  {
    var t := w + "=[TENANT_REDACTED]";
    forall j | 0 <= j < |t|
      ensures PiiFreeChar(t[j])
    {
      if j >= |w| {
        assert t[j] == "=[TENANT_REDACTED]"[j - |w|];
      }
    }
  }

  /** Text without '[' passes the two bracketed rules unchanged. */
  lemma NoBracketUnchanged(s: string)
    requires forall j :: 0 <= j < |s| ==> s[j] != '['
    ensures Sub(s, BracketedIdAt, Const("[TENANT_REDACTED]")) == s
    ensures Sub(s, BracketedKvAt, Const("[TENANT_REDACTED]")) == s
  {
    SubNoMatch(s, BracketedIdAt, Const("[TENANT_REDACTED]"));
    SubNoMatch(s, BracketedKvAt, Const("[TENANT_REDACTED]"));
  }

  /** A lone key=value is a span of the key rule; its value is not the placeholder. */
  lemma KvTokenSpan(w: string, v: string)
    requires Lower(w) in TenantKeys && PlainKvValue(v)
    ensures KeyValueSpan(w + "=" + v, 0, Lower(w), |w|, |w| + 1, |w + "=" + v|)
    ensures |Lower(w)| == |w| && (w + "=" + v)[..|w|] == w
    ensures !OccursAt(w + "=" + v, |w| + 1, "[TENANT_REDACTED]")
  {
    var m := w + "=" + v;
    var K := |w|;
    KeyText(w, "=" + v);
    assert m[K] == '=' && m[K + 1] == v[0];
    assert forall j :: K < j < |m| ==> m[j] == v[j - K - 1];
    if OccursAt(m, K + 1, "[TENANT_REDACTED]") {
      OccursAtChar(m, K + 1, "[TENANT_REDACTED]", 0);
    }
  }

  /** The key rule, either one, takes a lone key=value whole and keeps the key. */
  lemma KvTokenKeyRule(w: string, v: string, skip: bool)
    requires Lower(w) in TenantKeys && PlainKvValue(v)
    ensures Sub(w + "=" + v, KeyRule(skip), TenantKvReplacement) == w + "=[TENANT_REDACTED]"
  {
    var m := w + "=" + v;
    KvTokenSpan(w, v);
    KeyRuleMatched(m, 0, Lower(w), |w|, |w| + 1, |m|, skip);
    assert ScanFrom(m, |m|, KeyRule(skip), TenantKvReplacement) == "";
  }

  /** After the key rule, the path and query rules leave key=[TENANT_REDACTED] as it is. */
  lemma RedactedKeyPathQuery(w: string)
    requires forall j :: 0 <= j < |w| ==> IsAlpha(w[j])
    ensures Sub(w + "=[TENANT_REDACTED]", TenantPathAt, TenantPathReplacement) == w + "=[TENANT_REDACTED]"
    ensures Sub(w + "=[TENANT_REDACTED]", TenantQueryAt, TenantQueryReplacement) == w + "=[TENANT_REDACTED]"
  {
    var t := w + "=[TENANT_REDACTED]";
    var K := |w|;
    assert OccursAt(t, K, "=[TENANT_REDACTED]") by {
      assert t[K..K + 18] == "=[TENANT_REDACTED]";
    }
    PlaceholderShape(t, K);
    forall j | 0 <= j < |t|
      ensures MatchAt(TenantPathAt, t, j).None?
    {
      PathNeedsSlash(t, j);
    }
    SubNoMatch(t, TenantPathAt, TenantPathReplacement);
    QueryKeepsRedacted(t, K, 0);
  }

  /** The first tenant pass on a lone key=value: the key rule takes it whole, with either key rule. */
  lemma KvTokenFirstPass(w: string, v: string, skip: bool)
    requires Lower(w) in TenantKeys && PlainKvValue(v)
    ensures ApplyRules(w + "=" + v, TenantRulesWith(skip)) == w + "=[TENANT_REDACTED]"
  {
    var m := w + "=" + v;
    KeyText(w, "=" + v);
    assert forall j :: |w| < j < |m| ==> m[j] == v[j - |w| - 1];
    NoBracketUnchanged(m);
    KvTokenKeyRule(w, v, skip);
    RedactedKeyPathQuery(w);
    TenantPassSteps(m, skip);
  }

  /** The characters of "=[TENANT_REDACTED]" by kind. */
  lemma PlaceholderShape(s: string, K: nat)
    requires OccursAt(s, K, "=[TENANT_REDACTED]")
    ensures s[K] == '=' && s[K + 1] == '[' && s[K + 17] == ']'
    ensures forall j :: K + 2 <= j < K + 17 ==> IsUpper(s[j]) || s[j] == '_'
  {
    forall j | K + 2 <= j < K + 17
      ensures IsUpper(s[j]) || s[j] == '_'
    {
      assert s[j] == "=[TENANT_REDACTED]"[j - K];
    }
  }

  /** A match of the query rule in such text runs to the end and gives back what it took. */
  lemma QueryRestoresRedacted(s: string, K: nat, i: nat)
    requires K + 18 == |s| && OccursAt(s, K, "=[TENANT_REDACTED]") && i < |s|
    requires forall j :: 0 <= j < K ==> s[j] != '='
    requires MatchAt(TenantQueryAt, s, i).Some?
    ensures ScanFrom(s, i, TenantQueryAt, TenantQueryReplacement) == s[i..]
  {
    var k := TenantQueryShape(s, i);
    PlaceholderShape(s, K);
    assert k == K;
    RunEndIs(s, K + 1, |s|, IsQueryChar);
    QueryReplacementOf(s, i, K, |s|);
    ScanMatch(s, i, |s|, TenantQueryAt, TenantQueryReplacement);
    assert s[K..] == "=[TENANT_REDACTED]";
    assert s[i..] == s[i..K] + s[K..];
  }

  /**
   * In text whose only '=' is that of a final "=[TENANT_REDACTED]", each match of the query
   * rule runs to the end and puts back what it took: the rule leaves the text as it is.
   */
  lemma {:induction false} QueryKeepsRedacted(s: string, K: nat, i: nat)
    requires K + 18 == |s| && OccursAt(s, K, "=[TENANT_REDACTED]") && i <= |s|
    requires forall j :: 0 <= j < K ==> s[j] != '='
    ensures ScanFrom(s, i, TenantQueryAt, TenantQueryReplacement) == s[i..]
    decreases |s| - i
  {
    if i < |s| {
      if MatchAt(TenantQueryAt, s, i).Some? {
        QueryRestoresRedacted(s, K, i);
      } else {
        ScanCopy(s, i, TenantQueryAt, TenantQueryReplacement);
        QueryKeepsRedacted(s, K, i + 1);
        assert s[i..] == [s[i]] + s[i + 1..];
      }
    }
  }

  /** Of the keys only tenant, tenantId and tenantName start with "tenant"; the others hold no "te" at all. */
  lemma KeyFamilies(kw: string)
    requires kw in TenantKeys
    ensures StartsWith(kw, "tenant") ==> kw == "tenant" || kw == "tenantid" || kw == "tenantname"
    ensures !StartsWith(kw, "tenant") ==> forall j :: 0 <= j < |kw| - 1 ==> !(kw[j] == 't' && kw[j + 1] == 'e')
  {
    if StartsWith(kw, "tenant") {
      assert kw[0] == kw[..6][0] == 't';
    }
  }

  /** key=[TENANT_REDACTED] as written text. */
  lemma RedactedKeyToken(w: string)
    ensures OccursAt(w + "=[TENANT_REDACTED]", |w|, "=[TENANT_REDACTED]")
    ensures OccursAt(w + "=[TENANT_REDACTED]]", |w|, "=[TENANT_REDACTED]]")
    ensures OccursAt(w + "=[TENANT_REDACTED]]", |w|, "=[TENANT_REDACTED]")
  {
    assert (w + "=[TENANT_REDACTED]")[|w|..] == "=[TENANT_REDACTED]";
    assert (w + "=[TENANT_REDACTED]]")[|w|..] == "=[TENANT_REDACTED]]";
    assert (w + "=[TENANT_REDACTED]]")[|w|..|w| + 18] == "=[TENANT_REDACTED]";
  }

  /** The bracketed rules find nothing in key=[TENANT_REDACTED]: it has no digit, and no ':' or '=' after its '['. */
  lemma RedactedKeyBrackets(w: string)
    requires forall j :: 0 <= j < |w| ==> IsAlpha(w[j])
    ensures Sub(w + "=[TENANT_REDACTED]", BracketedIdAt, Const("[TENANT_REDACTED]")) == w + "=[TENANT_REDACTED]"
    ensures Sub(w + "=[TENANT_REDACTED]", BracketedKvAt, Const("[TENANT_REDACTED]")) == w + "=[TENANT_REDACTED]"
  {
    var t := w + "=[TENANT_REDACTED]";
    var K := |w|;
    RedactedKeyToken(w);
    PlaceholderShape(t, K);
    forall j | 0 <= j < |t|
      ensures MatchAt(BracketedIdAt, t, j).None? && MatchAt(BracketedKvAt, t, j).None?
    {
      BracketedIdNeedsDigit(t, j);
      if j == K + 1 {
        BracketedKvNeedsSeparator(t, j);
      }
    }
    SubNoMatch(t, BracketedIdAt, Const("[TENANT_REDACTED]"));
    SubNoMatch(t, BracketedKvAt, Const("[TENANT_REDACTED]"));
  }

  /** As written, the key rule matches key=[TENANT_REDACTED] again and leaves one ']' too many. */
  lemma RedactedKeyStray(w: string)
    requires Lower(w) in TenantKeys
    ensures Sub(w + "=[TENANT_REDACTED]", TenantKvAt, TenantKvReplacement) == w + "=[TENANT_REDACTED]]"
  {
    var t := w + "=[TENANT_REDACTED]";
    KeyText(w, "=[TENANT_REDACTED]");
    RedactedKeyToken(w);
    KvPassOnPlaceholder(t, 0, Lower(w));
    assert t[0..|w|] == w;
    assert ScanFrom(t, |t|, TenantKvAt, TenantKvReplacement) == "";
  }

  /** The corrected key rule leaves key=[TENANT_REDACTED] as it is. */
  lemma RedactedKeyKept(w: string)
    requires Lower(w) in TenantKeys
    ensures Sub(w + "=[TENANT_REDACTED]", TenantKvUnredactedAt, TenantKvReplacement) == w + "=[TENANT_REDACTED]"
  {
    var t := w + "=[TENANT_REDACTED]";
    KeyText(w, "=[TENANT_REDACTED]");
    RedactedKeyToken(w);
    UnredactedPassKeepsPlaceholder(t, 0, Lower(w));
    assert ScanFrom(t, |t|, TenantKvUnredactedAt, TenantKvReplacement) == "";
  }

  /** The path rule finds nothing in key=[TENANT_REDACTED]]. */
  lemma StrayNoPath(w: string)
    requires forall j :: 0 <= j < |w| ==> IsAlpha(w[j])
    ensures Sub(w + "=[TENANT_REDACTED]]", TenantPathAt, TenantPathReplacement) == w + "=[TENANT_REDACTED]]"
  {
    var t := w + "=[TENANT_REDACTED]]";
    RedactedKeyToken(w);
    PlaceholderShape(t, |w|);
    forall j | 0 <= j < |t|
      ensures MatchAt(TenantPathAt, t, j).None?
    {
      PathNeedsSlash(t, j);
    }
    SubNoMatch(t, TenantPathAt, TenantPathReplacement);
  }

  /** The second tenant pass as written: the query rule gets key=[TENANT_REDACTED]]. */
  lemma RedactedKeySecondPass(w: string)
    requires Lower(w) in TenantKeys
    ensures ApplyRules(w + "=[TENANT_REDACTED]", TenantRules)
            == Sub(w + "=[TENANT_REDACTED]]", TenantQueryAt, TenantQueryReplacement)
  {
    KeyText(w, "");
    RedactedKeyBrackets(w);
    RedactedKeyStray(w);
    StrayNoPath(w);
    TenantPassSteps(w + "=[TENANT_REDACTED]", false);
  }

  /** The second tenant pass of the corrected chain leaves key=[TENANT_REDACTED] as it is, whatever the key. */
  lemma CorrectedRedactedKeySecondPass(w: string)
    requires Lower(w) in TenantKeys
    ensures ApplyRules(w + "=[TENANT_REDACTED]", CorrectedTenantRules) == w + "=[TENANT_REDACTED]"
  {
    KeyText(w, "");
    RedactedKeyBrackets(w);
    RedactedKeyKept(w);
    RedactedKeyPathQuery(w);
    TenantPassSteps(w + "=[TENANT_REDACTED]", true);
  }

  lemma LowerWindow(w: string, tail: string, j: nat, n: nat)
    requires j + n <= |w|
    ensures Lower((w + tail)[j..j + n]) == Lower(w)[j..j + n]
  {
    assert (w + tail)[j..j + n] == w[j..j + n];
  }

  /** For the tenant, tenantId and tenantName keys the query rule puts the single placeholder back. */
  lemma StrayQueryTenant(w: string, suffix: string)
    requires suffix == "" || suffix == "id" || suffix == "name"
    requires Lower(w) == "tenant" + suffix
    ensures Sub(w + "=[TENANT_REDACTED]]", TenantQueryAt, TenantQueryReplacement) == w + "=[TENANT_REDACTED]"
  {
    var t := w + "=[TENANT_REDACTED]]";
    var K := |w|;
    LowerWindow(w, "=[TENANT_REDACTED]]", 0, 6);
    LowerWindow(w, "=[TENANT_REDACTED]]", 6, |suffix|);
    assert Lower(w)[0..6] == "tenant" && Lower(w)[6..K] == suffix;
    RedactedKeyToken(w);
    QueryPassOnPlaceholder(t, 0, suffix);
    assert t[0..K] == w;
    assert ScanFrom(t, |t|, TenantQueryAt, TenantQueryReplacement) == "";
  }

  /** A window of six characters inside the key of another family is not "tenant" in any case. */
  lemma StrayNoTenantInKey(w: string, j: nat)
    requires Lower(w) in TenantKeys && !StartsWith(Lower(w), "tenant") && j + 6 <= |w|
    ensures !CiAt(w + "=[TENANT_REDACTED]]", j, "tenant")
  {
    KeyFamilies(Lower(w));
    LowerWindow(w, "=[TENANT_REDACTED]]", j, 6);
    assert Lower(w)[j..j + 6][0] == Lower(w)[j] && Lower(w)[j..j + 6][1] == Lower(w)[j + 1];
  }

  /** A window of six characters over the '=' is not "tenant" in any case. */
  lemma NoTenantOverEquals(t: string, j: nat, K: nat)
    requires j <= K < j + 6 <= |t| && t[K] == '='
    ensures !CiAt(t, j, "tenant")
  {
    assert Lower(t[j..j + 6])[K - j] == '=';
  }

  /** For every other key the query rule finds nothing in key=[TENANT_REDACTED]]. */
  lemma StrayNoQueryAt(w: string, j: nat)
    requires Lower(w) in TenantKeys && !StartsWith(Lower(w), "tenant")
    ensures TenantQueryAt(w + "=[TENANT_REDACTED]]", j) == None
  {
    var t := w + "=[TENANT_REDACTED]]";
    var K := |w|;
    RedactedKeyToken(w);
    PlaceholderShape(t, K);
    if j + 6 <= K {
      StrayNoTenantInKey(w, j);
    } else if j <= K {
      NoTenantOverEquals(t, j, K);
    }
  }

  lemma StrayQueryOther(w: string)
    requires Lower(w) in TenantKeys && !StartsWith(Lower(w), "tenant")
    ensures Sub(w + "=[TENANT_REDACTED]]", TenantQueryAt, TenantQueryReplacement) == w + "=[TENANT_REDACTED]]"
  {
    var t := w + "=[TENANT_REDACTED]]";
    forall j | 0 <= j < |t|
      ensures MatchAt(TenantQueryAt, t, j).None?
    {
      StrayNoQueryAt(w, j);
    }
    SubNoMatch(t, TenantQueryAt, TenantQueryReplacement);
  }

  /** anonymize_log_message on a message whose first tenant pass gives text t that the substitutions between the passes leave alone. */
  lemma AnonymizeStages(m: string, t: string)
    requires !IsBlank(m) && |t| > 0 && ApplyRules(m, TenantRules) == t && PiiFree(t)
    ensures AnonymizeLogMessage(m) == ApplyRules(t, TenantRules)
  {
    PiiFreeUnchanged(t);
  }

  /** The same for the corrected pipeline. */
  lemma CorrectedAnonymizeStages(m: string, t: string)
    requires !IsBlank(m) && |t| > 0 && ApplyRules(m, CorrectedTenantRules) == t && PiiFree(t)
    ensures CorrectedAnonymizeLogMessage(m) == ApplyRules(t, CorrectedTenantRules)
  {
    PiiFreeUnchanged(t);
  }

  /** For the keys of the tenant family the query rule repairs the stray bracket. */
  lemma StrayQuery(w: string)
    requires Lower(w) in TenantKeys
    ensures StartsWith(Lower(w), "tenant")
            ==> Sub(w + "=[TENANT_REDACTED]]", TenantQueryAt, TenantQueryReplacement) == w + "=[TENANT_REDACTED]"
    ensures !StartsWith(Lower(w), "tenant")
            ==> Sub(w + "=[TENANT_REDACTED]]", TenantQueryAt, TenantQueryReplacement) == w + "=[TENANT_REDACTED]]"
  {
    KeyFamilies(Lower(w));
    if StartsWith(Lower(w), "tenant") {
      StrayQueryTenant(w, Lower(w)[6..]);
    } else {
      StrayQueryOther(w);
    }
  }

  /**
   * A lone key=value through anonymize_log_message as written: for the tenant, tenantId
   * and tenantName keys the query rule repairs what the second pass did, and the result is
   * key=[TENANT_REDACTED]; for every other key it is key=[TENANT_REDACTED]].
   */
  lemma AnonymizeKvToken(w: string, v: string)
    requires Lower(w) in TenantKeys && PlainKvValue(v)
    ensures StartsWith(Lower(w), "tenant") ==> AnonymizeLogMessage(w + "=" + v) == w + "=[TENANT_REDACTED]"
    ensures !StartsWith(Lower(w), "tenant") ==> AnonymizeLogMessage(w + "=" + v) == w + "=[TENANT_REDACTED]]"
  {
    var m := w + "=" + v;
    var t := w + "=[TENANT_REDACTED]";
    KeyText(w, "=" + v);
    assert !IsSpace(m[|w|]);
    KvTokenFirstPass(w, v, false);
    RedactedKeyPiiFree(w);
    AnonymizeStages(m, t);
    RedactedKeySecondPass(w);
    StrayQuery(w);
  }

  /** A lone key=value through the corrected pipeline comes out as key=[TENANT_REDACTED], whatever the key. */
  lemma CorrectedAnonymizeKvToken(w: string, v: string)
    requires Lower(w) in TenantKeys && PlainKvValue(v)
    ensures CorrectedAnonymizeLogMessage(w + "=" + v) == w + "=[TENANT_REDACTED]"
  {
    var m := w + "=" + v;
    var t := w + "=[TENANT_REDACTED]";
    KeyText(w, "=" + v);
    assert !IsSpace(m[|w|]);
    KvTokenFirstPass(w, v, true);
    RedactedKeyPiiFree(w);
    CorrectedAnonymizeStages(m, t);
    CorrectedRedactedKeySecondPass(w);
  }

  /**
   * `_redact_tenant_like_values` on a lone key=value gives key=[TENANT_REDACTED]; run again
   * on that, as written it adds a stray ']' for every key outside the tenant family, and the
   * corrected rule leaves it as it is.
   */
  lemma RedactKvToken(w: string, v: string)
    requires Lower(w) in TenantKeys && PlainKvValue(v)
    ensures RedactTenantLikeValues(w + "=" + v) == w + "=[TENANT_REDACTED]"
    ensures CorrectedRedactTenantLikeValues(w + "=" + v) == w + "=[TENANT_REDACTED]"
    ensures StartsWith(Lower(w), "tenant") ==> RedactTenantLikeValues(w + "=[TENANT_REDACTED]") == w + "=[TENANT_REDACTED]"
    ensures !StartsWith(Lower(w), "tenant") ==> RedactTenantLikeValues(w + "=[TENANT_REDACTED]") == w + "=[TENANT_REDACTED]]"
    ensures CorrectedRedactTenantLikeValues(w + "=[TENANT_REDACTED]") == w + "=[TENANT_REDACTED]"
  {
    KvTokenFirstPass(w, v, false);
    KvTokenFirstPass(w, v, true);
    RedactedKeySecondPass(w);
    StrayQuery(w);
    CorrectedRedactedKeySecondPass(w);
  }

  /** A path segment the path rule takes whole and no other tenant rule can use. */
  predicate PathValue(q: string)
  {
    |q| > 0 && forall j :: 0 <= j < |q| ==> IsPathChar(q[j]) && q[j] != ':' && q[j] != '='
  }

  /** /tenants/ in any case is nine characters, each '/' or a letter. */
  lemma PathPrefixChars(w: string)
    requires Lower(w) == "/tenants/"
    ensures |w| == 9 && forall j :: 0 <= j < 9 ==> w[j] == '/' || IsAlpha(w[j])
  {
    forall j | 0 <= j < 9
      ensures w[j] == '/' || IsAlpha(w[j])
    {
      assert Lower(w)[j] == LowerChar(w[j]);
    }
  }

  /** The bracketed and key rules find nothing in /tenants/ followed by a path value without '[' or without digits. */
  lemma PathTokenNoBracketOrKey(w: string, q: string, skip: bool)
    requires Lower(w) == "/tenants/" && PathValue(q)
    requires (forall j :: 0 <= j < |q| ==> q[j] != '[') || (forall j :: 0 <= j < |q| ==> !IsDigit(q[j]))
    ensures Sub(w + q, BracketedIdAt, Const("[TENANT_REDACTED]")) == w + q
    ensures Sub(w + q, BracketedKvAt, Const("[TENANT_REDACTED]")) == w + q
    ensures Sub(w + q, KeyRule(skip), TenantKvReplacement) == w + q
  {
    var m := w + q;
    PathPrefixChars(w);
    assert forall j :: 9 <= j < |m| ==> m[j] == q[j - 9];
    forall k | 0 <= k < |m|
      ensures MatchAt(BracketedIdAt, m, k).None? && MatchAt(BracketedKvAt, m, k).None?
      ensures MatchAt(KeyRule(skip), m, k).None?
    {
      if !(forall j :: 0 <= j < |m| ==> m[j] != '[') {
        BracketedIdNeedsDigit(m, k);
      }
      BracketedKvNeedsSeparator(m, k);
      KvFromNeedsSeparator(m, k, TenantKeys, skip);
    }
    SubNoMatch(m, BracketedIdAt, Const("[TENANT_REDACTED]"));
    SubNoMatch(m, BracketedKvAt, Const("[TENANT_REDACTED]"));
    SubNoMatch(m, KeyRule(skip), TenantKvReplacement);
  }

  /** The path rule replaces the value after /tenants/, and the query rule finds no '=' after it. */
  lemma PathTokenPathQuery(w: string, q: string)
    requires Lower(w) == "/tenants/" && PathValue(q)
    ensures Sub(w + q, TenantPathAt, TenantPathReplacement) == w + "[TENANT_REDACTED]"
    ensures Sub(w + "[TENANT_REDACTED]", TenantQueryAt, TenantQueryReplacement) == w + "[TENANT_REDACTED]"
  {
    var m := w + q;
    var t := w + "[TENANT_REDACTED]";
    PathPrefixChars(w);
    assert m[0..9] == w;
    assert forall j :: 9 <= j < |m| ==> m[j] == q[j - 9];
    TenantPathMatched(m, 0, |m|);
    assert ScanFrom(m, |m|, TenantPathAt, TenantPathReplacement) == "";
    assert forall j :: 9 <= j < |t| ==> t[j] == "[TENANT_REDACTED]"[j - 9];
    forall k | 0 <= k < |t|
      ensures MatchAt(TenantQueryAt, t, k).None?
    {
      QueryNeedsEquals(t, k);
    }
    SubNoMatch(t, TenantQueryAt, TenantQueryReplacement);
  }

  /** One tenant pass, with either key rule, over /tenants/ and a path value: the value is redacted. */
  lemma PathTokenPass(w: string, q: string, skip: bool)
    requires Lower(w) == "/tenants/" && PathValue(q)
    requires (forall j :: 0 <= j < |q| ==> q[j] != '[') || (forall j :: 0 <= j < |q| ==> !IsDigit(q[j]))
    ensures ApplyRules(w + q, TenantRulesWith(skip)) == w + "[TENANT_REDACTED]"
  {
    PathTokenNoBracketOrKey(w, q, skip);
    PathTokenPathQuery(w, q);
    TenantPassSteps(w + q, skip);
  }

  /** The placeholder is itself a path value, without digits. */
  lemma PlaceholderPathValue()
    ensures PathValue("[TENANT_REDACTED]") && forall j :: 0 <= j < 17 ==> !IsDigit("[TENANT_REDACTED]"[j])
  {
  }

  /** /tenants/[TENANT_REDACTED] holds nothing the substitutions between the passes need. */
  lemma RedactedPathPiiFree(w: string)
    requires Lower(w) == "/tenants/"
    ensures PiiFree(w + "[TENANT_REDACTED]")
  {
    PathPrefixChars(w);
    var t := w + "[TENANT_REDACTED]";
    forall j | 0 <= j < |t|
      ensures PiiFreeChar(t[j])
    {
      if j >= 9 {
        assert t[j] == "[TENANT_REDACTED]"[j - 9];
      } else {
        assert t[j] == w[j];
      }
    }
  }

  /** The two passes of the tenant rules over /tenants/ and a path value. */
  lemma TenantPathPasses(w: string, q: string, skip: bool)
    requires Lower(w) == "/tenants/" && PathValue(q)
    requires forall j :: 0 <= j < |q| ==> q[j] != '['
    ensures !IsBlank(w + q) && PiiFree(w + "[TENANT_REDACTED]")
    ensures ApplyRules(w + q, TenantRulesWith(skip)) == w + "[TENANT_REDACTED]"
    ensures ApplyRules(w + "[TENANT_REDACTED]", TenantRulesWith(skip)) == w + "[TENANT_REDACTED]"
  {
    PathPrefixChars(w);
    assert (w + q)[0] == w[0];
    PathTokenPass(w, q, skip);
    RedactedPathPiiFree(w);
    PlaceholderPathValue();
    PathTokenPass(w, "[TENANT_REDACTED]", skip);
  }

  /**
   * /tenants/ followed by a path value, as the whole message, comes out as
   * /tenants/[TENANT_REDACTED] in the pipeline as written and in the corrected one: the
   * second pass matches the placeholder as a path value and writes it again.
   */
  lemma AnonymizeTenantPath(w: string, q: string)
    requires Lower(w) == "/tenants/" && PathValue(q)
    requires forall j :: 0 <= j < |q| ==> q[j] != '['
    ensures AnonymizeLogMessage(w + q) == w + "[TENANT_REDACTED]"
    ensures CorrectedAnonymizeLogMessage(w + q) == w + "[TENANT_REDACTED]"
  {
    var t := w + "[TENANT_REDACTED]";
    TenantPathPasses(w, q, false);
    AnonymizeStages(w + q, t);
    TenantPathPasses(w, q, true);
    CorrectedAnonymizeStages(w + q, t);
  }

  /** `_redact_tenant_like_values` on /tenants/ and a path value gives /tenants/[TENANT_REDACTED], as written and corrected. */
  lemma RedactTenantPath(w: string, q: string)
    requires Lower(w) == "/tenants/" && PathValue(q)
    requires forall j :: 0 <= j < |q| ==> q[j] != '['
    ensures RedactTenantLikeValues(w + q) == w + "[TENANT_REDACTED]"
    ensures CorrectedRedactTenantLikeValues(w + q) == w + "[TENANT_REDACTED]"
  {
    TenantPathPasses(w, q, false);
    TenantPathPasses(w, q, true);
  }
}
