// Error signatures of src/prod_monitoring/csv_helper.py: `_extract_error_signature`
// with its nested `_normalize_first_error_line`, and `_extract_error_location`.
// The searches are re.search: the leftmost position at which the pattern matches,
// with each pattern's backtracking worked out in the comment above its matcher.
module Signature {
  import opened Wrappers
  import opened Text
  import opened Rewrite
  import opened Normalizer
  import opened Seqs

  /** The (error_type, location, signature) triple the extractor returns. */
  datatype ErrorSignature = ErrorSignature(errorType: string, location: string, signature: string)

  /** m matches at i and at no earlier position: where re.search reports its match. */
  ghost predicate FirstAt<T>(m: (string, nat) -> Option<T>, s: string, i: nat)
  {
    i <= |s| && m(s, i).Some? && forall k :: 0 <= k < i ==> m(s, k).None?
  }

  /** Search finds exactly the first match. */
  lemma SearchIsFirst<T>(s: string, m: (string, nat) -> Option<T>)
    ensures Search(s, m).Some? ==> FirstAt(m, s, Search(s, m).value.0)
    ensures Search(s, m).None? <==> forall i :: 0 <= i <= |s| ==> m(s, i).None?
  {
  }

  predicate NotNewline(c: char) { c != '\n' }
  predicate IsDot(c: char) { c == '.' }
  predicate WordOrDot(c: char) { IsWord(c) || c == '.' }

  /**
   * The tail \s{min,}(.+?)(?:\n|$) of a pattern, tried at c; the span of its lazy group.
   * The greedy \s stops at the first non-space; if one is left, the group is the rest of
   * its line. If the whitespace runs to the end, \s gives back characters until the
   * group can start at one that is not a newline, which is then the whole group.
   */
  function LineTail(s: string, c: nat, min: nat): (r: Option<(nat, nat)>)
    requires c <= |s|
  {
    var p := RunEnd(s, c, IsSpace);
    if p < c + min then None
    else if p < |s| then Some((p, RunEnd(s, p, NotNewline)))
    else match LastWhere(s, c + min, |s|, NotNewline)
      case Some(q) => Some((q, q + 1))
      case None => None
  }

  /**
   * The match: after at least min whitespace characters, a non-empty group without a
   * newline that ends at a newline or at the end of the text.
   */
  lemma LineTailSome(s: string, c: nat, min: nat)
    requires c <= |s| && LineTail(s, c, min).Some?
    ensures var (a, b) := LineTail(s, c, min).value;
            && c + min <= a < b <= |s| && (forall k :: c <= k < a ==> IsSpace(s[k]))
            && (forall k :: a <= k < b ==> s[k] != '\n') && (b == |s| || s[b] == '\n')
  {
  }

  /** When the tail fails, every start the whitespace run allows is a newline. */
  lemma LineTailNone(s: string, c: nat, min: nat)
    requires c <= |s| && LineTail(s, c, min).None?
    ensures forall p :: c + min <= p < |s| && (forall k :: c <= k < p ==> IsSpace(s[k])) ==> s[p] == '\n'
  {
  }

  // ---------------------------------------------------------------------
  // The exception pattern (java\.lang\.\w+Exception|PKG\S+Exception|\w+Exception):\s*(.+?)(?:\n|$)

  /** The two groups of a match of the exception pattern. */
  datatype ExceptionMatch = ExceptionMatch(name: string, text: string)

  const WfoPackage: string := "com.nice.saas.wfo."
  const SaasPackage: string := "com.nice.saas."

  /** After a name ending at k: the colon, then the tail. */
  predicate ColonTail(s: string, k: nat)
  {
    k < |s| && s[k] == ':' && LineTail(s, k + 1, 0).Some?
  }

  /** The part after a name that ends at k: the colon and the tail. */
  function AfterName(s: string, i: nat, k: nat): (r: Option<ExceptionMatch>)
    requires i <= k <= |s|
    ensures r.Some? <==> ColonTail(s, k)
    ensures r.Some? ==> r.value.name == s[i..k] && k < |s| && s[k] == ':'
    ensures r.Some? ==> |r.value.text| > 0 && '\n' !in r.value.text
  {
    if ColonTail(s, k) then
      var (a, b) := LineTail(s, k + 1, 0).value;
      LineTailSome(s, k + 1, 0);
      assert forall j :: 0 <= j < b - a ==> s[a..b][j] == s[a + j];
      Some(ExceptionMatch(s[i..k], s[a..b]))
    else None
  }

  /** java\.lang\.\w+Exception: "Exception" is all word characters and ':' is not, so the greedy run must end right after it. */
  function JavaLangAt(s: string, i: nat): (r: Option<ExceptionMatch>)
    requires i <= |s|
    ensures r.Some? ==> i + |r.value.name| < |s|
  {
    if i + 10 <= |s| && OccursAt(s, i, "java.lang.") then
      var k := RunEnd(s, i + 10, IsWord);
      if k >= i + 20 && OccursAt(s, k - 9, "Exception") then AfterName(s, i, k) else None
    else None
  }

  /** PKG\S+Exception: the greedy \S+ gives characters back until "Exception:" and the tail fit. */
  function PackagedAt(pkg: string, s: string, i: nat): (r: Option<ExceptionMatch>)
    requires i <= |s|
    ensures r.Some? ==> i + |r.value.name| < |s|
  {
    if OccursAt(s, i, pkg) then
      var a := i + |pkg|;
      match PackagedEnd(s, i, a, RunEnd(s, a, NonSpace))
      case Some(k) => AfterName(s, i, k)
      case None => None
    else None
  }

  /**
   * The candidates x in (a, hi), largest first, where "Exception" would start: the end
   * of the name at the first one followed by the colon and the tail.
   */
  function PackagedEnd(s: string, i: nat, a: nat, hi: nat): (k: Option<nat>)
    requires i <= a <= hi <= |s|
    ensures k.Some? ==> a + 10 <= k.value <= |s|
    decreases hi
  {
    if hi <= a + 1 then None
    else if hi + 8 <= |s| && OccursAt(s, hi - 1, "Exception") && ColonTail(s, hi + 8) then Some(hi + 8)
    else PackagedEnd(s, i, a, hi - 1)
  }

  /** \w+Exception: as with java.lang, the greedy word run must end with "Exception". */
  function WordExceptionAt(s: string, i: nat): (r: Option<ExceptionMatch>)
    requires i <= |s|
    ensures r.Some? ==> i + |r.value.name| < |s|
  {
    var k := RunEnd(s, i, IsWord);
    if k >= i + 10 && OccursAt(s, k - 9, "Exception") then AfterName(s, i, k) else None
  }

  /** The exception pattern at i, its alternatives tried in order. */
  function ExceptionAt(pkg: string, s: string, i: nat): (r: Option<ExceptionMatch>)
    ensures r.Some? ==> i + |r.value.name| < |s|
  {
    if i > |s| then None
    else
      var j := JavaLangAt(s, i);
      if j.Some? then j
      else
        var p := PackagedAt(pkg, s, i);
        if p.Some? then p else WordExceptionAt(s, i)
  }

  function WfoExceptionAt(s: string, i: nat): Option<ExceptionMatch> { ExceptionAt(WfoPackage, s, i) }
  function SaasExceptionAt(s: string, i: nat): Option<ExceptionMatch> { ExceptionAt(SaasPackage, s, i) }

  /** x is a match at i whose name ends with "Exception", then a colon, with a non-empty one-line text. */
  predicate NameShaped(s: string, i: nat, x: ExceptionMatch)
  {
    && i + |x.name| < |s| && EndsWith(x.name, "Exception") && s[i..i + |x.name|] == x.name
    && s[i + |x.name|] == ':' && |x.text| > 0 && '\n' !in x.text
  }

  /** The exception pattern's match ends its name with "Exception", then a colon; its text is one non-empty line. */
  lemma ExceptionMatchShape(pkg: string, s: string, i: nat)
    requires ExceptionAt(pkg, s, i).Some?
    ensures NameShaped(s, i, ExceptionAt(pkg, s, i).value)
  {
    if JavaLangAt(s, i).Some? {
      JavaLangShape(s, i);
    } else if PackagedAt(pkg, s, i).Some? {
      PackagedShape(pkg, s, i);
    } else {
      WordExceptionShape(s, i);
    }
  }

  lemma JavaLangShape(s: string, i: nat)
    requires i <= |s| && JavaLangAt(s, i).Some?
    ensures NameShaped(s, i, JavaLangAt(s, i).value)
  {
    NameShape(s, i, RunEnd(s, i + 10, IsWord));
  }

  lemma PackagedShape(pkg: string, s: string, i: nat)
    requires i <= |s| && PackagedAt(pkg, s, i).Some?
    ensures NameShaped(s, i, PackagedAt(pkg, s, i).value)
  {
    var a := i + |pkg|;
    PackagedEndShape(s, i, a, RunEnd(s, a, NonSpace));
  }

  lemma PackagedEndShape(s: string, i: nat, a: nat, hi: nat)
    requires i <= a <= hi <= |s| && PackagedEnd(s, i, a, hi).Some?
    ensures AfterName(s, i, PackagedEnd(s, i, a, hi).value).Some?
    ensures NameShaped(s, i, AfterName(s, i, PackagedEnd(s, i, a, hi).value).value)
  {
    PackagedEndFound(s, i, a, hi);
    NameShape(s, i, PackagedEnd(s, i, a, hi).value);
  }

  /** The end PackagedEnd picks is right after "Exception", and the colon and the tail follow it. */
  lemma {:induction false} PackagedEndFound(s: string, i: nat, a: nat, hi: nat)
    requires i <= a <= hi <= |s| && PackagedEnd(s, i, a, hi).Some?
    ensures OccursAt(s, PackagedEnd(s, i, a, hi).value - 9, "Exception")
    ensures ColonTail(s, PackagedEnd(s, i, a, hi).value)
    decreases hi
  {
    if !(hi + 8 <= |s| && OccursAt(s, hi - 1, "Exception") && ColonTail(s, hi + 8)) {
      PackagedEndFound(s, i, a, hi - 1);
    }
  }

  lemma WordExceptionShape(s: string, i: nat)
    requires i <= |s| && WordExceptionAt(s, i).Some?
    ensures NameShaped(s, i, WordExceptionAt(s, i).value)
  {
    NameShape(s, i, RunEnd(s, i, IsWord));
  }

  lemma NameShape(s: string, i: nat, k: nat)
    requires 9 <= k <= |s| && i <= k - 9 && OccursAt(s, k - 9, "Exception") && AfterName(s, i, k).Some?
    ensures NameShaped(s, i, AfterName(s, i, k).value)
  {
    var x := AfterName(s, i, k).value;
    assert x.name[|x.name| - 9..] == s[k - 9..k];
  }

  // ---------------------------------------------------------------------
  // The ERROR-line patterns

  /** \bERROR\s+(\S+): the token after a whole-word ERROR and whitespace. */
  function LoggerAt(s: string, i: nat): (r: Option<string>)
    ensures r.Some? ==> IsWordToken(r.value)
  {
    if i + 5 <= |s| && Boundary(s, i) && OccursAt(s, i, "ERROR") then
      var a := RunEnd(s, i + 5, IsSpace);
      var b := RunEnd(s, a, NonSpace);
      if a > i + 5 && b > a then
        assert forall k :: 0 <= k < b - a ==> s[a..b][k] == s[a + k];
        Some(s[a..b])
      else None
    else None
  }

  /**
   * [^\n]*?\]\s+(.+?)(?:\n|$) from r: the lazy run tries each ']' of the current line,
   * nearest first, until one is followed by whitespace and a message.
   */
  function BracketTail(s: string, r: nat): (res: Option<string>)
    requires r <= |s|
    ensures res.Some? ==> |res.value| > 0 && '\n' !in res.value
    decreases |s| - r
  {
    if r == |s| || s[r] == '\n' then None
    else if s[r] == ']' && LineTail(s, r + 1, 1).Some? then
      var (a, b) := LineTail(s, r + 1, 1).value;
      LineTailSome(s, r + 1, 1);
      assert forall k :: 0 <= k < b - a ==> s[a..b][k] == s[a + k];
      Some(s[a..b])
    else BracketTail(s, r + 1)
  }

  /** \bERROR\b[^\n]*?\]\s+(.+?)(?:\n|$): the message of the first ERROR line that has one. */
  function ErrorLineAt(s: string, i: nat): (r: Option<string>)
    ensures r.Some? ==> |r.value| > 0 && '\n' !in r.value
  {
    if i + 5 <= |s| && Boundary(s, i) && OccursAt(s, i, "ERROR") && Boundary(s, i + 5) then BracketTail(s, i + 5)
    else None
  }

  /**
   * ERROR\s+(\S+)\s+.*?\]\s+(.+?)(?:\n|$) (no \b): the class token and the message. Giving
   * back whitespace or token characters cannot help: the token would then end or start
   * next to a character of the wrong kind, and a later start of .*? only sees fewer ']'s.
   */
  function ErrorPatternAt(s: string, i: nat): (r: Option<(string, string)>)
    ensures r.Some? ==> IsWordToken(r.value.0)
    ensures r.Some? ==> |r.value.1| > 0 && '\n' !in r.value.1
  {
    if i + 5 <= |s| && OccursAt(s, i, "ERROR") then
      var a := RunEnd(s, i + 5, IsSpace);
      var b := RunEnd(s, a, NonSpace);
      var c := RunEnd(s, b, IsSpace);
      if a > i + 5 && b > a && c > b then
        match BracketTail(s, c)
        case Some(t) =>
          assert forall k :: 0 <= k < b - a ==> s[a..b][k] == s[a + k];
          Some((s[a..b], t))
        case None => None
      else None
    else None
  }

  // ---------------------------------------------------------------------
  // `_extract_error_location`

  const FramePrefix: string := "at com.nice.saas.wfo."

  lemma FramePackage()
    ensures FramePrefix[3..] == WfoPackage
  {
  }

  /**
   * at (com\.nice\.saas\.wfo\.\w+\.[\w\.]+)\.(\w+)\( : the class path and the method. The
   * first \w+ must be followed by a dot; [\w\.]+ runs greedily to the '(' and backs off to
   * the last dot, after which only word characters may come.
   */
  function FrameAt(s: string, i: nat): (r: Option<(string, string)>)
    ensures r.Some? ==> StartsWith(r.value.0, WfoPackage)
    ensures r.Some? ==> |r.value.1| > 0 && forall k :: 0 <= k < |r.value.1| ==> IsWord(r.value.1[k])
  {
    if i + 21 <= |s| && OccursAt(s, i, FramePrefix) then
      var k := RunEnd(s, i + 21, IsWord);
      if k > i + 21 && k < |s| && s[k] == '.' then
        var e := RunEnd(s, k + 1, WordOrDot);
        if e < |s| && s[e] == '(' then
          match LastWhere(s, k + 2, e, IsDot)
          case Some(t) =>
            if t + 1 < e then
              PrefixOfSlice(s, i + 3, t, 18);
              SuffixOfSlice(s, i, i + 21, 3);
              FramePackage();
              var w := s[t + 1..e];
              assert forall j :: 0 <= j < |w| ==> w[j] == s[t + 1 + j];
              Some((s[i + 3..t], w))
            else None
          case None => None
        else None
      else None
    else None
  }

  /** ERROR\s+(com\.nice\.saas\.wfo\.\S+): an application class right after ERROR. */
  function ErrorClassAt(s: string, i: nat): (r: Option<string>)
    ensures r.Some? ==> StartsWith(r.value, WfoPackage)
  {
    if i + 5 <= |s| && OccursAt(s, i, "ERROR") then
      var a := RunEnd(s, i + 5, IsSpace);
      if a > i + 5 && a + 18 <= |s| && OccursAt(s, a, WfoPackage) then
        var e := RunEnd(s, a + 18, NonSpace);
        if e > a + 18 then
          PrefixOfSlice(s, a, e, 18);
          Some(s[a..e])
        else None
      else None
    else None
  }

  /** `_extract_error_location` */
  function ErrorLocation(msg: string): string
  {
    match Search(msg, FrameAt)
    case Some((_, (path, name))) => LastSegment(path) + "." + name
    case None =>
      match Search(msg, ErrorClassAt)
      case Some((_, path)) => LastSegment(path)
      case None => "Unknown"
  }

  /** Two first matches are the same match. */
  lemma FirstAtUnique<T>(m: (string, nat) -> Option<T>, s: string, i: nat, j: nat)
    requires FirstAt(m, s, i) && FirstAt(m, s, j)
    ensures i == j
  {
  }

  /** The location is Class.method of the first application stack frame. */
  lemma LocationFromFrame(msg: string, i: nat)
    requires FirstAt(FrameAt, msg, i)
    ensures var f := FrameAt(msg, i).value;
            ErrorLocation(msg) == LastSegment(f.0) + "." + f.1 && '.' !in f.1
  {
    SearchIsFirst(msg, FrameAt);
    var r := Search(msg, FrameAt);
    FirstAtUnique(FrameAt, msg, i, r.value.0);
    var f := FrameAt(msg, i).value.1;
    forall k | 0 <= k < |f| ensures f[k] != '.' { assert IsWord(f[k]); }
  }

  /** Without an application stack frame, the class of the first application ERROR token. */
  lemma LocationFromErrorClass(msg: string, i: nat)
    requires forall j :: 0 <= j <= |msg| ==> FrameAt(msg, j).None?
    requires FirstAt(ErrorClassAt, msg, i)
    ensures ErrorLocation(msg) == LastSegment(ErrorClassAt(msg, i).value)
  {
    SearchIsFirst(msg, FrameAt);
    SearchIsFirst(msg, ErrorClassAt);
    FirstAtUnique(ErrorClassAt, msg, i, Search(msg, ErrorClassAt).value.0);
  }

  /** With neither, "Unknown". */
  lemma LocationUnknown(msg: string)
    requires forall j :: 0 <= j <= |msg| ==> FrameAt(msg, j).None? && ErrorClassAt(msg, j).None?
    ensures ErrorLocation(msg) == "Unknown"
  {
    SearchIsFirst(msg, FrameAt);
    SearchIsFirst(msg, ErrorClassAt);
  }

  // ---------------------------------------------------------------------
  // `_extract_error_signature`

  /** The exception messages treated as generic: empty, "{}", "unknown", "n/a", or a stack frame. */
  predicate IsGenericMessage(n: string)
  {
    n == "" || n == "{}" || n == "unknown" || n == "n/a" || StartsWith(n, "at com.") || StartsWith(n, "at org.")
  }

  /** `first_logger`: the last dotted segment of the token after the first ERROR, when there is one and it is non-empty. */
  function LoggerPart(msg: string): (r: seq<string>)
    ensures |r| <= 1 && forall k :: 0 <= k < |r| ==> r[k] != "" && '.' !in r[k]
  {
    match Search(msg, LoggerAt)
    case Some((_, token)) => if LastSegment(token) == "" then [] else [LastSegment(token)]
    case None => []
  }

  /** `first_error_line_norm`, kept when non-empty: the first ERROR line's message, normalized twice over. */
  function ErrorLinePart(msg: string): (r: seq<string>)
    ensures |r| <= 1 && forall k :: 0 <= k < |r| ==> r[k] != "" && SingleSpaced(r[k])
  {
    var line := match Search(msg, ErrorLineAt) case Some((_, text)) => Strip(text) case None => "";
    var norm := NormalizeErrorMessage(NormalizeFirstErrorLine(line));
    NormalizedIsSingleSpaced(NormalizeFirstErrorLine(line));
    if norm == "" then [] else [norm]
  }

  /** `log_message.split('\n')[0][:200]` */
  function FirstLine(msg: string): (r: string)
    ensures |r| <= 200 && '\n' !in r && r <= msg
  {
    var line := SplitOn(msg, '\n')[0];
    var r := Take(line, 200);
    assert r == msg[..|r|] by { assert line == msg[..|line|]; }
    r
  }

  /** `_extract_error_signature` */
  function ExtractErrorSignature(msg: string): (r: ErrorSignature)
  {
    if IsBlank(msg) then ErrorSignature("Unknown", "Unknown", "Empty log message")
    else
      match Search(msg, WfoExceptionAt)
      case Some((_, x)) => ExceptionSignatureOf(msg, x)
      case None =>
        match Search(msg, ErrorPatternAt)
        case Some((_, (token, text))) =>
          var cls := LastSegment(token);
          ErrorSignature("ERROR", cls, "ERROR in " + cls + ": " + NormalizeErrorMessage(Strip(text)))
        case None => ErrorSignature("Unknown", "Unknown", NormalizeErrorMessage(FirstLine(msg)))
  }

  /** A blank message gets the fixed "Empty log message" triple. */
  lemma BlankSignature(msg: string)
    requires IsBlank(msg)
    ensures ExtractErrorSignature(msg) == ErrorSignature("Unknown", "Unknown", "Empty log message")
  {
  }

  /** A suffix without dots survives `split('.')[-1]`. */
  lemma LastSegmentKeepsSuffix(s: string, suffix: string)
    requires EndsWith(s, suffix) && '.' !in suffix
    ensures EndsWith(LastSegment(s), suffix)
  {
    var r := LastSegment(s);
    var a := |s| - |suffix|;
    forall j | a <= j < |s| ensures s[j] != '.' {
      assert s[j] == s[a..][j - a] && s[a..][j - a] in suffix;
    }
    assert |r| >= |suffix|;
    SuffixOfSuffix(s, r, |suffix|);
  }

  /** `" | ".join(parts)` starts with the first part. */
  lemma {:induction false} JoinStartsWithFirst(sep: string, parts: seq<string>)
    requires |parts| > 0
    ensures StartsWith(Join(sep, parts), parts[0])
  {
    if |parts| > 1 {
      assert Join(sep, parts) == parts[0] + (sep + Join(sep, parts[1..]));
    }
  }

  /** The exception branch of `_extract_error_signature`, for the match x. */
  function ExceptionSignatureOf(msg: string, x: ExceptionMatch): ErrorSignature
  {
    var kind := LastSegment(x.name);
    var norm := NormalizeErrorMessage(Strip(x.text));
    if IsGenericMessage(norm) then ErrorSignature(kind, ErrorLocation(msg), Join(" | ", [kind] + LoggerPart(msg) + ErrorLinePart(msg)))
    else ErrorSignature(kind, ErrorLocation(msg), kind + ": " + norm)
  }

  /**
   * When the first exception match has a non-generic message, the type is the last dotted
   * segment of the exception name and the signature is "Type: message"; with a generic
   * message the signature is the " | "-join of the type, the logger and the first ERROR
   * line's message (each when present), and starts with the type. Either way the type
   * ends with "Exception" and the location is that of `_extract_error_location`.
   */
  lemma ExceptionSignature(msg: string, i: nat)
    requires !IsBlank(msg) && FirstAt(WfoExceptionAt, msg, i)
    ensures var x := WfoExceptionAt(msg, i).value;
            var r := ExtractErrorSignature(msg);
            var norm := NormalizeErrorMessage(Strip(x.text));
            && r.errorType == LastSegment(x.name)
            && EndsWith(r.errorType, "Exception") && '.' !in r.errorType
            && r.location == ErrorLocation(msg)
            && (!IsGenericMessage(norm) ==> r.signature == r.errorType + ": " + norm)
            && (IsGenericMessage(norm) ==>
                  r.signature == Join(" | ", [r.errorType] + LoggerPart(msg) + ErrorLinePart(msg))
                  && StartsWith(r.signature, r.errorType))
  {
    var x := WfoExceptionAt(msg, i).value;
    ExceptionBranch(msg, i);
    ExceptionMatchShape(WfoPackage, msg, i);
    ExceptionKind(msg, x);
    GenericJoin(msg, x);
  }

  lemma ExceptionBranch(msg: string, i: nat)
    requires !IsBlank(msg) && FirstAt(WfoExceptionAt, msg, i)
    ensures ExtractErrorSignature(msg) == ExceptionSignatureOf(msg, WfoExceptionAt(msg, i).value)
  {
    SearchIsFirst(msg, WfoExceptionAt);
    FirstAtUnique(WfoExceptionAt, msg, i, Search(msg, WfoExceptionAt).value.0);
  }

  lemma ExceptionKind(msg: string, x: ExceptionMatch)
    requires EndsWith(x.name, "Exception")
    ensures var r := ExceptionSignatureOf(msg, x); EndsWith(r.errorType, "Exception") && '.' !in r.errorType
  {
    LastSegmentKeepsSuffix(x.name, "Exception");
  }

  lemma GenericJoin(msg: string, x: ExceptionMatch)
    ensures var r := ExceptionSignatureOf(msg, x);
            IsGenericMessage(NormalizeErrorMessage(Strip(x.text))) ==> StartsWith(r.signature, r.errorType)
  {
    JoinStartsWithFirst(" | ", [LastSegment(x.name)] + LoggerPart(msg) + ErrorLinePart(msg));
  }

  /** No exception but an ERROR line: ("ERROR", C, "ERROR in C: message") with C the class token's last segment. */
  lemma ErrorLineSignature(msg: string, i: nat)
    requires !IsBlank(msg) && (forall j :: 0 <= j <= |msg| ==> WfoExceptionAt(msg, j).None?)
    requires FirstAt(ErrorPatternAt, msg, i)
    ensures var (token, text) := ErrorPatternAt(msg, i).value;
            var cls := LastSegment(token);
            && ExtractErrorSignature(msg) == ErrorSignature("ERROR", cls, "ERROR in " + cls + ": " + NormalizeErrorMessage(Strip(text)))
            && '.' !in cls
  {
    SearchIsFirst(msg, WfoExceptionAt);
    SearchIsFirst(msg, ErrorPatternAt);
    FirstAtUnique(ErrorPatternAt, msg, i, Search(msg, ErrorPatternAt).value.0);
  }

  /** Neither pattern: the first line, cut to 200 characters and normalized, under "Unknown". */
  lemma FallbackSignature(msg: string)
    requires !IsBlank(msg)
    requires forall j :: 0 <= j <= |msg| ==> WfoExceptionAt(msg, j).None? && ErrorPatternAt(msg, j).None?
    ensures ExtractErrorSignature(msg) == ErrorSignature("Unknown", "Unknown", NormalizeErrorMessage(FirstLine(msg)))
  {
    SearchIsFirst(msg, WfoExceptionAt);
    SearchIsFirst(msg, ErrorPatternAt);
  }

}
