// The error-message normalizers of the classification pipeline
// (src/prod_monitoring/csv_helper.py `_normalize_error_message` and the nested
// `_normalize_first_error_line`; src/prod_monitoring/classify_errors.py
// `normalize_error_message`). Each is an ordered chain of re.sub steps; every
// pattern below is matched exactly as Python's backtracking matcher would,
// with the backtracking worked out in the comment above it.
module Normalizer {
  import opened Wrappers
  import opened Text
  import opened Rewrite

  // ---------------------------------------------------------------------
  // Patterns of `_normalize_error_message`

  const UuidShape: string := "%%%%%%%%-%%%%-%%%%-%%%%-%%%%%%%%%%%%"

  /** \b[0-9a-f]{8}-[0-9a-f]{4}-[0-9a-f]{4}-[0-9a-f]{4}-[0-9a-f]{12}\b with re.IGNORECASE: fixed width 36. */
  function UuidAt(s: string, i: nat): Option<nat>
  {
    if FitsAt(s, i, UuidShape) && Boundary(s, i) && Boundary(s, i + 36) then Some(i + 36) else None
  }

  /** \b[0-9a-f]{16}\b: exactly sixteen lower-case hex digits forming a whole word. */
  function HexIdAt(s: string, i: nat): Option<nat>
  {
    if i + 16 <= |s| && Boundary(s, i) && RunEnd(s, i, IsHexLower) >= i + 16 && Boundary(s, i + 16)
    then Some(i + 16) else None
  }

  /**
   * \b[0-9a-f]{12,}\b: the greedy run of hex digits must end at a word boundary;
   * giving characters back cannot help, since inside the run there is no boundary.
   */
  function LongHexAt(s: string, i: nat): Option<nat>
  {
    if i < |s| && Boundary(s, i) then
      var e := RunEnd(s, i, IsHexLower);
      if e >= i + 12 && Boundary(s, e) then Some(e) else None
    else None
  }

  const DateTimeShape: string := "####-##-##T##:##:##"

  /**
   * \d{4}-\d{2}-\d{2}T\d{2}:\d{2}:\d{2}(?:\.\d+)?Z? : the optional parts are greedy and
   * nothing follows them, so the fraction is taken when a digit follows the dot, then a Z.
   */
  function TimestampAt(s: string, i: nat): Option<nat>
  {
    if FitsAt(s, i, DateTimeShape) then
      var f := i + 19;
      var g := if f + 1 < |s| && s[f] == '.' && IsDigit(s[f + 1]) then RunEnd(s, f + 1, IsDigit) else f;
      Some(if g < |s| && s[g] == 'Z' then g + 1 else g)
    else None
  }

  /** \d{2}:\d{2}:\d{2}\.\d+ */
  function ClockTimeAt(s: string, i: nat): Option<nat>
  {
    if FitsAt(s, i, "##:##:##.#") then Some(RunEnd(s, i + 9, IsDigit)) else None
  }

  /** '[0-9]+' : a quote, the digit run, and a quote right after it. */
  function QuotedIdAt(s: string, i: nat): Option<nat>
  {
    if i + 1 < |s| && s[i] == '\'' && IsDigit(s[i + 1]) then
      var e := RunEnd(s, i + 1, IsDigit);
      if e < |s| && s[e] == '\'' then Some(e + 1) else None
    else None
  }

  /**
   * The inside of \[\w+_\w+_\w+_\w+\d+\] : three underscores splitting off four non-empty
   * word parts, the last of which ends in a digit.
   */
  predicate TenantTagBody(w: string)
  {
    |w| >= 2 && IsDigit(w[|w| - 1])
    && exists p1, p2, p3 :: 0 < p1 && p1 + 1 < p2 && p2 + 1 < p3 && p3 + 2 < |w|
                            && w[p1] == '_' && w[p2] == '_' && w[p3] == '_'
  }

  /**
   * \[\w+_\w+_\w+_\w+\d+\] : everything between the brackets is a word character, so the
   * closing bracket must follow the maximal word run after the opening one.
   */
  function TenantTagAt(s: string, i: nat): Option<nat>
  {
    if i < |s| && s[i] == '[' then
      var e := RunEnd(s, i + 1, IsWord);
      if e < |s| && s[e] == ']' && TenantTagBody(s[i + 1..e]) then Some(e + 1) else None
    else None
  }

  predicate IsCloseBrace(c: char) { c == '}' }
  predicate NotCloseBrace(c: char) { c != '}' }

  /** Name\{[^}]+\} : the name, a brace, at least one character, and the first closing brace. */
  function PayloadAt(name: string, s: string, i: nat): Option<nat>
  {
    if OccursAt(s, i, name + "{") then
      var a := i + |name| + 1;
      var e := RunEnd(s, a, NotCloseBrace);
      if a < e < |s| then Some(e + 1) else None
    else None
  }

  function BaseScrRequestAt(s: string, i: nat): Option<nat> { PayloadAt("BaseSCRRequest", s, i) }
  function RequestedChangesAt(s: string, i: nat): Option<nat> { PayloadAt("RequestedChanges", s, i) }
  function ActivityChangeAt(s: string, i: nat): Option<nat> { PayloadAt("ActivityChange", s, i) }

  /** \[[^\]]{min,}\] : a bracket block whose content up to the first ']' has at least `min` characters. */
  function LongBracketAt(min: nat, s: string, i: nat): Option<nat>
  {
    if i < |s| && s[i] == '[' then
      var e := RunEnd(s, i + 1, NotCloseBracket);
      if e < |s| && e >= i + 1 + min then Some(e + 1) else None
    else None
  }

  function Bracket50At(s: string, i: nat): Option<nat> { LongBracketAt(50, s, i) }

  /** \b\d{3,}\b : a whole-word run of at least three digits. */
  function NumberAt(s: string, i: nat): Option<nat>
  {
    if i < |s| && Boundary(s, i) then
      var e := RunEnd(s, i, IsDigit);
      if e >= i + 3 && Boundary(s, e) then Some(e) else None
    else None
  }

  /** The substitutions of `_normalize_error_message`, in program order. */
  const MessageRules: seq<Rule> := [
    Rule(UuidAt, Const("[UUID]")),
    Rule(HexIdAt, Const("[HEX-ID]")),
    Rule(TimestampAt, Const("[TIMESTAMP]")),
    Rule(ClockTimeAt, Const("[TIME]")),
    Rule(QuotedIdAt, Const("'[ID]'")),
    Rule(TenantTagAt, Const("[TENANT]")),
    Rule(BaseScrRequestAt, Const("BaseSCRRequest{...}")),
    Rule(RequestedChangesAt, Const("RequestedChanges{...}")),
    Rule(ActivityChangeAt, Const("ActivityChange{...}")),
    Rule(Bracket50At, Const("[...]")),
    Rule(NumberAt, Const("[NUM]"))
  ]

  /** `classify_errors.normalize_error_message`: the same chain with a 12-or-more hex rule after the 16-hex one. */
  const LegacyMessageRules: seq<Rule> := MessageRules[..2] + [Rule(LongHexAt, Const("[HEX-ID]"))] + MessageRules[2..]

  /** csv_helper `_normalize_error_message`: the substitutions, then `' '.join(message.split())`. */
  function NormalizeErrorMessage(message: string): string
  {
    Collapse(ApplyRules(message, MessageRules))
  }

  /** classify_errors `normalize_error_message`. */
  function LegacyNormalizeErrorMessage(message: string): string
  {
    Collapse(ApplyRules(message, LegacyMessageRules))
  }

  /** A normalized message has no edge whitespace, no tab or newline and no double space. */
  lemma NormalizedIsSingleSpaced(message: string)
    ensures SingleSpaced(NormalizeErrorMessage(message))
    ensures SingleSpaced(LegacyNormalizeErrorMessage(message))
  {
    CollapseSingleSpaced(ApplyRules(message, MessageRules));
    CollapseSingleSpaced(ApplyRules(message, LegacyMessageRules));
  }

  // ---------------------------------------------------------------------
  // Patterns of the nested `_normalize_first_error_line`

  predicate NotLineBreak(c: char) { c != '\n' && c != '\r' }

  /**
   * \b\w+\{[^\n\r]{0,2000}\} : the greedy word run must be followed by '{'; the greedy
   * class then runs to the first line break (at most 2000 characters) and backs off to
   * the LAST '}' it can reach, so the match ends at the last '}' of the line's window.
   */
  function WordBraceAt(s: string, i: nat): Option<nat>
  {
    if i < |s| && Boundary(s, i) then
      var k := RunEnd(s, i, IsWord);
      if i < k < |s| && s[k] == '{' then
        var stop := RunEnd(s, k + 1, NotLineBreak);
        var hi := if stop < k + 1 + 2000 then stop else k + 1 + 2000;
        var hi' := if hi < |s| then hi + 1 else hi;
        match LastWhere(s, k + 1, hi', IsCloseBrace)
        case Some(j) => Some(j + 1)
        case None => None
      else None
    else None
  }

  /** The callback `m.group(0).split('{', 1)[0] + '{...}'`. */
  function KeepName(m: string): string
  {
    m[..RunEnd(m, 0, c => c != '{')] + "{...}"
  }

  function Bracket40At(s: string, i: nat): Option<nat> { LongBracketAt(40, s, i) }

  /** https?://\S+ : the 's' is taken when present; without it "://" would have to start at an 's'. */
  function UrlAt(s: string, i: nat): Option<nat>
  {
    if OccursAt(s, i, "http") then
      var j := if i + 4 < |s| && s[i + 4] == 's' then i + 5 else i + 4;
      if OccursAt(s, j, "://") then
        var e := RunEnd(s, j + 3, NonSpace);
        if e > j + 3 then Some(e) else None
      else None
    else None
  }

  predicate KeyValueChar(c: char) { c != ',' && !IsSpace(c) }

  /** \b\w+=[^,\s]{12,} : the greedy word run must be followed by '='; the value run must reach 12. */
  function LongKeyValueAt(s: string, i: nat): Option<nat>
  {
    if i < |s| && Boundary(s, i) then
      var k := RunEnd(s, i, IsWord);
      if i < k < |s| && s[k] == '=' then
        var e := RunEnd(s, k + 1, KeyValueChar);
        if e >= k + 1 + 12 then Some(e) else None
      else None
    else None
  }

  /** q[^q]{12,}q for a quote character q: the content runs to the next quote. */
  function LongQuotedAt(q: char, s: string, i: nat): Option<nat>
  {
    if i < |s| && s[i] == q then
      var e := RunEnd(s, i + 1, c => c != q);
      if e < |s| && e >= i + 1 + 12 then Some(e + 1) else None
    else None
  }

  function SingleQuotedAt(s: string, i: nat): Option<nat> { LongQuotedAt('\'', s, i) }
  function DoubleQuotedAt(s: string, i: nat): Option<nat> { LongQuotedAt('"', s, i) }

  /** \s+ */
  function SpaceRunAt(s: string, i: nat): Option<nat>
  {
    if i < |s| && IsSpace(s[i]) then Some(RunEnd(s, i, IsSpace)) else None
  }

  /** The substitutions of `_normalize_first_error_line`, in program order. */
  const FirstLineRules: seq<Rule> := [
    Rule(WordBraceAt, KeepName),
    Rule(Bracket40At, Const("[...]")),
    Rule(UrlAt, Const("[URL]")),
    Rule(LongKeyValueAt, Const("key=[...]")),
    Rule(SingleQuotedAt, Const("'[...']")),
    Rule(DoubleQuotedAt, Const("\"...\"")),
    Rule(SpaceRunAt, Const(" "))
  ]

  /** `_normalize_first_error_line`: empty text stays empty, otherwise the chain and a final strip(). */
  function NormalizeFirstErrorLine(text: string): string
  {
    if text == "" then "" else Strip(ApplyRules(text, FirstLineRules))
  }

}
