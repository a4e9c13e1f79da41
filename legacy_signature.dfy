// Error signatures of src/prod_monitoring/classify_errors.py, the older classifier:
// `extract_error_signature` and `extract_error_location`. The exception pattern accepts
// any com.nice.saas. package, the message is normalized with the longer chain of
// `normalize_error_message`, and there is no generic-message fallback. The location
// logic is the same as the newer classifier's and is shared with it.
module LegacySignature {
  import opened Text
  import opened Rewrite
  import opened Normalizer
  import opened Signature

  /** `extract_error_signature` */
  function LegacyExtractErrorSignature(msg: string): ErrorSignature
  {
    if IsBlank(msg) then ErrorSignature("Unknown", "Unknown", "Empty log message")
    else
      match Search(msg, SaasExceptionAt)
      case Some((_, x)) => LegacyExceptionSignatureOf(msg, x)
      case None =>
        match Search(msg, ErrorPatternAt)
        case Some((_, (token, text))) =>
          var cls := LastSegment(token);
          ErrorSignature("ERROR", cls, "ERROR in " + cls + ": " + LegacyNormalizeErrorMessage(Strip(text)))
        case None => ErrorSignature("Unknown", "Unknown", LegacyNormalizeErrorMessage(FirstLine(msg)))
  }

  /** The triple for an exception match x: "Type: message" with Type the name's last segment. */
  function LegacyExceptionSignatureOf(msg: string, x: ExceptionMatch): ErrorSignature
  {
    var kind := LastSegment(x.name);
    ErrorSignature(kind, ErrorLocation(msg), kind + ": " + LegacyNormalizeErrorMessage(Strip(x.text)))
  }

  /** A blank message gets the fixed "Empty log message" triple. */
  lemma LegacyBlankSignature(msg: string)
    requires IsBlank(msg)
    ensures LegacyExtractErrorSignature(msg) == ErrorSignature("Unknown", "Unknown", "Empty log message")
  {
  }

  /**
   * With an exception match the signature is always "Type: message", whatever the
   * message normalizes to; the type is the name's last dotted segment and ends with "Exception".
   */
  lemma LegacyExceptionSignature(msg: string, i: nat)
    requires !IsBlank(msg) && FirstAt(SaasExceptionAt, msg, i)
    ensures var x := SaasExceptionAt(msg, i).value;
            var r := LegacyExtractErrorSignature(msg);
            && r.errorType == LastSegment(x.name)
            && EndsWith(r.errorType, "Exception") && '.' !in r.errorType
            && r.location == ErrorLocation(msg)
            && r.signature == r.errorType + ": " + LegacyNormalizeErrorMessage(Strip(x.text))
  {
    var x := SaasExceptionAt(msg, i).value;
    LegacyExceptionBranch(msg, i);
    ExceptionMatchShape(SaasPackage, msg, i);
    LegacyExceptionKind(msg, x);
  }

  lemma LegacyExceptionKind(msg: string, x: ExceptionMatch)
    requires EndsWith(x.name, "Exception")
    ensures var r := LegacyExceptionSignatureOf(msg, x); EndsWith(r.errorType, "Exception") && '.' !in r.errorType
  {
    LastSegmentKeepsSuffix(x.name, "Exception");
  }

  lemma LegacyExceptionBranch(msg: string, i: nat)
    requires !IsBlank(msg) && FirstAt(SaasExceptionAt, msg, i)
    ensures LegacyExtractErrorSignature(msg) == LegacyExceptionSignatureOf(msg, SaasExceptionAt(msg, i).value)
  {
    SearchIsFirst(msg, SaasExceptionAt);
    FirstAtUnique(SaasExceptionAt, msg, i, Search(msg, SaasExceptionAt).value.0);
  }

  /** No exception but an ERROR line: ("ERROR", C, "ERROR in C: message"). */
  lemma LegacyErrorLineSignature(msg: string, i: nat)
    requires !IsBlank(msg) && (forall j :: 0 <= j <= |msg| ==> SaasExceptionAt(msg, j).None?)
    requires FirstAt(ErrorPatternAt, msg, i)
    ensures var (token, text) := ErrorPatternAt(msg, i).value;
            var cls := LastSegment(token);
            LegacyExtractErrorSignature(msg) == ErrorSignature("ERROR", cls, "ERROR in " + cls + ": " + LegacyNormalizeErrorMessage(Strip(text)))
  {
    SearchIsFirst(msg, SaasExceptionAt);
    SearchIsFirst(msg, ErrorPatternAt);
    FirstAtUnique(ErrorPatternAt, msg, i, Search(msg, ErrorPatternAt).value.0);
  }

  /** Neither pattern: the first line, cut to 200 characters and normalized, under "Unknown". */
  lemma LegacyFallbackSignature(msg: string)
    requires !IsBlank(msg)
    requires forall j :: 0 <= j <= |msg| ==> SaasExceptionAt(msg, j).None? && ErrorPatternAt(msg, j).None?
    ensures LegacyExtractErrorSignature(msg) == ErrorSignature("Unknown", "Unknown", LegacyNormalizeErrorMessage(FirstLine(msg)))
  {
    SearchIsFirst(msg, SaasExceptionAt);
    SearchIsFirst(msg, ErrorPatternAt);
  }

}
