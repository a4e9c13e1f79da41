# Prod-Monitoring, in Dafny

Prod-Monitoring gathers the health data of the SRA and SRM services per AWS region: CloudWatch
logs and metrics, RDS statistics and dashboard screenshots. It classifies the error logs into
signatures, anonymizes whatever it sends to an AI analyzer, and consolidates everything into
per-region and executive reports. This project models the deterministic core of that pipeline
and proves what each part promises.

- **Error signatures** (`Normalizer`, `NormalizerLaws`, `Signature`, `LegacySignature`, `ErrorTally`).
  - `_normalize_error_message` and its older twin are modelled as exact chains of `re.sub` steps, and `_normalize_first_error_line` likewise.
  - `Rewrite` supplies a left-to-right, leftmost, non-overlapping substitution scan. Each pattern gets a matcher whose backtracking is worked out by hand.
  - The signature extractors are first-match-wins dispatches over `re.search`.
  - `classify_and_save_errors` and `classify_error_logs` become a counting loop over rows. Its specification is a tally: counts, first samples, last locations and first-seen order. A ranking step follows, and it is stable.
  - The invariance lemmas show that a UUID, an ISO timestamp or a standalone number in a message does not change its bucket.
- **Anonymizer** (`Anonymizer`, `AnonymizerLaws`, `LegacyAnonymizer`). The redaction pipeline runs the tenant pass twice, with the e-mail, user-name, name and phone substitutions in between.
  - For every pattern, a span of its shape is matched with exactly its end, and `re.sub` writes the placeholder in its place. Every match, conversely, has that shape.
  - Whole messages: a lone e-mail address, a lone `key=value` pair and a `/tenants/` path segment are proved to come out of `anonymize_log_message` redacted.
  - The pipeline is modelled as written. Its key rule re-matches a value that is already redacted, and the second tenant pass then depends on the key family:
    - `customer`, `org` and `account` keys come out as `key=[TENANT_REDACTED]]`, with a stray `]`;
    - `tenant…` keys are repaired by the query rule.
  - `CorrectedTenantRules`, `CorrectedRedactTenantLikeValues` and `CorrectedAnonymizeLogMessage` use the corrected key rule, which leaves a placeholder alone (see Findings).
  - The older anonymizer has no tenant rules. Its e-mail pattern has a top-level-domain class `[A-Z|a-z]`, which admits a bar character; the newer pattern's class does not. The model states this difference and proves it.
- **Log ingestion** (`LogCleaning`, `LogHelper`, `LegacyLogHelper`, `LogPaging`).
  - Entry exclusion.
  - Per-line noise filtering and whitespace normalisation, for both helpers. The newer cleaning is idempotent.
  - The event-to-row step.
  - The bounded pagination loop over an abstract page fetcher, with the synthetic error row after a failed fetch.
- **Metrics** (`Metrics`, `LegacyMetrics`).
  - Construction of the CloudWatch query: namespace, metric name, dimension pairs, Id, period and statistic.
  - The threshold and statistic choice of both helpers.
  - Widget lookup by title.
  - The above-threshold filter and its error count.
- **Consolidation** (`Consolidator`). A `MonitoringConsolidator` class holds the collected services.
  - The metrics summary of a region.
  - The `.png` screenshot listing.
  - The critical-issue rule of the executive summary.
- **Region report** (`RegionReport`).
  - Plot titles.
  - Grouping screenshots by keyword, in the fixed group order.
  - The group total of the HTML builder.
  - Pattern-based collection, deduplicated and sorted.
  - Name-based collection.
- **AI analyzer** (`AiAnalyzer`).
  - Interpretation of the Lambda response over an abstract JSON value, as written, beside a corrected variant for a JSON string body.
  - The error summary sent for analysis.
  - The status branching of `analyze_error_patterns`, with the TypeError of the healthy report on a count that is not a number.
- **Configuration** (`UnifiedConfig`). The lookup order of `get_config`, `get_bool` and `get_int`, `parse_service_metadata`, and `validate_config`.
- **RDS** (`RdsHelper`).
  - Instance selection: exact match, then case-insensitive pattern.
  - The MaxResults clamp.
  - Top-query totals, truncation and stable ranking.
  - Error-record expansion.
  - The threshold filter.
- **Python semantics** used throughout (`Text`, `Numbers`, `PyDict`, `Sorting`, `Rewrite`, `Seqs`, `Wrappers`):
  - `str.split`, `strip`, `lower` and `upper` over ASCII letters;
  - `int()` and `str()` on integers;
  - insertion-ordered dictionaries;
  - stable `sorted` in both directions;
  - `re.sub` and `re.search`.

Loops in the source are Dafny methods with loop invariants. Each method's `ensures` ties its result to a specification function, and the lemmas state the properties of that function. Calls into AWS, the file system and the Lambda endpoint are parameters of the model.

## Model

| member | source | states |
|---|---|---|
| AiAnalyzer.KeyIn | src/prod_monitoring/ai_analyzer.py:228 | `key in response_data` raises TypeError exactly when the decoded value is neither an object, a list nor a string |
| AiAnalyzer.Keys | src/prod_monitoring/ai_analyzer.py:242 | `list(response_data.keys())` has one string per key, in the object's key order |
| AiAnalyzer.AppendSources | src/prod_monitoring/ai_analyzer.py:264-267 | the loop over `enumerate(valid_sources, 1)` builds the answer plus the sources header and the numbered source lines (WithSources) |
| AiAnalyzer.ParseLambdaResponse | src/prod_monitoring/ai_analyzer.py:196-269 | the method, its sources loop included, returns what the response-parsing specification ParsedResponse gives, the AttributeError of a JSON string body included |
| AiAnalyzer.Interpret | src/prod_monitoring/ai_analyzer.py:227-263 | model of the tests on a decoded response, in program order: the runtime-error format, a missing answer (as written, or corrected with a flag), a non-object with an answer, the processing error, then the answer and the kept sources; stated by the lemmas below |
| AiAnalyzer.ParsedResponse | src/prod_monitoring/ai_analyzer.py:196-269 | model of `_parse_lambda_response` as written: non-JSON text, or the interpreted response with its sources appended; the partner of ParseLambdaResponse |
| AiAnalyzer.CorrectedParsedResponse | src/prod_monitoring/ai_analyzer.py:245-247 | corrected variant of ParsedResponse, whose missing-answer branch returns a JSON string as the answer |
| AiAnalyzer.MissingAnswerAsWritten | src/prod_monitoring/ai_analyzer.py:240-249 | model of the missing-answer branch as written: an object raises the ValueError listing its keys, anything else raises AttributeError at `.keys()` |
| AiAnalyzer.MissingAnswer | src/prod_monitoring/ai_analyzer.py:240-249 | corrected variant of that branch: an object raises the ValueError with its keys, a JSON string is the answer itself |
| AiAnalyzer.CorrectedAgreesElsewhere | src/prod_monitoring/ai_analyzer.py:196-269 | the corrected parser and the parser as written give the same result on every response that does not decode to a JSON string |
| AiAnalyzer.NonJsonCases | src/prod_monitoring/ai_analyzer.py:215-225 | text that is not JSON: blank text raises "Empty or invalid response", the bare processing error raises "Lambda returned error", anything else is returned unchanged |
| AiAnalyzer.RuntimeErrorRaises | src/prod_monitoring/ai_analyzer.py:227-238 | an object with both errorMessage and errorType always raises ValueError "Lambda <type>: <message>" |
| AiAnalyzer.MissingAnswerRaises | src/prod_monitoring/ai_analyzer.py:240-249 | an object without "answer" (and not in the runtime-error format) raises ValueError |
| AiAnalyzer.ProcessingAnswerRaises | src/prod_monitoring/ai_analyzer.py:251-256 | the answer "Error processing your request" raises "Lambda processing error" |
| AiAnalyzer.AnswerWithSources | src/prod_monitoring/ai_analyzer.py:251-269 | with a "sources" list the result is the answer's str() followed by the kept sources, numbered from 1 |
| AiAnalyzer.AnswerWithoutSources | src/prod_monitoring/ai_analyzer.py:251-269 | without "sources" the answer's str() comes back unchanged |
| AiAnalyzer.ValidSourcesFilter | src/prod_monitoring/ai_analyzer.py:263 | the kept sources are exactly the truthy ones other than "No sources found" and "Error occurred", never more than the input |
| AiAnalyzer.SourceLineAt | src/prod_monitoring/ai_analyzer.py:266-267 | the k-th kept source becomes the line "k+1. source" between the lines of the sources before and after it |
| AiAnalyzer.StringResponseAnswered | src/prod_monitoring/ai_analyzer.py:245-247 | CorrectedParsedResponse returns a JSON string response without "answer" as the answer |
| AiAnalyzer.StringResponseRaisesAsWritten | src/prod_monitoring/ai_analyzer.py:240-249 | ParsedResponse, as the program runs, raises AttributeError at `.keys()` on the same string response |
| AiAnalyzer.EntriesLines | src/prod_monitoring/ai_analyzer.py:403-414 | the entry loop yields exactly five lines per listed error |
| AiAnalyzer.PrepareErrorSummary | src/prod_monitoring/ai_analyzer.py:393-422 | the method's appends, joined by newlines, give the specification SummaryLines |
| AiAnalyzer.SummaryLines | src/prod_monitoring/ai_analyzer.py:397-422 | model of the summary's lines: the header, five lines for each of the first 20 errors and the metrics block; stated by SummaryShape and SummaryEntryLine |
| AiAnalyzer.EntriesLinesAt | src/prod_monitoring/ai_analyzer.py:403-414 | line 5k+t of the entries is line t of entry k, numbered k+1 |
| AiAnalyzer.SummaryEntryLine | src/prod_monitoring/ai_analyzer.py:398-414 | each of the first 20 errors appears after the two header lines, five lines per entry |
| AiAnalyzer.SummaryShape | src/prod_monitoring/ai_analyzer.py:397-422 | the header counts every pattern, at most 20 are listed, the metrics block adds three lines only when present and non-empty, and each entry shows the anonymized signature and the sample cut to 300 characters before anonymizing |
| AiAnalyzer.AnalyzeErrorPatterns | src/prod_monitoring/ai_analyzer.py:272-332 | unavailable exactly when the analyzer is not available; the healthy report exactly when there are no errors and the healthy report raises nothing; its TypeError becomes the error status; otherwise success carries the call's text and the error count, and a raised exception becomes the error status with its message |
| AiAnalyzer.UnavailableUnlessConfigured | src/prod_monitoring/ai_analyzer.py:89-91 | with availability given by `is_available`, the analysis is "unavailable" exactly when requests is missing or the endpoint or the API key is not configured |
| AiAnalyzer.HealthyReportError | src/prod_monitoring/ai_analyzer.py:348-365 | the healthy report raises exactly when metrics are given and non-empty, the three counts (0 when missing) are not all zero, and one of them is not a number |
| AiAnalyzer.NumericCountsHealthy | src/prod_monitoring/ai_analyzer.py:298-302 | with no metrics, or metrics whose values are all numbers, an error-free call gets the healthy report |
| AiAnalyzer.NonNumericCountRaises | src/prod_monitoring/ai_analyzer.py:326-332 | a performance_issues that is not a number, beside numeric CPU and memory counts, gives the error status with the message of `'>' not supported between instances of '<type>' and 'int'` |
| Anonymizer.EmailShape | src/prod_monitoring/anonymizer.py:13 | every match of the e-mail pattern is a local part, '@', a domain, a dot and two or more letters, with word boundaries at both ends; the converse, that every span of this shape is matched and replaced, is AnonymizerLaws.EmailMatched |
| Anonymizer.QuotedFieldShape | src/prod_monitoring/anonymizer.py:14-18 | a `key='v'` match is the key, `='`, a non-empty value without quotes and the closing quote; the converse, that every span of this shape is matched and replaced, is AnonymizerLaws.QuotedFieldMatched |
| Anonymizer.UserNameJsonShape | src/prod_monitoring/anonymizer.py:15 | a `"userName" : "v"` match is the quoted key, a colon between optional whitespace and a non-empty quoted value; the converse, that every span of this shape is matched and replaced, is AnonymizerLaws.UserNameJsonMatched |
| Anonymizer.FullNameShape | src/prod_monitoring/anonymizer.py:16 | a name match is two capitalised words with whitespace between them, followed by whitespace, a comma or a quote; the converse, that every span of this shape is matched and replaced, is AnonymizerLaws.FullNameMatched |
| Anonymizer.UserBracketShape | src/prod_monitoring/anonymizer.py:19 | a `[user: v]` match, in any case, has a non-empty content without ']' and ends at the first ']'; the converse, that every span of this shape is matched and replaced, is AnonymizerLaws.UserBracketMatched |
| Anonymizer.DigitsThenSepShape | src/prod_monitoring/anonymizer.py:20 | a digit group of the phone pattern is three digits and at most one separator; the converse, that every span of this shape is matched and replaced, is AnonymizerLaws.DigitsThenSepMatched |
| Anonymizer.PhoneShape | src/prod_monitoring/anonymizer.py:20 | a phone match is ten digits grouped 3-3-4, each of the first two groups optionally followed by one of '-', '.' or whitespace; the converse, that every span of this shape is matched and replaced, is AnonymizerLaws.PhoneMatched |
| Anonymizer.BracketedIdShape | src/prod_monitoring/anonymizer.py:23 | a bracketed-id match starts with a letter or digit, holds only id characters and ends in three digits before ']'; the converse, that every span of this shape is matched and replaced, is AnonymizerLaws.BracketedIdMatched |
| Anonymizer.BracketedKvShape | src/prod_monitoring/anonymizer.py:24 | a bracketed key match is '[', one of the five keys in any case, ':' or '=', a non-empty value without ']' and ']'; the converse, that every span of this shape is matched and replaced, is AnonymizerLaws.BracketedKvMatched |
| Anonymizer.KvValueAt | src/prod_monitoring/anonymizer.py:26 | the value part of the key rule, when it matches, ends after its start and inside the text |
| Anonymizer.KeyValueAt | src/prod_monitoring/anonymizer.py:26 | one key alternative matches only where the key occurs in any case and is followed by \b, and then with the value part after it |
| Anonymizer.TenantKvFrom | src/prod_monitoring/anonymizer.py:26 | the alternation of keys, when it matches, ends after its start and inside the text |
| Anonymizer.TenantKeysAreWords | src/prod_monitoring/anonymizer.py:26 | every key of the key rule is a non-empty run of ASCII letters |
| Anonymizer.NoBoundaryInKey | src/prod_monitoring/anonymizer.py:26 | \b never holds strictly inside a key found in the text |
| Anonymizer.KeyLengthUnique | src/prod_monitoring/anonymizer.py:26 | two keys found at one place that are both followed by \b have the same length |
| Anonymizer.KvFromKey | src/prod_monitoring/anonymizer.py:26 | when a key followed by \b occurs at i, the alternation matches exactly as that key.s value part does, whichever alternative fires |
| Anonymizer.KvFromNonLetter | src/prod_monitoring/anonymizer.py:26 | no key alternative matches at a character that is not a letter |
| Anonymizer.KvNoMatchAtNonLetter | src/prod_monitoring/anonymizer.py:25-28 | the key rule never matches at a character that is not a letter |
| Anonymizer.KvReplacementOf | src/prod_monitoring/anonymizer.py:45-48 | `_tenant_kv_repl` writes the key as it appears in the log, then "=[TENANT_REDACTED]" |
| Anonymizer.TenantKvKeepsKey | src/prod_monitoring/anonymizer.py:45-51 | every replacement of the key rule as written keeps one of the keys as written and rewrites the rest to "=[TENANT_REDACTED]" |
| Anonymizer.UnredactedKvKeepsKey | src/prod_monitoring/anonymizer.py:45-51 | the same for every replacement of the corrected key rule |
| Anonymizer.KvValueOverPlaceholder | src/prod_monitoring/anonymizer.py:26 | after a key, the unquoted value alternative takes "=[TENANT_REDACTED" and stops before its ']' |
| Anonymizer.KvAtKey | src/prod_monitoring/anonymizer.py:26 | a key followed by a non-word character decides the match of the alternation alone |
| Anonymizer.KvMatchOnPlaceholder | src/prod_monitoring/anonymizer.py:25-28 | the key rule as written matches an already redacted key up to, not including, the placeholder's closing ']' |
| Anonymizer.KvPassOnPlaceholder | src/prod_monitoring/anonymizer.py:45-51 | as written, a second pass of the key rule over "key=[TENANT_REDACTED]" writes "key=[TENANT_REDACTED]]", for every key |
| Anonymizer.QueryMatchOnPlaceholder | src/prod_monitoring/anonymizer.py:30 | the query rule matches tenant, tenantId or tenantName, '=', and the placeholder with its stray ']' |
| Anonymizer.QueryReplacementOf | src/prod_monitoring/anonymizer.py:55 | `\1[TENANT_REDACTED]` keeps the match up to its first '=' |
| Anonymizer.QueryPassOnPlaceholder | src/prod_monitoring/anonymizer.py:55 | the query rule then rewrites "tenant…=[TENANT_REDACTED]]" back to a single placeholder, so only the tenant keys lose the stray ']' |
| Anonymizer.UnredactedNoMatchInToken | src/prod_monitoring/anonymizer.py:25-28 | the corrected key rule finds no match anywhere inside "key=[TENANT_REDACTED]" |
| Anonymizer.UnredactedPassKeepsPlaceholder | src/prod_monitoring/anonymizer.py:51 | corrected model: a second pass of the key rule leaves "key=[TENANT_REDACTED]" as it is, for every key |
| Anonymizer.RedactTenantLikeValues | src/prod_monitoring/anonymizer.py:37-40 | empty text is returned unchanged; the redactions are stated by AnonymizerLaws.RedactKvToken and RedactTenantPath |
| Anonymizer.AnonymizeLogMessage | src/prod_monitoring/anonymizer.py:60-63 | an empty or all-whitespace message is returned unchanged; the redactions are stated by AnonymizerLaws.AnonymizeAddress, AnonymizeKvToken and AnonymizeTenantPath |
| Anonymizer.AnonymizeNoMatch | src/prod_monitoring/anonymizer.py:60-85 | a message in which none of the thirteen substitutions (tenant passes and PII patterns) matches is returned unchanged |
| Anonymizer.EmailAt | src/prod_monitoring/anonymizer.py:13 | model of `_EMAIL_RE` at a position: local part, '@', the domain run backing off to the last dot that leaves two or more letters, word boundaries at both ends; stated by EmailShape and EmailMatched |
| Anonymizer.UserNameQuotedAt | src/prod_monitoring/anonymizer.py:14 | model of `_USERNAME_SQ_RE`; stated by QuotedFieldShape and UserNameQuotedMatched |
| Anonymizer.UserNameJsonAt | src/prod_monitoring/anonymizer.py:15 | model of `_USERNAME_JSON_RE`; stated by UserNameJsonShape and UserNameJsonMatched |
| Anonymizer.FullNameAt | src/prod_monitoring/anonymizer.py:16 | model of `_NAME_RE` with its lookahead; stated by FullNameShape and FullNameMatched |
| Anonymizer.StatusUpdaterAt | src/prod_monitoring/anonymizer.py:17 | model of `_STATUS_UPDATER_RE`; stated by QuotedFieldShape and StatusUpdaterMatched |
| Anonymizer.UserCommentAt | src/prod_monitoring/anonymizer.py:18 | model of `_USER_COMMENT_RE`; stated by QuotedFieldShape and UserCommentMatched |
| Anonymizer.UserBracketAt | src/prod_monitoring/anonymizer.py:19 | model of `_USER_BRACKET_RE` under IGNORECASE; stated by UserBracketShape and UserBracketMatched |
| Anonymizer.PhoneAt | src/prod_monitoring/anonymizer.py:20 | model of `_PHONE_RE`; stated by PhoneShape and PhoneMatched |
| Anonymizer.BracketedIdAt | src/prod_monitoring/anonymizer.py:23 | model of `_TENANT_BRACKETED_ID_RE`, the id run backing off to end in three digits; stated by BracketedIdShape and BracketedIdMatched |
| Anonymizer.BracketedKvAt | src/prod_monitoring/anonymizer.py:24 | model of `_TENANT_BRACKETED_KV_RE` under IGNORECASE; stated by BracketedKvShape and BracketedKvMatched |
| Anonymizer.TenantKvAt | src/prod_monitoring/anonymizer.py:25-28 | model of `_TENANT_KV_RE` as written, its alternatives tried in order; stated by TenantKvKeepsKey, KvValueMatched, TenantKvMatched and KvMatchOnPlaceholder |
| Anonymizer.TenantKvUnredactedAt | src/prod_monitoring/anonymizer.py:25-28 | corrected variant of the key rule that refuses a value that is already the placeholder; stated by UnredactedKvKeepsKey, UnredactedKvMatched and UnredactedNoMatchInToken |
| Anonymizer.TenantPathAt | src/prod_monitoring/anonymizer.py:29 | model of `_TENANT_PATH_RE` under IGNORECASE; stated by TenantPathShape and TenantPathMatched |
| Anonymizer.TenantQueryAt | src/prod_monitoring/anonymizer.py:30 | model of `_TENANT_QUERY_RE` under IGNORECASE, the Id, ID and Name suffixes tried before the empty one; stated by TenantQueryShape and TenantQueryMatched |
| Anonymizer.CorrectedRedactTenantLikeValues | src/prod_monitoring/anonymizer.py:37-57 | corrected variant of `_redact_tenant_like_values`: empty text is returned unchanged |
| Anonymizer.CorrectedAnonymizeLogMessage | src/prod_monitoring/anonymizer.py:60-85 | corrected variant of `anonymize_log_message`, both tenant passes with the corrected key rule: an empty or all-whitespace message is returned unchanged |
| AnonymizerLaws.EmailShapeMatched | src/prod_monitoring/anonymizer.py:13 | an address local@domain.tld between word boundaries, whose domain is not continued, is matched with exactly its end, for either top-level-domain class |
| AnonymizerLaws.EmailMatched | src/prod_monitoring/anonymizer.py:13 | every such address is matched by the e-mail pattern, and `re.sub` writes [EMAIL_REDACTED] for it and goes on after it |
| AnonymizerLaws.QuotedFieldMatched | src/prod_monitoring/anonymizer.py:14-18 | `key='v'` with a non-empty v free of quotes is matched up to and including its closing quote |
| AnonymizerLaws.UserNameQuotedMatched | src/prod_monitoring/anonymizer.py:14 | `userName='v'` is matched and becomes `userName='[USER_NAME_REDACTED]'` |
| AnonymizerLaws.UserNameJsonMatched | src/prod_monitoring/anonymizer.py:15 | `"userName" : "v"`, with any whitespace around the colon, is matched and becomes `"userName":"[USER_NAME_REDACTED]"` |
| AnonymizerLaws.FullNameMatched | src/prod_monitoring/anonymizer.py:16 | two capitalised words between word boundaries, followed by whitespace, a comma or a quote, are matched and become [NAME_REDACTED] |
| AnonymizerLaws.StatusUpdaterMatched | src/prod_monitoring/anonymizer.py:17 | `statusUpdaterName='v'` becomes `statusUpdaterName='[NAME_REDACTED]'` |
| AnonymizerLaws.UserCommentMatched | src/prod_monitoring/anonymizer.py:18 | `userComment='v'` becomes `userComment='[COMMENT_REDACTED]'` |
| AnonymizerLaws.UserBracketMatched | src/prod_monitoring/anonymizer.py:19 | `[user: v]` in any case, v non-empty and without ']', becomes `[user:[USER_REDACTED]]` |
| AnonymizerLaws.DigitsThenSepMatched | src/prod_monitoring/anonymizer.py:20 | a group of three digits is followed by at most one separator, taken exactly when present |
| AnonymizerLaws.PhoneMatched | src/prod_monitoring/anonymizer.py:20 | ten digits grouped 3-3-4 between word boundaries, each of the first two groups with an optional separator, are matched and become [PHONE_REDACTED] |
| AnonymizerLaws.BracketedIdMatched | src/prod_monitoring/anonymizer.py:23 | a bracketed id that starts with a letter or digit and ends in three digits is matched and becomes [TENANT_REDACTED] |
| AnonymizerLaws.BracketedKvMatched | src/prod_monitoring/anonymizer.py:24 | `[key: v]` and `[key=v]` for each of the five keys, in any case, are matched and become [TENANT_REDACTED] |
| AnonymizerLaws.KvValueMatched | src/prod_monitoring/anonymizer.py:25-28 | after the key, optional white space, ':' or '=', optional white space and a value in any of the three forms (`'…'` without a single quote inside, `"…"` without a double quote inside, or the longest unquoted run of `[^,\s\]}]`), the value part of the key rule ends exactly at the value's end; the corrected rule does so unless the value is the placeholder |
| AnonymizerLaws.KeyRuleMatched | src/prod_monitoring/anonymizer.py:25-51 | a key at a word boundary, then such a separator and value, is matched to the end of the value by either key rule, the corrected one unless the value is already the placeholder; the whole span, separator, spaces and quotes included, becomes the key as found and "=[TENANT_REDACTED]" |
| AnonymizerLaws.TenantKvMatched | src/prod_monitoring/anonymizer.py:45-51 | the key rule as written does so on every such span, for example `tenant : acme`, `customer='acme corp'` or `org="x y"` |
| AnonymizerLaws.UnredactedKvMatched | src/prod_monitoring/anonymizer.py:45-51 | the corrected key rule does so on every such span whose value does not start with the placeholder |
| AnonymizerLaws.TenantPathMatched | src/prod_monitoring/anonymizer.py:29 | `/tenants/` in any case and a non-empty segment without '/', '?' or whitespace: the segment becomes [TENANT_REDACTED] after the prefix as found |
| AnonymizerLaws.TenantPathShape | src/prod_monitoring/anonymizer.py:29 | every match of the path rule is `/tenants/` followed by the longest non-empty segment |
| AnonymizerLaws.QueryValueMatched | src/prod_monitoring/anonymizer.py:30 | the query value is the longest non-empty run without '&' or whitespace after the '=' |
| AnonymizerLaws.TenantQueryMatched | src/prod_monitoring/anonymizer.py:30 | `tenant=`, `tenantId=` or `tenantName=` in any case, then a value: the value becomes [TENANT_REDACTED] after the key as found |
| AnonymizerLaws.TenantQueryShape | src/prod_monitoring/anonymizer.py:30 | every match of the query rule is tenant, optionally id or name, all letters, then '=' and the longest non-empty value |
| AnonymizerLaws.EmailNeedsAt | src/prod_monitoring/anonymizer.py:13 | both e-mail patterns find nothing in text without '@' |
| AnonymizerLaws.QuotedFieldNeedsQuote | src/prod_monitoring/anonymizer.py:14-18 | the `key='v'` patterns, here and in the older anonymizer, find nothing in text without a quote |
| AnonymizerLaws.UserNameJsonNeedsQuote | src/prod_monitoring/anonymizer.py:15 | the JSON userName pattern finds nothing in text without a double quote |
| AnonymizerLaws.FullNameNeedsSpace | src/prod_monitoring/anonymizer.py:16 | the name pattern finds nothing in text without whitespace |
| AnonymizerLaws.UserBracketNeedsColon | src/prod_monitoring/anonymizer.py:19 | the `[user: v]` pattern finds nothing in text without a colon |
| AnonymizerLaws.PhoneNeedsDigit | src/prod_monitoring/anonymizer.py:20 | the phone pattern finds nothing in text without digits |
| AnonymizerLaws.BracketedIdNeedsDigit | src/prod_monitoring/anonymizer.py:23 | the bracketed-id pattern finds nothing in text without digits |
| AnonymizerLaws.BracketedKvNeedsSeparator | src/prod_monitoring/anonymizer.py:24 | the bracketed key pattern finds nothing at a '[' with no ':' or '=' after it |
| AnonymizerLaws.KvFromNeedsSeparator | src/prod_monitoring/anonymizer.py:26 | no key alternative matches in text without ':' or '=' |
| AnonymizerLaws.PathNeedsSlash | src/prod_monitoring/anonymizer.py:29 | the path rule finds nothing in text without '/' |
| AnonymizerLaws.QueryNeedsEquals | src/prod_monitoring/anonymizer.py:30 | the query rule finds nothing in text without '=' |
| AnonymizerLaws.TenantFreeUnchanged | src/prod_monitoring/anonymizer.py:37-57 | the tenant pass, with either key rule, leaves text without ':', '=' and '/', and without '[' or digits, as it is |
| AnonymizerLaws.PiiFreeUnchanged | src/prod_monitoring/anonymizer.py:70-80 | the eight substitutions between the tenant passes leave text without '@', quotes, colons, whitespace and digits as it is |
| AnonymizerLaws.AddressEmailRule | src/prod_monitoring/anonymizer.py:70 | the e-mail substitution turns a message that is one address into [EMAIL_REDACTED] |
| AnonymizerLaws.EmailThenInert | src/prod_monitoring/anonymizer.py:70-80 | after that the rest of the substitutions leave [EMAIL_REDACTED] as it is |
| AnonymizerLaws.AnonymizeAddress | src/prod_monitoring/anonymizer.py:60-85 | a message that is one e-mail address becomes [EMAIL_REDACTED], in the pipeline as written and in the corrected one |
| AnonymizerLaws.AnonymizeStages | src/prod_monitoring/anonymizer.py:60-85 | when the first tenant pass gives text the substitutions between the passes cannot touch, the result is the second tenant pass over it |
| AnonymizerLaws.CorrectedAnonymizeStages | src/prod_monitoring/anonymizer.py:60-85 | the same for the corrected pipeline |
| AnonymizerLaws.KvTokenKeyRule | src/prod_monitoring/anonymizer.py:51 | the key rule, either one, takes a lone `key=value` whole and writes `key=[TENANT_REDACTED]` with the key as found |
| AnonymizerLaws.KvTokenFirstPass | src/prod_monitoring/anonymizer.py:42-55 | the first tenant pass over a lone `key=value` gives `key=[TENANT_REDACTED]`, with either key rule |
| AnonymizerLaws.QueryKeepsRedacted | src/prod_monitoring/anonymizer.py:55 | in text whose only '=' is that of a final "=[TENANT_REDACTED]" the query rule gives back whatever it takes |
| AnonymizerLaws.KeyFamilies | src/prod_monitoring/anonymizer.py:26 | of the eleven keys only tenant, tenantId and tenantName start with "tenant", and no other holds "te" |
| AnonymizerLaws.RedactedKeyBrackets | src/prod_monitoring/anonymizer.py:42-43 | the bracketed rules find nothing in `key=[TENANT_REDACTED]` |
| AnonymizerLaws.RedactedKeyStray | src/prod_monitoring/anonymizer.py:51 | as written the key rule matches `key=[TENANT_REDACTED]` again and leaves `key=[TENANT_REDACTED]]` |
| AnonymizerLaws.RedactedKeyKept | src/prod_monitoring/anonymizer.py:51 | the corrected key rule leaves `key=[TENANT_REDACTED]` as it is |
| AnonymizerLaws.StrayNoPath | src/prod_monitoring/anonymizer.py:54 | the path rule finds nothing in `key=[TENANT_REDACTED]]` |
| AnonymizerLaws.RedactedKeySecondPass | src/prod_monitoring/anonymizer.py:42-55 | the second tenant pass as written hands `key=[TENANT_REDACTED]]` to the query rule |
| AnonymizerLaws.CorrectedRedactedKeySecondPass | src/prod_monitoring/anonymizer.py:42-55 | the corrected second tenant pass leaves `key=[TENANT_REDACTED]` as it is, for every key |
| AnonymizerLaws.StrayQueryTenant | src/prod_monitoring/anonymizer.py:55 | for tenant, tenantId and tenantName the query rule turns `key=[TENANT_REDACTED]]` back into `key=[TENANT_REDACTED]` |
| AnonymizerLaws.StrayQueryOther | src/prod_monitoring/anonymizer.py:55 | for every other key the query rule finds nothing there and the stray ']' stays |
| AnonymizerLaws.StrayQuery | src/prod_monitoring/anonymizer.py:55 | both cases, split by whether the lower-cased key starts with "tenant" |
| AnonymizerLaws.AnonymizeKvToken | src/prod_monitoring/anonymizer.py:60-85 | as written, a lone `key=value` comes out as `key=[TENANT_REDACTED]` for the tenant keys and as `key=[TENANT_REDACTED]]` for every other key |
| AnonymizerLaws.CorrectedAnonymizeKvToken | src/prod_monitoring/anonymizer.py:60-85 | the corrected pipeline gives `key=[TENANT_REDACTED]` for every key |
| AnonymizerLaws.RedactKvToken | src/prod_monitoring/anonymizer.py:37-57 | `_redact_tenant_like_values` redacts a lone `key=value`; run again on the result it adds a stray ']' as written for the keys outside the tenant family, and leaves it alone when corrected |
| AnonymizerLaws.PathTokenPass | src/prod_monitoring/anonymizer.py:42-55 | a tenant pass, with either key rule, turns `/tenants/` and a path value into `/tenants/[TENANT_REDACTED]` |
| AnonymizerLaws.RedactTenantPath | src/prod_monitoring/anonymizer.py:37-57 | `_redact_tenant_like_values` turns `/tenants/` and a path value into `/tenants/[TENANT_REDACTED]`, as written and corrected |
| AnonymizerLaws.AnonymizeTenantPath | src/prod_monitoring/anonymizer.py:60-85 | a message that is `/tenants/` and a path value becomes `/tenants/[TENANT_REDACTED]` in both pipelines: the second pass takes the placeholder as a segment and writes it again |
| LegacyAnonymizer.LastBoundary | anonymizer.py:27 | the greedy run gives characters back to the last position in range where \b holds, and there is none when no position has one |
| LegacyAnonymizer.LegacyAnonymizeLogMessage | anonymizer.py:19-20 | an empty or all-whitespace message is returned unchanged; its substitutions after the e-mail one are those of the newer anonymizer, so the AnonymizerLaws Matched lemmas describe them too |
| LegacyAnonymizer.LegacyEmailAt | anonymizer.py:26-30 | model of the older e-mail pattern, whose top-level-domain class admits the bar character as well as letters; stated by LegacyEmailAcceptsBar and LegacyAddressEmailRule |
| LegacyAnonymizer.LegacyEmailAcceptsBar | anonymizer.py:26-30 | every address between word boundaries whose top-level domain holds a bar is matched whole by the older pattern, and never whole by the newer one |
| LegacyAnonymizer.BarStopsNewerEmail | src/prod_monitoring/anonymizer.py:13 | a match of the newer e-mail pattern never runs over a bar character |
| LegacyAnonymizer.LegacyAddressEmailRule | anonymizer.py:26-30 | the older e-mail substitution turns a message that is one address into [EMAIL_REDACTED] |
| LegacyAnonymizer.LegacyAnonymizeAddress | anonymizer.py:9-84 | a message that is one e-mail address comes out of the older pipeline as [EMAIL_REDACTED] |
| LegacyAnonymizer.PlainNoLegacyMatch | anonymizer.py:22-82 | none of the eight patterns matches text without '@', quotes, '[', whitespace and digits |
| LegacyAnonymizer.LegacyPlainUnchanged | anonymizer.py:9-84 | such text is returned unchanged |
| LegacyAnonymizer.LegacyNoMatch | anonymizer.py:9-84 | a message in which none of the eight patterns matches is returned unchanged |
| Consolidator.HighRows | src/prod_monitoring/consolidator.py:183-189 | the number of rows above 80 never exceeds the number of rows of the table |
| Consolidator.SumOccurrences | src/prod_monitoring/consolidator.py:173-178 | the loop's total is ErrorTotal: int() of each row's "Occurrence Count", rows that do not parse adding nothing |
| Consolidator.CountHighValues | src/prod_monitoring/consolidator.py:183-198 | the loop over one CPU or memory table counts exactly the rows whose float value is above 80 |
| Consolidator.GenerateMetricsSummary | src/prod_monitoring/consolidator.py:159-203 | the method's summary is the specification SummaryOf of the region's tables |
| Consolidator.ErrorTotalAppend | src/prod_monitoring/consolidator.py:173-178 | the error total over two row lists is the sum of their totals |
| Consolidator.HighRowsAppend | src/prod_monitoring/consolidator.py:183-198 | the high-value count over two row lists is the sum of their counts |
| Consolidator.HighCountAppend | src/prod_monitoring/consolidator.py:181-198 | tables contribute independently to the CPU and memory counts |
| Consolidator.PerformanceRowsAppend | src/prod_monitoring/consolidator.py:200-201 | tables contribute independently to the performance-issue count |
| Consolidator.ErrorFields | src/prod_monitoring/consolidator.py:161-178 | metrics_collected is the number of tables; with a classified_errors table the unique patterns are its row count and the total its occurrence sum; without one both stay 0 |
| Consolidator.ErrorTotalOfCounts | src/prod_monitoring/consolidator.py:173-178 | counts written as decimal integers add up to their sum |
| Consolidator.OccurrenceOfCount | src/prod_monitoring/consolidator.py:174-176 | a count written as the decimal form of n contributes n |
| Consolidator.UnparseableSkipped | src/prod_monitoring/consolidator.py:175-178 | a row whose count is missing or is not an integer changes nothing |
| Consolidator.TableContribution | src/prod_monitoring/consolidator.py:181-201 | appending a table adds its high rows to the CPU count when its lower-cased name contains "cpu", to the memory count when it contains "memory", and all its rows to the performance issues when it contains latency, duration or response |
| Consolidator.CountsBounded | src/prod_monitoring/consolidator.py:181-201 | each of the three counts is at most the total number of rows of all tables |
| Consolidator.PngNames | src/prod_monitoring/consolidator.py:153-155 | the kept names are exactly the listed names ending in ".png" |
| Consolidator.ListScreenshots | src/prod_monitoring/consolidator.py:146-157 | no directory gives no screenshots; otherwise the result is sorted and a permutation of the ".png" entries of the listing |
| Consolidator.PngNamesAppend | src/prod_monitoring/consolidator.py:153-155 | filtering distributes over concatenated listings |
| Consolidator.MonitoringConsolidator.constructor | src/prod_monitoring/consolidator.py:34-41 | a new consolidator holds no services |
| Consolidator.MonitoringConsolidator.CollectRegion | src/prod_monitoring/consolidator.py:84-105 | a region directory stores its tables (none without csv_data), its sorted screenshots and the summary of its tables |
| Consolidator.MonitoringConsolidator.CollectServiceData | src/prod_monitoring/consolidator.py:68-107 | the service's region dictionary (empty when new) gets every directory entry of the listing, in order, and only that service changes |
| Consolidator.MonitoringConsolidator.ExecutiveSummary | src/prod_monitoring/consolidator.py:314-338 | the totals and the critical issues are those of the specification over the stored services |
| Consolidator.AddRegionsFound | src/prod_monitoring/consolidator.py:76-107 | a directory entry that no later entry of the same name shadows is stored with its own data |
| Consolidator.AddRegionsOther | src/prod_monitoring/consolidator.py:76-107 | a region name that no directory entry carries keeps its earlier data |
| Consolidator.CollectKeepsOthers | src/prod_monitoring/consolidator.py:70-73 | storing one service's regions leaves every other service's regions as they were |
| Consolidator.SummarizeRegions | src/prod_monitoring/consolidator.py:328-338 | the region loop of one service sums errors and patterns and lists the issues of the specification |
| Consolidator.RegionsSingle | src/prod_monitoring/consolidator.py:328-338 | one region contributes its own total, pattern count and issues |
| Consolidator.RegionsAppend | src/prod_monitoring/consolidator.py:328-338 | regions contribute independently, their issues in order |
| Consolidator.ServicesAppend | src/prod_monitoring/consolidator.py:323-338 | services contribute independently, their issues in order |
| Consolidator.RegionFlagged | src/prod_monitoring/consolidator.py:334-338 | a region with more than 100 errors gets "service/region: N errors", one with a CPU count above 10 gets "High CPU detected" |
| Consolidator.CriticalComplete | src/prod_monitoring/consolidator.py:323-338 | every SRA or SRM region past a limit appears among the critical issues |
| Consolidator.RegionsIssuesSound | src/prod_monitoring/consolidator.py:333-338 | every issue of a service comes from one of its regions past a limit |
| Consolidator.CriticalSound | src/prod_monitoring/consolidator.py:323-338 | every critical issue comes from an SRA or SRM region past one of the limits; other services add none |
| ErrorTally.TallyRows | src/prod_monitoring/classify_errors.py:150-174 | the row loop's Counter, first samples and last locations are the specification TallyOf of the rows read, and every row read is counted in total_errors |
| ErrorTally.AppendFresh | src/prod_monitoring/csv_helper.py:92 | a signature the Counter has not seen joins its key order without a duplicate |
| ErrorTally.SumCountsIgnores | src/prod_monitoring/csv_helper.py:92 | a count stored under a signature not in the order changes no total |
| ErrorTally.SumCountsBump | src/prod_monitoring/csv_helper.py:92 | `error_signatures[signature] += 1` on a known signature adds one to the total |
| ErrorTally.Step | src/prod_monitoring/csv_helper.py:81-101 | model of one pass of the row loop: an empty message is skipped, otherwise the signature's count, first sample and last location are updated; stated by StepValid, StepSeen and StepNew |
| ErrorTally.TallyOf | src/prod_monitoring/csv_helper.py:81-101 | model of the state after the loop has read the rows; stated by TallyValid, TallyCounts, TallySamples, TallyLocations and TallyOrder |
| ErrorTally.StepValid | src/prod_monitoring/csv_helper.py:81-101 | one pass of the loop keeps the maps consistent and adds one to the total exactly when the message is not empty |
| ErrorTally.StepSeen | src/prod_monitoring/csv_helper.py:92-101 | a known signature keeps its place and sample and gets one more occurrence and the new location |
| ErrorTally.StepNew | src/prod_monitoring/csv_helper.py:92-101 | a new signature is appended with count 1, this message as sample and this location |
| ErrorTally.StepNewValid | src/prod_monitoring/csv_helper.py:92-101 | adding a new signature keeps the maps consistent |
| ErrorTally.StepNewSum | src/prod_monitoring/csv_helper.py:92 | adding a new signature with count 1 adds one to the total |
| ErrorTally.TallyValid | src/prod_monitoring/csv_helper.py:81-101 | after the loop the maps are consistent and the counts add up to the number of rows with a non-empty message |
| ErrorTally.EmptyTallyValid | src/prod_monitoring/csv_helper.py:73-76 | the empty Counter and dictionaries are consistent |
| ErrorTally.TallyCounts | src/prod_monitoring/csv_helper.py:85-92 | a signature is counted exactly when some non-empty message has it, and its count is the number of such rows |
| ErrorTally.TallySamples | src/prod_monitoring/csv_helper.py:95-96 | the sample of a signature is the message of its first row and is never replaced |
| ErrorTally.TallyLocations | src/prod_monitoring/csv_helper.py:99-100 | the location kept for a signature is that of its last row |
| ErrorTally.FirstRowInInit | src/prod_monitoring/csv_helper.py:95-96 | a signature already seen before the last row has its first row among the earlier rows |
| ErrorTally.TallyOrder | src/prod_monitoring/csv_helper.py:92 | the Counter lists signatures in the order of their first rows |
| ErrorTally.NewAtLast | src/prod_monitoring/csv_helper.py:92-96 | a signature that enters the Counter with the last row has its first row there |
| ErrorTally.DistinctCard | src/prod_monitoring/classify_errors.py:208 | `len(error_signatures)` is the number of distinct signatures listed |
| ErrorTally.Entries | src/prod_monitoring/csv_helper.py:115-124 | one row per signature in the Counter's order, with its count, location and sample |
| ErrorTally.Ranked | src/prod_monitoring/csv_helper.py:113 | the written table is a permutation of the entries, sorted by count, largest first |
| ErrorTally.RankedTies | src/prod_monitoring/csv_helper.py:113 | signatures with the same count keep the Counter's first-seen order, as Python's stable sort with reverse=True does |
| ErrorTally.ClassifyAndSaveErrors | src/prod_monitoring/csv_helper.py:67-124 | the rows written to classified_errors.csv are the ranked tally of the rows under the newer signature extractor |
| ErrorTally.ClassifyErrorLogs | src/prod_monitoring/classify_errors.py:124-212 | a missing file gives `{}`; otherwise the table is the ranked tally under the older extractor, total_errors counts every row read, unique_patterns the distinct signatures and top_errors the first ten ranked rows |
| ErrorTally.TopErrors | src/prod_monitoring/classify_errors.py:209 | `sorted_errors[:10]`: the first min(10, n) ranked rows as (signature, count) pairs |
| LogCleaning.ReplaceControls | src/prod_monitoring/log_helper.py:55 | `replace('\r', ' ').replace('\t', ' ')` keeps the length and turns exactly the CR and tab characters into spaces |
| LogCleaning.CleanLogMessage | src/prod_monitoring/log_helper.py:40-61 | the line loop returns the specification CleanText: "" for blank input, otherwise the kept lines normalized and joined by "\n" in their original order |
| LogCleaning.CleanLinesSnoc | src/prod_monitoring/log_helper.py:51-57 | one pass of the line loop appends the normalized line exactly when it is not blank, holds no noise pattern and normalizes to something |
| LogCleaning.SingleSpacedNoControls | src/prod_monitoring/log_helper.py:55 | a whitespace-normalized line holds no tab, CR or newline |
| LogCleaning.ReplaceControlsKeepsOccurrences | src/prod_monitoring/log_helper.py:53-55 | a noise pattern without whitespace found after replacing CR and tab was already in the line |
| LogCleaning.WordsOccur | src/prod_monitoring/log_helper.py:55 | every word of `split()` occurs in the line |
| LogCleaning.JoinSpaceOccurrence | src/prod_monitoring/log_helper.py:55 | a pattern without whitespace in the space-joined words lies inside one word |
| LogCleaning.NormalizeKeepsOccurrences | src/prod_monitoring/log_helper.py:53-55 | normalizing a line introduces no noise pattern |
| LogCleaning.CleanLinesAreClean | src/prod_monitoring/log_helper.py:50-57 | every kept line is non-empty, single-spaced with no edge spaces, free of tabs and CRs and of every noise pattern |
| LogCleaning.CleanLinesAppend | src/prod_monitoring/log_helper.py:51-57 | lines are kept independently, in order |
| LogCleaning.SplitOnJoin | src/prod_monitoring/log_helper.py:61 | splitting the "\n"-joined lines on "\n" gives the lines back when none holds a newline |
| LogCleaning.CleanTextLines | src/prod_monitoring/log_helper.py:50-61 | the lines of the cleaned message are exactly the kept lines, or the message is "" when none is kept |
| LogCleaning.KeptLineStable | src/prod_monitoring/log_helper.py:53-56 | a kept line stays kept once normalized, and normalizing it twice changes nothing |
| LogCleaning.CleanLinesIdempotent | src/prod_monitoring/log_helper.py:50-57 | filtering the kept lines again keeps all of them unchanged |
| LogCleaning.CleanTextIdempotent | src/prod_monitoring/log_helper.py:40-61 | cleaning a cleaned message changes nothing |
| LogHelper.ShouldExcludeLog | src/prod_monitoring/log_helper.py:27-38 | an entry is dropped exactly when it is blank or contains "NotificationDispatcherImpl" |
| LogHelper.NoiseWithoutSpace | src/prod_monitoring/log_helper.py:46-47 | none of the nine noise patterns holds whitespace |
| LogHelper.ProcessLogEvents | src/prod_monitoring/log_helper.py:88-107 | the event loop's rows are the specification ProcessedRows: excluded events and events that clean to "" give no row, every other event one row with its anonymized cleaned message, in input order |
| LogHelper.ProcessedRowsAppend | src/prod_monitoring/log_helper.py:91-106 | events are converted independently, in order |
| LogHelper.SingleEventRow | src/prod_monitoring/log_helper.py:92-106 | one event gives no row exactly when it is excluded or cleans to ""; otherwise exactly the row with its timestamp and its anonymized cleaned message |
| LogHelper.CollectErrorLogs | src/prod_monitoring/log_helper.py:109-171 | missing limits take the configured defaults, and the rows are those of the pagination specification followed, after an exception, by the error row |
| LogPaging.CollectPages | src/prod_monitoring/log_helper.py:136-167 | the pagination loop returns the rows of the specification FetchAll, with the synthetic error row appended when a fetch raised |
| LogPaging.ContinueBounds | src/prod_monitoring/log_helper.py:147-154 | the loop never removes rows, makes no more than max_iterations fetches, and without an exception stops only for a missing token, enough rows or the iteration cap |
| LogPaging.FetchAllBounds | src/prod_monitoring/log_helper.py:139-155 | there is at least one and at most max(1, max_iterations) fetch, and without an exception the loop stops for no token, at least max_entries rows or the iteration cap |
| LogPaging.CollectedShape | src/prod_monitoring/log_helper.py:139-167 | the first page's rows come first; an exception adds exactly one "Log fetch error from …" row after the rows collected so far; otherwise nothing is added |
| LegacyLogHelper.LegacyNoiseWithoutSpace | log_helper.py:15 | none of the five noise patterns holds whitespace |
| LegacyLogHelper.LegacyProcessLogEvents | log_helper.py:58-66 | exactly one row per event, in order, with the cleaned message whether it is empty or not |
| LegacyLogHelper.LegacyEventRowClean | log_helper.py:9-29 | the older cleaning gives "" for blank input, keeps only non-empty single-spaced lines free of the five patterns, and is idempotent |
| LegacyLogHelper.LegacyCollectErrorLogs | log_helper.py:83-120 | the rows are those of the same pagination specification over the older event conversion, with the error row after an exception |
| Metrics.GetMetricTypes | src/prod_monitoring/metrics_helper.py:14-22 | the five fixed keys in order, with the service name in the internal errors and internal performance names |
| Metrics.ThresholdChoice | src/prod_monitoring/metrics_helper.py:117-128 | "Error" in the name gives threshold 0 and Sum, and wins; otherwise "CPU" or "Memory" gives 70 and Maximum; otherwise 500 and Average |
| Metrics.ErrorTypeChoices | src/prod_monitoring/metrics_helper.py:17-18 | both error metric types get threshold 0 and Sum |
| Metrics.GaugeChoice | src/prod_monitoring/metrics_helper.py:21 | "Max CPU and Memory" gets threshold 70 and Maximum |
| Metrics.ExternalPerformanceChoice | src/prod_monitoring/metrics_helper.py:20 | the external performance type gets threshold 500 and Average |
| Metrics.InternalPerformanceChoice | src/prod_monitoring/metrics_helper.py:19 | the SRA and SRM internal performance types get threshold 500 and Average |
| Metrics.MetricTypeChoices | src/prod_monitoring/metrics_helper.py:14-22 | for SRA and SRM the name-based choice agrees with each metric type's declared type: Error, gauge or Performance |
| Metrics.ReplaceChar | src/prod_monitoring/metrics_helper.py:97 | `str.replace` of one character keeps the length and replaces exactly that character |
| Metrics.MetricIdShape | src/prod_monitoring/metrics_helper.py:97 | the Id holds no whitespace, '.', '-' or upper-case letter |
| Metrics.MetricIdOfId | src/prod_monitoring/metrics_helper.py:97 | a string made only of Id characters is its own Id |
| Metrics.MetricIdIdempotent | src/prod_monitoring/metrics_helper.py:97 | building the Id of an Id changes nothing |
| Metrics.GetMetricQuery | src/prod_monitoring/metrics_helper.py:69-111 | the loop builds the query of the specification QueryOf: namespace def[0], metric name def[1], the kept pairs from index 2 in order, the Id, PERIOD and the given Stat |
| Metrics.KeptPairsMember | src/prod_monitoring/metrics_helper.py:86-94 | a dimension is in the query exactly when it is one of the visited pairs and has no "." key or value |
| Metrics.KeptPairsPrefix | src/prod_monitoring/metrics_helper.py:86-94 | the dimensions keep the order of the pairs: those of fewer pairs are a prefix |
| Metrics.TrailingIgnored | src/prod_monitoring/metrics_helper.py:88 | a trailing unpaired element adds no pair and no dimension |
| Metrics.KeptPairsAgree | src/prod_monitoring/metrics_helper.py:86-94 | the dimensions depend only on the visited pairs |
| Metrics.FirstTitled | src/prod_monitoring/metrics_helper.py:63-64 | the widget found is the first whose title equals the argument, and there is none when no title does |
| Metrics.GetMetricsList | src/prod_monitoring/metrics_helper.py:57-66 | the metrics of the first widget with that title (`[]` when it has none), and `[]` when no widget has the title |
| Metrics.GetMetricsWithThreshold | src/prod_monitoring/metrics_helper.py:45-54 | errorCount is the sum of the values strictly above the threshold and errorsDict the dictionary the loop fills with them, by timestamp |
| Metrics.ErrorsDictKeys | src/prod_monitoring/metrics_helper.py:49-52 | a timestamp is a key exactly when some value at that timestamp is above the threshold |
| Metrics.ErrorsDictValues | src/prod_monitoring/metrics_helper.py:49-52 | every stored value is above the threshold and is the value at its timestamp |
| Metrics.ErrorCountIsSum | src/prod_monitoring/metrics_helper.py:49-52 | with distinct timestamps the values of errorsDict add up to errorCount |
| Metrics.ErrorsDictDistinct | src/prod_monitoring/metrics_helper.py:52 | errorsDict lists each timestamp once |
| Metrics.LookupDistinct | src/prod_monitoring/metrics_helper.py:138 | iterating `errorsDict.items()` yields each key with its stored value |
| Metrics.ProcessMetricType | src/prod_monitoring/metrics_helper.py:114-140 | the rows are those of the specification GroupRows for the metrics of the widget titled with the type's name, under the name-based threshold and statistic |
| Metrics.GroupRowsAboveThreshold | src/prod_monitoring/metrics_helper.py:130-139 | every row written is above the threshold and names the metric of one of the definitions |
| LegacyMetrics.LegacyChoice | metrics_helper.py:71-72 | type "Error" gives threshold 0 and Sum, every other type 500 and Average |
| LegacyMetrics.LegacyChoiceAgrees | metrics_helper.py:7-12 | for the four fixed metric types the older type-based choice agrees with the newer name-based one |
| LegacyMetrics.LegacyInternalErrors | metrics_helper.py:8 | "SRA MS Errors" gets threshold 0 and Sum under the name-based rule |
| LegacyMetrics.LegacyInternalPerformance | metrics_helper.py:10 | "SRA performance in MS" gets threshold 500 and Average under the name-based rule |
| LegacyMetrics.LegacyGetMetricQuery | metrics_helper.py:53-66 | the query has the fixed namespace, the one `type=gauge` dimension, period 60 and an Id free of whitespace, '.', '-' and upper case |
| LegacyMetrics.LegacyQueryAsDefinition | metrics_helper.py:53-66 | the older query is the newer one built from [namespace, name, "type", "gauge"], with period 60 |
| LegacyMetrics.LegacyGetMetricsList | metrics_helper.py:47-51 | the second element of each metric of the first widget with that title, `[]` when no widget has it |
| LegacyMetrics.ReportMetricType | metrics_helper.py:69-75 | the loop over one metric type's metrics gives one threshold report per metric name, in order |
| LegacyMetrics.LegacyAllMetricDetails | metrics_helper.py:68-76 | the run over all four metric types gives their reports in order |
| LegacyMetrics.ReportsAboveThreshold | metrics_helper.py:38-41 | every value a report keeps is above its threshold |
| Normalizer.UuidAt | src/prod_monitoring/csv_helper.py:231 | model of the UUID pattern under IGNORECASE, fixed width 36 between word boundaries; stated by NormalizerLaws.UuidAtToken and UuidAtBefore |
| Normalizer.HexIdAt | src/prod_monitoring/csv_helper.py:232 | model of `\b[0-9a-f]{16}\b`; stated by NormalizerLaws.HexWordMatchers |
| Normalizer.LongHexAt | src/prod_monitoring/classify_errors.py:64 | model of the classify_errors rule `\b[0-9a-f]{12,}\b`, a greedy run that must end at a word boundary; stated by NormalizerLaws.HexWordMatchers |
| Normalizer.TimestampAt | src/prod_monitoring/csv_helper.py:233 | model of the ISO timestamp pattern with its optional fraction and Z; stated by NormalizerLaws.TimestampAtRun and TimestampAtShift |
| Normalizer.ClockTimeAt | src/prod_monitoring/csv_helper.py:234 | model of `\d{2}:\d{2}:\d{2}\.\d+`; no property beyond its place in the chain |
| Normalizer.QuotedIdAt | src/prod_monitoring/csv_helper.py:235 | model of `'[0-9]+'`; no property beyond its place in the chain |
| Normalizer.TenantTagAt | src/prod_monitoring/csv_helper.py:236 | model of the bracketed tenant tag with four underscore-separated word parts, the last ending in a digit; no property beyond its place in the chain |
| Normalizer.PayloadAt | src/prod_monitoring/csv_helper.py:237-239 | model of the three `Name{...}` payload patterns; no property beyond their place in the chain |
| Normalizer.LongBracketAt | src/prod_monitoring/csv_helper.py:240 | model of a bracket block of at least 50 (here) or 40 (first-line chain) characters; no property beyond its place in the chain |
| Normalizer.NumberAt | src/prod_monitoring/csv_helper.py:241 | model of `\b\d{3,}\b`; stated by NormalizerLaws.NumberAtRun, NumberAtPrefix and NumberAtShift |
| Normalizer.NormalizeErrorMessage | src/prod_monitoring/csv_helper.py:228-242 | model of `_normalize_error_message`: the eleven substitutions in program order, then the whitespace collapse; stated by NormalizedIsSingleSpaced and the invariance lemmas |
| Normalizer.LegacyNormalizeErrorMessage | src/prod_monitoring/classify_errors.py:55-95 | model of classify_errors `normalize_error_message`, the same chain with the 12-or-more hex rule after the 16-hex one; stated by NormalizedIsSingleSpaced and the Legacy invariance lemmas |
| Normalizer.WordBraceAt | src/prod_monitoring/csv_helper.py:150 | model of `\b\w+\{[^\n\r]{0,2000}\}`, whose greedy window backs off to the last '}' of the line; no property beyond its place in the chain |
| Normalizer.UrlAt | src/prod_monitoring/csv_helper.py:156 | model of `https?://\S+`; no property beyond its place in the chain |
| Normalizer.LongKeyValueAt | src/prod_monitoring/csv_helper.py:159 | model of `\b\w+=[^,\s]{12,}`; no property beyond its place in the chain |
| Normalizer.LongQuotedAt | src/prod_monitoring/csv_helper.py:162-163 | model of the two long quoted-payload patterns; no property beyond their place in the chain |
| Normalizer.NormalizeFirstErrorLine | src/prod_monitoring/csv_helper.py:139-167 | model of `_normalize_first_error_line`: empty text stays empty, otherwise the seven substitutions and a final strip(); stated by Signature.ErrorLinePart |
| Normalizer.NormalizedIsSingleSpaced | src/prod_monitoring/csv_helper.py:242 | both normalizers (this line and its twin in classify_errors.py) end with the whitespace collapse: no space at either end, no tab or newline, no double space |
| NormalizerLaws.UuidInvariance | src/prod_monitoring/csv_helper.py:231 | two messages that differ only in one UUID, in any case, standing as a whole word, normalize to the same text under both chains |
| NormalizerLaws.UuidSubAgree | src/prod_monitoring/csv_helper.py:231 | the UUID substitution gives the same text for the two messages |
| NormalizerLaws.UuidAtToken | src/prod_monitoring/csv_helper.py:231 | a UUID with a word boundary on both sides is matched whole |
| NormalizerLaws.UuidAtBefore | src/prod_monitoring/csv_helper.py:231 | a match that starts before the UUID ends before it |
| NormalizerLaws.UuidMatchAlike | src/prod_monitoring/csv_helper.py:231 | strings that differ only in which hex digits they hold have the same UUID matches |
| NormalizerLaws.NumberInvariance | src/prod_monitoring/csv_helper.py:241 | two messages that differ only in one standalone number of three or more digits normalize alike, provided no earlier substitution of the chain applies |
| NormalizerLaws.LegacyNumberInvariance | src/prod_monitoring/classify_errors.py:91 | the same for the longer classify_errors chain |
| NormalizerLaws.NumberSubAgree | src/prod_monitoring/csv_helper.py:241 | the number substitution gives the same text for the two messages |
| NormalizerLaws.NumberAtRun | src/prod_monitoring/csv_helper.py:241 | a whole-word run of three or more digits is matched whole |
| NormalizerLaws.NumberAtPrefix | src/prod_monitoring/csv_helper.py:241 | a number match starting before a non-word character only depends on the text before it |
| NormalizerLaws.NumberAtShift | src/prod_monitoring/csv_helper.py:241 | after a word character, number matches depend only on the text that follows, shifted |
| NormalizerLaws.BoundaryShift | src/prod_monitoring/csv_helper.py:241 | word boundaries after a word character depend only on the text that follows |
| NormalizerLaws.TimestampInvariance | src/prod_monitoring/csv_helper.py:233 | two messages that differ only in one ISO timestamp normalize alike, provided the UUID and 16-hex substitutions do not apply |
| NormalizerLaws.LegacyTimestampInvariance | src/prod_monitoring/classify_errors.py:67 | the same for the classify_errors chain |
| NormalizerLaws.TimestampSubAgree | src/prod_monitoring/csv_helper.py:233 | the timestamp substitution gives the same text for the two messages |
| NormalizerLaws.TimestampAtRun | src/prod_monitoring/csv_helper.py:233 | an ISO timestamp not followed by a word character or '.' is matched whole, with its fraction and 'Z' |
| NormalizerLaws.TimestampAtCovering | src/prod_monitoring/csv_helper.py:233 | no timestamp match can start fewer than 19 characters before a separator that is not '-', ':' or '.' |
| NormalizerLaws.TimestampAtInside | src/prod_monitoring/csv_helper.py:233 | a timestamp match that fits before such a separator depends only on the text before it |
| NormalizerLaws.TimestampAtShift | src/prod_monitoring/csv_helper.py:233 | a timestamp match depends only on the text from its start on |
| NormalizerLaws.TimestampSubShift | src/prod_monitoring/csv_helper.py:233 | replacing one matched timestamp by another keeps the output of the substitution |
| NormalizerLaws.FitsAtSame | src/prod_monitoring/csv_helper.py:231-234 | a fixed-width pattern sees only the characters it covers |
| NormalizerLaws.HexWordMatchers | src/prod_monitoring/classify_errors.py:63-64 | a whole word of 12 or more lower-case hex digits is matched whole by the 12-or-more rule, by the 16-hex rule (also the one of csv_helper.py) only at length 16, and by the number rule only when it is all digits |
| Signature.SearchIsFirst | src/prod_monitoring/csv_helper.py:171-177 | `re.search` finds the leftmost position where the pattern matches, and nothing only when no position matches |
| Signature.LineTailSome | src/prod_monitoring/csv_helper.py:176 | the message group of the exception pattern: after optional spaces the lazy group runs to the end of the line |
| Signature.LineTailNone | src/prod_monitoring/csv_helper.py:176 | the tail fails exactly when only spaces come before the line break |
| Signature.AfterName | src/prod_monitoring/csv_helper.py:176 | a name is followed by ':' and a non-empty single-line message exactly when the colon and message part matches |
| Signature.ExceptionMatchShape | src/prod_monitoring/csv_helper.py:176-177 | the exception name found ends with "Exception" and the message is the rest of its line |
| Signature.JavaLangShape | src/prod_monitoring/csv_helper.py:176 | the same for the `java.lang.` alternative |
| Signature.PackagedShape | src/prod_monitoring/csv_helper.py:176 | the same for the `com.nice.saas.wfo.` alternative |
| Signature.PackagedEndFound | src/prod_monitoring/csv_helper.py:176 | the backtracking `\S+Exception` end found is an "Exception" followed by the colon and message part |
| Signature.WordExceptionShape | src/prod_monitoring/csv_helper.py:176 | the same for the `\w+Exception` alternative |
| Signature.LoggerAt | src/prod_monitoring/csv_helper.py:171 | the logger token after ERROR is non-empty and holds no white space |
| Signature.ErrorLineAt | src/prod_monitoring/csv_helper.py:196 | the first ERROR line's message is non-empty and on one line |
| Signature.ErrorPatternAt | src/prod_monitoring/csv_helper.py:214 | the fallback ERROR match gives a class token without white space and a non-empty single-line message |
| Signature.FrameAt | src/prod_monitoring/csv_helper.py:250 | a stack frame match gives a class path in the wfo package and a non-empty word method name |
| Signature.ErrorClassAt | src/prod_monitoring/csv_helper.py:260 | the ERROR class match is in the wfo package |
| Signature.FirstAtUnique | src/prod_monitoring/csv_helper.py:251 | the leftmost match is unique |
| Signature.LocationFromFrame | src/prod_monitoring/csv_helper.py:250-257 | with a stack frame the location is "Class.method" from the first frame |
| Signature.LocationFromErrorClass | src/prod_monitoring/csv_helper.py:259-265 | without a frame it is the last segment of the first wfo class after ERROR |
| Signature.LocationUnknown | src/prod_monitoring/csv_helper.py:266 | with neither it is "Unknown" |
| Signature.LoggerPart | src/prod_monitoring/csv_helper.py:170-173 | at most one non-empty logger name without dots |
| Signature.ErrorLinePart | src/prod_monitoring/csv_helper.py:194-200 | at most one non-empty, single-spaced ERROR-line part |
| Signature.FirstLine | src/prod_monitoring/csv_helper.py:224 | the first line, cut to 200 characters, is a prefix of the message |
| Signature.ErrorLocation | src/prod_monitoring/csv_helper.py:245-266 | model of `_extract_error_location`: the first stack frame, else the first wfo class after ERROR, else "Unknown"; stated by LocationFromFrame, LocationFromErrorClass and LocationUnknown |
| Signature.ExtractErrorSignature | src/prod_monitoring/csv_helper.py:128-226 | model of `_extract_error_signature`: blank message, exception match, ERROR-line match, first-line fallback, tried in that order; stated by BlankSignature, ExceptionSignature, ErrorLineSignature and FallbackSignature |
| Signature.BlankSignature | src/prod_monitoring/csv_helper.py:136-137 | a blank message gets ("Unknown", "Unknown", "Empty log message") |
| Signature.LastSegmentKeepsSuffix | src/prod_monitoring/csv_helper.py:180 | `split('.')[-1]` keeps a suffix free of dots |
| Signature.JoinStartsWithFirst | src/prod_monitoring/csv_helper.py:207 | joining the signature parts with the bar separator gives a text that starts with the first part |
| Signature.ExceptionSignature | src/prod_monitoring/csv_helper.py:176-211 | with an exception match the type is its last segment and ends in "Exception", the location is the extracted one; a non-generic message gives "Type: message", a generic one the join of type, logger and ERROR line |
| Signature.ExceptionBranch | src/prod_monitoring/csv_helper.py:179-211 | the first exception match decides the result |
| Signature.ExceptionKind | src/prod_monitoring/csv_helper.py:180 | the type ends in "Exception" and holds no dot |
| Signature.GenericJoin | src/prod_monitoring/csv_helper.py:193-207 | with a generic message the signature starts with the type |
| Signature.ErrorLineSignature | src/prod_monitoring/csv_helper.py:214-220 | without an exception match the first ERROR match gives ("ERROR", class, "ERROR in class: message") |
| Signature.FallbackSignature | src/prod_monitoring/csv_helper.py:224-226 | with neither match the signature is the normalized first line, under ("Unknown", "Unknown") |
| LegacySignature.LegacyExtractErrorSignature | src/prod_monitoring/classify_errors.py:12-53 | model of classify_errors `extract_error_signature`, with the wider exception pattern and the longer normalizer; stated by the LegacySignature lemmas below |
| LegacySignature.LegacyBlankSignature | src/prod_monitoring/classify_errors.py:17-18 | a blank message gets ("Unknown", "Unknown", "Empty log message") |
| LegacySignature.LegacyExceptionSignature | src/prod_monitoring/classify_errors.py:21-37 | with a match of the wider `com.nice.saas.` exception pattern the signature is always "Type: message", normalized with the longer chain |
| LegacySignature.LegacyExceptionKind | src/prod_monitoring/classify_errors.py:25 | the type ends in "Exception" and holds no dot |
| LegacySignature.LegacyExceptionBranch | src/prod_monitoring/classify_errors.py:24-37 | the first exception match decides the result |
| LegacySignature.LegacyErrorLineSignature | src/prod_monitoring/classify_errors.py:40-48 | the ERROR fallback is the newer one with the longer normalizer |
| LegacySignature.LegacyFallbackSignature | src/prod_monitoring/classify_errors.py:51-53 | the first-line fallback is the newer one with the longer normalizer |
| RdsHelper.GetRdsInstances | src/prod_monitoring/rds_helper.py:83-100 | the loop reports the instances of the specification RdsInstances: one record per target instance, and `[]` when the describe call fails |
| RdsHelper.ExactMatchWins | src/prod_monitoring/rds_helper.py:64-67 | when some instance has exactly the identifier, the targets are exactly the instances with that identifier |
| RdsHelper.PatternMatchFallback | src/prod_monitoring/rds_helper.py:68-71 | when none has it exactly, the targets are exactly the instances whose lower-cased identifier contains the lower-cased pattern |
| RdsHelper.ChosenMatchPattern | src/prod_monitoring/rds_helper.py:62-71 | every target of a short identifier is a listed instance matching the pattern case-insensitively |
| RdsHelper.TargetsByIdentifier | src/prod_monitoring/rds_helper.py:58-81 | an identifier of 1 to 29 characters filters the full listing; one of 30 or more is passed to the describe call; none or "" lists everything |
| RdsHelper.InstancesReported | src/prod_monitoring/rds_helper.py:83-100 | a failed describe call gives `[]`; otherwise one record per target in order, with its identifier and PerformanceInsightsEnabled defaulting to false |
| RdsHelper.ClampMaxResults | src/prod_monitoring/rds_helper.py:205 | `min(max(n, 1), 10)` lies between 1 and 10 |
| RdsHelper.ClampCases | src/prod_monitoring/rds_helper.py:205 | values from 1 to 10 pass unchanged, smaller ones become 1, larger ones 10 |
| RdsHelper.ClampIdempotent | src/prod_monitoring/rds_helper.py:205 | clamping twice is clamping once |
| RdsHelper.LoadSumAppend | src/prod_monitoring/rds_helper.py:226-228 | the total load of two runs of metric values is the sum of their totals |
| RdsHelper.LoadSumNumericOnly | src/prod_monitoring/rds_helper.py:227 | values that are not numbers add nothing to the total load |
| RdsHelper.QueriesOf | src/prod_monitoring/rds_helper.py:221-234 | one query record per dimension key |
| RdsHelper.TotalLoad | src/prod_monitoring/rds_helper.py:225-228 | the loop's total is the total load of the numeric metric values |
| RdsHelper.GetTopQueries | src/prod_monitoring/rds_helper.py:188-240 | the records are those of the specification TopQueries: the clamped request, one record per key, sorted by total load descending, `[]` on failure |
| RdsHelper.TopQueriesRanked | src/prod_monitoring/rds_helper.py:232-237 | the ranked records are a permutation of the built ones, by non-increasing total load, stable among equal loads, and each query text is at most 500 characters |
| RdsHelper.QueryOfKey | src/prod_monitoring/rds_helper.py:222-234 | a record's total load sums the numeric metric values; its text is "N/A" without a `db.sql.statement` dimension, otherwise its first 500 characters |
| RdsHelper.TopQueriesRequest | src/prod_monitoring/rds_helper.py:205-240 | a failed request gives `[]`; the request's MaxResults is between 1 and 10 |
| RdsHelper.PointRecords | src/prod_monitoring/rds_helper.py:171-177 | one error record per data point of a metric |
| RdsHelper.GetRdsDatabaseErrors | src/prod_monitoring/rds_helper.py:151-185 | the loop builds the records of the specification ErrorRecords over the four error metric names in order |
| RdsHelper.ErrorRecordsTagged | src/prod_monitoring/rds_helper.py:168-185 | there is one record per data point of the four metrics, and each carries the instance and one of the metric names |
| RdsHelper.ErrorRecordsComplete | src/prod_monitoring/rds_helper.py:168-177 | every data point of every error metric appears as a record |
| RdsHelper.ThresholdFilter | src/prod_monitoring/rds_helper.py:341-343 | without a threshold every point is kept; with one, exactly the points whose value is strictly above it, and never more points |
| RdsHelper.ThresholdBelowAll | src/prod_monitoring/rds_helper.py:343 | when every value is above the threshold nothing is dropped |
| RegionReport.BaseName | src/prod_monitoring/generate_region_report.py:43 | `os.path.basename`: the part of the path after its last '/' |
| RegionReport.LastIndex | src/prod_monitoring/generate_region_report.py:43 | the position of the last occurrence of a character, None when it does not occur |
| RegionReport.StemOfName | src/prod_monitoring/generate_region_report.py:43 | `os.path.splitext(...)[0]` of a base name is a prefix of it |
| RegionReport.Stem | src/prod_monitoring/generate_region_report.py:228 | `os.path.splitext(...)[0]` of a path is a prefix of it |
| RegionReport.StemDropsExtension | src/prod_monitoring/generate_region_report.py:43 | splitting "name.ext" gives back name when name does not start with its only dots and ext has no '.' |
| RegionReport.SpaceSeparators | src/prod_monitoring/generate_region_report.py:44 | each '_' and '-' becomes a space and every other character stays |
| RegionReport.TitleCase | src/prod_monitoring/generate_region_report.py:46 | `str.title()`: a letter after a letter is lower-cased, any other letter upper-cased, the rest unchanged |
| RegionReport.TitleWordsShape | src/prod_monitoring/generate_region_report.py:43-45 | the cleaned name has no '_' or '-', and single spaces with no space at either end |
| RegionReport.TitleCaseLetters | src/prod_monitoring/generate_region_report.py:46 | title-casing keeps each character's lower-case form, which characters are letters, and every non-letter |
| RegionReport.TitleCaseLower | src/prod_monitoring/generate_region_report.py:46 | title-casing changes only letter case |
| RegionReport.TitleCaseKeeps | src/prod_monitoring/generate_region_report.py:46 | title-casing keeps a text free of '_' and '-' and single-spaced |
| RegionReport.TitleCaseCapital | src/prod_monitoring/generate_region_report.py:46 | a letter of the title is upper case exactly when it starts the text or follows a non-letter |
| RegionReport.HumanizeTitle | src/prod_monitoring/generate_region_report.py:42-46 | model of `humanize_title`: the base name without its extension, '_' and '-' as spaces, white space collapsed and stripped, then kept when all upper case and title-cased otherwise; stated by HumanizeTitleShape |
| RegionReport.HumanizeTitleShape | src/prod_monitoring/generate_region_report.py:42-46 | the plot title has no '_' or '-', single spacing, the cleaned name's letters up to case, and, unless the name is all upper case, a capital exactly at each word start |
| RegionReport.Rank | src/prod_monitoring/generate_region_report.py:76 | each group's place in the fixed order Errors, Performance, External, Other |
| RegionReport.MembersIn | src/prod_monitoring/generate_region_report.py:63-72 | a path is in exactly the group its lower-cased base name selects |
| RegionReport.GroupedBySpec | src/prod_monitoring/generate_region_report.py:75-79 | the ordered dictionary lists, in the fixed order, each group that has members, with its members, and no other group |
| RegionReport.MembersAppend | src/prod_monitoring/generate_region_report.py:63 | the members of a group over two runs of paths are those of the first followed by those of the second |
| RegionReport.GroupedByAppend | src/prod_monitoring/generate_region_report.py:76 | ordering over two runs of keys is the concatenation of the two orderings |
| RegionReport.GroupImagesByType | src/prod_monitoring/generate_region_report.py:57-80 | the two loops return the specification Grouped of the paths |
| RegionReport.FillGroups | src/prod_monitoring/generate_region_report.py:63-72 | after the first loop each group maps to its members in input order, and groups without members are absent |
| RegionReport.OrderGroups | src/prod_monitoring/generate_region_report.py:74-79 | the second loop copies the groups in the fixed order and returns Grouped |
| RegionReport.OrderedStep | src/prod_monitoring/generate_region_report.py:76-78 | each key of the fixed order adds its group exactly when the first loop created it |
| RegionReport.MembersOne | src/prod_monitoring/generate_region_report.py:63-72 | one path lands in its own group only |
| RegionReport.AddToGroupAt | src/prod_monitoring/generate_region_report.py:70 | `groups.setdefault(g, []).append(p)` gives group g its members with p, and changes no other group |
| RegionReport.AddToGroup | src/prod_monitoring/generate_region_report.py:63-72 | appending a path keeps every group equal to its members over the paths seen so far |
| RegionReport.EveryPathOnce | src/prod_monitoring/generate_region_report.py:63-72 | the groups' sizes add up to the number of paths |
| RegionReport.GroupedSizes | src/prod_monitoring/generate_region_report.py:57-80 | the ordered groups hold every path exactly once in total |
| RegionReport.GroupedByCons | src/prod_monitoring/generate_region_report.py:76 | ordering starting with a key adds that key's member count first |
| RegionReport.RankOfIndex | src/prod_monitoring/generate_region_report.py:76 | the group at position j of the fixed order has rank j |
| RegionReport.GroupedByRanks | src/prod_monitoring/generate_region_report.py:76-78 | for keys whose ranks run m, m+1, …, the listed groups come in strictly increasing rank, none below m |
| RegionReport.GroupedOrder | src/prod_monitoring/generate_region_report.py:74-79 | the groups of the result appear in strictly increasing rank, so each at most once |
| RegionReport.GroupedMembers | src/prod_monitoring/generate_region_report.py:74-79 | every group of the result holds exactly its members and is non-empty |
| RegionReport.GroupedComplete | src/prod_monitoring/generate_region_report.py:74-79 | every group with members appears in the result |
| RegionReport.BuildGroups | src/prod_monitoring/generate_region_report.py:83-116 | the total is the sum of the groups' sizes and each group's count is its size, in dictionary order |
| RegionReport.SizesSumAppend | src/prod_monitoring/generate_region_report.py:91 | the total over two runs of groups is the sum of their totals |
| RegionReport.StripEach | src/prod_monitoring/generate_region_report.py:166 | each pattern is stripped |
| RegionReport.NonEmpty | src/prod_monitoring/generate_region_report.py:164-166 | exactly the non-empty strings are kept, in order |
| RegionReport.StripShapeNoEdge | src/prod_monitoring/generate_region_report.py:164 | a stripped pattern is empty or has no white space at either end |
| RegionReport.StripKeepsAbsent | src/prod_monitoring/generate_region_report.py:164 | stripping adds no character |
| RegionReport.StrippedEdges | src/prod_monitoring/generate_region_report.py:164-166 | every kept pattern is a non-empty stripped entry of the input |
| RegionReport.PatternTextShape | src/prod_monitoring/generate_region_report.py:163-164 | the patterns of a comma-separated string are non-empty, hold no comma and have no white space at either end |
| RegionReport.PatternListKeeps | src/prod_monitoring/generate_region_report.py:165-166 | a string is a pattern of a given list exactly when it is the non-empty stripped form of one of its entries |
| RegionReport.ScanPattern | src/prod_monitoring/generate_region_report.py:176-205 | the inner loop over the listing is the specification ScanFiles, and `seen` holds exactly the matches |
| RegionReport.ScanUnusable | src/prod_monitoring/generate_region_report.py:183-189 | an invalid regex is skipped and adds nothing |
| RegionReport.CollectImages | src/prod_monitoring/generate_region_report.py:155-206 | the method returns the specification CollectedImages |
| RegionReport.AppendNew | src/prod_monitoring/generate_region_report.py:192-194 | appending a path not yet seen keeps the list free of duplicates |
| RegionReport.ScanFilesSpec | src/prod_monitoring/generate_region_report.py:176-205 | one pattern's scan keeps the list free of duplicates and adds exactly the listed regular files whose name the pattern matches |
| RegionReport.DiscoverSpec | src/prod_monitoring/generate_region_report.py:176-205 | all patterns in turn add exactly the files some usable pattern matches, without duplicates |
| RegionReport.CollectedImagesSpec | src/prod_monitoring/generate_region_report.py:155-206 | the result has no duplicates, is sorted by lower-cased base name, and holds exactly the files some usable pattern matches, and nothing when the directory cannot be listed |
| RegionReport.FirstKey | src/prod_monitoring/generate_region_report.py:228-232 | the first dictionary entry whose key maps to the base, None when no key does |
| RegionReport.Resolved | src/prod_monitoring/generate_region_report.py:222-237 | at most one path per desired name |
| RegionReport.FindFirst | src/prod_monitoring/generate_region_report.py:229-233 | the loop finds the value of the FirstKey entry, or nothing |
| RegionReport.FirstKeyAt | src/prod_monitoring/generate_region_report.py:229-233 | an entry that matches with no earlier match is the one found |
| RegionReport.ResolveName | src/prod_monitoring/generate_region_report.py:223-236 | one name's lookup is the specification Resolve |
| RegionReport.CollectByExactNames | src/prod_monitoring/generate_region_report.py:209-238 | `[]` when the directory cannot be listed; otherwise the name lookups over the file map of the regular files |
| RegionReport.ResolveAll | src/prod_monitoring/generate_region_report.py:222-237 | the loop over the names returns the resolution of each name in order |
| RegionReport.ResolvedSnoc | src/prod_monitoring/generate_region_report.py:222-237 | each further name adds its path or nothing |
| RegionReport.ResolvedAppend | src/prod_monitoring/generate_region_report.py:222-237 | resolving two runs of names concatenates the results |
| RegionReport.ResolveSpec | src/prod_monitoring/generate_region_report.py:223-236 | an exact lower-cased match wins; nothing is found exactly when no key equals the name and no key has its stem |
| RegionReport.ResolvedOrder | src/prod_monitoring/generate_region_report.py:210-211 | the results keep the order of the names: what name k resolves to sits between the results of the names before and after it |
| UnifiedConfig.GetConfig | src/prod_monitoring/unified_config.py:26-30 | model of `get_config`: the DEFAULT option of config.ini when the file has it, else the environment variable, else the default; stated by GetConfigOrder |
| UnifiedConfig.GetBool | src/prod_monitoring/unified_config.py:33-37 | model of `get_bool`: configparser's boolean words for a file value (any other raises), else the environment or `str(default)` tested against true, 1, yes and on; stated by GetBoolFromFile, GetBoolFromEnv and GetBoolDefault |
| UnifiedConfig.GetInt | src/prod_monitoring/unified_config.py:40-47 | model of `get_int`: `getint` of a file value, which raises on a non-integer, else `int()` of the environment value with the default for a value it rejects or a missing one; stated by GetIntFileRaises, GetIntFromEnv and GetIntWritten |
| UnifiedConfig.GetConfigOrder | src/prod_monitoring/unified_config.py:26-30 | a value in config.ini wins, then the environment, then the default; without a config file only the environment and the default count |
| UnifiedConfig.GetBoolFromEnv | src/prod_monitoring/unified_config.py:33-37 | from the environment the flag is true exactly for "true", "1", "yes" or "on" in any case |
| UnifiedConfig.GetBoolDefault | src/prod_monitoring/unified_config.py:37 | with neither a file value nor an environment value the default comes back |
| UnifiedConfig.GetBoolFromFile | src/prod_monitoring/unified_config.py:35-36 | a file value gives true or false exactly for the configparser boolean words, and raises for any other value |
| UnifiedConfig.GetIntFromEnv | src/prod_monitoring/unified_config.py:44-47 | without a file value the lookup never raises: the parsed environment value, or the default when it is missing or not an integer |
| UnifiedConfig.GetIntWritten | src/prod_monitoring/unified_config.py:45 | an integer written into the environment reads back as itself |
| UnifiedConfig.GetIntFileRaises | src/prod_monitoring/unified_config.py:42-43 | a file value that is not an integer raises |
| UnifiedConfig.EntryShape | src/prod_monitoring/unified_config.py:128-137 | an option gives an entry exactly when its key starts with the lower-cased prefix and '_' and its value has three comma-separated parts; the code is the rest of the key upper-cased and the triple the stripped parts |
| UnifiedConfig.ServiceMetadata | src/prod_monitoring/unified_config.py:124-125 | without a config file the metadata is empty |
| UnifiedConfig.ParseServiceMetadata | src/prod_monitoring/unified_config.py:112-139 | the loop over the DEFAULT options builds the specification ServiceMetadata |
| UnifiedConfig.MetadataSound | src/prod_monitoring/unified_config.py:127-137 | every region code found comes from an option with that code and triple |
| UnifiedConfig.MetadataLastWins | src/prod_monitoring/unified_config.py:137 | for a code set by several options the last one decides |
| UnifiedConfig.RegionCodesUpper | src/prod_monitoring/unified_config.py:130 | no region code holds a lower-case letter |
| UnifiedConfig.ValidateConfig | src/prod_monitoring/unified_config.py:182-199 | the result is true exactly when no issue is recorded |
| UnifiedConfig.ValidIff | src/prod_monitoring/unified_config.py:186-193 | the configuration is valid exactly when AI analysis has an endpoint if enabled, and each enabled service has some production or performance region |
| UnifiedConfig.NoFileInvalid | src/prod_monitoring/unified_config.py:189-190 | without a config file and with SRA enabled validation fails |
| UnifiedConfig.EmptySetupIssues | src/prod_monitoring/unified_config.py:182-193 | with no file and an empty environment loading succeeds and all three issues are recorded, in order |
| Sorting.SortDesc | src/prod_monitoring/csv_helper.py:113 | `sorted(..., reverse=True)` by an integer key is a permutation of its input in non-increasing key order |
| Sorting.SortDescStable | src/prod_monitoring/rds_helper.py:237 | items with equal keys keep their input order, as Python's sort does in reverse mode |
| Sorting.InsertWithKey | src/prod_monitoring/csv_helper.py:113 | inserting an item adds it at the front of the items that share its key |
| Sorting.StrLeTotal | src/prod_monitoring/generate_region_report.py:206 | string order is total |
| Sorting.StrLeTrans | src/prod_monitoring/generate_region_report.py:206 | string order is transitive |
| Sorting.StrLeAntisymmetric | src/prod_monitoring/generate_region_report.py:206 | strings ordered both ways are equal |
| Sorting.SortAsc | src/prod_monitoring/generate_region_report.py:206 | `list.sort(key=...)` by a string key is a permutation of its input in non-decreasing key order |
| Sorting.SortAscStable | src/prod_monitoring/generate_region_report.py:206 | items with equal string keys keep their input order |
| PyDict.Lookup | src/prod_monitoring/unified_config.py:128-137 | `d.get(k)` finds nothing exactly when no entry has key k |
| PyDict.LookupFound | src/prod_monitoring/unified_config.py:137 | a value found is the one stored under the key |
| PyDict.SetShape | src/prod_monitoring/unified_config.py:137 | after `d[k] = v` the key maps to v; a new key is appended, an existing one keeps its place |
| PyDict.SetOther | src/prod_monitoring/unified_config.py:137 | `d[k] = v` changes no other key's value |
| PyDict.SetKeys | src/prod_monitoring/unified_config.py:137 | assigning an existing key keeps every key in place, and keys stay distinct |
| PyDict.LookupOfDistinct | src/prod_monitoring/unified_config.py:137 | with distinct keys each entry is what its key looks up |
| PyDict.SetEachSound | src/prod_monitoring/unified_config.py:127-137 | every value of the dictionary built by a loop was set by one of its items |
| PyDict.SetEachLastWins | src/prod_monitoring/unified_config.py:137 | the last item that sets a key decides its value |
| Rewrite.MatchAt | src/prod_monitoring/csv_helper.py:231 | a match of a pattern at a position ends after it and within the string |
| Rewrite.ScanSkip | src/prod_monitoring/csv_helper.py:231-241 | `re.sub` copies the characters at which no match starts |
| Rewrite.SubNoMatch | src/prod_monitoring/csv_helper.py:231-241 | `re.sub` without any match returns the string unchanged |
| Rewrite.ScanMatch | src/prod_monitoring/csv_helper.py:231-241 | at a match `re.sub` emits the replacement and continues after the match |
| Rewrite.ScanAgree | src/prod_monitoring/csv_helper.py:231-241 | `re.sub` over two strings with the same text and matches from a point on yields the same output from there |
| Rewrite.ScanPrefixAgree | src/prod_monitoring/csv_helper.py:231-241 | the same for a common prefix whose matches end inside it |
| Rewrite.SubAtToken | src/prod_monitoring/csv_helper.py:231-241 | two strings that differ only in a token matched whole with the same replacement give the same `re.sub` output |
| Rewrite.LastWhere | src/prod_monitoring/csv_helper.py:150 | the last position of a window where a test holds, None when it holds nowhere |
| Rewrite.SearchFrom | src/prod_monitoring/csv_helper.py:171 | `re.search` from a point: the leftmost position with a match, and none when no position matches |
| Rewrite.ApplyRulesNoMatch | src/prod_monitoring/csv_helper.py:231-241 | a chain of substitutions none of which matches leaves the string unchanged |
| Rewrite.ApplyRulesSplit | src/prod_monitoring/csv_helper.py:231-241 | a chain of substitutions runs as its first rules followed by the rest |
| Numbers.NatDigits | src/prod_monitoring/unified_config.py:45 | `str(n)` of a natural number: decimal digits without a leading zero |
| Numbers.NatDigitsValue | src/prod_monitoring/unified_config.py:45 | the digits of `str(n)` read back as n |
| Numbers.ParseInt | src/prod_monitoring/unified_config.py:45 | `int(s)` succeeds only on text that holds a digit |
| Numbers.ParseIntToString | src/prod_monitoring/unified_config.py:45 | `int(str(n)) == n` for every integer |
| Numbers.ParseIntUnderscored | src/prod_monitoring/unified_config.py:45 | for any two decimal bodies a and b, `int(a + "_" + b)` reads the value of the digits of a and b together, as Python accepts single underscores between digits |
| Numbers.ParseIntRejectsDoubleUnderscore | src/prod_monitoring/unified_config.py:45 | `int(s)` raises on every unsigned text without edge white space that holds two underscores in a row |
| Numbers.ParseIntRejectsLetter | src/prod_monitoring/unified_config.py:45 | `int(s)` raises on every unsigned text without edge white space that holds a letter |
| Numbers.ParseIntNoBody | src/prod_monitoring/unified_config.py:45 | text without sign that is not a decimal body raises |
| Text.Take | src/prod_monitoring/csv_helper.py:224 | a slice `s[:n]` keeps the first n characters, or all of a shorter string |
| Text.LStrip | src/prod_monitoring/csv_helper.py:136 | `lstrip()` drops exactly the leading white space |
| Text.RStrip | src/prod_monitoring/csv_helper.py:136 | `rstrip()` drops exactly the trailing white space |
| Text.StripShape | src/prod_monitoring/csv_helper.py:181 | `strip()` is a slice with no white space at either end |
| Text.StripEmptyIffBlank | src/prod_monitoring/csv_helper.py:136 | `s.strip()` is empty exactly when s is blank |
| Text.WordsAreTokens | src/prod_monitoring/csv_helper.py:242 | the pieces of `split()` are non-empty and hold no white space |
| Text.JoinTokensSingleSpaced | src/prod_monitoring/csv_helper.py:242 | joining such pieces with one space gives single-spaced text |
| Text.CollapseSingleSpaced | src/prod_monitoring/csv_helper.py:242 | `' '.join(s.split())` has no white space at the ends and no doubled or non-space white space |
| Text.WordsOfJoin | src/prod_monitoring/csv_helper.py:242 | splitting a single-space join gives back the pieces |
| Text.CollapseIdempotent | src/prod_monitoring/csv_helper.py:242 | collapsing white space twice is collapsing it once |
| Text.SplitOn | src/prod_monitoring/csv_helper.py:224 | `split(c)` gives at least one piece, none holding c, the first a prefix |
| Text.JoinSplitOn | src/prod_monitoring/csv_helper.py:224 | joining the pieces of `split(c)` with c gives back the string |
| Text.LastSegment | src/prod_monitoring/csv_helper.py:180 | `split('.')[-1]` is the suffix after the last dot and holds no dot |
| Seqs.FilterMembers | src/prod_monitoring/rds_helper.py:343 | a list comprehension with a condition keeps exactly the items that pass it |
| Seqs.FilterAllKept | src/prod_monitoring/rds_helper.py:343 | when every item passes nothing is dropped |
| Seqs.FilterNone | src/prod_monitoring/rds_helper.py:343 | when no item passes the result is empty |

## Left out

- AWS calls are not modelled: CloudWatch Logs pages, CloudWatch metric statistics, RDS describe calls, Performance Insights and the Lambda/HTTP endpoint. Each is a parameter: a page fetcher, a describe function, a fetch function or a decoded response.
- Timestamps are opaque strings. Date arithmetic, `datetime`, time zones and `isoformat` are not modelled.
- Floating point is not modelled. `float()` of a CSV cell is a parameter, CloudWatch and CSV values are `real` (exact, without rounding), and `round()` is not modelled. The Performance Insights loads of the RDS helper (`MetricValue.Num` and `Query.totalLoad`) are modelled as integers, although the service returns floats; only their sum and order are used.
- File and CSV I/O, directory creation and `os.listdir` are not modelled. Listings and tables are inputs, and the rows written are the result.
- `image_to_data_uri`, which embeds image files as base64, and `os.path.relpath` are not modelled.
- Logging, `print` and warnings are not modelled, because they do not affect results.
- The orchestration in main.py, which runs regions and services and handles retry settings, is not modelled.
- `get_slow_queries`' derived timings (max and average milliseconds from loads) are not modelled. They are float arithmetic for display only.
- configparser's interpolation, its section handling beyond DEFAULT, and file parsing are not modelled. A config file is a dictionary of DEFAULT options.
- `\w`, `\d`, `\b`, `lower()`, `upper()` and `title()` are ASCII-only here, whereas Python also treats non-ASCII letters and digits as word characters. White space is Python's full `str.isspace` set.
- Regex compilation, `re.search` of user regexes and `fnmatch` in `collect_images` are predicates passed in. Only the surrounding loop, dedup and sort are modelled.
- The HTML text of the region report and of `build_groups_html`, the PDF export done with Playwright or pdf_generator, and the consolidated text reports are not modelled. Only their counts and decisions are.
- `analyze_error_patterns`' healthy report text and the AI prompt text beyond the error summary are not modelled. The status and error count of each result are.
- AiAnalyzer.PrepareErrorSummary appends each entry's five lines, and the metrics block, as one piece. The source appends them line by line. The resulting list is the same.
- NormalizerLaws.NumberInvariance and NormalizerLaws.LegacyNumberInvariance are proved only for messages on which none of the earlier substitutions of the chain matches. Without that condition an earlier rule could swallow part of the number's surroundings.
- NormalizerLaws.TimestampInvariance and NormalizerLaws.LegacyTimestampInvariance carry the same condition, for the UUID and hex rules before them. UuidInvariance needs no such condition.
- The invariance of whole signatures under such token changes is not proved. It is stated for the normalizer, which the signature extractors apply to the message they select.
- NormalizerLaws.HexWordMatchers states the classify_errors property at the level of the matchers. It shows that a word of 12 or more hex digits, all-digit ones included, is matched by the 12-or-more hex rule, which runs before the number rule. It does not prove this through the whole chain.
- The concrete anonymizer example (`userName='John Doe' … tenant=acme_corp123`) is not proved as one string: unfolding all thirteen substitutions over it is beyond the solver's budget. What is proved is each piece: AnonymizerLaws.UserNameQuotedMatched, EmailMatched and TenantKvMatched show that each of its fields is matched and replaced by one substitution, and AnonymizeAddress, AnonymizeKvToken and AnonymizeTenantPath carry a lone e-mail address, `key=value` pair or `/tenants/` segment through the whole pipeline. Messages that hold several such fields at once are not traced through the chain.
- The Lambda JSON decoding (`json.loads`) and `str()` of non-string JSON values are parameters.
- GetMetricQuery and QueryOf require a metric definition of at least two elements. For a shorter one `metric[0]`/`metric[1]` at metrics_helper.py:82-83 raise IndexError, which the model does not represent.
- GetMetricsWithThreshold requires a timestamp for every value and takes the single MetricData the call returns. The IndexError of `metricsData[0]` on an empty result and of `Timestamps[idx]` on shorter timestamps (metrics_helper.py:49-52) is not modelled.
- ProcessMetricType and GroupRows inherit both conditions: every definition has two elements, and every fetch is aligned (AlignedFetch). The IndexError paths of metrics_helper.py:49-52, 82-83 and 132 are not modelled.
- LegacyReadable excludes a widget without a title (such as a dashboard text widget) before the matching one, and a matching widget without metrics. On those the older helper raises KeyError at metrics_helper.py:48, and the model does not represent the raise.
- LegacyGetMetricsList requires LegacyReadable, so the KeyError of metrics_helper.py:48 on a widget without a title is not modelled.
- ReportMetricType requires LegacyReadable and AlignedFetch, so the KeyError of metrics_helper.py:48 and the IndexError of an unaligned fetch are not modelled.
- LegacyAllMetricDetails requires the same for all four metric types, so the same KeyError and IndexError paths are not modelled.
- LegacyAnonymizeLogMessage is proved end to end only for a message that is one e-mail address (LegacyAnonymizeAddress). The Matched lemmas of the newer anonymizer describe its other substitutions one at a time, since they are the same patterns, but no lemma composes them through the older chain.
- AnalyzeErrorPatterns models the TypeError of the healthy report by its message only; the healthy report's text is not modelled.
- pdf_generator.py, aws_profile_manager.py, config.py, dashboard_helper.py, screenshot_helper.py, main.py and the root helper scripts other than anonymizer.py, log_helper.py and metrics_helper.py are outside the modelled core.

## Findings

| source | as written | input that shows it | evidently intended | confidence | as-written member | corrected member |
|---|---|---|---|---|---|---|
| src/prod_monitoring/anonymizer.py:26 | the key rule's value class accepts '[', so the second tenant pass re-matches `customer=[TENANT_REDACTED` and its replacement adds a second ']' (KvPassOnPlaceholder; for whole messages AnonymizerLaws.AnonymizeKvToken) | the message `customer=x` (also `org=`, `account=` and their longer keys): after the first pass it holds `customer=[TENANT_REDACTED]`, and the second pass turns that into `customer=[TENANT_REDACTED]]`; the query rule repairs only the tenant keys | an already redacted value is left alone, and every key comes out as `key=[TENANT_REDACTED]` (AnonymizerLaws.CorrectedAnonymizeKvToken) | not executed | Anonymizer.AnonymizeLogMessage | Anonymizer.CorrectedAnonymizeLogMessage |
| src/prod_monitoring/ai_analyzer.py:241-249 | the warning calls `response_data.keys()` before the `isinstance(response_data, str)` check, so a JSON string response raises AttributeError (StringResponseRaisesAsWritten) | the Lambda body `"hello"`, a JSON string | the string itself is returned as the answer, as the branch's comment says (StringResponseAnswered) | not executed | AiAnalyzer.ParsedResponse | AiAnalyzer.CorrectedParsedResponse |
