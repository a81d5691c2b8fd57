/** `TranslationValidator` (`services/validator.py`): the older quality check that scores
    each pair by embedding similarity, an LLM grade and technical-term preservation,
    aggregates a batch against a threshold and renders a text report. The embedding
    cosine, the LLM reply, Python's `float()` and the `re` patterns are oracles; a
    `{:.2f}` rendering is a formatter passed in. */
module TranslationValidation {
  import opened Wrappers
  import opened Text
  import opened Matching
  import opened Reals

  const SemanticSimilarityThreshold: real := 0.7
  const QualityScoreThreshold: real := 0.7
  /** The preservation score below which an issue is recorded. */
  const PreservationThreshold: real := 0.8
  /** The default `quality_threshold` of `validate_translations`. */
  const DefaultQualityThreshold: real := 0.7
  /** The score both scorers fall back to when a collaborator fails. */
  const FallbackScore: real := 0.5
  /** Stripped texts shorter than this are not validated. */
  const MinimumLength: nat := 10

  // ---------------------------------------------------------------------------------
  // The three scores

  /** `_calculate_semantic_similarity`, given the cosine of the two embeddings, or `None`
      when computing it raised. */
  function SemanticSimilarity(cosine: Option<real>): (s: real)
    ensures 0.0 <= s <= 1.0
    ensures cosine.None? ==> s == FallbackScore
    ensures cosine.Some? && -1.0 <= cosine.value <= 1.0 ==> s == (cosine.value + 1.0) / 2.0
  {
    match cosine
    case None => FallbackScore
    case Some(c) => Clamp01((c + 1.0) / 2.0)
  }

  /** `_assess_translation_quality`, given the chat reply (or the failure of the call) and
      Python's `float()` on strings: the parsed, clamped number, or 0.5 when the call
      fails or the stripped reply is not a number. */
  function AssessQuality(reply: Result<string, string>, parse: string -> Option<real>): (q: real)
    ensures 0.0 <= q <= 1.0
    ensures reply.Err? ==> q == FallbackScore
    ensures reply.Ok? && parse(Strip(reply.value)).None? ==> q == FallbackScore
    ensures reply.Ok? && parse(Strip(reply.value)).Some? && 0.0 <= parse(Strip(reply.value)).value <= 1.0 ==>
      q == parse(Strip(reply.value)).value
  {
    match reply
    case Err(_) => FallbackScore
    case Ok(text) =>
      match parse(Strip(text))
      case None => FallbackScore
      case Some(x) => Clamp01(x)
  }

  /** The seven `technical_patterns` of `_check_technical_term_preservation`. */
  datatype TechPattern = CveId | CvssVersion | VersionNumber | Company | Product | Url | TechnicalCode

  const TechPatterns: seq<TechPattern> :=
    [CveId, CvssVersion, VersionNumber, Company, Product, Url, TechnicalCode]

  /** `re.findall(pattern, text, re.IGNORECASE)` for each pattern. */
  type PatternScanner = (TechPattern, string) -> seq<Match>

  /** The union of `findall` over the listed patterns. */
  function FoundIn(scan: PatternScanner, text: string, ps: seq<TechPattern>): set<string> {
    if ps == [] then {} else FoundIn(scan, text, ps[..|ps| - 1]) + FindallSet(scan(ps[|ps| - 1], text))
  }

  /** The set of technical terms of a text. */
  function TechTerms(scan: PatternScanner, text: string): set<string> {
    FoundIn(scan, text, TechPatterns)
  }

  /** The shared terms and the lost ones split the original's terms. */
  lemma SharedPlusLost(o: set<string>, t: set<string>)
    ensures |o * t| + |o - t| == |o|
  {
    assert o == (o * t) + (o - t);
    assert (o * t) * (o - t) == {};
  }

  /** `len(o & t) / len(o)`, or 1.0 when `o` is empty. */
  function PreservationRatio(o: set<string>, t: set<string>): real {
    if o == {} then 1.0 else (|o * t| as real) / (|o| as real)
  }

  /** The ratio lies in [0, 1] and is 1.0 exactly when every original term survives. */
  lemma PreservationRatioMeaning(o: set<string>, t: set<string>)
    ensures 0.0 <= PreservationRatio(o, t) <= 1.0
    ensures PreservationRatio(o, t) == 1.0 <==> o <= t
  {
    SharedPlusLost(o, t);
    if o != {} {
      var n, d := |o * t| as real, |o| as real;
      DivisionBounds(n, d, 0.0, 1.0);
      if n == d {
        DivideBySelf(d);
        assert |o - t| == 0;
        assert o - t == {};
        assert forall x :: x in o ==> x in t by {
          forall x | x in o
            ensures x in t
          {
            assert x !in o - t;
          }
        }
      } else {
        assert n < d;
        QuotientBelowOne(n, d);
        var x :| x in o - t;
      }
    }
  }

  /** `_check_technical_term_preservation`. */
  function CheckTechnicalTermPreservation(scan: PatternScanner, original: string, translated: string): (p: real)
    ensures 0.0 <= p <= 1.0
    ensures p == 1.0 <==> TechTerms(scan, original) <= TechTerms(scan, translated)
    ensures TechTerms(scan, original) == {} ==> p == 1.0
  {
    PreservationRatioMeaning(TechTerms(scan, original), TechTerms(scan, translated));
    PreservationRatio(TechTerms(scan, original), TechTerms(scan, translated))
  }

  // ---------------------------------------------------------------------------------
  // One pair

  /** An entry of a result's `issues` list; `IssueText` renders it. */
  datatype Issue =
    | LowSimilarity(similarity: real)
    | LowQuality(quality: real)
    | TermsNotPreserved
    | ValidationFailed(reason: string)

  /** A result dict: `technical_preservation` is absent on the short-text and failure
      paths. */
  datatype PairScores = PairScores(
    semanticSimilarity: real,
    qualityScore: real,
    technicalPreservation: Option<real>,
    overallScore: real,
    issues: seq<Issue>)

  /** The collaborators of `validate_single_translation`: the cosine of the two texts'
      embeddings, the quality-scoring model's reply, `float()` and the patterns. */
  datatype Assessors = Assessors(
    cosine: (string, string) -> Option<real>,
    grade: (string, string) -> Result<string, string>,
    parse: string -> Option<real>,
    scan: PatternScanner)

  function WeightedScore(s: real, q: real, p: real): real {
    s * 0.4 + q * 0.4 + p * 0.2
  }

  predicate IsShort(original: string, translated: string) {
    |Strip(original)| < MinimumLength || |Strip(translated)| < MinimumLength
  }

  /** `validate_single_translation`. */
  function ValidateSingle(a: Assessors, original: string, translated: string): PairScores {
    if IsShort(original, translated) then PairScores(1.0, 1.0, None, 1.0, [])
    else
      var s := SemanticSimilarity(a.cosine(original, translated));
      var q := AssessQuality(a.grade(original, translated), a.parse);
      var p := CheckTechnicalTermPreservation(a.scan, original, translated);
      var issues :=
        (if s < SemanticSimilarityThreshold then [LowSimilarity(s)] else [])
        + (if q < QualityScoreThreshold then [LowQuality(q)] else [])
        + (if p < PreservationThreshold then [TermsNotPreserved] else []);
      PairScores(s, q, Some(p), WeightedScore(s, q, p), issues)
  }

  /** A pair with a stripped side under ten characters scores 1.0 everywhere with no
      issues, whatever the collaborators would have answered. */
  lemma ShortPairsSkipValidation(a: Assessors, b: Assessors, original: string, translated: string)
    requires IsShort(original, translated)
    ensures ValidateSingle(a, original, translated) == ValidateSingle(b, original, translated)
    ensures ValidateSingle(a, original, translated).overallScore == 1.0
    ensures ValidateSingle(a, original, translated).issues == []
  {
  }

  /** Every score lies in [0, 1]; the overall score is the 0.4/0.4/0.2 blend of the three
      parts, each of which is reported. */
  lemma SingleScoresInRange(a: Assessors, original: string, translated: string)
    ensures var r := ValidateSingle(a, original, translated);
      && 0.0 <= r.semanticSimilarity <= 1.0 && 0.0 <= r.qualityScore <= 1.0
      && 0.0 <= r.overallScore <= 1.0
      && (r.technicalPreservation.Some? ==>
            && 0.0 <= r.technicalPreservation.value <= 1.0
            && r.overallScore == WeightedScore(r.semanticSimilarity, r.qualityScore,
                                               r.technicalPreservation.value))
  {
  }

  /** An issue is recorded for each score under its threshold, in the order similarity,
      quality, preservation, and for nothing else. */
  lemma IssuesMatchThresholds(a: Assessors, original: string, translated: string)
    requires !IsShort(original, translated)
    ensures var r := ValidateSingle(a, original, translated);
      && r.technicalPreservation.Some?
      && (LowSimilarity(r.semanticSimilarity) in r.issues <==> r.semanticSimilarity < SemanticSimilarityThreshold)
      && (LowQuality(r.qualityScore) in r.issues <==> r.qualityScore < QualityScoreThreshold)
      && (TermsNotPreserved in r.issues <==> r.technicalPreservation.value < PreservationThreshold)
      && |r.issues| <= 3
      && (r.issues == [] <==>
            && r.semanticSimilarity >= SemanticSimilarityThreshold
            && r.qualityScore >= QualityScoreThreshold
            && r.technicalPreservation.value >= PreservationThreshold)
  {
    var r := ValidateSingle(a, original, translated);
    var s, q, p := r.semanticSimilarity, r.qualityScore, r.technicalPreservation.value;
    var i1: seq<Issue> := if s < SemanticSimilarityThreshold then [LowSimilarity(s)] else [];
    var i2: seq<Issue> := if q < QualityScoreThreshold then [LowQuality(q)] else [];
    var i3: seq<Issue> := if p < PreservationThreshold then [TermsNotPreserved] else [];
    assert r.issues == i1 + i2 + i3;
    assert LowSimilarity(s) in r.issues <==> LowSimilarity(s) in i1;
    assert LowQuality(q) in r.issues <==> LowQuality(q) in i2;
    assert TermsNotPreserved in r.issues <==> TermsNotPreserved in i3;
  }

  /** A pair without issues scores at least 0.72, so it passes the default threshold. */
  lemma NoIssuesPasses(a: Assessors, original: string, translated: string)
    requires ValidateSingle(a, original, translated).issues == []
    ensures ValidateSingle(a, original, translated).overallScore >= 0.72
    ensures ValidateSingle(a, original, translated).overallScore >= DefaultQualityThreshold
  {
    if !IsShort(original, translated) {
      IssuesMatchThresholds(a, original, translated);
    }
  }

  // ---------------------------------------------------------------------------------
  // A batch

  /** `text[:100] + "..." if len(text) > 100 else text`. */
  function Shorten(text: string): (r: string)
    ensures |text| <= 100 ==> r == text
    ensures |text| > 100 ==> |r| == 103 && r[..100] == text[..100] && r[100..] == "..."
  {
    if |text| > 100 then text[..100] + "..." else text
  }

  /** An entry of `low_quality_translations`. */
  datatype LowQualityItem = LowQualityItem(index: nat, original: string, translated: string,
                                           score: real, issues: seq<Issue>)

  /** The dict `validate_translations` returns; `detailedResults` is absent for an empty
      batch. */
  datatype Report = Report(
    averageScore: real,
    totalTranslations: nat,
    passedValidations: nat,
    failedValidations: nat,
    lowQualityTranslations: seq<LowQualityItem>,
    detailedResults: Option<seq<PairScores>>)

  /** The per-pair check as the loop sees it: a result, or the text of the exception
      `validate_single_translation` raised. */
  type PairCheck = (string, string) -> Result<PairScores, string>

  /** The zero result the `except` branch stores. */
  function FailedPair(reason: string): PairScores {
    PairScores(0.0, 0.0, None, 0.0, [ValidationFailed("Validation failed: " + reason)])
  }

  function Outcome(r: Result<PairScores, string>): PairScores {
    match r
    case Ok(scores) => scores
    case Err(reason) => FailedPair(reason)
  }

  /** `validation_results`: one entry per pair, in order. */
  function DetailedResults(pairs: seq<(string, string)>, check: PairCheck): (r: seq<PairScores>)
    ensures |r| == |pairs|
  {
    seq(|pairs|, k requires 0 <= k < |pairs| => Outcome(check(pairs[k].0, pairs[k].1)))
  }

  /** `low_quality_translations` after the first `n` pairs: the pairs whose check
      succeeded with a score under the threshold. */
  function LowQualityItems(pairs: seq<(string, string)>, check: PairCheck, threshold: real, n: nat)
    : seq<LowQualityItem>
    requires n <= |pairs|
  {
    if n == 0 then []
    else
      var init := LowQualityItems(pairs, check, threshold, n - 1);
      var original := pairs[n - 1].0;
      var translated := pairs[n - 1].1;
      match check(original, translated)
      case Ok(r) =>
        if r.overallScore < threshold then
          init + [LowQualityItem(n - 1, Shorten(original), Shorten(translated), r.overallScore, r.issues)]
        else init
      case Err(_) => init
  }

  /** `sum(1 for score in scores if score >= quality_threshold)`. */
  function PassedCount(results: seq<PairScores>, threshold: real): (n: nat)
    ensures n <= |results|
  {
    if results == [] then 0
    else
      PassedCount(results[..|results| - 1], threshold)
        + (if results[|results| - 1].overallScore >= threshold then 1 else 0)
  }

  function OverallScores(results: seq<PairScores>): (r: seq<real>)
    ensures |r| == |results|
    ensures forall k :: 0 <= k < |results| ==> r[k] == results[k].overallScore
  {
    seq(|results|, k requires 0 <= k < |results| => results[k].overallScore)
  }

  /** `validate_translations` on a whole batch. */
  function Summary(pairs: seq<(string, string)>, threshold: real, check: PairCheck): Report {
    if pairs == [] then Report(0.0, 0, 0, 0, [], None)
    else
      var results := DetailedResults(pairs, check);
      var passed := PassedCount(results, threshold);
      Report(Sum(OverallScores(results)) / (|results| as real), |pairs|, passed, |pairs| - passed,
             LowQualityItems(pairs, check, threshold, |pairs|), Some(results))
  }

  /** The loop of `validate_translations` over the pairs. */
  method CheckPairs(pairs: seq<(string, string)>, threshold: real, check: PairCheck)
    returns (results: seq<PairScores>, low: seq<LowQualityItem>)
    ensures results == DetailedResults(pairs, check)
    ensures low == LowQualityItems(pairs, check, threshold, |pairs|)
  {
    results := [];
    low := [];
    for i := 0 to |pairs|
      invariant |results| == i
      invariant forall k :: 0 <= k < i ==> results[k] == Outcome(check(pairs[k].0, pairs[k].1))
      invariant low == LowQualityItems(pairs, check, threshold, i)
    {
      var original, translated := pairs[i].0, pairs[i].1;
      var outcome := check(original, translated);
      if outcome.Ok? {
        var r := outcome.value;
        results := results + [r];
        if r.overallScore < threshold {
          low := low + [LowQualityItem(i, Shorten(original), Shorten(translated), r.overallScore, r.issues)];
        }
      } else {
        results := results + [FailedPair(outcome.error)];
      }
    }
  }

  /** The total and the passing count over the overall scores. */
  method Aggregate(results: seq<PairScores>, threshold: real) returns (total: real, passed: nat)
    ensures total == Sum(OverallScores(results))
    ensures passed == PassedCount(results, threshold)
  {
    total := 0.0;
    passed := 0;
    for k := 0 to |results|
      invariant total == Sum(OverallScores(results[..k]))
      invariant passed == PassedCount(results[..k], threshold)
    {
      assert results[..k + 1][..k] == results[..k];
      assert OverallScores(results[..k + 1])[..k] == OverallScores(results[..k]);
      total := total + results[k].overallScore;
      if results[k].overallScore >= threshold {
        passed := passed + 1;
      }
    }
    assert results[..|results|] == results;
  }

  /** `validate_translations`: the loop over the pairs, then the aggregates. */
  method ValidateTranslations(pairs: seq<(string, string)>, threshold: real, check: PairCheck)
    returns (report: Report)
    ensures report == Summary(pairs, threshold, check)
  {
    if pairs == [] {
      return Report(0.0, 0, 0, 0, [], None);
    }
    var results, low := CheckPairs(pairs, threshold, check);
    var total, passed := Aggregate(results, threshold);
    report := Report(total / (|results| as real), |pairs|, passed, |pairs| - passed, low, Some(results));
  }

  /** An empty batch reports zeros and no entries. */
  lemma EmptyBatchReportsZeros(threshold: real, check: PairCheck)
    ensures Summary([], threshold, check) == Report(0.0, 0, 0, 0, [], None)
  {
  }

  /** After `n` pairs, the low-quality entries and the passing scores together number
      at most `n`, exactly `n` when every check succeeded: only a pair whose check
      raised can be neither. */
  lemma {:induction false} LowQualityCount(pairs: seq<(string, string)>, check: PairCheck,
                                           threshold: real, n: nat)
    requires n <= |pairs|
    ensures |LowQualityItems(pairs, check, threshold, n)| + PassedCount(DetailedResults(pairs, check)[..n], threshold) <= n
    ensures (forall k :: 0 <= k < n ==> check(pairs[k].0, pairs[k].1).Ok?) ==>
      |LowQualityItems(pairs, check, threshold, n)| + PassedCount(DetailedResults(pairs, check)[..n], threshold) == n
  {
    if n > 0 {
      LowQualityCount(pairs, check, threshold, n - 1);
      var d := DetailedResults(pairs, check);
      assert d[..n][..n - 1] == d[..n - 1];
    }
  }

  /** `e` names one of the first `n` pairs, whose check succeeded with a score under the
      threshold, and holds both its texts shortened. */
  predicate NamesLowPair(pairs: seq<(string, string)>, check: PairCheck, threshold: real, n: nat,
                         e: LowQualityItem)
    requires n <= |pairs|
  {
    && e.index < n
    && check(pairs[e.index].0, pairs[e.index].1).Ok?
    && e.score == check(pairs[e.index].0, pairs[e.index].1).value.overallScore
    && e.score < threshold
    && e.original == Shorten(pairs[e.index].0)
    && e.translated == Shorten(pairs[e.index].1)
  }

  /** Each low-quality entry names, in pair order, a pair whose check succeeded with a
      score under the threshold, with both texts shortened. */
  lemma {:induction false} LowQualityEntries(pairs: seq<(string, string)>, check: PairCheck,
                                             threshold: real, n: nat)
    requires n <= |pairs|
    ensures forall e :: e in LowQualityItems(pairs, check, threshold, n) ==>
      NamesLowPair(pairs, check, threshold, n, e)
    ensures forall i, j :: 0 <= i < j < |LowQualityItems(pairs, check, threshold, n)| ==>
      LowQualityItems(pairs, check, threshold, n)[i].index < LowQualityItems(pairs, check, threshold, n)[j].index
  {
    if n > 0 {
      LowQualityEntries(pairs, check, threshold, n - 1);
      var init := LowQualityItems(pairs, check, threshold, n - 1);
      var low := LowQualityItems(pairs, check, threshold, n);
      var r := check(pairs[n - 1].0, pairs[n - 1].1);
      forall e | e in init
        ensures NamesLowPair(pairs, check, threshold, n, e)
      {
        assert NamesLowPair(pairs, check, threshold, n - 1, e);
      }
      if r.Ok? && r.value.overallScore < threshold {
        var item := LowQualityItem(n - 1, Shorten(pairs[n - 1].0), Shorten(pairs[n - 1].1),
                                   r.value.overallScore, r.value.issues);
        assert low == init + [item];
        assert NamesLowPair(pairs, check, threshold, n, item);
        forall i, j | 0 <= i < j < |low|
          ensures low[i].index < low[j].index
        {
          assert low[i] == init[i];
          assert init[i] in init;
          assert NamesLowPair(pairs, check, threshold, n - 1, init[i]);
          if j < |init| {
            assert low[j] == init[j];
          }
        }
      } else {
        assert low == init;
      }
    }
  }

  /** `passed_validations + failed_validations == total_translations`, and at most the
      failed pairs are listed as low quality: exactly those when no check raised. */
  lemma SummaryCounts(pairs: seq<(string, string)>, threshold: real, check: PairCheck)
    ensures var r := Summary(pairs, threshold, check);
      && r.totalTranslations == |pairs|
      && r.passedValidations + r.failedValidations == r.totalTranslations
      && |r.lowQualityTranslations| <= r.failedValidations
      && ((forall k :: 0 <= k < |pairs| ==> check(pairs[k].0, pairs[k].1).Ok?) ==>
            |r.lowQualityTranslations| == r.failedValidations)
  {
    if pairs != [] {
      LowQualityCount(pairs, check, threshold, |pairs|);
      assert DetailedResults(pairs, check)[..|pairs|] == DetailedResults(pairs, check);
    }
  }

  /** The check `validate_translations` runs: `validate_single_translation` never
      raises. */
  function SingleCheck(a: Assessors): PairCheck {
    (original: string, translated: string) => Ok(ValidateSingle(a, original, translated))
  }

  /** With the real per-pair check, the low-quality list is exactly the failed pairs and
      the average lies in [0, 1]. */
  lemma SingleCheckSummary(a: Assessors, pairs: seq<(string, string)>, threshold: real)
    ensures var r := Summary(pairs, threshold, SingleCheck(a));
      && |r.lowQualityTranslations| == r.failedValidations
      && 0.0 <= r.averageScore <= 1.0
  {
    var check := SingleCheck(a);
    SummaryCounts(pairs, threshold, check);
    if pairs != [] {
      var scores := OverallScores(DetailedResults(pairs, check));
      forall k | 0 <= k < |scores|
        ensures 0.0 <= scores[k] <= 1.0
      {
        SingleScoresInRange(a, pairs[k].0, pairs[k].1);
      }
      MeanOfUnitScores(scores);
    }
  }

  // ---------------------------------------------------------------------------------
  // The report

  /** The text of an issue, with `{:.2f}` as the formatter `fmt`. */
  function IssueText(i: Issue, fmt: real -> string): string {
    match i
    case LowSimilarity(s) => "Low semantic similarity: " + fmt(s)
    case LowQuality(q) => "Low quality score: " + fmt(q)
    case TermsNotPreserved => "Technical terms may not be properly preserved"
    case ValidationFailed(reason) => reason
  }

  function IssueTexts(issues: seq<Issue>, fmt: real -> string): (r: seq<string>)
    ensures |r| == |issues|
  {
    seq(|issues|, k requires 0 <= k < |issues| => IssueText(issues[k], fmt))
  }

  /** The overall statistics at the head of the report. */
  function ReportHeader(v: Report, fmt: real -> string): string {
    "Translation Validation Report\n"
    + "========================================\n\n"
    + "Overall Statistics:\n"
    + "- Total translations: " + NatToString(v.totalTranslations) + "\n"
    + "- Average quality score: " + fmt(v.averageScore) + "\n"
    + "- Passed validations: " + NatToString(v.passedValidations) + "\n"
    + "- Failed validations: " + NatToString(v.failedValidations) + "\n\n"
  }

  const LowQualityBanner: string := "Low Quality Translations:\n" + "------------------------------\n"

  /** The lines of one low-quality entry, numbered from 1. */
  function ItemSection(item: LowQualityItem, fmt: real -> string): string {
    "\nTranslation #" + NatToString(item.index + 1) + " (Score: " + fmt(item.score) + "):\n"
    + "Original: " + item.original + "\n"
    + "Translated: " + item.translated + "\n"
    + "Issues: " + Join(IssueTexts(item.issues, fmt), ", ") + "\n"
  }

  /** `text` followed by the section of each item, appended in order. */
  function Appended(text: string, items: seq<LowQualityItem>, fmt: real -> string): string {
    if items == [] then text else Appended(text, items[..|items| - 1], fmt) + ItemSection(items[|items| - 1], fmt)
  }

  /** The entries the report shows: the first five. */
  function Shown(items: seq<LowQualityItem>): (r: seq<LowQualityItem>)
    ensures |r| == if |items| < 5 then |items| else 5
    ensures r == items[..|r|]
  {
    if |items| <= 5 then items else items[..5]
  }

  /** `generate_validation_report`. */
  function ReportText(v: Report, fmt: real -> string): string {
    if v.lowQualityTranslations == [] then ReportHeader(v, fmt)
    else Appended(ReportHeader(v, fmt) + LowQualityBanner, Shown(v.lowQualityTranslations), fmt)
  }

  /** The loop of `generate_validation_report`: one section per item. */
  method AppendSections(head: string, items: seq<LowQualityItem>, fmt: real -> string) returns (text: string)
    ensures text == Appended(head, items, fmt)
  {
    text := head;
    for k := 0 to |items|
      invariant text == Appended(head, items[..k], fmt)
    {
      assert items[..k + 1][..k] == items[..k];
      text := text + ItemSection(items[k], fmt);
    }
    assert items[..|items|] == items;
  }

  /** `generate_validation_report`, appending to the text as the source does. */
  method GenerateValidationReport(v: Report, fmt: real -> string) returns (text: string)
    ensures text == ReportText(v, fmt)
  {
    text := ReportHeader(v, fmt);
    if v.lowQualityTranslations != [] {
      text := AppendSections(text + LowQualityBanner, Shown(v.lowQualityTranslations), fmt);
    }
  }

  /** The text appended to stays at the front. */
  lemma {:induction false} AppendedKeepsText(text: string, items: seq<LowQualityItem>, fmt: real -> string)
    ensures |Appended(text, items, fmt)| >= |text|
    ensures Appended(text, items, fmt)[..|text|] == text
  {
    if items != [] {
      AppendedKeepsText(text, items[..|items| - 1], fmt);
    }
  }

  /** Every item's section occurs in the appended text. */
  lemma {:induction false} AppendedHoldsItem(text: string, items: seq<LowQualityItem>, fmt: real -> string, j: nat)
    requires j < |items|
    ensures Contains(Appended(text, items, fmt), ItemSection(items[j], fmt))
  {
    var init := items[..|items| - 1];
    var before := Appended(text, init, fmt);
    var last := ItemSection(items[|items| - 1], fmt);
    if j == |items| - 1 {
      ContainsAppended(before, last);
    } else {
      assert init[j] == items[j];
      AppendedHoldsItem(text, init, fmt, j);
      ContainsExtended(before, ItemSection(items[j], fmt), last);
    }
  }

  /** The report starts with the statistics, and is the header alone when there are no
      low-quality entries. */
  lemma ReportStartsWithHeader(v: Report, fmt: real -> string)
    ensures |ReportText(v, fmt)| >= |ReportHeader(v, fmt)|
    ensures ReportText(v, fmt)[..|ReportHeader(v, fmt)|] == ReportHeader(v, fmt)
    ensures v.lowQualityTranslations == [] ==> ReportText(v, fmt) == ReportHeader(v, fmt)
  {
    var low := v.lowQualityTranslations;
    if low != [] {
      var head := ReportHeader(v, fmt) + LowQualityBanner;
      AppendedKeepsText(head, Shown(low), fmt);
      assert head[..|ReportHeader(v, fmt)|] == ReportHeader(v, fmt);
    }
  }

  /** Each of the first five low-quality entries is shown under its number `index + 1`. */
  lemma ReportShowsFirstFive(v: Report, fmt: real -> string)
    ensures forall j :: 0 <= j < |v.lowQualityTranslations| && j < 5 ==>
      Contains(ReportText(v, fmt), ItemSection(v.lowQualityTranslations[j], fmt))
  {
    var low := v.lowQualityTranslations;
    if low != [] {
      var head := ReportHeader(v, fmt) + LowQualityBanner;
      forall j | 0 <= j < |low| && j < 5
        ensures Contains(ReportText(v, fmt), ItemSection(low[j], fmt))
      {
        assert Shown(low)[j] == low[j];
        AppendedHoldsItem(head, Shown(low), fmt, j);
      }
    }
  }

  /** Low-quality entries past the fifth change nothing in the report. */
  lemma ReportIgnoresPastFive(v: Report, fmt: real -> string)
    requires |v.lowQualityTranslations| > 5
    ensures ReportText(v, fmt) == ReportText(v.(lowQualityTranslations := v.lowQualityTranslations[..5]), fmt)
  {
    var low := v.lowQualityTranslations;
    var cut := v.(lowQualityTranslations := low[..5]);
    assert ReportHeader(cut, fmt) == ReportHeader(v, fmt);
    assert Shown(low[..5]) == Shown(low);
  }
}
