/** `SemanticValidator` (`src/validation/semantic_validator.py`): quality tiers, the
    confidence score, the suggestions, single and batch validation against an embedding
    provider, and the stored quality threshold. The provider is an oracle whose calls may
    fail; elapsed time is an input. */
module SemanticValidation {
  import opened Wrappers
  import opened Errors
  import opened Embeddings
  import opened Reals

  /** `TranslationQuality`. */
  datatype Quality = Excellent | Good | NeedsReview | Poor

  /** The `details` dict a successful `validate` fills in; every other result carries an
      empty dict, modelled as `None`. */
  datatype Details = Details(processingTime: real, originalLength: nat, translatedLength: nat,
                             lengthRatio: real)

  /** `ValidationResult`. */
  datatype ValidationResult = ValidationResult(
    similarity: real,
    quality: Quality,
    termsPreserved: bool,
    confidence: real,
    details: Option<Details>,
    suggestions: seq<string>)

  /** The three `IEmbeddingProvider` calls the validator makes; each may raise. */
  datatype Provider = Provider(
    embed: string -> Result<Vector, Error>,
    batchEmbed: seq<string> -> Result<seq<Vector>, Error>,
    similarity: (Vector, Vector) -> Result<real, Error>)

  /** The constructor's default `quality_threshold`. */
  const DefaultQualityThreshold: real := 0.7

  /** `get_validation_metrics`. */
  const ValidationMetrics: seq<string> :=
    ["similarity_score", "quality_level", "confidence_score", "processing_time", "length_ratio"]

  // ---------------------------------------------------------------------------------
  // Tiers

  /** Position of a tier, best first. */
  function Rank(q: Quality): nat {
    match q
    case Excellent => 3
    case Good => 2
    case NeedsReview => 1
    case Poor => 0
  }

  /** `_determine_quality` against the fixed table 0.9 / 0.7 / 0.5: each bound is
      inclusive. The adjustable `quality_threshold` plays no part. */
  function DetermineQuality(similarity: real): (q: Quality)
    ensures q == Excellent <==> similarity >= 0.9
    ensures q == Good <==> 0.7 <= similarity < 0.9
    ensures q == NeedsReview <==> 0.5 <= similarity < 0.7
    ensures q == Poor <==> similarity < 0.5
  {
    if similarity >= 0.9 then Excellent
    else if similarity >= 0.7 then Good
    else if similarity >= 0.5 then NeedsReview
    else Poor
  }

  /** A higher similarity never gets a lower tier. */
  lemma QualityMonotone(s: real, t: real)
    requires s <= t
    ensures Rank(DetermineQuality(s)) <= Rank(DetermineQuality(t))
  {
  }

  // ---------------------------------------------------------------------------------
  // Confidence

  /** `len(translated) / len(original) if original else 0`. */
  function LengthRatio(original: string, translated: string): real {
    if |original| == 0 then 0.0 else (|translated| as real) / (|original| as real)
  }

  /** The length factor: full credit between half and double the length, less between
      0.3 and 3 times, least outside. */
  function LengthFactor(ratio: real): (f: real)
    ensures f == 1.0 <==> 0.5 <= ratio <= 2.0
    ensures f == 0.8 <==> !(0.5 <= ratio <= 2.0) && 0.3 <= ratio <= 3.0
    ensures f == 0.5 <==> !(0.3 <= ratio <= 3.0)
  {
    if 0.5 <= ratio <= 2.0 then 1.0
    else if 0.3 <= ratio <= 3.0 then 0.8
    else 0.5
  }

  /** `min(1.0, max(0.3, len(original) / 1000))`. */
  function ComplexityFactor(originalLength: nat): (f: real)
    ensures 0.3 <= f <= 1.0
    ensures 300 <= originalLength <= 1000 ==> f == (originalLength as real) / 1000.0
    ensures originalLength <= 300 ==> f == 0.3
    ensures originalLength >= 1000 ==> f == 1.0
  {
    var x := (originalLength as real) / 1000.0;
    if 1.0 < x then 1.0 else if x < 0.3 then 0.3 else x
  }

  /** `_calculate_confidence`: the mean of the similarity, the length factor and the
      complexity factor. The two factors lie in [0.5, 1] and [0.3, 1], so the score
      lies in [0, 1] whenever the similarity does. */
  function CalculateConfidence(original: string, translated: string, similarity: real): (c: real)
    ensures (similarity + 0.8) / 3.0 <= c <= (similarity + 2.0) / 3.0
    ensures 0.0 <= similarity <= 1.0 ==> 0.0 <= c <= 1.0
  {
    var lengthFactor := LengthFactor(LengthRatio(original, translated));
    var complexityFactor := ComplexityFactor(|original|);
    (similarity + lengthFactor + complexityFactor) / 3.0
  }

  /** The confidence grows with the similarity. */
  lemma ConfidenceMonotone(original: string, translated: string, s: real, t: real)
    requires s <= t
    ensures CalculateConfidence(original, translated, s) <= CalculateConfidence(original, translated, t)
  {
  }

  /** A long original and a translation of comparable length leave only the similarity
      short of full confidence. */
  lemma FullFactors(original: string, translated: string, similarity: real)
    requires |original| >= 1000
    requires |original| <= 2 * |translated| && |translated| <= 2 * |original|
    ensures CalculateConfidence(original, translated, similarity) == (similarity + 2.0) / 3.0
  {
    var o, t := |original| as real, |translated| as real;
    RatioWithin(o, t);
  }

  lemma RatioWithin(o: real, t: real)
    requires o > 0.0 && o <= 2.0 * t && t <= 2.0 * o
    ensures 0.5 <= t / o <= 2.0
  {
    DivisionBounds(t, o, 0.5, 2.0);
  }

  // ---------------------------------------------------------------------------------
  // Suggestions

  const LowSimilarityHint := "Low semantic similarity - verify meaning preservation"

  /** `_generate_suggestions`. */
  function GenerateSuggestions(similarity: real, q: Quality): (r: seq<string>)
    ensures q == Poor ==> |r| == 3
    ensures q == NeedsReview ==> |r| == 2
    ensures q == Good || q == Excellent ==> (r == [LowSimilarityHint] <==> similarity < 0.6)
    ensures q == Good || q == Excellent ==> (r == [] <==> similarity >= 0.6)
  {
    if q == Poor then
      ["Consider retranslating this text",
       "Check for missing or incorrect translations",
       "Verify that technical terms are properly preserved"]
    else if q == NeedsReview then
      ["Review translation for accuracy",
       "Consider alternative phrasing for better flow"]
    else if similarity < 0.6 then [LowSimilarityHint]
    else []
  }

  /** With the tier taken from the same score, the low-similarity hint is never given:
      GOOD and EXCELLENT need at least 0.7. A result gets three, two or no suggestions. */
  lemma LowSimilarityHintUnreachable(similarity: real)
    ensures var r := GenerateSuggestions(similarity, DetermineQuality(similarity));
      r != [LowSimilarityHint] && (|r| == 3 || |r| == 2 || |r| == 0)
  {
  }

  // ---------------------------------------------------------------------------------
  // Single validation

  /** What `validate` returns when either text is empty. */
  const EmptyTextResult := ValidationResult(0.0, Poor, false, 0.0, None, ["Empty text provided"])

  /** The `ValidationError` a provider failure becomes. */
  function ValidationFailure(cause: Error): Error {
    Error(ValidationError, "Semantic validation failed: " + cause.message,
      Some("SEMANTIC_VALIDATION_FAILED"))
  }

  /** The result for a scored pair (without `details`). */
  function Scored(original: string, translated: string, similarity: real): ValidationResult {
    var q := DetermineQuality(similarity);
    ValidationResult(similarity, q, true, CalculateConfidence(original, translated, similarity),
      None, GenerateSuggestions(similarity, q))
  }

  /** `validate`: both texts are embedded and the provider's similarity decides the tier;
      any provider failure is re-raised as `SEMANTIC_VALIDATION_FAILED`. */
  function Validate(p: Provider, original: string, translated: string, elapsed: real)
    : (r: Result<ValidationResult, Error>)
    ensures original == [] || translated == [] ==> r == Ok(EmptyTextResult)
    ensures r.Err? ==> r.error.kind == ValidationError && r.error.code == Some("SEMANTIC_VALIDATION_FAILED")
    ensures original != [] && translated != [] ==>
      (r.Ok? <==> p.embed(original).Ok? && p.embed(translated).Ok? &&
                  p.similarity(p.embed(original).value, p.embed(translated).value).Ok?)
    ensures original != [] && translated != [] && r.Ok? ==>
      var s := p.similarity(p.embed(original).value, p.embed(translated).value).value;
      r.value.similarity == s &&
      r.value.quality == DetermineQuality(s) &&
      r.value.termsPreserved &&
      r.value.details == Some(Details(elapsed, |original|, |translated|, LengthRatio(original, translated))) &&
      (0.0 <= s <= 1.0 ==> 0.0 <= r.value.confidence <= 1.0)
  {
    if original == [] || translated == [] then Ok(EmptyTextResult)
    else match p.embed(original)
      case Err(e) => Err(ValidationFailure(e))
      case Ok(e1) =>
        match p.embed(translated)
        case Err(e) => Err(ValidationFailure(e))
        case Ok(e2) =>
          match p.similarity(e1, e2)
          case Err(e) => Err(ValidationFailure(e))
          case Ok(s) =>
            var base := Scored(original, translated, s);
            Ok(base.(details := Some(Details(elapsed, |original|, |translated|,
                                             LengthRatio(original, translated)))))
  }

  /** An empty text is answered without consulting the provider. */
  lemma EmptyTextSkipsProvider(p1: Provider, p2: Provider, original: string, translated: string,
                               t1: real, t2: real)
    requires original == [] || translated == []
    ensures Validate(p1, original, translated, t1) == Validate(p2, original, translated, t2)
    ensures Validate(p1, original, translated, t1).Ok?
    ensures Validate(p1, original, translated, t1).value.suggestions == ["Empty text provided"]
  {
  }

  /** The length ratio reported for a non-empty original is translated over original
      length, between 0.5 and 2 exactly when the length factor is full. */
  lemma ReportedRatio(p: Provider, original: string, translated: string, elapsed: real)
    requires original != [] && translated != []
    requires Validate(p, original, translated, elapsed).Ok?
    ensures Validate(p, original, translated, elapsed).value.details.value.lengthRatio
      == (|translated| as real) / (|original| as real)
    ensures var r := Validate(p, original, translated, elapsed).value;
      LengthFactor(r.details.value.lengthRatio) == 1.0 <==> 0.5 <= r.details.value.lengthRatio <= 2.0
  {
  }

  /** With the embedding provider's cosine score, which lies in [0, 1], a successful
      validation has its confidence in [0, 1] too. */
  lemma ProviderScoreKeepsConfidence(p: Provider, original: string, translated: string, elapsed: real,
                                     a: Vector, b: Vector, m1: real, m2: real)
    requires original != [] && translated != []
    requires p.embed(original) == Ok(a) && p.embed(translated) == Ok(b)
    requires IsNorm(m1, a) && IsNorm(m2, b)
    requires p.similarity(a, b) == CalculateSimilarity(a, b, m1, m2)
    requires |a| == |b|
    ensures Validate(p, original, translated, elapsed).Ok?
    ensures 0.0 <= Validate(p, original, translated, elapsed).value.confidence <= 1.0
  {
  }

  // ---------------------------------------------------------------------------------
  // Batch validation

  /** The result for a pair beyond the returned embeddings. */
  const FallbackResult := ValidationResult(0.0, Poor, false, 0.0, None, ["Failed to process embeddings"])

  /** The result appended for every pair once something has raised. */
  function ErrorResult(e: Error): ValidationResult {
    ValidationResult(0.0, Poor, false, 0.0, None, ["Batch validation error: " + e.message])
  }

  function ErrorResults(n: nat, e: Error): (r: seq<ValidationResult>)
    ensures |r| == n && forall k :: 0 <= k < n ==> r[k] == ErrorResult(e)
  {
    seq(n, _ => ErrorResult(e))
  }

  function Originals(pairs: seq<(string, string)>): (r: seq<string>)
    ensures |r| == |pairs| && forall k :: 0 <= k < |pairs| ==> r[k] == pairs[k].0
  {
    seq(|pairs|, k requires 0 <= k < |pairs| => pairs[k].0)
  }

  function Translations(pairs: seq<(string, string)>): (r: seq<string>)
    ensures |r| == |pairs| && forall k :: 0 <= k < |pairs| ==> r[k] == pairs[k].1
  {
    seq(|pairs|, k requires 0 <= k < |pairs| => pairs[k].1)
  }

  /** How a pair with a similarity becomes a result (`Scored` in `batch_validate`). */
  type Scorer = (string, string, real) -> ValidationResult

  /** One turn of the loop of `batch_validate`: score pair `k` when both embedding lists
      reach it, otherwise the fallback; only the similarity call can raise. */
  function PairStep(p: Provider, pairs: seq<(string, string)>, oe: seq<Vector>, te: seq<Vector>, k: nat,
                    score: Scorer)
    : Result<ValidationResult, Error>
    requires k < |pairs|
  {
    if k < |oe| && k < |te| then
      match p.similarity(oe[k], te[k])
      case Ok(s) => Ok(score(pairs[k].0, pairs[k].1, s))
      case Err(e) => Err(e)
    else Ok(FallbackResult)
  }

  /** The outcome of each pair's turn. */
  function Steps(p: Provider, pairs: seq<(string, string)>, oe: seq<Vector>, te: seq<Vector>, score: Scorer)
    : (r: seq<Result<ValidationResult, Error>>)
    ensures |r| == |pairs| && forall k :: 0 <= k < |pairs| ==> r[k] == PairStep(p, pairs, oe, te, k, score)
  {
    seq(|pairs|, k requires 0 <= k < |pairs| => PairStep(p, pairs, oe, te, k, score))
  }

  /** The loop over the first `n` turns: the results appended so far, or those appended
      before the turn that raised, together with the failure. */
  function ScoreLoop(steps: seq<Result<ValidationResult, Error>>, n: nat)
    : Result<seq<ValidationResult>, (seq<ValidationResult>, Error)>
    requires n <= |steps|
  {
    if n == 0 then Ok([])
    else match ScoreLoop(steps, n - 1)
      case Err(stop) => Err(stop)
      case Ok(rs) =>
        match steps[n - 1]
        case Ok(r) => Ok(rs + [r])
        case Err(e) => Err((rs, e))
  }

  /** What `batch_validate` returns. */
  function BatchResults(p: Provider, pairs: seq<(string, string)>, score: Scorer): seq<ValidationResult> {
    match p.batchEmbed(Originals(pairs))
    case Err(e) => ErrorResults(|pairs|, e)
    case Ok(oe) =>
      match p.batchEmbed(Translations(pairs))
      case Err(e) => ErrorResults(|pairs|, e)
      case Ok(te) =>
        match ScoreLoop(Steps(p, pairs, oe, te, score), |pairs|)
        case Ok(rs) => rs
        case Err((rs, e)) => rs + ErrorResults(|pairs|, e)
  }

  /** The loop of `batch_validate`: the results in pair order, or those appended before
      the turn that raised, with the failure. */
  method ScorePairs(p: Provider, pairs: seq<(string, string)>, oe: seq<Vector>, te: seq<Vector>, score: Scorer)
    returns (r: Result<seq<ValidationResult>, (seq<ValidationResult>, Error)>)
    ensures r == ScoreLoop(Steps(p, pairs, oe, te, score), |pairs|)
  {
    ghost var steps := Steps(p, pairs, oe, te, score);
    var results := [];
    for i := 0 to |pairs|
      invariant ScoreLoop(steps, i) == Ok(results)
    {
      var step := PairStep(p, pairs, oe, te, i, score);
      assert steps[i] == step;
      if step.Err? {
        assert ScoreLoop(steps, i + 1) == Err((results, step.error));
        ScoreLoopStops(steps, i + 1, |pairs|);
        return Err((results, step.error));
      }
      results := results + [step.value];
    }
    return Ok(results);
  }

  /** `batch_validate`: embeds both sides in one call each, then scores pair by pair. */
  method BatchValidate(p: Provider, pairs: seq<(string, string)>) returns (results: seq<ValidationResult>)
    ensures results == BatchResults(p, pairs, Scored)
  {
    var originalEmbeddings := p.batchEmbed(Originals(pairs));
    if originalEmbeddings.Err? {
      return ErrorResults(|pairs|, originalEmbeddings.error);
    }
    var translatedEmbeddings := p.batchEmbed(Translations(pairs));
    if translatedEmbeddings.Err? {
      return ErrorResults(|pairs|, translatedEmbeddings.error);
    }
    var scored := ScorePairs(p, pairs, originalEmbeddings.value, translatedEmbeddings.value, Scored);
    if scored.Err? {
      return scored.error.0 + ErrorResults(|pairs|, scored.error.1);
    }
    results := scored.value;
  }

  /** The loop appends one result per turn it finishes, and stops short on a failure. */
  lemma {:induction false} ScoreLoopLength(steps: seq<Result<ValidationResult, Error>>, n: nat)
    requires n <= |steps|
    ensures ScoreLoop(steps, n).Ok? ==> |ScoreLoop(steps, n).value| == n
    ensures ScoreLoop(steps, n).Err? ==> |ScoreLoop(steps, n).error.0| < n
  {
    if n > 0 {
      ScoreLoopLength(steps, n - 1);
    }
  }

  /** When no turn fails, result `k` is turn `k`'s result. */
  lemma {:induction false} ScoreLoopAligned(steps: seq<Result<ValidationResult, Error>>, n: nat, k: nat)
    requires k < n <= |steps|
    requires ScoreLoop(steps, n).Ok?
    ensures |ScoreLoop(steps, n).value| == n
    ensures steps[k].Ok? && ScoreLoop(steps, n).value[k] == steps[k].value
  {
    ScoreLoopLength(steps, n - 1);
    if k < n - 1 {
      ScoreLoopAligned(steps, n - 1, k);
    }
  }

  /** One result per pair unless a similarity call raises mid-loop; then the results
      already appended stay and one error result per pair follows, so the output has
      between `|pairs|` and `2 * |pairs| - 1` entries. */
  lemma BatchLength(p: Provider, pairs: seq<(string, string)>, score: Scorer)
    ensures |pairs| <= |BatchResults(p, pairs, score)|
    ensures pairs != [] ==> |BatchResults(p, pairs, score)| < 2 * |pairs|
    ensures p.batchEmbed(Originals(pairs)).Ok? && p.batchEmbed(Translations(pairs)).Ok? &&
            ScoreLoop(Steps(p, pairs, p.batchEmbed(Originals(pairs)).value,
                            p.batchEmbed(Translations(pairs)).value, score), |pairs|).Ok?
            ==> |BatchResults(p, pairs, score)| == |pairs|
  {
    var oe, te := p.batchEmbed(Originals(pairs)), p.batchEmbed(Translations(pairs));
    if oe.Ok? && te.Ok? {
      ScoreLoopLength(Steps(p, pairs, oe.value, te.value, score), |pairs|);
    }
  }

  /** A pair the returned embeddings do not reach (a blank text was dropped from the
      batch) gets the POOR fallback, with no similarity call. */
  lemma ShortEmbeddingsFallBack(p: Provider, pairs: seq<(string, string)>, k: nat, score: Scorer)
    requires k < |pairs|
    requires p.batchEmbed(Originals(pairs)).Ok? && p.batchEmbed(Translations(pairs)).Ok?
    requires |p.batchEmbed(Originals(pairs)).value| <= k
    requires ScoreLoop(Steps(p, pairs, p.batchEmbed(Originals(pairs)).value,
                             p.batchEmbed(Translations(pairs)).value, score), |pairs|).Ok?
    ensures |BatchResults(p, pairs, score)| == |pairs|
    ensures BatchResults(p, pairs, score)[k] == FallbackResult
  {
    var oe, te := p.batchEmbed(Originals(pairs)).value, p.batchEmbed(Translations(pairs)).value;
    ScoreLoopAligned(Steps(p, pairs, oe, te, score), |pairs|, k);
  }

  /** Once a turn has failed, the loop's outcome is that failure. */
  lemma {:induction false} ScoreLoopStops(steps: seq<Result<ValidationResult, Error>>, n: nat, m: nat)
    requires n <= m <= |steps|
    requires ScoreLoop(steps, n).Err?
    ensures ScoreLoop(steps, m) == ScoreLoop(steps, n)
  {
    if n < m {
      ScoreLoopStops(steps, n, m - 1);
    }
  }

  /** When every turn before `k` succeeds and turn `k` fails, the loop stops with the
      `k` results appended so far and turn `k`'s failure. */
  lemma {:induction false} ScoreLoopFailsAt(steps: seq<Result<ValidationResult, Error>>, k: nat)
    requires k < |steps|
    requires forall j :: 0 <= j < k ==> steps[j].Ok?
    requires steps[k].Err?
    ensures ScoreLoop(steps, |steps|).Err? && ScoreLoop(steps, k).Ok?
    ensures ScoreLoop(steps, |steps|).error.0 == ScoreLoop(steps, k).value
    ensures |ScoreLoop(steps, |steps|).error.0| == k
    ensures ScoreLoop(steps, |steps|).error.1 == steps[k].error
  {
    ScoreLoopSucceeds(steps, k);
    assert ScoreLoop(steps, k + 1) == Err((ScoreLoop(steps, k).value, steps[k].error));
    ScoreLoopStops(steps, k + 1, |steps|);
  }

  /** Turns that all succeed give one result each. */
  lemma {:induction false} ScoreLoopSucceeds(steps: seq<Result<ValidationResult, Error>>, n: nat)
    requires n <= |steps|
    requires forall j :: 0 <= j < n ==> steps[j].Ok?
    ensures ScoreLoop(steps, n).Ok? && |ScoreLoop(steps, n).value| == n
  {
    if n > 0 {
      ScoreLoopSucceeds(steps, n - 1);
    }
  }

  /** A similarity failure at pair `k`, after `k` scored pairs, makes `batch_validate`
      return `|pairs| + k` results: the `k` already appended and one error result per
      pair. With a failure on the second of two pairs, three results come back. */
  lemma FailureAtTurnOutgrowsInput(p: Provider, pairs: seq<(string, string)>, k: nat, score: Scorer)
    requires k < |pairs|
    requires p.batchEmbed(Originals(pairs)).Ok? && p.batchEmbed(Translations(pairs)).Ok?
    requires var steps := Steps(p, pairs, p.batchEmbed(Originals(pairs)).value,
                                p.batchEmbed(Translations(pairs)).value, score);
      (forall j :: 0 <= j < k ==> steps[j].Ok?) && steps[k].Err?
    ensures |BatchResults(p, pairs, score)| == |pairs| + k
    ensures var steps := Steps(p, pairs, p.batchEmbed(Originals(pairs)).value,
                               p.batchEmbed(Translations(pairs)).value, score);
      && (forall j :: 0 <= j < k ==> BatchResults(p, pairs, score)[j] == steps[j].value)
      && (forall j :: k <= j < |pairs| + k ==> BatchResults(p, pairs, score)[j] == ErrorResult(steps[k].error))
  {
    var steps := Steps(p, pairs, p.batchEmbed(Originals(pairs)).value,
                       p.batchEmbed(Translations(pairs)).value, score);
    ScoreLoopFailsAt(steps, k);
    ScoreLoopSucceeds(steps, k);
    forall j | 0 <= j < k ensures ScoreLoop(steps, k).value[j] == steps[j].value {
      ScoreLoopAligned(steps, k, j);
    }
  }

  // ---------------------------------------------------------------------------------
  // Threshold

  class SemanticValidator {
    const provider: Provider
    var qualityThreshold: real

    /** The constructor stores the threshold as given, without the setter's check. */
    constructor(provider: Provider, qualityThreshold: real)
      ensures this.provider == provider && this.qualityThreshold == qualityThreshold
    {
      this.provider := provider;
      this.qualityThreshold := qualityThreshold;
    }

    /** `set_quality_threshold`: [0, 1] inclusive is stored, anything else raises
        `ValueError` and leaves the stored value. */
    method SetQualityThreshold(threshold: real) returns (err: Option<Error>)
      modifies this
      ensures 0.0 <= threshold <= 1.0 ==> err == None && qualityThreshold == threshold
      ensures !(0.0 <= threshold <= 1.0) ==>
        err == Some(Error(ValueError, "Quality threshold must be between 0.0 and 1.0", None)) &&
        qualityThreshold == old(qualityThreshold)
      ensures err.None? <==> 0.0 <= threshold <= 1.0
    {
      if 0.0 <= threshold <= 1.0 {
        qualityThreshold := threshold;
        err := None;
      } else {
        err := Some(Error(ValueError, "Quality threshold must be between 0.0 and 1.0", None));
      }
    }

    /** `get_quality_threshold`. */
    method GetQualityThreshold() returns (threshold: real)
      ensures threshold == qualityThreshold
    {
      threshold := qualityThreshold;
    }
  }
}
