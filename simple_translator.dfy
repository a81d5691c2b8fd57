/** The two proof-of-concept translators, `SimpleCVETranslator`
    (`services/simple_translator.py`) and `MinimalCVETranslator` (`minimal_translator.py`),
    which share their translation, validation and term check. The chat service, the
    embeddings' cosine and the `re` patterns are oracles. */
module SimpleTranslation {
  import opened Wrappers
  import opened Text
  import opened Matching
  import opened Reals

  /** Stripped texts shorter than this are returned untranslated. */
  const MinimumLength: nat := 3
  /** The similarity above which a translation is 'Good'. */
  const GoodThreshold: real := 0.7
  /** `np.zeros(1536)`: the embedding size of `text-embedding-3-small`. */
  const EmbeddingSize: nat := 1536

  // ---------------------------------------------------------------------------------
  // Translation

  /** `translate_text`, given the chat service: the message content of its reply (`None`
      when there is none) or the text of the exception it raised. */
  function TranslateText(text: string, service: string -> Result<Option<string>, string>): string {
    if |Strip(text)| < MinimumLength then text
    else
      match service(text)
      case Err(_) => text
      case Ok(None) => text
      case Ok(Some(content)) => if content == [] then text else Strip(content)
  }

  /** A text whose stripped form is under three characters comes back unchanged whatever
      the service would answer; any other text comes back unchanged when the service
      fails or replies with nothing, and as the stripped reply otherwise. */
  lemma TranslationOutcomes(text: string, service: string -> Result<Option<string>, string>,
                            other: string -> Result<Option<string>, string>)
    ensures |Strip(text)| < MinimumLength ==>
      TranslateText(text, service) == TranslateText(text, other) == text
    ensures |Strip(text)| >= MinimumLength &&
            (service(text).Err? || service(text) == Ok(None) || service(text) == Ok(Some([]))) ==>
      TranslateText(text, service) == text
    ensures |Strip(text)| >= MinimumLength && service(text).Ok? && service(text).value.Some? &&
            service(text).value.value != [] ==>
      TranslateText(text, service) == Strip(service(text).value.value)
  {
  }

  /** A reply of blanks is not empty, so it is stripped to the empty translation. */
  lemma BlankReplyGivesEmptyTranslation(text: string, service: string -> Result<Option<string>, string>)
    requires |Strip(text)| >= MinimumLength
    requires service(text) == Ok(Some(" "))
    ensures TranslateText(text, service) == []
  {
    assert IsSpace(' ');
    StripFacts(" ");
  }

  // ---------------------------------------------------------------------------------
  // Term check

  /** The four `patterns` of `_check_technical_preservation`. */
  datatype CheckPattern = CveId | CvssVersion | Company | Url

  const CheckPatterns: seq<CheckPattern> := [CveId, CvssVersion, Company, Url]

  /** `re.findall(pattern, text, re.IGNORECASE)`. */
  type CheckScanner = (CheckPattern, string) -> seq<Match>

  /** `set(re.findall(pattern, text, re.IGNORECASE))`. */
  function MatchSet(scan: CheckScanner, p: CheckPattern, text: string): set<string> {
    FindallSet(scan(p, text))
  }

  /** Every pattern that matches the original finds all its original matches again in
      the translation. */
  predicate PreservedPerPattern(scan: CheckScanner, original: string, translated: string) {
    forall p :: p in CheckPatterns && MatchSet(scan, p, original) != {} ==>
      MatchSet(scan, p, original) <= MatchSet(scan, p, translated)
  }

  /** `_check_technical_preservation`: the loop over the patterns, leaving at the first
      one whose original matches are not all in the translation. */
  method CheckTechnicalPreservation(scan: CheckScanner, original: string, translated: string)
    returns (ok: bool)
    ensures ok <==> PreservedPerPattern(scan, original, translated)
  {
    for i := 0 to |CheckPatterns|
      invariant forall k :: 0 <= k < i && MatchSet(scan, CheckPatterns[k], original) != {} ==>
        MatchSet(scan, CheckPatterns[k], original) <= MatchSet(scan, CheckPatterns[k], translated)
    {
      var p := CheckPatterns[i];
      var originalMatches := MatchSet(scan, p, original);
      var translatedMatches := MatchSet(scan, p, translated);
      if originalMatches != {} && !(originalMatches <= translatedMatches) {
        return false;
      }
    }
    return true;
  }

  /** Nothing matching the original, or a translation equal to the original, passes the
      check. */
  lemma PreservedWhenNothingToKeep(scan: CheckScanner, original: string, translated: string)
    ensures (forall p :: MatchSet(scan, p, original) == {}) ==> PreservedPerPattern(scan, original, translated)
    ensures PreservedPerPattern(scan, original, original)
  {
  }

  /** Matching ignores case but the comparison does not: "VMware" in the original and
      only "vmware" in the translation fail the check. */
  lemma ComparisonIsCaseSensitive(scan: CheckScanner, original: string, translated: string)
    requires scan(Company, original) == [Match(0, "VMware", [])]
    requires scan(Company, translated) == [Match(0, "vmware", [])]
    ensures !PreservedPerPattern(scan, original, translated)
  {
    assert FindallItem(Match(0, "VMware", [])) == "VMware";
    assert "VMware" in MatchSet(scan, Company, original);
    assert "VMware" != "vmware" by {
      assert "VMware"[1] != "vmware"[1];
    }
    forall m | m in scan(Company, translated)
      ensures FindallItem(m) != "VMware"
    {
    }
    assert "VMware" !in MatchSet(scan, Company, translated);
    assert Company in CheckPatterns;
  }

  /** The CVSS pattern's capture group means only the decimal suffix is compared: a
      translation that turns "CVSSv3.1" into "CVSSv4.1" passes. */
  lemma CvssComparesOnlySuffix(scan: CheckScanner, original: string, translated: string)
    requires scan(CvssVersion, original) == [Match(0, "CVSSv3.1", [".1"])]
    requires scan(CvssVersion, translated) == [Match(0, "CVSSv4.1", [".1"])]
    ensures MatchSet(scan, CvssVersion, original) == MatchSet(scan, CvssVersion, translated) == {".1"}
  {
    assert FindallItem(Match(0, "CVSSv3.1", [".1"])) == ".1";
    assert FindallItem(Match(0, "CVSSv4.1", [".1"])) == ".1";
  }

  // ---------------------------------------------------------------------------------
  // Validation

  /** The dict `validate_translation` returns. */
  datatype Validation = Validation(similarityScore: real, quality: string, technicalTermsPreserved: bool)

  /** `MinimalCVETranslator`'s answer without an OpenAI key. */
  const NotValidated: Validation := Validation(0.85, "Not validated (no OpenAI key)", true)

  /** `max(0.0, min(1.0, (similarity + 1) / 2))`. */
  function SimilarityScore(cosine: real): (s: real)
    ensures 0.0 <= s <= 1.0
    ensures -1.0 <= cosine <= 1.0 ==> s == (cosine + 1.0) / 2.0
  {
    Clamp01((cosine + 1.0) / 2.0)
  }

  function QualityLabel(score: real): string {
    if score > GoodThreshold then "Good" else "Needs Review"
  }

  /** A translation is 'Good' exactly when the cosine exceeds 0.4, and never at a score
      of exactly 0.7. */
  lemma GoodMeansCosineAboveFourTenths(cosine: real)
    requires -1.0 <= cosine <= 1.0
    ensures QualityLabel(SimilarityScore(cosine)) == "Good" <==> cosine > 0.4
    ensures SimilarityScore(cosine) == GoodThreshold ==> QualityLabel(SimilarityScore(cosine)) == "Needs Review"
  {
    assert "Good" != "Needs Review" by {
      assert |"Good"| != |"Needs Review"|;
    }
  }

  /** `validate_translation` of either class. `validationAvailable` is always true for
      `SimpleCVETranslator`, whose constructor demands a key; `cosine` is the cosine of
      the two texts' embeddings, or the text of the exception raised computing it. */
  method ValidateTranslation(validationAvailable: bool, cosine: (string, string) -> Result<real, string>,
                             scan: CheckScanner, original: string, translated: string)
    returns (r: Validation)
    ensures !validationAvailable ==> r == NotValidated
    ensures validationAvailable && cosine(original, translated).Err? ==>
      r == Validation(0.0, "Validation Error: " + cosine(original, translated).error, false)
    ensures validationAvailable && cosine(original, translated).Ok? ==>
      && r.similarityScore == SimilarityScore(cosine(original, translated).value)
      && (r.quality == "Good" <==> r.similarityScore > GoodThreshold)
      && (r.quality != "Good" ==> r.quality == "Needs Review")
      && (r.technicalTermsPreserved <==> PreservedPerPattern(scan, original, translated))
  {
    if !validationAvailable {
      return NotValidated;
    }
    var c := cosine(original, translated);
    if c.Err? {
      return Validation(0.0, "Validation Error: " + c.error, false);
    }
    var score := SimilarityScore(c.value);
    var preserved := CheckTechnicalPreservation(scan, original, translated);
    assert "Good" != "Needs Review" by {
      assert |"Good"| != |"Needs Review"|;
    }
    r := Validation(score, QualityLabel(score), preserved);
  }

  /** `MinimalCVETranslator._get_embedding`: the zero vector of 1536 entries when there
      is no client, otherwise the service's vector for the text with newlines made
      spaces. */
  function MinimalEmbedding(hasClient: bool, text: string, service: string -> seq<real>): seq<real> {
    if !hasClient then seq(EmbeddingSize, _ => 0.0) else service(Replace(text, "\n", " "))
  }

  /** Without a client the embedding is 1536 zeros, whatever the text. */
  lemma NoClientEmbeddingIsZero(text: string, other: string, service: string -> seq<real>)
    ensures var v := MinimalEmbedding(false, text, service);
      && |v| == EmbeddingSize
      && (forall k :: 0 <= k < |v| ==> v[k] == 0.0)
      && v == MinimalEmbedding(false, other, service)
  {
  }
}
