/** `TranslationOrchestrator` (`orchestration/translation_orchestrator.py`, identical to
    its copy under `src/`): the per-unit steps around a fallible translator and
    validator, the session counters, the document translation map and the average
    validation score. The term preserver is the `CVETermPreserver` model; durations are
    inputs. */
module Orchestration {
  import opened Wrappers
  import opened Collections
  import opened Errors
  import opened Text
  import opened Placeholders
  import opened TermPreserver
  import opened SemanticValidation
  import opened Reals

  /** The `quality` entry of a validation dict: the validator's enum member, or one of
      the strings the fallbacks write. */
  datatype QualityField = Tier(tier: Quality) | Label(name: string)

  /** The validation dict `translate_text` stores. */
  datatype ValidationDict = ValidationDict(similarity: real, confidence: real, quality: QualityField)

  /** The dict `translate_text` returns. The raw `translation_response` is not kept. */
  datatype UnitResult =
    | Translated(originalText: string, translatedText: string, validation: Option<ValidationDict>,
                 termsPreserved: bool, processingTime: real, preservationStats: PreservationStats)
    | Failed(originalText: string, error: string, errorType: string, processingTime: real)

  /** `self.validator.calculate_similarity`, tried when `validate` raises. The semantic
      validator has no such method, so with it this call always raises. */
  type SimilarityFallback = (string, string) -> Result<real, Error>

  /** The validation dict for a finished translation, `None` when validation is off. */
  function ValidationFor(validator: (string, string) -> Result<ValidationResult, Error>,
                         fallback: SimilarityFallback, validate: bool, text: string, translated: string)
    : Option<ValidationDict>
  {
    if !validate then None
    else match validator(text, translated)
      case Ok(v) => Some(ValidationDict(v.similarity, v.confidence, Tier(v.quality)))
      case Err(_) =>
        match fallback(text, translated)
        case Ok(s) => Some(ValidationDict(s, 0.8, Label(if s > 0.7 then "good" else "moderate")))
        case Err(_) => Some(ValidationDict(0.75, 0.8, Label("good")))
  }

  /** A validator failure never fails the unit: the dict falls back to the similarity
      call with confidence 0.8, or to the fixed 0.75 / 0.8 / "good". */
  lemma ValidationOutcomes(validator: (string, string) -> Result<ValidationResult, Error>,
                           fallback: SimilarityFallback, validate: bool, text: string, translated: string)
    ensures var d := ValidationFor(validator, fallback, validate, text, translated);
      && (d.Some? <==> validate)
      && (d.Some? && validator(text, translated).Ok? ==>
            d.value == ValidationDict(validator(text, translated).value.similarity,
                                      validator(text, translated).value.confidence,
                                      Tier(validator(text, translated).value.quality)))
      && (d.Some? && validator(text, translated).Err? && fallback(text, translated).Ok? ==>
            d.value.similarity == fallback(text, translated).value && d.value.confidence == 0.8)
      && (d.Some? && validator(text, translated).Err? && fallback(text, translated).Err? ==>
            d.value == ValidationDict(0.75, 0.8, Label("good")))
  {
  }

  /** Without preservation the text goes to the translator as it is; with it, so does a
      text holding no `__PRESERVE_`, since the effective map sends placeholders to terms. */
  predicate ReachesTranslatorUnchanged(text: string, preserve: bool) {
    !preserve || !Contains(text, "__" + PreserveStem)
  }

  /** The map `create_preservation_map` builds for `text`: its distinct terms, term `i`
      keyed to `__PRESERVE_i__`. */
  predicate PreservationMapOf(scan: Scanner, text: string, m: seq<(string, string)>) {
    && Distinct(Keys(m))
    && Elements(Keys(m)) == TermsOf(scan, text)
    && forall i :: 0 <= i < |m| ==> m[i].1 == Placeholder(PreserveStem, i)
  }

  /** The text the translator is given: masked by `apply_protection_tokens` with the
      map when preservation is on. */
  function Masked(text: string, m: seq<(string, string)>, preserve: bool): string {
    if preserve then ReplaceAll(text, ProtectionPairs(m)) else text
  }

  /** The translation returned for a reply: restored by `restore_preservation_map` with
      the map when preservation is on. */
  function Unmasked(reply: string, m: seq<(string, string)>, preserve: bool): string {
    if preserve then ReplaceAll(reply, Swapped(m)) else reply
  }

  /** How a unit ends once `sent` went to the translator: translated exactly when the
      translator answered, with its reply restored through the map, or failed with the
      translator's error message and class. */
  predicate ReplyOutcome(translator: string -> Result<string, Error>, sent: string,
                         m: seq<(string, string)>, preserve: bool, r: UnitResult) {
    && (r.Translated? <==> translator(sent).Ok?)
    && (r.Failed? ==> r.error == translator(sent).error.message
                      && r.errorType == ClassName(translator(sent).error.kind))
    && (r.Translated? ==> r.translatedText == Unmasked(translator(sent).value, m, preserve))
  }

  /** What `translate_text` promises about the unit of `text` beyond its bookkeeping: `m`
      is the preservation map built for the text (none without preservation), the
      translator received the masked text and its reply decides the outcome, and a
      translated unit reports whether the text's terms survived and the statistics of
      `get_preservation_statistics` on the restored translation. */
  ghost predicate UnitOutcome(scan: Scanner, translator: string -> Result<string, Error>, preserve: bool,
                              text: string, m: seq<(string, string)>, r: UnitResult) {
    && (preserve ==> PreservationMapOf(scan, text, m))
    && (!preserve ==> m == [])
    && ReplyOutcome(translator, Masked(text, m, preserve), m, preserve, r)
    && (r.Translated? ==>
          && (r.termsPreserved <==> TermsOf(scan, text) <= TermsOf(scan, r.translatedText))
          && StatsMeaning(TermsOf(scan, text), TermsOf(scan, r.translatedText), r.preservationStats))
  }

  /** The summed durations of the first `n` units of a batch, `times(k)` for unit `k`. */
  function TotalTime(times: nat -> real, n: nat): real {
    if n == 0 then 0.0 else TotalTime(times, n - 1) + times(n - 1)
  }

  /** Step 1 of `translate_text`: with preservation on, the effective (term to
      placeholder) map is built and `apply_protection_tokens` run with it. */
  method ProtectTerms(scan: Scanner, text: string, preserve: bool)
    returns (processed: string, m: seq<(string, string)>)
    ensures preserve ==> PreservationMapOf(scan, text, m)
    ensures !preserve ==> m == []
    ensures processed == Masked(text, m, preserve)
    ensures ReachesTranslatorUnchanged(text, preserve) ==> processed == text
  {
    if preserve {
      m := CreatePreservationMap(scan, text);
      processed := ApplyProtectionTokens(text, m);
      if !Contains(text, "__" + PreserveStem) {
        EffectiveProtectionIsIdentity(text, m);
      }
    } else {
      processed := text;
      m := [];
    }
  }

  /** Step 4 of `translate_text`: `restore_preservation_map` on the reply when
      preservation is on. */
  method RestoreTerms(reply: string, m: seq<(string, string)>, preserve: bool) returns (translated: string)
    requires forall i :: 0 <= i < |m| ==> m[i].1 == Placeholder(PreserveStem, i)
    ensures translated == Unmasked(reply, m, preserve)
    ensures ReachesTranslatorUnchanged(reply, preserve) ==> translated == reply
  {
    if preserve {
      translated := RestorePreservationMap(reply, m);
      if !Contains(reply, "__" + PreserveStem) {
        EffectiveRestoreIsIdentity(reply, m);
      }
    } else {
      translated := reply;
    }
  }

  /** Steps 5 to 7 of `translate_text` on the restored translation: the validation dict,
      `verify_preservation` and `get_preservation_statistics`. */
  method TranslatedUnit(scan: Scanner, validator: (string, string) -> Result<ValidationResult, Error>,
                        fallback: SimilarityFallback, validate: bool, text: string, translated: string,
                        elapsed: real)
    returns (r: UnitResult)
    ensures r.Translated? && r.originalText == text && r.translatedText == translated
    ensures r.processingTime == elapsed
    ensures r.validation == ValidationFor(validator, fallback, validate, text, translated)
    ensures r.termsPreserved <==> TermsOf(scan, text) <= TermsOf(scan, translated)
    ensures StatsMeaning(TermsOf(scan, text), TermsOf(scan, translated), r.preservationStats)
  {
    var validation := ValidationFor(validator, fallback, validate, text, translated);
    var termsPreserved := VerifyPreservation(scan, text, translated);
    var stats := PreservationStatistics(scan, text, translated);
    r := Translated(text, translated, validation, termsPreserved, elapsed, stats);
  }

  /** The steps of `translate_text` between the counters: protection, the translator
      call, restoration and the result dict, or the failure dict when the translator
      raises. */
  method RunUnit(scan: Scanner, translator: string -> Result<string, Error>,
                 validator: (string, string) -> Result<ValidationResult, Error>, fallback: SimilarityFallback,
                 text: string, validate: bool, preserve: bool, elapsed: real)
    returns (r: UnitResult, ghost m: seq<(string, string)>)
    ensures r.originalText == text && r.processingTime == elapsed
    ensures UnitOutcome(scan, translator, preserve, text, m, r)
    ensures ReachesTranslatorUnchanged(text, preserve) ==>
      && (r.Translated? <==> translator(text).Ok?)
      && (r.Failed? ==> r.error == translator(text).error.message
                        && r.errorType == ClassName(translator(text).error.kind))
      && (r.Translated? && ReachesTranslatorUnchanged(translator(text).value, preserve) ==>
            r.translatedText == translator(text).value)
    ensures r.Translated? ==> r.validation == ValidationFor(validator, fallback, validate, text, r.translatedText)
  {
    var processed, pm := ProtectTerms(scan, text, preserve);
    m := pm;
    var response := translator(processed);
    if response.Err? {
      return Failed(text, response.error.message, ClassName(response.error.kind), elapsed), m;
    }
    var translated := RestoreTerms(response.value, pm, preserve);
    r := TranslatedUnit(scan, validator, fallback, validate, text, translated, elapsed);
    assert ReplyOutcome(translator, processed, m, preserve, r);
  }

  class TranslationOrchestrator {
    const scan: Scanner
    const translator: string -> Result<string, Error>
    const validator: (string, string) -> Result<ValidationResult, Error>
    const fallback: SimilarityFallback

    var totalTranslations: nat
    var successfulTranslations: nat
    var failedTranslations: nat
    var totalProcessingTime: real
    var averageProcessingTime: real

    /** Every unit counted once as a success or a failure, and the average kept as total
        time over finished units. */
    predicate Valid()
      reads this
    {
      && totalTranslations == successfulTranslations + failedTranslations
      && (successfulTranslations + failedTranslations == 0 ==>
            totalProcessingTime == 0.0 && averageProcessingTime == 0.0)
      && (successfulTranslations + failedTranslations > 0 ==>
            averageProcessingTime == totalProcessingTime / ((successfulTranslations + failedTranslations) as real))
    }

    constructor(scan: Scanner, translator: string -> Result<string, Error>,
                validator: (string, string) -> Result<ValidationResult, Error>, fallback: SimilarityFallback)
      ensures Valid()
      ensures totalTranslations == 0 && totalProcessingTime == 0.0
      ensures this.scan == scan && this.translator == translator
      ensures this.validator == validator && this.fallback == fallback
    {
      this.scan := scan;
      this.translator := translator;
      this.validator := validator;
      this.fallback := fallback;
      totalTranslations := 0;
      successfulTranslations := 0;
      failedTranslations := 0;
      totalProcessingTime := 0.0;
      averageProcessingTime := 0.0;
    }

    /** `_update_stats` as Python keeps it (the second definition): the duration is
        added, one outcome counter is bumped and the average recomputed. */
    method UpdateStats(duration: real, success: bool)
      modifies this
      ensures totalProcessingTime == old(totalProcessingTime) + duration
      ensures success ==> successfulTranslations == old(successfulTranslations) + 1
                          && failedTranslations == old(failedTranslations)
      ensures !success ==> failedTranslations == old(failedTranslations) + 1
                           && successfulTranslations == old(successfulTranslations)
      ensures averageProcessingTime ==
        totalProcessingTime / ((successfulTranslations + failedTranslations) as real)
      ensures totalTranslations == old(totalTranslations)
    {
      totalProcessingTime := totalProcessingTime + duration;
      if success {
        successfulTranslations := successfulTranslations + 1;
      } else {
        failedTranslations := failedTranslations + 1;
      }
      var finished := successfulTranslations + failedTranslations;
      if finished > 0 {
        averageProcessingTime := totalProcessingTime / (finished as real);
      }
    }

    /** `reset_statistics`: all five fields back to zero. */
    method ResetStatistics()
      modifies this
      ensures Valid()
      ensures totalTranslations == 0 && successfulTranslations == 0 && failedTranslations == 0
      ensures totalProcessingTime == 0.0 && averageProcessingTime == 0.0
    {
      totalTranslations := 0;
      successfulTranslations := 0;
      failedTranslations := 0;
      totalProcessingTime := 0.0;
      averageProcessingTime := 0.0;
    }

    /** `translate_text`. Only the translator can raise before the statistics are
        updated: a failure is counted and reported, never re-raised, and a validator
        failure falls back to a dict without failing the unit. With preservation on, a
        text holding no `__PRESERVE_` reaches the translator unchanged, and a reply
        holding none is returned unchanged: the masking does nothing. */
    method TranslateText(text: string, validate: bool, preserve: bool, elapsed: real)
      returns (r: UnitResult, ghost m: seq<(string, string)>)
      requires Valid()
      modifies this
      ensures Valid()
      ensures r.originalText == text && r.processingTime == elapsed
      ensures totalTranslations == old(totalTranslations) + 1
      ensures totalProcessingTime == old(totalProcessingTime) + elapsed
      ensures r.Translated? ==> successfulTranslations == old(successfulTranslations) + 1
                                && failedTranslations == old(failedTranslations)
      ensures r.Failed? ==> failedTranslations == old(failedTranslations) + 1
                            && successfulTranslations == old(successfulTranslations)
      ensures UnitOutcome(scan, translator, preserve, text, m, r)
      ensures ReachesTranslatorUnchanged(text, preserve) ==>
        && (r.Translated? <==> translator(text).Ok?)
        && (r.Failed? ==> r.error == translator(text).error.message
                          && r.errorType == ClassName(translator(text).error.kind))
        && (r.Translated? && ReachesTranslatorUnchanged(translator(text).value, preserve) ==>
              r.translatedText == translator(text).value)
      ensures r.Translated? ==> r.validation == ValidationFor(validator, fallback, validate, text, r.translatedText)
    {
      totalTranslations := totalTranslations + 1;
      r, m := RunUnit(scan, translator, validator, fallback, text, validate, preserve, elapsed);
      UpdateStats(elapsed, r.Translated?);
    }

    /** `translate_batch`, run one text after another in input order; `times(k)` is the
        duration of the `k`-th unit and `ms[k]` the preservation map of its text. */
    method TranslateBatch(texts: seq<string>, validate: bool, preserve: bool, times: nat -> real)
      returns (results: seq<UnitResult>, ghost ms: seq<seq<(string, string)>>)
      requires Valid()
      modifies this
      ensures Valid()
      ensures |results| == |texts| == |ms|
      ensures forall k :: 0 <= k < |texts| ==> UnitFor(validator, fallback, validate, texts[k], times(k), results[k])
      ensures forall k :: 0 <= k < |texts| ==> UnitOutcome(scan, translator, preserve, texts[k], ms[k], results[k])
      ensures totalTranslations == old(totalTranslations) + |texts|
      ensures successfulTranslations == old(successfulTranslations) + CountTranslated(results)
      ensures failedTranslations == old(failedTranslations) + (|texts| - CountTranslated(results))
      ensures totalProcessingTime == old(totalProcessingTime) + TotalTime(times, |texts|)
    {
      results, ms := [], [];
      if texts == [] {
        return;
      }
      for i := 0 to |texts|
        invariant Valid()
        invariant |results| == i == |ms|
        invariant forall k :: 0 <= k < i ==>
          UnitFor(validator, fallback, validate, texts[k], times(k), results[k])
          && UnitOutcome(scan, translator, preserve, texts[k], ms[k], results[k])
        invariant totalTranslations == old(totalTranslations) + i
        invariant successfulTranslations == old(successfulTranslations) + CountTranslated(results)
        invariant failedTranslations == old(failedTranslations) + (i - CountTranslated(results))
        invariant totalProcessingTime == old(totalProcessingTime) + TotalTime(times, i)
      {
        var r, m := TranslateText(texts[i], validate, preserve, times(i));
        UnitsExtend(validator, fallback, validate, texts, times, results, r);
        OutcomesExtend(scan, translator, preserve, texts, ms, results, m, r);
        results, ms := results + [r], ms + [m];
      }
    }

    /** The part of `translate_document` after extraction found translatable blocks:
        the batch with preservation on, then the loop over its results. */
    method TranslateBlocks(content: seq<bv8>, proc: DocumentProcessor, blocks: seq<ContentBlock>,
                           validate: bool, elapsed: real, times: nat -> real)
      returns (pr: ProcessingResult, ghost units: seq<UnitResult>, ghost ms: seq<seq<(string, string)>>)
      requires Valid()
      requires TranslatableBlocks(blocks) != []
      modifies this
      ensures Valid()
      ensures var trans := TranslatableBlocks(blocks);
        && |units| == |trans| == |ms|
        && (forall k :: 0 <= k < |trans| ==> UnitFor(validator, fallback, validate, trans[k].text, times(k), units[k]))
        && (forall k :: 0 <= k < |trans| ==> UnitOutcome(scan, translator, true, trans[k].text, ms[k], units[k]))
        && totalTranslations == old(totalTranslations) + |trans|
        && successfulTranslations == old(successfulTranslations) + CountTranslated(units)
        && failedTranslations == old(failedTranslations) + (|trans| - CountTranslated(units))
        && totalProcessingTime == old(totalProcessingTime) + TotalTime(times, |trans|)
        && pr == BlocksResult(content, proc, blocks, units, elapsed)
    {
      var trans := TranslatableBlocks(blocks);
      var results;
      results, ms := TranslateBatch(Texts(trans), validate, true, times);
      units := results;
      BlockUnits(scan, translator, validator, fallback, validate, trans, times, ms, units);
      pr := AssembleDocument(content, proc, blocks, results, elapsed);
    }

    /** `translate_document`, with the batch run in input order so that result `k`
        belongs to translatable block `k`. `units` names the batch results. */
    method TranslateDocument(content: seq<bv8>, ext: string, proc: DocumentProcessor, validate: bool,
                             elapsed: real, times: nat -> real)
      returns (pr: ProcessingResult, ghost units: seq<UnitResult>, ghost ms: seq<seq<(string, string)>>)
      requires Valid()
      modifies this
      ensures Valid()
      ensures !proc.canProcess(ext) ==>
        pr == DocumentFailed(Error(ProcessingError, "Processor cannot handle " + ext + " files",
                                   Some("UNSUPPORTED_FORMAT")), elapsed)
        && unchanged(this)
      ensures proc.canProcess(ext) && proc.extract(content).Err? ==>
        pr == DocumentFailed(proc.extract(content).error, elapsed) && unchanged(this)
      ensures proc.canProcess(ext) && proc.extract(content) == Ok(None) ==>
        pr == DocumentFailed(Error(ProcessingError, "Failed to extract document content", None), elapsed)
        && unchanged(this)
      ensures proc.canProcess(ext) && proc.extract(content).Ok? && proc.extract(content).value.Some? &&
              TranslatableBlocks(proc.extract(content).value.value) == [] ==>
        pr == ProcessingResult(true, proc.extract(content).value, Some(content), [], None,
                               NothingToTranslate(|proc.extract(content).value.value|, elapsed))
        && unchanged(this)
      ensures proc.canProcess(ext) && proc.extract(content).Ok? && proc.extract(content).value.Some? &&
              TranslatableBlocks(proc.extract(content).value.value) != [] ==>
        var blocks := proc.extract(content).value.value;
        var trans := TranslatableBlocks(blocks);
        && |units| == |trans| == |ms|
        && (forall k :: 0 <= k < |trans| ==> UnitFor(validator, fallback, validate, trans[k].text, times(k), units[k]))
        && (forall k :: 0 <= k < |trans| ==> UnitOutcome(scan, translator, true, trans[k].text, ms[k], units[k]))
        && totalTranslations == old(totalTranslations) + |trans|
        && successfulTranslations == old(successfulTranslations) + CountTranslated(units)
        && failedTranslations == old(failedTranslations) + (|trans| - CountTranslated(units))
        && totalProcessingTime == old(totalProcessingTime) + TotalTime(times, |trans|)
        && pr == BlocksResult(content, proc, blocks, units, elapsed)
        && (pr.success ==> forall v :: v in pr.validationResults ==> v.termsPreserved && v.quality == Good)
        && (!validate ==> pr.validationResults == [])
    {
      units, ms := [], [];
      if !proc.canProcess(ext) {
        return DocumentFailed(Error(ProcessingError, "Processor cannot handle " + ext + " files",
                                    Some("UNSUPPORTED_FORMAT")), elapsed), units, ms;
      }
      var extraction := proc.extract(content);
      if extraction.Err? {
        return DocumentFailed(extraction.error, elapsed), units, ms;
      }
      if extraction.value.None? {
        return DocumentFailed(Error(ProcessingError, "Failed to extract document content", None), elapsed),
          units, ms;
      }
      var blocks := extraction.value.value;
      if TranslatableBlocks(blocks) == [] {
        return ProcessingResult(true, Some(blocks), Some(content), [], None,
                                NothingToTranslate(|blocks|, elapsed)), units, ms;
      }
      pr, units, ms := TranslateBlocks(content, proc, blocks, validate, elapsed, times);
      var trans := TranslatableBlocks(blocks);
      RebuiltAreGood(validator, fallback, validate, Texts(trans), times, units, |units|);
    }
  }

  /** `len([r for r in results if r['success']])`. */
  function CountTranslated(rs: seq<UnitResult>): (n: nat)
    ensures n <= |rs|
    ensures n == |rs| <==> forall k :: 0 <= k < |rs| ==> rs[k].Translated?
    ensures n == 0 <==> forall k :: 0 <= k < |rs| ==> rs[k].Failed?
  {
    if rs == [] then 0
    else
      var init := rs[..|rs| - 1];
      assert forall k :: 0 <= k < |init| ==> init[k] == rs[k];
      CountTranslated(init) + (if rs[|rs| - 1].Translated? then 1 else 0)
  }

  // ---------------------------------------------------------------------------------
  // Documents

  /** A content block as the document processor extracts it. */
  datatype ContentBlock = ContentBlock(id: string, text: string, translatable: bool)

  /** The document-processor collaborator: the format check, extraction (`None` when no
      `document_content` comes back) and reconstruction from the id-to-text map; the last
      two may raise. */
  datatype DocumentProcessor = DocumentProcessor(
    canProcess: string -> bool,
    extract: seq<bv8> -> Result<Option<seq<ContentBlock>>, Error>,
    reconstruct: (seq<bv8>, map<string, string>) -> Result<seq<bv8>, Error>)

  /** `processing_stats` of the three ways `translate_document` ends. */
  datatype DocumentStats =
    | NothingToTranslate(totalBlocks: nat, processingTime: real)
    | TranslatedDocument(totalBlocks: nat, translatableBlocks: nat, successful: nat, failed: nat,
                         processingTime: real, averageValidationScore: real)
    | DocumentFailure(processingTime: real, errorType: string)

  /** `ProcessingResult`. */
  datatype ProcessingResult = ProcessingResult(
    success: bool,
    documentContent: Option<seq<ContentBlock>>,
    translatedDocument: Option<seq<bv8>>,
    validationResults: seq<ValidationResult>,
    errorMessage: Option<string>,
    stats: DocumentStats)

  /** The result of the outer `except`. */
  function DocumentFailed(e: Error, elapsed: real): ProcessingResult {
    ProcessingResult(false, None, None, [], Some("Document translation failed: " + e.message),
      DocumentFailure(elapsed, ClassName(e.kind)))
  }

  /** The blocks whose `translatable` flag is set, in order. */
  function TranslatableBlocks(blocks: seq<ContentBlock>): (r: seq<ContentBlock>)
    ensures |r| <= |blocks|
    ensures forall b :: b in r <==> b in blocks && b.translatable
  {
    if blocks == [] then []
    else
      var init := TranslatableBlocks(blocks[..|blocks| - 1]);
      var last := blocks[|blocks| - 1];
      assert blocks == blocks[..|blocks| - 1] + [last];
      if last.translatable then init + [last] else init
  }

  function Texts(blocks: seq<ContentBlock>): (r: seq<string>)
    ensures |r| == |blocks| && forall k :: 0 <= k < |blocks| ==> r[k] == blocks[k].text
  {
    seq(|blocks|, k requires 0 <= k < |blocks| => blocks[k].text)
  }

  /** `next((b['text'] for b in blocks if b['id'] == id), "")`. */
  function FirstTextOf(blocks: seq<ContentBlock>, id: string): (t: string)
    ensures forall k :: (0 <= k < |blocks| && blocks[k].id == id &&
      (forall j :: 0 <= j < k ==> blocks[j].id != id)) ==> t == blocks[k].text
    ensures (forall k :: 0 <= k < |blocks| ==> blocks[k].id != id) ==> t == ""
  {
    if blocks == [] then ""
    else if blocks[0].id == id then blocks[0].text
    else FirstTextOf(blocks[1..], id)
  }

  /** The map entry of one block: its translation, or its own text when the unit
      failed. */
  function MapEntry(blocks: seq<ContentBlock>, id: string, r: UnitResult): string {
    if r.Translated? then r.translatedText else FirstTextOf(blocks, id)
  }

  /** `translation_map` after the first `n` turns of the loop over
      `zip(block_ids, translation_results)`. */
  function TranslationMap(blocks: seq<ContentBlock>, results: seq<UnitResult>, n: nat): map<string, string>
    requires n <= |blocks| && n <= |results|
  {
    if n == 0 then map[]
    else TranslationMap(blocks, results, n - 1)[blocks[n - 1].id := MapEntry(blocks, blocks[n - 1].id, results[n - 1])]
  }

  /** `quality_map.get(quality, GOOD)`: the four lower-case tier names are recognised,
      anything else (including an enum member) gives GOOD. */
  function QualityOf(f: QualityField): Quality {
    match f
    case Tier(_) => Good
    case Label(name) =>
      if name == "excellent" then Excellent
      else if name == "good" then Good
      else if name == "needs_review" then NeedsReview
      else if name == "poor" then Poor
      else Good
  }

  /** The `ValidationResult` rebuilt from a validation dict. */
  function Rebuild(d: ValidationDict): ValidationResult {
    ValidationResult(d.similarity, QualityOf(d.quality), true, d.confidence, None, [])
  }

  /** `validation_results` after the first `n` turns of the loop. */
  function RebuiltValidations(results: seq<UnitResult>, n: nat): seq<ValidationResult>
    requires n <= |results|
  {
    if n == 0 then []
    else
      var init := RebuiltValidations(results, n - 1);
      var r := results[n - 1];
      if r.Translated? && r.validation.Some? then init + [Rebuild(r.validation.value)] else init
  }

  /** Every dict `translate_text` stores comes back as GOOD: the validator's enum member
      is not a key of `quality_map`, and the fallbacks write "good" or "moderate". */
  lemma StoredQualityBecomesGood(validator: (string, string) -> Result<ValidationResult, Error>,
                                 fallback: SimilarityFallback, validate: bool, text: string, translated: string)
    requires validate
    ensures Rebuild(ValidationFor(validator, fallback, validate, text, translated).value).quality == Good
    ensures Rebuild(ValidationFor(validator, fallback, validate, text, translated).value).termsPreserved
  {
  }

  /** The loop of `translate_document` over `zip(block_ids, translation_results)`:
      fills the translation map and rebuilds the validation results. */
  method CollectTranslations(trans: seq<ContentBlock>, results: seq<UnitResult>)
    returns (translations: map<string, string>, validations: seq<ValidationResult>)
    requires |results| == |trans|
    ensures translations == TranslationMap(trans, results, |trans|)
    ensures validations == RebuiltValidations(results, |trans|)
  {
    translations := map[];
    validations := [];
    for k := 0 to |trans|
      invariant translations == TranslationMap(trans, results, k)
      invariant validations == RebuiltValidations(results, k)
    {
      var r := results[k];
      if r.Translated? {
        translations := translations[trans[k].id := r.translatedText];
        if r.validation.Some? {
          validations := validations + [Rebuild(r.validation.value)];
        }
      } else {
        translations := translations[trans[k].id := FirstTextOf(trans, trans[k].id)];
      }
    }
  }

  /** The result `translate_document` builds from the batch results `units` of the
      translatable blocks: reconstruction from the translation map, then the document
      statistics over the rebuilt validation results. */
  function BlocksResult(content: seq<bv8>, proc: DocumentProcessor, blocks: seq<ContentBlock>,
                        units: seq<UnitResult>, elapsed: real): ProcessingResult
    requires |units| == |TranslatableBlocks(blocks)|
  {
    var trans := TranslatableBlocks(blocks);
    match proc.reconstruct(content, TranslationMap(trans, units, |trans|))
    case Err(e) => DocumentFailed(e, elapsed)
    case Ok(document) => DocumentTranslated(blocks, units, document, RebuiltValidations(units, |units|), elapsed)
  }

  /** The successful `ProcessingResult` of a reconstructed document. */
  function DocumentTranslated(blocks: seq<ContentBlock>, units: seq<UnitResult>, document: seq<bv8>,
                              validations: seq<ValidationResult>, elapsed: real): ProcessingResult
    requires |units| == |TranslatableBlocks(blocks)|
  {
    var n := |units|;
    ProcessingResult(true, Some(blocks), Some(document), validations, None,
      TranslatedDocument(|blocks|, n, CountTranslated(units), n - CountTranslated(units),
                         elapsed, AverageValidationScore(validations)))
  }

  /** The end of `translate_document` once the batch has run: the translation map and
      the rebuilt validations collected, and the document reconstructed from the map. */
  method AssembleDocument(content: seq<bv8>, proc: DocumentProcessor, blocks: seq<ContentBlock>,
                          results: seq<UnitResult>, elapsed: real)
    returns (pr: ProcessingResult)
    requires |results| == |TranslatableBlocks(blocks)|
    ensures pr == BlocksResult(content, proc, blocks, results, elapsed)
  {
    var trans := TranslatableBlocks(blocks);
    var translations, validations := CollectTranslations(trans, results);
    var document := proc.reconstruct(content, translations);
    if document.Err? {
      return DocumentFailed(document.error, elapsed);
    }
    pr := DocumentTranslated(blocks, results, document.value, validations, elapsed);
  }

  /** What `translate_text` promises about one unit of a batch: it belongs to `text`,
      carries its duration, and a translated unit holds the validation for its reply. */
  predicate UnitFor(validator: (string, string) -> Result<ValidationResult, Error>,
                    fallback: SimilarityFallback, validate: bool, text: string, elapsed: real, r: UnitResult) {
    && r.originalText == text && r.processingTime == elapsed
    && (r.Translated? ==>
          r.validation == ValidationFor(validator, fallback, validate, text, r.translatedText))
  }

  /** One more unit of a batch: the units still belong to their texts in order, and the
      count of translated units grows by one exactly when the new unit is translated. */
  lemma UnitsExtend(validator: (string, string) -> Result<ValidationResult, Error>,
                    fallback: SimilarityFallback, validate: bool, texts: seq<string>, times: nat -> real,
                    results: seq<UnitResult>, r: UnitResult)
    requires |results| < |texts|
    requires forall k :: 0 <= k < |results| ==> UnitFor(validator, fallback, validate, texts[k], times(k), results[k])
    requires UnitFor(validator, fallback, validate, texts[|results|], times(|results|), r)
    ensures forall k :: 0 <= k < |results| + 1 ==>
      UnitFor(validator, fallback, validate, texts[k], times(k), (results + [r])[k])
    ensures CountTranslated(results + [r]) == CountTranslated(results) + (if r.Translated? then 1 else 0)
  {
    assert (results + [r])[..|results|] == results;
  }

  /** One more unit of a batch keeps every unit tied to the translator's reply for its
      own text and map. */
  lemma OutcomesExtend(scan: Scanner, translator: string -> Result<string, Error>, preserve: bool,
                       texts: seq<string>, ms: seq<seq<(string, string)>>, results: seq<UnitResult>,
                       m: seq<(string, string)>, r: UnitResult)
    requires |results| == |ms| < |texts|
    requires forall k :: 0 <= k < |results| ==> UnitOutcome(scan, translator, preserve, texts[k], ms[k], results[k])
    requires UnitOutcome(scan, translator, preserve, texts[|results|], m, r)
    ensures forall k :: 0 <= k < |results| + 1 ==>
      UnitOutcome(scan, translator, preserve, texts[k], (ms + [m])[k], (results + [r])[k])
  {
  }

  /** The units of a batch over the blocks' texts are the units of the blocks. */
  lemma BlockUnits(scan: Scanner, translator: string -> Result<string, Error>,
                   validator: (string, string) -> Result<ValidationResult, Error>, fallback: SimilarityFallback,
                   validate: bool, trans: seq<ContentBlock>, times: nat -> real,
                   ms: seq<seq<(string, string)>>, units: seq<UnitResult>)
    requires |units| == |trans| == |ms|
    requires forall k :: 0 <= k < |trans| ==> UnitFor(validator, fallback, validate, Texts(trans)[k], times(k), units[k])
    requires forall k :: 0 <= k < |trans| ==> UnitOutcome(scan, translator, true, Texts(trans)[k], ms[k], units[k])
    ensures forall k :: 0 <= k < |trans| ==> UnitFor(validator, fallback, validate, trans[k].text, times(k), units[k])
    ensures forall k :: 0 <= k < |trans| ==> UnitOutcome(scan, translator, true, trans[k].text, ms[k], units[k])
  {
  }

  /** Every rebuilt result of a batch is GOOD with terms preserved, and validation off
      leaves none. */
  lemma {:induction false} RebuiltAreGood(validator: (string, string) -> Result<ValidationResult, Error>,
                                          fallback: SimilarityFallback, validate: bool,
                                          texts: seq<string>, times: nat -> real, units: seq<UnitResult>, n: nat)
    requires n <= |units| == |texts|
    requires forall k :: 0 <= k < |units| ==> UnitFor(validator, fallback, validate, texts[k], times(k), units[k])
    ensures forall v :: v in RebuiltValidations(units, n) ==> v.termsPreserved && v.quality == Good
    ensures !validate ==> RebuiltValidations(units, n) == []
  {
    if n > 0 {
      RebuiltAreGood(validator, fallback, validate, texts, times, units, n - 1);
      var r := units[n - 1];
      if r.Translated? && r.validation.Some? {
        StoredQualityBecomesGood(validator, fallback, validate, texts[n - 1], r.translatedText);
      }
    }
  }

  /** The map's keys are the ids of the blocks seen so far. */
  lemma {:induction false} TranslationMapKeys(blocks: seq<ContentBlock>, results: seq<UnitResult>, n: nat)
    requires n <= |blocks| && n <= |results|
    ensures TranslationMap(blocks, results, n).Keys == set k | 0 <= k < n :: blocks[k].id
  {
    if n > 0 {
      TranslationMapKeys(blocks, results, n - 1);
      var prev := set k | 0 <= k < n - 1 :: blocks[k].id;
      assert (set k | 0 <= k < n :: blocks[k].id) == prev + {blocks[n - 1].id};
    }
  }

  /** With distinct ids, each translatable block's id maps to its translation, or to its
      own text when its unit failed. */
  lemma {:induction false} TranslationMapEntries(blocks: seq<ContentBlock>, results: seq<UnitResult>, n: nat)
    requires n <= |blocks| && n <= |results|
    requires forall i, j :: 0 <= i < j < |blocks| ==> blocks[i].id != blocks[j].id
    ensures forall k :: 0 <= k < n ==> blocks[k].id in TranslationMap(blocks, results, n)
    ensures forall k :: 0 <= k < n && results[k].Translated? ==>
      TranslationMap(blocks, results, n)[blocks[k].id] == results[k].translatedText
    ensures forall k :: 0 <= k < n && results[k].Failed? ==>
      TranslationMap(blocks, results, n)[blocks[k].id] == blocks[k].text
  {
    if n > 0 {
      TranslationMapEntries(blocks, results, n - 1);
      var id := blocks[n - 1].id;
      assert FirstTextOf(blocks, id) == blocks[n - 1].text;
    }
  }

  // ---------------------------------------------------------------------------------
  // Average validation score

  /** The similarity scores above zero, in order. */
  function PositiveScores(rs: seq<ValidationResult>): (r: seq<real>)
    ensures |r| <= |rs|
    ensures forall k :: 0 <= k < |r| ==> r[k] > 0.0
    ensures (forall k :: 0 <= k < |rs| ==> rs[k].similarity <= 1.0) ==> forall k :: 0 <= k < |r| ==> r[k] <= 1.0
    ensures r == [] <==> forall k :: 0 <= k < |rs| ==> rs[k].similarity <= 0.0
  {
    if rs == [] then []
    else
      var init := rs[..|rs| - 1];
      assert forall k :: 0 <= k < |init| ==> init[k] == rs[k];
      var s := rs[|rs| - 1].similarity;
      if s > 0.0 then PositiveScores(init) + [s] else PositiveScores(init)
  }

  lemma {:induction false} SumBounds(xs: seq<real>)
    requires forall k :: 0 <= k < |xs| ==> xs[k] > 0.0
    ensures xs != [] ==> Sum(xs) > 0.0
    ensures (forall k :: 0 <= k < |xs| ==> xs[k] <= 1.0) ==> Sum(xs) <= |xs| as real
  {
    if xs != [] {
      SumBounds(xs[..|xs| - 1]);
    }
  }

  lemma PositiveQuotient(a: real, b: real)
    requires a > 0.0 && b > 0.0
    ensures a / b > 0.0
  {
  }

  /** The mean of positive scores is positive, and at most 1 when they are. */
  lemma MeanBounds(xs: seq<real>)
    requires xs != []
    requires forall k :: 0 <= k < |xs| ==> xs[k] > 0.0
    ensures Sum(xs) / (|xs| as real) > 0.0
    ensures (forall k :: 0 <= k < |xs| ==> xs[k] <= 1.0) ==> Sum(xs) / (|xs| as real) <= 1.0
  {
    SumBounds(xs);
    PositiveQuotient(Sum(xs), |xs| as real);
    if forall k :: 0 <= k < |xs| ==> xs[k] <= 1.0 {
      DivisionBounds(Sum(xs), |xs| as real, 0.0, 1.0);
    }
  }

  /** `_calculate_average_validation_score`: the mean of the strictly positive scores,
      0.0 when there are none. */
  function AverageValidationScore(rs: seq<ValidationResult>): (avg: real)
    ensures avg >= 0.0
    ensures avg == 0.0 <==> forall k :: 0 <= k < |rs| ==> rs[k].similarity <= 0.0
    ensures (forall k :: 0 <= k < |rs| ==> rs[k].similarity <= 1.0) ==> avg <= 1.0
  {
    var scores := PositiveScores(rs);
    if rs == [] || scores == [] then 0.0
    else
      MeanBounds(scores);
      Sum(scores) / (|scores| as real)
  }
}
