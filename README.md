# VulnTranslate core, modelled in Dafny

VulnTranslate translates CVE advisories from English to Japanese. It must keep technical
terms intact: CVE identifiers, CVSS scores, version numbers, vendor and product names,
URLs, addresses and hashes. It also scores how good a translation is. This project
models the part of the repository that does that work, and proves what that part
promises and where it breaks its promises.

- `TermPreserver` (`src/providers/cve_term_preserver.py`) covers four things:
  - term extraction, by findall over the pattern table with duplicates removed;
  - the two preservation maps: the shadowed `[KEEP:NNNN]` variant and the effective `__PRESERVE_i__` one;
  - protection and restoration;
  - the preservation check, its statistics and the term-format check.
- `TechMasking` and `TextProcessing` (`utils/text_processor.py`) cover:
  - the `__TECH_TERM_i__` masking of blocks before translation;
  - the translatability heuristics and the technical-content ratio;
  - text clean-up and post-processing;
  - the in-place preparation of table cells and list items;
  - the processing statistics.
- `Placeholders` is the shared theory of numbered placeholders. A text is seen as literal runs and numbered holes. Replacing a placeholder fills its holes, and a round trip is a fill of every hole.
- `Orchestration` (`orchestration/translation_orchestrator.py`) models the `TranslationOrchestrator` class and its running statistics. Its operations are single-text translation (protect, translate, restore, verify, validate), batch translation and the document path. The document path goes from blocks to a translation map to a reconstructed document.
- `SemanticValidation` (`src/validation/semantic_validator.py`) covers:
  - the quality tiers, the confidence formula and the suggestions;
  - single validation;
  - batch validation, including its exception-driven fallback;
  - the `SemanticValidator` threshold setter.
- `Embeddings` (`providers/openai_embeddings.py`) covers the shifted cosine similarity, the zero vector for blank text, the batch cleaning and the failure classification.
- `TranslationValidation` (`services/validator.py`) covers pair scoring, the issues, batch aggregation and the plain-text report.
- `SimpleTranslation` covers the two small translators, `services/simple_translator.py` and `minimal_translator.py`.
- `AzureTranslation` (`providers/azure_translator.py`) covers the chat-based translator.
- `CachedTranslation` (`services/translator.py`) models the `CVETranslator` class: hash-keyed caching, batching and the statistics call.

Helper modules:
- `Text` models Python string operations: `strip`, `lower`, `split`, `join` and `str.replace`, including the empty-pattern case.
- `Matching` is what the translation code sees of `re.findall`.
- `Collections`, `Reals`, `Errors` and `Wrappers` are small shared definitions.

External services are function parameters: the chat and embedding services, the regex engine, the document processor, Python's `hash` and the clock. Every property is proved for every such oracle.

Four facts about the code shape the model:
- `create_preservation_map` is defined twice (src/providers/cve_term_preserver.py:67 and :140). The second definition, with `__PRESERVE_i__` placeholders, replaces the `[KEEP:NNNN]` one, so only it is modelled as effective.
- `apply_protection_tokens` (src/providers/cve_term_preserver.py:79-92) looks up each map value and replaces it by its key. With the effective map it replaces placeholders by terms, so it does not mask a text that has no `__PRESERVE_`.
- `extract_terms` returns `list(preserved_terms)` (src/providers/cve_term_preserver.py:65). This is a list of distinct terms whose order is not fixed.
- `translate_document` pairs batch results with block ids by position, through `zip` (orchestration/translation_orchestrator.py:316).

## Model

| member | source | states |
|---|---|---|
| `Matching.FindallItem` | src/providers/cve_term_preserver.py:58-63 | Definition, restating the Python expression: a findall item is the whole match for a pattern without groups, and the first group's text otherwise. |
| `Collections.FirstKeyOf` | src/providers/cve_term_preserver.py:88 | The reverse lookup returns the key of the first entry holding the value. No earlier entry holds that value. |
| `Reals.Clamp01` | services/validator.py:147 | The result lies in [0,1]. It equals the input inside that range, 0 below it and 1 above it. |
| `Placeholders.ReplaceRender` | src/providers/cve_term_preserver.py:158-163 | If the literal runs contain no underscore, replacing placeholder i in a rendered text fills exactly the holes numbered i. |
| `Placeholders.RestoreRender` | utils/text_processor.py:155-157 | Replacing the first n placeholders, one after another, fills holes 0..n-1 with their terms. |
| `Placeholders.SingleTermRoundTrip` | src/providers/cve_term_preserver.py:151-163 | One term and a text with no underscore survive replacement by a placeholder and back. |
| `Placeholders.PlaceholdersApart` | src/providers/cve_term_preserver.py:146 | Two placeholders with different numbers never contain one another. |
| `TermPreserver.ItemsOfChar` | src/providers/cve_term_preserver.py:57-63 | A string is collected exactly when one of the scanned patterns yields it as a findall item. |
| `TermPreserver.CvssContributesGroup` | src/providers/cve_term_preserver.py:58-63 | A CVSS match contributes only its captured version suffix, not the whole score text. |
| `TermPreserver.MacContributesFirstGroup` | src/providers/cve_term_preserver.py:58-63 | A MAC address match contributes only its first group, because the pattern has two groups. |
| `TermPreserver.ExtractTerms` | src/providers/cve_term_preserver.py:49-65 | The result has no duplicates. Its elements are exactly the findall items of every pattern, so its length is the number of distinct terms. |
| `TermPreserver.CreatePreservationMap` | src/providers/cve_term_preserver.py:140-149 | The map's keys are the extracted terms, each once. Entry i holds placeholder `__PRESERVE_i__`. |
| `TermPreserver.PlaceholderMap` | src/providers/cve_term_preserver.py:145-147 | Numbering a list of distinct terms keeps their order as keys and gives entry i placeholder i. |
| `TermPreserver.CreateKeepMap` | src/providers/cve_term_preserver.py:67-77 | The shadowed variant maps distinct tokens `[KEEP:NNNN]` to distinct terms. Its values are exactly the extracted terms. |
| `TermPreserver.KeepMap` | src/providers/cve_term_preserver.py:72-75 | Entry i holds token `[KEEP:` + i zero-padded to four digits + `]`. The values keep the term order. |
| `TermPreserver.KeepTokenInjective` | src/providers/cve_term_preserver.py:74 | Different numbers give different `[KEEP:NNNN]` tokens, also beyond 9999. |
| `TermPreserver.SortByLenDesc` | src/providers/cve_term_preserver.py:84 | The result is a permutation of the input, ordered longest first. |
| `TermPreserver.SortByLenKeepsTies` | src/providers/cve_term_preserver.py:84 | The sort is stable, as Python's `sorted` is: for every length, the strings of that length come out in their input order. |
| `TermPreserver.ProtectionPairs` | src/providers/cve_term_preserver.py:84-88 | The replaced strings are the map's values, each as often as it occurs in the map, sorted longest first. Each pair sends its value to the first key that holds it. |
| `TermPreserver.ApplyProtectionTokens` | src/providers/cve_term_preserver.py:79-92 | The loop result equals the replacements of those pairs applied in turn. |
| `TermPreserver.ApplyPreservationMap` | src/providers/cve_term_preserver.py:151-156 | The loop result equals the map's term-to-placeholder replacements applied in map order. |
| `TermPreserver.RestorePreservationMap` | src/providers/cve_term_preserver.py:158-163 | The loop result equals the swapped placeholder-to-term replacements applied in map order. |
| `TermPreserver.ProtectionUnchangedWithoutValues` | src/providers/cve_term_preserver.py:79-92 | Protection leaves a text unchanged when no map value occurs in it. |
| `TermPreserver.EffectiveProtectionIsIdentity` | src/providers/cve_term_preserver.py:79-92 | With the effective map, protection searches for the placeholders rather than the terms, so it changes nothing in a text without `__PRESERVE`. No term is masked. |
| `TermPreserver.EffectiveRestoreIsIdentity` | src/providers/cve_term_preserver.py:158-163 | Restoring with the effective map changes nothing in a reply without `__PRESERVE`. |
| `TermPreserver.EffectivePlaceholdersApart` | src/providers/cve_term_preserver.py:146 | No placeholder of the effective map occurs inside another one. |
| `TermPreserver.EffectiveRestoreFillsSlots` | src/providers/cve_term_preserver.py:158-163 | If no term contains an underscore, restoration puts key i into every hole of placeholder i. |
| `TermPreserver.OneTermRoundTrip` | src/providers/cve_term_preserver.py:151-163 | With one non-empty term and no underscores, applying the map and then restoring gives back the text. |
| `TermPreserver.EmptyTermFloodsText` | src/providers/cve_term_preserver.py:151-156 | An empty term puts its placeholder between every two characters, adding 14 × (n+1) characters to a text of length n. |
| `TermPreserver.PortTermsOfOneZero` | src/providers/cve_term_preserver.py:34 | The port pattern yields the terms "1" and "0" from the text "1 0". |
| `TermPreserver.TwoTermRoundTripFails` | src/providers/cve_term_preserver.py:151-163 | With terms "1" then "0", applying the map and restoring turns "1 0" into "__PRESERVE_0__ 0". The digit 0 inside the first placeholder is itself replaced. |
| `TermPreserver.EffectiveRoundTrip` | src/providers/cve_term_preserver.py:151-163 | Take any number of terms, in any order, each mapped to its numbered placeholder. Applying the map and then restoring gives the text back, under four conditions. The text holds no underscore. No term is empty or holds an underscore. No term occurs inside a placeholder of the map. The terms need not be distinct, and one may occur inside another. |
| `TermPreserver.UnderscoreTermBreaksRoundTrip` | src/providers/cve_term_preserver.py:151-163 | The terms "a" then "_X" turn "aX" into "a_PRESERVE_1__". The text holds no `__PRESERVE`, and neither term is inside a placeholder or inside the other. The "_X" match crosses the end of the first placeholder. |
| `TermPreserver.UnderscoreTextBreaksRoundTrip` | src/providers/cve_term_preserver.py:151-163 | The terms "a" then "b" turn "bPRESERVE_0__" into "__PRESERVE_1a", although the text holds no `__PRESERVE`. The placeholder for "b" and the text's own "PRESERVE_0__" together form the placeholder for "a". |
| `Placeholders.CarveFromReplace` | src/providers/cve_term_preserver.py:154-155 | Take an underscore-free string that occurs inside none of the existing placeholders. Replacing it by a new placeholder changes only the literal runs between the existing placeholders. |
| `Placeholders.MaskRender` | src/providers/cve_term_preserver.py:151-156 | Masking the first n terms in turn gives underscore-free literal runs and holes numbered below n. Filling every hole with its term gives back the text. |
| `Placeholders.PlaceholderRoundTrip` | src/providers/cve_term_preserver.py:151-163 | Under those conditions, masking any number of values with numbered placeholders and restoring them in the same order is the identity. |
| `TermPreserver.OneZeroMasked` | src/providers/cve_term_preserver.py:151-156 | Applying that map to "1 0" gives placeholder 1 twice, one of them inside the remains of placeholder 0. |
| `TermPreserver.OneZeroRestored` | src/providers/cve_term_preserver.py:158-163 | Restoring that text cannot bring back the "1". |
| `TermPreserver.VerifyPreservation` | src/providers/cve_term_preserver.py:103-112 | The result is true exactly when every term of the original is a term of the translation. An unchanged text always passes. |
| `TermPreserver.PreservationStatistics` | src/providers/cve_term_preserver.py:165-187 | The counts are the sizes of the intersection and the two differences of the term sets. The rate is preserved/unique, lies in [0,1], and is 1.0 when there are no terms. The three lists are exactly those sets. |
| `TermPreserver.ValidateTermFormat` | src/providers/cve_term_preserver.py:203-214 | CVE terms must match `CVE-dddd-dddd…` and CVSS terms a CVSS shape, anchored at the start. URLs must start with http:// or https://. An email must have a `.` after its first `@` and before any second `@`, which is what the check on `term.split('@')[1]` means. Every other category passes. |
| `TermPreserver.EmailSplitMeaning` | src/providers/cve_term_preserver.py:211-212 | If the term holds an `@`, splitting at `@` gives at least two parts. The second part holds a `.` exactly when some `.` follows the first `@` before any second one. A term without `@` has no such dot. |
| `TermPreserver.CvssItemFailsFormat` | src/providers/cve_term_preserver.py:208 | The CVSS items that extraction yields (empty or ".x" suffixes) never pass the CVSS format check. |
| `TextProcessing.GetTechnicalContentRatio` | utils/text_processor.py:99-113 | The loop computes the specified ratio: matched characters over all patterns, divided by text length. It is never negative. |
| `TextProcessing.RatioExceedsOne` | utils/text_processor.py:99-113 | Overlapping patterns count characters twice, so "CVE-2024-1234" gets ratio 21/13, above 1. |
| `TextProcessing.TranslatableMeans` | utils/text_processor.py:69-97 | A translatable text has at least 3 non-blank characters. It is not a short text with a technical match. It is not only a version, a code, a URL or an email. Turning preservation on never makes a text translatable, and blank text never is. |
| `TextProcessing.BareCveId` | utils/text_processor.py:69-97 | A bare CVE id is translatable when preservation is off and not when it is on. |
| `TextProcessing.TranslatableLongText` | utils/text_processor.py:76-97 | A text of at least 10 characters that is not one of the excluded shapes is translatable exactly unless preservation is on and the technical ratio exceeds 0.8. |
| `TextProcessing.CollapseSpaces` | utils/text_processor.py:229 | The result has no two whitespace characters in a row, every whitespace is a single space, and it is empty only for empty input. |
| `TextProcessing.DropSpaceBeforePunct` | utils/text_processor.py:232 | Removing spaces before punctuation never creates leading whitespace. |
| `TextProcessing.DropSpaceNoDouble` | utils/text_processor.py:232 | That step keeps a text free of double whitespace. |
| `TextProcessing.SpaceAfterPunct` | utils/text_processor.py:235 | Inserting a space after punctuation keeps the first character and the emptiness of the text. |
| `TextProcessing.SpaceAfterPunctNoDouble` | utils/text_processor.py:235 | That step keeps a text free of double whitespace. |
| `TextProcessing.CleanTranslationArtifacts` | utils/text_processor.py:225-240 | The cleaned text has no leading or trailing whitespace and no double whitespace. |
| `TextProcessing.CleanTextForTranslation` | utils/text_processor.py:198-210 | The cleaned text is trimmed, has no double whitespace, and its only whitespace characters are spaces. |
| `TextProcessing.CleanupSplitsVersion` | utils/text_processor.py:225-240 | Clean-up turns the version "7.0.3" into "7. 0. 3". |
| `TextProcessing.PostProcessTranslation` | utils/text_processor.py:212-223 | Post-processing restores the protected terms when there are any, then cleans. |
| `TextProcessing.PostProcessSplitsVersion` | utils/text_processor.py:212-240 | A version protected as a term is restored and then split by the clean-up, so term preservation is undone. |
| `TextProcessing.PrepareRoundTrip` | utils/text_processor.py:54-59 | If the terms are placed and do not overlap and the text has no underscore, restoring the prepared text with its protected terms gives back the original. |
| `TextProcessing.PrepareEntry` | utils/text_processor.py:167-176 | The cell's text is unchanged and its added fields are the preparation of that text. |
| `TextProcessing.PrepareEntries` | utils/text_processor.py:180-196 | Every list item is prepared in place. |
| `TextProcessing.ProcessTableBlock` | utils/text_processor.py:161-178 | Every cell of every row is prepared in place, and no cell's text changes. |
| `TextProcessing.ProcessSingleBlock` | utils/text_processor.py:37-67 | The returned block pairs the block with the preparation of its text. Its cells or items are prepared in place. |
| `TextProcessing.PrepareForTranslation` | utils/text_processor.py:26-35 | There is one prepared block per input block, in order. Every touched cell and item is prepared in place. |
| `TextProcessing.CountTranslatable` | utils/text_processor.py:246 | The count equals the number of blocks exactly when all are translatable, and is 0 exactly when none is. |
| `TextProcessing.CountProtected` | utils/text_processor.py:248-250 | The count is 0 exactly when no block has protected terms. |
| `TextProcessing.ProcessingStatistics` | utils/text_processor.py:242-258 | Translatable plus non-translatable blocks equals the total. The ratio is translatable/total in [0,1], 0 for no blocks, and 1 exactly when every block is translatable. |
| `TechMasking.TermsOfMatches` | utils/text_processor.py:121-127 | Definition, restating the Python expression: each match becomes a term with the matched text, its start, start plus length as its end, and its pattern index. |
| `TechMasking.InsertByStart` | utils/text_processor.py:130 | Insertion adds exactly one element and keeps a start-sorted list sorted. |
| `TechMasking.SortByStart` | utils/text_processor.py:130 | The result is a permutation ordered by start position. |
| `TechMasking.SortKeepsTies` | utils/text_processor.py:130 | The sort is stable: terms with equal starts keep their relative order. |
| `TechMasking.ExtractTechnicalTerms` | utils/text_processor.py:115-132 | The result is the start-sorted permutation of the terms that every pattern collects. |
| `TechMasking.SortedTermsPlaced` | utils/text_processor.py:121-127 | For a faithful scanner, each extracted term occurs in the text at its recorded span. |
| `TechMasking.MaskTechnicalTerms` | utils/text_processor.py:134-147 | The loop's result equals splicing `__TECH_TERM_i__` into the text at each span, from the last term back to the first. |
| `TechMasking.Before` | utils/text_processor.py:145 | Definition, restating the Python expression: the prefix keeps k characters, or the whole text when k is too large. |
| `TechMasking.After` | utils/text_processor.py:145 | Definition, restating the Python expression: the suffix drops k characters, or is empty when k is too large. |
| `TechMasking.RestoreTechnicalTerms` | utils/text_processor.py:149-159 | The loop's result equals replacing each `__TECH_TERM_i__` by term i, in order. |
| `TechMasking.MaskIsRender` | utils/text_processor.py:134-147 | For placed, non-overlapping terms, the masked text is the literal gaps with hole i at the span of term i. |
| `TechMasking.FilledMaskIsText` | utils/text_processor.py:134-147 | Putting each term back into its hole rebuilds the original text. |
| `TechMasking.MaskRestoreRoundTrip` | utils/text_processor.py:134-159 | For placed, non-overlapping terms and a text with no underscore, restoring the masked text gives back the original. |
| `TechMasking.OverlapTerms` | utils/text_processor.py:115-132 | Two patterns match inside "CVE-2025-41225" at the same start: the CVE pattern takes the whole id, and the technical-code pattern `\b[A-Z]{2,}[-_]?\d+\b` (line 18) takes "CVE-2025". |
| `TechMasking.OverlapMask` | utils/text_processor.py:134-147 | Masking those overlapping terms gives "__TECH_TERM_0___-41225". |
| `TechMasking.OverlapRestore` | utils/text_processor.py:149-159 | Restoring that gives "CVE-2025-41225_-41225". |
| `TechMasking.OverlapBreaksRoundTrip` | utils/text_processor.py:134-159 | When terms overlap, the mask and restore round trip corrupts the CVE id, even though every term is placed. |
| `Orchestration.ValidationOutcomes` | orchestration/translation_orchestrator.py:93-126 | There is a validation exactly when one is requested. It comes from the validator when that succeeds. Otherwise the fallback similarity is used with confidence 0.8. If both fail, the default is 0.75/0.8/"good". |
| `Orchestration.ProtectTerms` | orchestration/translation_orchestrator.py:62-70 | With preservation on, the map has the text's distinct terms as keys, and entry i holds placeholder i. With it off, the map is empty. The text sent on is the text after `apply_protection_tokens` with that map. A text without `__PRESERVE` goes on unchanged. |
| `Orchestration.RestoreTerms` | orchestration/translation_orchestrator.py:84-91 | The translation is the reply after `restore_preservation_map` with the map, when preservation is on. A reply without `__PRESERVE` is returned unchanged. |
| `Orchestration.TranslationOrchestrator.constructor` | orchestration/translation_orchestrator.py:25-44 | The collaborators are stored and all counters start at zero. |
| `Orchestration.TranslationOrchestrator.UpdateStats` | orchestration/translation_orchestrator.py:434-451 | The duration is added to the total, and exactly one of the success and failure counters goes up. The average is recomputed. The translation count is left alone. |
| `Orchestration.TranslationOrchestrator.ResetStatistics` | orchestration/translation_orchestrator.py:503-511 | All counters and times return to zero. |
| `Orchestration.TranslationOrchestrator.TranslateText` | orchestration/translation_orchestrator.py:46-157 | The count goes up by one, along with the success or failure counter that matches the outcome, and the duration is added to the total time. For every text, the translator gets the masked text, built with the preservation map of the text's own terms. The unit succeeds exactly when the translator does, and its translation is the reply restored with the same map. A failure carries the translator's error message and class. When the text needs no masking, the translator gets the text itself. A success carries the validation of its reply. Terms are preserved exactly when the term sets are contained. The preservation statistics are the counts of the intersection and the two differences of the text's and the translation's term sets, with their rate and lists. |
| `Orchestration.RunUnit` | orchestration/translation_orchestrator.py:60-157 | The steps between the counters: the same outcome, map and translation as stated for `TranslateText`, for every text. |
| `Orchestration.TranslatedUnit` | orchestration/translation_orchestrator.py:93-144 | A finished translation holds the validation dict of its reply, the term-set containment as `terms_preserved`, and preservation statistics that are the counts, rate and lists of the term-set intersection and differences. |
| `Orchestration.TranslationOrchestrator.TranslateBatch` | orchestration/translation_orchestrator.py:159-207 | There is one result per text, in input order. Result k belongs to text k and carries everything `TranslateText` promises for it: the preservation map of that text, the translator's reply to its masked form deciding success, the restored translation, the validation, the preservation check and the statistics. The counters go up by the number of texts, the number of successes and the number of failures, and the total time by the sum of the durations. |
| `Orchestration.TranslationOrchestrator.TranslateBlocks` | orchestration/translation_orchestrator.py:299-372 | Each translatable block gets one unit, tied to the translator and the preservation map of its text as in `TranslateBatch`. The success, failure and time counters move as for the batch. The document result is the reconstruction with the collected translation map and statistics. |
| `Orchestration.AssembleDocument` | orchestration/translation_orchestrator.py:315-372 | The result is the specified document result. It holds the translation map collected by position, the rebuilt validations and the reconstructed document, or the reconstruction error. |
| `Orchestration.UnitsExtend` | orchestration/translation_orchestrator.py:186-207 | Adding one unit for the next text keeps every unit paired with its own text. The translated count grows by one exactly when the new unit succeeded. |
| `Orchestration.OutcomesExtend` | orchestration/translation_orchestrator.py:186-207 | Adding one unit for the next text keeps every unit tied to the translator's reply for its own text and map. |
| `Orchestration.TranslationOrchestrator.TranslateDocument` | orchestration/translation_orchestrator.py:253-382 | An unsupported type, a failed extraction, no content and no translatable block each give their own result and leave all five statistics fields unchanged. Otherwise the blocks are translated as in `TranslateBlocks`, with every unit tied to the translator and the counters and total time moved by the batch, then reconstructed. Every reported validation says GOOD with terms preserved. |
| `Orchestration.CountTranslated` | orchestration/translation_orchestrator.py:367-368 | The count is all results exactly when every unit succeeded, and 0 exactly when every unit failed. |
| `Orchestration.TranslatableBlocks` | orchestration/translation_orchestrator.py:282-285 | The result keeps exactly the translatable blocks. |
| `Orchestration.Texts` | orchestration/translation_orchestrator.py:304 | Definition, restating the Python expression: the result lists each block's text, in order. |
| `Orchestration.FirstTextOf` | orchestration/translation_orchestrator.py:345-348 | The original text of an id is the text of the first block with that id, or "" when there is none. |
| `Orchestration.StoredQualityBecomesGood` | orchestration/translation_orchestrator.py:316-338 | Lines 104-108 store the validator's `TranslationQuality` member itself, which `getattr` returns. The rebuild looks it up in a map keyed by lower-case strings, and the fallbacks store "good" or "moderate". So the rebuilt result is always GOOD with terms preserved, whatever the validator said. |
| `Orchestration.CollectTranslations` | orchestration/translation_orchestrator.py:316-349 | The loop builds the specified translation map and list of rebuilt validations. |
| `Orchestration.RebuiltAreGood` | orchestration/translation_orchestrator.py:316-342 | Every rebuilt validation of a batch is GOOD with terms preserved. With validation off there are none. |
| `Orchestration.TranslationMapKeys` | orchestration/translation_orchestrator.py:316-349 | The map's keys are exactly the ids of the collected blocks. |
| `Orchestration.TranslationMapEntries` | orchestration/translation_orchestrator.py:316-349 | If ids are distinct, a translated block maps to its translation and a failed one to its original text. |
| `Orchestration.PositiveScores` | orchestration/translation_orchestrator.py:458-466 | Only positive similarities are kept. None is kept exactly when no similarity is positive. |
| `Orchestration.MeanBounds` | orchestration/translation_orchestrator.py:468 | The mean of positive scores is positive, and at most 1 when every score is. |
| `Orchestration.AverageValidationScore` | orchestration/translation_orchestrator.py:453-468 | The average is never negative. It is 0 exactly when no similarity is positive, and at most 1 for scores in range. |
| `SemanticValidation.DetermineQuality` | src/validation/semantic_validator.py:93-102 | The tiers are EXCELLENT from 0.9, GOOD from 0.7, NEEDS_REVIEW from 0.5 and POOR below. Thresholds are inclusive lower bounds. |
| `SemanticValidation.QualityMonotone` | src/validation/semantic_validator.py:93-102 | A higher similarity never gives a lower tier. |
| `SemanticValidation.LengthFactor` | src/validation/semantic_validator.py:112-119 | The factor is 1.0 for a ratio in [0.5,2], 0.8 for a ratio outside that but inside [0.3,3], and 0.5 otherwise. |
| `SemanticValidation.ComplexityFactor` | src/validation/semantic_validator.py:122 | The factor is length/1000 clamped to [0.3,1]. |
| `SemanticValidation.CalculateConfidence` | src/validation/semantic_validator.py:104-126 | The confidence lies between (s+0.8)/3 and (s+2)/3, so it is in [0,1] for a similarity s in [0,1]. |
| `SemanticValidation.ConfidenceMonotone` | src/validation/semantic_validator.py:104-126 | A higher similarity never lowers the confidence. |
| `SemanticValidation.FullFactors` | src/validation/semantic_validator.py:104-126 | A long text with a plausible length ratio gets confidence (s+2)/3. |
| `SemanticValidation.GenerateSuggestions` | src/validation/semantic_validator.py:128-146 | POOR gives three suggestions and NEEDS_REVIEW two. GOOD and EXCELLENT give the meaning hint exactly when similarity is below 0.6, and none otherwise. |
| `SemanticValidation.LowSimilarityHintUnreachable` | src/validation/semantic_validator.py:128-146 | With the tier computed from the same similarity, the below-0.6 hint can never be produced. |
| `SemanticValidation.Validate` | src/validation/semantic_validator.py:29-81 | An empty text gives the fixed empty result. Otherwise validation succeeds exactly when both embeddings and the similarity succeed. It then reports that similarity, its tier, the timing and length details, and a confidence in [0,1]. A failure is a SEMANTIC_VALIDATION_FAILED error. |
| `SemanticValidation.EmptyTextSkipsProvider` | src/validation/semantic_validator.py:31-38 | An empty text never reaches the provider and always gives the "Empty text provided" result. |
| `SemanticValidation.ReportedRatio` | src/validation/semantic_validator.py:68-73 | The reported length ratio is translated length over original length. |
| `SemanticValidation.ProviderScoreKeepsConfidence` | src/validation/semantic_validator.py:44-56 | With the cosine provider, validation succeeds and its confidence lies in [0,1]. |
| `SemanticValidation.ScorePairs` | src/validation/semantic_validator.py:162-188 | The loop equals the specified scoring loop, which stops at the first failing pair. |
| `SemanticValidation.BatchValidate` | src/validation/semantic_validator.py:148-201 | The method's results equal the specified batch results, fallbacks included. |
| `SemanticValidation.ScoreLoopLength` | src/validation/semantic_validator.py:162-188 | A completed loop has one result per pair. A failed loop has fewer than that many. |
| `SemanticValidation.ScoreLoopAligned` | src/validation/semantic_validator.py:162-188 | In a completed loop, result k is the score of pair k. |
| `SemanticValidation.ScoreLoopStops` | src/validation/semantic_validator.py:162-188 | Once the loop has failed, more pairs do not change its outcome. |
| `SemanticValidation.ScoreLoopFailsAt` | src/validation/semantic_validator.py:162-188 | The first failing pair k ends the loop with the k results before it and that pair's error. |
| `SemanticValidation.ScoreLoopSucceeds` | src/validation/semantic_validator.py:162-188 | If every pair scores, the loop completes. |
| `SemanticValidation.BatchLength` | src/validation/semantic_validator.py:148-201 | A batch never returns fewer results than pairs, and fewer than twice as many. Without a failure it returns exactly one per pair. |
| `SemanticValidation.ShortEmbeddingsFallBack` | src/validation/semantic_validator.py:180-188 | A pair beyond the returned embeddings gets the fallback result. |
| `SemanticValidation.FailureAtTurnOutgrowsInput` | src/validation/semantic_validator.py:190-199 | A failure at pair k keeps the k results already appended and adds one error result per pair, giving |pairs|+k results. |
| `SemanticValidation.SemanticValidator.constructor` | src/validation/semantic_validator.py:17-19 | The provider and threshold are stored. |
| `SemanticValidation.SemanticValidator.SetQualityThreshold` | src/validation/semantic_validator.py:203-208 | A threshold in [0,1] is stored. Any other is refused with an error, and the old one is kept. |
| `SemanticValidation.SemanticValidator.GetQualityThreshold` | src/validation/semantic_validator.py:210-212 | The stored threshold is returned. |
| `Embeddings.ProbeDimension` | providers/openai_embeddings.py:45-55 | The dimension is the probe vector's length, or 1536 when the probe fails. |
| `Embeddings.DotSymmetric` | providers/openai_embeddings.py:132 | The dot product is symmetric. |
| `Embeddings.SelfDotZeroIffZero` | providers/openai_embeddings.py:131-137 | A vector's dot product with itself is non-negative, and zero exactly for the zero vector. |
| `Embeddings.ZeroNormIffZeroVector` | providers/openai_embeddings.py:131-137 | The norm is zero exactly for the zero vector. |
| `Embeddings.CalculateSimilarity` | providers/openai_embeddings.py:125-148 | The result is defined exactly for equal lengths and lies in [0,1]. It is 0 when either norm is zero. Mismatched lengths give a SIMILARITY_CALCULATION_FAILED error. |
| `Embeddings.SimilarityIsShiftedCosine` | providers/openai_embeddings.py:139-142 | For non-zero vectors the score is (cosine + 1)/2. |
| `Embeddings.SimilaritySymmetric` | providers/openai_embeddings.py:132-142 | The score does not depend on argument order. |
| `Embeddings.SelfSimilarityIsOne` | providers/openai_embeddings.py:132-142 | A non-zero vector scores 1 against itself. |
| `Embeddings.ZeroVectorScoresZero` | providers/openai_embeddings.py:131-137 | A zero embedding scores 0 against anything of its length, with no division. |
| `Embeddings.ClassifyEmbeddingFailure` | providers/openai_embeddings.py:76-91 | A rate limit takes precedence over authentication. Only an authentication failure without a rate limit is an AuthenticationError, and the error codes follow the same order. |
| `Embeddings.BlankTextIsZeroVector` | providers/openai_embeddings.py:57-75 | Blank text gives the zero vector of the configured dimension without calling the service. Other text gives the service's vector for the cleaned text. |
| `Embeddings.CleanTexts` | providers/openai_embeddings.py:107 | Cleaning drops a text exactly when it is blank. |
| `Embeddings.BatchSkipsBlankTexts` | providers/openai_embeddings.py:97-123 | The batch returns the service's vectors for the non-blank texts only, so blanks shorten the result. |
| `Embeddings.BlankFirstTextShifts` | providers/openai_embeddings.py:102-117 | After a blank first text, the first vector belongs to the second text. |
| `TranslationValidation.SemanticSimilarity` | services/validator.py:134-151 | The score lies in [0,1]. It is (cosine+1)/2 for a valid cosine, and the fallback score without one. |
| `TranslationValidation.AssessQuality` | services/validator.py:168-208 | The score lies in [0,1]. It is the parsed and clamped reply, or the fallback when the service fails or the reply does not parse. |
| `TranslationValidation.PreservationRatioMeaning` | services/validator.py:234-241 | The ratio lies in [0,1], and is 1 exactly when every original term is kept. |
| `TranslationValidation.CheckTechnicalTermPreservation` | services/validator.py:210-241 | The ratio lies in [0,1]. It is 1 exactly when the original's terms are among the translation's, and 1 when there are no terms. |
| `TranslationValidation.ShortPairsSkipValidation` | services/validator.py:90-97 | A short pair scores 1 with no issues, whatever the assessors say. |
| `TranslationValidation.SingleScoresInRange` | services/validator.py:99-132 | Every score lies in [0,1], and the overall score is the weighted sum of the three parts. |
| `TranslationValidation.IssuesMatchThresholds` | services/validator.py:99-124 | Each issue is reported exactly when its score is under its threshold. There are no issues exactly when all three thresholds are met. |
| `TranslationValidation.NoIssuesPasses` | services/validator.py:99-124 | A pair without issues scores at least 0.72, which passes the default threshold. |
| `TranslationValidation.Shorten` | services/validator.py:54-55 | Definition, restating the Python expression: texts up to 100 characters are kept. Longer ones are cut to 100 characters plus "...". |
| `TranslationValidation.DetailedResults` | services/validator.py:41-67 | There is one result per pair. |
| `TranslationValidation.PassedCount` | services/validator.py:73 | The count never exceeds the number of results. |
| `TranslationValidation.OverallScores` | services/validator.py:71 | Definition, restating the Python expression: the list holds each result's overall score, in order. |
| `TranslationValidation.CheckPairs` | services/validator.py:44-67 | The loop builds the specified detailed results and low-quality items. |
| `TranslationValidation.Aggregate` | services/validator.py:69-76 | The loop computes the sum of overall scores and the pass count. |
| `TranslationValidation.ValidateTranslations` | services/validator.py:29-85 | The method returns the specified summary report. |
| `TranslationValidation.EmptyBatchReportsZeros` | services/validator.py:32-39 | An empty batch gives an all-zero report. |
| `TranslationValidation.LowQualityCount` | services/validator.py:44-83 | Low-quality items plus passes never exceed the pairs. When every check succeeds, they add up to exactly the pairs. |
| `TranslationValidation.LowQualityEntries` | services/validator.py:50-58 | Each low-quality item names a failing pair by its index, and items come in index order. |
| `TranslationValidation.SummaryCounts` | services/validator.py:69-85 | Passed plus failed equals the total, and the low-quality items never outnumber the failures. |
| `TranslationValidation.SingleCheckSummary` | services/validator.py:44-85 | With the real pair check, every failure is listed and the average lies in [0,1]. |
| `TranslationValidation.IssueTexts` | services/validator.py:265 | Each issue gets one text. |
| `TranslationValidation.Shown` | services/validator.py:261 | Definition, restating the Python expression: the shown items are the first five, or all of them when there are fewer. |
| `TranslationValidation.AppendSections` | services/validator.py:261-265 | The loop appends the specified sections. |
| `TranslationValidation.GenerateValidationReport` | services/validator.py:243-267 | The method builds the specified report text. |
| `TranslationValidation.AppendedKeepsText` | services/validator.py:257-265 | Appending sections keeps the text written so far as a prefix. |
| `TranslationValidation.AppendedHoldsItem` | services/validator.py:261-265 | Every appended item's section appears in the text. |
| `TranslationValidation.ReportStartsWithHeader` | services/validator.py:246-256 | The report starts with its header, and is only the header when there are no low-quality items. |
| `TranslationValidation.ReportShowsFirstFive` | services/validator.py:261-265 | Each of the first five low-quality items appears in the report. |
| `TranslationValidation.ReportIgnoresPastFive` | services/validator.py:261 | Items past the fifth do not change the report. |
| `SimpleTranslation.TranslationOutcomes` | services/simple_translator.py:58-81 | A short text is returned without calling the service. A failure or an empty reply returns the original. Otherwise the stripped reply is returned. |
| `SimpleTranslation.BlankReplyGivesEmptyTranslation` | services/simple_translator.py:76-77 | A reply of blanks passes the emptiness test and becomes the empty translation. |
| `SimpleTranslation.CheckTechnicalPreservation` | services/simple_translator.py:119-138 | The result holds exactly when, for every pattern, the original's findall items are among the translation's. |
| `SimpleTranslation.PreservedWhenNothingToKeep` | services/simple_translator.py:131-138 | A text with no matches, or an unchanged text, passes. |
| `SimpleTranslation.ComparisonIsCaseSensitive` | services/simple_translator.py:131-136 | "VMware" written as "vmware" fails the check, although the pattern ignores case. |
| `SimpleTranslation.CvssComparesOnlySuffix` | services/simple_translator.py:126-133 | CVSSv3.1 and CVSSv4.1 compare equal, because findall yields only the group. |
| `SimpleTranslation.SimilarityScore` | services/simple_translator.py:96 | The score lies in [0,1], and is (cosine+1)/2 for a valid cosine. |
| `SimpleTranslation.GoodMeansCosineAboveFourTenths` | services/simple_translator.py:96-100 | "Good" means a cosine above 0.4. A score of exactly 0.7 is "Needs Review". |
| `SimpleTranslation.ValidateTranslation` | minimal_translator.py:84-117 | Without validation the result is the fixed not-validated one. A failure gives score 0 with the error text. Otherwise the score, label and term check are as specified. |
| `SimpleTranslation.NoClientEmbeddingIsZero` | minimal_translator.py:119-122 | Without a client every text gets the same 1536-long zero vector. |
| `AzureTranslation.MessageOrder` | providers/azure_translator.py:102-112 | The system prompt comes first and the user's text last. A context message sits between them exactly when the context is non-empty. |
| `AzureTranslation.FailureClasses` | providers/azure_translator.py:141-156 | A rate limit is reported as a TranslationServiceError, never a RateLimitError. Authentication needs "authentication" and no "rate limit". The codes follow the same order. |
| `AzureTranslation.ConfidenceLevels` | providers/azure_translator.py:166-176 | The confidence is 0.95 for "stop", 0.7 for "length", 0.8 when the choice has no `finish_reason` attribute and 0.5 for any other present value, None included. |
| `AzureTranslation.TranslateOutcomes` | providers/azure_translator.py:85-156 | With no client the call fails. A short text is echoed with confidence 1. Otherwise the call succeeds exactly when the reply has content and its choice has a `finish_reason` attribute, giving the stripped reply, its confidence and the reason in the metadata. An empty reply is a TRANSLATION_FAILED error. So is a reply whose choice lacks the attribute: the metadata's read of it raises an AttributeError, which the `except` wraps. |
| `AzureTranslation.MissingFinishReasonIsTranslationFailure` | providers/azure_translator.py:137-156 | The AttributeError for a missing `finish_reason` mentions neither a rate limit nor authentication, so it is classified as a generic translation failure. |
| `AzureTranslation.EmptyReplyIsTranslationFailure` | providers/azure_translator.py:121-156 | The empty-reply exception is classified as a generic translation failure. |
| `AzureTranslation.LanguagePairs` | providers/azure_translator.py:158-164 | Only English to Japanese and back are supported. The relation is symmetric and never pairs a language with itself. |
| `AzureTranslation.TestConnectionReports` | providers/azure_translator.py:182-201 | The probe reports the model and time exactly when its translation succeeds, and otherwise the error's message and class. |
| `CachedTranslation.StripAll` | services/translator.py:128 | Definition, restating the Python expression: each section is stripped, in order. |
| `CachedTranslation.TextStepFacts` | services/translator.py:51-89 | A cached text is answered from the cache. A short uncached text is echoed. Other entries are never changed. A result is either cached under its text's hash or the text itself. |
| `CachedTranslation.TextStepRepeats` | services/translator.py:54-89 | Suppose the first call stored the text, or the text is too short to send. Then a second call returns the same result and cache, whatever the service would answer. A failed call stores nothing, so the second call asks the service again as if the first had not happened. |
| `CachedTranslation.TextsStepCovers` | services/translator.py:133-134 | There is one output per text, and the cache only grows. |
| `CachedTranslation.TextsStepAppend` | services/translator.py:133-143 | Translating a+b one by one is translating a, then b from the resulting cache. |
| `CachedTranslation.StorePartsCovers` | services/translator.py:125-130 | Storing sections caches every text of the batch and keeps existing keys. |
| `CachedTranslation.StorePartsKeeps` | services/translator.py:125-130 | Entries for other hashes are unchanged. |
| `CachedTranslation.StorePartsCachesEach` | services/translator.py:122-130 | With distinct hashes, each text's section is cached under its hash. |
| `CachedTranslation.BatchStepCovers` | services/translator.py:100-143 | A batch gives one output per text. Each output is cached or is its text. |
| `CachedTranslation.BatchesCover` | services/translator.py:91-145 | The whole run gives one output per block and grows the cache. An empty input changes nothing. |
| `CachedTranslation.BatchesUnfold` | services/translator.py:100-101 | A run is its first batch of up to `size` blocks followed by the rest. |
| `CachedTranslation.BatchesNext` | services/translator.py:100-101 | The run from block i is the batch i..i+size followed by the run after it. |
| `CachedTranslation.FailedBatchesFallBack` | services/translator.py:139-143 | If every batch call fails, the run is one-by-one translation. |
| `CachedTranslation.CVETranslator.constructor` | services/translator.py:11-18 | The cache starts empty. |
| `CachedTranslation.CVETranslator.TranslateText` | services/translator.py:51-89 | The result and the new cache are the specified single-text step. |
| `CachedTranslation.CVETranslator.TranslateEach` | services/translator.py:133-134 | The method performs the one-by-one fallback over a batch. |
| `CachedTranslation.CVETranslator.StoreSections` | services/translator.py:126-130 | The method returns the stripped sections and caches each one under its text's hash. |
| `CachedTranslation.CVETranslator.TranslateOneBatch` | services/translator.py:101-143 | The method performs the specified batch step. |
| `CachedTranslation.CVETranslator.TranslateBatch` | services/translator.py:91-145 | The outputs and the cache are the specified run over all batches. |
| `CachedTranslation.CVETranslator.ClearCache` | services/translator.py:224-226 | The cache becomes empty. |
| `CachedTranslation.CVETranslator.Statistics` | services/translator.py:215-222 | Only an empty cache yields statistics. A non-empty cache raises a TypeError, because the cache keys are integer hashes and `len()` is applied to each of them. |

## Left out

- Regular expressions: each pattern is a scanner passed in as a parameter. IGNORECASE, Unicode `\d` and the exact pattern languages are not modelled. Only the anchored shapes of `_is_translatable_content` and `_validate_term_format` are written out.
- Floating point: scores are exact reals, with no NaN and no rounding. Square roots are not computed. A vector's magnitude is an input tied to the vector by `IsNorm`, and the provider's cosine is an input.
- Clocks and sleeping: `time.time()` durations are parameters, and `time.sleep` is not modelled.
- Orchestration.TranslationOrchestrator.TranslateBatch: the units run one after another in input order. The source collects thread-pool results in completion order and pairs them with block ids by position at orchestration/translation_orchestrator.py:316, so the real pairing can be wrong under concurrency. The timeout of `as_completed` (orchestration/translation_orchestrator.py:193, `timeout_seconds` 60 at core/models.py:112) is not modelled either, because durations are inputs and no clock is modelled. A batch still running after 60 seconds raises TimeoutError in the source, and `translate_document` then returns its failure result with `error_type` TimeoutError (lines 374-382). The model instead always finishes the batch.
- Orchestration.TranslationOrchestrator.TranslateDocument: because the batch timeout is not modelled, this method and `TranslateBlocks` promise the reconstructed result whenever reconstruction succeeds. In the source a batch that outlives `timeout_seconds` makes the document fail with `error_type` TimeoutError instead.
- Remote services: the chat, embedding and completion services are oracles passed as parameters, and so is the `np.random` fallback at services/validator.py:166.
- The document processor is an abstract collaborator. The Streamlit UI files and `main()` in minimal_translator.py are outside the core.
- `get_cve_terms` and `validate_term_integrity` are not modelled, because the translation code never calls them.
- Four reporting and probing calls are not modelled, because they only read configuration or call services:
  - the orchestrator's `get_processing_statistics` (both definitions);
  - `test_all_components` and `test_components`;
  - `get_supported_models`, `get_embedding_dimension` and the embeddings `test_connection`;
  - the `__init__`/`_initialize_client` environment reads.
- `get_validation_metrics` is a constant.
- The structured-content helpers of services/translator.py:147-213 are not modelled. They call `translate_text` on each text field and write the result into the block's dict (lines 163, 171, 178, 187, 200, 211). Everything they promise about a text is what `CVETranslator.TranslateText` promises.
- The identical copies under `src/` (providers and orchestration) are modelled once.
- `{:.2f}` number formatting in the report is a parameter. Console printing and `st.error` are not modelled.
- CachedTranslation.CVETranslator.TranslateBatch requires a batch size above 0 when there are blocks. With no blocks any size returns an empty list, and the model covers that. With blocks, a size of 0 raises ValueError in Python and a negative size returns an empty list; the size is a `nat`. `Batches`, `BatchesCover` and `FailedBatchesFallBack` share the requirement.
- AzureTranslation.Translate: the text of the AttributeError for a missing `finish_reason` is fixed as `'Choice' object has no attribute 'finish_reason'`. The class name in it depends on the chat client library, which is not part of this model.
- Python `hash` is a parameter, so collisions are possible and are not excluded. `max_tokens` and `temperature` are not modelled, and `cache_hit_rate` is always 0.0.
- In the source, `get_preservation_statistics` could raise after a successful translation has been counted. The model's preserver never raises, so that path is absent.
- TermPreserver.EffectiveRoundTrip: the round trip of `apply_preservation_map` and `restore_preservation_map` is proved only under its conditions. The text and the terms must hold no underscore, no term may be empty, and no term may occur inside a placeholder. `UnderscoreTermBreaksRoundTrip`, `UnderscoreTextBreaksRoundTrip` and `TwoTermRoundTripFails` each break one of these conditions and show the round trip failing. Term lists outside the conditions are not characterised in general.
- The order of `list(set(...))` is unspecified in Python. `TermPreserver.ExtractTerms` picks any order.
