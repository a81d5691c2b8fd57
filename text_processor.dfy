/** `TextProcessor` around the masker: the technical-content ratio, the translatability
    filter, the preparation of blocks, table cells and list items, the post-translation
    clean-up and the processing statistics. */
module TextProcessing {
  import opened Text
  import opened Matching
  import opened Placeholders
  import opened TechMasking

  // ---------------------------------------------------------------------------------
  // Technical-content ratio

  /** Characters `findall` reports for one pattern: the whole match, or the group's text
      for the CVSS pattern, whose `(\.\d+)` group makes `findall` yield the group. */
  function MatchChars(ms: seq<Match>): nat {
    if ms == [] then 0 else MatchChars(ms[..|ms| - 1]) + |FindallItem(ms[|ms| - 1])|
  }

  /** The characters of the first `n` patterns. */
  function TechnicalChars(scan: TechScanner, text: string, n: nat): nat {
    if n == 0 then 0 else TechnicalChars(scan, text, n - 1) + MatchChars(scan(n - 1, text))
  }

  /** What `_get_technical_content_ratio` computes. */
  function TechnicalContentRatio(scan: TechScanner, text: string): real {
    if |text| == 0 then 0.0 else (TechnicalChars(scan, text, PatternCount) as real) / (|text| as real)
  }

  /** `_get_technical_content_ratio`: the lengths of all findall items over the text
      length, 0.0 for the empty text. */
  method GetTechnicalContentRatio(scan: TechScanner, text: string) returns (r: real)
    ensures r == TechnicalContentRatio(scan, text)
    ensures r >= 0.0
  {
    if |text| == 0 {
      return 0.0;
    }
    var technicalChars := 0;
    for p := 0 to PatternCount
      invariant technicalChars == TechnicalChars(scan, text, p)
    {
      var ms := scan(p, text);
      ghost var before := technicalChars;
      for k := 0 to |ms|
        invariant technicalChars == before + MatchChars(ms[..k])
      {
        assert ms[..k + 1][..k] == ms[..k];
        technicalChars := technicalChars + |FindallItem(ms[k])|;
      }
      assert ms[..|ms|] == ms;
    }
    r := (technicalChars as real) / (|text| as real);
  }

  /** On "CVE-2024-1234" the CVE pattern (index 0) matches the whole text and the
      technical-code pattern (index 8) matches "CVE-2024"; nothing else matches. */
  function CveScan(p: nat, s: string): seq<Match> {
    if s == "CVE-2024-1234" && p == 0 then [Match(0, "CVE-2024-1234", [])]
    else if s == "CVE-2024-1234" && p == 8 then [Match(0, "CVE-2024", [])]
    else []
  }

  lemma CveScanHonest()
    ensures HonestScanner(CveScan, "CVE-2024-1234")
  {
    var text := "CVE-2024-1234";
    forall p: nat, k | p < PatternCount && 0 <= k < |CveScan(p, text)|
      ensures CveScan(p, text)[k].start + |CveScan(p, text)[k].whole| <= |text|
      ensures text[CveScan(p, text)[k].start..CveScan(p, text)[k].start + |CveScan(p, text)[k].whole|]
        == CveScan(p, text)[k].whole
    {
      if p == 8 {
        assert text[0..8] == "CVE-2024";
      } else {
        assert text[0..13] == text;
      }
    }
  }

  lemma SilentPattern(scan: TechScanner, text: string, n: nat)
    requires n > 0 && scan(n - 1, text) == []
    ensures TechnicalChars(scan, text, n) == TechnicalChars(scan, text, n - 1)
  {
  }

  lemma OneMatchChars(m: Match)
    ensures MatchChars([m]) == |FindallItem(m)|
  {
    assert [m][..0] == [];
  }

  /** Overlapping matches are counted once per pattern, so the ratio exceeds 1 on a bare
      CVE identifier: (13 + 8) / 13. */
  lemma RatioExceedsOne()
    ensures TechnicalContentRatio(CveScan, "CVE-2024-1234") == 21.0 / 13.0
    ensures TechnicalContentRatio(CveScan, "CVE-2024-1234") > 1.0
  {
    var text := "CVE-2024-1234";
    OneMatchChars(Match(0, "CVE-2024-1234", []));
    OneMatchChars(Match(0, "CVE-2024", []));
    assert TechnicalChars(CveScan, text, 1) == 13;
    SilentPattern(CveScan, text, 2);
    SilentPattern(CveScan, text, 3);
    SilentPattern(CveScan, text, 4);
    SilentPattern(CveScan, text, 5);
    SilentPattern(CveScan, text, 6);
    SilentPattern(CveScan, text, 7);
    SilentPattern(CveScan, text, 8);
    assert TechnicalChars(CveScan, text, 9) == 21;
    SilentPattern(CveScan, text, 10);
    SilentPattern(CveScan, text, 11);
  }

  // ---------------------------------------------------------------------------------
  // Translatability

  predicate IsAsciiLetter(c: char) { 'a' <= c <= 'z' || 'A' <= c <= 'Z' }

  predicate Digits(s: string) { |s| > 0 && forall k :: 0 <= k < |s| ==> IsDigit(s[k]) }

  /** `^\d+(\.\d+)*$`: digit runs joined by single dots. */
  predicate VersionOnly(s: string) {
    && |s| > 0 && IsDigit(s[0]) && IsDigit(s[|s| - 1])
    && (forall k :: 0 <= k < |s| ==> IsDigit(s[k]) || s[k] == '.')
    && (forall k :: 0 <= k < |s| - 1 ==> !(s[k] == '.' && s[k + 1] == '.'))
  }

  /** `^[A-Z]{2,}[-_]?\d+$` ignoring case. */
  predicate CodeOnly(s: string) {
    exists i :: 2 <= i < |s| && (forall k :: 0 <= k < i ==> IsAsciiLetter(s[k]))
      && (Digits(s[i..]) || ((s[i] == '-' || s[i] == '_') && Digits(s[i + 1..])))
  }

  function StartsWith(s: string, prefix: string): bool {
    |prefix| <= |s| && s[..|prefix|] == prefix
  }

  /** `^https?://` ignoring case. */
  predicate UrlStart(s: string) {
    StartsWith(Lower(s), "http://") || StartsWith(Lower(s), "https://")
  }

  predicate LocalChar(c: char) { IsAsciiLetter(c) || IsDigit(c) || c in "._%+-" }

  predicate DomainChar(c: char) { IsAsciiLetter(c) || IsDigit(c) || c in ".-" }

  /** `^[a-zA-Z0-9._%+-]+@[a-zA-Z0-9.-]+\.[a-zA-Z]{2,}$`: `a` is the `@`, `d` the dot
      before the final letters. */
  predicate EmailOnly(s: string) {
    exists a, d :: 0 < a && a + 2 <= d <= |s| - 3 && s[a] == '@' && s[d] == '.'
      && (forall k :: 0 <= k < a ==> LocalChar(s[k]))
      && (forall k :: a < k < d ==> DomainChar(s[k]))
      && (forall k :: d < k < |s| ==> IsAsciiLetter(s[k]))
  }

  /** Some recogniser finds a match (`pattern.search(text)`). */
  predicate AnyMatch(scan: TechScanner, text: string) {
    exists p :: 0 <= p < PatternCount && scan(p, text) != []
  }

  /** `_is_translatable_content`. */
  function IsTranslatableContent(scan: TechScanner, text: string, preserve: bool): bool {
    var stripped := Strip(text);
    if |text| == 0 || |stripped| < 3 then false
    else if |stripped| < 10 && AnyMatch(scan, text) then false
    else if preserve && TechnicalContentRatio(scan, text) > 0.8 then false
    else !(VersionOnly(stripped) || CodeOnly(stripped) || UrlStart(stripped) || EmailOnly(stripped))
  }

  /** A translatable text holds at least three characters besides edge whitespace, is no
      short text with a technical match, and is not one bare version, code, URL or
      email; preserving terms only adds the ratio test, so it never admits more. */
  lemma TranslatableMeans(scan: TechScanner, text: string, preserve: bool)
    ensures IsTranslatableContent(scan, text, preserve) ==>
      && |Strip(text)| >= 3
      && !(|Strip(text)| < 10 && AnyMatch(scan, text))
      && !VersionOnly(Strip(text)) && !CodeOnly(Strip(text))
      && !UrlStart(Strip(text)) && !EmailOnly(Strip(text))
    ensures IsTranslatableContent(scan, text, true) ==> IsTranslatableContent(scan, text, false)
    ensures IsBlank(text) ==> !IsTranslatableContent(scan, text, preserve)
  {
    StripFacts(text);
  }

  lemma NotVersion(s: string)
    requires s != [] && !IsDigit(s[0])
    ensures !VersionOnly(s)
  {
  }

  /** Letters, then a dash, then digits interrupted by a second dash. */
  lemma NotCode(s: string)
    requires |s| == 13 && s[2] == 'E' && s[3] == '-' && s[4] == '2' && s[8] == '-'
    ensures !CodeOnly(s)
  {
    forall i | 2 <= i < |s|
      ensures !((forall k :: 0 <= k < i ==> IsAsciiLetter(s[k]))
        && (Digits(s[i..]) || ((s[i] == '-' || s[i] == '_') && Digits(s[i + 1..]))))
    {
      if i == 2 {
        assert !IsDigit(s[i..][0]);
      } else if i == 3 {
        assert !IsDigit(s[i..][0]);
        assert !IsDigit(s[i + 1..][4]);
      } else {
        assert !IsAsciiLetter(s[3]);
      }
    }
  }

  lemma NotUrl(s: string)
    requires s != [] && s[0] == 'C'
    ensures !UrlStart(s)
  {
    assert Lower(s)[0] == 'c';
  }

  lemma NotEmail(s: string)
    requires forall k :: 0 <= k < |s| ==> s[k] != '@'
    ensures !EmailOnly(s)
  {
  }

  /** A bare CVE identifier is translatable unless terms are being preserved, in which
      case its ratio, above 0.8, rules it out. */
  lemma BareCveId()
    ensures IsTranslatableContent(CveScan, "CVE-2024-1234", false)
    ensures !IsTranslatableContent(CveScan, "CVE-2024-1234", true)
  {
    var s := "CVE-2024-1234";
    assert |s| == 13 && s[2] == 'E' && s[3] == '-' && s[4] == '2' && s[8] == '-';
    StripKeepsTrimmed(s);
    NotVersion(s);
    NotCode(s);
    NotUrl(s);
    NotEmail(s);
    RatioExceedsOne();
    TranslatableLongText(CveScan, s, false);
    TranslatableLongText(CveScan, s, true);
  }

  /** A text of ten or more characters besides edge whitespace that is no bare version,
      code, URL or email is translatable exactly when the ratio test does not apply. */
  lemma TranslatableLongText(scan: TechScanner, text: string, preserve: bool)
    requires |Strip(text)| >= 10
    requires !VersionOnly(Strip(text)) && !CodeOnly(Strip(text))
    requires !UrlStart(Strip(text)) && !EmailOnly(Strip(text))
    ensures IsTranslatableContent(scan, text, preserve) <==>
      !(preserve && TechnicalContentRatio(scan, text) > 0.8)
  {
    StripFacts(text);
  }

  /** A text without edge whitespace strips to itself. */
  lemma StripKeepsTrimmed(s: string)
    requires s != [] && !IsSpace(s[0]) && !IsSpace(s[|s| - 1])
    ensures Strip(s) == s
  {
  }

  // ---------------------------------------------------------------------------------
  // Clean-up

  predicate IsPunct(c: char) { c in ".,;:!?" }

  /** Never two whitespace characters in a row. */
  predicate NoDoubleSpace(s: string) {
    forall k :: 0 <= k < |s| - 1 ==> !(IsSpace(s[k]) && IsSpace(s[k + 1]))
  }

  lemma ConsNoDouble(c: char, t: string)
    requires NoDoubleSpace(t)
    requires t != [] && IsSpace(c) ==> !IsSpace(t[0])
    ensures NoDoubleSpace([c] + t)
  {
    var s := [c] + t;
    forall k | 0 <= k < |s| - 1 ensures !(IsSpace(s[k]) && IsSpace(s[k + 1])) {
      if k > 0 {
        assert s[k] == t[k - 1] && s[k + 1] == t[k];
      }
    }
  }

  lemma NoDoubleSlice(s: string, i: nat, j: nat)
    requires NoDoubleSpace(s) && i <= j <= |s|
    ensures NoDoubleSpace(s[i..j])
  {
    var t := s[i..j];
    forall k | 0 <= k < |t| - 1 ensures !(IsSpace(t[k]) && IsSpace(t[k + 1])) {
      assert t[k] == s[i + k] && t[k + 1] == s[i + k + 1];
    }
  }

  /** `re.sub(r'\s+', ' ', s)`: each whitespace run becomes one space. */
  function CollapseSpaces(s: string): (r: string)
    ensures r == [] <==> s == []
    ensures r != [] ==> (IsSpace(r[0]) <==> IsSpace(s[0]))
    ensures NoDoubleSpace(r)
    ensures forall k :: 0 <= k < |r| && IsSpace(r[k]) ==> r[k] == ' '
    decreases |s|
  {
    if s == [] then []
    else if IsSpace(s[0]) then
      LStripFacts(s[1..]);
      var rest := CollapseSpaces(LStrip(s[1..]));
      ConsNoDouble(' ', rest);
      [' '] + rest
    else
      var rest := CollapseSpaces(s[1..]);
      ConsNoDouble(s[0], rest);
      [s[0]] + rest
  }

  /** `re.sub(r'\s+([.,;:!?])', r'\1', s)`: whitespace before punctuation dropped. */
  function DropSpaceBeforePunct(s: string): (r: string)
    ensures r != [] && IsSpace(r[0]) ==> s != [] && IsSpace(s[0])
    decreases |s|
  {
    LStripFacts(s);
    if s == [] then []
    else if IsSpace(s[0]) && LStrip(s) != [] && IsPunct(LStrip(s)[0]) then
      var run := LStrip(s);
      [run[0]] + DropSpaceBeforePunct(run[1..])
    else
      [s[0]] + DropSpaceBeforePunct(s[1..])
  }

  /** Dropping whitespace never makes two whitespace characters meet. */
  lemma {:induction false} DropSpaceNoDouble(s: string)
    requires NoDoubleSpace(s)
    ensures NoDoubleSpace(DropSpaceBeforePunct(s))
    decreases |s|
  {
    LStripFacts(s);
    if s == [] {
    } else if IsSpace(s[0]) && LStrip(s) != [] && IsPunct(LStrip(s)[0]) {
      var run := LStrip(s);
      NoDoubleSlice(s, |s| - |run| + 1, |s|);
      assert run[1..] == s[|s| - |run| + 1..];
      DropSpaceNoDouble(run[1..]);
      ConsNoDouble(run[0], DropSpaceBeforePunct(run[1..]));
    } else {
      NoDoubleSlice(s, 1, |s|);
      assert |s| > 1 ==> s[1..][0] == s[1];
      DropSpaceNoDouble(s[1..]);
      ConsNoDouble(s[0], DropSpaceBeforePunct(s[1..]));
    }
  }

  /** `re.sub(r'([.,;:!?])([^\s])', r'\1 \2', s)`: a space put between punctuation and a
      following non-space; the pair is consumed, so its second character is not looked at
      again. */
  function SpaceAfterPunct(s: string): (r: string)
    ensures r == [] <==> s == []
    ensures r != [] ==> r[0] == s[0]
    decreases |s|
  {
    if |s| >= 2 && IsPunct(s[0]) && !IsSpace(s[1]) then [s[0], ' ', s[1]] + SpaceAfterPunct(s[2..])
    else if s == [] then []
    else [s[0]] + SpaceAfterPunct(s[1..])
  }

  /** The inserted spaces sit between two non-spaces, so they never double a space. */
  lemma {:induction false} SpaceAfterPunctNoDouble(s: string)
    requires NoDoubleSpace(s)
    ensures NoDoubleSpace(SpaceAfterPunct(s))
    decreases |s|
  {
    if |s| >= 2 && IsPunct(s[0]) && !IsSpace(s[1]) {
      var rest := SpaceAfterPunct(s[2..]);
      NoDoubleSlice(s, 2, |s|);
      SpaceAfterPunctNoDouble(s[2..]);
      ConsNoDouble(s[1], rest);
      ConsNoDouble(' ', [s[1]] + rest);
      ConsNoDouble(s[0], [' '] + ([s[1]] + rest));
      assert [s[0], ' ', s[1]] + rest == [s[0]] + ([' '] + ([s[1]] + rest));
    } else if s != [] {
      NoDoubleSlice(s, 1, |s|);
      SpaceAfterPunctNoDouble(s[1..]);
      ConsNoDouble(s[0], SpaceAfterPunct(s[1..]));
    }
  }

  lemma StripNoDouble(s: string)
    requires NoDoubleSpace(s)
    ensures NoDoubleSpace(Strip(s))
  {
    var l := LStrip(s);
    LStripFacts(s);
    NoDoubleSlice(s, |s| - |l|, |s|);
    var r := RStrip(l);
    RStripFacts(l);
    NoDoubleSlice(l, 0, |r|);
    assert l[0..|r|] == r;
  }

  /** `_clean_translation_artifacts`: no whitespace at either end and never two
      whitespace characters in a row. */
  function CleanTranslationArtifacts(text: string): (r: string)
    ensures r != [] ==> !IsSpace(r[0]) && !IsSpace(r[|r| - 1])
    ensures NoDoubleSpace(r)
  {
    var dropped := DropSpaceBeforePunct(CollapseSpaces(text));
    DropSpaceNoDouble(CollapseSpaces(text));
    SpaceAfterPunctNoDouble(dropped);
    var spaced := SpaceAfterPunct(dropped);
    StripNoDouble(spaced);
    StripFacts(spaced);
    Strip(spaced)
  }

  /** `clean_text_for_translation`: whitespace runs become one space, edges trimmed. */
  function CleanTextForTranslation(text: string): (r: string)
    ensures r != [] ==> !IsSpace(r[0]) && !IsSpace(r[|r| - 1])
    ensures NoDoubleSpace(r)
    ensures forall k :: 0 <= k < |r| && IsSpace(r[k]) ==> r[k] == ' '
  {
    var collapsed := CollapseSpaces(text);
    StripNoDouble(collapsed);
    StripFacts(collapsed);
    var l := LStrip(collapsed);
    var r := RStrip(l);
    assert forall k :: 0 <= k < |r| ==> r[k] == collapsed[|collapsed| - |l| + k];
    Strip(collapsed)
  }

  lemma CollapseKeepsSpaceless(s: string)
    requires forall k :: 0 <= k < |s| ==> !IsSpace(s[k])
    ensures CollapseSpaces(s) == s
    decreases |s|
  {
    if s != [] {
      CollapseKeepsSpaceless(s[1..]);
    }
  }

  lemma DropKeepsSpaceless(s: string)
    requires forall k :: 0 <= k < |s| ==> !IsSpace(s[k])
    ensures DropSpaceBeforePunct(s) == s
    decreases |s|
  {
    if s != [] {
      DropKeepsSpaceless(s[1..]);
    }
  }

  /** Punctuation before a non-space gets a space between them. */
  lemma SpaceAfterPunctPair(p: char, c: char, t: string)
    requires IsPunct(p) && !IsSpace(c)
    ensures SpaceAfterPunct([p, c] + t) == [p, ' ', c] + SpaceAfterPunct(t)
  {
    assert ([p, c] + t)[2..] == t;
  }

  /** Any other character is copied. */
  lemma SpaceAfterPunctPlain(c: char, t: string)
    requires !IsPunct(c)
    ensures SpaceAfterPunct([c] + t) == [c] + SpaceAfterPunct(t)
  {
    assert ([c] + t)[1..] == t;
  }

  lemma SpacesVersion(a: char, b: char, c: char)
    requires IsDigit(a) && IsDigit(b) && IsDigit(c)
    ensures SpaceAfterPunct([a, '.', b, '.', c]) == [a, '.', ' ', b, '.', ' ', c]
  {
    var u, rest := ['.', c], ['.', ' ', c];
    SpaceAfterPunctPair('.', c, []);
    assert ['.', c] + [] == u && SpaceAfterPunct(u) == rest + [];
    SpaceAfterPunctPair('.', b, u);
    SpaceAfterPunctPlain(a, ['.', b] + u);
    assert [a] + (['.', b] + u) == [a, '.', b, '.', c];
    assert [a] + (['.', ' ', b] + rest) == [a, '.', ' ', b, '.', ' ', c];
  }

  /** A restored version number is split apart by the clean-up: "7.0.3" becomes
      "7. 0. 3". */
  lemma CleanupSplitsVersionOf(a: char, b: char, c: char)
    requires IsDigit(a) && IsDigit(b) && IsDigit(c)
    ensures CleanTranslationArtifacts([a, '.', b, '.', c]) == [a, '.', ' ', b, '.', ' ', c]
  {
    var s := [a, '.', b, '.', c];
    CollapseKeepsSpaceless(s);
    DropKeepsSpaceless(s);
    SpacesVersion(a, b, c);
    StripKeepsTrimmed([a, '.', ' ', b, '.', ' ', c]);
  }

  lemma CleanupSplitsVersion()
    ensures CleanTranslationArtifacts("7.0.3") == "7. 0. 3"
  {
    CleanupSplitsVersionOf('7', '0', '3');
  }

  /** `post_process_translation`: the entry's protected terms restored, if it has any,
      then the clean-up. */
  method PostProcessTranslation(translated: string, protectedTerms: seq<TechTerm>) returns (r: string)
    ensures r == CleanTranslationArtifacts(
      if protectedTerms == [] then translated
      else ReplaceAll(translated, RestorePairs(TechStem, TermTexts(protectedTerms))))
  {
    var t := translated;
    if protectedTerms != [] {
      t := RestoreTechnicalTerms(translated, protectedTerms);
    }
    r := CleanTranslationArtifacts(t);
  }

  /** A version number protected as term 0 comes back from post-processing split. */
  lemma PostProcessSplitsVersion()
    ensures var terms := [TechTerm("7.0.3", 0, 5, 3)];
      CleanTranslationArtifacts(ReplaceAll(Placeholder(TechStem, 0), RestorePairs(TechStem, TermTexts(terms))))
        == "7. 0. 3"
  {
    var terms := [TechTerm("7.0.3", 0, 5, 3)];
    var p0 := Placeholder(TechStem, 0);
    var pairs := RestorePairs(TechStem, TermTexts(terms));
    assert pairs[..0] == [];
    ReplaceAtHead([], p0, "7.0.3");
    assert p0 + [] == p0;
    assert Replace([], p0, "7.0.3") == [];
    assert ReplaceAll(p0, pairs) == "7.0.3";
    CleanupSplitsVersion();
  }

  // ---------------------------------------------------------------------------------
  // Blocks

  /** The keys `_process_single_block` and its nested helpers write. */
  datatype Preparation = Preparation(translatable: bool, protectedTerms: seq<TechTerm>, processedText: string)

  /** What is recorded for one text: terms and masked text only when preserving and the
      text is translatable; otherwise no terms and the text itself. */
  function Prepare(scan: TechScanner, text: string, preserve: bool): Preparation {
    var tr := IsTranslatableContent(scan, text, preserve);
    if preserve && tr then
      var terms := SortedTerms(scan, text);
      Preparation(true, terms, MaskFrom(text, terms, 0))
    else Preparation(tr, [], text)
  }

  /** Restoring the recorded terms into the recorded text gives the text back, for an
      honest scanner whose spans do not overlap and a text without underscores. */
  lemma PrepareRoundTrip(scan: TechScanner, text: string, preserve: bool)
    requires HonestScanner(scan, text) && Apart(SortedTerms(scan, text)) && NoUnderscore(text)
    ensures var p := Prepare(scan, text, preserve);
      ReplaceAll(p.processedText, RestorePairs(TechStem, TermTexts(p.protectedTerms))) == text
  {
    var p := Prepare(scan, text, preserve);
    if preserve && p.translatable {
      SortedTermsPlaced(scan, text);
      MaskRestoreRoundTrip(text, SortedTerms(scan, text));
    } else {
      assert RestorePairs(TechStem, TermTexts(p.protectedTerms)) == [];
    }
  }

  /** A table cell or list item: a dict the processor writes into. */
  class Entry {
    var text: string
    var translatable: bool
    var protectedTerms: seq<TechTerm>
    var processedText: string
  }

  /** The keys an entry holds besides its text. */
  function Fields(e: Entry): Preparation
    reads e
  {
    Preparation(e.translatable, e.protectedTerms, e.processedText)
  }

  /** The loop body of `_process_table_block` and `_process_list_block`. */
  method PrepareEntry(e: Entry, scan: TechScanner, preserve: bool)
    modifies e
    ensures e.text == old(e.text)
    ensures Fields(e) == Prepare(scan, e.text, preserve)
  {
    var cellText := e.text;
    e.translatable := IsTranslatableContent(scan, cellText, preserve);
    if preserve && e.translatable {
      e.protectedTerms := ExtractTechnicalTerms(scan, cellText);
      e.processedText := MaskTechnicalTerms(scan, cellText);
    } else {
      e.protectedTerms := [];
      e.processedText := cellText;
    }
  }

  function TableEntries(rows: seq<seq<Entry>>): set<Entry> {
    set r, c | r in rows && c in r :: c
  }

  /** The loop of `_process_list_block` over its items, and the inner loop of
      `_process_table_block` over a row's cells: each entry prepared in place, its text
      kept. */
  method PrepareEntries(entries: seq<Entry>, scan: TechScanner, preserve: bool)
    modifies set e | e in entries
    ensures forall e :: e in entries ==> e.text == old(e.text) && Fields(e) == Prepare(scan, e.text, preserve)
  {
    ghost var want := t => Prepare(scan, t, preserve);
    for i := 0 to |entries|
      invariant forall e :: e in entries ==> e.text == old(e.text)
      invariant forall k :: 0 <= k < i ==> Fields(entries[k]) == want(entries[k].text)
    {
      PrepareEntry(entries[i], scan, preserve);
    }
  }

  /** `_process_table_block`: every cell of every row prepared in place, its text kept. */
  method ProcessTableBlock(rows: seq<seq<Entry>>, scan: TechScanner, preserve: bool)
    modifies TableEntries(rows)
    ensures forall c :: c in TableEntries(rows) ==>
      c.text == old(c.text) && Fields(c) == Prepare(scan, c.text, preserve)
  {
    ghost var want := t => Prepare(scan, t, preserve);
    for i := 0 to |rows|
      invariant forall c :: c in TableEntries(rows) ==> c.text == old(c.text)
      invariant forall r, c :: 0 <= r < i && c in rows[r] ==> Fields(c) == want(old(c.text))
    {
      assert forall c :: c in rows[i] ==> c in TableEntries(rows);
      PrepareEntries(rows[i], scan, preserve);
    }
    forall c | c in TableEntries(rows) ensures Fields(c) == Prepare(scan, c.text, preserve) {
      var r :| 0 <= r < |rows| && c in rows[r];
    }
  }

  /** A content block: its type, its text, and the table rows and list items it holds
      (shared with the caller, as Python's `dict.copy()` shares them). */
  datatype Block = Block(kind: string, text: string, rows: seq<seq<Entry>>, items: seq<Entry>)

  /** The shallow copy `_process_single_block` returns, with its added keys. */
  datatype PreparedBlock = PreparedBlock(block: Block, originalText: string, prep: Preparation)

  /** The entries a block's preparation writes to. */
  function Touched(b: Block): set<Entry> {
    if b.kind == "table" then TableEntries(b.rows)
    else if b.kind == "list" then set e | e in b.items
    else {}
  }

  /** `_process_single_block`: the block's own text prepared, and the nested cells or
      items prepared in place, where the caller sees them. */
  method ProcessSingleBlock(b: Block, scan: TechScanner, preserve: bool) returns (pb: PreparedBlock)
    modifies Touched(b)
    ensures pb == PreparedBlock(b, b.text, Prepare(scan, b.text, preserve))
    ensures forall e :: e in Touched(b) ==> e.text == old(e.text) && Fields(e) == Prepare(scan, e.text, preserve)
  {
    var isTranslatable := IsTranslatableContent(scan, b.text, preserve);
    var prep := Preparation(isTranslatable, [], b.text);
    if preserve && isTranslatable {
      var terms := ExtractTechnicalTerms(scan, b.text);
      var masked := MaskTechnicalTerms(scan, b.text);
      prep := Preparation(isTranslatable, terms, masked);
    }
    pb := PreparedBlock(b, b.text, prep);
    if b.kind == "table" {
      ProcessTableBlock(b.rows, scan, preserve);
    } else if b.kind == "list" {
      PrepareEntries(b.items, scan, preserve);
    }
  }

  function AllTouched(blocks: seq<Block>): set<Entry> {
    set b, e | b in blocks && e in Touched(b) :: e
  }

  /** `prepare_for_translation`: one prepared block per block, in order, and every
      nested cell and item prepared in place. */
  method PrepareForTranslation(blocks: seq<Block>, scan: TechScanner, preserve: bool)
    returns (r: seq<PreparedBlock>)
    modifies AllTouched(blocks)
    ensures |r| == |blocks|
    ensures forall i :: 0 <= i < |blocks| ==>
      r[i] == PreparedBlock(blocks[i], blocks[i].text, Prepare(scan, blocks[i].text, preserve))
    ensures forall e :: e in AllTouched(blocks) ==>
      e.text == old(e.text) && Fields(e) == Prepare(scan, e.text, preserve)
  {
    ghost var want := t => Prepare(scan, t, preserve);
    r := [];
    for i := 0 to |blocks|
      invariant |r| == i
      invariant forall k :: 0 <= k < i ==> r[k] == PreparedBlock(blocks[k], blocks[k].text, want(blocks[k].text))
      invariant forall e :: e in AllTouched(blocks) ==> e.text == old(e.text)
      invariant forall k, e :: 0 <= k < i && e in Touched(blocks[k]) ==> Fields(e) == want(old(e.text))
    {
      assert Touched(blocks[i]) <= AllTouched(blocks);
      var pb := ProcessSingleBlock(blocks[i], scan, preserve);
      r := r + [pb];
    }
    forall e | e in AllTouched(blocks) ensures Fields(e) == Prepare(scan, e.text, preserve) {
      var k :| 0 <= k < |blocks| && e in Touched(blocks[k]);
    }
  }

  // ---------------------------------------------------------------------------------
  // Statistics

  function CountTranslatable(blocks: seq<PreparedBlock>): (n: nat)
    ensures n <= |blocks|
    ensures n == |blocks| <==> forall k :: 0 <= k < |blocks| ==> blocks[k].prep.translatable
    ensures n == 0 <==> forall k :: 0 <= k < |blocks| ==> !blocks[k].prep.translatable
  {
    if blocks == [] then 0
    else
      var rest := CountTranslatable(blocks[1..]);
      assert forall k :: 1 <= k < |blocks| ==> blocks[k] == blocks[1..][k - 1];
      (if blocks[0].prep.translatable then 1 else 0) + rest
  }

  function CountProtected(blocks: seq<PreparedBlock>): (n: nat)
    ensures n == 0 <==> forall k :: 0 <= k < |blocks| ==> blocks[k].prep.protectedTerms == []
  {
    if blocks == [] then 0
    else
      var rest := CountProtected(blocks[1..]);
      assert forall k :: 1 <= k < |blocks| ==> blocks[k] == blocks[1..][k - 1];
      |blocks[0].prep.protectedTerms| + rest
  }

  datatype ProcessingStats = ProcessingStats(
    totalBlocks: nat,
    translatableBlocks: nat,
    nonTranslatableBlocks: int,
    totalTechnicalTermsProtected: nat,
    translatableRatio: real)

  lemma ShareBounds(n: nat, t: nat)
    requires n <= t && t > 0
    ensures 0.0 <= (n as real) / (t as real) <= 1.0
    ensures (n as real) / (t as real) == 1.0 <==> n == t
  {
    var q := (n as real) / (t as real);
    assert q * (t as real) == n as real;
    if q == 1.0 {
      assert n as real == t as real;
    }
  }

  /** `get_processing_statistics`. */
  function ProcessingStatistics(blocks: seq<PreparedBlock>): (st: ProcessingStats)
    ensures st.totalBlocks == |blocks|
    ensures st.translatableBlocks + st.nonTranslatableBlocks == st.totalBlocks
    ensures 0 <= st.nonTranslatableBlocks <= st.totalBlocks
    ensures 0.0 <= st.translatableRatio <= 1.0
    ensures st.translatableBlocks == 0 ==> st.translatableRatio == 0.0
    ensures st.totalTechnicalTermsProtected == 0 <==>
      forall k :: 0 <= k < |blocks| ==> blocks[k].prep.protectedTerms == []
    ensures st.totalBlocks > 0 ==>
      st.translatableRatio == (st.translatableBlocks as real) / (st.totalBlocks as real)
    ensures st.translatableRatio == 1.0 <==> blocks != [] && forall k :: 0 <= k < |blocks| ==> blocks[k].prep.translatable
  {
    var total := |blocks|;
    var translatable := CountTranslatable(blocks);
    if total > 0 then
      ShareBounds(translatable, total);
      ProcessingStats(total, translatable, total - translatable, CountProtected(blocks),
        (translatable as real) / (total as real))
    else
      ProcessingStats(total, translatable, total - translatable, CountProtected(blocks), 0.0)
  }
}
