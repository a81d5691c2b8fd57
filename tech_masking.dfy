/** The position-based masker of `TextProcessor`: technical terms found by eleven
    recognisers are recorded with their spans, spliced out of the text from the last to
    the first as `__TECH_TERM_k__`, and put back after translation by `str.replace`. */
module TechMasking {
  import opened Text
  import opened Matching
  import opened Placeholders

  /** `technical_patterns` holds eleven recognisers: CVE ids, VMSA ids, CVSS versions,
      version numbers, company names, product names, URLs, emails, technical codes, IP
      addresses and UUIDs, in that order. */
  const PatternCount: nat := 11

  /** The regex engine: the matches of pattern `p` (an index below `PatternCount`) in a
      text, left to right, as `finditer` yields them. */
  type TechScanner = (nat, string) -> seq<Match>

  /** One entry of `_extract_technical_terms`: `{'term', 'start', 'end', 'pattern_index'}`. */
  datatype TechTerm = TechTerm(term: string, start: nat, end: nat, patternIndex: nat)

  function TermOf(m: Match, p: nat): (t: TechTerm)
    ensures t.term == m.whole && t.start == m.start && t.end == m.start + |m.whole|
    ensures t.patternIndex == p
  {
    TechTerm(m.whole, m.start, m.start + |m.whole|, p)
  }

  /** The entries of one pattern, in match order. */
  function TermsOfMatches(ms: seq<Match>, p: nat): (r: seq<TechTerm>)
    ensures |r| == |ms|
    ensures forall k :: 0 <= k < |ms| ==> r[k] == TermOf(ms[k], p)
  {
    seq(|ms|, k requires 0 <= k < |ms| => TermOf(ms[k], p))
  }

  /** The list built before sorting: pattern by pattern, each pattern's matches in order. */
  function Collected(scan: TechScanner, text: string, n: nat): seq<TechTerm> {
    if n == 0 then [] else Collected(scan, text, n - 1) + TermsOfMatches(scan(n - 1, text), n - 1)
  }

  predicate SortedByStart(s: seq<TechTerm>) {
    forall i, j :: 0 <= i < j < |s| ==> s[i].start <= s[j].start
  }

  /** `x` placed before the first entry starting no earlier than it. */
  function InsertByStart(x: TechTerm, ys: seq<TechTerm>): (r: seq<TechTerm>)
    ensures multiset(r) == multiset(ys) + multiset{x}
    ensures forall z :: z in r <==> z == x || z in ys
    ensures SortedByStart(ys) ==> SortedByStart(r)
  {
    if ys == [] || x.start <= ys[0].start then [x] + ys
    else
      var rest := InsertByStart(x, ys[1..]);
      assert ys == [ys[0]] + ys[1..];
      InsertAfterHead(ys, rest);
      [ys[0]] + rest
  }

  lemma InsertAfterHead(ys: seq<TechTerm>, rest: seq<TechTerm>)
    requires ys != []
    requires SortedByStart(ys) ==> SortedByStart(rest)
    requires forall z :: z in rest ==> z in ys[1..] || z.start > ys[0].start
    ensures SortedByStart(ys) ==> SortedByStart([ys[0]] + rest)
  {
    if SortedByStart(ys) {
      var r := [ys[0]] + rest;
      forall i, j | 0 <= i < j < |r| ensures r[i].start <= r[j].start {
        if i == 0 {
          assert r[j] == rest[j - 1] && rest[j - 1] in rest;
          if r[j] in ys[1..] {
            var q :| 0 <= q < |ys[1..]| && ys[1..][q] == r[j];
            assert ys[q + 1] == r[j];
          }
        } else {
          assert r[i] == rest[i - 1] && r[j] == rest[j - 1];
        }
      }
    }
  }

  /** `list.sort(key=lambda x: x['start'])`: an insertion sort that keeps entries with
      equal starts in their original order. */
  function SortByStart(xs: seq<TechTerm>): (r: seq<TechTerm>)
    ensures multiset(r) == multiset(xs)
    ensures forall z :: z in r <==> z in xs
    ensures SortedByStart(r)
  {
    if xs == [] then []
    else
      assert xs == [xs[0]] + xs[1..];
      InsertByStart(xs[0], SortByStart(xs[1..]))
  }

  /** The entries starting at `v`, in order. */
  function StartingAt(s: seq<TechTerm>, v: nat): seq<TechTerm> {
    if s == [] then [] else (if s[0].start == v then [s[0]] else []) + StartingAt(s[1..], v)
  }

  lemma StartingAtCons(a: TechTerm, s: seq<TechTerm>, v: nat)
    ensures StartingAt([a] + s, v) == Tie(a, v) + StartingAt(s, v)
  {
    assert ([a] + s)[1..] == s;
  }

  function Tie(a: TechTerm, v: nat): seq<TechTerm> {
    if a.start == v then [a] else []
  }

  lemma {:induction false} InsertKeepsTies(x: TechTerm, ys: seq<TechTerm>, v: nat)
    ensures StartingAt(InsertByStart(x, ys), v) == StartingAt([x] + ys, v)
  {
    if !(ys == [] || x.start <= ys[0].start) {
      var a, t := ys[0], ys[1..];
      assert ys == [a] + t;
      assert InsertByStart(x, ys) == [a] + InsertByStart(x, t);
      InsertKeepsTies(x, t, v);
      StartingAtCons(a, InsertByStart(x, t), v);
      StartingAtCons(x, t, v);
      StartingAtCons(x, ys, v);
      StartingAtCons(a, t, v);
      TiesSwap(a, x, v, StartingAt(t, v));
    }
  }

  /** Entries with different starts never both tie at `v`, so their order is irrelevant. */
  lemma TiesSwap(a: TechTerm, x: TechTerm, v: nat, rest: seq<TechTerm>)
    requires a.start != x.start
    ensures Tie(a, v) + (Tie(x, v) + rest) == Tie(x, v) + (Tie(a, v) + rest)
  {
    assert Tie(a, v) == [] || Tie(x, v) == [];
  }

  /** The sort is stable: the entries sharing a start keep their relative order. */
  lemma {:induction false} SortKeepsTies(xs: seq<TechTerm>, v: nat)
    ensures StartingAt(SortByStart(xs), v) == StartingAt(xs, v)
  {
    if xs != [] {
      SortKeepsTies(xs[1..], v);
      InsertKeepsTies(xs[0], SortByStart(xs[1..]), v);
      StartingAtCons(xs[0], SortByStart(xs[1..]), v);
      StartingAtCons(xs[0], xs[1..], v);
      assert xs == [xs[0]] + xs[1..];
    }
  }

  /** What `_extract_technical_terms` returns. */
  function SortedTerms(scan: TechScanner, text: string): seq<TechTerm> {
    SortByStart(Collected(scan, text, PatternCount))
  }

  /** `_extract_technical_terms`: one entry per match of every pattern (overlapping spans
      of different patterns are all kept), sorted by start. */
  method ExtractTechnicalTerms(scan: TechScanner, text: string) returns (terms: seq<TechTerm>)
    ensures terms == SortedTerms(scan, text)
    ensures SortedByStart(terms)
    ensures multiset(terms) == multiset(Collected(scan, text, PatternCount))
  {
    var found: seq<TechTerm> := [];
    for i := 0 to PatternCount
      invariant found == Collected(scan, text, i)
    {
      var ms := scan(i, text);
      ghost var before := found;
      for k := 0 to |ms|
        invariant found == before + TermsOfMatches(ms[..k], i)
      {
        assert TermsOfMatches(ms[..k + 1], i) == TermsOfMatches(ms[..k], i) + [TermOf(ms[k], i)];
        found := found + [TechTerm(ms[k].whole, ms[k].start, ms[k].start + |ms[k].whole|, i)];
      }
      assert ms[..|ms|] == ms;
    }
    terms := SortByStart(found);
  }

  /** An entry as the scanner reports it: its span lies in the text and holds its term. */
  predicate Placed(text: string, terms: seq<TechTerm>) {
    forall k :: 0 <= k < |terms| ==>
      terms[k].start <= terms[k].end <= |text| && text[terms[k].start..terms[k].end] == terms[k].term
  }

  /** Matches of an honest scanner lie in the text and hold what they matched. */
  predicate HonestScanner(scan: TechScanner, text: string) {
    forall p: nat, k :: p < PatternCount && 0 <= k < |scan(p, text)| ==>
      scan(p, text)[k].start + |scan(p, text)[k].whole| <= |text|
      && text[scan(p, text)[k].start..scan(p, text)[k].start + |scan(p, text)[k].whole|] == scan(p, text)[k].whole
  }

  lemma {:induction false} CollectedPlaced(scan: TechScanner, text: string, n: nat)
    requires HonestScanner(scan, text) && n <= PatternCount
    ensures forall t :: t in Collected(scan, text, n) ==>
      t.start <= t.end <= |text| && text[t.start..t.end] == t.term
  {
    if n > 0 {
      CollectedPlaced(scan, text, n - 1);
      forall t | t in TermsOfMatches(scan(n - 1, text), n - 1)
        ensures t.start <= t.end <= |text| && text[t.start..t.end] == t.term
      {
        var k :| 0 <= k < |scan(n - 1, text)| && TermsOfMatches(scan(n - 1, text), n - 1)[k] == t;
      }
    }
  }

  /** The entries an honest scanner yields are placed in the text. */
  lemma SortedTermsPlaced(scan: TechScanner, text: string)
    requires HonestScanner(scan, text)
    ensures Placed(text, SortedTerms(scan, text))
  {
    CollectedPlaced(scan, text, PatternCount);
    var s := SortedTerms(scan, text);
    forall k | 0 <= k < |s| ensures s[k].start <= s[k].end <= |text| && text[s[k].start..s[k].end] == s[k].term {
      assert s[k] in s;
    }
  }

  const TechStem := "TECH_TERM_"

  lemma TechStemGood()
    ensures GoodStem(TechStem)
  {
    assert FirstUnderscoreAt(TechStem, 4);
  }

  /** Python's `s[:k]`, which keeps the whole string for an index past its end. */
  function Before(s: string, k: nat): (r: string)
    ensures |r| == if k <= |s| then k else |s|
  {
    if k <= |s| then s[..k] else s
  }

  /** Python's `s[k:]`, empty for an index past the end. */
  function After(s: string, k: nat): (r: string)
    ensures |r| == if k <= |s| then |s| - k else 0
  {
    if k <= |s| then s[k..] else []
  }

  /** The text after the splices of entries `j ..` have been made, last entry first. */
  function MaskFrom(text: string, terms: seq<TechTerm>, j: nat): string
    requires j <= |terms|
    decreases |terms| - j
  {
    if j == |terms| then text
    else
      var s := MaskFrom(text, terms, j + 1);
      Before(s, terms[j].start) + Placeholder(TechStem, j) + After(s, terms[j].end)
  }

  /** `_mask_technical_terms`: the entries of the text spliced out from the last to the
      first, entry `k` becoming `__TECH_TERM_k__`. */
  method MaskTechnicalTerms(scan: TechScanner, text: string) returns (masked: string)
    ensures masked == MaskFrom(text, SortedTerms(scan, text), 0)
  {
    masked := text;
    var terms := ExtractTechnicalTerms(scan, text);
    for i := 0 to |terms|
      invariant masked == MaskFrom(text, terms, |terms| - i)
    {
      var k := |terms| - 1 - i;
      var placeholder := Placeholder(TechStem, k);
      masked := Before(masked, terms[k].start) + placeholder + After(masked, terms[k].end);
    }
  }

  function TermTexts(terms: seq<TechTerm>): (r: seq<string>)
    ensures |r| == |terms|
    ensures forall k :: 0 <= k < |terms| ==> r[k] == terms[k].term
  {
    seq(|terms|, k requires 0 <= k < |terms| => terms[k].term)
  }

  /** `restore_technical_terms`: `__TECH_TERM_i__` replaced by term `i`, for each `i` in
      turn. */
  method RestoreTechnicalTerms(translated: string, terms: seq<TechTerm>) returns (r: string)
    ensures r == ReplaceAll(translated, RestorePairs(TechStem, TermTexts(terms)))
  {
    var pairs := RestorePairs(TechStem, TermTexts(terms));
    r := translated;
    for i := 0 to |terms|
      invariant r == ReplaceAll(translated, pairs[..i])
    {
      var placeholder := Placeholder(TechStem, i);
      ReplaceAllStep(translated, pairs, i);
      r := Replace(r, placeholder, terms[i].term);
    }
    assert pairs[..|terms|] == pairs;
  }

  /** Each span ends before the next begins. */
  predicate Apart(terms: seq<TechTerm>) {
    forall k :: 0 <= k < |terms| - 1 ==> terms[k].end <= terms[k + 1].start
  }

  /** Where the text after entry `j` resumes: the next start, or the end of the text. */
  function NextStart(text: string, terms: seq<TechTerm>, j: nat): nat {
    if j + 1 < |terms| then terms[j + 1].start else |text|
  }

  /** The text between entry `j` and the next one. */
  function Gap(text: string, terms: seq<TechTerm>, j: nat): string
    requires Placed(text, terms) && Apart(terms) && j < |terms|
  {
    text[terms[j].end..NextStart(text, terms, j)]
  }

  /** The slots of entries `j ..`, each followed by the text up to the next entry. */
  function SlotPieces(text: string, terms: seq<TechTerm>, j: nat): seq<Piece>
    requires Placed(text, terms) && Apart(terms) && j <= |terms|
    decreases |terms| - j
  {
    if j == |terms| then [] else [Hole(j), Lit(Gap(text, terms, j))] + SlotPieces(text, terms, j + 1)
  }

  /** The masked text as pieces: the text before the first entry, then the slots. */
  function MaskPieces(text: string, terms: seq<TechTerm>): seq<Piece>
    requires Placed(text, terms) && Apart(terms)
  {
    [Lit(text[..if terms == [] then |text| else terms[0].start])] + SlotPieces(text, terms, 0)
  }

  /** Entry `j`'s span, and the text up to the next entry, in order within the text. */
  lemma SpanInOrder(text: string, terms: seq<TechTerm>, j: nat)
    requires Placed(text, terms) && Apart(terms) && j < |terms|
    ensures terms[j].start <= terms[j].end <= NextStart(text, terms, j) <= |text|
    ensures text[terms[j].start..terms[j].end] == terms[j].term
  {
    if j + 1 < |terms| {
      assert terms[j + 1].start <= terms[j + 1].end <= |text|;
    }
  }

  /** One splice on a text that starts with `text[..n]`, inside that prefix. */
  lemma SpliceSlot(text: string, r: string, ph: string, s: nat, e: nat, n: nat)
    requires s <= e <= n <= |text|
    ensures Before(text[..n] + r, s) + ph + After(text[..n] + r, e) == text[..s] + (ph + (text[e..n] + r))
  {
    var a := text[..n];
    assert (a + r)[..s] == a[..s] == text[..s];
    assert (a + r)[e..] == a[e..] + r;
    assert a[e..] == text[e..n];
  }

  /** The slots of entry `j` onwards: its placeholder, its gap, then the later slots. */
  lemma SlotRender(text: string, terms: seq<TechTerm>, j: nat)
    requires Placed(text, terms) && Apart(terms) && j < |terms|
    ensures Render(SlotPieces(text, terms, j), TechStem)
      == Placeholder(TechStem, j) + (Gap(text, terms, j) + Render(SlotPieces(text, terms, j + 1), TechStem))
  {
    var rest := SlotPieces(text, terms, j + 1);
    RenderAppend([Hole(j), Lit(Gap(text, terms, j))], rest, TechStem);
    assert Render([Hole(j), Lit(Gap(text, terms, j))], TechStem) == Placeholder(TechStem, j) + Gap(text, terms, j);
  }

  lemma {:induction false} MaskFromSlots(text: string, terms: seq<TechTerm>, j: nat)
    requires Placed(text, terms) && Apart(terms) && j < |terms|
    ensures MaskFrom(text, terms, j) == text[..terms[j].start] + Render(SlotPieces(text, terms, j), TechStem)
    decreases |terms| - j
  {
    var s, e, n := terms[j].start, terms[j].end, NextStart(text, terms, j);
    SpanInOrder(text, terms, j);
    var r := Render(SlotPieces(text, terms, j + 1), TechStem);
    var x := MaskFrom(text, terms, j + 1);
    if j + 1 < |terms| {
      MaskFromSlots(text, terms, j + 1);
    } else {
      assert r == [];
      assert text[..n] + r == text;
    }
    assert x == text[..n] + r;
    SpliceSlot(text, r, Placeholder(TechStem, j), s, e, n);
    SlotRender(text, terms, j);
  }

  /** With entries placed and apart, masking leaves the text around the entries as it
      was and puts `__TECH_TERM_k__` where entry `k` stood. */
  lemma {:induction false} MaskIsRender(text: string, terms: seq<TechTerm>)
    requires Placed(text, terms) && Apart(terms)
    ensures MaskFrom(text, terms, 0) == Render(MaskPieces(text, terms), TechStem)
  {
    var h := text[..if terms == [] then |text| else terms[0].start];
    RenderAppend([Lit(h)], SlotPieces(text, terms, 0), TechStem);
    assert Render([Lit(h)], TechStem) == h;
    if terms != [] {
      MaskFromSlots(text, terms, 0);
    } else {
      assert text[..|text|] == text;
    }
  }

  /** The slots of entries `j ..` with every entry's term put back. */
  function FilledSlots(text: string, terms: seq<TechTerm>, j: nat): seq<Piece>
    requires Placed(text, terms) && Apart(terms) && j <= |terms|
    decreases |terms| - j
  {
    if j == |terms| then []
    else [Lit(terms[j].term), Lit(Gap(text, terms, j))] + FilledSlots(text, terms, j + 1)
  }

  /** Filling one slot followed by a literal run. */
  lemma FillSlotStep(j: nat, g: string, rest: seq<Piece>, xs: seq<string>)
    requires j < |xs|
    ensures FillUpTo([Hole(j), Lit(g)] + rest, xs, |xs|) == [Lit(xs[j]), Lit(g)] + FillUpTo(rest, xs, |xs|)
  {
    var n, f := |xs|, FillUpTo(rest, xs, |xs|);
    var l, r := FillUpTo([Hole(j), Lit(g)] + rest, xs, n), [Lit(xs[j]), Lit(g)] + f;
    forall k | 0 <= k < |l| ensures l[k] == r[k] {
      if k >= 2 {
        assert ([Hole(j), Lit(g)] + rest)[k] == rest[k - 2];
      }
    }
  }

  lemma {:induction false} FillSlots(text: string, terms: seq<TechTerm>, j: nat)
    requires Placed(text, terms) && Apart(terms) && j <= |terms|
    ensures FillUpTo(SlotPieces(text, terms, j), TermTexts(terms), |terms|) == FilledSlots(text, terms, j)
    decreases |terms| - j
  {
    var xs := TermTexts(terms);
    if j < |terms| {
      FillSlots(text, terms, j + 1);
      FillSlotStep(j, Gap(text, terms, j), SlotPieces(text, terms, j + 1), xs);
    }
  }

  /** Three adjacent slices make one. */
  lemma SliceJoin(t: string, s: nat, e: nat, n: nat)
    requires s <= e <= n <= |t|
    ensures t[s..] == t[s..e] + (t[e..n] + t[n..])
  {
  }

  lemma {:induction false} RenderFilledSlots(text: string, terms: seq<TechTerm>, j: nat)
    requires Placed(text, terms) && Apart(terms) && j <= |terms|
    ensures Render(FilledSlots(text, terms, j), TechStem) ==
      text[if j < |terms| then terms[j].start else |text|..]
    decreases |terms| - j
  {
    if j < |terms| {
      var g := Gap(text, terms, j);
      var s, e, n := terms[j].start, terms[j].end, NextStart(text, terms, j);
      SpanInOrder(text, terms, j);
      RenderFilledSlots(text, terms, j + 1);
      assert Render(FilledSlots(text, terms, j + 1), TechStem) == text[n..];
      RenderAppend([Lit(terms[j].term), Lit(g)], FilledSlots(text, terms, j + 1), TechStem);
      assert Render([Lit(terms[j].term), Lit(g)], TechStem) == terms[j].term + g;
      SliceJoin(text, s, e, n);
    } else {
      assert text[|text|..] == [];
    }
  }

  lemma {:induction false} SlotsClean(text: string, terms: seq<TechTerm>, j: nat)
    requires Placed(text, terms) && Apart(terms) && j <= |terms| && NoUnderscore(text)
    ensures CleanLits(SlotPieces(text, terms, j))
    decreases |terms| - j
  {
    if j < |terms| {
      SlotsClean(text, terms, j + 1);
      SpanInOrder(text, terms, j);
      var ps := SlotPieces(text, terms, j);
      forall k | 0 <= k < |ps| && ps[k].Lit? ensures NoUnderscore(ps[k].s) {
        if k >= 2 {
          assert ps[k] == SlotPieces(text, terms, j + 1)[k - 2];
        }
      }
    }
  }

  lemma {:induction false} MaskPiecesClean(text: string, terms: seq<TechTerm>)
    requires Placed(text, terms) && Apart(terms) && NoUnderscore(text)
    ensures CleanLits(MaskPieces(text, terms))
  {
    var ps := MaskPieces(text, terms);
    SlotsClean(text, terms, 0);
    forall k | 0 <= k < |ps| && ps[k].Lit? ensures NoUnderscore(ps[k].s) {
      if k > 0 {
        assert ps[k] == SlotPieces(text, terms, 0)[k - 1];
      } else if terms != [] {
        SpanInOrder(text, terms, 0);
      }
    }
  }

  /** Every slot filled with its entry's term renders the original text. */
  lemma {:induction false} FilledMaskIsText(text: string, terms: seq<TechTerm>)
    requires Placed(text, terms) && Apart(terms)
    ensures Render(FillUpTo(MaskPieces(text, terms), TermTexts(terms), |terms|), TechStem) == text
  {
    var f := if terms == [] then |text| else terms[0].start;
    if terms != [] {
      SpanInOrder(text, terms, 0);
    }
    FilledMask(text, terms);
    var slots := FilledSlots(text, terms, 0);
    RenderAppend([Lit(text[..f])], slots, TechStem);
    assert Render([Lit(text[..f])], TechStem) == text[..f] + Render([], TechStem);
    RenderFilledSlots(text, terms, 0);
    assert text[..f] + text[f..] == text;
  }

  /** The masked pieces with every slot filled: the text before the first entry, then
      each entry's term and gap. */
  lemma FilledMask(text: string, terms: seq<TechTerm>)
    requires Placed(text, terms) && Apart(terms)
    ensures var f := if terms == [] then |text| else terms[0].start;
      FillUpTo(MaskPieces(text, terms), TermTexts(terms), |terms|) == [Lit(text[..f])] + FilledSlots(text, terms, 0)
  {
    var xs := TermTexts(terms);
    var f := if terms == [] then |text| else terms[0].start;
    FillUpToAppend([Lit(text[..f])], SlotPieces(text, terms, 0), xs, |xs|);
    assert FillUpTo([Lit(text[..f])], xs, |xs|) == [Lit(text[..f])];
    FillSlots(text, terms, 0);
  }

  /** Masking and restoring gives the text back when the entries are placed in it and
      pairwise apart, and the text holds no underscore. */
  lemma {:induction false} MaskRestoreRoundTrip(text: string, terms: seq<TechTerm>)
    requires Placed(text, terms) && Apart(terms) && NoUnderscore(text)
    ensures ReplaceAll(MaskFrom(text, terms, 0), RestorePairs(TechStem, TermTexts(terms))) == text
  {
    var xs := TermTexts(terms);
    TechStemGood();
    MaskIsRender(text, terms);
    MaskPiecesClean(text, terms);
    forall k | 0 <= k < |xs| ensures NoUnderscore(xs[k]) {
      SpanInOrder(text, terms, k);
    }
    RestoreRender(MaskPieces(text, terms), TechStem, xs, |xs|);
    assert RestorePairs(TechStem, xs)[..|xs|] == RestorePairs(TechStem, xs);
    FilledMaskIsText(text, terms);
  }

  /** On "CVE-2025-41225" both the CVE pattern (index 0) and the technical-code pattern
      (index 8, which matches "CVE-2025" up to the word boundary before '-') report a
      match at position 0; no other pattern matches. */
  function OverlapScan(p: nat, s: string): seq<Match> {
    if s == "CVE-2025-41225" && p == 0 then [Match(0, "CVE-2025-41225", [])]
    else if s == "CVE-2025-41225" && p == 8 then [Match(0, "CVE-2025", [])]
    else []
  }

  lemma OverlapScanHonest()
    ensures HonestScanner(OverlapScan, "CVE-2025-41225")
  {
    var text := "CVE-2025-41225";
    forall p: nat, k | p < PatternCount && 0 <= k < |OverlapScan(p, text)|
      ensures OverlapScan(p, text)[k].start + |OverlapScan(p, text)[k].whole| <= |text|
      ensures text[OverlapScan(p, text)[k].start..OverlapScan(p, text)[k].start + |OverlapScan(p, text)[k].whole|]
        == OverlapScan(p, text)[k].whole
    {
      if p == 8 {
        assert text[0..8] == "CVE-2025";
      } else {
        assert p == 0;
        assert text[0..14] == text;
      }
    }
  }

  /** A pattern without matches adds no entry. */
  lemma CollectedSilent(scan: TechScanner, text: string, n: nat)
    requires n > 0 && scan(n - 1, text) == []
    ensures Collected(scan, text, n) == Collected(scan, text, n - 1)
  {
    assert TermsOfMatches(scan(n - 1, text), n - 1) == [];
  }

  lemma OverlapTerms()
    ensures SortedTerms(OverlapScan, "CVE-2025-41225")
      == [TechTerm("CVE-2025-41225", 0, 14, 0), TechTerm("CVE-2025", 0, 8, 8)]
  {
    var text := "CVE-2025-41225";
    var t0, t1 := TechTerm("CVE-2025-41225", 0, 14, 0), TechTerm("CVE-2025", 0, 8, 8);
    assert Collected(OverlapScan, text, 1) == [t0] by {
      assert TermsOfMatches(OverlapScan(0, text), 0) == [t0];
    }
    CollectedSilent(OverlapScan, text, 2);
    CollectedSilent(OverlapScan, text, 3);
    CollectedSilent(OverlapScan, text, 4);
    CollectedSilent(OverlapScan, text, 5);
    CollectedSilent(OverlapScan, text, 6);
    CollectedSilent(OverlapScan, text, 7);
    CollectedSilent(OverlapScan, text, 8);
    assert Collected(OverlapScan, text, 9) == [t0, t1] by {
      assert TermsOfMatches(OverlapScan(8, text), 8) == [t1];
    }
    CollectedSilent(OverlapScan, text, 10);
    CollectedSilent(OverlapScan, text, 11);
    assert SortByStart([t1]) == [t1];
    assert [t0, t1][1..] == [t1];
    assert SortByStart([t0, t1]) == InsertByStart(t0, [t1]) == [t0, t1];
  }

  /** The first two technical-term placeholders. */
  lemma TechPlaceholders()
    ensures Placeholder(TechStem, 0) == "__TECH_TERM_0__" && Placeholder(TechStem, 1) == "__TECH_TERM_1__"
  {
    assert NatToString(0) == "0" && NatToString(1) == "1";
  }

  lemma OverlapMask(terms: seq<TechTerm>)
    requires terms == [TechTerm("CVE-2025-41225", 0, 14, 0), TechTerm("CVE-2025", 0, 8, 8)]
    ensures MaskFrom("CVE-2025-41225", terms, 0) == "__TECH_TERM_0___-41225"
  {
    var text := "CVE-2025-41225";
    var p0, p1 := Placeholder(TechStem, 0), Placeholder(TechStem, 1);
    TechPlaceholders();
    assert MaskFrom(text, terms, 2) == text;
    assert Before(text, 0) == [] && After(text, 8) == "-41225";
    var m1 := MaskFrom(text, terms, 1);
    assert m1 == [] + p1 + "-41225";
    OverlapSecondSplice(p0, p1, m1);
  }

  /** Splicing the first placeholder over characters 0 to 14 of the once-masked text
      keeps the last underscore of the second placeholder. */
  lemma OverlapSecondSplice(p0: string, p1: string, m1: string)
    requires p0 == "__TECH_TERM_0__" && p1 == "__TECH_TERM_1__" && m1 == [] + p1 + "-41225"
    ensures Before(m1, 0) + p0 + After(m1, 14) == "__TECH_TERM_0___-41225"
  {
    assert After(m1, 14) == "_-41225";
    assert Before(m1, 0) == [];
  }

  /** The two restore steps on the masked text, for placeholders `p0`, `p1` and terms
      `t0`, `t1`. */
  lemma OverlapRestoreSteps(p0: string, p1: string, t0: string, t1: string, tail: string)
    requires p0 == "__TECH_TERM_0__" && p1 == "__TECH_TERM_1__"
    requires t0 == "CVE-2025-41225" && tail == "_-41225"
    ensures Replace(Replace(p0 + tail, p0, t0), p1, t1) == t0 + tail
  {
    ReplaceAtHead(tail, p0, t0);
    assert Replace(tail, p0, t0) == tail;
    forall k | 0 <= k < |t0 + tail| ensures (t0 + tail)[k] != p1[2] {
    }
    MissingCharNotContained(t0 + tail, p1, 2);
    ReplaceAbsent(t0 + tail, p1, t1);
  }

  lemma OverlapRestore(terms: seq<TechTerm>)
    requires terms == [TechTerm("CVE-2025-41225", 0, 14, 0), TechTerm("CVE-2025", 0, 8, 8)]
    ensures ReplaceAll("__TECH_TERM_0___-41225", RestorePairs(TechStem, TermTexts(terms)))
      == "CVE-2025-41225_-41225"
  {
    TechPlaceholders();
    var pairs := RestorePairs(TechStem, TermTexts(terms));
    var p0, p1, t0, t1 := pairs[0].0, pairs[1].0, pairs[0].1, pairs[1].1;
    var tail := "_-41225";
    ReplaceAllTwo("__TECH_TERM_0___-41225", pairs);
    OverlapJoins(p0, t0, tail);
    OverlapRestoreSteps(p0, p1, t0, t1, tail);
  }

  /** The masked text is the first placeholder and a tail; the restored text is the CVE
      identifier and the same tail. */
  lemma OverlapJoins(p0: string, t0: string, tail: string)
    requires p0 == "__TECH_TERM_0__" && t0 == "CVE-2025-41225" && tail == "_-41225"
    ensures "__TECH_TERM_0___-41225" == p0 + tail
    ensures t0 + tail == "CVE-2025-41225_-41225"
  {
  }

  /** The technical-code entry sits inside the CVE entry, so masking splices the second
      placeholder over the first and restoring yields "CVE-2025-41225_-41225". */
  lemma OverlapBreaksRoundTrip()
    ensures var terms := SortedTerms(OverlapScan, "CVE-2025-41225");
      && Placed("CVE-2025-41225", terms) && !Apart(terms)
      && MaskFrom("CVE-2025-41225", terms, 0) == "__TECH_TERM_0___-41225"
      && ReplaceAll(MaskFrom("CVE-2025-41225", terms, 0), RestorePairs(TechStem, TermTexts(terms)))
         == "CVE-2025-41225_-41225"
  {
    OverlapTerms();
    OverlapScanHonest();
    SortedTermsPlaced(OverlapScan, "CVE-2025-41225");
    var terms := SortedTerms(OverlapScan, "CVE-2025-41225");
    OverlapMask(terms);
    OverlapRestore(terms);
  }
}
