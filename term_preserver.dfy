/** The CVE term preserver: term extraction, the term/placeholder map, masking,
    restoration, the containment check and the preservation statistics.

    The class defines `create_preservation_map` and `restore_preservation_map` twice; the
    later definitions are the ones Python keeps.  Both are modelled: the effective pair
    maps each term to `__PRESERVE_i__`, the shadowed pair maps `[KEEP:NNNN]` tokens to
    terms. */
module TermPreserver {
  import opened Text
  import opened Collections
  import opened Matching
  import opened Placeholders

  /** The eighteen recognisers, in the order of the `patterns` dict. */
  datatype TermPattern =
    | CveIds | VmsaIds | CvssScores | ScoreRanges | VersionNumbers | BuildNumbers
    | CompanyNames | ProductNames | ProductEditions | Urls | Emails | FilePaths
    | IpAddresses | MacAddresses | RegistryKeys | HashValues | PortNumbers | FileExtensions

  const AllPatterns: seq<TermPattern> := [
    CveIds, VmsaIds, CvssScores, ScoreRanges, VersionNumbers, BuildNumbers,
    CompanyNames, ProductNames, ProductEditions, Urls, Emails, FilePaths,
    IpAddresses, MacAddresses, RegistryKeys, HashValues, PortNumbers, FileExtensions
  ]

  /** Capture groups of each pattern: `(\.\d+)` in the CVSS pattern, the alternations of
      company, product and edition names, and the two groups of the MAC pattern. */
  function GroupCount(p: TermPattern): nat {
    match p
    case CvssScores | CompanyNames | ProductNames | ProductEditions => 1
    case MacAddresses => 2
    case _ => 0
  }

  /** The regex engine: the matches of each pattern in a text, left to right. */
  type Scanner = (TermPattern, string) -> seq<Match>

  /** The scanner reports for each pattern as many groups as the pattern has. */
  predicate GroupsAgree(scan: Scanner, text: string) {
    forall p: TermPattern, k :: 0 <= k < |scan(p, text)| ==> |scan(p, text)[k].groups| == GroupCount(p)
  }

  /** The strings `findall` yields for the first `n` patterns. */
  function ItemsOf(scan: Scanner, text: string, n: nat): set<string>
    requires n <= |AllPatterns|
  {
    if n == 0 then {}
    else ItemsOf(scan, text, n - 1) + FindallSet(scan(AllPatterns[n - 1], text))
  }

  /** The terms `extract_terms` collects: none for the empty text, otherwise every findall
      item of every pattern. */
  function TermsOf(scan: Scanner, text: string): set<string> {
    if text == [] then {} else ItemsOf(scan, text, |AllPatterns|)
  }

  /** A string is collected exactly when one of the first `n` patterns' findall yields
      it. */
  lemma {:induction false} ItemsOfChar(scan: Scanner, text: string, n: nat, t: string)
    requires n <= |AllPatterns|
    ensures t in ItemsOf(scan, text, n) <==>
      exists i, m :: 0 <= i < n && m in scan(AllPatterns[i], text) && FindallItem(m) == t
  {
    if n > 0 {
      ItemsOfChar(scan, text, n - 1, t);
      if t in ItemsOf(scan, text, n) && t !in ItemsOf(scan, text, n - 1) {
        var m :| m in scan(AllPatterns[n - 1], text) && FindallItem(m) == t;
        assert 0 <= n - 1 < n;
      }
    }
  }

  /** The CVSS pattern has one group, so each CVSS match contributes the group's text
      (`""` or `.N`), and not the score name it matched. */
  lemma CvssContributesGroup(scan: Scanner, text: string, m: Match)
    requires text != [] && GroupsAgree(scan, text)
    requires m in scan(CvssScores, text)
    ensures m.groups[0] in TermsOf(scan, text)
  {
    var k :| 0 <= k < |scan(CvssScores, text)| && scan(CvssScores, text)[k] == m;
    assert |m.groups| == 1 && FindallItem(m) == m.groups[0];
    assert AllPatterns[2] == CvssScores;
    ItemsOfChar(scan, text, |AllPatterns|, m.groups[0]);
  }

  /** The MAC pattern has two groups; only the first group's text is collected. */
  lemma MacContributesFirstGroup(scan: Scanner, text: string, m: Match)
    requires text != [] && GroupsAgree(scan, text)
    requires m in scan(MacAddresses, text)
    ensures m.groups[0] in TermsOf(scan, text)
  {
    var k :| 0 <= k < |scan(MacAddresses, text)| && scan(MacAddresses, text)[k] == m;
    assert |m.groups| == 2 && FindallItem(m) == m.groups[0];
    assert AllPatterns[13] == MacAddresses;
    ItemsOfChar(scan, text, |AllPatterns|, m.groups[0]);
  }

  /** `extract_terms`: the set of findall items, as a list in no fixed order. */
  method ExtractTerms(scan: Scanner, text: string) returns (terms: seq<string>)
    ensures Distinct(terms)
    ensures Elements(terms) == TermsOf(scan, text)
    ensures |terms| == |TermsOf(scan, text)|
  {
    if text == [] {
      return [];
    }
    var found: set<string> := {};
    for n := 0 to |AllPatterns|
      invariant found == ItemsOf(scan, text, n)
    {
      found := found + FindallSet(scan(AllPatterns[n], text));
    }
    terms := SetToList(found);
    ElementsOf(terms, found);
  }

  const PreserveStem := "PRESERVE_"

  lemma PreserveStemGood()
    ensures GoodStem(PreserveStem)
  {
    assert FirstUnderscoreAt(PreserveStem, 8);
  }

  /** `create_preservation_map` as Python keeps it: each extracted term, in list order,
      mapped to `__PRESERVE_i__` with `i` its position. */
  method CreatePreservationMap(scan: Scanner, text: string) returns (m: seq<(string, string)>)
    ensures Distinct(Keys(m))
    ensures Elements(Keys(m)) == TermsOf(scan, text)
    ensures forall i :: 0 <= i < |m| ==> m[i].1 == Placeholder(PreserveStem, i)
  {
    var terms := ExtractTerms(scan, text);
    m := PlaceholderMap(terms);
  }

  /** The loop of `create_preservation_map`: the `i`-th of distinct terms keyed to
      `__PRESERVE_i__`. */
  method PlaceholderMap(terms: seq<string>) returns (m: seq<(string, string)>)
    requires Distinct(terms)
    ensures Distinct(Keys(m)) && Keys(m) == terms
    ensures forall i :: 0 <= i < |m| ==> m[i].1 == Placeholder(PreserveStem, i)
  {
    m := [];
    for i := 0 to |terms|
      invariant |m| == i
      invariant forall k :: 0 <= k < i ==> m[k] == (terms[k], Placeholder(PreserveStem, k))
    {
      FreshKey(m, terms, i);
      m := Put(m, terms[i], Placeholder(PreserveStem, i));
    }
    assert Keys(m) == terms;
  }

  /** A dict whose keys are the first `i` of some distinct terms has distinct keys and
      does not hold term `i`. */
  lemma FreshKey<V>(m: seq<(string, V)>, terms: seq<string>, i: nat)
    requires i < |terms| && |m| == i && Distinct(terms)
    requires forall k :: 0 <= k < i ==> m[k].0 == terms[k]
    ensures Distinct(Keys(m)) && terms[i] !in Keys(m)
  {
  }

  /** `[KEEP:{i:04d}]`. */
  function KeepToken(i: nat): string {
    "[KEEP:" + ZeroPad4(i) + "]"
  }

  /** Distinct token numbers give distinct tokens. */
  lemma ZeroPad4Injective(a: nat, b: nat)
    requires ZeroPad4(a) == ZeroPad4(b)
    ensures a == b
  {
    ZeroPad4Unpads(a);
    ZeroPad4Unpads(b);
    NatToStringInjective(a, b);
  }

  /** The shadowed `create_preservation_map`: token `[KEEP:NNNN]` for each extracted term,
      mapped to the term. */
  method CreateKeepMap(scan: Scanner, text: string) returns (m: seq<(string, string)>)
    ensures Distinct(Keys(m))
    ensures Distinct(Values(m))
    ensures Elements(Values(m)) == TermsOf(scan, text)
    ensures forall i :: 0 <= i < |m| ==> m[i].0 == KeepToken(i)
  {
    var terms := ExtractTerms(scan, text);
    m := KeepMap(terms);
  }

  /** The loop of the shadowed `create_preservation_map`: token `i` mapped to the `i`-th
      term. */
  method KeepMap(terms: seq<string>) returns (m: seq<(string, string)>)
    ensures Distinct(Keys(m)) && Values(m) == terms
    ensures forall i :: 0 <= i < |m| ==> m[i].0 == KeepToken(i)
  {
    m := [];
    for i := 0 to |terms|
      invariant |m| == i
      invariant forall k :: 0 <= k < i ==> m[k] == (KeepToken(k), terms[k])
    {
      FreshToken(m, i);
      m := Put(m, KeepToken(i), terms[i]);
    }
    FreshToken(m, |m|);
    assert Values(m) == terms;
  }

  /** Tokens numbered apart differ. */
  lemma KeepTokenInjective(a: nat, b: nat)
    requires KeepToken(a) == KeepToken(b)
    ensures a == b
  {
    assert ZeroPad4(a) == KeepToken(a)[6..|KeepToken(a)| - 1];
    assert ZeroPad4(b) == KeepToken(b)[6..|KeepToken(b)| - 1];
    ZeroPad4Injective(a, b);
  }

  /** A dict holding tokens `0 .. i-1` in order has distinct keys and no token `i`. */
  lemma FreshToken(m: seq<(string, string)>, i: nat)
    requires |m| == i
    requires forall k :: 0 <= k < i ==> m[k].0 == KeepToken(k)
    ensures Distinct(Keys(m)) && KeepToken(i) !in Keys(m)
  {
    forall a, b | 0 <= a < b < i ensures Keys(m)[a] != Keys(m)[b] {
      if Keys(m)[a] == Keys(m)[b] {
        KeepTokenInjective(a, b);
      }
    }
    forall a | 0 <= a < i ensures Keys(m)[a] != KeepToken(i) {
      if Keys(m)[a] == KeepToken(i) {
        KeepTokenInjective(a, i);
      }
    }
  }

  /** Every length-ordered element after a longer-or-equal one. */
  predicate NonIncreasingLen(s: seq<string>) {
    forall i, j :: 0 <= i < j < |s| ==> |s[i]| >= |s[j]|
  }

  /** `x` placed before the first element no longer than it. */
  function InsertByLen(x: string, ys: seq<string>): (r: seq<string>)
    ensures multiset(r) == multiset(ys) + multiset{x}
    ensures forall z :: z in r <==> z == x || z in ys
    ensures NonIncreasingLen(ys) ==> NonIncreasingLen(r)
  {
    if ys == [] || |ys[0]| <= |x| then [x] + ys
    else
      var rest := InsertByLen(x, ys[1..]);
      assert ys == [ys[0]] + ys[1..];
      InsertBelowHead(ys, rest);
      [ys[0]] + rest
  }

  /** A sorted tail whose elements are no longer than the head stays sorted behind it. */
  lemma InsertBelowHead(ys: seq<string>, rest: seq<string>)
    requires ys != []
    requires NonIncreasingLen(ys) ==> NonIncreasingLen(rest)
    requires forall z :: z in rest ==> z in ys[1..] || |z| < |ys[0]|
    ensures NonIncreasingLen(ys) ==> NonIncreasingLen([ys[0]] + rest)
  {
    if NonIncreasingLen(ys) {
      HeadIsLongest(ys);
      var r := [ys[0]] + rest;
      forall i, j | 0 <= i < j < |r| ensures |r[i]| >= |r[j]| {
        assert r[j] == rest[j - 1] && rest[j - 1] in rest;
        if i > 0 {
          assert r[i] == rest[i - 1];
        }
      }
    }
  }

  /** In a length-ordered list nothing after the head is longer than it. */
  lemma HeadIsLongest(ys: seq<string>)
    requires ys != [] && NonIncreasingLen(ys)
    ensures forall z :: z in ys[1..] ==> |z| <= |ys[0]|
  {
    forall z | z in ys[1..] ensures |z| <= |ys[0]| {
      var q :| 0 <= q < |ys[1..]| && ys[1..][q] == z;
      assert ys[q + 1] == z;
    }
  }

  /** Python's `sorted(xs, key=len, reverse=True)`: the same strings, longest first,
      equal lengths kept in their original order. */
  function SortByLenDesc(xs: seq<string>): (r: seq<string>)
    ensures multiset(r) == multiset(xs)
    ensures forall x :: x in r <==> x in xs
    ensures NonIncreasingLen(r)
  {
    if xs == [] then []
    else
      assert xs == [xs[0]] + xs[1..];
      InsertByLen(xs[0], SortByLenDesc(xs[1..]))
  }

  /** The strings of `s` that are `n` characters long, in their order in `s`. */
  function OfLength(s: seq<string>, n: nat): seq<string> {
    if s == [] then [] else LengthTie(s[0], n) + OfLength(s[1..], n)
  }

  function LengthTie(a: string, n: nat): seq<string> {
    if |a| == n then [a] else []
  }

  lemma OfLengthCons(a: string, s: seq<string>, n: nat)
    ensures OfLength([a] + s, n) == LengthTie(a, n) + OfLength(s, n)
  {
    assert ([a] + s)[1..] == s;
  }

  /** Inserting goes in front of the first string no longer than `x`, so `x` stays ahead
      of the strings of its own length. */
  lemma {:induction false} InsertByLenKeepsTies(x: string, ys: seq<string>, n: nat)
    ensures OfLength(InsertByLen(x, ys), n) == OfLength([x] + ys, n)
  {
    if !(ys == [] || |ys[0]| <= |x|) {
      var a, t := ys[0], ys[1..];
      assert ys == [a] + t;
      assert InsertByLen(x, ys) == [a] + InsertByLen(x, t);
      InsertByLenKeepsTies(x, t, n);
      OfLengthCons(a, InsertByLen(x, t), n);
      OfLengthCons(x, t, n);
      OfLengthCons(x, ys, n);
      OfLengthCons(a, t, n);
      assert LengthTie(a, n) == [] || LengthTie(x, n) == [];
    }
  }

  /** The sort is stable, as Python's `sorted` is: the strings of each length keep their
      relative order. */
  lemma {:induction false} SortByLenKeepsTies(xs: seq<string>, n: nat)
    ensures OfLength(SortByLenDesc(xs), n) == OfLength(xs, n)
  {
    if xs != [] {
      SortByLenKeepsTies(xs[1..], n);
      InsertByLenKeepsTies(xs[0], SortByLenDesc(xs[1..]), n);
      OfLengthCons(xs[0], SortByLenDesc(xs[1..]), n);
      OfLengthCons(xs[0], xs[1..], n);
      assert xs == [xs[0]] + xs[1..];
    }
  }

  /** The replacements `apply_protection_tokens` performs: each map value, longest first,
      replaced by the first key holding it. */
  function ProtectionPairs(m: seq<(string, string)>): (r: seq<(string, string)>)
    ensures |r| == |m|
    ensures forall i :: 0 <= i < |r| ==> r[i].0 in Values(m) && r[i].1 == FirstKeyOf(m, r[i].0)
    ensures multiset(Keys(r)) == multiset(Values(m))
    ensures NonIncreasingLen(Keys(r))
  {
    var sorted := SortByLenDesc(Values(m));
    assert |sorted| == |multiset(sorted)| == |multiset(Values(m))| == |m|;
    var r := seq(|sorted|, i requires 0 <= i < |sorted| => (sorted[i], FirstKeyOf(m, sorted[i])));
    assert Keys(r) == sorted;
    r
  }

  /** `apply_protection_tokens`. */
  method ApplyProtectionTokens(text: string, m: seq<(string, string)>) returns (r: string)
    ensures r == ReplaceAll(text, ProtectionPairs(m))
  {
    var pairs := ProtectionPairs(m);
    r := text;
    for n := 0 to |pairs|
      invariant r == ReplaceAll(text, pairs[..n])
    {
      var term := pairs[n].0;
      var token := FirstKeyOf(m, term);
      ReplaceAllStep(text, pairs, n);
      r := Replace(r, term, token);
    }
    assert pairs[..|pairs|] == pairs;
  }

  /** `apply_preservation_map`: each key, in map order, replaced by its value.  The
      shadowed `restore_preservation_map` (token to term) is the same loop. */
  method ApplyPreservationMap(text: string, m: seq<(string, string)>) returns (r: string)
    ensures r == ReplaceAll(text, m)
  {
    r := text;
    for n := 0 to |m|
      invariant r == ReplaceAll(text, m[..n])
    {
      ReplaceAllStep(text, m, n);
      r := Replace(r, m[n].0, m[n].1);
    }
    assert m[..|m|] == m;
  }

  function Swapped(m: seq<(string, string)>): (r: seq<(string, string)>)
    ensures |r| == |m|
    ensures forall i :: 0 <= i < |m| ==> r[i] == (m[i].1, m[i].0)
  {
    seq(|m|, i requires 0 <= i < |m| => (m[i].1, m[i].0))
  }

  /** `restore_preservation_map` as Python keeps it: each value, in map order, replaced
      by its key. */
  method RestorePreservationMap(text: string, m: seq<(string, string)>) returns (r: string)
    ensures r == ReplaceAll(text, Swapped(m))
  {
    var sw := Swapped(m);
    r := text;
    for n := 0 to |m|
      invariant r == ReplaceAll(text, sw[..n])
    {
      ReplaceAllStep(text, sw, n);
      r := Replace(r, m[n].1, m[n].0);
    }
    assert sw[..|m|] == sw;
  }

  /** A text in which no value of the map occurs comes back from
      `apply_protection_tokens` unchanged. */
  lemma ProtectionUnchangedWithoutValues(text: string, m: seq<(string, string)>)
    requires forall i :: 0 <= i < |m| ==> |m[i].1| > 0 && !Contains(text, m[i].1)
    ensures ReplaceAll(text, ProtectionPairs(m)) == text
  {
    var pairs := ProtectionPairs(m);
    forall k | 0 <= k < |pairs| ensures |pairs[k].0| > 0 && !Contains(text, pairs[k].0) {
      var i :| 0 <= i < |m| && Values(m)[i] == pairs[k].0;
    }
    ReplaceAllAbsent(text, pairs);
  }

  /** A placeholder-shaped value holds `__PRESERVE_`, so it is absent from a text that
      lacks that string. */
  lemma PlaceholderNeedsStem(text: string, i: nat)
    ensures Contains(text, Placeholder(PreserveStem, i)) ==> Contains(text, "__" + PreserveStem)
  {
    var pl := Placeholder(PreserveStem, i);
    if Contains(text, pl) {
      var k: nat :| k <= |text| && At(text, pl, k);
      assert text[k..k + 11] == text[k..k + |pl|][..11] == pl[..11] == "__" + PreserveStem;
      assert At(text, "__" + PreserveStem, k);
    }
  }

  /** With the map `create_preservation_map` builds (term to placeholder), the masking
      step the orchestrator runs is the identity on every text holding no `__PRESERVE_`. */
  lemma EffectiveProtectionIsIdentity(text: string, m: seq<(string, string)>)
    requires forall i :: 0 <= i < |m| ==> m[i].1 == Placeholder(PreserveStem, i)
    requires !Contains(text, "__" + PreserveStem)
    ensures ReplaceAll(text, ProtectionPairs(m)) == text
  {
    forall i | 0 <= i < |m| ensures |m[i].1| > 0 && !Contains(text, m[i].1) {
      PlaceholderNeedsStem(text, i);
    }
    ProtectionUnchangedWithoutValues(text, m);
  }

  /** With the effective map the restore step, too, leaves a text holding no
      `__PRESERVE_` unchanged, and a missing placeholder is no error. */
  lemma EffectiveRestoreIsIdentity(text: string, m: seq<(string, string)>)
    requires forall i :: 0 <= i < |m| ==> m[i].1 == Placeholder(PreserveStem, i)
    requires !Contains(text, "__" + PreserveStem)
    ensures ReplaceAll(text, Swapped(m)) == text
  {
    forall i | 0 <= i < |m| ensures |Swapped(m)[i].0| > 0 && !Contains(text, Swapped(m)[i].0) {
      PlaceholderNeedsStem(text, i);
    }
    ReplaceAllAbsent(text, Swapped(m));
  }

  /** Placeholders of distinct positions are distinct and neither occurs in the other. */
  lemma EffectivePlaceholdersApart(m: seq<(string, string)>)
    requires forall i :: 0 <= i < |m| ==> m[i].1 == Placeholder(PreserveStem, i)
    ensures forall i, j :: 0 <= i < |m| && 0 <= j < |m| && i != j ==> !Contains(m[j].1, m[i].1)
  {
    PreserveStemGood();
    forall i, j | 0 <= i < |m| && 0 <= j < |m| && i != j ensures !Contains(m[j].1, m[i].1) {
      PlaceholdersApart(PreserveStem, i, j);
    }
  }

  /** Restoring with the effective map puts term `i` back at every `__PRESERVE_i__` of a
      translation whose own text holds no underscore, provided no term holds one. */
  lemma EffectiveRestoreFillsSlots(ps: seq<Piece>, m: seq<(string, string)>)
    requires forall i :: 0 <= i < |m| ==> m[i].1 == Placeholder(PreserveStem, i)
    requires forall i :: 0 <= i < |m| ==> NoUnderscore(m[i].0)
    requires CleanLits(ps)
    ensures ReplaceAll(Render(ps, PreserveStem), Swapped(m)) ==
      Render(FillUpTo(ps, Keys(m), |m|), PreserveStem)
  {
    PreserveStemGood();
    assert Swapped(m) == RestorePairs(PreserveStem, Keys(m))[..|m|];
    RestoreRender(ps, PreserveStem, Keys(m), |m|);
  }

  /** With a single term, masking by `apply_preservation_map` and restoring gives the
      text back when neither holds an underscore. */
  lemma OneTermRoundTrip(text: string, t: string)
    requires |t| > 0 && NoUnderscore(text) && NoUnderscore(t)
    ensures var m := [(t, Placeholder(PreserveStem, 0))];
      ReplaceAll(ReplaceAll(text, m), Swapped(m)) == text
  {
    PreserveStemGood();
    var m := [(t, Placeholder(PreserveStem, 0))];
    assert m[..0] == [] && Swapped(m)[..0] == [];
    SingleTermRoundTrip(text, t, PreserveStem, 0);
  }

  /** A CVSS name without a decimal part makes the empty string a term, and
      `apply_preservation_map` then puts the placeholder between every two characters. */
  lemma EmptyTermFloodsText(text: string)
    ensures var m := [("", Placeholder(PreserveStem, 0))];
      && ReplaceAll(text, m) == Interleave(text, Placeholder(PreserveStem, 0))
      && |ReplaceAll(text, m)| == |text| + 14 * (|text| + 1)
  {
    var m := [("", Placeholder(PreserveStem, 0))];
    assert m[..0] == [];
    assert |Placeholder(PreserveStem, 0)| == 14;
  }

  /** On "1 0" the port-number pattern reports "1" and "0" and no other pattern matches. */
  function PortsOfOneZero(p: TermPattern, s: string): seq<Match> {
    if p == PortNumbers && s == "1 0" then [Match(0, "1", []), Match(2, "0", [])] else []
  }

  lemma PortTermsOfOneZero()
    ensures TermsOf(PortsOfOneZero, "1 0") == {"1", "0"}
  {
    forall t ensures t in TermsOf(PortsOfOneZero, "1 0") <==> t == "1" || t == "0" {
      ItemsOfChar(PortsOfOneZero, "1 0", |AllPatterns|, t);
      if t == "1" || t == "0" {
        var m := if t == "1" then Match(0, "1", []) else Match(2, "0", []);
        assert m in PortsOfOneZero(PortNumbers, "1 0");
        assert AllPatterns[16] == PortNumbers;
      }
    }
  }

  lemma NoZeroBeforeStem(b: string)
    ensures forall k: nat :: k < 11 ==> !At("__PRESERVE_" + b, "0", k)
  {
    var s := "__PRESERVE_" + b;
    forall k: nat | k < 11 ensures !At(s, "0", k) {
      assert s[k] != '0';
    }
  }

  lemma MaskOneZeroStep(p0: string, p1: string)
    requires p0 == Placeholder(PreserveStem, 0) && p1 == Placeholder(PreserveStem, 1)
    ensures Replace(p0 + " 0", "0", p1) == "__PRESERVE_" + (p1 + ("__ " + p1))
  {
    var tail := "0" + ("__ " + "0");
    assert p0 + " 0" == "__PRESERVE_" + tail;
    NoZeroBeforeStem(tail);
    ReplaceSkipsPrefix("__PRESERVE_", tail, "0", p1);
    ReplaceAtHead("__ " + "0", "0", p1);
    forall k: nat | k < 3 ensures !At("__ " + "0", "0", k) {
      assert ("__ " + "0")[k] != '0';
    }
    ReplaceSkipsPrefix("__ ", "0", "0", p1);
    ReplaceAtHead([], "0", p1);
    assert "0" + [] == "0";
  }

  lemma NoPlaceholderAtStem(p1: string, b: string)
    requires p1 == Placeholder(PreserveStem, 1) && |b| >= 3 && b[..3] == "__P"
    ensures forall k: nat :: k < 11 ==> !At("__PRESERVE_" + b, p1, k)
  {
    var s := "__PRESERVE_" + b;
    assert p1 == "__PRESERVE_1__";
    forall k: nat | k < 11 ensures !At(s, p1, k) {
      if k + |p1| > |s| {
      } else if k == 0 {
        assert s[11] == '_';
        assert s[k..k + |p1|][11] != p1[11];
      } else if k <= 9 {
        assert s[k + 1] != p1[1] || s[k] != p1[0];
        assert s[k..k + |p1|][0] != p1[0] || s[k..k + |p1|][1] != p1[1];
      } else {
        assert s[12] == '_';
        assert s[k..k + |p1|][2] != p1[2];
      }
    }
  }

  /** The space in "__ " keeps a placeholder from starting in the first three places. */
  lemma NoPlaceholderAtSpace(p1: string)
    requires p1 == Placeholder(PreserveStem, 1)
    ensures forall k: nat :: k < 3 ==> !At("__ " + p1, p1, k)
  {
    assert p1 == "__PRESERVE_1__";
    var s := "__ " + p1;
    forall k: nat | k < 3 ensures !At(s, p1, k) {
      assert s[2] == ' ';
      assert s[k..k + |p1|][2 - k] != p1[2 - k];
    }
  }

  lemma RestoreOneZeroStep(p1: string)
    requires p1 == Placeholder(PreserveStem, 1)
    ensures Replace("__PRESERVE_" + (p1 + ("__ " + p1)), p1, "0") == "__PRESERVE_0__ 0"
  {
    NoPlaceholderAtStem(p1, p1 + ("__ " + p1));
    ReplaceSkipsPrefix("__PRESERVE_", p1 + ("__ " + p1), p1, "0");
    ReplaceAtHead("__ " + p1, p1, "0");
    RestoreSecondCopy(p1);
    assert "__PRESERVE_" + ("0" + "__ 0") == "__PRESERVE_0__ 0";
  }

  /** The copy of the second placeholder after "__ " becomes "0". */
  lemma RestoreSecondCopy(p1: string)
    requires p1 == Placeholder(PreserveStem, 1)
    ensures Replace("__ " + p1, p1, "0") == "__ 0"
  {
    NoPlaceholderAtSpace(p1);
    ReplaceSkipsPrefix("__ ", p1, p1, "0");
    ReplaceAtHead([], p1, "0");
    assert p1 + [] == p1;
    assert "__ " + "0" == "__ 0";
  }

  /** For the terms of "1 0" listed as ["1", "0"] (one of the two orders `list(set(...))`
      may give), `apply_preservation_map` followed by `restore_preservation_map` yields
      "__PRESERVE_0__ 0": the second term is replaced inside the first placeholder. */
  lemma TwoTermRoundTripFails()
    ensures var m := [("1", Placeholder(PreserveStem, 0)), ("0", Placeholder(PreserveStem, 1))];
      ReplaceAll(ReplaceAll("1 0", m), Swapped(m)) == "__PRESERVE_0__ 0"
  {
    var p0, p1 := Placeholder(PreserveStem, 0), Placeholder(PreserveStem, 1);
    var m := [("1", p0), ("0", p1)];
    assert Swapped(m) == [(p0, "1"), (p1, "0")];
    OneZeroMasked(p0, p1);
    OneZeroRestored(p0, p1);
  }

  /** Masking "1 0": "1" becomes the first placeholder, then the "0" inside it and the
      text's own "0" both become the second. */
  lemma OneZeroMasked(p0: string, p1: string)
    requires p0 == Placeholder(PreserveStem, 0) && p1 == Placeholder(PreserveStem, 1)
    ensures ReplaceAll("1 0", [("1", p0), ("0", p1)]) == "__PRESERVE_" + (p1 + ("__ " + p1))
  {
    var m := [("1", p0), ("0", p1)];
    assert m[..1] == [("1", p0)] && m[..1][..0] == [];
    ReplaceAtHead(" 0", "1", p0);
    assert Replace(" 0", "1", p0) == " 0";
    assert "1" + " 0" == "1 0";
    assert ReplaceAll("1 0", m[..1]) == p0 + " 0";
    MaskOneZeroStep(p0, p1);
  }

  /** Restoring the masked "1 0": the first placeholder no longer occurs, and both copies
      of the second become "0". */
  lemma OneZeroRestored(p0: string, p1: string)
    requires p0 == Placeholder(PreserveStem, 0) && p1 == Placeholder(PreserveStem, 1)
    ensures ReplaceAll("__PRESERVE_" + (p1 + ("__ " + p1)), [(p0, "1"), (p1, "0")]) == "__PRESERVE_0__ 0"
  {
    var x := "__PRESERVE_" + (p1 + ("__ " + p1));
    var sw := [(p0, "1"), (p1, "0")];
    assert sw[..1] == [(p0, "1")] && sw[..1][..0] == [];
    assert p0 == "__PRESERVE_0__" && p1 == "__PRESERVE_1__";
    MissingCharNotContained(x, p0, 11);
    ReplaceAbsent(x, p0, "1");
    assert ReplaceAll(x, sw[..1]) == x;
    RestoreOneZeroStep(p1);
  }

  /** Masking by `apply_preservation_map` and restoring gives the text back for any
      number of terms, in any order, when neither the text nor a term holds an
      underscore, no term is empty and no term occurs inside a placeholder of the map. */
  lemma EffectiveRoundTrip(text: string, m: seq<(string, string)>)
    requires forall i :: 0 <= i < |m| ==> m[i].1 == Placeholder(PreserveStem, i)
    requires forall i :: 0 <= i < |m| ==> |m[i].0| > 0 && NoUnderscore(m[i].0)
    requires NoUnderscore(text)
    requires forall i, j :: 0 <= i < |m| && 0 <= j < |m| ==> !Contains(m[j].1, m[i].0)
    ensures ReplaceAll(ReplaceAll(text, m), Swapped(m)) == text
  {
    PreserveStemGood();
    assert Swapped(m) == RestorePairs(PreserveStem, Keys(m));
    PlaceholderRoundTrip(text, PreserveStem, Keys(m), m);
  }

  /** A term holding an underscore breaks the round trip even when the text holds no
      `__PRESERVE`, no term occurs inside a placeholder or inside another term: for "aX"
      with the terms "a" and "_X", the "_X" matched across the end of the first
      placeholder destroys it, and the restored text is "a_PRESERVE_1__". */
  lemma UnderscoreTermBreaksRoundTrip()
    ensures var m := [("a", Placeholder(PreserveStem, 0)), ("_X", Placeholder(PreserveStem, 1))];
      ReplaceAll(ReplaceAll("aX", m), Swapped(m)) == "a_PRESERVE_1__"
  {
    var p0, p1 := Placeholder(PreserveStem, 0), Placeholder(PreserveStem, 1);
    var m := [("a", p0), ("_X", p1)];
    assert p0 == "__PRESERVE_0__" && p1 == "__PRESERVE_1__";
    ReplaceAllTwo("aX", m);
    MaskLeadingA(p0);
    MaskAcrossClose(p0, p1);
    assert Swapped(m) == [(p0, "a"), (p1, "_X")];
    ReplaceAllTwo("__PRESERVE_0_" + p1, Swapped(m));
    RestoreBrokenPair(p0, p1);
  }

  lemma MaskLeadingA(p0: string)
    requires |p0| > 0
    ensures Replace("aX", "a", p0) == p0 + "X"
  {
    ReplaceAtHead("X", "a", p0);
    MissingCharNotContained("X", "a", 0);
    ReplaceAbsent("X", "a", p0);
    assert "a" + "X" == "aX";
  }

  /** "_X" is found only where the first placeholder's last underscore meets "X". */
  lemma MaskAcrossClose(p0: string, p1: string)
    requires p0 == "__PRESERVE_0__" && |p1| > 0
    ensures Replace(p0 + "X", "_X", p1) == "__PRESERVE_0_" + p1
  {
    var head := "__PRESERVE_0_";
    var s := head + "_X";
    assert p0 + "X" == s;
    forall k: nat | k < |head| ensures !At(s, "_X", k) {
      assert s[k..k + 2][1] == s[k + 1] != 'X';
    }
    ReplaceSkipsPrefix(head, "_X", "_X", p1);
    ReplaceAtHead([], "_X", p1);
    assert "_X" + [] == "_X" && p1 + [] == p1;
  }

  /** Restoring: the first placeholder takes the broken second one's leading underscore,
      and what is left of the second no longer matches. */
  lemma RestoreBrokenPair(p0: string, p1: string)
    requires p0 == "__PRESERVE_0__" && p1 == "__PRESERVE_1__"
    ensures Replace(Replace("__PRESERVE_0_" + p1, p0, "a"), p1, "_X") == "a_PRESERVE_1__"
  {
    var rest := "_PRESERVE_1__";
    assert "__PRESERVE_0_" + p1 == p0 + rest;
    ReplaceAtHead(rest, p0, "a");
    assert Replace(rest, p0, "a") == rest;
    var restored := "a" + rest;
    assert restored[..|p1|][0] != p1[0];
    assert Replace(restored[1..], p1, "_X") == restored[1..];
    assert [restored[0]] + restored[1..] == restored;
    assert restored == "a_PRESERVE_1__";
  }

  /** An underscore in the text breaks it too: in "bPRESERVE_0__" with the terms "a" and
      "b", the closing underscores of the placeholder for "b" complete a placeholder for
      "a", and the restored text is "__PRESERVE_1a". */
  lemma UnderscoreTextBreaksRoundTrip()
    ensures var m := [("a", Placeholder(PreserveStem, 0)), ("b", Placeholder(PreserveStem, 1))];
      ReplaceAll(ReplaceAll("bPRESERVE_0__", m), Swapped(m)) == "__PRESERVE_1a"
  {
    var p0, p1 := Placeholder(PreserveStem, 0), Placeholder(PreserveStem, 1);
    var m := [("a", p0), ("b", p1)];
    assert p0 == "__PRESERVE_0__" && p1 == "__PRESERVE_1__";
    ReplaceAllTwo("bPRESERVE_0__", m);
    MaskTextWithStem("bPRESERVE_0__", p0, p1);
    assert Swapped(m) == [(p0, "a"), (p1, "b")];
    ReplaceAllTwo("__PRESERVE_1" + p0, Swapped(m));
    RestoreFormedPlaceholder(p0, p1);
  }

  /** "a" is absent, and "b" becomes the second placeholder, whose closing underscores
      run into the text's "PRESERVE_0__". */
  lemma MaskTextWithStem(text: string, p0: string, p1: string)
    requires text == "bPRESERVE_0__"
    requires p0 == "__PRESERVE_0__" && p1 == "__PRESERVE_1__"
    ensures Replace(Replace(text, "a", p0), "b", p1) == "__PRESERVE_1" + p0
  {
    var tail := text[1..];
    MissingCharNotContained(text, "a", 0);
    ReplaceAbsent(text, "a", p0);
    assert text == "b" + tail;
    ReplaceAtHead(tail, "b", p1);
    MissingCharNotContained(tail, "b", 0);
    ReplaceAbsent(tail, "b", p1);
    assert p1 + tail == "__PRESERVE_1" + p0;
  }

  lemma RestoreFormedPlaceholder(p0: string, p1: string)
    requires p0 == "__PRESERVE_0__" && p1 == "__PRESERVE_1__"
    ensures Replace(Replace("__PRESERVE_1" + p0, p0, "a"), p1, "b") == "__PRESERVE_1a"
  {
    var head := "__PRESERVE_1";
    var s := head + p0;
    forall k: nat | k < |head| ensures !At(s, p0, k) {
      if k == 0 {
        assert s[k..k + |p0|][11] != p0[11];
      } else if k <= 9 {
        assert s[k..k + |p0|][0] != p0[0] || s[k..k + |p0|][1] != p0[1];
      } else {
        assert s[k..k + |p0|][11 - k] == s[11] == '1';
      }
    }
    ReplaceSkipsPrefix(head, p0, p0, "a");
    ReplaceAtHead([], p0, "a");
    assert p0 + [] == p0 && "a" + [] == "a";
    assert Replace(head + "a", p1, "b") == head + "a";
    assert head + "a" == "__PRESERVE_1a";
  }

  /** `verify_preservation`: every term of the original is among the translation's. */
  method VerifyPreservation(scan: Scanner, original: string, translated: string) returns (ok: bool)
    ensures ok <==> TermsOf(scan, original) <= TermsOf(scan, translated)
    ensures original == translated ==> ok
  {
    var o := ExtractTerms(scan, original);
    var t := ExtractTerms(scan, translated);
    var os, ts := Elements(o), Elements(t);
    var missing := os - ts;
    ok := |missing| == 0;
    if !(os <= ts) {
      var x :| x in os && x !in ts;
      assert x in missing;
    }
  }

  /** The original's terms split into those the translation keeps and those it lost. */
  lemma SharedAndMissing(o: set<string>, t: set<string>)
    ensures |o * t| + |o - t| == |o|
  {
    assert o == (o * t) + (o - t);
    assert (o * t) * (o - t) == {};
  }

  lemma RateBounded(a: nat, b: nat)
    requires a <= b
    ensures b > 0 ==> 0.0 <= (a as real) / (b as real) <= 1.0
  {
  }

  datatype PreservationStats = PreservationStats(
    totalOriginalTerms: nat,
    uniqueOriginalTerms: nat,
    preservedTerms: nat,
    missingTerms: nat,
    addedTerms: nat,
    preservationRate: real,
    missingTermList: seq<string>,
    addedTermList: seq<string>,
    preservedTermList: seq<string>)

  /** What the statistics of an original with term set `o` and a translation with term set
      `t` report: the counts of the intersection and the two differences, the rate of
      kept terms (1.0 when there are none), and the three term lists. */
  ghost predicate StatsMeaning(o: set<string>, t: set<string>, st: PreservationStats) {
    && st.totalOriginalTerms == st.uniqueOriginalTerms == |o|
    && st.preservedTerms == |o * t| && st.missingTerms == |o - t| && st.addedTerms == |t - o|
    && st.preservedTerms + st.missingTerms == st.uniqueOriginalTerms
    && 0.0 <= st.preservationRate <= 1.0
    && (o == {} ==> st.preservationRate == 1.0)
    && (o != {} ==> st.preservationRate == (st.preservedTerms as real) / (st.uniqueOriginalTerms as real))
    && (forall x :: x in st.missingTermList <==> x in o && x !in t)
    && (forall x :: x in st.addedTermList <==> x in t && x !in o)
    && (forall x :: x in st.preservedTermList <==> x in o && x in t)
  }

  /** `get_preservation_statistics`. */
  method PreservationStatistics(scan: Scanner, original: string, translated: string)
    returns (st: PreservationStats)
    ensures StatsMeaning(TermsOf(scan, original), TermsOf(scan, translated), st)
  {
    var originalTerms := ExtractTerms(scan, original);
    var translatedTerms := ExtractTerms(scan, translated);
    var os, ts := Elements(originalTerms), Elements(translatedTerms);
    var preserved, missing, added := os * ts, os - ts, ts - os;
    SharedAndMissing(os, ts);
    var rate := if os != {} then (|preserved| as real) / (|os| as real) else 1.0;
    RateBounded(|preserved|, |os|);
    var missingList := SetToList(missing);
    var addedList := SetToList(added);
    var preservedList := SetToList(preserved);
    st := PreservationStats(|originalTerms|, |os|, |preserved|, |missing|, |added|, rate,
      missingList, addedList, preservedList);
  }

  /** Python's `re.match(r'^...$', s)`: `$` also matches before a final newline. */
  predicate AnchoredAtEnd(s: string, shape: string -> bool) {
    shape(s) || (|s| > 0 && s[|s| - 1] == '\n' && shape(s[..|s| - 1]))
  }

  predicate AllDigits(s: string) { forall k :: 0 <= k < |s| ==> IsDigit(s[k]) }

  /** `CVE-\d{4}-\d{4,7}` ignoring case. */
  predicate CveShape(s: string) {
    && 13 <= |s| <= 16
    && Lower(s[..4]) == "cve-"
    && AllDigits(s[4..8]) && s[8] == '-' && AllDigits(s[9..])
  }

  /** `\d+(\.\d+)?`. */
  predicate DecimalShape(s: string) {
    || (|s| > 0 && AllDigits(s))
    || exists k :: 0 < k < |s| - 1 && s[k] == '.' && AllDigits(s[..k]) && AllDigits(s[k + 1..])
  }

  /** `CVSS[v]?\d+(\.\d+)?` ignoring case. */
  predicate CvssShape(s: string) {
    && |s| >= 5
    && Lower(s[..4]) == "cvss"
    && (DecimalShape(s[4..]) || (LowerChar(s[4]) == 'v' && DecimalShape(s[5..])))
  }

  function StartsWith(s: string, prefix: string): bool {
    |prefix| <= |s| && s[..|prefix|] == prefix
  }

  /** A `.` comes after the first `@`, before any second one. */
  predicate DotAfterFirstAt(term: string) {
    exists a, d :: 0 <= a < d < |term| && term[a] == '@' && term[d] == '.' &&
      '@' !in term[..a] && '@' !in term[a + 1..d]
  }

  /** Python's `'.' in term.split('@')[1]`, for a term holding an `@`, asks for a dot
      between the first `@` and the next. */
  lemma EmailSplitMeaning(term: string)
    ensures '@' in term ==> |Split(term, "@")| >= 2 && ('.' in Split(term, "@")[1] <==> DotAfterFirstAt(term))
    ensures '@' !in term ==> !DotAfterFirstAt(term)
  {
    if '@' in term {
      var a := FirstAt(term);
      var q := Split(term[a + 1..], "@")[0];
      assert Split(term, "@")[1] == q;
      if '.' in q {
        DotInSecondPart(term, a);
      } else {
        NoDotInSecondPart(term, a);
      }
    }
  }

  /** The first `@` of a term that holds one: the split cuts there. */
  lemma FirstAt(term: string) returns (a: nat)
    requires '@' in term
    ensures a < |term| && term[a] == '@' && '@' !in term[..a]
    ensures Split(term, "@") == [term[..a]] + Split(term[a + 1..], "@")
  {
    SplitHead(term, '@');
    a := |Split(term, "@")[0]|;
    var k :| 0 <= k < |term| && term[k] == '@';
    assert forall i :: 0 <= i < a ==> term[i] != '@' by {
      assert forall i :: 0 <= i < a ==> term[i] == Split(term, "@")[0][i];
    }
    assert a <= k;
    SplitAtFirst(term, '@', a);
  }

  lemma DotInSecondPart(term: string, a: nat)
    requires a < |term| && term[a] == '@' && '@' !in term[..a]
    requires '.' in Split(term[a + 1..], "@")[0]
    ensures DotAfterFirstAt(term)
  {
    var rest := term[a + 1..];
    var q := Split(rest, "@")[0];
    SplitHead(rest, '@');
    var j :| 0 <= j < |q| && q[j] == '.';
    assert term[a + 1 + j] == rest[j] == '.';
    assert term[a + 1..a + 1 + j] == q[..j];
    assert '@' !in term[a + 1..a + 1 + j];
  }

  lemma NoDotInSecondPart(term: string, a: nat)
    requires a < |term| && term[a] == '@' && '@' !in term[..a]
    requires '.' !in Split(term[a + 1..], "@")[0]
    ensures !DotAfterFirstAt(term)
  {
    var rest := term[a + 1..];
    var q := Split(rest, "@")[0];
    SplitHead(rest, '@');
    forall a', d | 0 <= a' < d < |term| && term[a'] == '@' && '@' !in term[..a'] && '@' !in term[a' + 1..d]
      ensures term[d] != '.'
    {
      assert forall i :: 0 <= i < a' ==> term[i] == term[..a'][i];
      assert forall i :: 0 <= i < a ==> term[i] == term[..a][i];
      assert a' == a;
      var j := d - a - 1;
      assert forall i :: 0 <= i < j ==> rest[i] == term[a + 1..d][i];
      assert forall i :: 0 <= i < j ==> rest[i] != '@';
      if j < |q| {
        assert term[d] == rest[j] == q[j];
      } else {
        assert term[d] == rest[|q|] == '@';
      }
    }
  }

  /** `_validate_term_format`: a CVE id or CVSS name must match its shape to the end, a
      URL must start with its scheme, an email must have a dot after its first `@` (and
      before any second one), and every other category passes. */
  function ValidateTermFormat(term: string, p: TermPattern): (ok: bool)
    ensures p == CveIds ==> (ok <==> AnchoredAtEnd(term, CveShape))
    ensures p == CvssScores ==> (ok <==> AnchoredAtEnd(term, CvssShape))
    ensures p == Urls ==> (ok <==> StartsWith(term, "http://") || StartsWith(term, "https://"))
    ensures p == Emails ==> (ok <==> DotAfterFirstAt(term))
    ensures p !in {CveIds, CvssScores, Urls, Emails} ==> ok
  {
    match p
    case CveIds => AnchoredAtEnd(term, CveShape)
    case CvssScores => AnchoredAtEnd(term, CvssShape)
    case Urls => StartsWith(term, "http://") || StartsWith(term, "https://")
    case Emails =>
      EmailSplitMeaning(term);
      '@' in term && '.' in Split(term, "@")[1]
    case _ => true
  }

  /** What `findall` hands over for a CVSS match (its group: empty or `.N`) never passes
      the CVSS format check. */
  lemma CvssItemFailsFormat(g: string)
    requires g == [] || g[0] == '.'
    ensures !ValidateTermFormat(g, CvssScores)
  {
    if |g| >= 5 {
      assert Lower(g[..4])[0] == LowerChar(g[0]) == '.';
    }
    if |g| >= 6 {
      assert Lower(g[..|g| - 1][..4])[0] == LowerChar(g[0]) == '.';
    }
  }
}
