/** Python's string primitives as the core uses them: `str.replace`, `str.strip`,
    `str.lower`, `str.split`, `str.join`, the `in` substring test and decimal rendering. */
module Text {

  /** Characters for which Python's `str.isspace()` holds; `re`'s `\s` and `str.strip()`
      use the same set. */
  predicate IsSpace(c: char) {
    ('\U{9}' <= c <= '\U{D}') || ('\U{1C}' <= c <= '\U{20}') || c == '\U{85}' || c == '\U{A0}'
    || c == '\U{1680}' || ('\U{2000}' <= c <= '\U{200A}') || c == '\U{2028}' || c == '\U{2029}'
    || c == '\U{202F}' || c == '\U{205F}' || c == '\U{3000}'
  }

  predicate IsDigit(c: char) { '0' <= c <= '9' }

  /** Every character is whitespace (Python: `not s.strip()`). */
  predicate IsBlank(s: string) { forall k :: 0 <= k < |s| ==> IsSpace(s[k]) }

  /** Python's `s.lstrip()`. */
  function LStrip(s: string): string {
    if |s| > 0 && IsSpace(s[0]) then LStrip(s[1..]) else s
  }

  /** `s.lstrip()` is a suffix of `s` that does not start with whitespace, and what it
      drops is whitespace. */
  lemma {:induction false} LStripFacts(s: string)
    ensures var r := LStrip(s);
      && |r| <= |s| && r == s[|s| - |r|..]
      && (r != [] ==> !IsSpace(r[0]))
      && IsBlank(s[..|s| - |r|])
  {
    if |s| > 0 && IsSpace(s[0]) {
      LStripFacts(s[1..]);
      var r := LStrip(s);
      assert r == LStrip(s[1..]);
      var d := s[1..][..|s[1..]| - |r|];
      assert d == s[1..|s| - |r|];
      assert s[..|s| - |r|] == [s[0]] + d;
      assert r == s[1..][|s[1..]| - |r|..] == s[|s| - |r|..];
    }
  }

  /** Python's `s.rstrip()`. */
  function RStrip(s: string): string {
    if |s| > 0 && IsSpace(s[|s| - 1]) then RStrip(s[..|s| - 1]) else s
  }

  /** `s.rstrip()` is a prefix of `s` that does not end with whitespace, and what it
      drops is whitespace. */
  lemma {:induction false} RStripFacts(s: string)
    ensures var r := RStrip(s);
      && |r| <= |s| && r == s[..|r|]
      && (r != [] ==> !IsSpace(r[|r| - 1]))
      && IsBlank(s[|r|..])
  {
    if |s| > 0 && IsSpace(s[|s| - 1]) {
      RStripFacts(s[..|s| - 1]);
      var r := RStrip(s);
      assert s[..|s| - 1][|r|..] + [s[|s| - 1]] == s[|r|..];
    }
  }

  /** Python's `s.strip()`. */
  function Strip(s: string): string {
    RStrip(LStrip(s))
  }

  /** `s.strip()` is the slice of `s` left once the whitespace at both ends is removed:
      it has none at either end, and it is empty exactly when `s` is all whitespace. */
  lemma StripFacts(s: string)
    ensures var l, r := LStrip(s), Strip(s);
      && |r| <= |l| <= |s| && r == s[|s| - |l|..|s| - |l| + |r|]
      && (r != [] ==> !IsSpace(r[0]) && !IsSpace(r[|r| - 1]))
      && (r == [] <==> IsBlank(s))
  {
    var l := LStrip(s);
    var r := RStrip(l);
    LStripFacts(s);
    RStripFacts(l);
    if r == [] {
      assert s == s[..|s| - |l|] + l;
      assert l == l[|r|..];
      assert IsBlank(s);
    } else {
      assert !IsSpace(s[|s| - |l|]);
    }
  }

  /** `w` occurs in `s` at index `k`. */
  predicate At(s: string, w: string, k: nat) {
    k + |w| <= |s| && s[k..k + |w|] == w
  }

  /** Python's `w in s`. */
  predicate Contains(s: string, w: string) {
    exists k: nat :: k <= |s| && At(s, w, k)
  }

  /** An occurrence survives text appended after it. */
  lemma ContainsExtended(s: string, w: string, tail: string)
    requires Contains(s, w)
    ensures Contains(s + tail, w)
  {
    var k: nat :| k <= |s| && At(s, w, k);
    assert (s + tail)[k..k + |w|] == s[k..k + |w|];
    assert At(s + tail, w, k);
  }

  /** A string occurs at the end of anything it is appended to. */
  lemma ContainsAppended(s: string, w: string)
    ensures Contains(s + w, w)
  {
    assert (s + w)[|s|..|s| + |w|] == w;
    assert At(s + w, w, |s|);
  }

  /** Python's `s.replace("", x)`: `x` before every character and at the end. */
  function Interleave(s: string, x: string): (r: string)
    ensures |r| == |s| + (|s| + 1) * |x|
  {
    if s == [] then x else x + [s[0]] + Interleave(s[1..], x)
  }

  /** Python's `s.replace(find, repl)`: every non-overlapping occurrence of `find`,
      found left to right, becomes `repl`. */
  function Replace(s: string, find: string, repl: string): string
    decreases |s|
  {
    if |find| == 0 then Interleave(s, repl)
    else if |s| < |find| then s
    else if s[..|find|] == find then repl + Replace(s[|find|..], find, repl)
    else [s[0]] + Replace(s[1..], find, repl)
  }

  /** A text in which the searched string does not occur comes back unchanged. */
  lemma {:induction false} ReplaceAbsent(s: string, find: string, repl: string)
    requires |find| > 0 && !Contains(s, find)
    ensures Replace(s, find, repl) == s
    decreases |s|
  {
    if |s| >= |find| {
      assert !At(s, find, 0);
      forall k: nat | At(s[1..], find, k) ensures At(s, find, k + 1) {
        assert s[k + 1..k + 1 + |find|] == s[1..][k..k + |find|];
      }
      ReplaceAbsent(s[1..], find, repl);
      assert s == [s[0]] + s[1..];
    }
  }

  /** A string holding a character that the text lacks does not occur in the text. */
  lemma MissingCharNotContained(s: string, w: string, q: nat)
    requires q < |w|
    requires forall k :: 0 <= k < |s| ==> s[k] != w[q]
    ensures !Contains(s, w)
  {
    forall k: nat | k <= |s| ensures !At(s, w, k) {
      if k + |w| <= |s| {
        assert s[k..k + |w|][q] == s[k + q] != w[q];
      }
    }
  }

  /** A prefix in which no occurrence of `find` starts is copied unchanged. */
  lemma {:induction false} ReplaceSkipsPrefix(a: string, b: string, find: string, repl: string)
    requires |find| > 0
    requires forall k: nat :: k < |a| ==> !At(a + b, find, k)
    ensures Replace(a + b, find, repl) == a + Replace(b, find, repl)
    decreases |a|
  {
    if a != [] {
      var s := a + b;
      if |s| < |find| {
        assert Replace(b, find, repl) == b;
      } else {
        assert !At(s, find, 0);
        assert s[..|find|] != find;
        assert s[1..] == a[1..] + b;
        forall k: nat | k < |a[1..]| ensures !At(a[1..] + b, find, k) {
          assert !At(s, find, k + 1);
          if k + |find| <= |a[1..] + b| {
            assert s[k + 1..k + 1 + |find|] == (a[1..] + b)[k..k + |find|];
          }
        }
        ReplaceSkipsPrefix(a[1..], b, find, repl);
        assert Replace(s, find, repl) == [s[0]] + Replace(s[1..], find, repl);
        assert a == [a[0]] + a[1..];
      }
    } else {
      assert a + b == b;
    }
  }

  /** Where no occurrence of `find` straddles the join, replacing in `a + b` replaces in
      each part. */
  lemma {:induction false} ReplaceSplit(a: string, b: string, find: string, repl: string)
    requires |find| > 0
    requires forall k: nat :: k < |a| < k + |find| ==> !At(a + b, find, k)
    ensures Replace(a + b, find, repl) == Replace(a, find, repl) + Replace(b, find, repl)
    decreases |a|
  {
    if |a| < |find| {
      ReplaceSkipsPrefix(a, b, find, repl);
    } else {
      var n := if a[..|find|] == find then |find| else 1;
      NoStraddleAfter(a, b, find, n);
      ReplaceSplit(a[n..], b, find, repl);
      ReplaceSplitStep(a, b, find, repl, n);
    }
  }

  /** One step of `ReplaceSplit`: the first step taken on `a` carries the split over
      from `a[n..]` to `a`. */
  lemma ReplaceSplitStep(a: string, b: string, find: string, repl: string, n: nat)
    requires 0 < |find| <= |a|
    requires n == if a[..|find|] == find then |find| else 1
    requires Replace(a[n..] + b, find, repl) == Replace(a[n..], find, repl) + Replace(b, find, repl)
    ensures Replace(a + b, find, repl) == Replace(a, find, repl) + Replace(b, find, repl)
  {
    ReplaceFirstStep(a, b, find, repl, n);
    var x, y, z := Replace(a[..n], find, repl), Replace(a[n..], find, repl), Replace(b, find, repl);
    assert x + (y + z) == (x + y) + z;
  }

  /** Dropping the first `n` characters keeps the join free of straddling occurrences. */
  lemma NoStraddleAfter(a: string, b: string, find: string, n: nat)
    requires n <= |a|
    requires forall k: nat :: k < |a| < k + |find| ==> !At(a + b, find, k)
    ensures forall k: nat :: k < |a[n..]| < k + |find| ==> !At(a[n..] + b, find, k)
  {
    var s := a + b;
    assert s[n..] == a[n..] + b;
    forall k: nat | k < |a[n..]| < k + |find| ensures !At(a[n..] + b, find, k) {
      assert !At(s, find, k + n);
      if k + |find| <= |a[n..] + b| {
        assert s[k + n..k + n + |find|] == (a[n..] + b)[k..k + |find|];
      }
    }
  }

  /** Where `a` is at least as long as `find`, `Replace` takes the same first step on `a`
      and on `a + b`. */
  lemma ReplaceFirstStep(a: string, b: string, find: string, repl: string, n: nat)
    requires 0 < |find| <= |a|
    requires n == if a[..|find|] == find then |find| else 1
    ensures Replace(a + b, find, repl) == Replace(a[..n], find, repl) + Replace(a[n..] + b, find, repl)
    ensures Replace(a, find, repl) == Replace(a[..n], find, repl) + Replace(a[n..], find, repl)
  {
    var s := a + b;
    assert s[..|find|] == a[..|find|];
    assert s[n..] == a[n..] + b;
    if a[..|find|] == find {
      assert a[..n] == find + [];
      ReplaceAtHead([], find, repl);
      assert repl + [] == repl;
    } else {
      assert Replace(a[..n], find, repl) == [a[0]];
    }
  }

  /** A text that starts with `find` has its first occurrence replaced there. */
  lemma ReplaceAtHead(b: string, find: string, repl: string)
    requires |find| > 0
    ensures Replace(find + b, find, repl) == repl + Replace(b, find, repl)
  {
    assert (find + b)[..|find|] == find;
    assert (find + b)[|find|..] == b;
  }

  /** The loop `for old, new in pairs: s = s.replace(old, new)`, pair by pair in order. */
  function ReplaceAll(s: string, pairs: seq<(string, string)>): string {
    if pairs == [] then s
    else Replace(ReplaceAll(s, pairs[..|pairs| - 1]), pairs[|pairs| - 1].0, pairs[|pairs| - 1].1)
  }

  /** One more replacement extends the prefix of pairs already applied. */
  lemma ReplaceAllStep(s: string, pairs: seq<(string, string)>, n: nat)
    requires n < |pairs|
    ensures ReplaceAll(s, pairs[..n + 1]) == Replace(ReplaceAll(s, pairs[..n]), pairs[n].0, pairs[n].1)
  {
    assert pairs[..n + 1][..n] == pairs[..n];
  }

  /** Two replacements in order. */
  lemma ReplaceAllTwo(s: string, pairs: seq<(string, string)>)
    requires |pairs| == 2
    ensures ReplaceAll(s, pairs) == Replace(Replace(s, pairs[0].0, pairs[0].1), pairs[1].0, pairs[1].1)
  {
    assert pairs[..0] == [] && pairs[..2] == pairs;
    ReplaceAllStep(s, pairs, 0);
    ReplaceAllStep(s, pairs, 1);
  }

  /** Replacements of strings that do not occur leave the text as it is. */
  lemma {:induction false} ReplaceAllAbsent(s: string, pairs: seq<(string, string)>)
    requires forall k :: 0 <= k < |pairs| ==> |pairs[k].0| > 0 && !Contains(s, pairs[k].0)
    ensures ReplaceAll(s, pairs) == s
  {
    if pairs != [] {
      ReplaceAllAbsent(s, pairs[..|pairs| - 1]);
      ReplaceAbsent(s, pairs[|pairs| - 1].0, pairs[|pairs| - 1].1);
    }
  }

  /** Decimal digit `d` as a character. */
  function DigitChar(d: nat): (c: char)
    requires d < 10
    ensures IsDigit(c)
  {
    (48 + d) as char
  }

  /** Python's `str(n)` for a natural number. */
  function NatToString(n: nat): (r: string)
    ensures |r| > 0
    ensures forall k :: 0 <= k < |r| ==> IsDigit(r[k])
    ensures n < 10 <==> |r| == 1
    ensures r[0] == '0' <==> n == 0
  {
    if n < 10 then [DigitChar(n)] else NatToString(n / 10) + [DigitChar(n % 10)]
  }

  /** Distinct numbers render as distinct strings. */
  lemma {:induction false} NatToStringInjective(a: nat, b: nat)
    requires NatToString(a) == NatToString(b)
    ensures a == b
  {
    if a >= 10 && b >= 10 {
      var sa, sb := NatToString(a), NatToString(b);
      assert sa[|sa| - 1] == sb[|sb| - 1];
      assert sa[..|sa| - 1] == NatToString(a / 10);
      assert sb[..|sb| - 1] == NatToString(b / 10);
      NatToStringInjective(a / 10, b / 10);
    }
  }

  /** Python's `f"{n:04d}"`: zero-padded to at least four digits. */
  function ZeroPad4(n: nat): (r: string)
    ensures |r| >= 4
    ensures forall k :: 0 <= k < |r| ==> IsDigit(r[k])
  {
    var d := NatToString(n);
    if |d| >= 4 then d else seq(4 - |d|, _ => '0') + d
  }

  /** Leading zeros dropped, keeping at least one digit. */
  function Unpad(s: string): (r: string)
    ensures |r| <= |s|
  {
    if |s| > 1 && s[0] == '0' then Unpad(s[1..]) else s
  }

  lemma {:induction false} UnpadZeros(z: nat, d: string)
    requires |d| > 0 && (d[0] == '0' ==> |d| == 1)
    ensures Unpad(seq(z, _ => '0') + d) == d
  {
    if z > 0 {
      var s := seq(z, _ => '0') + d;
      assert s[1..] == seq(z - 1, _ => '0') + d;
      UnpadZeros(z - 1, d);
    }
  }

  /** The padding is only leading zeros: stripping them gives back `str(n)`. */
  lemma ZeroPad4Unpads(n: nat)
    ensures Unpad(ZeroPad4(n)) == NatToString(n)
  {
    var d := NatToString(n);
    if |d| >= 4 {
      UnpadZeros(0, d);
      assert seq(0, _ => '0') + d == d;
    } else {
      UnpadZeros(4 - |d|, d);
    }
  }

  function LowerChar(c: char): char {
    if 'A' <= c <= 'Z' then (c as int + 32) as char else c
  }

  /** Python's `s.lower()` on ASCII letters. */
  function Lower(s: string): (r: string)
    ensures |r| == |s|
  {
    seq(|s|, k requires 0 <= k < |s| => LowerChar(s[k]))
  }

  /** Python's `s.split(sep)` for a non-empty separator. */
  function Split(s: string, sep: string): (r: seq<string>)
    requires |sep| > 0
    ensures |r| > 0
    decreases |s|
  {
    if |s| < |sep| then [s]
    else if s[..|sep|] == sep then [""] + Split(s[|sep|..], sep)
    else
      var rest := Split(s[1..], sep);
      [[s[0]] + rest[0]] + rest[1..]
  }

  /** Splitting at a character the string holds gives at least two parts. */
  lemma {:induction false} SplitAtPresentChar(s: string, c: char)
    requires c in s
    ensures |Split(s, [c])| >= 2
    decreases |s|
  {
    if s[..1] != [c] {
      assert s[0] != c;
      assert c in s[1..];
      SplitAtPresentChar(s[1..], c);
    }
  }

  /** The first part of a split at a character is the longest prefix without it. */
  lemma {:induction false} SplitHead(s: string, c: char)
    ensures var h := Split(s, [c])[0];
      |h| <= |s| && h == s[..|h|] && c !in h && (|h| < |s| ==> s[|h|] == c)
    decreases |s|
  {
    if |s| >= 1 && s[..1] != [c] {
      SplitHead(s[1..], c);
      var h := Split(s[1..], [c])[0];
      assert Split(s, [c])[0] == [s[0]] + h;
      assert s[..|h| + 1] == [s[0]] + s[1..][..|h|];
    }
  }

  /** Splitting at a character cuts at its first occurrence, then splits the rest. */
  lemma {:induction false} SplitAtFirst(s: string, c: char, a: nat)
    requires a < |s| && s[a] == c && c !in s[..a]
    ensures Split(s, [c]) == [s[..a]] + Split(s[a + 1..], [c])
    decreases a
  {
    if a == 0 {
      assert s[..1] == [c];
    } else {
      assert s[0] == s[..a][0] != c;
      assert s[..1] != [c];
      assert s[1..][..a - 1] == s[1..a];
      assert c !in s[1..][..a - 1];
      SplitAtFirst(s[1..], c, a - 1);
      assert s[1..][a..] == s[a + 1..];
      assert [s[0]] + s[1..a] == s[..a];
    }
  }

  /** Python's `sep.join(parts)`. */
  function Join(parts: seq<string>, sep: string): string {
    if parts == [] then ""
    else if |parts| == 1 then parts[0]
    else parts[0] + sep + Join(parts[1..], sep)
  }
}
