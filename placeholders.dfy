/** Placeholder tokens of the form `__<stem><n>__` and what `str.replace` does to them.

    A text that carries placeholders is seen as a sequence of pieces: literal runs and
    placeholder slots.  As long as the literal runs hold no underscore, replacing one
    placeholder by a value touches exactly the slots carrying that placeholder, and
    nothing else; this is the fact behind every restore step of the translation code. */
module Placeholders {
  import opened Text

  datatype Piece = Lit(s: string) | Hole(i: nat)

  predicate NoUnderscore(s: string) { forall k :: 0 <= k < |s| ==> s[k] != '_' }

  /** `p` is the position of the first underscore of `w`. */
  predicate FirstUnderscoreAt(w: string, p: nat) {
    p < |w| && w[p] == '_' && NoUnderscore(w[..p])
  }

  /** A stem such as `PRESERVE_` or `TECH_TERM_`: it does not start with an underscore,
      it holds one, and it never holds two in a row. */
  predicate GoodStem(w: string) {
    && |w| > 0
    && w[0] != '_'
    && (exists p: nat :: p < |w| && FirstUnderscoreAt(w, p))
    && forall p :: 0 <= p < |w| - 1 ==> !(w[p] == '_' && w[p + 1] == '_')
  }

  /** Python's `f"__{stem}{i}__"`. */
  function Placeholder(w: string, i: nat): (r: string)
    ensures |r| == |w| + |NatToString(i)| + 4
    ensures r[0] == '_' && r[1] == '_'
  {
    "__" + w + NatToString(i) + "__"
  }

  function PieceText(p: Piece, w: string): string {
    match p
    case Lit(s) => s
    case Hole(i) => Placeholder(w, i)
  }

  /** The text the pieces stand for. */
  function Render(ps: seq<Piece>, w: string): string {
    if ps == [] then "" else PieceText(ps[0], w) + Render(ps[1..], w)
  }

  predicate CleanLits(ps: seq<Piece>) {
    forall k :: 0 <= k < |ps| ==> ps[k].Lit? ==> NoUnderscore(ps[k].s)
  }

  /** Slot `i` filled with `x`. */
  function Fill(ps: seq<Piece>, i: nat, x: string): (r: seq<Piece>)
    ensures |r| == |ps|
    ensures forall k :: 0 <= k < |ps| ==> r[k] == if ps[k] == Hole(i) then Lit(x) else ps[k]
  {
    if ps == [] then [] else [if ps[0] == Hole(i) then Lit(x) else ps[0]] + Fill(ps[1..], i, x)
  }

  /** A piece once slots `0 .. n-1` are filled: a slot below `n` becomes its value. */
  function Restored(p: Piece, xs: seq<string>, n: nat): Piece
    requires n <= |xs|
  {
    match p
    case Hole(i) => if i < n then Lit(xs[i]) else p
    case Lit(_) => p
  }

  /** Slots `0 .. n-1` filled with the corresponding values. */
  function FillUpTo(ps: seq<Piece>, xs: seq<string>, n: nat): (r: seq<Piece>)
    requires n <= |xs|
    ensures |r| == |ps|
    ensures forall k :: 0 <= k < |ps| ==> r[k] == Restored(ps[k], xs, n)
  {
    seq(|ps|, k requires 0 <= k < |ps| => Restored(ps[k], xs, n))
  }

  /** Filling the slots one number at a time, in order, fills them all. */
  lemma FillUpToStep(ps: seq<Piece>, xs: seq<string>, n: nat)
    requires 0 < n <= |xs|
    ensures FillUpTo(ps, xs, n) == Fill(FillUpTo(ps, xs, n - 1), n - 1, xs[n - 1])
  {
    var a, b := FillUpTo(ps, xs, n), Fill(FillUpTo(ps, xs, n - 1), n - 1, xs[n - 1]);
    forall k | 0 <= k < |ps| ensures a[k] == b[k] {
      match ps[k]
      case Hole(i) =>
      case Lit(_) =>
    }
  }

  /** Rendering is piecewise. */
  lemma {:induction false} RenderAppend(a: seq<Piece>, b: seq<Piece>, w: string)
    ensures Render(a + b, w) == Render(a, w) + Render(b, w)
  {
    if a != [] {
      assert (a + b)[1..] == a[1..] + b;
      RenderAppend(a[1..], b, w);
    } else {
      assert a + b == b;
    }
  }

  /** Filling slots is piecewise. */
  lemma FillUpToAppend(a: seq<Piece>, b: seq<Piece>, xs: seq<string>, n: nat)
    requires n <= |xs|
    ensures FillUpTo(a + b, xs, n) == FillUpTo(a, xs, n) + FillUpTo(b, xs, n)
  {
    var l, r := FillUpTo(a + b, xs, n), FillUpTo(a, xs, n) + FillUpTo(b, xs, n);
    forall k | 0 <= k < |l| ensures l[k] == r[k] {
      if k >= |a| {
        assert (a + b)[k] == b[k - |a|];
      }
    }
  }

  /** The pairs `(f"__{w}{i}__", xs[i])` in index order. */
  function RestorePairs(w: string, xs: seq<string>): (r: seq<(string, string)>)
    ensures |r| == |xs|
    ensures forall i :: 0 <= i < |xs| ==> r[i] == (Placeholder(w, i), xs[i])
  {
    seq(|xs|, i requires 0 <= i < |xs| => (Placeholder(w, i), xs[i]))
  }

  /** Where the stem, the digits and the underscores of a placeholder sit. */
  lemma PlaceholderChars(w: string, i: nat)
    ensures var pl, d := Placeholder(w, i), NatToString(i);
      && pl[0] == '_' && pl[1] == '_'
      && (forall q :: 0 <= q < |w| ==> pl[2 + q] == w[q])
      && (forall q :: 0 <= q < |d| ==> pl[2 + |w| + q] == d[q])
      && pl[|pl| - 2] == '_' && pl[|pl| - 1] == '_'
  {
  }

  /** The first underscore of `r`, if any, is followed by another one. */
  predicate PairedUnderscores(r: string) {
    forall p :: 0 <= p < |r| && r[p] == '_' && NoUnderscore(r[..p]) ==> p + 1 < |r| && r[p + 1] == '_'
  }

  /** A text that opens with two underscores has them paired. */
  lemma PairedAfterOpen(a: string, b: string)
    requires |a| >= 2 && a[0] == '_' && a[1] == '_'
    ensures PairedUnderscores(a + b)
  {
    var r := a + b;
    forall p | 0 < p <= |r| ensures !NoUnderscore(r[..p]) {
      assert r[..p][0] == r[0];
    }
  }

  /** A run without underscores in front keeps a text's underscores paired. */
  lemma PairedAfterClean(a: string, b: string)
    requires NoUnderscore(a) && PairedUnderscores(b)
    ensures PairedUnderscores(a + b)
  {
    var r := a + b;
    assert forall p :: 0 <= p < |a| ==> r[p] != '_';
    forall p | 0 <= p < |r| && r[p] == '_' && NoUnderscore(r[..p]) ensures p + 1 < |r| && r[p + 1] == '_' {
      var q := p - |a|;
      assert r[p] == b[q];
      forall k | 0 <= k < q ensures b[..q][k] != '_' {
        assert b[..q][k] == r[..p][k + |a|];
      }
      assert r[p + 1] == b[q + 1];
    }
  }

  lemma CleanTail(ps: seq<Piece>)
    requires ps != [] && CleanLits(ps)
    ensures CleanLits(ps[1..])
  {
    forall k | 0 <= k < |ps[1..]| && ps[1..][k].Lit? ensures NoUnderscore(ps[1..][k].s) {
      assert ps[1..][k] == ps[k + 1];
    }
  }

  /** In a rendered text the first underscore is the start of a placeholder, so another
      underscore follows it. */
  lemma {:induction false} RenderPaired(ps: seq<Piece>, w: string)
    requires CleanLits(ps)
    ensures PairedUnderscores(Render(ps, w))
  {
    if ps != [] {
      CleanTail(ps);
      RenderPaired(ps[1..], w);
      match ps[0]
      case Lit(s) =>
        assert NoUnderscore(s) by { assert ps[0].Lit?; }
        PairedAfterClean(s, Render(ps[1..], w));
      case Hole(j) =>
        PairedAfterOpen(Placeholder(w, j), Render(ps[1..], w));
    }
  }

  /** Two placeholders with different numbers first differ in their digits. */
  lemma DigitsMismatch(w: string, i: nat, j: nat) returns (e: nat)
    requires i != j
    ensures var pi, pj := Placeholder(w, i), Placeholder(w, j);
      e < |pi| && e < |pj| && pi[e] != pj[e]
  {
    var pi, pj := Placeholder(w, i), Placeholder(w, j);
    var di, dj := NatToString(i), NatToString(j);
    var m := |w|;
    PlaceholderChars(w, i);
    PlaceholderChars(w, j);
    if |di| < |dj| {
      e := 2 + m + |di|;
      assert pj[e] == dj[|di|];
      assert IsDigit(dj[|di|]);
    } else if |dj| < |di| {
      e := 2 + m + |dj|;
      assert pi[e] == di[|dj|];
      assert IsDigit(di[|dj|]);
    } else {
      if di == dj {
        NatToStringInjective(i, j);
        assert false;
      }
      var q :| 0 <= q < |di| && di[q] != dj[q];
      e := 2 + m + q;
    }
  }

  /** An occurrence of a placeholder cannot start at the second character of another, nor
      among its stem and digits. */
  lemma MismatchInside(w: string, i: nat, j: nat, k: nat) returns (e: nat)
    requires GoodStem(w)
    requires 1 <= k <= |Placeholder(w, j)| - 3
    ensures e < 2 && k + e < |Placeholder(w, j)|
    ensures Placeholder(w, j)[k + e] != Placeholder(w, i)[e]
  {
    var pj, pi, dj := Placeholder(w, j), Placeholder(w, i), NatToString(j);
    var m := |w|;
    PlaceholderChars(w, i);
    PlaceholderChars(w, j);
    if k == 1 {
      e := 1;
      assert pj[2] == w[0];
    } else if k - 2 >= m {
      e := 0;
      assert pj[k] == dj[k - 2 - m];
      assert IsDigit(dj[k - 2 - m]);
    } else if w[k - 2] != '_' {
      e := 0;
      assert pj[k] == w[k - 2];
    } else if k - 1 < m {
      e := 1;
      assert pj[k + 1] == w[k - 1];
      assert !(w[k - 2] == '_' && w[k - 1] == '_');
    } else {
      e := 1;
      assert pj[k + 1] == dj[0];
      assert IsDigit(dj[0]);
    }
  }

  /** An occurrence of placeholder `i` cannot start at the last underscore of another
      placeholder, whatever text with paired underscores follows. */
  lemma MismatchAtLast(w: string, i: nat, r: string) returns (e: nat)
    requires GoodStem(w) && PairedUnderscores(r)
    requires |Placeholder(w, i)| - 1 <= |r|
    ensures 1 <= e < |Placeholder(w, i)|
    ensures r[e - 1] != Placeholder(w, i)[e]
  {
    PlaceholderChars(w, i);
    if r[0] != '_' {
      e := 1;
    } else {
      assert NoUnderscore(r[..0]);
      e := 2;
    }
  }

  /** An occurrence of placeholder `i` cannot start at the closing underscores of
      another placeholder, whatever text with paired underscores follows. */
  lemma MismatchAtClose(w: string, i: nat, r: string) returns (e: nat)
    requires GoodStem(w) && PairedUnderscores(r)
    requires |Placeholder(w, i)| - 2 <= |r|
    ensures 2 <= e < |Placeholder(w, i)|
    ensures r[e - 2] != Placeholder(w, i)[e]
  {
    var pi, di := Placeholder(w, i), NatToString(i);
    var m := |w|;
    PlaceholderChars(w, i);
    var p: nat :| p < m && FirstUnderscoreAt(w, p);
    if exists q :: 0 <= q <= p && r[q] != w[q] {
      var q :| 0 <= q <= p && r[q] != w[q];
      e := q + 2;
    } else {
      forall q | 0 <= q < p ensures r[..p][q] != '_' {
        assert w[..p][q] == w[q];
      }
      assert r[p] == '_';
      e := p + 3;
      if p + 1 < m {
        assert !(w[p] == '_' && w[p + 1] == '_');
      } else {
        assert pi[e] == di[0];
        assert IsDigit(di[0]);
      }
    }
  }

  /** An occurrence of placeholder `i` cannot start inside a different placeholder `j`,
      whatever text with paired underscores follows it. */
  lemma ForeignNoMatch(w: string, i: nat, j: nat, r: string, k: nat)
    requires GoodStem(w) && PairedUnderscores(r) && i != j
    requires k < |Placeholder(w, j)|
    ensures !At(Placeholder(w, j) + r, Placeholder(w, i), k)
  {
    var pj, pi := Placeholder(w, j), Placeholder(w, i);
    var t := pj + r;
    var n := |pj|;
    if k + |pi| <= |t| {
      var e: nat;
      if k == 0 {
        e := DigitsMismatch(w, i, j);
        assert t[e] == pj[e];
      } else if k <= n - 3 {
        e := MismatchInside(w, i, j, k);
        assert t[k + e] == pj[k + e];
      } else if k == n - 2 {
        e := MismatchAtClose(w, i, r);
        assert t[k + e] == r[e - 2];
      } else {
        e := MismatchAtLast(w, i, r);
        assert t[k + e] == r[e - 1];
      }
      assert t[k..k + |pi|][e] != pi[e];
    }
  }

  /** Replacing placeholder `i` in a rendered text fills exactly the slots `Hole(i)`. */
  lemma {:induction false} ReplaceRender(ps: seq<Piece>, w: string, i: nat, x: string)
    requires GoodStem(w) && CleanLits(ps)
    ensures Replace(Render(ps, w), Placeholder(w, i), x) == Render(Fill(ps, i, x), w)
  {
    var pi := Placeholder(w, i);
    if ps != [] {
      var rest := Render(ps[1..], w);
      CleanTail(ps);
      ReplaceRender(ps[1..], w, i, x);
      var f := Fill(ps, i, x);
      assert f[1..] == Fill(ps[1..], i, x);
      assert Render(f, w) == PieceText(f[0], w) + Render(Fill(ps[1..], i, x), w);
      match ps[0]
      case Lit(s) =>
        forall k: nat | k < |s| ensures !At(s + rest, pi, k) {
          assert (s + rest)[k] == s[k];
        }
        ReplaceSkipsPrefix(s, rest, pi, x);
      case Hole(j) =>
        if j == i {
          ReplaceAtHead(rest, pi, x);
        } else {
          RenderPaired(ps[1..], w);
          forall k: nat | k < |Placeholder(w, j)| ensures !At(Placeholder(w, j) + rest, pi, k) {
            ForeignNoMatch(w, i, j, rest, k);
          }
          ReplaceSkipsPrefix(Placeholder(w, j), rest, pi, x);
        }
    }
  }

  lemma FillClean(ps: seq<Piece>, i: nat, x: string)
    requires CleanLits(ps) && NoUnderscore(x)
    ensures CleanLits(Fill(ps, i, x))
  {
  }

  /** Restoring placeholders `0 .. n-1` in turn fills their slots with the given values,
      provided neither the literal runs nor the values hold an underscore; a placeholder
      with a higher number is left in place. */
  lemma {:induction false} RestoreRender(ps: seq<Piece>, w: string, xs: seq<string>, n: nat)
    requires GoodStem(w) && CleanLits(ps) && n <= |xs|
    requires forall k :: 0 <= k < |xs| ==> NoUnderscore(xs[k])
    ensures CleanLits(FillUpTo(ps, xs, n))
    ensures ReplaceAll(Render(ps, w), RestorePairs(w, xs)[..n]) == Render(FillUpTo(ps, xs, n), w)
  {
    if n > 0 {
      var pairs, before := RestorePairs(w, xs), FillUpTo(ps, xs, n - 1);
      RestoreRender(ps, w, xs, n - 1);
      FillUpToStep(ps, xs, n);
      ReplaceAllStep(Render(ps, w), pairs, n - 1);
      assert pairs[n - 1] == (Placeholder(w, n - 1), xs[n - 1]);
      ReplaceRender(before, w, n - 1, xs[n - 1]);
      FillClean(before, n - 1, xs[n - 1]);
    } else {
      assert FillUpTo(ps, xs, 0) == ps;
    }
  }

  /** The pieces of `s` after `s.replace(t, placeholder i)`: occurrences of `t`, found left
      to right without overlap, become slots. */
  function Carve(s: string, t: string, i: nat): seq<Piece>
    requires |t| > 0
    decreases |s|
  {
    if |s| < |t| then [Lit(s)]
    else if s[..|t|] == t then [Hole(i)] + Carve(s[|t|..], t, i)
    else [Lit([s[0]])] + Carve(s[1..], t, i)
  }

  /** Replacing `t` by placeholder `i` renders the carved pieces. */
  lemma {:induction false} CarveReplace(s: string, t: string, w: string, i: nat)
    requires |t| > 0
    ensures Replace(s, t, Placeholder(w, i)) == Render(Carve(s, t, i), w)
    decreases |s|
  {
    if |s| < |t| {
      assert Render(Carve(s, t, i), w) == s + Render([], w);
    } else if s[..|t|] == t {
      CarveReplace(s[|t|..], t, w, i);
      assert Carve(s, t, i)[1..] == Carve(s[|t|..], t, i);
    } else {
      CarveReplace(s[1..], t, w, i);
      assert Carve(s, t, i)[1..] == Carve(s[1..], t, i);
    }
  }

  /** The literal pieces of a carved text hold only characters of the text. */
  lemma {:induction false} CarveClean(s: string, t: string, i: nat)
    requires |t| > 0 && NoUnderscore(s)
    ensures CleanLits(Carve(s, t, i))
    decreases |s|
  {
    var c := Carve(s, t, i);
    if |s| >= |t| {
      var n := if s[..|t|] == t then |t| else 1;
      CarveClean(s[n..], t, i);
      assert c[1..] == Carve(s[n..], t, i);
      forall k | 0 <= k < |c| && c[k].Lit? ensures NoUnderscore(c[k].s) {
        if k > 0 {
          assert c[k] == c[1..][k - 1];
        }
      }
    }
  }

  /** Putting `t` back into the slots of the carved pieces renders the text itself. */
  lemma {:induction false} CarveFill(s: string, t: string, w: string, i: nat)
    requires |t| > 0
    ensures Render(Fill(Carve(s, t, i), i, t), w) == s
    decreases |s|
  {
    var c := Carve(s, t, i);
    var f := Fill(c, i, t);
    if |s| < |t| {
      assert Render(f, w) == s + Render([], w);
    } else {
      var n := if s[..|t|] == t then |t| else 1;
      CarveFill(s[n..], t, w, i);
      assert c[1..] == Carve(s[n..], t, i);
      assert f[1..] == Fill(Carve(s[n..], t, i), i, t);
      assert s == s[..n] + s[n..];
    }
  }

  /** One term with no underscore, in a text with no underscore, survives being replaced
      by placeholder `i` and put back. */
  lemma SingleTermRoundTrip(s: string, t: string, w: string, i: nat)
    requires GoodStem(w) && |t| > 0
    requires NoUnderscore(s) && NoUnderscore(t)
    ensures Replace(Replace(s, t, Placeholder(w, i)), Placeholder(w, i), t) == s
  {
    CarveReplace(s, t, w, i);
    CarveClean(s, t, i);
    CarveFill(s, t, w, i);
    ReplaceRender(Carve(s, t, i), w, i, t);
  }

  /** Distinct numbers give placeholders neither of which occurs inside the other. */
  lemma PlaceholdersApart(w: string, i: nat, j: nat)
    requires GoodStem(w) && i != j
    ensures !Contains(Placeholder(w, j), Placeholder(w, i))
  {
    assert Placeholder(w, j) + [] == Placeholder(w, j);
    forall k: nat | k <= |Placeholder(w, j)| ensures !At(Placeholder(w, j), Placeholder(w, i), k) {
      if k < |Placeholder(w, j)| {
        ForeignNoMatch(w, i, j, [], k);
      }
    }
  }

  /** Every slot of `ps` has a number below `n`. */
  predicate HolesBelow(ps: seq<Piece>, n: nat) {
    forall k :: 0 <= k < |ps| ==> ps[k].Hole? ==> ps[k].i < n
  }

  /** `t` occurs inside no placeholder standing for a slot of `ps`. */
  predicate HolesAvoid(ps: seq<Piece>, w: string, t: string) {
    forall k :: 0 <= k < |ps| ==> ps[k].Hole? ==> !Contains(Placeholder(w, ps[k].i), t)
  }

  /** The pieces of `pre + Render(ps)` after `t` is replaced by placeholder `i`: each run
      of literal text between two slots is carved as a whole, the slots are kept. */
  function CarveFrom(pre: string, ps: seq<Piece>, t: string, i: nat): seq<Piece>
    requires |t| > 0
    decreases |ps|
  {
    if ps == [] then Carve(pre, t, i)
    else match ps[0]
      case Lit(s) => CarveFrom(pre + s, ps[1..], t, i)
      case Hole(j) => Carve(pre, t, i) + [Hole(j)] + CarveFrom("", ps[1..], t, i)
  }

  lemma PlaceholderLast(w: string, i: nat)
    ensures Placeholder(w, i)[|Placeholder(w, i)| - 1] == '_'
  {
  }

  /** An underscore-free `t` absent from a text opening and closing with an underscore
      matches neither across it nor inside it. */
  lemma ReplaceAroundSlot(pre: string, pj: string, rest: string, t: string, repl: string)
    requires |t| > 0 && NoUnderscore(t) && !Contains(pj, t)
    requires |pj| > 0 && pj[0] == '_' && pj[|pj| - 1] == '_'
    ensures Replace(pre + (pj + rest), t, repl) == Replace(pre, t, repl) + (pj + Replace(rest, t, repl))
  {
    var tail := pj + rest;
    forall k: nat | k < |pre| < k + |t| ensures !At(pre + tail, t, k) {
      if k + |t| <= |pre + tail| {
        assert (pre + tail)[k..k + |t|][|pre| - k] == tail[0] == '_';
      }
    }
    ReplaceSplit(pre, tail, t, repl);
    forall k: nat | k < |pj| ensures !At(pj + rest, t, k) {
      if k + |t| <= |pj| {
        assert (pj + rest)[k..k + |t|] == pj[k..k + |t|];
        assert !At(pj, t, k);
      } else if k + |t| <= |pj + rest| {
        assert (pj + rest)[k..k + |t|][|pj| - 1 - k] == pj[|pj| - 1] == '_';
      }
    }
    ReplaceSkipsPrefix(pj, rest, t, repl);
  }

  /** The slot case of `CarveFromReplace`. */
  lemma CarveAroundSlot(pre: string, j: nat, ps: seq<Piece>, t: string, w: string, i: nat)
    requires |t| > 0 && NoUnderscore(t) && !Contains(Placeholder(w, j), t)
    requires Replace(Render(ps, w), t, Placeholder(w, i)) == Render(CarveFrom("", ps, t, i), w)
    ensures Replace(pre + (Placeholder(w, j) + Render(ps, w)), t, Placeholder(w, i)) ==
      Render(Carve(pre, t, i) + [Hole(j)] + CarveFrom("", ps, t, i), w)
  {
    var pj, rest, pi := Placeholder(w, j), Render(ps, w), Placeholder(w, i);
    PlaceholderLast(w, j);
    ReplaceAroundSlot(pre, pj, rest, t, pi);
    CarveReplace(pre, t, w, i);
    RenderAround(Carve(pre, t, i), Hole(j), CarveFrom("", ps, t, i), w);
  }

  lemma RenderAround(c: seq<Piece>, p: Piece, r: seq<Piece>, w: string)
    ensures Render(c + [p] + r, w) == Render(c, w) + (PieceText(p, w) + Render(r, w))
  {
    assert Render([p], w) == PieceText(p, w) + Render([], w);
    RenderAppend(c, [p], w);
    RenderAppend(c + [p], r, w);
  }

  /** An underscore-free `t` found nowhere inside the placeholders of the slots is
      replaced in the literal runs only: the slots stay as they are. */
  lemma {:induction false} CarveFromReplace(pre: string, ps: seq<Piece>, t: string, w: string, i: nat)
    requires |t| > 0 && NoUnderscore(t) && HolesAvoid(ps, w, t)
    ensures Replace(pre + Render(ps, w), t, Placeholder(w, i)) == Render(CarveFrom(pre, ps, t, i), w)
    decreases |ps|
  {
    var pi := Placeholder(w, i);
    if ps == [] {
      assert pre + Render(ps, w) == pre;
      CarveReplace(pre, t, w, i);
    } else {
      var rest := Render(ps[1..], w);
      assert Render(ps, w) == PieceText(ps[0], w) + rest;
      assert HolesAvoid(ps[1..], w, t) by {
        forall k | 0 <= k < |ps[1..]| && ps[1..][k].Hole? ensures !Contains(Placeholder(w, ps[1..][k].i), t) {
          assert ps[1..][k] == ps[k + 1];
        }
      }
      if ps[0].Lit? {
        var s := ps[0].s;
        assert pre + Render(ps, w) == (pre + s) + rest;
        assert CarveFrom(pre, ps, t, i) == CarveFrom(pre + s, ps[1..], t, i);
        CarveFromReplace(pre + s, ps[1..], t, w, i);
      } else {
        var j := ps[0].i;
        assert !Contains(Placeholder(w, j), t);
        assert pre + Render(ps, w) == pre + (Placeholder(w, j) + rest);
        assert "" + rest == rest;
        CarveFromReplace("", ps[1..], t, w, i);
        CarveAroundSlot(pre, j, ps[1..], t, w, i);
      }
    }
  }

  /** The slots of carved text are all number `i`. */
  lemma {:induction false} CarveHoles(s: string, t: string, i: nat)
    requires |t| > 0
    ensures forall k :: 0 <= k < |Carve(s, t, i)| ==> Carve(s, t, i)[k].Hole? ==> Carve(s, t, i)[k].i == i
    decreases |s|
  {
    var c := Carve(s, t, i);
    if |s| >= |t| {
      var n := if s[..|t|] == t then |t| else 1;
      CarveHoles(s[n..], t, i);
      assert c[1..] == Carve(s[n..], t, i);
      forall k | 0 <= k < |c| && c[k].Hole? ensures c[k].i == i {
        if k > 0 {
          assert c[k] == c[1..][k - 1];
        }
      }
    }
  }

  /** Putting `t` back into the slots of the carved text, among slots filled up to `n`,
      renders the text itself. */
  lemma {:induction false} CarveFillUpTo(s: string, t: string, w: string, i: nat, xs: seq<string>, n: nat)
    requires |t| > 0 && i < n <= |xs| && xs[i] == t
    ensures Render(FillUpTo(Carve(s, t, i), xs, n), w) == s
  {
    var c := Carve(s, t, i);
    CarveHoles(s, t, i);
    assert FillUpTo(c, xs, n) == Fill(c, i, t);
    CarveFill(s, t, w, i);
  }

  lemma CleanAppend(a: seq<Piece>, b: seq<Piece>)
    requires CleanLits(a) && CleanLits(b)
    ensures CleanLits(a + b)
  {
    forall k | 0 <= k < |a + b| && (a + b)[k].Lit? ensures NoUnderscore((a + b)[k].s) {
      if k >= |a| {
        assert (a + b)[k] == b[k - |a|];
      }
    }
  }

  lemma HolesAppend(a: seq<Piece>, b: seq<Piece>, n: nat)
    requires HolesBelow(a, n) && HolesBelow(b, n)
    ensures HolesBelow(a + b, n)
  {
    forall k | 0 <= k < |a + b| && (a + b)[k].Hole? ensures (a + b)[k].i < n {
      if k >= |a| {
        assert (a + b)[k] == b[k - |a|];
      }
    }
  }

  /** The slot case of `CarveFromFill`. */
  lemma FillAroundSlot(pre: string, j: nat, r: seq<Piece>, t: string, w: string, i: nat, xs: seq<string>, n: nat)
    requires |t| > 0 && i < n <= |xs| && xs[i] == t && j < n
    requires NoUnderscore(pre) && CleanLits(r) && HolesBelow(r, n)
    ensures var c := Carve(pre, t, i) + [Hole(j)] + r;
      && CleanLits(c) && HolesBelow(c, n)
      && Render(FillUpTo(c, xs, n), w) == pre + (PieceText(Restored(Hole(j), xs, n), w) + Render(FillUpTo(r, xs, n), w))
  {
    var c := Carve(pre, t, i);
    CarveClean(pre, t, i);
    CarveHoles(pre, t, i);
    CleanAppend(c, [Hole(j)]);
    CleanAppend(c + [Hole(j)], r);
    HolesAppend(c, [Hole(j)], n);
    HolesAppend(c + [Hole(j)], r, n);
    RenderFilledAroundSlot(c, j, r, xs, n, w);
    CarveFillUpTo(pre, t, w, i, xs, n);
  }

  lemma RenderFilledAroundSlot(c: seq<Piece>, j: nat, r: seq<Piece>, xs: seq<string>, n: nat, w: string)
    requires n <= |xs|
    ensures Render(FillUpTo(c + [Hole(j)] + r, xs, n), w) ==
      Render(FillUpTo(c, xs, n), w) + (PieceText(Restored(Hole(j), xs, n), w) + Render(FillUpTo(r, xs, n), w))
  {
    FillUpToAppend(c + [Hole(j)], r, xs, n);
    FillUpToAppend(c, [Hole(j)], xs, n);
    assert FillUpTo([Hole(j)], xs, n) == [Restored(Hole(j), xs, n)];
    RenderAround(FillUpTo(c, xs, n), Restored(Hole(j), xs, n), FillUpTo(r, xs, n), w);
  }

  /** Carving keeps the literal runs free of underscores, adds only slots numbered `i`,
      and filling every slot numbered below `n` gives back the text before the carving. */
  lemma {:induction false} CarveFromFill(pre: string, ps: seq<Piece>, t: string, w: string, i: nat,
                                         xs: seq<string>, n: nat)
    requires |t| > 0 && i < n <= |xs| && xs[i] == t
    requires NoUnderscore(pre) && CleanLits(ps) && HolesBelow(ps, n)
    ensures CleanLits(CarveFrom(pre, ps, t, i)) && HolesBelow(CarveFrom(pre, ps, t, i), n)
    ensures Render(FillUpTo(CarveFrom(pre, ps, t, i), xs, n), w) == pre + Render(FillUpTo(ps, xs, n), w)
    decreases |ps|
  {
    if ps == [] {
      CarveClean(pre, t, i);
      CarveHoles(pre, t, i);
      CarveFillUpTo(pre, t, w, i, xs, n);
      assert FillUpTo(ps, xs, n) == [];
    } else {
      var f := FillUpTo(ps, xs, n);
      assert Render(f, w) == PieceText(f[0], w) + Render(f[1..], w);
      assert f[1..] == FillUpTo(ps[1..], xs, n);
      CleanTail(ps);
      assert HolesBelow(ps[1..], n) by {
        forall k | 0 <= k < |ps[1..]| && ps[1..][k].Hole? ensures ps[1..][k].i < n {
          assert ps[1..][k] == ps[k + 1];
        }
      }
      match ps[0]
      case Lit(s) =>
        assert NoUnderscore(pre + s) by {
          assert CleanLits(ps) && ps[0].Lit?;
        }
        CarveFromFill(pre + s, ps[1..], t, w, i, xs, n);
      case Hole(j) =>
        CarveFromFill("", ps[1..], t, w, i, xs, n);
        assert "" + Render(f[1..], w) == Render(f[1..], w);
        FillAroundSlot(pre, j, CarveFrom("", ps[1..], t, i), t, w, i, xs, n);
    }
  }

  /** The pieces of `s` after `xs[0]`, ..., `xs[n-1]` are replaced in turn by
      placeholders `0`, ..., `n-1`. */
  function CarveAll(s: string, xs: seq<string>, n: nat): seq<Piece>
    requires n <= |xs| && forall k :: 0 <= k < |xs| ==> |xs[k]| > 0
  {
    if n == 0 then [Lit(s)] else CarveFrom("", CarveAll(s, xs, n - 1), xs[n - 1], n - 1)
  }

  /** Masking `xs[0]`, ..., `xs[n-1]` in turn renders the carved pieces, and filling
      every slot with its value gives the text back, provided neither the text nor a
      value holds an underscore and no value occurs inside a placeholder. */
  lemma {:induction false} MaskRender(s: string, w: string, xs: seq<string>, pairs: seq<(string, string)>, n: nat)
    requires n <= |xs| == |pairs|
    requires forall k :: 0 <= k < |xs| ==> |xs[k]| > 0 && NoUnderscore(xs[k])
    requires forall k :: 0 <= k < |xs| ==> pairs[k] == (xs[k], Placeholder(w, k))
    requires NoUnderscore(s)
    requires forall a, b :: 0 <= a < |xs| && 0 <= b < |xs| ==> !Contains(Placeholder(w, b), xs[a])
    ensures CleanLits(CarveAll(s, xs, n)) && HolesBelow(CarveAll(s, xs, n), n)
    ensures ReplaceAll(s, pairs[..n]) == Render(CarveAll(s, xs, n), w)
    ensures Render(FillUpTo(CarveAll(s, xs, n), xs, |xs|), w) == s
  {
    if n == 0 {
      assert pairs[..0] == [];
      assert Render([Lit(s)], w) == s + Render([], w);
      assert FillUpTo([Lit(s)], xs, |xs|) == [Lit(s)];
    } else {
      var ps, t := CarveAll(s, xs, n - 1), xs[n - 1];
      MaskRender(s, w, xs, pairs, n - 1);
      ReplaceAllStep(s, pairs, n - 1);
      assert HolesAvoid(ps, w, t);
      assert "" + Render(ps, w) == Render(ps, w);
      CarveFromReplace("", ps, t, w, n - 1);
      CarveFromFill("", ps, t, w, n - 1, xs, n);
      CarveFromFill("", ps, t, w, n - 1, xs, |xs|);
    }
  }

  /** Any number of values, each with no underscore and found inside no placeholder,
      masked in turn by placeholders `0, 1, ...` and put back in the same order, leave an
      underscore-free text as it was. */
  lemma PlaceholderRoundTrip(s: string, w: string, xs: seq<string>, pairs: seq<(string, string)>)
    requires GoodStem(w) && |xs| == |pairs|
    requires forall k :: 0 <= k < |xs| ==> |xs[k]| > 0 && NoUnderscore(xs[k])
    requires forall k :: 0 <= k < |xs| ==> pairs[k] == (xs[k], Placeholder(w, k))
    requires NoUnderscore(s)
    requires forall a, b :: 0 <= a < |xs| && 0 <= b < |xs| ==> !Contains(Placeholder(w, b), xs[a])
    ensures ReplaceAll(ReplaceAll(s, pairs), RestorePairs(w, xs)) == s
  {
    MaskRender(s, w, xs, pairs, |xs|);
    assert pairs[..|xs|] == pairs;
    RestoreRender(CarveAll(s, xs, |xs|), w, xs, |xs|);
    assert RestorePairs(w, xs)[..|xs|] == RestorePairs(w, xs);
  }
}
