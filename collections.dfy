/** Python lists, sets and dicts as the translation code uses them. */
module Collections {

  predicate Distinct<T(==)>(s: seq<T>) {
    forall i, j :: 0 <= i < j < |s| ==> s[i] != s[j]
  }

  /** Python's `set(s)` for a list `s`. */
  function Elements<T>(s: seq<T>): set<T> {
    set x | x in s
  }

  lemma ElementsOf<T>(s: seq<T>, e: set<T>)
    requires forall x :: x in s <==> x in e
    ensures Elements(s) == e
  {
  }

  /** Python's `list(s)` for a set `s`: every element once, in an order the language
      does not fix. */
  method SetToList<T(==)>(s: set<T>) returns (r: seq<T>)
    ensures Distinct(r)
    ensures forall x :: x in r <==> x in s
    ensures |r| == |s|
  {
    r := [];
    var rest := s;
    while rest != {}
      invariant Distinct(r)
      invariant forall x :: x in r <==> x in s && x !in rest
      invariant rest <= s
      invariant |r| + |rest| == |s|
      decreases |rest|
    {
      var x :| x in rest;
      r := r + [x];
      rest := rest - {x};
    }
  }

  /** A Python dict as its items in insertion order. */
  function Keys<K, V>(d: seq<(K, V)>): (r: seq<K>)
    ensures |r| == |d|
    ensures forall i :: 0 <= i < |d| ==> r[i] == d[i].0
  {
    seq(|d|, i requires 0 <= i < |d| => d[i].0)
  }

  function Values<K, V>(d: seq<(K, V)>): (r: seq<V>)
    ensures |r| == |d|
    ensures forall i :: 0 <= i < |d| ==> r[i] == d[i].1
  {
    seq(|d|, i requires 0 <= i < |d| => d[i].1)
  }

  /** Python's `d[k] = v`: an existing key keeps its place and takes the new value, a new
      key goes at the end. */
  function Put<K(==), V>(d: seq<(K, V)>, k: K, v: V): (r: seq<(K, V)>)
    requires Distinct(Keys(d))
    ensures k in Keys(d) ==> |r| == |d|
    ensures k !in Keys(d) ==> r == d + [(k, v)]
    ensures forall i :: 0 <= i < |d| ==> r[i] == if d[i].0 == k then (k, v) else d[i]
  {
    if d == [] then [(k, v)]
    else if d[0].0 == k then [(k, v)] + d[1..]
    else
      assert Keys(d[1..]) == Keys(d)[1..];
      [d[0]] + Put(d[1..], k, v)
  }

  /** A dict never holds a key twice. */
  lemma {:induction false} PutKeepsKeysDistinct<K, V>(d: seq<(K, V)>, k: K, v: V)
    requires Distinct(Keys(d))
    ensures Distinct(Keys(Put(d, k, v)))
    ensures forall x :: x in Keys(Put(d, k, v)) <==> x in Keys(d) || x == k
  {
    var r := Put(d, k, v);
    if k in Keys(d) {
      forall i, j | 0 <= i < j < |r| ensures r[i].0 != r[j].0 {
        assert r[i].0 == d[i].0 && r[j].0 == d[j].0;
      }
      forall x | x in Keys(r) ensures x in Keys(d) {
        var i :| 0 <= i < |r| && Keys(r)[i] == x;
        assert r[i].0 == d[i].0;
      }
    } else {
      forall x | x in Keys(d) ensures x in Keys(r) {
        var i :| 0 <= i < |d| && Keys(d)[i] == x;
        assert Keys(r)[i] == x;
      }
      assert Keys(r)[|d|] == k;
    }
  }

  /** Python's `next(k for k, v in d.items() if v == value)`: the first key holding it. */
  function FirstKeyOf<K(==), V(==)>(d: seq<(K, V)>, value: V): (k: K)
    requires value in Values(d)
    ensures exists i :: 0 <= i < |d| && d[i].0 == k && d[i].1 == value && value !in Values(d[..i])
  {
    if d[0].1 == value then
      assert Values(d[..0]) == [];
      d[0].0
    else
      assert Values(d) == [d[0].1] + Values(d[1..]);
      var k := FirstKeyOf(d[1..], value);
      var i :| 0 <= i < |d[1..]| && d[1..][i].0 == k && d[1..][i].1 == value && value !in Values(d[1..][..i]);
      assert Values(d[..i + 1]) == [d[0].1] + Values(d[1..][..i]);
      k
  }
}
