/** What the translation code sees of Python's `re` engine.  The engine itself is not
    modelled: each compiled pattern is a scanner handed in from outside that reports its matches. */
module Matching {

  /** One match of a compiled pattern: where it starts, the whole matched text, and the
      text of each capture group ("" for a group that took no part in the match). */
  datatype Match = Match(start: nat, whole: string, groups: seq<string>)

  /** What `pattern.findall(text)` yields for one match: the whole text for a pattern
      without groups, the group's text for a one-group pattern, and a tuple of group
      texts for a pattern with several groups, of which the callers keep item 0. */
  function FindallItem(m: Match): (r: string)
    ensures m.groups == [] ==> r == m.whole
    ensures m.groups != [] ==> r == m.groups[0]
  {
    if m.groups == [] then m.whole else m.groups[0]
  }

  /** `pattern.findall(text)` with tuples cut to their first item. */
  function Findall(ms: seq<Match>): (r: seq<string>)
    ensures |r| == |ms|
    ensures forall k :: 0 <= k < |ms| ==> r[k] == FindallItem(ms[k])
  {
    seq(|ms|, k requires 0 <= k < |ms| => FindallItem(ms[k]))
  }

  /** `set(pattern.findall(text))`. */
  function FindallSet(ms: seq<Match>): set<string> {
    set m | m in ms :: FindallItem(m)
  }
}
