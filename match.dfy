/** `sh.Match` (shCore.js): a located token, and the order `findMatches` sorts tokens in
    (`matchesSortCallback`). */
module Matches {
  import opened Wrappers

  /** A token: its text, where it starts in the code, its style and, for tokens produced
      by an embedded brush, that brush's name. `length` is `|value|`. */
  datatype Match = Match(value: string, index: nat, css: string, brushName: Option<string>)
  {
    function End(): nat {
      index + |value|
    }
  }

  /** `new sh.Match(value, index, css)`: no brush name yet. */
  function NewMatch(value: string, index: nat, css: string): (m: Match)
    ensures m.value == value && m.index == index && m.css == css && m.brushName == None
    ensures m.End() == index + |value|
  {
    Match(value, index, css, None)
  }

  /** The order of `matchesSortCallback`: by start, then by length. */
  predicate KeyLe(a: Match, b: Match) {
    a.index < b.index || (a.index == b.index && |a.value| <= |b.value|)
  }

  /** `matchesSortCallback(m1, m2)`: -1, 0 or 1. */
  function Compare(m1: Match, m2: Match): (r: int)
    ensures r == 0 <==> m1.index == m2.index && |m1.value| == |m2.value|
    ensures r <= 0 <==> KeyLe(m1, m2)
    ensures r == -1 || r == 0 || r == 1
  {
    if m1.index < m2.index then -1
    else if m1.index > m2.index then 1
    else if |m1.value| < |m2.value| then -1
    else if |m1.value| > |m2.value| then 1
    else 0
  }

  /** The comparator is antisymmetric ... */
  lemma CompareAntisymmetric(m1: Match, m2: Match)
    ensures Compare(m1, m2) == -Compare(m2, m1)
  {
  }

  /** ... and transitive, so it is a consistent comparator for `Array.prototype.sort`. */
  lemma CompareTransitive(m1: Match, m2: Match, m3: Match)
    requires Compare(m1, m2) <= 0 && Compare(m2, m3) <= 0
    ensures Compare(m1, m3) <= 0
  {
  }

  predicate Sorted(s: seq<Match>) {
    forall p, q :: 0 <= p < q < |s| ==> KeyLe(s[p], s[q])
  }

  /** `m` inserted into a sorted list before the first element it precedes. */
  function Insert(m: Match, s: seq<Match>): (r: seq<Match>)
    requires Sorted(s)
    ensures |r| == |s| + 1 && multiset(r) == multiset(s) + multiset{m}
    ensures forall x :: x in r ==> x == m || x in s
    ensures Sorted(r)
  {
    if |s| == 0 then [m]
    else if KeyLe(m, s[0]) then
      [m] + s
    else
      var rest := Insert(m, s[1..]);
      assert s == [s[0]] + s[1..];
      InsertHead(s[0], m, s[1..], rest);
      [s[0]] + rest
  }

  lemma InsertHead(h: Match, m: Match, tail: seq<Match>, rest: seq<Match>)
    requires Sorted([h] + tail) && Sorted(rest) && KeyLe(h, m)
    requires forall x :: x in rest ==> x == m || x in tail
    ensures Sorted([h] + rest)
  {
    forall q | 0 <= q < |rest|
      ensures KeyLe(h, rest[q])
    {
      assert rest[q] in rest;
      if rest[q] != m {
        var k :| 0 <= k < |tail| && tail[k] == rest[q];
        assert ([h] + tail)[0] == h && ([h] + tail)[k + 1] == tail[k];
      }
    }
  }

  /** `matches.sort(matchesSortCallback)`, as a stable insertion sort: the result is
      ordered by start, then length, and holds the same matches. */
  function Sort(s: seq<Match>): (r: seq<Match>)
    ensures Sorted(r) && multiset(r) == multiset(s)
    ensures |r| == |s|
  {
    if |s| == 0 then []
    else
      assert s == [s[0]] + s[1..];
      Insert(s[0], Sort(s[1..]))
  }
}
