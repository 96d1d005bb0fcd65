/** `removeNestedMatches` (shCore.js): the in-place sweep that drops every token starting
    inside an earlier surviving token, so that highlighted strings inside comments,
    keywords inside strings and the like disappear. Dropped entries become `None` in
    place; survivors never move. */
module Resolver {
  import opened Wrappers
  import opened Matches

  /** The entries present are in ascending order of start (what sorting with
      `matchesSortCallback` leaves behind). */
  predicate SortedByStart(o: seq<Option<Match>>) {
    forall p, q :: 0 <= p < q < |o| && o[p].Some? && o[q].Some? ==> o[p].value.index <= o[q].value.index
  }

  /** `c` is `o` with some entries replaced by `None` and nothing else changed. */
  predicate Thinned(c: seq<Option<Match>>, o: seq<Option<Match>>) {
    |c| == |o| && forall k :: 0 <= k < |c| ==> c[k] == o[k] || c[k].None?
  }

  /** No surviving token overlaps a later one. */
  predicate Disjoint(c: seq<Option<Match>>) {
    forall k, l :: 0 <= k < l < |c| && c[k].Some? && c[l].Some? ==> c[k].value.End() <= c[l].value.index
  }

  /** `d` starts inside `l`. */
  predicate StartsIn(d: Match, l: Match) {
    l.index <= d.index < l.End()
  }

  /** Every dropped token starts inside a surviving one: nothing is dropped that was not
      nested in, or at the start of, a token that is kept. */
  predicate StartsCovered(c: seq<Option<Match>>, o: seq<Option<Match>>)
    requires |c| == |o|
  {
    forall d :: 0 <= d < |c| && c[d].None? && o[d].Some? ==>
      exists l :: 0 <= l < |c| && c[l].Some? && StartsIn(o[d].value, c[l].value)
  }

  /** Surviving tokens before position `i` do not overlap anything after them. */
  predicate DisjointBefore(c: seq<Option<Match>>, i: int) {
    forall k, l :: 0 <= k < i && k < l < |c| && c[k].Some? && c[l].Some? ==> c[k].value.End() <= c[l].value.index
  }

  /** Every survivor before position `i` is at least as long as each later entry that
      starts where it does. */
  predicate LongestBefore(c: seq<Option<Match>>, o: seq<Option<Match>>, i: int)
    requires |c| == |o|
  {
    forall k, l :: 0 <= k < i && k < l < |c| && c[k].Some? && o[l].Some? && o[l].value.index == c[k].value.index ==>
      |o[l].value.value| <= |c[k].value.value|
  }

  /** Of two entries at the same start, the longer one is kept: every survivor is at least
      as long as each later entry that starts where it does. */
  predicate KeepsLongest(c: seq<Option<Match>>, o: seq<Option<Match>>)
    requires |c| == |o|
  {
    LongestBefore(c, o, |c|)
  }

  /** Of two entries at one start, the later one is dropped when the earlier one is not
      empty and at least as long: the earlier one either drops it or loses to a longer
      entry that does. */
  predicate LaterTiesDropped(c: seq<Option<Match>>, o: seq<Option<Match>>)
    requires |c| == |o|
  {
    forall k, l ::
      0 <= k < l < |c| && o[k].Some? && o[l].Some? && o[k].value.index == o[l].value.index
      && 0 < |o[k].value.value| && |o[l].value.value| <= |o[k].value.value|
      ==> c[l].None?
  }

  /** Every dropped entry is covered by an earlier entry, or by a later, strictly longer
      entry at the same start (one that evicted it). */
  ghost predicate CoverRanked(c: seq<Option<Match>>, o: seq<Option<Match>>, cov: seq<int>)
    requires |c| == |o| == |cov|
  {
    forall d {:trigger cov[d]} :: 0 <= d < |o| && c[d].None? && o[d].Some? ==>
      0 <= cov[d] < |o| && o[cov[d]].Some?
      && (cov[d] < d || (o[cov[d]].value.index == o[d].value.index && |o[d].value.value| < |o[cov[d]].value.value|))
  }

  /** An entry dropped after position `from` was dropped with every entry between `from`
      and it that starts at the same place. */
  ghost predicate DroppedAlone(c: seq<Option<Match>>, o: seq<Option<Match>>, from: nat)
    requires |c| == |o|
  {
    forall k, l :: from <= k < l < |c| && o[k].Some? && o[l].Some? && c[l].None? && o[k].value.index == o[l].value.index ==>
      c[k].None?
  }

  /** The dropped entry `d` starts inside the surviving entry `l`. */
  ghost predicate CoveredBy(c: seq<Option<Match>>, o: seq<Option<Match>>, l: int, d: int)
    requires |c| == |o| && 0 <= d < |o|
  {
    0 <= l < |c| && c[l].Some? && o[d].Some? && StartsIn(o[d].value, c[l].value)
  }

  /** Cover invariant between rounds of the outer loop: every dropped entry has a cover,
      and a cover not yet visited starts exactly where the entry does. */
  ghost predicate OuterCover(c: seq<Option<Match>>, o: seq<Option<Match>>, cov: seq<int>, i: int)
    requires |c| == |o| == |cov|
  {
    forall d :: 0 <= d < |o| && c[d].None? && o[d].Some? ==>
      CoveredBy(c, o, cov[d], d) && (cov[d] >= i ==> c[cov[d]].value.index == o[d].value.index)
  }

  /** Cover invariant inside round `i`: entries covered by `i` start no later than `reach`,
      the start of the last entry round `i` dropped. */
  ghost predicate InnerCover(c: seq<Option<Match>>, o: seq<Option<Match>>, cov: seq<int>, i: int, reach: int)
    requires |c| == |o| == |cov|
  {
    forall d :: 0 <= d < |o| && c[d].None? && o[d].Some? ==>
      CoveredBy(c, o, cov[d], d)
      && (cov[d] > i ==> c[cov[d]].value.index == o[d].value.index)
      && (cov[d] == i ==> o[d].value.index <= reach)
  }

  /** The cover map with `from` and everything it covered moved to `to`. */
  ghost function Redirect(cov: seq<int>, from: int, to: int): (r: seq<int>)
    ensures |r| == |cov|
    ensures forall k :: 0 <= k < |cov| ==> r[k] == (if k == from || cov[k] == from then to else cov[k])
  {
    seq(|cov|, k requires 0 <= k < |cov| => if k == from || cov[k] == from then to else cov[k])
  }

  /** `removeNestedMatches(matches)` on a list sorted by start: drops, in place, every
      entry that starts inside an earlier survivor, and an entry whose successor at the
      same start is longer. The survivors are pairwise disjoint, every dropped entry
      starts inside a survivor, each survivor is at least as long as every later entry at
      its start, and of two entries at one start the later one is dropped when the
      earlier one is non-empty and at least as long. */
  method RemoveNestedMatches(a: array<Option<Match>>)
    requires SortedByStart(a[..])
    modifies a
    ensures Thinned(a[..], old(a[..]))
    ensures Disjoint(a[..])
    ensures StartsCovered(a[..], old(a[..]))
    ensures KeepsLongest(a[..], old(a[..]))
    ensures LaterTiesDropped(a[..], old(a[..]))
  {
    ghost var o := a[..];
    ghost var cov: seq<int> := seq(a.Length, k => -1);
    var i := 0;
    while i < a.Length
      invariant 0 <= i <= a.Length && Swept(a[..], o, cov, i)
    {
      if a[i] != None {
        cov := RemoveNestedIn(a, i, o, cov);
      } else {
        SkipDropped(a[..], o, cov, i);
      }
      i := i + 1;
    }
    SweptAll(a[..], o, cov);
  }

  /** After the last round the survivors are disjoint, every dropped entry has a surviving
      cover, and the ties are decided. */
  lemma SweptAll(c: seq<Option<Match>>, o: seq<Option<Match>>, cov: seq<int>)
    requires Swept(c, o, cov, |c|)
    ensures Thinned(c, o) && Disjoint(c) && StartsCovered(c, o) && KeepsLongest(c, o) && LaterTiesDropped(c, o)
  {
    forall d | 0 <= d < |c| && c[d].None? && o[d].Some?
      ensures exists l :: 0 <= l < |c| && c[l].Some? && StartsIn(o[d].value, c[l].value)
    {
      assert CoveredBy(c, o, cov[d], d);
    }
    TiesFromCovers(c, o, cov);
  }

  /** The survivors decide every tie: a later entry at the start of a non-empty, at least
      as long earlier one survives neither beside it (they would overlap), nor beside its
      earlier cover (which overlaps both), nor beside a longer cover at that start (which
      it would overlap, or which it would have to outlast). */
  lemma TiesFromCovers(c: seq<Option<Match>>, o: seq<Option<Match>>, cov: seq<int>)
    requires |c| == |o| == |cov| && Thinned(c, o) && Disjoint(c) && KeepsLongest(c, o)
    requires OuterCover(c, o, cov, |c|) && CoverRanked(c, o, cov)
    ensures LaterTiesDropped(c, o)
  {
    forall k, l | 0 <= k < l < |c| && o[k].Some? && o[l].Some? && o[k].value.index == o[l].value.index
      && 0 < |o[k].value.value| && |o[l].value.value| <= |o[k].value.value|
      ensures c[l].None?
    {
      var p := cov[k];
      assert c[l] == o[l] || c[l].None?;
      assert c[k] == o[k] || c[k].None?;
      assert c[k].None? ==> CoveredBy(c, o, p, k) && c[p] == o[p];
    }
  }

  /** The invariant of the outer loop: rounds before `i` are done. */
  ghost predicate Swept(c: seq<Option<Match>>, o: seq<Option<Match>>, cov: seq<int>, i: int) {
    |c| == |o| == |cov| && 0 <= i <= |c| && Thinned(c, o)
    && DisjointBefore(c, i) && OuterCover(c, o, cov, i)
    && LongestBefore(c, o, i) && DroppedAlone(c, o, i) && CoverRanked(c, o, cov)
  }

  /** The invariant of the inner loop of round `i`, before comparing with `j`. */
  ghost predicate Comparing(c: seq<Option<Match>>, o: seq<Option<Match>>, cov: seq<int>, i: int, j: int, reach: int) {
    RoundInv(c, o, cov, i, j, reach) && TieInv(c, o, i, j) && CoverRanked(c, o, cov)
  }

  /** A round skipped for an entry already dropped keeps the outer invariant. */
  lemma SkipDropped(c: seq<Option<Match>>, o: seq<Option<Match>>, cov: seq<int>, i: int)
    requires 0 <= i < |c| && Swept(c, o, cov, i) && c[i].None?
    ensures Swept(c, o, cov, i + 1)
  {
  }

  /** The start of round `i`. */
  lemma RoundBegin(c: seq<Option<Match>>, o: seq<Option<Match>>, cov: seq<int>, i: int)
    requires 0 <= i < |c| && Swept(c, o, cov, i) && c[i].Some? && SortedByStart(o)
    ensures Comparing(c, o, cov, i, i + 1, o[i].value.index)
  {
    RoundStart(c, o, cov, i);
    TieStart(c, o, i);
  }

  /** The end of round `i`: the scan ran out, dropped `i`, or met an entry past its end. */
  lemma RoundFinish(c: seq<Option<Match>>, o: seq<Option<Match>>, cov: seq<int>, i: int, j: int, reach: int)
    requires Comparing(c, o, cov, i, j, reach) && SortedByStart(o)
    requires j == |c| || c[i].None? || (c[j].Some? && c[j].value.index > o[i].value.End())
    ensures Swept(c, o, cov, i + 1)
  {
    RoundEnd(c, o, cov, i, j, reach);
    TieEnd(c, o, i, j);
  }

  /** One round of the outer loop of `removeNestedMatches`: the entries after `i` are
      compared with `i` until one starts past its end or `i` is dropped. */
  method RemoveNestedIn(a: array<Option<Match>>, i: int, ghost o: seq<Option<Match>>, ghost cov: seq<int>)
    returns (ghost cov': seq<int>)
    requires 0 <= i < a.Length && a[i].Some? && SortedByStart(o) && Swept(a[..], o, cov, i)
    modifies a
    ensures Swept(a[..], o, cov', i + 1)
  {
    cov' := cov;
    var itemI := a[i].value;
    ghost var reach := itemI.index;
    RoundBegin(a[..], o, cov, i);
    var j := i + 1;
    while j < a.Length && a[i] != None
      invariant i < j <= a.Length && Comparing(a[..], o, cov', i, j, reach)
    {
      var stop;
      cov', reach, stop := CompareNext(a, i, j, o, cov', reach);
      if stop {
        break;
      }
      j := j + 1;
    }
    RoundFinish(a[..], o, cov', i, j, reach);
  }

  /** One step of the inner loop of `removeNestedMatches`: entry `j` compared with `i`.
      An entry past the end of `i` stops the round; a longer entry at the same start
      drops `i`; an entry starting inside `i` is dropped. */
  method CompareNext(a: array<Option<Match>>, i: int, j: int, ghost o: seq<Option<Match>>, ghost cov: seq<int>, ghost reach: int)
    returns (ghost cov': seq<int>, ghost reach': int, stop: bool)
    requires 0 <= i < j < a.Length && a[i].Some? && SortedByStart(o)
    requires Comparing(a[..], o, cov, i, j, reach)
    modifies a
    ensures stop ==> a[..] == old(a[..]) && Comparing(a[..], o, cov', i, j, reach')
    ensures stop ==> a[j].Some? && a[j].value.index > o[i].value.End()
    ensures !stop ==> Comparing(a[..], o, cov', i, j + 1, reach')
  {
    ghost var c := a[..];
    cov', reach', stop := cov, reach, false;
    var itemI := a[i].value;
    var itemJ := a[j];
    if itemJ == None {
      StepSkip(c, o, cov, i, j, reach);
      TieSkip(c, o, i, j);
    } else if itemJ.value.index > itemI.index + |itemI.value| {
      stop := true;
    } else if itemJ.value.index == itemI.index && |itemJ.value.value| > |itemI.value| {
      a[i] := None;
      assert a[..] == c[i := None];
      StepEvict(c, o, cov, i, j, reach);
      TieEvict(c, o, i, j);
      RankEvict(c, o, cov, i, j, reach);
      cov' := Redirect(cov, i, j);
    } else if itemJ.value.index >= itemI.index && itemJ.value.index < itemI.index + |itemI.value| {
      a[j] := None;
      assert a[..] == c[j := None];
      StepDrop(c, o, cov, i, j, reach);
      TieDrop(c, o, i, j);
      RankDrop(c, o, cov, i, j);
      cov' := Redirect(cov, j, i);
      reach' := itemJ.value.index;
    } else {
      StepSkip(c, o, cov, i, j, reach);
      TieSkip(c, o, i, j);
    }
  }

  /** Evicting `i` for the longer `j` at its start: `i` is now covered by a later, longer
      entry at its start, and so is everything `i` covered, since what `i` dropped at its
      own start is no longer than `i`. */
  lemma RankEvict(c: seq<Option<Match>>, o: seq<Option<Match>>, cov: seq<int>, i: int, j: int, reach: int)
    requires RoundInv(c, o, cov, i, j, reach) && TieInv(c, o, i, j) && SortedByStart(o)
    requires CoverRanked(c, o, cov) && j < |c| && c[i].Some? && c[j].Some?
    requires c[j].value.index == o[i].value.index && |c[j].value.value| > |o[i].value.value|
    ensures CoverRanked(c[i := None], o, Redirect(cov, i, j))
  {
    var c' := c[i := None];
    var cov' := Redirect(cov, i, j);
    assert c[j] == o[j];
    forall d | 0 <= d < |o| && c'[d].None? && o[d].Some?
      ensures 0 <= cov'[d] < |o| && o[cov'[d]].Some?
      ensures cov'[d] < d || (o[cov'[d]].value.index == o[d].value.index && |o[d].value.value| < |o[cov'[d]].value.value|)
    {
      if d != i && cov[d] == i {
        assert CoveredBy(c, o, i, d);
        if i < d < j {
          assert o[d].value.index <= o[j].value.index;
        }
      }
    }
  }

  /** Dropping `j` inside `i`: `j` is now covered by the earlier `i`, and so is everything
      `j` covered, since what `j` evicted before `i` starts where `i` does and is shorter
      than `j`, which is no longer than `i`. */
  lemma RankDrop(c: seq<Option<Match>>, o: seq<Option<Match>>, cov: seq<int>, i: int, j: int)
    requires |c| == |o| == |cov| && 0 <= i < j < |c| && Thinned(c, o) && SortedByStart(o)
    requires CoverRanked(c, o, cov) && c[i].Some? && c[j].Some?
    requires o[i].value.index <= c[j].value.index < o[i].value.End()
    requires !(c[j].value.index == o[i].value.index && |c[j].value.value| > |o[i].value.value|)
    ensures CoverRanked(c[j := None], o, Redirect(cov, j, i))
  {
    var c' := c[j := None];
    var cov' := Redirect(cov, j, i);
    assert c[j] == o[j] && c[i] == o[i];
    forall d | 0 <= d < |o| && c'[d].None? && o[d].Some?
      ensures 0 <= cov'[d] < |o| && o[cov'[d]].Some?
      ensures cov'[d] < d || (o[cov'[d]].value.index == o[d].value.index && |o[d].value.value| < |o[cov'[d]].value.value|)
    {
      if d != j && cov[d] == j && d < i {
        assert o[d].value.index <= o[i].value.index;
      }
    }
  }

  /** The same-start invariant of round `i` after comparing `i` with the entries before
      `j`: while `i` survives, no entry not yet compared was dropped at `i`'s start, and
      no entry compared so far at that start is longer than `i`. */
  ghost predicate TieInv(c: seq<Option<Match>>, o: seq<Option<Match>>, i: int, j: int)
  {
    |c| == |o| && 0 <= i < j <= |c| && o[i].Some?
    && LongestBefore(c, o, i) && DroppedAlone(c, o, i + 1)
    && (c[i].Some? ==>
          (forall l :: j <= l < |c| && o[l].Some? && c[l].None? ==> o[l].value.index != o[i].value.index)
          && (forall l :: i < l < j && o[l].Some? && o[l].value.index == o[i].value.index ==>
                |o[l].value.value| <= |o[i].value.value|))
  }

  lemma TieStart(c: seq<Option<Match>>, o: seq<Option<Match>>, i: int)
    requires |c| == |o| && 0 <= i < |c| && c[i].Some? && Thinned(c, o)
    requires LongestBefore(c, o, i) && DroppedAlone(c, o, i)
    ensures TieInv(c, o, i, i + 1)
  {
  }

  /** An entry that is already dropped, or is neither longer at the same start nor
      dropped, keeps the same-start invariant. */
  lemma TieSkip(c: seq<Option<Match>>, o: seq<Option<Match>>, i: int, j: int)
    requires TieInv(c, o, i, j) && Thinned(c, o) && j < |c| && c[i].Some?
    requires c[j].Some? ==> !(c[j].value.index == o[i].value.index && |c[j].value.value| > |o[i].value.value|)
    ensures TieInv(c, o, i, j + 1)
  {
  }

  lemma TieEvict(c: seq<Option<Match>>, o: seq<Option<Match>>, i: int, j: int)
    requires TieInv(c, o, i, j) && j < |c| && c[i].Some?
    ensures TieInv(c[i := None], o, i, j + 1)
  {
  }

  /** Entry `j` dropped by `i`: every entry between them at `j`'s start starts inside `i`
      too, so it was dropped before. */
  lemma TieDrop(c: seq<Option<Match>>, o: seq<Option<Match>>, i: int, j: int)
    requires TieInv(c, o, i, j) && Thinned(c, o) && j < |c| && c[i].Some? && c[j].Some?
    requires ScannedClear(c, o, i, j)
    requires o[i].value.index <= c[j].value.index < o[i].value.End()
    requires !(c[j].value.index == o[i].value.index && |c[j].value.value| > |o[i].value.value|)
    ensures TieInv(c[j := None], o, i, j + 1)
  {
    var c' := c[j := None];
    forall k, l | i + 1 <= k < l < |c'| && o[k].Some? && o[l].Some? && c'[l].None? && o[k].value.index == o[l].value.index
      ensures c'[k].None?
    {
      if l == j {
        assert o[k].value.index == c[j].value.index < o[i].value.End();
      }
    }
  }

  /** At the end of round `i`, survivor `i` is at least as long as every later entry at
      its start: those compared by the invariant, and none after a break, since they start
      past its end. */
  lemma TieEnd(c: seq<Option<Match>>, o: seq<Option<Match>>, i: int, j: int)
    requires TieInv(c, o, i, j) && Thinned(c, o) && SortedByStart(o)
    requires j == |c| || c[i].None? || (c[j].Some? && c[j].value.index > o[i].value.End())
    ensures LongestBefore(c, o, i + 1) && DroppedAlone(c, o, i + 1)
  {
    if c[i].Some? && j < |c| {
      assert c[j] == o[j];
      forall l | j <= l < |c| && o[l].Some?
        ensures o[l].value.index != o[i].value.index
      {
        assert o[j].value.index <= o[l].value.index;
      }
    }
  }

  /** The invariant of round `i` after comparing `i` with the entries before `j`. */
  ghost predicate RoundInv(c: seq<Option<Match>>, o: seq<Option<Match>>, cov: seq<int>, i: int, j: int, reach: int)
  {
    |c| == |o| == |cov| && 0 <= i < j <= |c| && o[i].Some?
    && Thinned(c, o) && DisjointBefore(c, i)
    && (c[i].Some? ==>
          ScannedClear(c, o, i, j)
          && InnerCover(c, o, cov, i, reach)
          && o[i].value.index <= reach
          && (forall m :: j <= m < |c| && o[m].Some? ==> reach <= o[m].value.index))
    && (c[i].None? ==> OuterCover(c, o, cov, i + 1))
  }

  /** The survivors compared with `i` so far start at or after its end. */
  ghost predicate ScannedClear(c: seq<Option<Match>>, o: seq<Option<Match>>, i: int, j: int)
    requires |c| == |o| && 0 <= i < |o| && o[i].Some?
  {
    forall l :: i < l < j && l < |c| && c[l].Some? ==> o[i].value.End() <= c[l].value.index
  }

  lemma RoundStart(c: seq<Option<Match>>, o: seq<Option<Match>>, cov: seq<int>, i: int)
    requires |c| == |o| == |cov| && 0 <= i < |c| && c[i].Some?
    requires SortedByStart(o) && Thinned(c, o)
    requires DisjointBefore(c, i) && OuterCover(c, o, cov, i)
    ensures RoundInv(c, o, cov, i, i + 1, o[i].value.index)
  {
  }

  /** An entry that is already dropped, or starts exactly where `i` ends, changes nothing. */
  lemma StepSkip(c: seq<Option<Match>>, o: seq<Option<Match>>, cov: seq<int>, i: int, j: int, reach: int)
    requires RoundInv(c, o, cov, i, j, reach) && SortedByStart(o) && j < |c| && c[i].Some?
    requires c[j].Some? ==> !(c[j].value.index > o[i].value.End())
    requires c[j].Some? ==> !(c[j].value.index == o[i].value.index && |c[j].value.value| > |o[i].value.value|)
    requires c[j].Some? ==> !(o[i].value.index <= c[j].value.index < o[i].value.End())
    ensures RoundInv(c, o, cov, i, j + 1, reach)
  {
  }

  /** Dropping entry `i` for the longer entry `j` at the same start moves its covered
      entries to `j`. */
  lemma StepEvict(c: seq<Option<Match>>, o: seq<Option<Match>>, cov: seq<int>, i: int, j: int, reach: int)
    requires RoundInv(c, o, cov, i, j, reach) && SortedByStart(o) && j < |c| && c[i].Some? && c[j].Some?
    requires c[j].value.index == o[i].value.index && |c[j].value.value| > |o[i].value.value|
    ensures RoundInv(c[i := None], o, Redirect(cov, i, j), i, j + 1, reach)
  {
    var c' := c[i := None];
    var cov' := Redirect(cov, i, j);
    forall d | 0 <= d < |o| && c'[d].None? && o[d].Some?
      ensures CoveredBy(c', o, cov'[d], d) && (cov'[d] >= i + 1 ==> c'[cov'[d]].value.index == o[d].value.index)
    {
      if d == i || cov[d] == i {
        assert o[d].value.index == o[i].value.index;
      }
    }
  }

  /** Dropping entry `j` nested in `i` moves it and its covered entries to `i`. */
  lemma StepDrop(c: seq<Option<Match>>, o: seq<Option<Match>>, cov: seq<int>, i: int, j: int, reach: int)
    requires RoundInv(c, o, cov, i, j, reach) && SortedByStart(o) && j < |c| && c[i].Some? && c[j].Some?
    requires o[i].value.index <= c[j].value.index < o[i].value.End()
    ensures RoundInv(c[j := None], o, Redirect(cov, j, i), i, j + 1, c[j].value.index)
  {
    var c' := c[j := None];
    var reach' := c[j].value.index;
    assert o[j] == c[j];
    assert Thinned(c', o);
    assert DisjointBefore(c', i);
    assert forall m :: j + 1 <= m < |c| && o[m].Some? ==> reach' <= o[m].value.index;
    DropCover(c, o, cov, i, j, reach);
  }

  /** The covers after dropping `j`: `j` and what it covered move to `i`, and `j` is now
      the furthest entry `i` covers. */
  lemma DropCover(c: seq<Option<Match>>, o: seq<Option<Match>>, cov: seq<int>, i: int, j: int, reach: int)
    requires |c| == |o| == |cov| && 0 <= i < j < |c| && Thinned(c, o) && c[i].Some? && c[j].Some?
    requires InnerCover(c, o, cov, i, reach)
    requires o[i].value.index <= c[j].value.index < o[i].value.End()
    requires reach <= c[j].value.index
    ensures InnerCover(c[j := None], o, Redirect(cov, j, i), i, c[j].value.index)
  {
    var c' := c[j := None];
    var cov' := Redirect(cov, j, i);
    var reach' := c[j].value.index;
    assert o[j] == c[j];
    forall d | 0 <= d < |o| && c'[d].None? && o[d].Some?
      ensures CoveredBy(c', o, cov'[d], d)
      ensures cov'[d] > i ==> c'[cov'[d]].value.index == o[d].value.index
      ensures cov'[d] == i ==> o[d].value.index <= reach'
    {
      if d != j && cov[d] != j {
        assert c[d].None?;
        assert cov'[d] == cov[d];
      }
    }
  }

  /** At the end of round `i`, survivor `i` overlaps nothing after it. */
  lemma RoundEnd(c: seq<Option<Match>>, o: seq<Option<Match>>, cov: seq<int>, i: int, j: int, reach: int)
    requires RoundInv(c, o, cov, i, j, reach) && SortedByStart(o)
    requires j == |c| || c[i].None? || (c[j].Some? && c[j].value.index > o[i].value.End())
    ensures Thinned(c, o) && DisjointBefore(c, i + 1) && OuterCover(c, o, cov, i + 1)
  {
  }

  /** The situation `removeNestedMatches` exists for: in `"abc" // "def"` the string rule
      finds `"abc"` at 0 and `"def"` at 9, the comment rule `// "def"` at 6. Its contract
      alone decides the outcome: the first string and the comment are kept and the string
      inside the comment is dropped. */
  method NestedExample() returns (r: seq<Option<Match>>)
    ensures r == [Some(Match("\"abc\"", 0, "string", None)), Some(Match("// \"def\"", 6, "comments", None)), None]
  {
    var s1 := Match("\"abc\"", 0, "string", None);
    var cm := Match("// \"def\"", 6, "comments", None);
    var s2 := Match("\"def\"", 9, "string", None);
    var a := new Option<Match>[3];
    a[0], a[1], a[2] := Some(s1), Some(cm), Some(s2);
    ghost var o := a[..];
    assert o == [Some(s1), Some(cm), Some(s2)];
    RemoveNestedMatches(a);
    r := a[..];
    NestedOutcome(r, o);
  }

  /** Thinning, disjointness and covering decide the example: neither the first string
      nor the comment starts inside another token, and the second string overlaps the
      comment. */
  lemma NestedOutcome(r: seq<Option<Match>>, o: seq<Option<Match>>)
    requires o == [Some(Match("\"abc\"", 0, "string", None)), Some(Match("// \"def\"", 6, "comments", None)), Some(Match("\"def\"", 9, "string", None))]
    requires Thinned(r, o) && Disjoint(r) && StartsCovered(r, o)
    ensures r == [o[0], o[1], None]
  {
    var s1, cm, s2 := o[0].value, o[1].value, o[2].value;
    assert !StartsIn(cm, s1) && !StartsIn(cm, s2) && !StartsIn(s1, cm) && !StartsIn(s1, s2);
  }

  /** Two tokens at the same start, the shorter sorted first (as `matchesSortCallback`
      orders them): the longer one is kept and the shorter one dropped. */
  method TieExample() returns (r: seq<Option<Match>>)
    ensures r == [None, Some(Match("/* a */ b", 0, "comments", None))]
  {
    var short := Match("/* a */", 0, "comments", None);
    var long := Match("/* a */ b", 0, "comments", None);
    var a := new Option<Match>[2];
    a[0], a[1] := Some(short), Some(long);
    ghost var o := a[..];
    assert o == [Some(short), Some(long)];
    RemoveNestedMatches(a);
    r := a[..];
    TieOutcome(r, o);
  }

  /** Keeping the longest decides the example: the shorter token cannot survive, and the
      longer one has no other token to start inside. */
  lemma TieOutcome(r: seq<Option<Match>>, o: seq<Option<Match>>)
    requires o == [Some(Match("/* a */", 0, "comments", None)), Some(Match("/* a */ b", 0, "comments", None))]
    requires Thinned(r, o) && StartsCovered(r, o) && KeepsLongest(r, o)
    ensures r == [None, o[1]]
  {
    assert |o[1].value.value| > |o[0].value.value|;
  }

  /** Two rules finding the same keyword: the first entry wins, so the keyword keeps the
      css of the rule listed first. */
  method EqualTieExample() returns (r: seq<Option<Match>>)
    ensures r == [Some(Match("print", 3, "keyword", None)), None]
  {
    var first := Match("print", 3, "keyword", None);
    var second := Match("print", 3, "functions", None);
    var a := new Option<Match>[2];
    a[0], a[1] := Some(first), Some(second);
    ghost var o := a[..];
    assert o == [Some(first), Some(second)];
    RemoveNestedMatches(a);
    r := a[..];
    EqualTieOutcome(r, o);
  }

  /** The later entry of an equal tie is dropped, and the earlier one, which only the
      later one could cover, survives. */
  lemma EqualTieOutcome(r: seq<Option<Match>>, o: seq<Option<Match>>)
    requires o == [Some(Match("print", 3, "keyword", None)), Some(Match("print", 3, "functions", None))]
    requires Thinned(r, o) && StartsCovered(r, o) && LaterTiesDropped(r, o)
    ensures r == [o[0], None]
  {
    assert |o[0].value.value| == 5 && o[0].value.index == o[1].value.index;
    assert r[1].None?;
  }
}
