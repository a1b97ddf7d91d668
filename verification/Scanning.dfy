/**
 The string scans of the evidence gate: `_find_all` and `_relation_occurrences` of
 `backend/app/rag/evidence.py`.
 */
module Scanning {
  import opened Sequences

  predicate MatchAt(value: string, needle: string, i: int) {
    0 <= i && i + |needle| <= |value| && value[i..i + |needle|] == needle
  }

  /** `value.find(needle, start)`: the first match from `start` on, -1 when there is none. */
  function Find(value: string, needle: string, start: nat): (i: int)
    ensures i == -1 || start <= i <= |value| - |needle|
    decreases |value| + 1 - start
  {
    if start + |needle| > |value| then -1
    else if value[start..start + |needle|] == needle then start
    else Find(value, needle, start + 1)
  }

  lemma {:induction false} FindFirst(value: string, needle: string, start: nat)
    ensures var i := Find(value, needle, start);
      && (i >= 0 ==> MatchAt(value, needle, i))
      && (forall m | start <= m && MatchAt(value, needle, m) :: 0 <= i <= m)
    decreases |value| + 1 - start
  {
    if start + |needle| <= |value| && value[start..start + |needle|] != needle {
      FindFirst(value, needle, start + 1);
    }
  }

  /** `needle in value`. */
  predicate Contains(value: string, needle: string) {
    Find(value, needle, 0) >= 0
  }

  lemma ContainsMatch(value: string, needle: string)
    ensures Contains(value, needle) <==> exists i :: MatchAt(value, needle, i)
  {
    FindFirst(value, needle, 0);
    if i :| MatchAt(value, needle, i) {
      assert 0 <= Find(value, needle, 0) <= i;
    }
  }

  /** What a text contains, a longer text that starts with it contains. */
  lemma ContainsInPrefix(value: string, more: string, needle: string)
    requires Contains(value, needle)
    ensures Contains(value + more, needle)
  {
    ContainsMatch(value, needle);
    var i :| MatchAt(value, needle, i);
    assert (value + more)[i..i + |needle|] == value[i..i + |needle|];
    assert MatchAt(value + more, needle, i);
    ContainsMatch(value + more, needle);
  }

  /** How far the scan moves on after a match; an empty needle moves on by one. */
  function Stride(needle: string): (n: nat)
    ensures n >= 1
  {
    if |needle| > 1 then |needle| else 1
  }

  function Matches(value: string, needle: string, start: nat): seq<nat>
    decreases |value| + 1 - start
  {
    var i := Find(value, needle, start);
    if i < 0 then [] else [i as nat] + Matches(value, needle, i + Stride(needle))
  }

  lemma MatchesStep(before: seq<nat>, value: string, needle: string, start: nat)
    ensures var i := Find(value, needle, start);
      before + Matches(value, needle, start) ==
        if i < 0 then before else (before + [i as nat]) + Matches(value, needle, i + Stride(needle))
  {
    hide Find;
  }

  /** The scan terminates on every needle, the empty one included. */
  method FindAll(value: string, needle: string) returns (positions: seq<nat>)
    ensures positions == Matches(value, needle, 0)
  {
    hide Matches, Find;
    positions := [];
    var start := 0;
    while true
      invariant positions + Matches(value, needle, start) == Matches(value, needle, 0)
      decreases |value| + 1 - start
    {
      var index := Find(value, needle, start);
      MatchesStep(positions, value, needle, start);
      if index < 0 {
        return;
      }
      positions := positions + [index];
      start := index + (if |needle| > 1 then |needle| else 1);
    }
  }

  /** True matches from `start` on, in order and at least a stride apart. */
  ghost predicate ScannedSoundly(value: string, needle: string, start: nat, positions: seq<nat>) {
    && (forall k | 0 <= k < |positions| :: start <= positions[k] && MatchAt(value, needle, positions[k]))
    && (forall k | 0 < k < |positions| :: positions[k - 1] + Stride(needle) <= positions[k])
  }

  /** Position `m` lies less than a stride after one of the positions. */
  ghost predicate Reached(m: nat, needle: string, positions: seq<nat>) {
    exists k | 0 <= k < |positions| :: positions[k] <= m < positions[k] + Stride(needle)
  }

  /**
   The scan finds true matches in order that do not overlap, and every match overlaps one that is
   found: it begins less than a needle's length after it.
   */
  lemma {:induction false} MatchesSoundAndComplete(value: string, needle: string, start: nat)
    ensures ScannedSoundly(value, needle, start, Matches(value, needle, start))
    ensures forall m: nat | start <= m && MatchAt(value, needle, m) :: Reached(m, needle, Matches(value, needle, start))
    decreases |value| + 1 - start
  {
    hide MatchAt, Find, Stride, Reached;
    var i := Find(value, needle, start);
    FindFirst(value, needle, start);
    if i >= 0 {
      var next := i + Stride(needle);
      MatchesSoundAndComplete(value, needle, next);
      var later := Matches(value, needle, next);
      SoundCons(value, needle, start, i, later);
      forall m: nat | start <= m && MatchAt(value, needle, m)
        ensures Reached(m, needle, Matches(value, needle, start))
      {
        ReachedCons(m, needle, i, later);
      }
    }
  }

  lemma SoundCons(value: string, needle: string, start: nat, i: nat, later: seq<nat>)
    requires start <= i && MatchAt(value, needle, i)
    requires ScannedSoundly(value, needle, i + Stride(needle), later)
    ensures ScannedSoundly(value, needle, start, [i] + later)
  {
    hide MatchAt, Stride;
    var all := [i] + later;
    assert forall k | 0 < k < |all| :: all[k] == later[k - 1];
  }

  lemma ReachedCons(m: nat, needle: string, i: nat, later: seq<nat>)
    requires i <= m && (m >= i + Stride(needle) ==> Reached(m, needle, later))
    ensures Reached(m, needle, [i] + later)
  {
    hide Stride;
    var all := [i] + later;
    if m < i + Stride(needle) {
      assert all[0] <= m < all[0] + Stride(needle);
    } else {
      var k :| 0 <= k < |later| && later[k] <= m < later[k] + Stride(needle);
      assert all[k + 1] == later[k];
    }
  }

  /** With an empty needle every position of the text is returned, its end included. */
  lemma {:induction false} EmptyNeedleMatches(value: string, start: nat)
    requires start <= |value| + 1
    ensures |Matches(value, "", start)| == |value| + 1 - start
    ensures forall k | 0 <= k < |Matches(value, "", start)| :: Matches(value, "", start)[k] == start + k
    decreases |value| + 1 - start
  {
    if start <= |value| {
      assert value[start..start] == "";
      assert Find(value, "", start) == start;
      EmptyNeedleMatches(value, start + 1);
    }
  }

  // ---------------------------------------------------------------- relation occurrences

  datatype Occurrence = Occurrence(anchor: string, index: nat) {
    function End(): nat { index + |anchor| }

    predicate Within(other: Occurrence) {
      other.index <= index && End() <= other.End()
    }
  }

  predicate LongestFirst(anchors: seq<string>) {
    forall i, j | 0 <= i < j < |anchors| :: |anchors[i]| >= |anchors[j]|
  }

  /** `sorted(anchors, key=len, reverse=True)`: longest first, equal lengths in their order. */
  function InsertByLength(anchor: string, anchors: seq<string>): (r: seq<string>)
    ensures multiset(r) == multiset{anchor} + multiset(anchors)
  {
    if anchors == [] then [anchor]
    else if |anchor| >= |anchors[0]| then [anchor] + anchors
    else
      assert anchors == [anchors[0]] + anchors[1..];
      [anchors[0]] + InsertByLength(anchor, anchors[1..])
  }

  function SortByLength(anchors: seq<string>): (r: seq<string>)
    ensures multiset(r) == multiset(anchors)
  {
    if anchors == [] then []
    else
      assert anchors == [anchors[0]] + anchors[1..];
      InsertByLength(anchors[0], SortByLength(anchors[1..]))
  }

  lemma {:induction false} InsertKeepsLongestFirst(anchor: string, anchors: seq<string>)
    requires LongestFirst(anchors)
    ensures LongestFirst(InsertByLength(anchor, anchors))
  {
    hide LongestFirst;
    FirstIsLongest(anchors);
    if anchors == [] || |anchor| >= |anchors[0]| {
      AddLongest(anchor, anchors);
      assert [anchor] + [] == [anchor];
    } else {
      InsertKeepsLongestFirst(anchor, anchors[1..]);
      InsertedMembers(InsertByLength(anchor, anchors[1..]), anchor, anchors[1..]);
      AddLongest(anchors[0], InsertByLength(anchor, anchors[1..]));
    }
  }

  lemma FirstIsLongest(anchors: seq<string>)
    requires LongestFirst(anchors)
    ensures anchors != [] ==> LongestFirst(anchors[1..]) && forall a | a in anchors :: |anchors[0]| >= |a|
  {
  }

  lemma AddLongest(longest: string, anchors: seq<string>)
    requires LongestFirst(anchors) && forall a | a in anchors :: |longest| >= |a|
    ensures LongestFirst([longest] + anchors)
  {
  }

  lemma {:induction false} SortedLongestFirst(anchors: seq<string>)
    ensures LongestFirst(SortByLength(anchors))
  {
    if anchors != [] {
      SortedLongestFirst(anchors[1..]);
      InsertKeepsLongestFirst(anchors[0], SortByLength(anchors[1..]));
    }
  }

  /** No occurrence lies inside another, whichever of the two was found first. */
  ghost predicate NoneInside(occurrences: seq<Occurrence>) {
    && (forall o, p | o in occurrences && p in occurrences && o != p :: !o.Within(p))
    && (forall i, j | 0 <= i < j < |occurrences| :: occurrences[i] != occurrences[j])
  }

  ghost predicate Genuine(occurrences: seq<Occurrence>, value: string, anchors: seq<string>) {
    forall o | o in occurrences :: o.anchor in anchors && MatchAt(value, o.anchor, o.index)
  }

  ghost predicate Covered(anchor: string, index: nat, occurrences: seq<Occurrence>) {
    exists o | o in occurrences :: Occurrence(anchor, index).Within(o)
  }

  /** Both the starts and the ends strictly increase. */
  predicate InOrder(occurrences: seq<Occurrence>) {
    forall i, j | 0 <= i < j < |occurrences| ::
      occurrences[i].index < occurrences[j].index && occurrences[i].End() < occurrences[j].End()
  }

  /** Stable insertion by index, as one step of `sorted(occurrences, key=index)`. */
  function InsertByIndex(o: Occurrence, sorted: seq<Occurrence>): (r: seq<Occurrence>)
    ensures |r| == |sorted| + 1
    ensures multiset(r) == multiset{o} + multiset(sorted)
  {
    if sorted == [] then [o]
    else if o.index <= sorted[0].index then [o] + sorted
    else
      assert sorted == [sorted[0]] + sorted[1..];
      [sorted[0]] + InsertByIndex(o, sorted[1..])
  }

  function SortByIndex(occurrences: seq<Occurrence>): (r: seq<Occurrence>)
    ensures multiset(r) == multiset(occurrences)
  {
    if occurrences == [] then []
    else
      assert occurrences == [occurrences[0]] + occurrences[1..];
      InsertByIndex(occurrences[0], SortByIndex(occurrences[1..]))
  }

  predicate ByIndex(occurrences: seq<Occurrence>) {
    forall i, j | 0 <= i < j < |occurrences| :: occurrences[i].index <= occurrences[j].index
  }

  lemma {:induction false} InsertKeepsByIndex(o: Occurrence, sorted: seq<Occurrence>)
    requires ByIndex(sorted)
    ensures ByIndex(InsertByIndex(o, sorted))
  {
    hide ByIndex;
    FirstByIndex(sorted);
    if sorted == [] || o.index <= sorted[0].index {
      AddFirstByIndex(o, sorted);
      assert [o] + [] == [o];
    } else {
      InsertKeepsByIndex(o, sorted[1..]);
      InsertedMembers(InsertByIndex(o, sorted[1..]), o, sorted[1..]);
      AddFirstByIndex(sorted[0], InsertByIndex(o, sorted[1..]));
    }
  }

  lemma FirstByIndex(sorted: seq<Occurrence>)
    requires ByIndex(sorted)
    ensures sorted != [] ==> ByIndex(sorted[1..]) && forall p | p in sorted :: sorted[0].index <= p.index
  {
  }

  lemma AddFirstByIndex(first: Occurrence, sorted: seq<Occurrence>)
    requires ByIndex(sorted) && forall p | p in sorted :: first.index <= p.index
    ensures ByIndex([first] + sorted)
  {
  }

  lemma {:induction false} SortedByIndex(occurrences: seq<Occurrence>)
    ensures ByIndex(SortByIndex(occurrences))
  {
    if occurrences != [] {
      SortedByIndex(occurrences[1..]);
      InsertKeepsByIndex(occurrences[0], SortByIndex(occurrences[1..]));
    }
  }

  lemma NothingFound(value: string, anchors: seq<string>)
    ensures Genuine([], value, anchors) && NoneInside([])
  {
  }

  lemma AddGenuine(occurrences: seq<Occurrence>, o: Occurrence, value: string, anchors: seq<string>)
    requires Genuine(occurrences, value, anchors) && o.anchor in anchors && MatchAt(value, o.anchor, o.index)
    ensures Genuine(occurrences + [o], value, anchors)
  {
    hide MatchAt;
  }

  predicate Intervals(occurrences: seq<Occurrence>, occupied: seq<(nat, nat)>) {
    && |occupied| == |occurrences|
    && forall k | 0 <= k < |occupied| :: occupied[k] == (occurrences[k].index, occurrences[k].End())
  }

  lemma OccupiedIsCovered(occurrences: seq<Occurrence>, occupied: seq<(nat, nat)>, anchor: string, index: nat)
    requires Intervals(occurrences, occupied)
    ensures (exists k | 0 <= k < |occupied| :: occupied[k].0 <= index && index + |anchor| <= occupied[k].1)
      <==> Covered(anchor, index, occurrences)
  {
    var o := Occurrence(anchor, index);
    if Covered(anchor, index, occurrences) {
      var p :| p in occurrences && o.Within(p);
      var k :| 0 <= k < |occurrences| && occurrences[k] == p;
      assert occupied[k].0 <= index && index + |anchor| <= occupied[k].1;
    }
    if k :| 0 <= k < |occupied| && occupied[k].0 <= index && index + |anchor| <= occupied[k].1 {
      assert o.Within(occurrences[k]);
    }
  }

  lemma SameCoverage(occurrences: seq<Occurrence>, sorted: seq<Occurrence>, value: string, anchors: seq<string>)
    requires forall o :: o in sorted <==> o in occurrences
    requires Genuine(occurrences, value, anchors)
    ensures Genuine(sorted, value, anchors)
    ensures forall a, i :: Covered(a, i, sorted) <==> Covered(a, i, occurrences)
  {
    hide MatchAt, Occurrence.Within;
    forall a, i: nat ensures Covered(a, i, sorted) <==> Covered(a, i, occurrences) {
      if o :| o in sorted && Occurrence(a, i).Within(o) { assert o in occurrences; }
      if o :| o in occurrences && Occurrence(a, i).Within(o) { assert o in sorted; }
    }
  }

  lemma AddOutside(occurrences: seq<Occurrence>, o: Occurrence)
    requires NoneInside(occurrences) && !Covered(o.anchor, o.index, occurrences)
    requires forall p | p in occurrences :: |p.anchor| >= |o.anchor|
    ensures NoneInside(occurrences + [o])
  {
    assert Occurrence(o.anchor, o.index) == o;
    forall p | p in occurrences ensures !o.Within(p) && !p.Within(o) && p != o {
      assert o.Within(p) ==> Covered(o.anchor, o.index, occurrences);
      assert p.Within(o) ==> o.Within(p);
      assert o.Within(o);
    }
    var more := occurrences + [o];
    forall p, q | p in more && q in more && p != q ensures !p.Within(q) {
      assert p == o || p in occurrences;
      assert q == o || q in occurrences;
    }
    forall i, j | 0 <= i < j < |more| ensures more[i] != more[j] {
      assert more[i] == occurrences[i] && occurrences[i] in occurrences;
    }
  }

  lemma SortKeepsMembers(occurrences: seq<Occurrence>)
    ensures forall o :: o in SortByIndex(occurrences) <==> o in occurrences
    ensures NoneInside(occurrences) ==> InOrder(SortByIndex(occurrences))
  {
    hide SortByIndex;
    var sorted := SortByIndex(occurrences);
    SameMembers(sorted, occurrences);
    SortedByIndex(occurrences);
    if NoneInside(occurrences) {
      forall i, j | 0 <= i < j < |sorted|
        ensures sorted[i].index < sorted[j].index && sorted[i].End() < sorted[j].End()
      {
        DistinctAfterSort(occurrences, sorted, i, j);
        assert !sorted[i].Within(sorted[j]) && !sorted[j].Within(sorted[i]);
      }
    }
  }

  lemma DistinctAfterSort(occurrences: seq<Occurrence>, sorted: seq<Occurrence>, i: nat, j: nat)
    requires multiset(sorted) == multiset(occurrences) && i < j < |sorted|
    requires forall i, j | 0 <= i < j < |occurrences| :: occurrences[i] != occurrences[j]
    ensures sorted[i] != sorted[j]
  {
    var o := sorted[i];
    AtMostOnce(occurrences, o);
    assert sorted == sorted[..i] + [o] + sorted[i + 1..];
    assert sorted[i + 1..][j - i - 1] == sorted[j];
    assert sorted[j] in sorted[i + 1..];
    assert multiset(sorted) == multiset(sorted[..i]) + multiset{o} + multiset(sorted[i + 1..]);
  }

  lemma {:induction false} AtMostOnce(occurrences: seq<Occurrence>, o: Occurrence)
    requires forall i, j | 0 <= i < j < |occurrences| :: occurrences[i] != occurrences[j]
    ensures multiset(occurrences)[o] <= 1
  {
    if occurrences != [] {
      assert occurrences == [occurrences[0]] + occurrences[1..];
      AtMostOnce(occurrences[1..], o);
      if occurrences[0] == o {
        assert o !in occurrences[1..];
      }
    }
  }

  /**
   The occurrences of a group of anchors: true matches, strictly ordered by where they start and
   where they end, so that none lies inside another; every scanned match of every anchor lies
   inside one of them.
   */
  method RelationOccurrences(value: string, anchors: seq<string>) returns (result: seq<Occurrence>)
    ensures Genuine(result, value, anchors)
    ensures InOrder(result)
    ensures forall a, i | a in anchors && i in Matches(value, a, 0) :: Covered(a, i, result)
  {
    hide Matches, MatchAt, SortByLength, SortByIndex, Genuine, NoneInside, Covered, ScannedSoundly, Reached, InOrder;
    var longestFirst := SortByLength(anchors);
    SortedLongestFirst(anchors);
    SameMembers(longestFirst, anchors);
    var occurrences: seq<Occurrence> := [];
    var occupied: seq<(nat, nat)> := [];
    NothingFound(value, anchors);
    for n := 0 to |longestFirst|
      invariant Intervals(occurrences, occupied)
      invariant Genuine(occurrences, value, anchors) && NoneInside(occurrences)
      invariant n < |longestFirst| ==> forall o | o in occurrences :: |o.anchor| >= |longestFirst[n]|
      invariant forall m, i | 0 <= m < n && i in Matches(value, longestFirst[m], 0) ::
        Covered(longestFirst[m], i, occurrences)
    {
      var anchor := longestFirst[n];
      var positions := FindAll(value, anchor);
      MatchesSoundAndComplete(value, anchor, 0);
      for p := 0 to |positions|
        invariant Intervals(occurrences, occupied)
        invariant Genuine(occurrences, value, anchors) && NoneInside(occurrences)
        invariant forall o | o in occurrences :: |o.anchor| >= |anchor|
        invariant forall m, i | 0 <= m < n && i in Matches(value, longestFirst[m], 0) ::
          Covered(longestFirst[m], i, occurrences)
        invariant forall q | 0 <= q < p :: Covered(anchor, positions[q], occurrences)
      {
        var index := positions[p];
        var end := index + |anchor|;
        var o := Occurrence(anchor, index);
        OccupiedIsCovered(occurrences, occupied, anchor, index);
        if exists k | 0 <= k < |occupied| :: occupied[k].0 <= index && end <= occupied[k].1 {
          continue;
        }
        ScannedMatch(value, anchor, positions, p);
        AddGenuine(occurrences, o, value, anchors);
        AddOutside(occurrences, o);
        CoveredGrows(occurrences, o);
        occurrences := occurrences + [o];
        occupied := occupied + [(index, end)];
      }
    }
    result := SortByIndex(occurrences);
    SortKeepsMembers(occurrences);
    SameCoverage(occurrences, result, value, anchors);
    forall a, i | a in anchors && i in Matches(value, a, 0) ensures Covered(a, i, result) {
      var m :| 0 <= m < |longestFirst| && longestFirst[m] == a;
      assert Covered(a, i, occurrences);
    }
  }

  lemma ScannedMatch(value: string, anchor: string, positions: seq<nat>, p: nat)
    requires ScannedSoundly(value, anchor, 0, positions) && p < |positions|
    ensures MatchAt(value, anchor, positions[p])
  {
  }

  lemma CoveredGrows(occurrences: seq<Occurrence>, o: Occurrence)
    ensures forall a, i | Covered(a, i, occurrences) :: Covered(a, i, occurrences + [o])
    ensures Covered(o.anchor, o.index, occurrences + [o])
  {
    assert Occurrence(o.anchor, o.index).Within(o) && o in occurrences + [o];
    forall a, i | Covered(a, i, occurrences) ensures Covered(a, i, occurrences + [o]) {
      var p :| p in occurrences && Occurrence(a, i).Within(p);
      assert p in occurrences + [o];
    }
  }
}
