/**
 * Noise intervals of the clean-baseline builder: merging them, and sweeping rows
 * past the merged list with a second pointer that never moves back.
 */
module BaselineIntervals {
  import opened Sequences

  /** A metrics row: its timestamp, and the remaining columns, which the builder never reads. */
  datatype Row = Row(timestamp: int, columns: seq<real>)

  /** Closed on both ends; nothing forces `start <= end` when a window setting is negative. */
  datatype Interval = Interval(start: int, end: int)

  predicate Covers(iv: Interval, t: int) { iv.start <= t <= iv.end }

  predicate Covered(t: int, ivs: seq<Interval>) {
    exists i :: 0 <= i < |ivs| && Covers(ivs[i], t)
  }

  ghost predicate TimeOrdered(rows: seq<Row>) {
    forall i, j :: 0 <= i < j < |rows| ==> rows[i].timestamp <= rows[j].timestamp
  }

  /** Each interval ends strictly before the next one starts. */
  ghost predicate Separated(ivs: seq<Interval>) {
    forall i, j :: 0 <= i < j < |ivs| ==> ivs[i].end < ivs[j].start && ivs[i].start <= ivs[j].start
  }

  /** The naive filter: the rows lying in none of the intervals. */
  function Outside(rows: seq<Row>, ivs: seq<Interval>): seq<Row> {
    if rows == [] then []
    else if Covered(rows[0].timestamp, ivs) then Outside(rows[1..], ivs)
    else [rows[0]] + Outside(rows[1..], ivs)
  }

  lemma {:induction false} OutsideIsExact(rows: seq<Row>, ivs: seq<Interval>)
    ensures Subsequence(Outside(rows, ivs), rows)
    ensures forall r :: multiset(Outside(rows, ivs))[r]
              == if Covered(r.timestamp, ivs) then 0 else multiset(rows)[r]
  {
    if rows != [] {
      OutsideIsExact(rows[1..], ivs);
      SubsequenceCons(rows[0], Outside(rows[1..], ivs), rows[1..]);
      assert rows == [rows[0]] + rows[1..];
    }
  }

  lemma OutsideMembers(rows: seq<Row>, ivs: seq<Interval>, r: Row)
    ensures r in Outside(rows, ivs) <==> r in rows && !Covered(r.timestamp, ivs)
  {
    OutsideIsExact(rows, ivs);
    assert r in rows <==> multiset(rows)[r] > 0;
    assert r in Outside(rows, ivs) <==> multiset(Outside(rows, ivs))[r] > 0;
  }

  lemma {:induction false} OutsideMonotone(rows: seq<Row>, narrow: seq<Interval>, wide: seq<Interval>)
    requires forall r :: r in rows && Covered(r.timestamp, narrow) ==> Covered(r.timestamp, wide)
    ensures Subsequence(Outside(rows, wide), Outside(rows, narrow))
  {
    if rows != [] {
      assert rows[0] in rows;
      OutsideMonotone(rows[1..], narrow, wide);
      SubsequenceCons(rows[0], Outside(rows[1..], wide), Outside(rows[1..], narrow));
    }
  }

  lemma {:induction false} OutsideCongruence(rows: seq<Row>, a: seq<Interval>, b: seq<Interval>)
    requires forall r :: r in rows ==> (Covered(r.timestamp, a) <==> Covered(r.timestamp, b))
    ensures Outside(rows, a) == Outside(rows, b)
  {
    if rows != [] {
      assert rows[0] in rows;
      OutsideCongruence(rows[1..], a, b);
    }
  }

  // ---------- merging ----------

  /** Python's order on pairs. */
  function ByStartThenEnd(): (Interval, Interval) -> bool {
    (a: Interval, b: Interval) => a.start < b.start || (a.start == b.start && a.end <= b.end)
  }

  /** Extends the last merged interval if the next one overlaps it, else starts a new one. */
  function Absorb(merged: seq<Interval>, iv: Interval): seq<Interval> {
    if merged != [] && iv.start <= merged[|merged| - 1].end then
      var last := merged[|merged| - 1];
      merged[|merged| - 1 := Interval(last.start, Max(last.end, iv.end))]
    else
      merged + [iv]
  }

  function MergeSorted(sorted: seq<Interval>): seq<Interval> {
    if sorted == [] then [] else Absorb(MergeSorted(sorted[..|sorted| - 1]), sorted[|sorted| - 1])
  }

  function Merge(ivs: seq<Interval>): seq<Interval> { MergeSorted(StableSort(ivs, ByStartThenEnd())) }

  method MergeIntervals(intervals: seq<Interval>) returns (merged: seq<Interval>)
    ensures merged == Merge(intervals)
  {
    hide StableSort;
    if intervals == [] {
      assert StableSort(intervals, ByStartThenEnd()) == [] by {
        ByStartThenEndIsOrder();
        SortCorrect(intervals, ByStartThenEnd());
      }
      return [];
    }
    var sorted := StableSort(intervals, ByStartThenEnd());
    ByStartThenEndIsOrder();
    SortCorrect(intervals, ByStartThenEnd());
    merged := [sorted[0]];
    var i := 1;
    assert sorted[..1][..0] == [];
    while i < |sorted|
      invariant 1 <= i <= |sorted|
      invariant merged != [] && merged == MergeSorted(sorted[..i])
    {
      var iv := sorted[i];
      assert sorted[..i + 1][..i] == sorted[..i];
      var last := merged[|merged| - 1];
      if iv.start <= last.end {
        merged := merged[|merged| - 1 := Interval(last.start, Max(last.end, iv.end))];
      } else {
        merged := merged + [iv];
      }
      i := i + 1;
    }
    assert sorted[..i] == sorted;
  }

  lemma ByStartThenEndIsOrder()
    ensures TotalPreorder(ByStartThenEnd())
  {
  }

  lemma {:induction false} MergeSortedSeparated(sorted: seq<Interval>)
    requires SortedBy(sorted, ByStartThenEnd())
    ensures var m := MergeSorted(sorted);
            Separated(m) && (m != [] ==> sorted != [] && m[|m| - 1].start <= sorted[|sorted| - 1].start)
  {
    if sorted != [] {
      var n := |sorted| - 1;
      MergeSortedSeparated(sorted[..n]);
      if n > 0 { assert ByStartThenEnd()(sorted[n - 1], sorted[n]); }
      AbsorbSeparated(MergeSorted(sorted[..n]), sorted[n]);
    }
  }

  lemma AbsorbSeparated(merged: seq<Interval>, iv: Interval)
    requires Separated(merged) && (merged != [] ==> merged[|merged| - 1].start <= iv.start)
    ensures var m := Absorb(merged, iv);
            Separated(m) && m != [] && m[|m| - 1].start <= iv.start
  {
  }

  lemma {:induction false} MergeSortedCovers(sorted: seq<Interval>, t: int)
    requires SortedBy(sorted, ByStartThenEnd())
    ensures Covered(t, MergeSorted(sorted)) <==> Covered(t, sorted)
  {
    if sorted != [] {
      var n := |sorted| - 1;
      MergeSortedCovers(sorted[..n], t);
      MergeSortedSeparated(sorted[..n]);
      if n > 0 { assert ByStartThenEnd()(sorted[n - 1], sorted[n]); }
      assert sorted == sorted[..n] + [sorted[n]];
      AbsorbCovers(MergeSorted(sorted[..n]), sorted[n], t);
      CoveredAppend(sorted[..n], sorted[n], t);
    }
  }

  lemma CoveredAppend(ivs: seq<Interval>, iv: Interval, t: int)
    ensures Covered(t, ivs + [iv]) <==> Covered(t, ivs) || Covers(iv, t)
  {
    var both := ivs + [iv];
    if Covers(iv, t) { assert Covers(both[|ivs|], t); }
    if Covered(t, ivs) {
      var i :| 0 <= i < |ivs| && Covers(ivs[i], t);
      assert Covers(both[i], t);
    }
  }

  lemma AbsorbCovers(merged: seq<Interval>, iv: Interval, t: int)
    requires merged != [] ==> merged[|merged| - 1].start <= iv.start
    ensures Covered(t, Absorb(merged, iv)) <==> Covered(t, merged) || Covers(iv, t)
  {
    if merged != [] && iv.start <= merged[|merged| - 1].end {
      var k, last := |merged| - 1, merged[|merged| - 1];
      var wider := Interval(last.start, Max(last.end, iv.end));
      assert merged == merged[..k] + [last];
      assert Absorb(merged, iv) == merged[..k] + [wider];
      CoveredAppend(merged[..k], last, t);
      CoveredAppend(merged[..k], wider, t);
    } else {
      CoveredAppend(merged, iv, t);
    }
  }

  /** Merging keeps the covered integers, and leaves the intervals sorted and disjoint. */
  lemma MergeCorrect(ivs: seq<Interval>)
    ensures Separated(Merge(ivs))
    ensures forall t :: Covered(t, Merge(ivs)) <==> Covered(t, ivs)
  {
    var sorted := StableSort(ivs, ByStartThenEnd());
    ByStartThenEndIsOrder();
    SortCorrect(ivs, ByStartThenEnd());
    MergeSortedSeparated(sorted);
    forall t ensures Covered(t, Merge(ivs)) <==> Covered(t, ivs) {
      MergeSortedCovers(sorted, t);
      SameMembersSameCover(sorted, ivs, t);
      SameMembersSameCover(ivs, sorted, t);
    }
  }

  lemma SameMembersSameCover(a: seq<Interval>, b: seq<Interval>, t: int)
    requires multiset(a) == multiset(b)
    ensures Covered(t, a) ==> Covered(t, b)
  {
    if Covered(t, a) {
      var i :| 0 <= i < |a| && Covers(a[i], t);
      assert a[i] in multiset(b);
      var j :| 0 <= j < |b| && b[j] == a[i];
      assert Covers(b[j], t);
    }
  }

  // ---------- how many intervals are left ----------

  ghost predicate Upright(ivs: seq<Interval>) {
    forall i :: 0 <= i < |ivs| ==> ivs[i].start <= ivs[i].end
  }

  /** No interval that starts before `s` reaches it. */
  ghost predicate Unreached(ivs: seq<Interval>, s: int) {
    forall i :: 0 <= i < |ivs| && ivs[i].start < s ==> ivs[i].end < s
  }

  function Starts(ivs: seq<Interval>): set<int> { set i | 0 <= i < |ivs| :: ivs[i].start }

  /** Where a run of overlapping intervals begins. */
  ghost function GroupStarts(ivs: seq<Interval>): set<int> { set s | s in Starts(ivs) && Unreached(ivs, s) }

  /** The farthest end of the intervals. */
  ghost predicate Farthest(ivs: seq<Interval>, end: int) {
    && (forall i :: 0 <= i < |ivs| ==> ivs[i].end <= end)
    && (exists i :: 0 <= i < |ivs| && ivs[i].end == end)
  }

  /** The last merged interval reaches as far as anything so far. */
  lemma {:induction false} MergeSortedFarthest(sorted: seq<Interval>)
    requires SortedBy(sorted, ByStartThenEnd()) && Upright(sorted)
    ensures (MergeSorted(sorted) == []) == (sorted == [])
    ensures var m := MergeSorted(sorted); m != [] ==> Farthest(sorted, m[|m| - 1].end)
  {
    if sorted != [] {
      var before, iv := sorted[..|sorted| - 1], sorted[|sorted| - 1];
      LastStartsLast(sorted);
      MergeSortedFarthest(before);
      hide SortedBy, Upright, Farthest;
      var m := MergeSorted(before);
      FarthestAppend(before, iv, if m == [] then iv.end else m[|m| - 1].end);
    }
  }

  lemma FarthestAppend(before: seq<Interval>, iv: Interval, end: int)
    requires (if before == [] then end == iv.end else Farthest(before, end)) && iv.start <= iv.end
    ensures Farthest(before + [iv], Max(end, iv.end))
    ensures end < iv.start ==> Farthest(before + [iv], iv.end)
  {
    var all := before + [iv];
    assert all[|before|] == iv;
    if before != [] {
      var i :| 0 <= i < |before| && before[i].end == end;
      assert all[i] == before[i];
    }
  }

  lemma LastStartsLast(sorted: seq<Interval>)
    requires SortedBy(sorted, ByStartThenEnd()) && Upright(sorted) && sorted != []
    ensures var before, iv := sorted[..|sorted| - 1], sorted[|sorted| - 1];
            && SortedBy(before, ByStartThenEnd()) && Upright(before) && sorted == before + [iv]
            && iv.start <= iv.end && forall i :: 0 <= i < |before| ==> before[i].start <= iv.start
  {
    var n := |sorted| - 1;
    forall i | 0 <= i < n ensures sorted[i].start <= sorted[n].start {
      assert ByStartThenEnd()(sorted[i], sorted[n]);
    }
  }

  lemma {:induction false} MergeSortedStarts(sorted: seq<Interval>)
    requires SortedBy(sorted, ByStartThenEnd()) && Upright(sorted)
    ensures Starts(MergeSorted(sorted)) == GroupStarts(sorted) && |MergeSorted(sorted)| == |GroupStarts(sorted)|
  {
    if sorted == [] {
      assert GroupStarts(sorted) == {} && Starts([]) == {};
    } else {
      hide SortedBy, Upright, GroupStarts, Starts, Farthest, Absorb;
      var before, iv := sorted[..|sorted| - 1], sorted[|sorted| - 1];
      LastStartsLast(sorted);
      MergeSortedStarts(before);
      MergeSortedFarthest(before);
      AbsorbStarts(before, MergeSorted(before), iv);
    }
  }

  lemma AbsorbStarts(before: seq<Interval>, m: seq<Interval>, iv: Interval)
    requires Upright(before) && forall i :: 0 <= i < |before| ==> before[i].start <= iv.start
    requires (m == []) == (before == []) && (m != [] ==> Farthest(before, m[|m| - 1].end))
    requires Starts(m) == GroupStarts(before) && |m| == |GroupStarts(before)|
    ensures Starts(Absorb(m, iv)) == GroupStarts(before + [iv]) && |Absorb(m, iv)| == |GroupStarts(before + [iv])|
  {
    hide GroupStarts, Starts;
    if m != [] && iv.start <= m[|m| - 1].end {
      hide Farthest;
      SameStarts(m, Absorb(m, iv));
      GroupsIfReached(before, iv, m[|m| - 1].end);
    } else {
      StartsAppend(m, iv);
      GroupsIfUnreached(before, iv);
    }
  }

  lemma GroupsIfReached(before: seq<Interval>, iv: Interval, end: int)
    requires forall i :: 0 <= i < |before| ==> before[i].start <= iv.start
    requires Farthest(before, end) && iv.start <= end
    ensures GroupStarts(before + [iv]) == GroupStarts(before)
  {
    EarlierGroupsStay(before, iv);
    ReachedStart(before, iv, end);
    hide GroupStarts, Farthest;
  }

  lemma GroupsIfUnreached(before: seq<Interval>, iv: Interval)
    requires Upright(before) && forall i :: 0 <= i < |before| ==> before[i].end < iv.start
    ensures GroupStarts(before + [iv]) == GroupStarts(before) + {iv.start} && iv.start !in GroupStarts(before)
  {
    assert forall i :: 0 <= i < |before| ==> before[i].start <= before[i].end;
    EarlierGroupsStay(before, iv);
    UnreachedStart(before, iv);
    hide GroupStarts, Upright;
  }

  lemma ReachedStart(before: seq<Interval>, iv: Interval, end: int)
    requires Farthest(before, end) && iv.start <= end
    requires forall i :: 0 <= i < |before| ==> before[i].start <= iv.start
    ensures iv.start in GroupStarts(before + [iv]) ==> iv.start in GroupStarts(before)
  {
    var all := before + [iv];
    var i :| 0 <= i < |before| && before[i].end == end;
    assert all[i] == before[i];
    if iv.start in GroupStarts(all) {
      assert before[i].start == iv.start;
      forall k | 0 <= k < |before| && before[k].start < iv.start ensures before[k].end < iv.start {
        assert all[k] == before[k];
      }
    }
  }

  lemma UnreachedStart(before: seq<Interval>, iv: Interval)
    requires forall i :: 0 <= i < |before| ==> before[i].end < iv.start
    requires Upright(before)
    ensures iv.start in GroupStarts(before + [iv]) && iv.start !in GroupStarts(before)
  {
    var all := before + [iv];
    assert all[|before|] == iv;
    StartsAppend(before, iv);
    forall k | 0 <= k < |all| && all[k].start < iv.start ensures all[k].end < iv.start {
      assert all[k] == before[k];
    }
  }

  /** An interval that starts last can only decide whether its own start begins a group. */
  lemma EarlierGroupsStay(before: seq<Interval>, iv: Interval)
    requires forall i :: 0 <= i < |before| ==> before[i].start <= iv.start
    ensures forall s :: s != iv.start ==> (s in GroupStarts(before + [iv]) <==> s in GroupStarts(before))
    ensures iv.start in GroupStarts(before) ==> iv.start in GroupStarts(before + [iv])
  {
    StartsAppend(before, iv);
    var all := before + [iv];
    forall s | s <= iv.start ensures Unreached(all, s) <==> Unreached(before, s) {
      assert forall i :: 0 <= i < |before| ==> all[i] == before[i];
    }
    forall s | s in Starts(before) ensures s <= iv.start {
      var i :| 0 <= i < |before| && before[i].start == s;
    }
  }

  lemma StartsAppend(ivs: seq<Interval>, iv: Interval)
    ensures Starts(ivs + [iv]) == Starts(ivs) + {iv.start}
  {
    var all := ivs + [iv];
    assert all[|ivs|] == iv;
    forall s | s in Starts(ivs) ensures s in Starts(all) {
      var i :| 0 <= i < |ivs| && ivs[i].start == s;
      assert all[i] == ivs[i];
    }
  }

  lemma SameStarts(a: seq<Interval>, b: seq<Interval>)
    requires |a| == |b| && forall i :: 0 <= i < |a| ==> a[i].start == b[i].start
    ensures Starts(a) == Starts(b)
  {
    forall s ensures s in Starts(a) <==> s in Starts(b) {
      if s in Starts(a) { var i :| 0 <= i < |a| && a[i].start == s; assert b[i].start == s; }
      if s in Starts(b) { var i :| 0 <= i < |b| && b[i].start == s; assert a[i].start == s; }
    }
  }

  /** As many intervals are left as there are groups of overlapping ones, each starting where its group does. */
  lemma MergeCount(ivs: seq<Interval>)
    requires Upright(ivs)
    ensures Starts(Merge(ivs)) == GroupStarts(ivs) && |Merge(ivs)| == |GroupStarts(ivs)|
  {
    var sorted := StableSort(ivs, ByStartThenEnd());
    ByStartThenEndIsOrder();
    SortCorrect(ivs, ByStartThenEnd());
    SameMembers(ivs, sorted);
    SameMembers(sorted, ivs);
    assert Upright(sorted);
    assert GroupStarts(sorted) == GroupStarts(ivs);
    hide GroupStarts, Starts, Upright, Unreached, StableSort, SortedBy;
    MergeSortedStarts(sorted);
  }

  lemma SameMembers(a: seq<Interval>, b: seq<Interval>)
    requires multiset(a) == multiset(b)
    ensures Starts(a) <= Starts(b)
    ensures forall i :: 0 <= i < |b| ==> exists j :: 0 <= j < |a| && a[j] == b[i]
    ensures forall s :: Unreached(a, s) ==> Unreached(b, s)
  {
    forall i | 0 <= i < |b| ensures exists j :: 0 <= j < |a| && a[j] == b[i] {
      assert b[i] in multiset(b);
      assert b[i] in a;
    }
    forall s | s in Starts(a) ensures s in Starts(b) {
      var i :| 0 <= i < |a| && a[i].start == s;
      assert a[i] in multiset(a);
      assert a[i] in b;
      var j :| 0 <= j < |b| && b[j] == a[i];
    }
  }

  // ---------- sweeping ----------

  /** The two-pointer sweep: intervals ending before the current row are given up for good. */
  function Sweep(rows: seq<Row>, ivs: seq<Interval>): seq<Row>
    decreases |rows| + |ivs|
  {
    if rows == [] || ivs == [] then rows
    else
      var ts := rows[0].timestamp;
      if ivs[0].end < ts then Sweep(rows, ivs[1..])
      else if ivs[0].start <= ts then Sweep(rows[1..], ivs)
      else [rows[0]] + Sweep(rows[1..], ivs)
  }

  lemma SweepSteps(rows: seq<Row>, ivs: seq<Interval>, i: nat, k: nat)
    requires i < |rows| && k <= |ivs|
    ensures var now := Sweep(rows[i..], ivs[k..]);
            if k == |ivs| then now == [rows[i]] + Sweep(rows[i + 1..], ivs[k..])
            else if ivs[k].end < rows[i].timestamp then now == Sweep(rows[i..], ivs[k + 1..])
            else if ivs[k].start <= rows[i].timestamp then now == Sweep(rows[i + 1..], ivs[k..])
            else now == [rows[i]] + Sweep(rows[i + 1..], ivs[k..])
  {
    assert rows[i..] == [rows[i]] + rows[i + 1..];
    if k < |ivs| { assert ivs[k..] == [ivs[k]] + ivs[k + 1..]; }
  }

  method FilterRowsOutsideIntervals(rows: seq<Row>, intervals: seq<Interval>) returns (filtered: seq<Row>)
    ensures filtered == Sweep(rows, intervals)
  {
    if intervals == [] {
      return rows;
    }
    filtered := [];
    var index := 0;
    assert rows[0..] == rows && intervals[0..] == intervals;
    for i := 0 to |rows|
      invariant 0 <= index <= |intervals|
      invariant filtered + Sweep(rows[i..], intervals[index..]) == Sweep(rows, intervals)
    {
      var ts := rows[i].timestamp;
      while index < |intervals| && intervals[index].end < ts
        invariant 0 <= index <= |intervals|
        invariant filtered + Sweep(rows[i..], intervals[index..]) == Sweep(rows, intervals)
      {
        SweepSteps(rows, intervals, i, index);
        index := index + 1;
      }
      SweepSteps(rows, intervals, i, index);
      if index < |intervals| && intervals[index].start <= ts <= intervals[index].end {
        continue;
      }
      assert filtered + ([rows[i]] + Sweep(rows[i + 1..], intervals[index..]))
          == filtered + [rows[i]] + Sweep(rows[i + 1..], intervals[index..]);
      filtered := filtered + [rows[i]];
    }
  }

  /** No interval covers a row that comes after a row already past that interval's end. */
  ghost predicate NoStraggler(rows: seq<Row>, ivs: seq<Interval>) {
    forall i, j, k :: 0 <= i < j < |rows| && 0 <= k < |ivs| && Covers(ivs[k], rows[j].timestamp)
      ==> rows[i].timestamp <= ivs[k].end
  }

  lemma CoveredTail(ivs: seq<Interval>, t: int)
    requires ivs != []
    ensures Covered(t, ivs) <==> Covers(ivs[0], t) || Covered(t, ivs[1..])
  {
    if Covered(t, ivs) {
      var i :| 0 <= i < |ivs| && Covers(ivs[i], t);
      if i > 0 { assert Covers(ivs[1..][i - 1], t); }
    }
    if Covered(t, ivs[1..]) {
      var i :| 0 <= i < |ivs[1..]| && Covers(ivs[1..][i], t);
      assert Covers(ivs[i + 1], t);
    }
  }

  lemma FirstIntervalDecides(ivs: seq<Interval>, t: int)
    requires ivs != [] && Separated(ivs) && t <= ivs[0].end
    ensures Covered(t, ivs) <==> ivs[0].start <= t
  {
    if ivs[0].start <= t { assert Covers(ivs[0], t); }
  }

  lemma {:induction false} SweepExact(rows: seq<Row>, ivs: seq<Interval>)
    requires Separated(ivs) && NoStraggler(rows, ivs)
    ensures Sweep(rows, ivs) == Outside(rows, ivs)
    decreases |rows| + |ivs|
  {
    if rows == [] {
    } else if ivs == [] {
      SweepExact(rows[1..], ivs);
      assert rows == [rows[0]] + rows[1..];
    } else if ivs[0].end < rows[0].timestamp {
      forall r | r in rows ensures Covered(r.timestamp, ivs) <==> Covered(r.timestamp, ivs[1..]) {
        CoveredTail(ivs, r.timestamp);
        var j :| 0 <= j < |rows| && rows[j] == r;
        assert j > 0 ==> !Covers(ivs[0], rows[j].timestamp);
      }
      OutsideCongruence(rows, ivs, ivs[1..]);
      SweepExact(rows, ivs[1..]);
    } else {
      FirstIntervalDecides(ivs, rows[0].timestamp);
      SweepExact(rows[1..], ivs);
    }
  }

  lemma TailKeepsMore(rows: seq<Row>, ivs: seq<Interval>)
    requires ivs != []
    ensures Subsequence(Outside(rows, ivs), Outside(rows, ivs[1..]))
  {
    forall r | r in rows && Covered(r.timestamp, ivs[1..]) ensures Covered(r.timestamp, ivs) {
      CoveredTail(ivs, r.timestamp);
    }
    OutsideMonotone(rows, ivs[1..], ivs);
  }

  /** Whatever the row order, the sweep only ever drops covered rows. */
  lemma {:induction false} SweepKeepsOutside(rows: seq<Row>, ivs: seq<Interval>)
    requires Separated(ivs)
    ensures Subsequence(Outside(rows, ivs), Sweep(rows, ivs))
    ensures Subsequence(Sweep(rows, ivs), rows)
    decreases |rows| + |ivs|
  {
    if rows == [] {
    } else if ivs == [] {
      SubsequenceReflexive(rows);
      OutsideIsExact(rows, ivs);
    } else if ivs[0].end < rows[0].timestamp {
      SweepKeepsOutside(rows, ivs[1..]);
      TailKeepsMore(rows, ivs);
      SubsequenceTransitive(Outside(rows, ivs), Outside(rows, ivs[1..]), Sweep(rows, ivs));
    } else {
      FirstIntervalDecides(ivs, rows[0].timestamp);
      SweepKeepsOutside(rows[1..], ivs);
      SubsequenceCons(rows[0], Outside(rows[1..], ivs), Sweep(rows[1..], ivs));
      SubsequenceCons(rows[0], Sweep(rows[1..], ivs), rows[1..]);
      assert rows == [rows[0]] + rows[1..];
    }
  }

  /** Giving up the first interval while a row it covers is still to come leaks that row. */
  lemma GivingUpLeaks(rows: seq<Row>, ivs: seq<Interval>, row: Row)
    requires Separated(ivs) && ivs != [] && row in rows && Covers(ivs[0], row.timestamp)
    ensures |Outside(rows, ivs)| < |Sweep(rows, ivs[1..])|
  {
    hide Outside, Sweep;
    TailKeepsMore(rows, ivs);
    SubsequenceBounds(Outside(rows, ivs), Outside(rows, ivs[1..]));
    SweepKeepsOutside(rows, ivs[1..]);
    SubsequenceBounds(Outside(rows, ivs[1..]), Sweep(rows, ivs[1..]));
    OutsideMembers(rows, ivs, row);
    OutsideMembers(rows, ivs[1..], row);
  }

  /** A straggler leaks: a covered row survives the sweep. */
  lemma {:induction false} StragglerLeaks(rows: seq<Row>, ivs: seq<Interval>, i: nat, j: nat, k: nat)
    requires Separated(ivs)
    requires i < j < |rows| && k < |ivs|
    requires Covers(ivs[k], rows[j].timestamp) && ivs[k].end < rows[i].timestamp
    ensures |Outside(rows, ivs)| < |Sweep(rows, ivs)|
    decreases |rows| + |ivs|
  {
    if ivs[0].end < rows[0].timestamp {
      hide Outside, Covered;
      if k > 0 {
        TailKeepsMore(rows, ivs);
        SubsequenceBounds(Outside(rows, ivs), Outside(rows, ivs[1..]));
        StragglerLeaks(rows, ivs[1..], i, j, k - 1);
      } else {
        GivingUpLeaks(rows, ivs, rows[j]);
      }
    } else {
      assert i > 0;
      FirstIntervalDecides(ivs, rows[0].timestamp);
      StragglerLeaks(rows[1..], ivs, i - 1, j - 1, k);
    }
  }

  /** Exactly when the fast sweep is the naive filter. */
  lemma SweepExactIff(rows: seq<Row>, ivs: seq<Interval>)
    requires Separated(ivs)
    ensures Sweep(rows, ivs) == Outside(rows, ivs) <==> NoStraggler(rows, ivs)
  {
    if NoStraggler(rows, ivs) {
      SweepExact(rows, ivs);
    } else {
      var i, j, k :| 0 <= i < j < |rows| && 0 <= k < |ivs| && Covers(ivs[k], rows[j].timestamp)
                     && ivs[k].end < rows[i].timestamp;
      StragglerLeaks(rows, ivs, i, j, k);
    }
  }

  /** What the builder keeps for a list of raw, overlapping, unsorted intervals. */
  function Kept(rows: seq<Row>, ivs: seq<Interval>): seq<Row> { Sweep(rows, Merge(ivs)) }

  /** For the time-ordered rows the trainer selects, merge-then-sweep is the naive filter. */
  lemma KeptIsOutside(rows: seq<Row>, ivs: seq<Interval>)
    requires TimeOrdered(rows)
    ensures Kept(rows, ivs) == Outside(rows, ivs)
  {
    MergeCorrect(ivs);
    SweepExact(rows, Merge(ivs));
    OutsideCongruence(rows, Merge(ivs), ivs);
  }

  lemma {:induction false} SubsequenceTimeOrdered(a: seq<Row>, b: seq<Row>)
    requires Subsequence(a, b) && TimeOrdered(b)
    ensures TimeOrdered(a)
    decreases |b|
  {
    if a == [] {
    } else if a[0] == b[0] && Subsequence(a[1..], b[1..]) {
      SubsequenceTimeOrdered(a[1..], b[1..]);
      SubsequenceBounds(a[1..], b[1..]);
      forall j | 1 <= j < |a| ensures a[0].timestamp <= a[j].timestamp {
        assert a[1..][j - 1] in multiset(a[1..]);
        assert a[j] in multiset(b[1..]);
      }
    } else {
      SubsequenceTimeOrdered(a, b[1..]);
    }
  }
}
