/**
 * The best-effort fallback: rank rows by contamination, keep the least contaminated
 * ones, and put them back in time order. Both sorts are stable.
 */
module BaselineSelection {
  import opened Sequences
  import opened BaselineIntervals
  import opened BaselineQuality
  import opened BaselineEvents

  datatype Scored = Scored(score: real, timestamp: int, row: Row)

  function ByScoreThenTime(): (Scored, Scored) -> bool {
    (a: Scored, b: Scored) => a.score < b.score || (a.score == b.score && a.timestamp <= b.timestamp)
  }

  function ByTimestamp(): (Row, Row) -> bool { (a: Row, b: Row) => a.timestamp <= b.timestamp }

  /** The order the decorated sort induces on the rows themselves. */
  function ByContamination(windows: seq<EventWindow>): (Row, Row) -> bool {
    (a: Row, b: Row) => ByScoreThenTime()(Decorate(a, windows), Decorate(b, windows))
  }

  function Decorate(row: Row, windows: seq<EventWindow>): Scored {
    Scored(Contamination(row.timestamp, windows), row.timestamp, row)
  }

  function DecorateAll(rows: seq<Row>, windows: seq<EventWindow>): seq<Scored> {
    if rows == [] then [] else [Decorate(rows[0], windows)] + DecorateAll(rows[1..], windows)
  }

  function RowsOf(scored: seq<Scored>): (rows: seq<Row>)
    ensures |rows| == |scored|
    ensures forall i :: 0 <= i < |rows| ==> rows[i] == scored[i].row
  {
    if scored == [] then [] else [scored[0].row] + RowsOf(scored[1..])
  }

  function Ranked(rows: seq<Row>, windows: seq<EventWindow>): seq<Row> {
    StableSort(rows, ByContamination(windows))
  }

  /** The `k` least contaminated rows, in time order; nothing when there are fewer than `k`. */
  function BestEffort(rows: seq<Row>, windows: seq<EventWindow>, k: nat): seq<Row> {
    if |rows| < k then []
    else
      RankedLength(rows, windows);
      StableSort(Ranked(rows, windows)[..k], ByTimestamp())
  }

  function TotalContamination(rows: seq<Row>, windows: seq<EventWindow>): real {
    if rows == [] then 0.0
    else Contamination(rows[0].timestamp, windows) + TotalContamination(rows[1..], windows)
  }

  method BuildBestEffortRows(rows: seq<Row>, windows: seq<EventWindow>, minSamples: nat)
    returns (selected: seq<Row>)
    ensures selected == BestEffort(rows, windows, minSamples)
    ensures |selected| == if |rows| < minSamples then 0 else minSamples
  {
    if |rows| < minSamples {
      return [];
    }
    var scored: seq<Scored> := [];
    for i := 0 to |rows|
      invariant |scored| == i
      invariant forall k :: 0 <= k < i ==> scored[k] == Decorate(rows[k], windows)
    {
      var score := RowContaminationScore(rows[i].timestamp, windows);
      scored := scored + [Scored(score, rows[i].timestamp, rows[i])];
    }
    DecorateAllAt(rows, windows);
    assert scored == DecorateAll(rows, windows);
    scored := StableSort(scored, ByScoreThenTime());
    SortDecorated(rows, windows);
    assert RowsOf(scored[..minSamples]) == Ranked(rows, windows)[..minSamples];
    selected := StableSort(RowsOf(scored[..minSamples]), ByTimestamp());
    BestEffortIsSelection(rows, windows, minSamples);
  }

  // ---------- decorate, sort, undecorate ----------

  lemma {:induction false} DecorateAllAt(rows: seq<Row>, windows: seq<EventWindow>)
    ensures |DecorateAll(rows, windows)| == |rows|
    ensures forall i :: 0 <= i < |rows| ==> DecorateAll(rows, windows)[i] == Decorate(rows[i], windows)
  {
    if rows != [] { DecorateAllAt(rows[1..], windows); }
  }

  ghost predicate Decorated(scored: seq<Scored>, windows: seq<EventWindow>) {
    forall i :: 0 <= i < |scored| ==> scored[i] == Decorate(scored[i].row, windows)
  }

  lemma {:induction false} InsertDecorated(row: Row, scored: seq<Scored>, windows: seq<EventWindow>)
    requires Decorated(scored, windows)
    ensures var s := InsertStable(Decorate(row, windows), scored, ByScoreThenTime());
            && Decorated(s, windows)
            && RowsOf(s) == InsertStable(row, RowsOf(scored), ByContamination(windows))
  {
    hide Contamination;
    if scored != [] {
      assert Decorated(scored[1..], windows) by {
        forall i | 0 <= i < |scored[1..]| ensures scored[1..][i] == Decorate(scored[1..][i].row, windows) {
          assert scored[1..][i] == scored[i + 1];
        }
      }
      InsertDecorated(row, scored[1..], windows);
      assert RowsOf(scored)[1..] == RowsOf(scored[1..]);
    }
  }

  lemma {:induction false} SortDecorated(rows: seq<Row>, windows: seq<EventWindow>)
    ensures var s := StableSort(DecorateAll(rows, windows), ByScoreThenTime());
            Decorated(s, windows) && RowsOf(s) == Ranked(rows, windows) && |s| == |rows|
  {
    if rows != [] {
      SortDecorated(rows[1..], windows);
      InsertDecorated(rows[0], StableSort(DecorateAll(rows[1..], windows), ByScoreThenTime()), windows);
      assert DecorateAll(rows, windows)[1..] == DecorateAll(rows[1..], windows);
    }
    RankedLength(rows, windows);
  }

  lemma ByContaminationIsOrder(windows: seq<EventWindow>)
    ensures TotalPreorder(ByContamination(windows)) && TotalPreorder(ByTimestamp())
  {
    var le := ByContamination(windows);
    assert forall x, y :: le(x, y) <==>
      ByScoreThenTime()(Decorate(x, windows), Decorate(y, windows));
    forall x, y ensures le(x, y) || le(y, x) {
      assert le(x, y) || Decorate(y, windows).score <= Decorate(x, windows).score;
    }
    forall x, y, z | le(x, y) && le(y, z) ensures le(x, z) {
      assert Decorate(x, windows).score <= Decorate(y, windows).score <= Decorate(z, windows).score;
    }
  }

  lemma RankedLength(rows: seq<Row>, windows: seq<EventWindow>)
    ensures |Ranked(rows, windows)| == |rows|
  {
    ByContaminationIsOrder(windows);
    SortCorrect(rows, ByContamination(windows));
  }

  // ---------- a selection of the input ----------

  lemma BestEffortIsSelection(rows: seq<Row>, windows: seq<EventWindow>, k: nat)
    requires k <= |rows|
    ensures var selected := BestEffort(rows, windows, k);
            |selected| == k && multiset(selected) <= multiset(rows) && TimeOrdered(selected)
  {
    hide StableSort, ByContamination;
    ByContaminationIsOrder(windows);
    SortCorrect(rows, ByContamination(windows));
    var ranked := Ranked(rows, windows);
    SortCorrect(ranked[..k], ByTimestamp());
    assert ranked == ranked[..k] + ranked[k..];
    var selected := BestEffort(rows, windows, k);
    forall i, j | 0 <= i < j < |selected| ensures selected[i].timestamp <= selected[j].timestamp {
      assert ByTimestamp()(selected[i], selected[j]);
    }
  }

  /** No row left behind ranks before a selected one: lower scores first, earlier timestamps on ties. */
  lemma NothingBetterLeftBehind(rows: seq<Row>, windows: seq<EventWindow>, k: nat, chosen: Row, left: Row)
    requires k <= |rows|
    requires chosen in BestEffort(rows, windows, k)
    requires multiset(BestEffort(rows, windows, k))[left] < multiset(rows)[left]
    ensures var c, l := Contamination(chosen.timestamp, windows), Contamination(left.timestamp, windows);
            c < l || (c == l && chosen.timestamp <= left.timestamp)
  {
    hide StableSort, ByContamination;
    ByContaminationIsOrder(windows);
    SortCorrect(rows, ByContamination(windows));
    var ranked := Ranked(rows, windows);
    SortCorrect(ranked[..k], ByTimestamp());
    assert chosen in multiset(BestEffort(rows, windows, k));
    SplitOrdered(ranked, k, ByContamination(windows), chosen, left);
    RankMeans(windows, chosen, left);
  }

  lemma RankMeans(windows: seq<EventWindow>, a: Row, b: Row)
    requires ByContamination(windows)(a, b)
    ensures var c, l := Contamination(a.timestamp, windows), Contamination(b.timestamp, windows);
            c < l || (c == l && a.timestamp <= b.timestamp)
  {
    assert ByScoreThenTime()(Decorate(a, windows), Decorate(b, windows));
  }

  /**
   * With one event, no selected row is nearer to it than a row left behind within its reach, as long as
   * six digits tell neighbouring seconds apart.
   */
  lemma SelectedAreFarther(rows: seq<Row>, window: EventWindow, k: nat, chosen: Row, left: Row)
    requires k <= |rows| && chosen in BestEffort(rows, [window], k)
    requires multiset(BestEffort(rows, [window], k))[left] < multiset(rows)[left]
    requires window.weight * 1000000.0 > Max(30, window.bufferSeconds) as real
    requires Abs(left.timestamp - window.timestamp) < Max(30, window.bufferSeconds)
    ensures Abs(chosen.timestamp - window.timestamp) >= Abs(left.timestamp - window.timestamp)
  {
    hide BestEffort, Contamination, RawContamination, Contribution, RoundMicro;
    NothingBetterLeftBehind(rows, [window], k, chosen, left);
    OneWindow(chosen.timestamp, window);
    OneWindow(left.timestamp, window);
    if Abs(chosen.timestamp - window.timestamp) < Abs(left.timestamp - window.timestamp) {
      NearerContributesMore(chosen.timestamp, left.timestamp, window);
      MoreThanAMillionth(window.weight, Max(30, window.bufferSeconds));
      RoundMicroIsClose(Contribution(left.timestamp, window), Contribution(chosen.timestamp, window));
      assert false;
    }
  }

  lemma OneWindow(timestamp: int, window: EventWindow)
    ensures Contamination(timestamp, [window]) == RoundMicro(Contribution(timestamp, window))
  {
    ContaminationAdds(timestamp, [], [window]);
  }

  lemma MoreThanAMillionth(weight: real, buffer: int)
    requires weight * 1000000.0 > buffer as real > 0.0
    ensures weight / buffer as real > 0.000001
  {
    assert weight / buffer as real * buffer as real == weight;
  }

  lemma SplitOrdered<T>(s: seq<T>, k: nat, le: (T, T) -> bool, early: T, late: T)
    requires SortedBy(s, le) && k <= |s|
    requires early in s[..k] && multiset(s[..k])[late] < multiset(s)[late]
    ensures le(early, late)
  {
    assert s == s[..k] + s[k..];
    assert multiset(s[k..])[late] > 0;
    var i :| 0 <= i < k && s[i] == early;
    var j :| 0 <= j < |s[k..]| && s[k..][j] == late;
    assert le(s[i], s[k + j]);
  }

  // ---------- optimality ----------

  lemma {:induction false} TotalRemove(rows: seq<Row>, windows: seq<EventWindow>, i: nat)
    requires i < |rows|
    ensures TotalContamination(rows, windows)
         == Contamination(rows[i].timestamp, windows) + TotalContamination(RemoveAt(rows, i), windows)
  {
    if i == 0 {
      assert RemoveAt(rows, 0) == rows[1..];
    } else {
      TotalRemove(rows[1..], windows, i - 1);
      assert RemoveAt(rows, i)[1..] == RemoveAt(rows[1..], i - 1);
    }
  }

  lemma {:induction false} TotalOfPermutation(a: seq<Row>, b: seq<Row>, windows: seq<EventWindow>)
    requires multiset(a) == multiset(b)
    ensures TotalContamination(a, windows) == TotalContamination(b, windows)
  {
    if a == [] {
      assert |multiset(b)| == 0;
    } else {
      assert a == [a[0]] + a[1..];
      assert a[0] in multiset(b);
      var i :| 0 <= i < |b| && b[i] == a[0];
      TotalRemove(b, windows, i);
      RemoveAtMultiset(b, i);
      TailMultiset(a);
      assert multiset(a[1..]) == multiset(RemoveAt(b, i));
      TotalOfPermutation(a[1..], RemoveAt(b, i), windows);
    }
  }

  /** Drop the head of `ranked`, and from `other` the same row or, failing that, any row. */
  lemma ExchangeStep(ranked: seq<Row>, other: seq<Row>) returns (i: nat)
    requires other != [] && multiset(other) <= multiset(ranked)
    ensures ranked != [] && i < |other| && other[i] in ranked
    ensures multiset(RemoveAt(other, i)) <= multiset(ranked[1..])
  {
    assert other[0] in multiset(ranked);
    i := 0;
    if ranked[0] in other {
      i :| 0 <= i < |other| && other[i] == ranked[0];
    }
    assert other[i] in multiset(other);
    TailMultiset(ranked);
    RemoveAtMultiset(other, i);
    var o, r, x, y := multiset(other), multiset(ranked), other[i], ranked[0];
    assert x == y || y !in o;
    SmallerWithout(o, r, x, y);
  }

  lemma SmallerWithout(other: multiset<Row>, ranked: multiset<Row>, x: Row, y: Row)
    requires other <= ranked && (x == y || y !in other)
    ensures other - multiset{x} <= ranked - multiset{y}
  {
  }

  /** Exchange argument: a prefix of the ranking costs no more than any selection of the same size. */
  lemma {:induction false} PrefixIsCheapest(ranked: seq<Row>, windows: seq<EventWindow>, other: seq<Row>)
    requires SortedBy(ranked, ByContamination(windows))
    requires multiset(other) <= multiset(ranked)
    ensures |other| <= |ranked|
    ensures TotalContamination(ranked[..|other|], windows) <= TotalContamination(other, windows)
  {
    if other != [] {
      var i := ExchangeStep(ranked, other);
      var rest := RemoveAt(other, i);
      PrefixIsCheapest(ranked[1..], windows, rest);
      TotalRemove(other, windows, i);
      HeadIsCheapest(ranked, windows, other[i]);
      assert ranked[..|other|][1..] == ranked[1..][..|rest|];
    }
  }

  lemma HeadIsCheapest(ranked: seq<Row>, windows: seq<EventWindow>, row: Row)
    requires SortedBy(ranked, ByContamination(windows)) && row in ranked
    ensures Contamination(ranked[0].timestamp, windows) <= Contamination(row.timestamp, windows)
  {
    var j :| 0 <= j < |ranked| && ranked[j] == row;
    if j > 0 {
      assert ByContamination(windows)(ranked[0], ranked[j]);
      assert ByScoreThenTime()(Decorate(ranked[0], windows), Decorate(ranked[j], windows));
    }
  }

  lemma BestEffortIsOptimal(rows: seq<Row>, windows: seq<EventWindow>, k: nat, other: seq<Row>)
    requires |other| == k && multiset(other) <= multiset(rows)
    ensures k <= |rows|
    ensures TotalContamination(BestEffort(rows, windows, k), windows) <= TotalContamination(other, windows)
  {
    ByContaminationIsOrder(windows);
    SortCorrect(rows, ByContamination(windows));
    PrefixIsCheapest(Ranked(rows, windows), windows, other);
    SortCorrect(Ranked(rows, windows)[..k], ByTimestamp());
    TotalOfPermutation(BestEffort(rows, windows, k), Ranked(rows, windows)[..k], windows);
  }

  // ---------- time order and ties ----------

  function AtTime(t: int): Row -> bool { (r: Row) => r.timestamp == t }

  /** Two time-ordered lists that agree, timestamp by timestamp, up to a prefix. */
  lemma {:induction false} SubsequenceBySlices(a: seq<Row>, b: seq<Row>)
    requires TimeOrdered(a) && TimeOrdered(b)
    requires forall t :: Filter(a, AtTime(t)) <= Filter(b, AtTime(t))
    ensures Subsequence(a, b)
    decreases |b|
  {
    if a == [] {
      return;
    }
    var at := a[0].timestamp;
    FilterMembers(a, AtTime(at), a[0]);
    FilterMembers(b, AtTime(at), Filter(b, AtTime(at))[0]);
    assert b != [];
    var first := b[0].timestamp;
    if first == at {
      assert Filter(a, AtTime(at))[0] == a[0] && Filter(b, AtTime(at))[0] == b[0];
      forall t ensures Filter(a[1..], AtTime(t)) <= Filter(b[1..], AtTime(t)) {
        TailSlices(a, b, t);
      }
      SubsequenceBySlices(a[1..], b[1..]);
    } else {
      assert first < at;
      forall t ensures Filter(a, AtTime(t)) <= Filter(b[1..], AtTime(t)) {
        assert Filter(a, AtTime(t)) <= Filter(b, AtTime(t));
        TailSlice(b, t);
        if t == first && Filter(a, AtTime(t)) != [] {
          FilterMembers(a, AtTime(t), Filter(a, AtTime(t))[0]);
          assert false;
        }
      }
      SubsequenceBySlices(a, b[1..]);
    }
  }

  /** Two lists that start at the same time can both drop their heads. */
  lemma TailSlices(a: seq<Row>, b: seq<Row>, t: int)
    requires a != [] && b != [] && a[0].timestamp == b[0].timestamp && Filter(a, AtTime(t)) <= Filter(b, AtTime(t))
    ensures Filter(a[1..], AtTime(t)) <= Filter(b[1..], AtTime(t))
  {
    hide Filter, AtTime;
    TailSlice(a, t);
    TailSlice(b, t);
    if t == a[0].timestamp {
      PrefixTails(Filter(a, AtTime(t)), Filter(b, AtTime(t)));
    }
  }

  lemma PrefixTails<T>(p: seq<T>, q: seq<T>)
    requires p != [] && p <= q
    ensures p[1..] <= q[1..]
  {
    assert q == p + q[|p|..];
    assert q[1..] == p[1..] + q[|p|..];
  }

  lemma TailSlice(s: seq<Row>, t: int)
    requires s != []
    ensures Filter(s, AtTime(t)) == if s[0].timestamp == t then [s[0]] + Filter(s[1..], AtTime(t))
                                    else Filter(s[1..], AtTime(t))
    ensures s[0].timestamp == t ==> Filter(s, AtTime(t))[1..] == Filter(s[1..], AtTime(t))
  {
  }

  /** On time-ordered input the two sorts together only drop rows, even among equal timestamps. */
  lemma BestEffortIsSubsequence(rows: seq<Row>, windows: seq<EventWindow>, k: nat)
    requires TimeOrdered(rows) && k <= |rows|
    ensures Subsequence(BestEffort(rows, windows, k), rows)
  {
    BestEffortIsSelection(rows, windows, k);
    var selected := BestEffort(rows, windows, k);
    forall t ensures Filter(selected, AtTime(t)) <= Filter(rows, AtTime(t)) {
      SliceOfBestEffort(rows, windows, k, t);
    }
    SubsequenceBySlices(selected, rows);
  }

  lemma SliceOfBestEffort(rows: seq<Row>, windows: seq<EventWindow>, k: nat, t: int)
    requires k <= |rows|
    ensures Filter(BestEffort(rows, windows, k), AtTime(t)) <= Filter(rows, AtTime(t))
  {
    RankedLength(rows, windows);
    TiesAtTime(windows, t);
    SortStable(Ranked(rows, windows)[..k], ByTimestamp(), AtTime(t));
    FilterPrefix(Ranked(rows, windows), k, AtTime(t));
    SortStable(rows, ByContamination(windows), AtTime(t));
  }

  lemma TiesAtTime(windows: seq<EventWindow>, t: int)
    ensures forall a, b :: AtTime(t)(a) && AtTime(t)(b) ==> ByContamination(windows)(a, b)
    ensures forall a, b :: AtTime(t)(a) && AtTime(t)(b) ==> ByTimestamp()(a, b)
  {
    forall a, b | AtTime(t)(a) && AtTime(t)(b) ensures ByContamination(windows)(a, b) {
      assert ByScoreThenTime()(Decorate(a, windows), Decorate(b, windows));
    }
  }
}
