/**
 * The clean-baseline builder: maintenance filter, cascade of filter windows,
 * best-effort fallback, and the six exits they lead to.
 */
module BaselineDataset {
  import opened Sequences
  import opened BaselineIntervals
  import opened BaselineQuality
  import opened BaselineEvents
  import opened BaselineSelection

  datatype Request = Request(
    rows: seq<Row>, events: seq<RawEvent>, maintenanceTimestamps: seq<int>,
    minSamples: int, maxCleanEvents: int, filterWindows: seq<int>,
    hostProfile: string, maintenanceWindowSeconds: int)

  datatype Reason =
    | Ready | ReadyFilteredBaseline | ReadyBestEffortBaseline
    | InsufficientData | InsufficientCleanData | PoisonedBaseline

  datatype Dataset = Dataset(
    rows: seq<Row>, totalSamples: int, cleanSamples: int, discardedSamples: int,
    eventCount: int, maintenanceEventCount: int, filterWindowSeconds: int, maintenanceWindowSeconds: int,
    qualityScore: int, qualityLabel: QualityLabel, noiseLabel: NoiseLabel, reason: Reason,
    hostProfile: string, requiredSamples: int, maxCleanEvents: int, pressure: int, excludedWindows: int)

  predicate IsReady(reason: Reason) {
    reason.Ready? || reason.ReadyFilteredBaseline? || reason.ReadyBestEffortBaseline?
  }

  // ---------- quantities of a request ----------

  function Largest(windows: seq<int>): (w: int)
    ensures windows == [] ==> w == 0
    ensures windows != [] ==> w in windows && forall v :: v in windows ==> v <= w
  {
    if windows == [] then 0
    else if |windows| == 1 then windows[0]
    else
      assert windows == [windows[0]] + windows[1..];
      Max(windows[0], Largest(windows[1..]))
  }

  function Smallest(windows: seq<int>): (w: int)
    ensures windows == [] ==> w == 0
    ensures windows != [] ==> w in windows && forall v :: v in windows ==> v >= w
  {
    if windows == [] then 0
    else if |windows| == 1 then windows[0]
    else
      assert windows == [windows[0]] + windows[1..];
      Min(windows[0], Smallest(windows[1..]))
  }

  function Windows(r: Request): seq<EventWindow> { EventWindows(r.events, Largest(r.filterWindows)) }

  function Pressure(r: Request): int { WeightedPressure(Windows(r)) }

  function GatesOf(r: Request): Gates { EffectiveQualityGates(r.hostProfile, r.minSamples, r.maxCleanEvents) }

  function Maintenance(r: Request): seq<Interval> {
    MaintenanceIntervals(r.maintenanceTimestamps, r.maintenanceWindowSeconds)
  }

  /** Rows left after the maintenance windows are cut out. */
  function Base(r: Request): seq<Row> { Kept(r.rows, Maintenance(r)) }

  /** Rows left after cutting `window` seconds around every event as well. */
  function Survivors(r: Request, window: int): seq<Row> { Kept(Base(r), EventIntervals(Windows(r), window)) }

  function EvidenceOf(r: Request, clean: int): Evidence {
    Evidence(|r.rows|, clean, Pressure(r), |r.maintenanceTimestamps|, GatesOf(r).minSamples, GatesOf(r).maxCleanEvents)
  }

  function Excluded(r: Request, window: int): int {
    |Merge(EventIntervals(Windows(r), window))| + |Merge(Maintenance(r))|
  }

  predicate Reaches(r: Request, i: nat)
    requires i < |r.filterWindows|
  { |Survivors(r, r.filterWindows[i])| >= GatesOf(r).minSamples }

  /** The first cascade position from `i` on that reaches the required count. */
  function FirstReaching(r: Request, i: nat): (k: nat)
    requires i <= |r.filterWindows|
    ensures i <= k <= |r.filterWindows|
    ensures k < |r.filterWindows| ==> Reaches(r, k)
    ensures forall j :: i <= j < k ==> !Reaches(r, j)
    decreases |r.filterWindows| - i
  {
    if i == |r.filterWindows| || Reaches(r, i) then i else FirstReaching(r, i + 1)
  }

  /** The best candidate the cascade has met so far. */
  datatype Best = Best(rows: seq<Row>, window: int, score: int, excluded: int)

  function Candidate(r: Request, window: int): Best {
    Best(Survivors(r, window), window, QualityScore(EvidenceOf(r, |Survivors(r, window)|)), Excluded(r, window))
  }

  function BestAfter(r: Request, n: nat): Best
    requires n <= |r.filterWindows|
  {
    if n == 0 then Best([], 0, -1, |Merge(Maintenance(r))|)
    else
      var best := BestAfter(r, n - 1);
      var window := r.filterWindows[n - 1];
      var next := Candidate(r, window);
      if next.score > best.score || (next.score == best.score && |next.rows| > |best.rows|) then next else best
  }

  // ---------- the six exits ----------

  datatype Exit = NoRows | Quiet | Cascade(position: nat) | Fallback | Poisoned | TooFewClean

  function ExitOf(r: Request): (exit: Exit)
    ensures exit.Cascade? ==> exit.position < |r.filterWindows|
  {
    var reached := FirstReaching(r, 0);
    if |r.rows| == 0 then NoRows
    else if Pressure(r) <= GatesOf(r).maxCleanEvents && |Base(r)| >= GatesOf(r).minSamples then Quiet
    else if reached < |r.filterWindows| then Cascade(reached)
    else if |Base(r)| >= GatesOf(r).minSamples then Fallback
    else if BestAfter(r, |r.filterWindows|).rows == [] then Poisoned
    else TooFewClean
  }

  function FinalBest(r: Request): Best { BestAfter(r, |r.filterWindows|) }

  function RowsAt(r: Request): seq<Row> {
    match ExitOf(r)
    case NoRows => []
    case Quiet => Base(r)
    case Cascade(i) => Survivors(r, r.filterWindows[i])
    case Fallback => BestEffort(Base(r), Windows(r), GatesOf(r).minSamples)
    case Poisoned => []
    case TooFewClean => FinalBest(r).rows
  }

  function FilterWindowAt(r: Request): int {
    match ExitOf(r)
    case NoRows => 0
    case Quiet => 0
    case Cascade(i) => r.filterWindows[i]
    case Fallback => if FinalBest(r).window != 0 then FinalBest(r).window else Smallest(r.filterWindows)
    case Poisoned => 0
    case TooFewClean => FinalBest(r).window
  }

  function ScoreAt(r: Request): int {
    match ExitOf(r)
    case NoRows => 0
    case Quiet => QualityScore(EvidenceOf(r, |Base(r)|))
    case Cascade(i) => QualityScore(EvidenceOf(r, |RowsAt(r)|))
    case Fallback => Max(35, QualityScore(EvidenceOf(r, GatesOf(r).minSamples)))
    case Poisoned => 0
    case TooFewClean => Max(FinalBest(r).score, 0)
  }

  function NoiseAt(r: Request): NoiseLabel {
    match ExitOf(r)
    case NoRows => Noisy
    case Fallback => Noisy
    case Poisoned => Noisy
    case _ => NoiseLabelOf(Pressure(r), GatesOf(r).maxCleanEvents)
  }

  function ReasonAt(r: Request): Reason {
    match ExitOf(r)
    case NoRows => InsufficientData
    case Quiet => if |r.rows| == |Base(r)| then Ready else ReadyFilteredBaseline
    case Cascade(_) => ReadyFilteredBaseline
    case Fallback => ReadyBestEffortBaseline
    case Poisoned => PoisonedBaseline
    case TooFewClean => InsufficientCleanData
  }

  function ExcludedAt(r: Request): int {
    match ExitOf(r)
    case NoRows => 0
    case Quiet => |Merge(Maintenance(r))|
    case Cascade(i) => Excluded(r, r.filterWindows[i])
    case Fallback => Max(FinalBest(r).excluded, |Merge(Maintenance(r))|)
    case Poisoned => FinalBest(r).excluded
    case TooFewClean => FinalBest(r).excluded
  }

  /** What every dataset must report, whichever exit it leaves by. */
  function Baseline(r: Request): Dataset {
    Dataset(
      RowsAt(r), |r.rows|, |RowsAt(r)|, |r.rows| - |RowsAt(r)|,
      |r.events|, |r.maintenanceTimestamps|, FilterWindowAt(r), r.maintenanceWindowSeconds,
      ScoreAt(r), QualityLabelOf(ScoreAt(r)), NoiseAt(r), ReasonAt(r),
      r.hostProfile, GatesOf(r).minSamples, GatesOf(r).maxCleanEvents, Pressure(r), ExcludedAt(r))
  }

  /** Tries the filter windows in order, and stops at the first one that leaves enough rows. */
  method TryFilterWindows(r: Request, windows: seq<EventWindow>, base: seq<Row>, maintenanceIntervals: int)
    returns (position: nat, best: Best)
    requires windows == Windows(r) && base == Base(r) && maintenanceIntervals == |Merge(Maintenance(r))|
    ensures position == FirstReaching(r, 0)
    ensures best == if position < |r.filterWindows| then Candidate(r, r.filterWindows[position]) else FinalBest(r)
  {
    hide Merge, Sweep, EventIntervals, QualityScore, EvidenceOf, WeightedPressure, EventWindows, Base;
    best := Best([], 0, -1, maintenanceIntervals);
    for i := 0 to |r.filterWindows|
      invariant best == BestAfter(r, i)
      invariant FirstReaching(r, 0) >= i
    {
      var window := r.filterWindows[i];
      var intervals := BuildEffectiveEventIntervals(windows, window);
      var filtered := FilterRowsOutsideIntervals(base, intervals);
      assert filtered == Survivors(r, window);
      var score := QualityScore(EvidenceOf(r, |filtered|));
      if |filtered| >= GatesOf(r).minSamples {
        assert Reaches(r, i);
        return i, Best(filtered, window, score, |intervals| + maintenanceIntervals);
      }
      if score > best.score || (score == best.score && |filtered| > |best.rows|) {
        best := Best(filtered, window, score, |intervals| + maintenanceIntervals);
      }
      assert !Reaches(r, i);
    }
    position := |r.filterWindows|;
  }

  /** The six records are written out one by one, each with its own counts, label and reason. */
  method BuildBaselineDataset(r: Request) returns (d: Dataset)
    ensures d == Baseline(r)
    ensures d.cleanSamples == |d.rows| && d.cleanSamples + d.discardedSamples == d.totalSamples == |r.rows|
    ensures d.qualityLabel == QualityLabelOf(d.qualityScore)
  {
    hide Merge, BestAfter, Sweep, QualityScore, EvidenceOf, EventWindows, TotalWeight;
    hide EffectiveQualityGates, BestEffort;
    var totalSamples := |r.rows|;
    var windows := BuildEventWindows(r.events, Largest(r.filterWindows));
    var eventCount := |windows|;
    var maintenanceEventCount := |r.maintenanceTimestamps|;
    var pressure := WeightedPressure(windows);
    var gates := EffectiveQualityGates(r.hostProfile, r.minSamples, r.maxCleanEvents);
    if totalSamples == 0 {
      return Dataset(
          [], 0, 0, 0, eventCount, maintenanceEventCount, 0, r.maintenanceWindowSeconds,
          0, Low, Noisy, InsufficientData,
          r.hostProfile, gates.minSamples, gates.maxCleanEvents, pressure, 0);
    }

    var maintenance := MergeIntervals(Maintenance(r));
    var base := FilterRowsOutsideIntervals(r.rows, maintenance);
    var maintenanceDiscarded := totalSamples - |base|;
    if pressure <= gates.maxCleanEvents && |base| >= gates.minSamples {
      var score := QualityScore(EvidenceOf(r, |base|));
      return Dataset(
          base, totalSamples, |base|, maintenanceDiscarded, eventCount, maintenanceEventCount, 0,
          r.maintenanceWindowSeconds, score, QualityLabelOf(score), NoiseLabelOf(pressure, gates.maxCleanEvents),
          if maintenanceDiscarded == 0 then Ready else ReadyFilteredBaseline,
          r.hostProfile, gates.minSamples, gates.maxCleanEvents, pressure, |maintenance|);
    }

    var position, best := TryFilterWindows(r, windows, base, |maintenance|);
    if position < |r.filterWindows| {
      return Dataset(
          best.rows, totalSamples, |best.rows|, totalSamples - |best.rows|, eventCount, maintenanceEventCount,
          best.window, r.maintenanceWindowSeconds, best.score, QualityLabelOf(best.score),
          NoiseLabelOf(pressure, gates.maxCleanEvents), ReadyFilteredBaseline,
          r.hostProfile, gates.minSamples, gates.maxCleanEvents, pressure, best.excluded);
    }

    var degraded := BuildBestEffortRows(base, windows, gates.minSamples);
    if |degraded| >= gates.minSamples {
      var score := QualityScore(EvidenceOf(r, |degraded|));
      return Dataset(
          degraded, totalSamples, |degraded|, totalSamples - |degraded|, eventCount, maintenanceEventCount,
          if best.window != 0 then best.window else Smallest(r.filterWindows), r.maintenanceWindowSeconds,
          Max(35, score), QualityLabelOf(Max(35, score)), Noisy, ReadyBestEffortBaseline,
          r.hostProfile, gates.minSamples, gates.maxCleanEvents, pressure, Max(best.excluded, |maintenance|));
    }
    if best.rows == [] {
      return Dataset(
          [], totalSamples, 0, totalSamples, eventCount, maintenanceEventCount, 0, r.maintenanceWindowSeconds,
          0, Low, Noisy, PoisonedBaseline,
          r.hostProfile, gates.minSamples, gates.maxCleanEvents, pressure, best.excluded);
    }
    return Dataset(
        best.rows, totalSamples, |best.rows|, totalSamples - |best.rows|, eventCount, maintenanceEventCount,
        best.window, r.maintenanceWindowSeconds, Max(best.score, 0), QualityLabelOf(Max(best.score, 0)),
        NoiseLabelOf(pressure, gates.maxCleanEvents), InsufficientCleanData,
        r.hostProfile, gates.minSamples, gates.maxCleanEvents, pressure, best.excluded);
  }
}
