/** What the clean-baseline builder guarantees about every dataset it returns. */
module BaselineTheorems {
  import opened Sequences
  import opened BaselineIntervals
  import opened BaselineQuality
  import opened BaselineEvents
  import opened BaselineSelection
  import opened BaselineDataset

  // ---------- sizes ----------

  lemma KeptIsSubsequence(rows: seq<Row>, ivs: seq<Interval>)
    ensures Subsequence(Kept(rows, ivs), rows)
    ensures |Kept(rows, ivs)| <= |rows|
  {
    MergeCorrect(ivs);
    SweepKeepsOutside(rows, Merge(ivs));
    SubsequenceBounds(Kept(rows, ivs), rows);
  }

  lemma SurvivorsWithin(r: Request, window: int)
    ensures Subsequence(Base(r), r.rows) && |Base(r)| <= |r.rows|
    ensures Subsequence(Survivors(r, window), Base(r)) && |Survivors(r, window)| <= |Base(r)|
    ensures Subsequence(Survivors(r, window), r.rows)
  {
    hide Merge, Sweep;
    KeptIsSubsequence(r.rows, Maintenance(r));
    KeptIsSubsequence(Base(r), EventIntervals(Windows(r), window));
    SubsequenceTransitive(Survivors(r, window), Base(r), r.rows);
  }

  lemma PressureIsNatural(r: Request)
    ensures Pressure(r) >= 0
  {
    WindowsWellFormed(r.events, Largest(r.filterWindows));
    PressureNonNegative(Windows(r));
  }

  lemma {:induction false} ScoreInRange(r: Request, clean: int)
    requires 0 <= clean <= |r.rows| && 0 < |r.rows|
    ensures 0 <= QualityScore(EvidenceOf(r, clean)) <= 100
    ensures Plausible(EvidenceOf(r, clean))
  {
    PressureIsNatural(r);
  }

  /** The running best is empty and scoreless, or the survivors of a window already tried. */
  lemma {:induction false} BestIsACandidate(r: Request, n: nat)
    requires n <= |r.filterWindows|
    ensures var best := BestAfter(r, n);
            if n == 0 then best.rows == [] && best.score == -1
            else exists j :: 0 <= j < n && best == Candidate(r, r.filterWindows[j])
  {
    hide Merge, Sweep, Survivors, QualityScore, EventWindows;
    if n > 0 {
      BestIsACandidate(r, n - 1);
      if n == 1 {
        assert BestAfter(r, 1) == Candidate(r, r.filterWindows[0]);
      } else if BestAfter(r, n) == BestAfter(r, n - 1) {
        var j :| 0 <= j < n - 1 && BestAfter(r, n - 1) == Candidate(r, r.filterWindows[j]);
      } else {
        assert BestAfter(r, n) == Candidate(r, r.filterWindows[n - 1]);
      }
    }
  }

  /** Below the required count on every filter window, the running best is below it too. */
  lemma {:induction false} BestStaysShort(r: Request)
    requires FirstReaching(r, 0) == |r.filterWindows|
    ensures |FinalBest(r).rows| < GatesOf(r).minSamples
    ensures exists window :: Subsequence(FinalBest(r).rows, Survivors(r, window))
  {
    hide Merge, Sweep;
    var n := |r.filterWindows|;
    BestIsACandidate(r, n);
    if n == 0 {
      assert Subsequence(FinalBest(r).rows, Survivors(r, 0));
    } else {
      var j :| 0 <= j < n && FinalBest(r) == Candidate(r, r.filterWindows[j]);
      assert !Reaches(r, j);
      SubsequenceReflexive(Survivors(r, r.filterWindows[j]));
      assert Subsequence(FinalBest(r).rows, Survivors(r, r.filterWindows[j]));
    }
  }

  // ---------- accounting ----------

  lemma {:induction false} RowsCount(r: Request)
    ensures |RowsAt(r)| <= |r.rows|
    ensures IsReady(ReasonAt(r)) <==> |RowsAt(r)| >= GatesOf(r).minSamples
  {
    hide Merge, Sweep;
    SurvivorsWithin(r, 0);
    match ExitOf(r)
    case NoRows =>
    case Quiet =>
    case Cascade(i) => SurvivorsWithin(r, r.filterWindows[i]);
    case Fallback => BestEffortIsSelection(Base(r), Windows(r), GatesOf(r).minSamples);
    case Poisoned =>
    case TooFewClean =>
      BestStaysShort(r);
      var window :| Subsequence(FinalBest(r).rows, Survivors(r, window));
      SurvivorsWithin(r, window);
      SubsequenceBounds(FinalBest(r).rows, Survivors(r, window));
  }

  /** On all six exits the counts add up, and "ready" means exactly "enough clean samples". */
  lemma {:induction false} Accounting(r: Request)
    ensures var d := Baseline(r);
            && d.cleanSamples == |d.rows|
            && d.cleanSamples + d.discardedSamples == d.totalSamples == |r.rows|
            && d.discardedSamples >= 0
            && (IsReady(d.reason) <==> d.cleanSamples >= d.requiredSamples)
  {
    hide Merge, Sweep, RowsAt, ReasonAt, FilterWindowAt, ScoreAt, NoiseAt, ExcludedAt;
    RowsCount(r);
  }

  // ---------- provenance ----------

  /** In any row order every exit returns rows of the input only, each at most as often as it occurs there. */
  lemma {:induction false} RowsWithinInput(r: Request)
    ensures multiset(RowsAt(r)) <= multiset(r.rows)
  {
    hide Merge, Sweep, EventWindows, QualityScore;
    SurvivorsWithin(r, 0);
    SubsequenceBounds(Base(r), r.rows);
    match ExitOf(r)
    case NoRows =>
    case Quiet =>
    case Cascade(i) => WithinInput(r, RowsAt(r), r.filterWindows[i]);
    case Fallback => BestEffortIsSelection(Base(r), Windows(r), GatesOf(r).minSamples);
    case Poisoned =>
    case TooFewClean =>
      BestStaysShort(r);
      var window :| Subsequence(FinalBest(r).rows, Survivors(r, window));
      WithinInput(r, RowsAt(r), window);
  }

  lemma WithinInput(r: Request, rows: seq<Row>, window: int)
    requires Subsequence(rows, Survivors(r, window)) || rows == Survivors(r, window)
    ensures multiset(rows) <= multiset(r.rows)
  {
    hide Merge, Sweep, Survivors, Base;
    SurvivorsWithin(r, window);
    SubsequenceBounds(Survivors(r, window), r.rows);
    if rows != Survivors(r, window) { SubsequenceBounds(rows, Survivors(r, window)); }
  }

  /** In time-ordered input every exit returns a subsequence of the input, itself time-ordered. */
  lemma {:induction false} RowsComeFromInput(r: Request)
    requires TimeOrdered(r.rows)
    ensures Subsequence(RowsAt(r), Base(r)) && Subsequence(RowsAt(r), r.rows) && TimeOrdered(RowsAt(r))
  {
    hide Merge, Sweep;
    SurvivorsWithin(r, 0);
    SubsequenceTimeOrdered(Base(r), r.rows);
    match ExitOf(r) {
      case NoRows =>
      case Quiet => SubsequenceReflexive(Base(r));
      case Cascade(i) => SurvivorsWithin(r, r.filterWindows[i]);
      case Fallback => BestEffortIsSubsequence(Base(r), Windows(r), GatesOf(r).minSamples);
      case Poisoned =>
      case TooFewClean =>
        BestStaysShort(r);
        var window :| Subsequence(FinalBest(r).rows, Survivors(r, window));
        SurvivorsWithin(r, window);
        SubsequenceTransitive(RowsAt(r), Survivors(r, window), Base(r));
    }
    SubsequenceTransitive(RowsAt(r), Base(r), r.rows);
    SubsequenceTimeOrdered(RowsAt(r), r.rows);
  }

  /** The maintenance filter drops a row exactly when it lies within the window of some maintenance command. */
  lemma {:induction false} MaintenanceIff(r: Request, row: Row)
    requires TimeOrdered(r.rows)
    ensures row in Base(r)
       <==> row in r.rows && (forall i :: 0 <= i < |r.maintenanceTimestamps| ==>
              Abs(row.timestamp - r.maintenanceTimestamps[i]) > r.maintenanceWindowSeconds)
  {
    hide Merge, Sweep, Kept;
    KeptIsOutside(r.rows, Maintenance(r));
    OutsideMembers(r.rows, Maintenance(r), row);
    forall i | 0 <= i < |r.maintenanceTimestamps|
      ensures Covers(Maintenance(r)[i], row.timestamp)
         <==> Abs(row.timestamp - r.maintenanceTimestamps[i]) <= r.maintenanceWindowSeconds {}
  }

  /** Every event's buffer is a share of the widest filter window, whatever the order of the windows. */
  lemma BuffersFollowWidest(r: Request, i: nat, widest: int)
    requires i < |r.events| && widest in r.filterWindows && forall w :: w in r.filterWindows ==> w <= widest
    ensures Windows(r)[i] == WindowFor(r.events[i], widest)
  {
    hide WindowFor;
  }

  /** Far enough from an event to survive a filter window: over 30 s, and past the window or the event's buffer. */
  predicate FarFrom(t: int, event: EventWindow, window: int) {
    var d := Abs(t - event.timestamp);
    d > 30 && (d > window || d > event.bufferSeconds)
  }

  /** A filter window drops a row exactly when it is too near to some event. */
  lemma {:induction false} SurvivorIff(r: Request, window: int, row: Row)
    requires TimeOrdered(r.rows) && row in Base(r)
    ensures row in Survivors(r, window)
       <==> forall i :: 0 <= i < |r.events| ==> FarFrom(row.timestamp, Windows(r)[i], window)
  {
    hide Merge, Sweep, Kept, WindowFor, Base;
    SurvivorsWithin(r, window);
    SubsequenceTimeOrdered(Base(r), r.rows);
    var ivs := EventIntervals(Windows(r), window);
    KeptIsOutside(Base(r), ivs);
    OutsideMembers(Base(r), ivs, row);
    forall i | 0 <= i < |r.events|
      ensures Covers(ivs[i], row.timestamp) <==> !FarFrom(row.timestamp, Windows(r)[i], window) {}
  }

  /** On the cascade exit, exactly the rows away from all maintenance and far from all events are returned. */
  lemma {:induction false} CascadeRowsIff(r: Request, row: Row)
    requires TimeOrdered(r.rows) && ExitOf(r).Cascade?
    ensures row in Baseline(r).rows
       <==> && row in r.rows
            && (forall i :: 0 <= i < |r.maintenanceTimestamps| ==>
                  Abs(row.timestamp - r.maintenanceTimestamps[i]) > r.maintenanceWindowSeconds)
            && (forall i :: 0 <= i < |r.events| ==>
                  FarFrom(row.timestamp, Windows(r)[i], Baseline(r).filterWindowSeconds))
  {
    hide Merge, Sweep, Kept, Base, WindowFor, FarFrom;
    var window := Baseline(r).filterWindowSeconds;
    MaintenanceIff(r, row);
    if row in Base(r) {
      SurvivorIff(r, window, row);
    } else {
      SurvivorsWithin(r, window);
      SubsequenceBounds(Survivors(r, window), Base(r));
      assert row in Survivors(r, window) ==> row in multiset(Survivors(r, window));
    }
  }

  /** No returned row lies within the maintenance window of any maintenance command. */
  lemma {:induction false} NoMaintenanceRow(r: Request, row: Row, i: nat)
    requires TimeOrdered(r.rows)
    requires row in Baseline(r).rows && i < |r.maintenanceTimestamps|
    ensures Abs(row.timestamp - r.maintenanceTimestamps[i]) > r.maintenanceWindowSeconds
  {
    hide Merge, Sweep;
    RowsComeFromInput(r);
    SubsequenceBounds(RowsAt(r), Base(r));
    assert row in multiset(RowsAt(r));
    assert row in Base(r);
    KeptIsOutside(r.rows, Maintenance(r));
    OutsideMembers(r.rows, Maintenance(r), row);
    assert !Covers(Maintenance(r)[i], row.timestamp);
  }

  /** On the cascade exit every returned row also keeps its distance from every security event. */
  lemma {:induction false} NoNoisyRow(r: Request, row: Row, i: nat)
    requires TimeOrdered(r.rows)
    requires ExitOf(r).Cascade? && row in Baseline(r).rows && i < |r.events|
    ensures var d, window := Abs(row.timestamp - r.events[i].timestamp), Baseline(r).filterWindowSeconds;
            d > 30 && (d > window || d > Windows(r)[i].bufferSeconds)
  {
    hide Merge, Sweep;
    var window := Baseline(r).filterWindowSeconds;
    SurvivorsWithin(r, window);
    SubsequenceTimeOrdered(Base(r), r.rows);
    KeptIsOutside(Base(r), EventIntervals(Windows(r), window));
    OutsideMembers(Base(r), EventIntervals(Windows(r), window), row);
    assert !Covers(EventIntervals(Windows(r), window)[i], row.timestamp);
  }

  // ---------- the cascade ----------

  ghost predicate Descending(windows: seq<int>) {
    forall i, j :: 0 <= i < j < |windows| ==> windows[i] >= windows[j]
  }

  /** A wider filter window leaves a subsequence of what a narrower one leaves. */
  lemma {:induction false} WiderLeavesFewer(r: Request, narrow: int, wide: int)
    requires TimeOrdered(r.rows) && narrow <= wide
    ensures Subsequence(Survivors(r, wide), Survivors(r, narrow))
  {
    hide Merge, Sweep;
    SurvivorsWithin(r, 0);
    SubsequenceTimeOrdered(Base(r), r.rows);
    var n, w := EventIntervals(Windows(r), narrow), EventIntervals(Windows(r), wide);
    KeptIsOutside(Base(r), n);
    KeptIsOutside(Base(r), w);
    forall row | row in Base(r) && Covered(row.timestamp, n) ensures Covered(row.timestamp, w) {
      WiderCoversMore(Windows(r), narrow, wide, row.timestamp);
    }
    OutsideMonotone(Base(r), n, w);
  }

  /** Descending windows: the cascade returns the strictest window that reaches the required count. */
  lemma {:induction false} CascadeIsStrictest(r: Request, j: nat)
    requires Descending(r.filterWindows) && ExitOf(r).Cascade?
    requires j < |r.filterWindows| && Reaches(r, j)
    ensures r.filterWindows[j] <= Baseline(r).filterWindowSeconds
    ensures Baseline(r).rows == Survivors(r, Baseline(r).filterWindowSeconds)
    ensures |Baseline(r).rows| >= GatesOf(r).minSamples
  {
    hide Merge, Sweep, Survivors, QualityScore, BestAfter, BestEffort, EventWindows, TotalWeight, Base;
    var k := FirstReaching(r, 0);
    assert j >= k;
  }

  /** Descending windows: the running best holds the rows of the narrowest window tried. */
  lemma {:induction false} BestIsNarrowest(r: Request, n: nat)
    requires TimeOrdered(r.rows) && Descending(r.filterWindows) && 1 <= n <= |r.filterWindows|
    requires |r.rows| > 0
    ensures BestAfter(r, n).rows == Survivors(r, r.filterWindows[n - 1])
    ensures BestAfter(r, n).score == QualityScore(EvidenceOf(r, |BestAfter(r, n).rows|)) >= 0
  {
    hide Merge, Sweep, Survivors, QualityScore;
    var window := r.filterWindows[n - 1];
    SurvivorsWithin(r, window);
    ScoreInRange(r, |Survivors(r, window)|);
    if n > 1 {
      BestIsNarrowest(r, n - 1);
      var wider := r.filterWindows[n - 2];
      SurvivorsWithin(r, wider);
      WiderLeavesFewer(r, window, wider);
      SubsequenceBounds(Survivors(r, wider), Survivors(r, window));
      ScoreInRange(r, |Survivors(r, wider)|);
      QualityMonotone(EvidenceOf(r, |Survivors(r, wider)|), EvidenceOf(r, |Survivors(r, window)|));
    }
  }

  /** In any order of the windows, the running best beats every window before it and yields to none after it. */
  lemma {:induction false} BestIsFirstMaximum(r: Request, n: nat) returns (k: nat)
    requires 0 < n <= |r.filterWindows|
    ensures k < n && BestAfter(r, n) == Candidate(r, r.filterWindows[k])
    ensures forall j :: 0 <= j < n ==> !Beats(Candidate(r, r.filterWindows[j]), BestAfter(r, n))
    ensures forall j :: 0 <= j < k ==> Beats(BestAfter(r, n), Candidate(r, r.filterWindows[j]))
  {
    hide Candidate;
    var last := Candidate(r, r.filterWindows[n - 1]);
    assert last.score >= 0 by { CandidateScore(r, r.filterWindows[n - 1]); }
    if n == 1 {
      k := 0;
    } else {
      k := BestIsFirstMaximum(r, n - 1);
      if Beats(last, BestAfter(r, n - 1)) {
        k := n - 1;
      }
    }
  }

  /** A higher quality score, or more rows at the same score. */
  predicate Beats(a: Best, b: Best) { a.score > b.score || (a.score == b.score && |a.rows| > |b.rows|) }

  lemma CandidateScore(r: Request, window: int)
    ensures Candidate(r, window).score >= 0
  {
  }

  /** No window tried leaves more rows than the final best has. */
  lemma BestHasMostRows(r: Request, j: nat)
    requires j < |r.filterWindows| && |r.rows| > 0
    ensures |Survivors(r, r.filterWindows[j])| <= |FinalBest(r).rows|
  {
    hide Survivors, QualityScore, BestAfter;
    var k := BestIsFirstMaximum(r, |r.filterWindows|);
    var mine, best := |Survivors(r, r.filterWindows[j])|, |FinalBest(r).rows|;
    SurvivorsWithin(r, r.filterWindows[j]);
    SurvivorsWithin(r, r.filterWindows[k]);
    assert !Beats(Candidate(r, r.filterWindows[j]), FinalBest(r));
    if mine > best {
      ScoreInRange(r, mine);
      ScoreInRange(r, best);
      QualityMonotone(EvidenceOf(r, best), EvidenceOf(r, mine));
    }
  }

  /** No filter window leaves as many rows as are required. */
  ghost predicate NoneReaches(r: Request) { forall j :: 0 <= j < |r.filterWindows| ==> !Reaches(r, j) }

  /** Which of the six reasons is given, in terms of what the filters leave. */
  lemma {:induction false} ReasonIff(r: Request)
    ensures var d := Baseline(r);
            var quiet := d.pressure <= d.maxCleanEvents && |Base(r)| >= d.requiredSamples;
            && (d.reason == InsufficientData <==> r.rows == [])
            && (d.reason == Ready <==> r.rows != [] && quiet && Base(r) == r.rows)
            && (d.reason == ReadyBestEffortBaseline
                <==> r.rows != [] && !quiet && NoneReaches(r) && |Base(r)| >= d.requiredSamples)
            && (d.reason == PoisonedBaseline
                <==> r.rows != [] && NoneReaches(r) && |Base(r)| < d.requiredSamples
                     && forall j :: 0 <= j < |r.filterWindows| ==> Survivors(r, r.filterWindows[j]) == [])
            && (d.reason == InsufficientCleanData
                <==> r.rows != [] && NoneReaches(r) && |Base(r)| < d.requiredSamples
                     && exists j :: 0 <= j < |r.filterWindows| && Survivors(r, r.filterWindows[j]) != [])
  {
    hide Survivors, QualityScore, BestAfter, Pressure, GatesOf, Base, RowsAt, ScoreAt, NoiseAt, ExcludedAt;
    BaseIsAll(r);
    if r.rows != [] {
      forall j | 0 <= j < |r.filterWindows| && FinalBest(r).rows == []
        ensures Survivors(r, r.filterWindows[j]) == []
      {
        BestHasMostRows(r, j);
      }
      if FinalBest(r).rows != [] {
        BestIsACandidate(r, |r.filterWindows|);
        assert BestAfter(r, 0).rows == [] by { NothingTried(r); }
        var j :| 0 <= j < |r.filterWindows| && FinalBest(r) == Candidate(r, r.filterWindows[j]);
        assert Survivors(r, r.filterWindows[j]) != [];
      }
    }
  }

  lemma NothingTried(r: Request)
    ensures BestAfter(r, 0).rows == []
  {
  }

  lemma BaseIsAll(r: Request)
    ensures |Base(r)| == |r.rows| <==> Base(r) == r.rows
  {
    SurvivorsWithin(r, 0);
    SubsequenceBounds(Base(r), r.rows);
  }

  /** When no window reaches the count and the fallback has too few rows, the narrowest window's survivors are kept. */
  lemma {:induction false} ShortExitKeepsNarrowest(r: Request)
    requires TimeOrdered(r.rows) && Descending(r.filterWindows) && r.filterWindows != []
    requires ExitOf(r).Poisoned? || ExitOf(r).TooFewClean?
    ensures Baseline(r).rows == Survivors(r, r.filterWindows[|r.filterWindows| - 1])
    ensures Baseline(r).reason == PoisonedBaseline <==> Baseline(r).rows == []
  {
    hide Merge, Sweep, Survivors, QualityScore, BestEffort, Pressure;
    BestIsNarrowest(r, |r.filterWindows|);
  }

  // ---------- quality and noise ----------

  /** The quality label always matches the score, and an untouched quiet window is always of high quality. */
  lemma {:induction false} QualityIsCoherent(r: Request)
    ensures var d := Baseline(r);
            && 0 <= d.qualityScore <= 100
            && (d.qualityLabel == High <==> d.qualityScore >= 80)
            && (d.qualityLabel == Low <==> d.qualityScore < 55)
            && (d.reason == Ready ==> d.qualityScore >= 83 && d.qualityLabel == High)
            && (d.reason == ReadyBestEffortBaseline ==> d.qualityScore >= 35)
  {
    hide Merge, Sweep, Survivors, Base;
    match ExitOf(r)
    case NoRows =>
    case Quiet =>
      if |r.rows| == |Base(r)| {
        ScoreInRange(r, |Base(r)|);
        QuietScore(EvidenceOf(r, |Base(r)|));
      }
    case Cascade(i) =>
    case Fallback =>
    case Poisoned =>
    case TooFewClean => BestIsACandidate(r, |r.filterWindows|);
  }

  /** The score is that of the returned rows, except for the floor of 35 on the fallback and the two empty exits. */
  lemma {:induction false} ScoreIsOfTheRows(r: Request)
    ensures var d := Baseline(r);
            d.qualityScore == if d.reason in {InsufficientData, PoisonedBaseline} then 0
                              else Max(if d.reason == ReadyBestEffortBaseline then 35 else 0,
                                       QualityScore(Evidence(d.totalSamples, d.cleanSamples, d.pressure,
                                                             d.maintenanceEventCount, d.requiredSamples,
                                                             d.maxCleanEvents)))
  {
    hide Survivors, Base, QualityScore, BestAfter, Pressure, GatesOf, NoiseAt, ExcludedAt;
    match ExitOf(r)
    case NoRows =>
    case Quiet =>
    case Cascade(i) =>
    case Fallback => RowsCountAtFallback(r);
    case Poisoned =>
    case TooFewClean =>
      BestIsACandidate(r, |r.filterWindows|);
      NothingTried(r);
  }

  /** The fallback reports the filter window that would have left the most rows. */
  lemma {:induction false} FallbackReportsBestWindow(r: Request, j: nat)
    requires ExitOf(r).Fallback? && j < |r.filterWindows|
    requires forall i :: 0 <= i < |r.filterWindows| ==> r.filterWindows[i] != 0
    ensures var window := Baseline(r).filterWindowSeconds;
            window in r.filterWindows && |Survivors(r, r.filterWindows[j])| <= |Survivors(r, window)|
  {
    hide Survivors, QualityScore, BestAfter, RowsAt, ScoreAt, NoiseAt, ExcludedAt, ReasonAt, Pressure, Base, GatesOf;
    BestHasMostRows(r, j);
    var k := BestIsFirstMaximum(r, |r.filterWindows|);
  }

  lemma RowsCountAtFallback(r: Request)
    requires ExitOf(r).Fallback?
    ensures |RowsAt(r)| == GatesOf(r).minSamples
  {
    BestEffortIsSelection(Base(r), Windows(r), GatesOf(r).minSamples);
  }

  /** The excluded windows are counted by the groups of overlapping ones, of events and of maintenance each. */
  lemma {:induction false} ExcludedAreGroups(r: Request)
    requires r.maintenanceWindowSeconds >= 0
    ensures var d := Baseline(r);
            var maintenance := |GroupStarts(Maintenance(r))|;
            && (d.reason == InsufficientData ==> d.excludedWindows == 0)
            && (ExitOf(r).Quiet? ==> d.excludedWindows == maintenance)
            && (ExitOf(r).Cascade? || ExitOf(r).TooFewClean? ==>
                  d.excludedWindows
                  == |GroupStarts(EventIntervals(Windows(r), d.filterWindowSeconds))| + maintenance)
  {
    hide Merge, Survivors, Base, QualityScore, BestAfter, Pressure, GatesOf, NoiseAt, ScoreAt, GroupStarts;
    MergeCount(Maintenance(r));
    MergeCount(EventIntervals(Windows(r), Baseline(r).filterWindowSeconds));
    BestIsACandidate(r, |r.filterWindows|);
    NothingTried(r);
  }

  /**
   * For a ready dataset built with positive filter windows the three signs of noise agree,
   * on the exit that writes "noisy" unconditionally too.
   */
  lemma {:induction false} NoiseIsCoherent(r: Request)
    requires r.filterWindows != [] && forall i :: 0 <= i < |r.filterWindows| ==> r.filterWindows[i] > 0
    requires IsReady(Baseline(r).reason)
    ensures var d := Baseline(r);
            && (d.noiseLabel == Noisy <==> d.pressure > d.maxCleanEvents)
            && (d.noiseLabel == Noisy <==> d.filterWindowSeconds > 0)
            && (d.noiseLabel == Clean <==> d.pressure <= Max(d.maxCleanEvents / 2, 1))
  {
    hide Merge, Sweep;
    NoisyMeansOverLimit(Pressure(r), GatesOf(r).maxCleanEvents);
    if ExitOf(r).Cascade? {
      SurvivorsWithin(r, r.filterWindows[ExitOf(r).position]);
    } else if ExitOf(r).Fallback? {
      BestIsACandidate(r, |r.filterWindows|);
    }
  }

  // ---------- the trainer's cascade ----------

  function InsertDescending(x: int, s: seq<int>): seq<int> {
    if s == [] || x > s[0] then [x] + s else if x == s[0] then s else [s[0]] + InsertDescending(x, s[1..])
  }

  function Share(baseBufferSeconds: int, fraction: real): int {
    Max(30, Truncate(baseBufferSeconds as real * fraction))
  }

  /** A set of four windows, sorted from the widest to the narrowest. */
  function BuildFilterWindows(baseBufferSeconds: int): seq<int> {
    InsertDescending(Max(30, baseBufferSeconds),
      InsertDescending(Share(baseBufferSeconds, 0.6),
        InsertDescending(Share(baseBufferSeconds, 0.4),
          InsertDescending(Share(baseBufferSeconds, 0.2), []))))
  }

  ghost predicate StrictlyDescending(s: seq<int>) {
    forall i, j :: 0 <= i < j < |s| ==> s[i] > s[j]
  }

  lemma {:induction false} InsertDescendingCorrect(x: int, s: seq<int>)
    requires StrictlyDescending(s)
    ensures StrictlyDescending(InsertDescending(x, s))
    ensures forall y :: y in InsertDescending(x, s) <==> y == x || y in s
  {
    if s != [] && x <= s[0] {
      assert s == [s[0]] + s[1..];
      InsertDescendingCorrect(x, s[1..]);
      var rest := InsertDescending(x, s[1..]);
      forall j | 0 <= j < |rest| && x != s[0] ensures s[0] > rest[j] {
        assert rest[j] in rest;
      }
    }
  }

  /** The default buffer of 300 s, and the least one. */
  lemma TrainerExamples()
    ensures BuildFilterWindows(300) == [300, 180, 120, 60]
    ensures BuildFilterWindows(30) == [30]
  {
    assert 300.0 * 0.6 == 180.0 && 300.0 * 0.4 == 120.0 && 300.0 * 0.2 == 60.0;
    assert 30.0 * 0.6 == 18.0 && 30.0 * 0.4 == 12.0 && 30.0 * 0.2 == 6.0;
  }

  /** The trainer's windows meet what the cascade results ask for, and start at the full buffer. */
  lemma {:induction false} TrainerWindows(baseBufferSeconds: int)
    ensures var w := BuildFilterWindows(baseBufferSeconds);
            && w != [] && Descending(w) && StrictlyDescending(w)
            && (forall y :: y in w <==> y in {Max(30, baseBufferSeconds), Share(baseBufferSeconds, 0.6),
                                              Share(baseBufferSeconds, 0.4), Share(baseBufferSeconds, 0.2)})
            && (forall i :: 0 <= i < |w| ==> 30 <= w[i] <= w[0])
            && w[0] == Max(30, baseBufferSeconds)
  {
    var b := baseBufferSeconds as real;
    var w4 := InsertDescending(Share(baseBufferSeconds, 0.2), []);
    var w3 := InsertDescending(Share(baseBufferSeconds, 0.4), w4);
    var w2 := InsertDescending(Share(baseBufferSeconds, 0.6), w3);
    InsertDescendingCorrect(Share(baseBufferSeconds, 0.2), []);
    InsertDescendingCorrect(Share(baseBufferSeconds, 0.4), w4);
    InsertDescendingCorrect(Share(baseBufferSeconds, 0.6), w3);
    InsertDescendingCorrect(Max(30, baseBufferSeconds), w2);
    var w := BuildFilterWindows(baseBufferSeconds);
    assert Max(30, baseBufferSeconds) in w;
    if baseBufferSeconds >= 0 {
      assert b * 0.6 <= b && b * 0.4 <= b && b * 0.2 <= b;
    }
    forall i | 0 <= i < |w| ensures 30 <= w[i] <= Max(30, baseBufferSeconds) {
      assert w[i] in w;
    }
    assert w[0] in w;
  }
}
