/** Security events as noise windows: how far they reach, how much they weigh, how they contaminate a row. */
module BaselineEvents {
  import opened Sequences
  import opened BaselineIntervals
  import opened BaselineQuality

  /** An event row: a bare timestamp, or a record in which any of the text fields may be missing. */
  datatype RawEvent =
    | Bare(timestamp: int)
    | Record(timestamp: int, eventType: Option<string>, severity: Option<string>, action: Option<string>)

  datatype EventWindow = EventWindow(timestamp: int, bufferSeconds: int, weight: real)

  function OrElse(field: Option<string>, default: string): string {
    match field case Some(text) => text case None => default
  }

  function SeverityOf(raw: RawEvent): string { if raw.Bare? then "medium" else OrElse(raw.severity, "medium") }

  function TypeOf(raw: RawEvent): string { if raw.Bare? then "" else OrElse(raw.eventType, "") }

  function ActionOf(raw: RawEvent): string { if raw.Bare? then "" else OrElse(raw.action, "") }

  function SeverityBuffer(severity: string): real {
    if severity == "low" then 0.6
    else if severity == "medium" then 0.9
    else if severity == "high" then 1.1
    else if severity == "critical" then 1.4
    else 1.0
  }

  function TypeBuffer(eventType: string): real {
    if eventType == "anomaly" then 1.3
    else if eventType == "sqli" then 1.15
    else if eventType == "ssh_brute_force" then 0.9
    else if eventType == "xss" then 0.75
    else 1.0
  }

  function ActionBuffer(action: string): real {
    if action == "auto_block" then 1.3
    else if action == "logged" then 0.8
    else 1.0
  }

  function SeverityWeight(severity: string): real {
    if severity == "low" then 0.5
    else if severity == "high" then 1.7
    else if severity == "critical" then 2.3
    else 1.0
  }

  function TypeWeight(eventType: string): real {
    if eventType == "anomaly" then 1.5
    else if eventType == "sqli" then 1.4
    else if eventType == "port_scan" then 1.2
    else if eventType == "xss" then 0.8
    else if eventType == "path_traversal" then 0.9
    else 1.0
  }

  function ActionWeight(action: string): real {
    if action == "auto_block" then 1.2
    else if action == "logged" then 0.85
    else 1.0
  }

  function BufferMultiplier(severity: string, eventType: string, action: string): real {
    SeverityBuffer(severity) * TypeBuffer(eventType) * ActionBuffer(action)
  }

  function BufferFor(baseBufferSeconds: int, severity: string, eventType: string, action: string): int {
    Max(30, Scale(baseBufferSeconds, BufferMultiplier(severity, eventType, action)))
  }

  function EventWeight(severity: string, eventType: string, action: string): real {
    SeverityWeight(severity) * TypeWeight(eventType) * ActionWeight(action)
  }

  function WindowFor(raw: RawEvent, baseBufferSeconds: int): EventWindow {
    EventWindow(
      raw.timestamp,
      BufferFor(baseBufferSeconds, SeverityOf(raw), TypeOf(raw), ActionOf(raw)),
      EventWeight(SeverityOf(raw), TypeOf(raw), ActionOf(raw)))
  }

  function EventWindows(events: seq<RawEvent>, baseBufferSeconds: int): seq<EventWindow> {
    seq(|events|, i requires 0 <= i < |events| => WindowFor(events[i], baseBufferSeconds))
  }

  method BuildEventWindows(eventRows: seq<RawEvent>, baseBufferSeconds: int) returns (windows: seq<EventWindow>)
    ensures windows == EventWindows(eventRows, baseBufferSeconds) && |windows| == |eventRows|
    ensures WellFormed(windows)
  {
    windows := [];
    for i := 0 to |eventRows|
      invariant |windows| == i
      invariant forall k :: 0 <= k < i ==> windows[k] == WindowFor(eventRows[k], baseBufferSeconds)
    {
      windows := windows + [WindowFor(eventRows[i], baseBufferSeconds)];
    }
    WindowsWellFormed(eventRows, baseBufferSeconds);
  }

  /** Every window reaches at least 30 seconds and weighs something. */
  ghost predicate WellFormed(windows: seq<EventWindow>) {
    forall i :: 0 <= i < |windows| ==> windows[i].bufferSeconds >= 30 && windows[i].weight > 0.0
  }

  lemma WindowsWellFormed(events: seq<RawEvent>, baseBufferSeconds: int)
    ensures WellFormed(EventWindows(events, baseBufferSeconds))
  {
    forall i | 0 <= i < |events| ensures WindowFor(events[i], baseBufferSeconds).weight > 0.0 {
      WeightPositive(SeverityOf(events[i]), TypeOf(events[i]), ActionOf(events[i]));
    }
  }

  lemma WeightPositive(severity: string, eventType: string, action: string)
    ensures EventWeight(severity, eventType, action) > 0.0
  {
    ProductPositive(SeverityWeight(severity), TypeWeight(eventType), ActionWeight(action));
  }

  lemma ProductPositive(x: real, y: real, z: real)
    requires x > 0.0 && y > 0.0 && z > 0.0
    ensures x * y * z > 0.0
  {
    assert x * y > 0.0;
  }

  /** A bare timestamp counts as a medium event of no type: nine tenths of the buffer, weight one. */
  lemma BareEvent(timestamp: int, baseBufferSeconds: int)
    ensures var bare := WindowFor(Bare(timestamp), baseBufferSeconds);
            && bare == WindowFor(Record(timestamp, None, None, None), baseBufferSeconds)
            && bare == EventWindow(timestamp, Max(30, Scale(baseBufferSeconds, 0.9)), 1.0)
  {
    assert BufferMultiplier("medium", "", "") == 0.9 && EventWeight("medium", "", "") == 1.0;
    hide Scale, BufferMultiplier, EventWeight;
  }

  /** Factors multiply: the two ends of the scale, at a buffer of 100 s. */
  lemma HeaviestAndLightest(timestamp: int)
    ensures WindowFor(Record(timestamp, Some("anomaly"), Some("critical"), Some("auto_block")), 100)
         == EventWindow(timestamp, 237, 4.14)
    ensures WindowFor(Record(timestamp, Some("xss"), Some("low"), Some("logged")), 100)
         == EventWindow(timestamp, 36, 0.34)
  {
    RoundHalfEvenIff(236.6, 237);
    assert 1.4 * 1.3 * 1.3 == 2.366 && 2.3 * 1.5 * 1.2 == 4.14;
    assert 0.6 * 0.75 * 0.8 == 0.36 && 0.5 * 0.8 * 0.85 == 0.34;
  }

  const SEVERITIES := ["low", "medium", "high", "critical"]
  const TYPES_BY_WEIGHT := ["xss", "path_traversal", "ssh_brute_force", "port_scan", "sqli", "anomaly"]
  const TYPES_BY_BUFFER := ["xss", "ssh_brute_force", "port_scan", "sqli", "anomaly"]
  const ACTIONS := ["logged", "review_required", "auto_block"]

  /** A window of at least the buffer and the weight. */
  ghost predicate NoSmaller(larger: EventWindow, smaller: EventWindow) {
    larger.bufferSeconds >= smaller.bufferSeconds && larger.weight > smaller.weight
  }

  lemma SeveritiesRanked(i: nat, j: nat)
    requires i < j < |SEVERITIES|
    ensures SeverityBuffer(SEVERITIES[i]) < SeverityBuffer(SEVERITIES[j])
    ensures SeverityWeight(SEVERITIES[i]) < SeverityWeight(SEVERITIES[j])
  {
  }

  lemma ActionsRanked(i: nat, j: nat)
    requires i < j < |ACTIONS|
    ensures ActionBuffer(ACTIONS[i]) < ActionBuffer(ACTIONS[j]) && ActionWeight(ACTIONS[i]) < ActionWeight(ACTIONS[j])
  {
  }

  lemma TypeTablesRanked()
    ensures forall i, j :: 0 <= i < j < |TYPES_BY_WEIGHT| ==>
              TypeWeight(TYPES_BY_WEIGHT[i]) < TypeWeight(TYPES_BY_WEIGHT[j])
    ensures forall i, j :: 0 <= i < j < |TYPES_BY_BUFFER| ==>
              TypeBuffer(TYPES_BY_BUFFER[i]) < TypeBuffer(TYPES_BY_BUFFER[j])
  {
  }

  lemma FactorsPositive(severity: string, eventType: string, action: string)
    ensures SeverityBuffer(severity) > 0.0 && TypeBuffer(eventType) > 0.0 && ActionBuffer(action) > 0.0
    ensures SeverityWeight(severity) > 0.0 && TypeWeight(eventType) > 0.0 && ActionWeight(action) > 0.0
  {
  }

  lemma LargerMultiplier(base: nat, severity: string, eventType: string, action: string,
                         severity2: string, eventType2: string, action2: string)
    requires BufferMultiplier(severity, eventType, action) <= BufferMultiplier(severity2, eventType2, action2)
    ensures BufferFor(base, severity, eventType, action) <= BufferFor(base, severity2, eventType2, action2)
  {
    hide BufferMultiplier, Scale;
    ScaledRounds(base, BufferMultiplier(severity, eventType, action),
                 BufferMultiplier(severity2, eventType2, action2));
  }

  lemma WorseSeverityFactors(i: nat, j: nat, eventType: string, action: string)
    requires i < j < |SEVERITIES|
    ensures BufferMultiplier(SEVERITIES[i], eventType, action) <= BufferMultiplier(SEVERITIES[j], eventType, action)
    ensures EventWeight(SEVERITIES[i], eventType, action) < EventWeight(SEVERITIES[j], eventType, action)
  {
    SeveritiesRanked(i, j);
    var mild, worse := SEVERITIES[i], SEVERITIES[j];
    FactorsPositive(mild, eventType, action);
    hide SeverityBuffer, TypeBuffer, ActionBuffer, SeverityWeight, TypeWeight, ActionWeight;
    FactorsMultiply(SeverityBuffer(mild), SeverityBuffer(worse), TypeBuffer(eventType), ActionBuffer(action));
    FactorsMultiply(SeverityWeight(mild), SeverityWeight(worse), TypeWeight(eventType), ActionWeight(action));
  }

  lemma HarsherActionFactors(i: nat, j: nat, severity: string, eventType: string)
    requires i < j < |ACTIONS|
    ensures BufferMultiplier(severity, eventType, ACTIONS[i]) <= BufferMultiplier(severity, eventType, ACTIONS[j])
    ensures EventWeight(severity, eventType, ACTIONS[i]) < EventWeight(severity, eventType, ACTIONS[j])
  {
    ActionsRanked(i, j);
    var mild, harsh := ACTIONS[i], ACTIONS[j];
    FactorsPositive(severity, eventType, mild);
    hide SeverityBuffer, TypeBuffer, ActionBuffer, SeverityWeight, TypeWeight, ActionWeight;
    FactorsMultiply(ActionBuffer(mild), ActionBuffer(harsh), SeverityBuffer(severity), TypeBuffer(eventType));
    FactorsMultiply(ActionWeight(mild), ActionWeight(harsh), SeverityWeight(severity), TypeWeight(eventType));
  }

  lemma WiderTypeFactors(i: nat, j: nat, severity: string, action: string)
    requires i < j < |TYPES_BY_BUFFER|
    ensures BufferMultiplier(severity, TYPES_BY_BUFFER[i], action)
         <= BufferMultiplier(severity, TYPES_BY_BUFFER[j], action)
  {
    TypeTablesRanked();
    hide SeverityBuffer, TypeBuffer, ActionBuffer, TypeWeight;
    FactorsPositive(severity, "", action);
    FactorsMultiply(TypeBuffer(TYPES_BY_BUFFER[i]), TypeBuffer(TYPES_BY_BUFFER[j]),
                    SeverityBuffer(severity), ActionBuffer(action));
  }

  /** A worse severity is strictly heavier and reaches no less, whatever the type and the action. */
  lemma WorseSeverity(timestamp: int, i: nat, j: nat, eventType: Option<string>, action: Option<string>, base: nat)
    requires i < j < |SEVERITIES|
    ensures NoSmaller(WindowFor(Record(timestamp, eventType, Some(SEVERITIES[j]), action), base),
                      WindowFor(Record(timestamp, eventType, Some(SEVERITIES[i]), action), base))
  {
    hide BufferFor, EventWeight;
    var ty, ac := OrElse(eventType, ""), OrElse(action, "");
    WorseSeverityFactors(i, j, ty, ac);
    LargerMultiplier(base, SEVERITIES[i], ty, ac, SEVERITIES[j], ty, ac);
  }

  /** So is a blocked event against a reviewed one, and a reviewed one against a logged one. */
  lemma HarsherAction(timestamp: int, i: nat, j: nat, eventType: Option<string>, severity: Option<string>, base: nat)
    requires i < j < |ACTIONS|
    ensures NoSmaller(WindowFor(Record(timestamp, eventType, severity, Some(ACTIONS[j])), base),
                      WindowFor(Record(timestamp, eventType, severity, Some(ACTIONS[i])), base))
  {
    hide BufferFor, EventWeight;
    var ty, se := OrElse(eventType, ""), OrElse(severity, "medium");
    HarsherActionFactors(i, j, se, ty);
    LargerMultiplier(base, se, ty, ACTIONS[i], se, ty, ACTIONS[j]);
  }

  /** Types are ranked twice: by weight, and by reach. */
  lemma HeavierType(timestamp: int, i: nat, j: nat, severity: Option<string>, action: Option<string>, base: nat)
    requires i < j < |TYPES_BY_WEIGHT|
    ensures WindowFor(Record(timestamp, Some(TYPES_BY_WEIGHT[i]), severity, action), base).weight
          < WindowFor(Record(timestamp, Some(TYPES_BY_WEIGHT[j]), severity, action), base).weight
  {
    TypeTablesRanked();
    hide SeverityBuffer, TypeBuffer, ActionBuffer, SeverityWeight, TypeWeight, ActionWeight, RoundHalfEven;
    var se, ac := OrElse(severity, "medium"), OrElse(action, "");
    FactorsPositive(se, "", ac);
    FactorsMultiply(TypeWeight(TYPES_BY_WEIGHT[i]), TypeWeight(TYPES_BY_WEIGHT[j]), SeverityWeight(se),
                    ActionWeight(ac));
  }

  lemma WiderType(timestamp: int, i: nat, j: nat, severity: Option<string>, action: Option<string>, base: nat)
    requires i < j < |TYPES_BY_BUFFER|
    ensures WindowFor(Record(timestamp, Some(TYPES_BY_BUFFER[i]), severity, action), base).bufferSeconds
         <= WindowFor(Record(timestamp, Some(TYPES_BY_BUFFER[j]), severity, action), base).bufferSeconds
  {
    hide BufferFor, EventWeight;
    var se, ac := OrElse(severity, "medium"), OrElse(action, "");
    WiderTypeFactors(i, j, se, ac);
    LargerMultiplier(base, se, TYPES_BY_BUFFER[i], ac, se, TYPES_BY_BUFFER[j], ac);
  }

  lemma FactorsMultiply(a: real, b: real, p: real, q: real)
    requires a < b && p > 0.0 && q > 0.0
    ensures a * p * q < b * p * q && p * a * q < p * b * q && p * q * a < p * q * b
  {
    ProductPositive(b - a, p, q);
    assert (b - a) * p * q == b * p * q - a * p * q;
    assert p * a * q == a * p * q && p * b * q == b * p * q;
    assert p * q * a == a * p * q && p * q * b == b * p * q;
  }

  function TotalWeight(windows: seq<EventWindow>): real {
    if windows == [] then 0.0 else TotalWeight(windows[..|windows| - 1]) + windows[|windows| - 1].weight
  }

  function WeightedPressure(windows: seq<EventWindow>): int { RoundHalfEven(TotalWeight(windows)) }

  lemma {:induction false} PressureNonNegative(windows: seq<EventWindow>)
    requires WellFormed(windows)
    ensures TotalWeight(windows) >= 0.0 && WeightedPressure(windows) >= 0
  {
    if windows != [] {
      PressureNonNegative(windows[..|windows| - 1]);
    }
  }

  /** The pressure adds up event by event. */
  lemma {:induction false} WeightAdds(a: seq<EventWindow>, b: seq<EventWindow>)
    ensures TotalWeight(a + b) == TotalWeight(a) + TotalWeight(b)
    ensures |b| == 1 ==> TotalWeight(b) == b[0].weight
    decreases |b|
  {
    if b == [] {
      assert a + b == a;
    } else {
      assert (a + b)[..|a + b| - 1] == a + b[..|b| - 1];
      WeightAdds(a, b[..|b| - 1]);
    }
  }

  /** Bare timestamps are simply counted. */
  lemma {:induction false} BareEventsAreCounted(events: seq<RawEvent>, baseBufferSeconds: int)
    requires forall i :: 0 <= i < |events| ==> events[i].Bare?
    ensures TotalWeight(EventWindows(events, baseBufferSeconds)) == |events| as real
    ensures WeightedPressure(EventWindows(events, baseBufferSeconds)) == |events|
  {
    if events != [] {
      var n := |events| - 1;
      BareEventsAreCounted(events[..n], baseBufferSeconds);
      var windows := EventWindows(events, baseBufferSeconds);
      assert windows[..n] == EventWindows(events[..n], baseBufferSeconds);
      BareEvent(events[n].timestamp, baseBufferSeconds);
    }
  }

  // ---------- intervals around events ----------

  function Reach(window: EventWindow, fallbackWindow: int): int {
    Max(30, Min(fallbackWindow, window.bufferSeconds))
  }

  function Around(center: int, reach: int): Interval { Interval(center - reach, center + reach) }

  function EventIntervals(windows: seq<EventWindow>, fallbackWindow: int): seq<Interval> {
    seq(|windows|, i requires 0 <= i < |windows| => Around(windows[i].timestamp, Reach(windows[i], fallbackWindow)))
  }

  function MaintenanceIntervals(timestamps: seq<int>, windowSeconds: int): seq<Interval> {
    seq(|timestamps|, i requires 0 <= i < |timestamps| => Around(timestamps[i], windowSeconds))
  }

  method BuildEffectiveEventIntervals(windows: seq<EventWindow>, fallbackWindow: int)
    returns (merged: seq<Interval>)
    ensures merged == Merge(EventIntervals(windows, fallbackWindow))
  {
    var intervals := [];
    for i := 0 to |windows|
      invariant |intervals| == i
      invariant forall k :: 0 <= k < i ==>
                  intervals[k] == Around(windows[k].timestamp, Reach(windows[k], fallbackWindow))
    {
      intervals := intervals + [Around(windows[i].timestamp, Reach(windows[i], fallbackWindow))];
    }
    assert intervals == EventIntervals(windows, fallbackWindow);
    merged := MergeIntervals(intervals);
  }

  /** A wider fallback window excludes at least the timestamps a narrower one does. */
  lemma WiderCoversMore(windows: seq<EventWindow>, narrow: int, wide: int, t: int)
    requires narrow <= wide
    ensures Covered(t, EventIntervals(windows, narrow)) ==> Covered(t, EventIntervals(windows, wide))
  {
    if Covered(t, EventIntervals(windows, narrow)) {
      var i :| 0 <= i < |windows| && Covers(EventIntervals(windows, narrow)[i], t);
      assert Covers(EventIntervals(windows, wide)[i], t);
    }
  }

  // ---------- contamination ----------

  function Abs(x: int): nat { if x < 0 then -x else x }

  function Contribution(timestamp: int, window: EventWindow): real {
    var buffer := Max(30, window.bufferSeconds);
    var distance := Abs(timestamp - window.timestamp);
    if distance >= buffer then 0.0 else window.weight * (1.0 - distance as real / buffer as real)
  }

  function RawContamination(timestamp: int, windows: seq<EventWindow>): real {
    if windows == [] then 0.0
    else RawContamination(timestamp, windows[..|windows| - 1]) + Contribution(timestamp, windows[|windows| - 1])
  }

  function Contamination(timestamp: int, windows: seq<EventWindow>): real {
    RoundMicro(RawContamination(timestamp, windows))
  }

  method RowContaminationScore(timestamp: int, windows: seq<EventWindow>) returns (score: real)
    ensures score == Contamination(timestamp, windows)
  {
    if windows == [] {
      return 0.0;
    }
    score := 0.0;
    for i := 0 to |windows|
      invariant score == RawContamination(timestamp, windows[..i])
    {
      assert windows[..i + 1][..i] == windows[..i];
      var buffer := Max(30, windows[i].bufferSeconds);
      var distance := Abs(timestamp - windows[i].timestamp);
      if distance >= buffer {
        continue;
      }
      var proximity := 1.0 - distance as real / buffer as real;
      score := score + windows[i].weight * proximity;
    }
    assert windows[..|windows|] == windows;
    score := RoundMicro(score);
  }

  lemma ContributionBounds(timestamp: int, window: EventWindow)
    requires window.weight > 0.0
    ensures 0.0 <= Contribution(timestamp, window) <= window.weight
    ensures Contribution(timestamp, window) == 0.0
       <==> Abs(timestamp - window.timestamp) >= Max(30, window.bufferSeconds)
  {
    var buffer, distance := Max(30, window.bufferSeconds), Abs(timestamp - window.timestamp);
    if distance < buffer {
      QuotientMonotone(distance, distance, buffer);
      var proximity := 1.0 - distance as real / buffer as real;
      assert distance as real / buffer as real * buffer as real == distance as real;
      assert 0.0 < proximity <= 1.0;
      assert 0.0 < window.weight * proximity;
      assert window.weight - window.weight * proximity == window.weight * (1.0 - proximity) >= 0.0;
      assert Contribution(timestamp, window) == window.weight * proximity;
    }
  }

  /** The full weight at the event, falling in proportion to the distance down to nothing at the buffer's end. */
  lemma ContributionDecays(timestamp: int, window: EventWindow)
    ensures timestamp == window.timestamp ==> Contribution(timestamp, window) == window.weight
    ensures var buffer, distance := Max(30, window.bufferSeconds), Abs(timestamp - window.timestamp);
            distance <= buffer ==>
              Contribution(timestamp, window) * buffer as real == window.weight * (buffer - distance) as real
  {
    var buffer, distance := Max(30, window.bufferSeconds), Abs(timestamp - window.timestamp);
    var share := distance as real / buffer as real;
    assert share * buffer as real == distance as real;
    assert window.weight * (1.0 - share) * buffer as real == window.weight * ((1.0 - share) * buffer as real);
  }

  /** A nearer row never gets less, and strictly more while it is in reach. */
  lemma NearerContributesMore(near: int, far: int, window: EventWindow)
    requires window.weight > 0.0 && Abs(near - window.timestamp) < Abs(far - window.timestamp)
    ensures Contribution(near, window) >= Contribution(far, window)
    ensures Abs(near - window.timestamp) < Max(30, window.bufferSeconds) ==>
              Contribution(near, window) > Contribution(far, window)
    ensures Abs(far - window.timestamp) <= Max(30, window.bufferSeconds) ==>
              Contribution(near, window) - Contribution(far, window)
              >= window.weight / Max(30, window.bufferSeconds) as real
  {
    ContributionBounds(near, window);
    ContributionBounds(far, window);
    ContributionDecays(near, window);
    ContributionDecays(far, window);
    var buffer := Max(30, window.bufferSeconds);
    hide Contribution;
    if Abs(far - window.timestamp) <= buffer {
      DecayGain(Contribution(near, window), Contribution(far, window), window.weight, buffer,
                Abs(near - window.timestamp), Abs(far - window.timestamp));
    }
  }

  lemma DecayGain(more: real, less: real, weight: real, buffer: int, near: int, far: int)
    requires buffer > 0 && weight > 0.0 && near < far
    requires more * buffer as real == weight * (buffer - near) as real
    requires less * buffer as real == weight * (buffer - far) as real
    ensures more - less >= weight / buffer as real > 0.0
  {
    var b, share := buffer as real, weight / buffer as real;
    assert share * b == weight;
    assert (more - less) * b == weight * (far - near) as real;
    assert weight * ((far - near) as real - 1.0) >= 0.0;
    assert (more - less - share) * b >= 0.0;
  }

  lemma NoNearerNoMore(near: int, far: int, window: EventWindow)
    requires window.weight > 0.0 && Abs(near - window.timestamp) <= Abs(far - window.timestamp)
    ensures Contribution(near, window) >= Contribution(far, window)
  {
    if Abs(near - window.timestamp) < Abs(far - window.timestamp) {
      NearerContributesMore(near, far, window);
    }
  }

  /** Contamination adds up event by event. */
  lemma {:induction false} ContaminationAdds(timestamp: int, a: seq<EventWindow>, b: seq<EventWindow>)
    ensures RawContamination(timestamp, a + b) == RawContamination(timestamp, a) + RawContamination(timestamp, b)
    ensures |b| == 1 ==> RawContamination(timestamp, b) == Contribution(timestamp, b[0])
    decreases |b|
  {
    if b == [] {
      assert a + b == a;
    } else {
      assert (a + b)[..|a + b| - 1] == a + b[..|b| - 1];
      ContaminationAdds(timestamp, a, b[..|b| - 1]);
    }
  }

  /** A row that is nowhere nearer to an event is no more contaminated. */
  lemma {:induction false} FartherIsCleaner(near: int, far: int, windows: seq<EventWindow>)
    requires WellFormed(windows)
    requires forall i :: 0 <= i < |windows| ==> Abs(near - windows[i].timestamp) <= Abs(far - windows[i].timestamp)
    ensures RawContamination(near, windows) >= RawContamination(far, windows)
    ensures Contamination(near, windows) >= Contamination(far, windows)
  {
    hide Contribution, RoundMicro;
    if windows != [] {
      var n := |windows| - 1;
      FartherIsCleaner(near, far, windows[..n]);
      NoNearerNoMore(near, far, windows[n]);
    }
    RoundMicroIsClose(RawContamination(far, windows), RawContamination(near, windows));
  }

  /** Scores never go negative, and a row out of every window's reach scores zero, the cleanest there is. */
  lemma {:induction false} ContaminationBounds(timestamp: int, windows: seq<EventWindow>)
    requires WellFormed(windows)
    ensures 0.0 <= RawContamination(timestamp, windows) <= TotalWeight(windows)
    ensures 0.0 <= Contamination(timestamp, windows)
    ensures !Covered(timestamp, EventIntervals(windows, MaxBuffer(windows))) ==>
              Contamination(timestamp, windows) == 0.0
  {
    if windows != [] {
      var n := |windows| - 1;
      ContaminationBounds(timestamp, windows[..n]);
      ContributionBounds(timestamp, windows[n]);
    }
    if !Covered(timestamp, EventIntervals(windows, MaxBuffer(windows))) {
      OutOfReach(timestamp, windows, MaxBuffer(windows));
    }
  }

  function MaxBuffer(windows: seq<EventWindow>): (m: int)
    ensures forall i :: 0 <= i < |windows| ==> windows[i].bufferSeconds <= m
  {
    if windows == [] then 30
    else Max(MaxBuffer(windows[..|windows| - 1]), windows[|windows| - 1].bufferSeconds)
  }

  lemma {:induction false} OutOfReach(timestamp: int, windows: seq<EventWindow>, m: int)
    requires WellFormed(windows) && forall i :: 0 <= i < |windows| ==> windows[i].bufferSeconds <= m
    requires !Covered(timestamp, EventIntervals(windows, m))
    ensures RawContamination(timestamp, windows) == 0.0
  {
    if windows != [] {
      var n := |windows| - 1;
      var all, fewer := EventIntervals(windows, m), EventIntervals(windows[..n], m);
      assert !Covers(all[n], timestamp);
      forall i | 0 <= i < n ensures !Covers(fewer[i], timestamp) {
        assert fewer[i] == all[i];
        assert !Covers(all[i], timestamp);
      }
      OutOfReach(timestamp, windows[..n], m);
      ContributionBounds(timestamp, windows[n]);
    }
  }
}
