/**
 * Repetition against deduplication: when medium events of one type from one address are escalated to
 * a block, over runs whose stamps may arrive late and whose mode may change.
 */
module Escalation {
  import opened Sequences
  import opened ResponsePolicy
  import opened ResponseServer
  import opened ResponseRuns

  // ---------- the runs considered ----------

  predicate Escalatable(e: Event) {
    e.severity.Medium? && e.eventType in ESCALATABLE_MEDIUM_TYPES && e.sourceIp != ""
  }

  predicate FromSource(step: Step, e: Event) {
    step.LogEvent? && step.event.eventType == e.eventType && step.event.sourceIp == e.sourceIp
  }

  /** Among arbitrary other traffic, the source's events differ in description only, and are handled in these modes. */
  ghost predicate Scenario(e: Event, descriptions: set<string>, modes: set<Mode>, start: Tables, steps: seq<Step>) {
    && (forall r :: r in start.events ==> !SameSource(r, e.eventType, e.sourceIp))
    && (forall i :: 0 <= i < |steps| && FromSource(steps[i], e)
          ==> steps[i].event == e.(description := steps[i].event.description)
              && steps[i].event.description in descriptions && steps[i].mode in modes)
  }

  /** No event of the source is stamped more than `lateness` seconds before an earlier arrival. */
  ghost predicate Late(e: Event, steps: seq<Step>, lateness: nat) {
    forall i, j :: 0 <= i < j < |steps| && FromSource(steps[i], e) && FromSource(steps[j], e)
      ==> steps[i].at - lateness <= steps[j].at
  }

  const ACTING: set<Mode> := {Assist, AutoDefend}

  /** Identical events, description included, in modes that act on them. */
  ghost predicate Repeating(e: Event, start: Tables, steps: seq<Step>) {
    Scenario(e, {e.description}, ACTING, start, steps)
  }

  // ---------- recorded reviews are spaced, whatever the clocks ----------

  /** Timestamps of the recorded events of one type from one address, in row order. */
  function Stamps(events: seq<Recorded>, eventType: string, ip: string): seq<int> {
    if events == [] then []
    else
      var last := events[|events| - 1];
      Stamps(events[..|events| - 1], eventType, ip)
      + if SameSource(last, eventType, ip) then [last.timestamp] else []
  }

  ghost predicate SpacedBy(stamps: seq<int>, gap: int) {
    forall i, j :: 0 <= i < j < |stamps| ==> stamps[j] - stamps[i] >= gap
  }

  /** Every row of this source is a review with the one description. */
  ghost predicate OnlyReviews(events: seq<Recorded>, e: Event) {
    forall r :: r in events && SameSource(r, e.eventType, e.sourceIp)
      ==> r.action == ReviewRequired && r.description == e.description
  }

  /** What dedup maintains about the rows of one source: a later row is stamped past the window of every earlier one. */
  ghost predicate Deduplicated(cfg: Config, events: seq<Recorded>, e: Event) {
    OnlyReviews(events, e) && SpacedBy(Stamps(events, e.eventType, e.sourceIp), DedupWindow(cfg) + 1)
  }

  lemma {:induction false} StampHasRow(events: seq<Recorded>, eventType: string, ip: string)
    ensures forall s :: s in Stamps(events, eventType, ip)
              ==> exists r :: r in events && SameSource(r, eventType, ip) && r.timestamp == s
  {
    if events != [] {
      var n := |events| - 1;
      StampHasRow(events[..n], eventType, ip);
      assert events == events[..n] + [events[n]];
      assert events[n] in events;
    }
  }

  lemma {:induction false} NoRowNoStamp(events: seq<Recorded>, eventType: string, ip: string)
    requires forall r :: r in events ==> !SameSource(r, eventType, ip)
    ensures Stamps(events, eventType, ip) == []
  {
    if events != [] {
      assert events[|events| - 1] in events;
      NoRowNoStamp(events[..|events| - 1], eventType, ip);
    }
  }

  lemma StampsAppend(events: seq<Recorded>, row: Recorded, eventType: string, ip: string)
    ensures Stamps(events + [row], eventType, ip)
         == Stamps(events, eventType, ip) + if SameSource(row, eventType, ip) then [row.timestamp] else []
  {
    assert (events + [row])[..|events|] == events;
  }

  /** A recorded event of the source passed the duplicate check: no row of the source lies in its window or later. */
  lemma RecordedReviewKeepsSpacing(cfg: Config, t: Tables, e: Event, at: int, mode: Mode, active: bool)
    requires Deduplicated(cfg, t.events, e) && e.sourceIp != ""
    requires OutcomeFor(cfg, t, e, at, mode, active) == RecordedAs(ReviewRequired)
    ensures Deduplicated(cfg, t.events + [RowFor(e, at, ReviewRequired)], e)
  {
    hide DecideResponse, Stamps;
    var row, stamps := RowFor(e, at, ReviewRequired), Stamps(t.events, e.eventType, e.sourceIp);
    StampsAppend(t.events, row, e.eventType, e.sourceIp);
    StampHasRow(t.events, e.eventType, e.sourceIp);
    assert LatestSince(t.events, e.eventType, e.sourceIp, at - DedupWindow(cfg)).None?;
    forall i | 0 <= i < |stamps| ensures stamps[i] < at - DedupWindow(cfg) {
      assert stamps[i] in stamps;
      var r :| r in t.events && SameSource(r, e.eventType, e.sourceIp) && r.timestamp == stamps[i];
    }
  }

  ghost predicate NoBlockBefore(cfg: Config, e: Event, start: Tables, steps: seq<Step>, n: nat)
    requires n <= |steps|
  {
    forall m :: 0 <= m < n && FromSource(steps[m], e) ==> !RecordsAt(cfg, start, steps, m, AutoBlock)
  }

  lemma MediumIsNeverJustLogged(cfg: Config, t: Tables, e: Event, at: int, mode: Mode, active: bool)
    requires e.severity.Medium? && mode in ACTING
    ensures OutcomeFor(cfg, t, e, at, mode, active) != RecordedAs(Logged)
  {
    hide LoadContext;
  }

  lemma LogKeepsSpacing(cfg: Config, t: Tables, e: Event, at: int, mode: Mode, active: bool)
    requires Deduplicated(cfg, t.events, e) && e.sourceIp != ""
    requires OutcomeFor(cfg, t, e, at, mode, active) != RecordedAs(AutoBlock)
    requires OutcomeFor(cfg, t, e, at, mode, active) != RecordedAs(Logged)
    ensures Deduplicated(cfg, AfterLog(cfg, t, e, at, mode, active).events, e)
  {
    hide OutcomeFor, Deduplicated, RowFor;
    var outcome := OutcomeFor(cfg, t, e, at, mode, active);
    if outcome.RecordedAs? {
      assert outcome.taken.ReviewRequired?;
      RecordedReviewKeepsSpacing(cfg, t, e, at, mode, active);
    }
  }

  lemma OtherRowKeepsSpacing(cfg: Config, events: seq<Recorded>, e: Event, row: Recorded)
    requires Deduplicated(cfg, events, e) && !SameSource(row, e.eventType, e.sourceIp)
    ensures Deduplicated(cfg, events + [row], e)
  {
    hide Stamps;
    StampsAppend(events, row, e.eventType, e.sourceIp);
  }

  lemma OtherLogKeepsSpacing(cfg: Config, t: Tables, e: Event, step: Step)
    requires Deduplicated(cfg, t.events, e) && step.LogEvent? && !FromSource(step, e)
    ensures Deduplicated(cfg, AfterLog(cfg, t, step.event, step.at, step.mode, step.active).events, e)
  {
    hide OutcomeFor, Deduplicated;
    var outcome := OutcomeFor(cfg, t, step.event, step.at, step.mode, step.active);
    if outcome.RecordedAs? {
      OtherRowKeepsSpacing(cfg, t.events, e, RowFor(step.event, step.at, outcome.taken));
    }
  }

  function StampsFrom(stamps: seq<int>, cutoff: int): seq<int> {
    if stamps == [] then []
    else
      var last := stamps[|stamps| - 1];
      StampsFrom(stamps[..|stamps| - 1], cutoff) + if last < cutoff then [] else [last]
  }

  lemma {:induction false} KeptStamps(events: seq<Recorded>, eventType: string, ip: string, cutoff: int)
    ensures Stamps(KeptEvents(events, cutoff), eventType, ip) == StampsFrom(Stamps(events, eventType, ip), cutoff)
  {
    if events != [] {
      var before, last := events[..|events| - 1], events[|events| - 1];
      KeptStamps(before, eventType, ip, cutoff);
      hide Stamps, StampsFrom, KeptEvents;
      KeptStampsAppend(before, last, eventType, ip, cutoff);
      assert before + [last] == events;
    }
  }

  lemma KeptStampsAppend(events: seq<Recorded>, row: Recorded, eventType: string, ip: string, cutoff: int)
    requires Stamps(KeptEvents(events, cutoff), eventType, ip) == StampsFrom(Stamps(events, eventType, ip), cutoff)
    ensures Stamps(KeptEvents(events + [row], cutoff), eventType, ip)
         == StampsFrom(Stamps(events + [row], eventType, ip), cutoff)
  {
    hide Stamps, StampsFrom, KeptEvents;
    KeptAppend(events, row, cutoff);
    StampsAppend(events, row, eventType, ip);
    StampsAppend(KeptEvents(events, cutoff), row, eventType, ip);
    StampsFromAppend(Stamps(events, eventType, ip), row.timestamp, cutoff);
  }

  lemma KeptAppend(events: seq<Recorded>, row: Recorded, cutoff: int)
    ensures KeptEvents(events + [row], cutoff)
         == if row.timestamp < cutoff then KeptEvents(events, cutoff) else KeptEvents(events, cutoff) + [row]
  {
    assert (events + [row])[..|events|] == events;
  }

  lemma StampsFromAppend(stamps: seq<int>, s: int, cutoff: int)
    ensures StampsFrom(stamps + [s], cutoff) == StampsFrom(stamps, cutoff) + if s < cutoff then [] else [s]
    ensures stamps + [] == stamps
  {
    assert (stamps + [s])[..|stamps|] == stamps;
  }

  lemma {:induction false} StampsFromSpaced(stamps: seq<int>, gap: int, cutoff: int)
    requires SpacedBy(stamps, gap)
    ensures SpacedBy(StampsFrom(stamps, cutoff), gap)
    ensures forall s :: s in StampsFrom(stamps, cutoff) ==> s in stamps
  {
    if stamps != [] {
      var n := |stamps| - 1;
      var kept := StampsFrom(stamps[..n], cutoff);
      StampsFromSpaced(stamps[..n], gap, cutoff);
      forall i | 0 <= i < |kept| ensures stamps[n] - kept[i] >= gap {
        assert kept[i] in kept;
        var k :| 0 <= k < n && stamps[k] == kept[i];
      }
    }
  }

  /** Deleting old rows does not disturb the spacing. */
  lemma RetentionKeepsSpacing(cfg: Config, events: seq<Recorded>, e: Event, cutoff: int)
    requires Deduplicated(cfg, events, e)
    ensures Deduplicated(cfg, KeptEvents(events, cutoff), e)
  {
    hide Stamps, KeptEvents;
    KeptStamps(events, e.eventType, e.sourceIp, cutoff);
    KeptRowsWereThere(events, cutoff);
    StampsFromSpaced(Stamps(events, e.eventType, e.sourceIp), DedupWindow(cfg) + 1, cutoff);
  }

  /** No step of a repeating scenario breaks the spacing, unless it blocks. */
  lemma StepKeepsSpacing(cfg: Config, e: Event, t: Tables, step: Step)
    requires Deduplicated(cfg, t.events, e) && Escalatable(e)
    requires FromSource(step, e) ==>
               && step.event == e && step.mode in ACTING
               && OutcomeFor(cfg, t, e, step.at, step.mode, step.active) != RecordedAs(AutoBlock)
    ensures Deduplicated(cfg, After(cfg, t, step).events, e)
  {
    hide OutcomeFor, Deduplicated, KeptEvents, AfterLog;
    if FromSource(step, e) {
      MediumIsNeverJustLogged(cfg, t, e, step.at, step.mode, step.active);
      LogKeepsSpacing(cfg, t, e, step.at, step.mode, step.active);
    } else if step.LogEvent? {
      OtherLogKeepsSpacing(cfg, t, e, step);
    } else if step.Retain? {
      RetentionKeepsSpacing(cfg, t.events, e, step.at - EVENT_RETENTION_SECONDS);
    }
  }

  /** Until the first block, each review of identical events is stamped past the dedup window of all before it. */
  lemma {:induction false} ReviewsAreSpaced(cfg: Config, e: Event, start: Tables, steps: seq<Step>, n: nat)
    requires Escalatable(e) && Repeating(e, start, steps) && n <= |steps| && NoBlockBefore(cfg, e, start, steps, n)
    ensures Deduplicated(cfg, TablesAfter(cfg, start, steps, n).events, e)
  {
    hide Stamps, OutcomeFor, After;
    NoRowNoStamp(start.events, e.eventType, e.sourceIp);
    if n > 0 {
      ReviewsAreSpaced(cfg, e, start, steps, n - 1);
      hide Deduplicated;
      var step := steps[n - 1];
      assert FromSource(step, e) ==> step.event == e && !RecordsAt(cfg, start, steps, n - 1, AutoBlock);
      StepKeepsSpacing(cfg, e, TablesAfter(cfg, start, steps, n - 1), step);
    }
  }

  // ---------- what a late event still sees ----------

  /** The step whose event the row records. */
  ghost predicate RecordedBefore(steps: seq<Step>, n: nat, e: Event, row: Recorded)
    requires n <= |steps|
  {
    exists i :: 0 <= i < n && FromSource(steps[i], e) && steps[i].at == row.timestamp
  }

  lemma {:induction false} RowsComeFromSteps(cfg: Config, e: Event, start: Tables, steps: seq<Step>, n: nat)
    requires n <= |steps| && (forall r :: r in start.events ==> !SameSource(r, e.eventType, e.sourceIp))
    ensures forall r :: r in TablesAfter(cfg, start, steps, n).events && SameSource(r, e.eventType, e.sourceIp)
              ==> RecordedBefore(steps, n, e, r)
  {
    hide OutcomeFor;
    if n > 0 {
      RowsComeFromSteps(cfg, e, start, steps, n - 1);
      var before, after := TablesAfter(cfg, start, steps, n - 1), TablesAfter(cfg, start, steps, n);
      if steps[n - 1].Retain? {
        KeptRowsWereThere(before.events, steps[n - 1].at - EVENT_RETENTION_SECONDS);
      }
      forall r | r in after.events && SameSource(r, e.eventType, e.sourceIp) ensures RecordedBefore(steps, n, e, r) {
        if r in before.events {
          var i :| 0 <= i < n - 1 && FromSource(steps[i], e) && steps[i].at == r.timestamp;
        } else {
          assert FromSource(steps[n - 1], e) && steps[n - 1].at == r.timestamp;
        }
      }
    }
  }

  /** No row of the source is ahead of its next event by more than the lateness. */
  lemma RowsAreNotAhead(cfg: Config, e: Event, start: Tables, steps: seq<Step>, lateness: nat, n: nat)
    requires n < |steps| && FromSource(steps[n], e) && Late(e, steps, lateness)
    requires forall r :: r in start.events ==> !SameSource(r, e.eventType, e.sourceIp)
    ensures forall r :: r in TablesAfter(cfg, start, steps, n).events && SameSource(r, e.eventType, e.sourceIp)
              ==> r.timestamp <= steps[n].at + lateness
  {
    hide TablesAfter;
    RowsComeFromSteps(cfg, e, start, steps, n);
  }

  // ---------- escalation needs time ----------

  function CountFrom(stamps: seq<int>, since: int): nat {
    if stamps == [] then 0
    else CountFrom(stamps[..|stamps| - 1], since) + if stamps[|stamps| - 1] >= since then 1 else 0
  }

  lemma {:induction false} CountIsOnStamps(events: seq<Recorded>, eventType: string, ip: string, since: int)
    ensures CountSince(events, eventType, ip, since) == CountFrom(Stamps(events, eventType, ip), since)
  {
    if events != [] {
      var before := events[..|events| - 1];
      CountIsOnStamps(before, eventType, ip, since);
      CountAppend(Stamps(before, eventType, ip), events[|events| - 1].timestamp, since);
    }
  }

  lemma CountAppend(stamps: seq<int>, s: int, since: int)
    ensures CountFrom(stamps + [s], since) == CountFrom(stamps, since) + if s >= since then 1 else 0
    ensures stamps + [] == stamps
  {
    assert (stamps + [s])[..|stamps|] == stamps;
  }

  /** The stamp `oldest` is the least one the escalation window counts. */
  ghost predicate OldestCounted(stamps: seq<int>, since: int, oldest: int) {
    oldest in stamps && oldest >= since && forall s :: s in stamps && s >= since ==> oldest <= s
  }

  lemma {:induction false} NoneCounted(stamps: seq<int>, since: int)
    requires CountFrom(stamps, since) == 0
    ensures forall s :: s in stamps ==> s < since
  {
    if stamps != [] {
      var n := |stamps| - 1;
      NoneCounted(stamps[..n], since);
      assert stamps == stamps[..n] + [stamps[n]];
    }
  }

  lemma {:induction false} SomeIsOldest(stamps: seq<int>, since: int) returns (oldest: int)
    requires CountFrom(stamps, since) > 0
    ensures OldestCounted(stamps, since, oldest)
  {
    var n := |stamps| - 1;
    assert stamps == stamps[..n] + [stamps[n]];
    if CountFrom(stamps[..n], since) == 0 {
      NoneCounted(stamps[..n], since);
      oldest := stamps[n];
    } else {
      oldest := SomeIsOldest(stamps[..n], since);
      if since <= stamps[n] < oldest {
        oldest := stamps[n];
      }
    }
  }

  /** From the oldest counted stamp to the last one there is one gap fewer than there are counted stamps. */
  lemma {:induction false} CountedSpan(stamps: seq<int>, gap: nat, since: int, oldest: int)
    requires SpacedBy(stamps, gap) && CountFrom(stamps, since) > 0
    requires forall i :: 0 <= i < |stamps| && stamps[i] >= since ==> stamps[i] >= oldest
    ensures stamps[|stamps| - 1] - oldest >= (CountFrom(stamps, since) - 1) * gap
  {
    var n := |stamps| - 1;
    var before, counted := stamps[..n], CountFrom(stamps[..n], since);
    if counted > 0 {
      CountedSpan(before, gap, since, oldest);
      assert stamps[n] - stamps[n - 1] >= gap;
      assert counted * gap == (counted - 1) * gap + gap;
    }
  }

  /** A block on this source needs `threshold` events, this one included, not older than the escalation window. */
  lemma BlockNeedsCount(cfg: Config, t: Tables, e: Event, at: int, mode: Mode, active: bool)
    requires Escalatable(e) && OutcomeFor(cfg, t, e, at, mode, active) == RecordedAs(AutoBlock)
    ensures mode == AutoDefend && cfg.autoBlock
    ensures CountSince(t.events, e.eventType, e.sourceIp, at - cfg.mediumEscalationWindow) + 1
         >= cfg.mediumEscalationThreshold
  {
    hide CountSince, LatestSince;
  }

  /** The least distance the dedup window leaves between two recorded reviews of identical events. */
  function Gap(cfg: Config): nat { Max(0, DedupWindow(cfg) + 1) }

  /** The first escalation block comes (threshold - 2) gaps, less the lateness, after the oldest event it counts. */
  lemma EscalationTakesTime(cfg: Config, e: Event, start: Tables, steps: seq<Step>, lateness: nat, n: nat)
    returns (oldest: int)
    requires Escalatable(e) && Repeating(e, start, steps) && Late(e, steps, lateness)
    requires n < |steps| && NoBlockBefore(cfg, e, start, steps, n)
    requires FromSource(steps[n], e) && RecordsAt(cfg, start, steps, n, AutoBlock)
    requires cfg.mediumEscalationThreshold >= 2
    ensures OldestCounted(Stamps(TablesAfter(cfg, start, steps, n).events, e.eventType, e.sourceIp),
                          steps[n].at - cfg.mediumEscalationWindow, oldest)
    ensures steps[n].at - oldest >= (cfg.mediumEscalationThreshold - 2) * Gap(cfg) - lateness
  {
    hide Stamps, CountSince, OutcomeFor, DecideResponse, CountFrom, TablesAfter;
    var t, at := TablesAfter(cfg, start, steps, n), steps[n].at;
    var since := at - cfg.mediumEscalationWindow;
    ReviewsAreSpaced(cfg, e, start, steps, n);
    BlockNeedsCount(cfg, t, e, at, steps[n].mode, steps[n].active);
    CountIsOnStamps(t.events, e.eventType, e.sourceIp, since);
    var stamps := Stamps(t.events, e.eventType, e.sourceIp);
    oldest := SomeIsOldest(stamps, since);
    StampHasRow(t.events, e.eventType, e.sourceIp);
    RowsAreNotAhead(cfg, e, start, steps, lateness, n);
    if DedupWindow(cfg) + 1 > 0 {
      assert forall i :: 0 <= i < |stamps| ==> stamps[i] in stamps;
      CountedSpan(stamps, Gap(cfg), since, oldest);
      assert stamps[|stamps| - 1] in stamps;
      Scaled(cfg.mediumEscalationThreshold - 2, CountFrom(stamps, since) - 1, Gap(cfg));
    }
  }

  /** If that delay does not fit into the escalation window and the lateness, identical events never escalate. */
  lemma {:induction false} NeverEscalates(cfg: Config, e: Event, start: Tables, steps: seq<Step>, lateness: nat, n: nat)
    requires Escalatable(e) && Repeating(e, start, steps) && Late(e, steps, lateness) && n <= |steps|
    requires cfg.mediumEscalationThreshold >= 2
    requires cfg.mediumEscalationWindow + lateness < (cfg.mediumEscalationThreshold - 2) * Gap(cfg)
    ensures NoBlockBefore(cfg, e, start, steps, n)
  {
    hide TablesAfter, OutcomeFor, Gap, RecordsAt;
    if n > 0 {
      NeverEscalates(cfg, e, start, steps, lateness, n - 1);
      var m := n - 1;
      if FromSource(steps[m], e) && RecordsAt(cfg, start, steps, m, AutoBlock) {
        var oldest := EscalationTakesTime(cfg, e, start, steps, lateness, m);
        assert false;
      }
    }
  }

  lemma {:induction false} NothingToCount(events: seq<Recorded>, eventType: string, ip: string, since: int)
    requires forall r :: r in events && SameSource(r, eventType, ip) ==> r.timestamp < since
    ensures CountSince(events, eventType, ip, since) == 0
  {
    if events != [] {
      assert events[|events| - 1] in events;
      NothingToCount(events[..|events| - 1], eventType, ip, since);
    }
  }

  /** An escalation window further in the future than any message is late counts nothing but the event at hand. */
  lemma NegativeWindowNeverEscalates(cfg: Config, e: Event, descriptions: set<string>, modes: set<Mode>,
                                     start: Tables, steps: seq<Step>, lateness: nat, n: nat)
    requires Escalatable(e) && Scenario(e, descriptions, modes, start, steps) && Late(e, steps, lateness)
    requires n < |steps| && FromSource(steps[n], e)
    requires cfg.mediumEscalationThreshold >= 2 && cfg.mediumEscalationWindow + lateness < 0
    ensures !RecordsAt(cfg, start, steps, n, AutoBlock)
  {
    hide OutcomeFor, TablesAfter, CountSince;
    var t, at := TablesAfter(cfg, start, steps, n), steps[n].at;
    RowsAreNotAhead(cfg, e, start, steps, lateness, n);
    NothingToCount(t.events, e.eventType, e.sourceIp, at - cfg.mediumEscalationWindow);
    if RecordsAt(cfg, start, steps, n, AutoBlock) {
      BlockNeedsCount(cfg, t, steps[n].event, at, steps[n].mode, steps[n].active);
    }
  }

  // ---------- and no more time than that ----------

  /**
   * `threshold` events `gap` seconds apart, every other one described and handled differently. The
   * last comes right after the one before it, or as late as the escalation window demands.
   */
  function Volley(cfg: Config, e: Event, other: string, between: Mode, gap: nat): seq<Step>
    requires cfg.mediumEscalationThreshold >= 2
  {
    seq(cfg.mediumEscalationThreshold, i =>
      if i == cfg.mediumEscalationThreshold - 1 then LogEvent(Turn(e, other, i), LastAt(cfg, gap), AutoDefend, true)
      else LogEvent(Turn(e, other, i), i * gap, TurnMode(between, i), true))
  }

  function LastAt(cfg: Config, gap: nat): int {
    Min((cfg.mediumEscalationThreshold - 2) * gap, cfg.mediumEscalationWindow)
  }

  function Turn(e: Event, other: string, i: int): Event {
    if i % 2 == 0 then e else e.(description := other)
  }

  function TurnMode(between: Mode, i: int): Mode { if i % 2 == 0 then AutoDefend else between }

  function TurnRow(e: Event, other: string, between: Mode, gap: nat, i: int): Recorded {
    RowFor(Turn(e, other, i), i * gap, if TurnMode(between, i) == Observe then Logged else ReviewRequired)
  }

  function TurnRows(e: Event, other: string, between: Mode, gap: nat, k: nat): (rows: seq<Recorded>)
    ensures |rows| == k
  {
    if k == 0 then [] else TurnRows(e, other, between, gap, k - 1) + [TurnRow(e, other, between, gap, k - 1)]
  }

  lemma {:induction false} TurnRowsFacts(e: Event, other: string, between: Mode, gap: nat, k: nat)
    ensures forall r :: r in TurnRows(e, other, between, gap, k) ==>
              r.action != AutoBlock && 0 <= r.timestamp <= (k - 1) * gap
  {
    if k > 0 {
      TurnRowsFacts(e, other, between, gap, k - 1);
      TurnRowFacts(e, other, between, gap, k - 1);
      hide TurnRow;
      Scaled(0, k - 1, gap);
      Scaled(k - 2, k - 1, gap);
    }
  }

  lemma {:induction false} TurnRowsCount(e: Event, other: string, between: Mode, gap: nat, k: nat, since: int)
    ensures CountSince(TurnRows(e, other, between, gap, k), e.eventType, e.sourceIp, since) <= k
    ensures since <= 0 ==> CountSince(TurnRows(e, other, between, gap, k), e.eventType, e.sourceIp, since) == k
  {
    if k > 0 {
      TurnRowsCount(e, other, between, gap, k - 1, since);
      Scaled(0, k - 1, gap);
      var before, row := TurnRows(e, other, between, gap, k - 1), TurnRow(e, other, between, gap, k - 1);
      hide TurnRow, CountSince;
      CountSinceAppend(before, row, e.eventType, e.sourceIp, since);
      TurnRowFacts(e, other, between, gap, k - 1);
    }
  }

  lemma TurnRowFacts(e: Event, other: string, between: Mode, gap: nat, i: int)
    ensures var row := TurnRow(e, other, between, gap, i);
            row.timestamp == i * gap && SameSource(row, e.eventType, e.sourceIp) && row.action != AutoBlock
  {
  }

  lemma CountSinceAppend(events: seq<Recorded>, row: Recorded, eventType: string, ip: string, since: int)
    ensures CountSince(events + [row], eventType, ip, since)
         == CountSince(events, eventType, ip, since)
            + if SameSource(row, eventType, ip) && row.timestamp >= since then 1 else 0
  {
    assert (events + [row])[..|events|] == events;
  }

  /** A row no older than all others is the newest in every window that reaches it. */
  lemma LatestIsLast(events: seq<Recorded>, row: Recorded, eventType: string, ip: string, since: int)
    requires SameSource(row, eventType, ip) && since <= row.timestamp
    requires forall r :: r in events ==> r.timestamp <= row.timestamp
    ensures LatestSince(events + [row], eventType, ip, since) == Some(row)
  {
    assert (events + [row])[..|events|] == events;
  }

  /** With no time between the events, the newest row in the window is the last one. */
  lemma TurnRowsNewest(e: Event, other: string, between: Mode, k: nat, since: int)
    requires k > 0
    ensures LatestSince(TurnRows(e, other, between, 0, k), e.eventType, e.sourceIp, since)
         == if since <= 0 then Some(TurnRow(e, other, between, 0, k - 1)) else None
  {
    var before, row := TurnRows(e, other, between, 0, k - 1), TurnRow(e, other, between, 0, k - 1);
    TurnRowsFacts(e, other, between, 0, k - 1);
    TurnRowsFacts(e, other, between, 0, k);
    TurnRowFacts(e, other, between, 0, k - 1);
    hide TurnRow, LatestSince;
    if since <= 0 {
      LatestIsLast(before, row, e.eventType, e.sourceIp, since);
    }
  }

  /** Consecutive events of the volley are out of each other's dedup window, or told apart by it. */
  ghost predicate Undeduplicated(cfg: Config, e: Event, other: string, between: Mode, gap: nat) {
    gap == Gap(cfg) || (gap == 0 && (other != e.description || between == Observe))
  }

  /** With no block in the tables, an event that is too rare and no duplicate is logged or reviewed. */
  lemma RareIsRecorded(cfg: Config, events: seq<Recorded>, e: Event, at: int, mode: Mode, taken: Taken)
    requires Escalatable(e) && taken == if mode == Observe then Logged else ReviewRequired
    requires CountSince(events, e.eventType, e.sourceIp, at - cfg.mediumEscalationWindow) + 1
           < cfg.mediumEscalationThreshold
    requires var newest := LatestSince(events, e.eventType, e.sourceIp, at - DedupWindow(cfg));
             newest.Some? ==> newest.value.action != taken || newest.value.description != e.description
    ensures OutcomeFor(cfg, Tables(events, map[]), e, at, mode, true) == RecordedAs(taken)
  {
    hide CountSince, LatestSince;
  }

  lemma FrequentIsBlocked(cfg: Config, events: seq<Recorded>, e: Event, at: int)
    requires Escalatable(e) && cfg.autoBlock && (forall r :: r in events ==> r.action != AutoBlock)
    requires CountSince(events, e.eventType, e.sourceIp, at - cfg.mediumEscalationWindow) + 1
          >= cfg.mediumEscalationThreshold
    ensures OutcomeFor(cfg, Tables(events, map[]), e, at, AutoDefend, true) == RecordedAs(AutoBlock)
  {
    hide CountSince, LatestSince;
  }

  lemma TurnFacts(e: Event, other: string, between: Mode, gap: nat, i: nat)
    requires Escalatable(e)
    ensures var x := Turn(e, other, i);
            Escalatable(x) && x.eventType == e.eventType && x.sourceIp == e.sourceIp
    ensures TurnRow(e, other, between, gap, i)
         == RowFor(Turn(e, other, i), i * gap, if TurnMode(between, i) == Observe then Logged else ReviewRequired)
    ensures i > 0 && (other != e.description || between == Observe) ==>
              var before, row := TurnRow(e, other, between, gap, i - 1), TurnRow(e, other, between, gap, i);
              before.action != row.action || before.description != row.description
  {
  }

  /** No event of the volley before the last is a duplicate, and all are too few to escalate. */
  lemma TurnIsRecorded(cfg: Config, e: Event, other: string, between: Mode, gap: nat, k: nat)
    requires Escalatable(e) && Undeduplicated(cfg, e, other, between, gap) && k < cfg.mediumEscalationThreshold - 1
    ensures OutcomeFor(cfg, Tables(TurnRows(e, other, between, gap, k), map[]), Turn(e, other, k), k * gap,
                       TurnMode(between, k), true)
         == RecordedAs(TurnRow(e, other, between, gap, k).action)
  {
    hide OutcomeFor, Turn, TurnMode, TurnRow, CountSince, LatestSince, TurnRows;
    var rows := TurnRows(e, other, between, gap, k);
    TurnFacts(e, other, between, gap, k);
    TurnRowsFacts(e, other, between, gap, k);
    TurnRowsCount(e, other, between, gap, k, k * gap - cfg.mediumEscalationWindow);
    var newest := LatestSince(rows, e.eventType, e.sourceIp, k * gap - DedupWindow(cfg));
    hide Escalatable;
    if gap == Gap(cfg) {
      assert k * gap == (k - 1) * gap + gap;
      assert newest.None?;
    } else if k > 0 {
      TurnRowsNewest(e, other, between, k, 0 - DedupWindow(cfg));
    } else {
      assert newest.None?;
    }
    RareIsRecorded(cfg, rows, Turn(e, other, k), k * gap, TurnMode(between, k),
                   TurnRow(e, other, between, gap, k).action);
  }

  /** The last one escalates. */
  lemma LastEscalates(cfg: Config, e: Event, other: string, between: Mode, gap: nat)
    requires Escalatable(e) && cfg.autoBlock && cfg.mediumEscalationThreshold >= 2
    ensures var k := cfg.mediumEscalationThreshold - 1;
            OutcomeFor(cfg, Tables(TurnRows(e, other, between, gap, k), map[]), Turn(e, other, k), LastAt(cfg, gap),
                       AutoDefend, true) == RecordedAs(AutoBlock)
  {
    hide OutcomeFor, Turn, TurnMode, TurnRow, CountSince, LatestSince, TurnRows;
    var k := cfg.mediumEscalationThreshold - 1;
    TurnFacts(e, other, between, gap, k);
    TurnRowsFacts(e, other, between, gap, k);
    TurnRowsCount(e, other, between, gap, k, LastAt(cfg, gap) - cfg.mediumEscalationWindow);
    FrequentIsBlocked(cfg, TurnRows(e, other, between, gap, k), Turn(e, other, k), LastAt(cfg, gap));
  }

  lemma {:induction false} VolleyRun(cfg: Config, e: Event, other: string, between: Mode, gap: nat, k: nat)
    requires Escalatable(e) && Undeduplicated(cfg, e, other, between, gap)
    requires k < cfg.mediumEscalationThreshold && cfg.mediumEscalationThreshold >= 2
    ensures TablesAfter(cfg, NO_TABLES, Volley(cfg, e, other, between, gap), k)
         == Tables(TurnRows(e, other, between, gap, k), map[])
  {
    if k > 0 {
      VolleyRun(cfg, e, other, between, gap, k - 1);
      TurnIsRecorded(cfg, e, other, between, gap, k - 1);
      hide OutcomeFor, Turn, TurnMode;
      assert Volley(cfg, e, other, between, gap)[k - 1]
          == LogEvent(Turn(e, other, k - 1), (k - 1) * gap, TurnMode(between, k - 1), true);
    }
  }

  /** A volley escalates whenever the window and the lateness hold its gaps. */
  lemma VolleyBlocks(cfg: Config, e: Event, other: string, between: Mode, gap: nat, lateness: nat)
    requires Escalatable(e) && cfg.autoBlock && cfg.mediumEscalationThreshold >= 2
    requires Undeduplicated(cfg, e, other, between, gap)
    requires (cfg.mediumEscalationThreshold - 2) * gap <= cfg.mediumEscalationWindow + lateness
    ensures var volley := Volley(cfg, e, other, between, gap);
            && Scenario(e, {e.description, other}, {AutoDefend, between}, NO_TABLES, volley)
            && Late(e, volley, lateness)
            && (forall i :: 0 <= i < |volley| ==> FromSource(volley[i], e))
            && RecordsAt(cfg, NO_TABLES, volley, cfg.mediumEscalationThreshold - 1, AutoBlock)
  {
    var last, volley := cfg.mediumEscalationThreshold - 1, Volley(cfg, e, other, between, gap);
    hide OutcomeFor, TablesAfter, TurnRows, Turn, TurnMode, Scenario, Late, Undeduplicated;
    VolleyRun(cfg, e, other, between, gap, last);
    LastEscalates(cfg, e, other, between, gap);
    assert volley[last] == LogEvent(Turn(e, other, last), LastAt(cfg, gap), AutoDefend, true);
    VolleyIsLate(cfg, e, other, between, gap, lateness);
    VolleyIsFromSource(cfg, e, other, between, gap);
  }

  lemma VolleyIsLate(cfg: Config, e: Event, other: string, between: Mode, gap: nat, lateness: nat)
    requires cfg.mediumEscalationThreshold >= 2
    requires (cfg.mediumEscalationThreshold - 2) * gap <= cfg.mediumEscalationWindow + lateness
    ensures Late(e, Volley(cfg, e, other, between, gap), lateness)
  {
    hide Turn, TurnMode;
    var last, volley := cfg.mediumEscalationThreshold - 2, Volley(cfg, e, other, between, gap);
    forall i, j | 0 <= i < j < |volley| ensures volley[i].at - lateness <= volley[j].at {
      assert i <= last && volley[i].at == i * gap;
      Scaled(i, last, gap);
      if j <= last {
        assert volley[j].at == j * gap;
        Scaled(i, j, gap);
      } else {
        assert volley[j].at == LastAt(cfg, gap);
      }
    }
  }

  lemma VolleyIsFromSource(cfg: Config, e: Event, other: string, between: Mode, gap: nat)
    requires Escalatable(e) && cfg.mediumEscalationThreshold >= 2
    ensures Scenario(e, {e.description, other}, {AutoDefend, between}, NO_TABLES, Volley(cfg, e, other, between, gap))
    ensures forall i :: 0 <= i < cfg.mediumEscalationThreshold ==> FromSource(Volley(cfg, e, other, between, gap)[i], e)
  {
  }

  /** Identical events: escalation is possible as soon as the dedup gaps fit. */
  lemma VolleyEscalates(cfg: Config, e: Event, lateness: nat)
    requires Escalatable(e) && cfg.autoBlock && cfg.mediumEscalationThreshold >= 2
    requires (cfg.mediumEscalationThreshold - 2) * Gap(cfg) <= cfg.mediumEscalationWindow + lateness
    ensures var volley, last := Volley(cfg, e, e.description, AutoDefend, Gap(cfg)), cfg.mediumEscalationThreshold - 1;
            && Repeating(e, NO_TABLES, volley) && Late(e, volley, lateness)
            && volley[last].at == Min((cfg.mediumEscalationThreshold - 2) * Gap(cfg), cfg.mediumEscalationWindow)
            && RecordsAt(cfg, NO_TABLES, volley, last, AutoBlock)
  {
    VolleyBlocks(cfg, e, e.description, AutoDefend, Gap(cfg), lateness);
    hide RecordsAt, Gap;
  }

  /** Two alternating descriptions escalate at any threshold within one instant: dedup never applies. */
  lemma BarrageEscalates(cfg: Config, e: Event, other: string)
    requires Escalatable(e) && cfg.autoBlock && cfg.mediumEscalationThreshold >= 2 && cfg.mediumEscalationWindow >= 0
    requires other != e.description
    ensures var barrage := Volley(cfg, e, other, AutoDefend, 0);
            && Scenario(e, {e.description, other}, {AutoDefend}, NO_TABLES, barrage)
            && (forall i :: 0 <= i < |barrage| ==> barrage[i].at == 0)
            && RecordsAt(cfg, NO_TABLES, barrage, cfg.mediumEscalationThreshold - 1, AutoBlock)
  {
    VolleyBlocks(cfg, e, other, AutoDefend, 0, 0);
    assert {AutoDefend, AutoDefend} == {AutoDefend};
    hide RecordsAt;
  }

  /** So do identical events while the mode alternates with observe, whose rows say "logged" and are counted. */
  lemma ObserveEscalates(cfg: Config, e: Event)
    requires Escalatable(e) && cfg.autoBlock && cfg.mediumEscalationThreshold >= 2 && cfg.mediumEscalationWindow >= 0
    ensures var barrage := Volley(cfg, e, e.description, Observe, 0);
            && Scenario(e, {e.description}, {AutoDefend, Observe}, NO_TABLES, barrage)
            && (forall i :: 0 <= i < |barrage| ==> barrage[i].at == 0)
            && RecordsAt(cfg, NO_TABLES, barrage, cfg.mediumEscalationThreshold - 1, AutoBlock)
  {
    VolleyBlocks(cfg, e, e.description, Observe, 0, 0);
    assert {e.description, e.description} == {e.description};
    hide RecordsAt;
  }

  // ---------- exactly when escalation is possible ----------

  /** Some run with these descriptions, modes and lateness escalates the source to a block. */
  ghost predicate CanEscalate(cfg: Config, e: Event, descriptions: set<string>, modes: set<Mode>, lateness: nat) {
    exists start: Tables, steps: seq<Step>, n ::
      Scenario(e, descriptions, modes, start, steps) && Late(e, steps, lateness)
      && 0 <= n < |steps| && FromSource(steps[n], e) && RecordsAt(cfg, start, steps, n, AutoBlock)
  }

  /** Some run under the server's clocks does. */
  ghost predicate CanEscalateOnServer(cfg: Config, e: Event, descriptions: set<string>, modes: set<Mode>) {
    exists start: Tables, steps: seq<Step>, nows: seq<int>, n ::
      Scenario(e, descriptions, modes, start, steps) && ServerClock(steps, nows)
      && 0 <= n < |steps| && FromSource(steps[n], e) && RecordsAt(cfg, start, steps, n, AutoBlock)
  }

  /** Dedup slows identical events down, as long as they are acted on; nothing else does. */
  function EscalationDelay(cfg: Config, descriptions: set<string>, modes: set<Mode>): int {
    if |descriptions| == 1 && Observe !in modes then (cfg.mediumEscalationThreshold - 2) * Gap(cfg) else 0
  }

  /** What a caller can check beforehand. */
  predicate EscalationPossible(cfg: Config, descriptions: set<string>, modes: set<Mode>, lateness: nat) {
    && cfg.autoBlock && AutoDefend in modes
    && (cfg.mediumEscalationThreshold >= 2 ==>
          EscalationDelay(cfg, descriptions, modes) <= cfg.mediumEscalationWindow + lateness)
  }

  lemma NoEscalation(cfg: Config, e: Event, descriptions: set<string>, modes: set<Mode>, lateness: nat,
                     start: Tables, steps: seq<Step>, n: nat)
    requires Escalatable(e) && e.description in descriptions
    requires Scenario(e, descriptions, modes, start, steps) && Late(e, steps, lateness)
    requires n < |steps| && FromSource(steps[n], e) && RecordsAt(cfg, start, steps, n, AutoBlock)
    ensures EscalationPossible(cfg, descriptions, modes, lateness)
  {
    hide OutcomeFor, TablesAfter, Gap;
    var t, step := TablesAfter(cfg, start, steps, n), steps[n];
    BlockNeedsCount(cfg, t, step.event, step.at, step.mode, step.active);
    if cfg.mediumEscalationThreshold >= 2 {
      if cfg.mediumEscalationWindow + lateness < 0 {
        NegativeWindowNeverEscalates(cfg, e, descriptions, modes, start, steps, lateness, n);
      }
      if |descriptions| == 1 && Observe !in modes
         && cfg.mediumEscalationWindow + lateness < (cfg.mediumEscalationThreshold - 2) * Gap(cfg) {
        OnlyMember(descriptions, e.description);
        forall m | m in modes ensures m in ACTING { assert m != Observe; }
        assert Repeating(e, start, steps);
        NeverEscalates(cfg, e, start, steps, lateness, |steps|);
        assert false;
      }
    }
  }

  lemma OnlyMember(descriptions: set<string>, d: string)
    requires |descriptions| == 1 && d in descriptions
    ensures descriptions == {d}
  {
    assert |descriptions - {d}| == 0;
  }

  /** A run that escalates, all of whose steps are events of the source. */
  lemma EscalatingRun(cfg: Config, e: Event, descriptions: set<string>, modes: set<Mode>, lateness: nat)
    returns (steps: seq<Step>)
    requires Escalatable(e) && e.description in descriptions
    requires EscalationPossible(cfg, descriptions, modes, lateness)
    ensures Scenario(e, descriptions, modes, NO_TABLES, steps) && Late(e, steps, lateness)
    ensures forall i :: 0 <= i < |steps| ==> FromSource(steps[i], e)
    ensures steps != [] && RecordsAt(cfg, NO_TABLES, steps, |steps| - 1, AutoBlock)
  {
    hide RecordsAt, Gap;
    if cfg.mediumEscalationThreshold < 2 {
      steps := [LogEvent(e, 0, AutoDefend, true)];
      SingleEventEscalates(cfg, e);
    } else {
      var other, between, gap := e.description, AutoDefend, 0;
      if |descriptions| == 1 && Observe !in modes {
        gap := Gap(cfg);
      } else if Observe in modes {
        between := Observe;
      } else {
        assert |descriptions - {e.description}| > 0;
        other :| other in descriptions - {e.description};
      }
      VolleyBlocks(cfg, e, other, between, gap, lateness);
      steps := Volley(cfg, e, other, between, gap);
    }
  }

  lemma SingleEventEscalates(cfg: Config, e: Event)
    requires Escalatable(e) && cfg.autoBlock && cfg.mediumEscalationThreshold < 2
    ensures RecordsAt(cfg, NO_TABLES, [LogEvent(e, 0, AutoDefend, true)], 0, AutoBlock)
  {
  }

  /**
   * Medium events of one type from one address can be escalated to a block if and only if blocking is on
   * and the escalation window, stretched by the lateness, holds the delay dedup imposes.
   */
  lemma EscalationPossibleIff(cfg: Config, e: Event, descriptions: set<string>, modes: set<Mode>, lateness: nat)
    requires Escalatable(e) && e.description in descriptions
    ensures CanEscalate(cfg, e, descriptions, modes, lateness)
       <==> EscalationPossible(cfg, descriptions, modes, lateness)
  {
    hide RecordsAt, EscalationPossible;
    if EscalationPossible(cfg, descriptions, modes, lateness) {
      var steps := EscalatingRun(cfg, e, descriptions, modes, lateness);
    }
    forall start: Tables, steps: seq<Step>, n
      | Scenario(e, descriptions, modes, start, steps) && Late(e, steps, lateness)
        && 0 <= n < |steps| && FromSource(steps[n], e) && RecordsAt(cfg, start, steps, n, AutoBlock)
      ensures EscalationPossible(cfg, descriptions, modes, lateness)
    {
      NoEscalation(cfg, e, descriptions, modes, lateness, start, steps, n);
    }
  }

  /** A dedup window of zero is taken for five minutes. */
  lemma ZeroDedupIsFiveMinutes(cfg: Config, e: Event, descriptions: set<string>, modes: set<Mode>, lateness: nat)
    requires Escalatable(e) && e.description in descriptions && cfg.eventDedupWindow == 0
    ensures CanEscalate(cfg, e, descriptions, modes, lateness)
       <==> CanEscalate(cfg.(eventDedupWindow := 300), e, descriptions, modes, lateness)
  {
    hide CanEscalate;
    EscalationPossibleIff(cfg, e, descriptions, modes, lateness);
    EscalationPossibleIff(cfg.(eventDedupWindow := 300), e, descriptions, modes, lateness);
  }

  const MAX_LATENESS := MAX_STAMP_AGE + MAX_STAMP_LEAD

  /** Under the server's clocks, stamps are exactly as late as validation lets them be. */
  lemma ServerEscalationIff(cfg: Config, e: Event, descriptions: set<string>, modes: set<Mode>)
    requires Escalatable(e) && e.description in descriptions
    ensures CanEscalateOnServer(cfg, e, descriptions, modes)
       <==> EscalationPossible(cfg, descriptions, modes, MAX_LATENESS)
  {
    hide RecordsAt, EscalationPossible;
    if EscalationPossible(cfg, descriptions, modes, MAX_LATENESS) {
      var steps := EscalatingRun(cfg, e, descriptions, modes, MAX_LATENESS);
      assert InTime(steps);
      var nows := ReadingsExplain(steps);
    }
    forall start: Tables, steps: seq<Step>, nows: seq<int>, n
      | Scenario(e, descriptions, modes, start, steps) && ServerClock(steps, nows)
        && 0 <= n < |steps| && FromSource(steps[n], e) && RecordsAt(cfg, start, steps, n, AutoBlock)
      ensures EscalationPossible(cfg, descriptions, modes, MAX_LATENESS)
    {
      ServerLateness(e, steps, nows);
      NoEscalation(cfg, e, descriptions, modes, MAX_LATENESS, start, steps, n);
    }
  }

  lemma ServerLateness(e: Event, steps: seq<Step>, nows: seq<int>)
    requires ServerClock(steps, nows)
    ensures Late(e, steps, MAX_LATENESS)
  {
    forall i, j | 0 <= i < j < |steps| && FromSource(steps[i], e) && FromSource(steps[j], e)
      ensures steps[i].at - MAX_LATENESS <= steps[j].at
    {
      assert Stamped(steps[i], nows[i]) && Stamped(steps[j], nows[j]) && nows[i] <= nows[j];
    }
  }

  /**
   * With blocking on and the shipped windows of 300 s and 900 s, identical events that are acted on can
   * escalate at thresholds up to 4 if none is late, and up to 293 if they are as late as the server accepts.
   * With a second description, or while the mode changes to observe, they can at any threshold.
   */
  lemma ShippedWindows(cfg: Config, e: Event, descriptions: set<string>, modes: set<Mode>)
    requires cfg.eventDedupWindow == 300 && cfg.mediumEscalationWindow == 900
    requires cfg.autoBlock && AutoDefend in modes && Escalatable(e) && e.description in descriptions
    ensures CanEscalate(cfg, e, descriptions, modes, 0)
       <==> cfg.mediumEscalationThreshold <= 4 || |descriptions| > 1 || Observe in modes
    ensures CanEscalateOnServer(cfg, e, descriptions, modes)
       <==> cfg.mediumEscalationThreshold <= 293 || |descriptions| > 1 || Observe in modes
  {
    hide CanEscalate, CanEscalateOnServer;
    EscalationPossibleIff(cfg, e, descriptions, modes, 0);
    ServerEscalationIff(cfg, e, descriptions, modes);
    assert Gap(cfg) == 301;
    assert |descriptions| != 0;
  }
}
