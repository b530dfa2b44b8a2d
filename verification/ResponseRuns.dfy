/** Whole runs of the response path: stamped log events among expiry and retention sweeps. */
module ResponseRuns {
  import opened Sequences
  import opened ResponsePolicy
  import opened ResponseServer

  /**
   * `at` is a log event's validated stamp, and a sweep's reading of the server's clock.
   * The mode and the node's role may change from one event to the next.
   */
  datatype Step =
    | LogEvent(event: Event, at: int, mode: Mode, active: bool)
    | Expire(at: int)
    | Retain(at: int)

  const NO_TABLES := Tables([], map[])

  function After(cfg: Config, t: Tables, step: Step): Tables {
    match step
    case LogEvent(e, at, mode, active) => AfterLog(cfg, t, e, at, mode, active)
    case Expire(at) => AfterExpiry(t, at)
    case Retain(at) => AfterRetention(t, at)
  }

  function TablesAfter(cfg: Config, start: Tables, steps: seq<Step>, n: nat): Tables
    requires n <= |steps|
  {
    if n == 0 then start else After(cfg, TablesAfter(cfg, start, steps, n - 1), steps[n - 1])
  }

  predicate RecordsAt(cfg: Config, start: Tables, steps: seq<Step>, n: nat, taken: Taken)
    requires n < |steps|
  {
    steps[n].LogEvent?
    && OutcomeFor(cfg, TablesAfter(cfg, start, steps, n), steps[n].event, steps[n].at, steps[n].mode,
                  steps[n].active) == RecordedAs(taken)
  }

  predicate BlocksAt(cfg: Config, start: Tables, steps: seq<Step>, n: nat, ip: string)
    requires n < |steps|
  {
    RecordsAt(cfg, start, steps, n, AutoBlock) && steps[n].event.sourceIp == ip
  }

  // ---------- scans from blocked addresses ----------

  /** While an address has a block row, no port scan of it is recorded, in any mode and role. */
  lemma {:induction false} BlockedScansLeaveNoRow(cfg: Config, start: Tables, steps: seq<Step>, a: nat, b: nat,
                                                  row: Recorded)
    requires a <= b <= |steps| && row.eventType == "port_scan" && row.sourceIp != ""
    requires forall n :: a <= n < b ==> row.sourceIp in TablesAfter(cfg, start, steps, n).blocked
    ensures multiset(TablesAfter(cfg, start, steps, b).events)[row]
         <= multiset(TablesAfter(cfg, start, steps, a).events)[row]
  {
    hide After;
    if a < b {
      BlockedScansLeaveNoRow(cfg, start, steps, a, b - 1, row);
      BlockedScanStep(cfg, TablesAfter(cfg, start, steps, b - 1), steps[b - 1], row);
    }
  }

  lemma BlockedScanStep(cfg: Config, t: Tables, step: Step, row: Recorded)
    requires row.eventType == "port_scan" && row.sourceIp != "" && row.sourceIp in t.blocked
    ensures multiset(After(cfg, t, step).events)[row] <= multiset(t.events)[row]
  {
    hide OutcomeFor, KeptEvents;
    match step
    case LogEvent(e, at, mode, active) => FollowupIff(cfg, t, e, at, mode, active);
    case Expire(_) =>
    case Retain(at) => KeptEventsExact(t.events, at - EVENT_RETENTION_SECONDS);
  }

  // ---------- the two clocks ----------

  /** One nondecreasing clock for stamps and sweeps alike: no message is ever late. */
  ghost predicate Clocked(steps: seq<Step>) {
    forall i, j :: 0 <= i < j < |steps| ==> steps[i].at <= steps[j].at
  }

  /** What a step may carry when the server's clock reads `now`. */
  predicate Stamped(step: Step, now: int) {
    if step.LogEvent? then step.at == ValidateTimestamp(Some(step.at), now) else step.at == now
  }

  /** The server's own clock does not step back; stamps are the agent's, as far as they pass validation. */
  ghost predicate ServerClock(steps: seq<Step>, nows: seq<int>) {
    && |nows| == |steps|
    && (forall i, j :: 0 <= i < j < |nows| ==> nows[i] <= nows[j])
    && (forall i :: 0 <= i < |steps| ==> Stamped(steps[i], nows[i]))
  }

  /** The least and the greatest clock reading at which a step may happen. */
  function Earliest(step: Step): int { if step.LogEvent? then step.at - MAX_STAMP_LEAD else step.at }

  function Latest(step: Step): int { if step.LogEvent? then step.at + MAX_STAMP_AGE else step.at }

  lemma StampedIff(step: Step, now: int)
    ensures Stamped(step, now) <==> Earliest(step) <= now <= Latest(step)
  {
  }

  /** The greatest `Earliest` of the first `n` steps. */
  function Reading(steps: seq<Step>, n: nat): int
    requires 0 < n <= |steps|
  {
    if n == 1 then Earliest(steps[0]) else Max(Reading(steps, n - 1), Earliest(steps[n - 1]))
  }

  lemma {:induction false} ReadingIsReached(steps: seq<Step>, n: nat) returns (i: nat)
    requires 0 < n <= |steps|
    ensures i < n && Earliest(steps[i]) == Reading(steps, n) >= Earliest(steps[n - 1])
  {
    i := n - 1;
    if n > 1 && Reading(steps, n) != Earliest(steps[n - 1]) {
      i := ReadingIsReached(steps, n - 1);
    }
  }

  lemma {:induction false} ReadingsGrow(steps: seq<Step>, m: nat, n: nat)
    requires 0 < m <= n <= |steps|
    ensures Reading(steps, m) <= Reading(steps, n)
  {
    if m < n { ReadingsGrow(steps, m, n - 1); }
  }

  /** No step must happen later than a following one can. */
  ghost predicate InTime(steps: seq<Step>) {
    forall i, j :: 0 <= i < j < |steps| ==> Earliest(steps[i]) <= Latest(steps[j])
  }

  lemma ReadingFits(steps: seq<Step>, n: nat)
    requires InTime(steps) && n < |steps|
    ensures Stamped(steps[n], Reading(steps, n + 1))
  {
    hide Reading, Stamped;
    var i := ReadingIsReached(steps, n + 1);
    assert i < n ==> Earliest(steps[i]) <= Latest(steps[n]);
    StampedIff(steps[n], Reading(steps, n + 1));
  }

  lemma ReadingsExplain(steps: seq<Step>) returns (nows: seq<int>)
    requires InTime(steps)
    ensures ServerClock(steps, nows)
  {
    hide Reading, Stamped, InTime;
    nows := seq(|steps|, n requires 0 <= n < |steps| => Reading(steps, n + 1));
    forall n | 0 <= n < |steps| ensures Stamped(steps[n], nows[n]) {
      ReadingFits(steps, n);
    }
    forall i, j | 0 <= i < j < |nows| ensures nows[i] <= nows[j] {
      ReadingsGrow(steps, i + 1, j + 1);
    }
  }

  /** Some server clock explains a run exactly when its steps are in time. */
  lemma ServerClockIff(steps: seq<Step>)
    ensures (exists nows :: ServerClock(steps, nows)) <==> InTime(steps)
  {
    if nows :| ServerClock(steps, nows) {
      forall i, j | 0 <= i < j < |steps| ensures Earliest(steps[i]) <= Latest(steps[j]) {
        StampedIff(steps[i], nows[i]);
        StampedIff(steps[j], nows[j]);
      }
    }
    if InTime(steps) {
      var nows := ReadingsExplain(steps);
    }
  }
}
