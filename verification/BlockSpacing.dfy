/** How far apart the automatic blocks of one address are, for stamps that may arrive late. */
module BlockSpacing {
  import opened Sequences
  import opened ResponsePolicy
  import opened ResponseServer
  import opened ResponseRuns

  // ---------- where a block row comes from, and where it goes ----------

  /** The expiry of the row a block at step `m` writes. */
  function Due(cfg: Config, steps: seq<Step>, m: nat): int
    requires m < |steps|
  { steps[m].at + cfg.blockDuration }

  /** A sweep between the steps `m` and `n` finds a row of that expiry overdue. */
  ghost predicate SweptBetween(steps: seq<Step>, m: nat, n: nat, due: int)
    requires n <= |steps|
  {
    exists x :: m < x < n && steps[x].Expire? && 0 < due < steps[x].at
  }

  /** After a block of `ip` at step `a`, some block `m` since then wrote the present row, or a sweep took it. */
  lemma {:induction false} BlockLasts(cfg: Config, start: Tables, steps: seq<Step>, a: nat, n: nat, ip: string)
    returns (m: nat)
    requires a < n <= |steps| && BlocksAt(cfg, start, steps, a, ip)
    ensures a <= m < n && BlocksAt(cfg, start, steps, m, ip)
    ensures var blocked := TablesAfter(cfg, start, steps, n).blocked;
            if ip in blocked then blocked[ip].expiresAt == Some(Due(cfg, steps, m))
            else SweptBetween(steps, m, n, Due(cfg, steps, m))
  {
    hide LoadContext, TakenFor, KeptEvents;
    if n == a + 1 {
      m := a;
    } else if BlocksAt(cfg, start, steps, n - 1, ip) {
      m := n - 1;
    } else {
      m := BlockLasts(cfg, start, steps, a, n - 1, ip);
      var before := TablesAfter(cfg, start, steps, n - 1);
      if ip in before.blocked && ip !in After(cfg, before, steps[n - 1]).blocked {
        assert steps[n - 1].Expire? && 0 < Due(cfg, steps, m) < steps[n - 1].at;
      } else if ip !in before.blocked {
        assert SweptBetween(steps, m, n, Due(cfg, steps, m));
      }
    }
  }

  /** A renewed block follows the one before it by the duration, or a sweep past its expiry. */
  lemma RenewalNeedsExpiry(cfg: Config, start: Tables, steps: seq<Step>, a: nat, j: nat, ip: string)
    returns (m: nat)
    requires a < j < |steps| && BlocksAt(cfg, start, steps, a, ip) && BlocksAt(cfg, start, steps, j, ip)
    ensures a <= m < j && BlocksAt(cfg, start, steps, m, ip)
    ensures steps[j].at >= Due(cfg, steps, m) || SweptBetween(steps, m, j, Due(cfg, steps, m))
  {
    m := BlockLasts(cfg, start, steps, a, j, ip);
    hide CountSince, LatestSince, TablesAfter;
  }

  // ---------- exactly when blocks are spaced ----------

  datatype Instant = Stamp(at: int) | Sweep(at: int) | Cleanup(at: int)

  function InstantOf(step: Step): Instant {
    match step
    case LogEvent(_, at, _, _) => Stamp(at)
    case Expire(at) => Sweep(at)
    case Retain(at) => Cleanup(at)
  }

  ghost predicate HasInstants(steps: seq<Step>, instants: seq<Instant>) {
    |steps| == |instants| && forall k :: 0 <= k < |steps| ==> InstantOf(steps[k]) == instants[k]
  }

  /**
   * What lets an event stamped `at` block again although a block was to last until `due`: a sweep past
   * `due`, or a renewal that ends no later than `at`, which takes a negative duration.
   */
  predicate LetsThrough(due: int, duration: int, x: Instant, at: int) {
    match x
    case Sweep(now) => 0 < due < now
    case Stamp(renewed) => due <= renewed && renewed + duration <= at
    case Cleanup(_) => false
  }

  /** No stamp falls short of a block's end behind something that lets it through. */
  ghost predicate NoReturn(instants: seq<Instant>, duration: int) {
    forall a, x, j :: 0 <= a < x < j < |instants| && instants[a].Stamp? && instants[j].Stamp?
                      && LetsThrough(instants[a].at + duration, duration, instants[x], instants[j].at)
                      ==> instants[j].at >= instants[a].at + duration
  }

  /** In every run with these instants, two blocks of an address are at least the block duration apart. */
  ghost predicate BlocksSpaced(cfg: Config, instants: seq<Instant>) {
    forall start: Tables, steps: seq<Step>, i, j, ip ::
      HasInstants(steps, instants) && 0 <= i < j < |steps|
      && BlocksAt(cfg, start, steps, i, ip) && BlocksAt(cfg, start, steps, j, ip)
      ==> steps[j].at >= steps[i].at + cfg.blockDuration
  }

  lemma {:induction false} NoReturnSpaces(cfg: Config, start: Tables, steps: seq<Step>, instants: seq<Instant>,
                                          a: nat, j: nat, ip: string)
    requires HasInstants(steps, instants) && NoReturn(instants, cfg.blockDuration) && a < j < |steps|
    requires BlocksAt(cfg, start, steps, a, ip) && BlocksAt(cfg, start, steps, j, ip)
    ensures steps[j].at >= steps[a].at + cfg.blockDuration
    decreases j
  {
    hide OutcomeFor, TablesAfter;
    var m := RenewalNeedsExpiry(cfg, start, steps, a, j, ip);
    assert instants[a] == Stamp(steps[a].at) && instants[m] == Stamp(steps[m].at) && instants[j] == Stamp(steps[j].at);
    if SweptBetween(steps, m, j, Due(cfg, steps, m)) {
      var x :| m < x < j && steps[x].Expire? && 0 < Due(cfg, steps, m) < steps[x].at;
      assert InstantOf(steps[x]) == instants[x];
      assert LetsThrough(Due(cfg, steps, m), cfg.blockDuration, instants[x], instants[j].at);
    }
    if m > a {
      NoReturnSpaces(cfg, start, steps, instants, a, m, ip);
      assert LetsThrough(Due(cfg, steps, a), cfg.blockDuration, instants[m], instants[j].at);
    }
  }

  // ---------- and not otherwise ----------

  const ATTACKER := "10.0.0.1"

  /** Critical events of one address at the steps `a`, `x` and `j`; at all others an event that is only logged. */
  function Returning(instants: seq<Instant>, a: nat, x: nat, j: nat): seq<Step> {
    seq(|instants|, k requires 0 <= k < |instants| =>
      match instants[k]
      case Stamp(at) => if k in {a, x, j} then LogEvent(Attack(k == a, k == j), at, AutoDefend, true)
                        else LogEvent(Event("", Unknown, "", ""), at, Observe, true)
      case Sweep(at) => Expire(at)
      case Cleanup(at) => Retain(at))
  }

  function Attack(first: bool, last: bool): Event {
    Event("sqli", Critical, ATTACKER, if first then "first" else if last then "last" else "between")
  }

  lemma AttackBlocks(cfg: Config, t: Tables, first: bool, last: bool, at: int)
    requires cfg.autoBlock
    requires forall r :: r in t.events && r.sourceIp == ATTACKER ==> r.description != Attack(first, last).description
    requires ATTACKER in t.blocked ==> t.blocked[ATTACKER].expiresAt.Some? && t.blocked[ATTACKER].expiresAt.value <= at
    ensures OutcomeFor(cfg, t, Attack(first, last), at, AutoDefend, true) == RecordedAs(AutoBlock)
  {
    hide CountSince;
  }

  /** The attacker's rows carry the descriptions used so far. */
  ghost predicate OnlyFrom(events: seq<Recorded>, descriptions: set<string>) {
    forall r :: r in events && r.sourceIp == ATTACKER ==> r.description in descriptions
  }

  lemma OnlyFromKept(events: seq<Recorded>, descriptions: set<string>, cutoff: int)
    requires OnlyFrom(events, descriptions)
    ensures OnlyFrom(KeptEvents(events, cutoff), descriptions)
  {
    KeptRowsWereThere(events, cutoff);
  }

  /** Before the first attack the address is free. */
  lemma {:induction false} FreeBefore(cfg: Config, instants: seq<Instant>, a: nat, x: nat, j: nat, n: nat)
    requires a < x < j < |instants| && n <= a
    ensures var t := TablesAfter(cfg, NO_TABLES, Returning(instants, a, x, j), n);
            OnlyFrom(t.events, {}) && ATTACKER !in t.blocked
  {
    if n > 0 {
      FreeBefore(cfg, instants, a, x, j, n - 1);
      BystanderStep(cfg, instants, a, x, j, n - 1, {});
    }
  }

  /** A step other than the three adds no row of the attacker, and can only delete its block. */
  lemma BystanderStep(cfg: Config, instants: seq<Instant>, a: nat, x: nat, j: nat, k: nat, descriptions: set<string>)
    requires k < |instants| && (k !in {a, x, j} || !instants[k].Stamp?)
    requires OnlyFrom(TablesAfter(cfg, NO_TABLES, Returning(instants, a, x, j), k).events, descriptions)
    ensures var run := Returning(instants, a, x, j);
            var before, after := TablesAfter(cfg, NO_TABLES, run, k), TablesAfter(cfg, NO_TABLES, run, k + 1);
            && OnlyFrom(after.events, descriptions)
            && (ATTACKER in after.blocked ==>
                  ATTACKER in before.blocked && after.blocked[ATTACKER] == before.blocked[ATTACKER])
            && (ATTACKER in after.blocked && instants[k].Sweep? && before.blocked[ATTACKER].expiresAt.Some?
                ==> !(0 < before.blocked[ATTACKER].expiresAt.value < instants[k].at))
  {
    hide CountSince, LatestSince;
    var before := TablesAfter(cfg, NO_TABLES, Returning(instants, a, x, j), k);
    if instants[k].Cleanup? {
      OnlyFromKept(before.events, descriptions, instants[k].at - EVENT_RETENTION_SECONDS);
    }
  }

  /** An attack whose description is new blocks, unless an earlier block still lasts. */
  lemma AttackStep(cfg: Config, instants: seq<Instant>, a: nat, x: nat, j: nat, k: nat, descriptions: set<string>)
    requires cfg.autoBlock && a < x < j < |instants| && k in {a, x, j} && instants[k].Stamp?
    requires Attack(k == a, k == j).description !in descriptions
    requires var t := TablesAfter(cfg, NO_TABLES, Returning(instants, a, x, j), k);
             && OnlyFrom(t.events, descriptions)
             && (ATTACKER in t.blocked ==>
                   t.blocked[ATTACKER].expiresAt.Some? && t.blocked[ATTACKER].expiresAt.value <= instants[k].at)
    ensures var run := Returning(instants, a, x, j);
            var after := TablesAfter(cfg, NO_TABLES, run, k + 1);
            && BlocksAt(cfg, NO_TABLES, run, k, ATTACKER)
            && OnlyFrom(after.events, descriptions + {Attack(k == a, k == j).description})
            && ATTACKER in after.blocked
            && after.blocked[ATTACKER].expiresAt == Some(instants[k].at + cfg.blockDuration)
  {
    hide OutcomeFor, AfterExpiry, AfterRetention, Attack;
    var run := Returning(instants, a, x, j);
    var before := TablesAfter(cfg, NO_TABLES, run, k);
    AttackBlocks(cfg, before, k == a, k == j, instants[k].at);
    assert run[k] == LogEvent(Attack(k == a, k == j), instants[k].at, AutoDefend, true);
    assert TablesAfter(cfg, NO_TABLES, run, k + 1) == After(cfg, before, run[k]);
    AttackRow(k == a, k == j);
    hide TablesAfter, Returning;
  }

  lemma AttackRow(first: bool, last: bool)
    ensures Attack(first, last).sourceIp == ATTACKER
  {
  }

  /** From the step after an attack to the next, its block is there or was deleted. */
  lemma {:induction false} BlockedAfter(cfg: Config, instants: seq<Instant>, a: nat, x: nat, j: nat, from: nat, n: nat,
                                        descriptions: set<string>, due: int)
    requires a < x < j < |instants| && from <= n <= |instants|
    requires forall k :: from <= k < n ==> k !in {a, x, j} || !instants[k].Stamp?
    requires var t := TablesAfter(cfg, NO_TABLES, Returning(instants, a, x, j), from);
             OnlyFrom(t.events, descriptions) && (ATTACKER in t.blocked ==> t.blocked[ATTACKER].expiresAt == Some(due))
    ensures var t := TablesAfter(cfg, NO_TABLES, Returning(instants, a, x, j), n);
            && OnlyFrom(t.events, descriptions)
            && (ATTACKER in t.blocked ==> t.blocked[ATTACKER].expiresAt == Some(due))
            && (forall k :: from <= k < n && instants[k].Sweep? && 0 < due < instants[k].at ==> ATTACKER !in t.blocked)
  {
    hide TablesAfter;
    if from < n {
      BlockedAfter(cfg, instants, a, x, j, from, n - 1, descriptions, due);
      BystanderStep(cfg, instants, a, x, j, n - 1, descriptions);
    }
  }

  /** A stamp that falls short of a block's end behind something that lets it through blocks again. */
  lemma ReturnIsObservable(cfg: Config, instants: seq<Instant>, a: nat, x: nat, j: nat)
    requires cfg.autoBlock && a < x < j < |instants| && instants[a].Stamp? && instants[j].Stamp?
    requires LetsThrough(instants[a].at + cfg.blockDuration, cfg.blockDuration, instants[x], instants[j].at)
    ensures var run := Returning(instants, a, x, j);
            && HasInstants(run, instants)
            && BlocksAt(cfg, NO_TABLES, run, a, ATTACKER) && BlocksAt(cfg, NO_TABLES, run, j, ATTACKER)
  {
    hide TablesAfter, BlocksAt;
    var due := instants[a].at + cfg.blockDuration;
    FreeBefore(cfg, instants, a, x, j, a);
    AttackStep(cfg, instants, a, x, j, a, {});
    BlockedAfter(cfg, instants, a, x, j, a + 1, x, {"first"}, due);
    if instants[x].Stamp? {
      AttackStep(cfg, instants, a, x, j, x, {"first"});
      BlockedAfter(cfg, instants, a, x, j, x + 1, j, {"first", "between"}, instants[x].at + cfg.blockDuration);
      AttackStep(cfg, instants, a, x, j, j, {"first", "between"});
    } else {
      BlockedAfter(cfg, instants, a, x, j, a + 1, j, {"first"}, due);
      AttackStep(cfg, instants, a, x, j, j, {"first"});
    }
  }

  /** Blocks are spaced in all runs with these instants if and only if no stamp falls short behind a sweep. */
  lemma BlocksSpacedIff(cfg: Config, instants: seq<Instant>)
    requires cfg.autoBlock
    ensures BlocksSpaced(cfg, instants) <==> NoReturn(instants, cfg.blockDuration)
  {
    hide TablesAfter, BlocksAt;
    if NoReturn(instants, cfg.blockDuration) {
      forall start: Tables, steps: seq<Step>, i, j, ip
        | HasInstants(steps, instants) && 0 <= i < j < |steps|
          && BlocksAt(cfg, start, steps, i, ip) && BlocksAt(cfg, start, steps, j, ip)
        ensures steps[j].at >= steps[i].at + cfg.blockDuration
      {
        NoReturnSpaces(cfg, start, steps, instants, i, j, ip);
      }
    }
    if BlocksSpaced(cfg, instants) {
      forall a, x, j
        | 0 <= a < x < j < |instants| && instants[a].Stamp? && instants[j].Stamp?
          && LetsThrough(instants[a].at + cfg.blockDuration, cfg.blockDuration, instants[x], instants[j].at)
        ensures instants[j].at >= instants[a].at + cfg.blockDuration
      {
        ReturnIsObservable(cfg, instants, a, x, j);
        var run := Returning(instants, a, x, j);
        assert InstantOf(run[a]) == instants[a] && InstantOf(run[j]) == instants[j];
        assert run[j].at >= run[a].at + cfg.blockDuration;
      }
    }
  }

  // ---------- under one clock, and under the server's two ----------

  function Instants(steps: seq<Step>): (instants: seq<Instant>)
    ensures HasInstants(steps, instants)
  {
    seq(|steps|, k requires 0 <= k < |steps| => InstantOf(steps[k]))
  }

  /** Under one clock two automatic blocks of one address are at least `blockDuration` apart. */
  lemma AutoBlocksAreSpaced(cfg: Config, start: Tables, steps: seq<Step>, i: nat, j: nat, ip: string)
    requires Clocked(steps) && i < j < |steps|
    requires BlocksAt(cfg, start, steps, i, ip) && BlocksAt(cfg, start, steps, j, ip)
    ensures steps[j].at >= steps[i].at + cfg.blockDuration
  {
    hide BlocksAt;
    var instants := Instants(steps);
    forall a, x, k
      | 0 <= a < x < k < |instants| && instants[a].Stamp? && instants[k].Stamp?
        && LetsThrough(instants[a].at + cfg.blockDuration, cfg.blockDuration, instants[x], instants[k].at)
      ensures instants[k].at >= instants[a].at + cfg.blockDuration
    {
      assert steps[a].at <= steps[x].at <= steps[k].at;
      assert InstantOf(steps[a]) == instants[a] && InstantOf(steps[x]) == instants[x];
      assert InstantOf(steps[k]) == instants[k];
    }
    NoReturnSpaces(cfg, start, steps, instants, i, j, ip);
  }

  /** Under one clock a block's row outlives `blockDuration`, renewed or not, or is deleted only past it. */
  lemma BlockOutlastsDuration(cfg: Config, start: Tables, steps: seq<Step>, i: nat, n: nat, ip: string)
    requires Clocked(steps) && i < n <= |steps| && BlocksAt(cfg, start, steps, i, ip)
    ensures var blocked := TablesAfter(cfg, start, steps, n).blocked;
            if ip in blocked then blocked[ip].expiresAt.Some? && blocked[ip].expiresAt.value >= Due(cfg, steps, i)
            else steps[n - 1].at > Due(cfg, steps, i)
  {
    hide TablesAfter, BlocksAt;
    var m := BlockLasts(cfg, start, steps, i, n, ip);
    assert steps[i].at <= steps[m].at;
    if SweptBetween(steps, m, n, Due(cfg, steps, m)) {
      var x :| m < x < n && steps[x].Expire? && 0 < Due(cfg, steps, m) < steps[x].at;
      assert steps[x].at <= steps[n - 1].at;
    }
  }

  /** How much of the block duration a stamp of the greatest accepted age can undercut. */
  function Undercut(): int { MAX_STAMP_AGE - 1 }

  /** Under the server's clocks a message a day old can undercut the block duration by a day less a second. */
  lemma {:induction false} LateBlocksAreSpaced(cfg: Config, start: Tables, steps: seq<Step>, nows: seq<int>,
                                               a: nat, j: nat, ip: string)
    requires ServerClock(steps, nows) && a < j < |steps| && cfg.blockDuration >= Undercut()
    requires BlocksAt(cfg, start, steps, a, ip) && BlocksAt(cfg, start, steps, j, ip)
    ensures steps[j].at >= steps[a].at + cfg.blockDuration - Undercut()
    decreases j
  {
    hide OutcomeFor, TablesAfter;
    var m := RenewalNeedsExpiry(cfg, start, steps, a, j, ip);
    if SweptBetween(steps, m, j, Due(cfg, steps, m)) {
      var x :| m < x < j && steps[x].Expire? && 0 < Due(cfg, steps, m) < steps[x].at;
      assert Stamped(steps[x], nows[x]) && Stamped(steps[j], nows[j]) && nows[x] <= nows[j];
    }
    if m > a {
      LateBlocksAreSpaced(cfg, start, steps, nows, a, m, ip);
    }
  }

  /** No more than that can be promised: a run under the server's clocks with blocks that close together. */
  lemma LateBlocksAttained(cfg: Config) returns (steps: seq<Step>)
    requires cfg.autoBlock && cfg.blockDuration >= Undercut()
    ensures exists nows :: ServerClock(steps, nows)
    ensures |steps| == 3 && steps[2].at == steps[0].at + cfg.blockDuration - Undercut()
    ensures BlocksAt(cfg, NO_TABLES, steps, 0, ATTACKER) && BlocksAt(cfg, NO_TABLES, steps, 2, ATTACKER)
  {
    hide BlocksAt;
    var instants := [Stamp(1), Sweep(cfg.blockDuration + 2), Stamp(1 + cfg.blockDuration - Undercut())];
    ReturnIsObservable(cfg, instants, 0, 1, 2);
    steps := Returning(instants, 0, 1, 2);
    assert InstantOf(steps[0]) == instants[0] && InstantOf(steps[1]) == instants[1];
    assert InstantOf(steps[2]) == instants[2];
    ServerClockIff(steps);
  }
}
