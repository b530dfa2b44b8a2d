/**
 * The server's response path: context from the event and block tables, decision,
 * suppression, recording, blocking; and the expiry and retention tasks on the tables.
 */
module ResponseServer {
  import opened Sequences
  import opened ResponsePolicy

  datatype Config = Config(
    autoBlock: bool, eventDedupWindow: int, responseCooldown: int,
    mediumEscalationWindow: int, mediumEscalationThreshold: int, blockDuration: int)

  datatype Taken = Logged | ReviewRequired | AutoBlock

  /** A row of `security_events`; its position in the table is the order of row ids. */
  datatype Recorded = Recorded(timestamp: int, eventType: string, severity: Severity, sourceIp: string,
                               description: string, action: Taken)

  /** A row of `blocked_ips`, keyed by address; no expiry means a permanent block. */
  datatype BlockRow = BlockRow(reason: string, blockedAt: int, expiresAt: Option<int>)

  datatype Tables = Tables(events: seq<Recorded>, blocked: map<string, BlockRow>)

  // ---------- stamps ----------

  const MAX_STAMP_AGE := 86400
  const MAX_STAMP_LEAD := 300

  /** An agent's own stamp is kept if it is at most a day old and five minutes ahead of the server's clock. */
  function ValidateTimestamp(sent: Option<int>, now: int): (stamp: int)
    ensures now - 86400 <= stamp <= now + 300
    ensures sent.Some? && now - 86400 <= sent.value <= now + 300 ==> stamp == sent.value
    ensures stamp != now ==> sent == Some(stamp)
  {
    match sent
    case None => now
    case Some(ts) => if ts > now + MAX_STAMP_LEAD || ts < now - MAX_STAMP_AGE then now else ts
  }

  // ---------- queries ----------

  predicate SameSource(row: Recorded, eventType: string, ip: string) {
    row.eventType == eventType && row.sourceIp == ip
  }

  function CountSince(events: seq<Recorded>, eventType: string, ip: string, since: int): nat {
    if events == [] then 0
    else
      var last := events[|events| - 1];
      CountSince(events[..|events| - 1], eventType, ip, since)
      + if SameSource(last, eventType, ip) && last.timestamp >= since then 1 else 0
  }

  /** The newest matching row not older than `since`; the larger row id wins a tie. */
  function LatestSince(events: seq<Recorded>, eventType: string, ip: string, since: int): (row: Option<Recorded>)
    ensures row.Some? ==> row.value in events && SameSource(row.value, eventType, ip) && row.value.timestamp >= since
    ensures forall r :: r in events && SameSource(r, eventType, ip) && r.timestamp >= since
              ==> row.Some? && r.timestamp <= row.value.timestamp
  {
    if events == [] then None
    else
      var n := |events| - 1;
      var last, best := events[n], LatestSince(events[..n], eventType, ip, since);
      assert events == events[..n] + [last];
      if SameSource(last, eventType, ip) && last.timestamp >= since
         && (best.None? || last.timestamp >= best.value.timestamp)
      then Some(last) else best
  }

  // ---------- context ----------

  datatype Context = Context(recentEvents: int, cooldownActive: bool, currentlyBlocked: bool,
                             duplicate: Option<Recorded>)

  /** A dedup window of zero falls back to five minutes. */
  function DedupWindow(cfg: Config): int { if cfg.eventDedupWindow == 0 then 300 else cfg.eventDedupWindow }

  predicate CoolingDown(cfg: Config, row: BlockRow, ts: int) {
    match row.expiresAt
    case None => row.blockedAt >= ts - cfg.responseCooldown
    case Some(expiry) => expiry > ts
  }

  function LoadContext(cfg: Config, t: Tables, e: Event, ts: int): Context {
    var ip := e.sourceIp;
    if ip == "" then Context(1, false, false, None)
    else
      Context(
        CountSince(t.events, e.eventType, ip, ts - cfg.mediumEscalationWindow) + 1,
        ip in t.blocked && CoolingDown(cfg, t.blocked[ip], ts),
        ip in t.blocked,
        LatestSince(t.events, e.eventType, ip, ts - DedupWindow(cfg)))
  }

  predicate SuppressFollowup(e: Event, context: Context) {
    context.currentlyBlocked && e.eventType == "port_scan"
  }

  predicate SuppressDuplicate(e: Event, taken: Taken, context: Context) {
    context.duplicate.Some?
    && context.duplicate.value.action == taken
    && context.duplicate.value.description == e.description
  }

  // ---------- one log event, on values ----------

  datatype Outcome = SuppressedFollowup | SuppressedDuplicate | RecordedAs(taken: Taken)

  /** A standby node may analyse, but a block becomes a review there. */
  function TakenFor(cfg: Config, context: Context, e: Event, mode: Mode, active: bool): Taken {
    var action := DecideResponse(e, mode, cfg.autoBlock, context.recentEvents, cfg.mediumEscalationThreshold,
                                 context.cooldownActive).action;
    match action
    case Log => Logged
    case Review => ReviewRequired
    case Block => if active then AutoBlock else ReviewRequired
  }

  function OutcomeFor(cfg: Config, t: Tables, e: Event, ts: int, mode: Mode, active: bool): Outcome {
    var context := LoadContext(cfg, t, e, ts);
    var taken := TakenFor(cfg, context, e, mode, active);
    if SuppressFollowup(e, context) then SuppressedFollowup
    else if SuppressDuplicate(e, taken, context) then SuppressedDuplicate
    else RecordedAs(taken)
  }

  /** A scan from an address with a block row is dropped, whatever else holds; nothing else is so dropped. */
  lemma FollowupIff(cfg: Config, t: Tables, e: Event, ts: int, mode: Mode, active: bool)
    ensures OutcomeFor(cfg, t, e, ts, mode, active) == SuppressedFollowup
       <==> e.sourceIp != "" && e.sourceIp in t.blocked && e.eventType == "port_scan"
  {
    hide CountSince, LatestSince;
  }

  /** Row `i` matches, is in the window, and no other such row is newer, nor as new with a larger row id. */
  ghost predicate IsNewest(events: seq<Recorded>, eventType: string, ip: string, since: int, i: nat)
    requires i < |events|
  {
    && SameSource(events[i], eventType, ip) && events[i].timestamp >= since
    && forall j :: 0 <= j < |events| && SameSource(events[j], eventType, ip) ==>
         events[j].timestamp < events[i].timestamp || (events[j].timestamp == events[i].timestamp && j <= i)
  }

  lemma {:induction false} LatestIsNewest(events: seq<Recorded>, eventType: string, ip: string, since: int)
    returns (i: nat)
    requires LatestSince(events, eventType, ip, since).Some?
    ensures i < |events| && IsNewest(events, eventType, ip, since, i)
    ensures LatestSince(events, eventType, ip, since) == Some(events[i])
  {
    var n := |events| - 1;
    var before, last := events[..n], events[n];
    var best := LatestSince(before, eventType, ip, since);
    if SameSource(last, eventType, ip) && last.timestamp >= since
       && (best.None? || last.timestamp >= best.value.timestamp)
    {
      i := n;
      forall j | 0 <= j < n && SameSource(events[j], eventType, ip) ensures events[j].timestamp <= last.timestamp {
        assert before[j] in before;
      }
    } else {
      i := LatestIsNewest(before, eventType, ip, since);
      forall j | 0 <= j < n && SameSource(events[j], eventType, ip)
        ensures events[j].timestamp < events[i].timestamp
                || (events[j].timestamp == events[i].timestamp && j <= i)
      {
        assert before[j] == events[j];
      }
    }
  }

  lemma NewestIsLatest(events: seq<Recorded>, eventType: string, ip: string, since: int, i: nat)
    requires i < |events| && IsNewest(events, eventType, ip, since, i)
    ensures LatestSince(events, eventType, ip, since) == Some(events[i])
  {
    assert events[i] in events;
    var k := LatestIsNewest(events, eventType, ip, since);
  }

  /** Otherwise an event is dropped exactly when the newest row of its source in the window says the same. */
  lemma DuplicateIff(cfg: Config, t: Tables, e: Event, ts: int, mode: Mode, active: bool)
    ensures var taken := TakenFor(cfg, LoadContext(cfg, t, e, ts), e, mode, active);
            OutcomeFor(cfg, t, e, ts, mode, active) == SuppressedDuplicate
            <==> && e.sourceIp != "" && !(e.sourceIp in t.blocked && e.eventType == "port_scan")
                 && exists i :: && 0 <= i < |t.events|
                                && IsNewest(t.events, e.eventType, e.sourceIp, ts - DedupWindow(cfg), i)
                                && t.events[i].action == taken && t.events[i].description == e.description
  {
    var since := ts - DedupWindow(cfg);
    FollowupIff(cfg, t, e, ts, mode, active);
    hide TakenFor, CountSince, LatestSince, IsNewest;
    if LatestSince(t.events, e.eventType, e.sourceIp, since).Some? {
      var i := LatestIsNewest(t.events, e.eventType, e.sourceIp, since);
    }
    forall i | 0 <= i < |t.events| && IsNewest(t.events, e.eventType, e.sourceIp, since, i)
      ensures LatestSince(t.events, e.eventType, e.sourceIp, since) == Some(t.events[i])
    {
      NewestIsLatest(t.events, e.eventType, e.sourceIp, since, i);
    }
  }

  /** An event without an address is never dropped and never blocked. */
  lemma AnonymousIsRecorded(cfg: Config, t: Tables, e: Event, ts: int, mode: Mode, active: bool)
    requires e.sourceIp == ""
    ensures OutcomeFor(cfg, t, e, ts, mode, active) in {RecordedAs(Logged), RecordedAs(ReviewRequired)}
  {
  }

  /** Nothing is blocked during a cooldown: until a timed block ends, or for the cooldown after a permanent one. */
  lemma CooldownHolds(cfg: Config, t: Tables, e: Event, ts: int, mode: Mode, active: bool)
    requires OutcomeFor(cfg, t, e, ts, mode, active) == RecordedAs(AutoBlock) && e.sourceIp in t.blocked
    ensures match t.blocked[e.sourceIp].expiresAt
            case None => ts > t.blocked[e.sourceIp].blockedAt + cfg.responseCooldown
            case Some(expiry) => ts >= expiry
  {
    hide CountSince, LatestSince;
  }

  function RowFor(e: Event, ts: int, taken: Taken): Recorded {
    Recorded(ts, e.eventType, e.severity, e.sourceIp, e.description, taken)
  }

  function AfterLog(cfg: Config, t: Tables, e: Event, ts: int, mode: Mode, active: bool): Tables {
    match OutcomeFor(cfg, t, e, ts, mode, active)
    case SuppressedFollowup => t
    case SuppressedDuplicate => t
    case RecordedAs(taken) =>
      Tables(
        t.events + [RowFor(e, ts, taken)],
        if taken == AutoBlock
        then t.blocked[e.sourceIp := BlockRow(e.description, ts, Some(ts + cfg.blockDuration))]
        else t.blocked)
  }

  // ---------- expiry, on values ----------

  predicate IsExpired(row: BlockRow, now: int) {
    row.expiresAt.Some? && 0 < row.expiresAt.value < now
  }

  function AfterExpiry(t: Tables, now: int): Tables {
    t.(blocked := map ip | ip in t.blocked && !IsExpired(t.blocked[ip], now) :: t.blocked[ip])
  }

  // ---------- retention, on values ----------

  const EVENT_RETENTION_SECONDS := 90 * 86400

  function KeptEvents(events: seq<Recorded>, cutoff: int): seq<Recorded> {
    if events == [] then []
    else
      var last := events[|events| - 1];
      KeptEvents(events[..|events| - 1], cutoff) + if last.timestamp < cutoff then [] else [last]
  }

  /** The kept events stay in their order. */
  lemma {:induction false} KeptEventsInOrder(events: seq<Recorded>, cutoff: int)
    ensures Subsequence(KeptEvents(events, cutoff), events)
  {
    if events != [] {
      var before, last := events[..|events| - 1], events[|events| - 1];
      KeptEventsInOrder(before, cutoff);
      SubsequenceSnoc(KeptEvents(before, cutoff), before, last);
      hide Subsequence;
      assert events == before + [last];
      assert KeptEvents(before, cutoff) + [] == KeptEvents(before, cutoff);
    }
  }

  /** Exactly the events not older than the cutoff are kept, as often as they were there. */
  lemma {:induction false} KeptEventsExact(events: seq<Recorded>, cutoff: int)
    ensures forall r :: multiset(KeptEvents(events, cutoff))[r]
                     == if r.timestamp < cutoff then 0 else multiset(events)[r]
  {
    if events != [] {
      var before, last := events[..|events| - 1], events[|events| - 1];
      KeptEventsExact(before, cutoff);
      assert events == before + [last];
    }
  }

  /** Retention adds no event. */
  lemma KeptRowsWereThere(events: seq<Recorded>, cutoff: int)
    ensures forall r :: r in KeptEvents(events, cutoff) ==> r in events
  {
    KeptEventsInOrder(events, cutoff);
    SubsequenceBounds(KeptEvents(events, cutoff), events);
    forall r | r in KeptEvents(events, cutoff) ensures r in events {
      assert r in multiset(KeptEvents(events, cutoff));
    }
  }

  function AfterRetention(t: Tables, now: int): Tables {
    t.(events := KeptEvents(t.events, now - EVENT_RETENTION_SECONDS))
  }

  // ---------- the tables, updated in place ----------

  class Server {
    const cfg: Config
    var events: seq<Recorded>
    var blocked: map<string, BlockRow>

    constructor (cfg: Config)
      ensures this.cfg == cfg && Contents() == Tables([], map[])
    {
      this.cfg := cfg;
      events, blocked := [], map[];
    }

    function Contents(): Tables
      reads this
    { Tables(events, blocked) }

    method LoadResponseContext(e: Event, ts: int) returns (context: Context)
      ensures context == LoadContext(cfg, Contents(), e, ts)
    {
      if e.sourceIp == "" {
        return Context(1, false, false, None);
      }
      var cooldownActive, currentlyBlocked := false, false;
      var recentEvents := CountSince(events, e.eventType, e.sourceIp, ts - cfg.mediumEscalationWindow) + 1;
      if e.sourceIp in blocked {
        currentlyBlocked := true;
        var row := blocked[e.sourceIp];
        cooldownActive :=
          (row.expiresAt == None && row.blockedAt >= ts - cfg.responseCooldown)
          || (row.expiresAt.Some? && row.expiresAt.value > ts);
      }
      var dedupWindow := if cfg.eventDedupWindow == 0 then 300 else cfg.eventDedupWindow;
      var duplicate := LatestSince(events, e.eventType, e.sourceIp, ts - dedupWindow);
      return Context(recentEvents, cooldownActive, currentlyBlocked, duplicate);
    }

    method HandleLog(e: Event, ts: int, mode: Mode, active: bool) returns (outcome: Outcome)
      modifies this
      ensures outcome == OutcomeFor(cfg, old(Contents()), e, ts, mode, active)
      ensures Contents() == AfterLog(cfg, old(Contents()), e, ts, mode, active)
      ensures !outcome.RecordedAs? ==> events == old(events)
      ensures outcome.RecordedAs? ==>
                var row := Recorded(ts, e.eventType, e.severity, e.sourceIp, e.description, outcome.taken);
                events == old(events) + [row]
      ensures blocked == if outcome == RecordedAs(AutoBlock)
                         then old(blocked)[e.sourceIp := BlockRow(e.description, ts, Some(ts + cfg.blockDuration))]
                         else old(blocked)
    {
      var context := LoadResponseContext(e, ts);
      var action := DecideResponse(e, mode, cfg.autoBlock, context.recentEvents,
                                   cfg.mediumEscalationThreshold, context.cooldownActive).action;
      if !active && action == Block {
        action := Review;
      }
      var taken := Logged;
      if action == Review {
        taken := ReviewRequired;
      } else if action == Block {
        taken := AutoBlock;
      }
      if SuppressFollowup(e, context) {
        return SuppressedFollowup;
      }
      if SuppressDuplicate(e, taken, context) {
        return SuppressedDuplicate;
      }
      events := events + [RowFor(e, ts, taken)];
      if action == Block {
        blocked := blocked[e.sourceIp := BlockRow(e.description, ts, Some(ts + cfg.blockDuration))];
      }
      return RecordedAs(taken);
    }

    method ExpireBlockedIps(now: int) returns (expired: set<string>)
      modifies this`blocked
      ensures Contents() == AfterExpiry(old(Contents()), now)
      ensures expired == set ip | ip in old(blocked) && IsExpired(old(blocked)[ip], now)
      ensures blocked.Keys == old(blocked).Keys - expired
    {
      expired := set ip | ip in blocked && IsExpired(blocked[ip], now);
      if expired != {} {
        blocked := blocked - expired;
      }
      assert blocked == AfterExpiry(old(Contents()), now).blocked;
    }

    method CleanupOldEvents(now: int) returns (deleted: int)
      modifies this`events
      ensures Contents() == AfterRetention(old(Contents()), now)
      ensures deleted == |old(events)| - |events|
      ensures Subsequence(events, old(events)) && blocked == old(blocked)
      ensures forall r :: multiset(events)[r]
                       == if r.timestamp < now - 90 * 86400 then 0 else multiset(old(events))[r]
    {
      var kept := KeptEvents(events, now - EVENT_RETENTION_SECONDS);
      KeptEventsInOrder(events, now - EVENT_RETENTION_SECONDS);
      KeptEventsExact(events, now - EVENT_RETENTION_SECONDS);
      deleted := |events| - |kept|;
      events := kept;
    }
  }
}
