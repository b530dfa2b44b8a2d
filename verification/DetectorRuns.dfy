/** Whole runs of a sliding-window detector, compared with one that forgets nothing. */
module DetectorRuns {
  import opened Sequences
  import opened Detector

  datatype Observation = Observation(ip: string, hit: Hit)

  datatype Setup = Setup(rule: Rule, threshold: int, window: int)

  ghost predicate Clocked(run: seq<Observation>) {
    forall i, j :: 0 <= i < j < |run| ==> run[i].hit.at <= run[j].hit.at
  }

  /** The dictionary after the first `n` observations. */
  function TableAfter(s: Setup, run: seq<Observation>, n: nat): Attempts
    requires n <= |run|
  {
    if n == 0 then map[]
    else Observed(s.rule, TableAfter(s, run, n - 1), run[n - 1].ip, run[n - 1].hit, s.threshold, s.window)
  }

  predicate AlertsAt(s: Setup, run: seq<Observation>, n: nat)
    requires n < |run|
  {
    Fires(s.rule, TableAfter(s, run, n), run[n].ip, run[n].hit, s.threshold, s.window)
  }

  // ---------- the history-keeping reference ----------

  /** Every hit of `ip` since its last alert, however old. */
  function History(s: Setup, run: seq<Observation>, n: nat, ip: string): seq<Hit>
    requires n <= |run|
    decreases n, 0
  {
    if n == 0 then []
    else if run[n - 1].ip != ip then History(s, run, n - 1, ip)
    else if ReferenceAlertsAt(s, run, n - 1) then []
    else History(s, run, n - 1, ip) + [run[n - 1].hit]
  }

  /** At least `threshold` hits (or ports) since the last alert of this address, each of age at most `window`. */
  predicate ReferenceAlertsAt(s: Setup, run: seq<Observation>, n: nat)
    requires n < |run|
    decreases n, 1
  {
    Measure(s.rule, Fresh(History(s, run, n, run[n].ip) + [run[n].hit], run[n].hit.at, s.window)) >= s.threshold
  }

  // ---------- filtering ----------

  lemma {:induction false} FreshAppend(a: seq<Hit>, b: seq<Hit>, now: int, window: int)
    ensures Fresh(a + b, now, window) == Fresh(a, now, window) + Fresh(b, now, window)
  {
    if a == [] {
      assert a + b == b;
    } else {
      assert (a + b)[1..] == a[1..] + b;
      FreshAppend(a[1..], b, now, window);
    }
  }

  /** Filtering at `now` loses nothing a filter at `later` would keep, if what is stale now is stale then. */
  lemma {:induction false} FreshLater(hits: seq<Hit>, now: int, later: int, window: int)
    requires forall h :: h in hits && now - h.at > window ==> later - h.at > window
    ensures Fresh(Fresh(hits, now, window), later, window) == Fresh(hits, later, window)
  {
    if hits != [] {
      assert hits[0] in hits;
      FreshLater(hits[1..], now, later, window);
    }
  }

  lemma {:induction false} FreshMembers(hits: seq<Hit>, now: int, window: int)
    ensures forall h :: h in Fresh(hits, now, window) ==> h in hits && now - h.at <= window
    ensures |Fresh(hits, now, window)| <= |hits|
  {
    if hits != [] {
      assert hits == [hits[0]] + hits[1..];
      FreshMembers(hits[1..], now, window);
    }
  }

  lemma ObservedMembers(s: Setup, attempts: Attempts, o: Observation, ip: string, hit: Hit)
    requires hit in HitsOf(Observed(s.rule, attempts, o.ip, o.hit, s.threshold, s.window), ip)
    ensures o.hit.at - hit.at <= s.window
    ensures hit in HitsOf(attempts, ip) || (ip == o.ip && hit == o.hit)
  {
    hide Fires;
    FreshMembers(HitsOf(attempts, ip), o.hit.at, s.window);
    FreshMembers(HitsOf(attempts, ip) + [o.hit], o.hit.at, s.window);
  }

  /** A stored hit was seen at some line, and was fresh at every line from there on. */
  lemma {:induction false} StoredHitStayedFresh(s: Setup, run: seq<Observation>, n: nat, ip: string, hit: Hit)
    returns (i: nat)
    requires n <= |run| && hit in HitsOf(TableAfter(s, run, n), ip)
    ensures i < n && run[i].ip == ip && run[i].hit == hit
    ensures forall m :: i <= m < n ==> run[m].hit.at - hit.at <= s.window
  {
    hide Observed;
    assert n > 0;
    var o := run[n - 1];
    ObservedMembers(s, TableAfter(s, run, n - 1), o, ip, hit);
    if ip == o.ip && hit == o.hit {
      i := n - 1;
    } else {
      i := StoredHitStayedFresh(s, run, n - 1, ip, hit);
    }
  }

  // ---------- refinement ----------

  function Readings(run: seq<Observation>): seq<int> {
    seq(|run|, i requires 0 <= i < |run| => run[i].hit.at)
  }

  /** A reading that has once left the window of a later one never comes back into the window of another. */
  ghost predicate NoRevival(ats: seq<int>, window: int) {
    forall i, j, k :: 0 <= i <= j < k < |ats| && ats[j] - ats[i] > window ==> ats[k] - ats[i] > window
  }

  /** Whatever the rule, the threshold and the addresses, the same lines alert with and without pruning. */
  ghost predicate PruningUnobservable(ats: seq<int>, window: int) {
    forall s: Setup, run: seq<Observation>, n ::
      s.window == window && Readings(run) == ats && 0 <= n < |run| ==>
        (AlertsAt(s, run, n) <==> ReferenceAlertsAt(s, run, n))
  }

  lemma ObservedHits(s: Setup, attempts: Attempts, o: Observation, ip: string, later: int)
    requires forall h :: h in HitsOf(attempts, ip) + [o.hit] && o.hit.at - h.at > s.window ==> later - h.at > s.window
    ensures Fresh(HitsOf(Observed(s.rule, attempts, o.ip, o.hit, s.threshold, s.window), ip), later, s.window)
         == if ip != o.ip then Fresh(HitsOf(attempts, ip), later, s.window)
            else if Fires(s.rule, attempts, o.ip, o.hit, s.threshold, s.window) then []
            else Fresh(HitsOf(attempts, ip) + [o.hit], later, s.window)
  {
    assert forall h :: h in HitsOf(attempts, ip) ==> h in HitsOf(attempts, ip) + [o.hit];
    FreshLater(HitsOf(attempts, ip), o.hit.at, later, s.window);
    FreshLater(HitsOf(attempts, ip) + [o.hit], o.hit.at, later, s.window);
  }

  /** What the line `n` filters out of the table is stale for every later line, too. */
  lemma StaleStaysStale(s: Setup, run: seq<Observation>, n: nat, ip: string, k: nat)
    requires n < k < |run| && NoRevival(Readings(run), s.window)
    ensures forall h :: h in HitsOf(TableAfter(s, run, n), ip) + [run[n].hit] && run[n].hit.at - h.at > s.window
              ==> run[k].hit.at - h.at > s.window
  {
    hide TableAfter, NoRevival;
    forall h | h in HitsOf(TableAfter(s, run, n), ip) + [run[n].hit] && run[n].hit.at - h.at > s.window
      ensures run[k].hit.at - h.at > s.window
    {
      var i := n;
      if h != run[n].hit { i := StoredHitStayedFresh(s, run, n, ip, h); }
      NoRevivalAt(run, s.window, i, n, k);
    }
  }

  lemma NoRevivalAt(run: seq<Observation>, window: int, i: nat, j: nat, k: nat)
    requires NoRevival(Readings(run), window) && i <= j < k < |run|
    requires run[j].hit.at - run[i].hit.at > window
    ensures run[k].hit.at - run[i].hit.at > window
  {
    var ats := Readings(run);
    assert ats[j] - ats[i] > window && ats[k] == run[k].hit.at;
  }

  /** The pruned table and the full history agree on every hit that line `k` or a later one can count. */
  lemma {:induction false} TableMatchesHistory(s: Setup, run: seq<Observation>, n: nat, ip: string, k: nat)
    requires n <= k < |run| && NoRevival(Readings(run), s.window)
    ensures Fresh(HitsOf(TableAfter(s, run, n), ip), run[k].hit.at, s.window)
         == Fresh(History(s, run, n, ip), run[k].hit.at, s.window)
    decreases n, 0
  {
    hide Observed, Measure, NoRevival;
    if n > 0 {
      var o, later := run[n - 1], run[k].hit.at;
      TableMatchesHistory(s, run, n - 1, ip, k);
      StaleStaysStale(s, run, n - 1, ip, k);
      ObservedHits(s, TableAfter(s, run, n - 1), o, ip, later);
      if ip == o.ip {
        SameCount(s, run, n - 1);
        FreshAppend(HitsOf(TableAfter(s, run, n - 1), ip), [o.hit], later, s.window);
        FreshAppend(History(s, run, n - 1, ip), [o.hit], later, s.window);
      }
    }
  }

  /** Without revivals, pruning is unobservable: each line counts the same hits, so the same lines alert. */
  lemma {:induction false} SameCount(s: Setup, run: seq<Observation>, n: nat)
    requires n < |run| && NoRevival(Readings(run), s.window)
    ensures Recent(TableAfter(s, run, n), run[n].ip, run[n].hit, s.window)
         == Fresh(History(s, run, n, run[n].ip) + [run[n].hit], run[n].hit.at, s.window)
    ensures AlertsAt(s, run, n) <==> ReferenceAlertsAt(s, run, n)
    decreases n, 1
  {
    var o := run[n];
    TableMatchesHistory(s, run, n, o.ip, n);
    FreshAppend(HitsOf(TableAfter(s, run, n), o.ip), [o.hit], o.hit.at, s.window);
    FreshAppend(History(s, run, n, o.ip), [o.hit], o.hit.at, s.window);
  }

  /** Under a nondecreasing clock the pruning detector alerts on the reference's lines. */
  lemma DetectorRefinesHistory(s: Setup, run: seq<Observation>, n: nat)
    requires Clocked(run) && n < |run|
    ensures AlertsAt(s, run, n) <==> ReferenceAlertsAt(s, run, n)
  {
    SameCount(s, run, n);
  }

  // ---------- and only without revivals ----------

  /** Hits `i` and `k` from one address, everything else from another. */
  function RevivalRun(ats: seq<int>, i: nat, k: nat): seq<Observation> {
    seq(|ats|, m requires 0 <= m < |ats| => Observation(if m == i || m == k then "a" else "b", Hit(ats[m], 0)))
  }

  /** The least threshold that the two hits reach together and neither reaches alone. */
  function RevivalSetup(window: int): Setup { Setup(CountHits, if window >= 0 then 2 else 1, window) }

  lemma {:induction false} RevivalHistory(ats: seq<int>, window: int, i: nat, k: nat, n: nat)
    requires i < k < |ats| && n <= k
    ensures History(RevivalSetup(window), RevivalRun(ats, i, k), n, "a") == if n <= i then [] else [Hit(ats[i], 0)]
  {
    if n > 0 {
      RevivalHistory(ats, window, i, k, n - 1);
      FreshOne(Hit(ats[n - 1], 0), ats[n - 1], window);
      hide Fresh, Ports;
      assert [] + [Hit(ats[n - 1], 0)] == [Hit(ats[n - 1], 0)];
      if n - 1 == i {
        assert !ReferenceAlertsAt(RevivalSetup(window), RevivalRun(ats, i, k), i);
      }
    }
  }

  /** The hit revived at `k` counts for the reference only: it was pruned at `j`. */
  lemma RevivalIsObservable(ats: seq<int>, window: int, i: nat, j: nat, k: nat)
    requires i <= j < k < |ats| && ats[j] - ats[i] > window && ats[k] - ats[i] <= window
    ensures ReferenceAlertsAt(RevivalSetup(window), RevivalRun(ats, i, k), k)
    ensures !AlertsAt(RevivalSetup(window), RevivalRun(ats, i, k), k)
  {
    var s, run := RevivalSetup(window), RevivalRun(ats, i, k);
    var first, last := Hit(ats[i], 0), Hit(ats[k], 0);
    RevivalHistory(ats, window, i, k, k);
    FreshPair(first, last, ats[k], window);
    assert [first] + [last] == [first, last];
    RevivalTable(ats, window, i, j, k);
    FreshOne(last, ats[k], window);
    assert [] + [last] == [last];
    hide TableAfter, History, Fresh;
  }

  lemma RevivalTable(ats: seq<int>, window: int, i: nat, j: nat, k: nat)
    requires i <= j < k < |ats| && ats[j] - ats[i] > window
    ensures HitsOf(TableAfter(RevivalSetup(window), RevivalRun(ats, i, k), k), "a") == []
  {
    hide TableAfter;
    var s, run := RevivalSetup(window), RevivalRun(ats, i, k);
    var stored := HitsOf(TableAfter(s, run, k), "a");
    assert run[j].hit.at == ats[j];
    if stored != [] {
      assert stored[0] in stored;
      var m := StoredHitStayedFresh(s, run, k, "a", stored[0]);
    }
  }

  /** The exact condition on a clock's readings for pruning to be unobservable. */
  lemma PruningUnobservableIff(ats: seq<int>, window: int)
    ensures PruningUnobservable(ats, window) <==> NoRevival(ats, window)
  {
    if NoRevival(ats, window) {
      forall s: Setup, run: seq<Observation>, n | s.window == window && Readings(run) == ats && 0 <= n < |run|
        ensures AlertsAt(s, run, n) <==> ReferenceAlertsAt(s, run, n)
      {
        SameCount(s, run, n);
      }
    } else {
      var i, j, k :| 0 <= i <= j < k < |ats| && ats[j] - ats[i] > window && ats[k] - ats[i] <= window;
      RevivalIsObservable(ats, window, i, j, k);
      assert Readings(RevivalRun(ats, i, k)) == ats;
    }
  }

  lemma FreshOne(hit: Hit, now: int, window: int)
    ensures Fresh([hit], now, window) == if now - hit.at <= window then [hit] else []
  {
    assert [hit][1..] == [];
  }

  lemma FreshPair(a: Hit, b: Hit, now: int, window: int)
    ensures Fresh([a, b], now, window)
         == (if now - a.at <= window then [a] else []) + (if now - b.at <= window then [b] else [])
  {
    FreshAppend([a], [b], now, window);
    assert [a] + [b] == [a, b];
    FreshOne(a, now, window);
    FreshOne(b, now, window);
  }

  // ---------- exactly when a line alerts ----------

  /** Line `i` still counts at line `n`: same address, in the window, and no alert of the address from `i` on. */
  ghost predicate Counts(s: Setup, run: seq<Observation>, i: nat, n: nat)
    requires i <= n < |run|
  {
    && run[i].ip == run[n].ip && run[n].hit.at - run[i].hit.at <= s.window
    && forall m :: i <= m < n && run[m].ip == run[n].ip ==> !AlertsAt(s, run, m)
  }

  /** Lines that justify an alert at `n`; a port scan wants them on pairwise different ports. */
  ghost predicate Justify(s: Setup, run: seq<Observation>, lines: set<nat>, n: nat)
    requires n < |run|
  {
    && (forall i :: i in lines ==> i <= n && Counts(s, run, i, n))
    && (s.rule == CountPorts ==> OnDistinctPorts(run, lines))
  }

  ghost function Counting(s: Setup, run: seq<Observation>, n: nat): set<nat>
    requires n < |run|
  {
    set i: nat | i <= n && Counts(s, run, i, n)
  }

  /** Line `i` is in the history of `ip` after `n` lines: no alert of the address since. */
  ghost predicate Pending(s: Setup, run: seq<Observation>, i: nat, n: nat, ip: string)
    requires i < n <= |run|
  {
    run[i].ip == ip && forall m :: i <= m < n && run[m].ip == ip ==> !AlertsAt(s, run, m)
  }

  ghost function FreshPending(s: Setup, run: seq<Observation>, n: nat, ip: string, now: int): (lines: set<nat>)
    requires n <= |run|
    ensures forall i :: i in lines ==> i < n
  {
    set i: nat | i < n && Pending(s, run, i, n, ip) && now - run[i].hit.at <= s.window
  }

  ghost function PortsOf(run: seq<Observation>, lines: set<nat>): set<int>
    requires forall i :: i in lines ==> i < |run|
  {
    set i | i in lines :: run[i].hit.port
  }

  /** The fresh part of the history after one more line. */
  lemma FreshHistorySteps(s: Setup, run: seq<Observation>, n: nat, ip: string, now: int)
    requires 0 < n <= |run| && NoRevival(Readings(run), s.window)
    ensures var before, o := Fresh(History(s, run, n - 1, ip), now, s.window), run[n - 1];
            Fresh(History(s, run, n, ip), now, s.window)
              == if o.ip != ip then before
                 else if AlertsAt(s, run, n - 1) then []
                 else if now - o.hit.at <= s.window then before + [o.hit] else before
  {
    var o := run[n - 1];
    if o.ip == ip {
      SameCount(s, run, n - 1);
      FreshAppend(History(s, run, n - 1, ip), [o.hit], now, s.window);
      FreshOne(o.hit, now, s.window);
      assert Fresh(History(s, run, n - 1, ip), now, s.window) + [] == Fresh(History(s, run, n - 1, ip), now, s.window);
    }
    hide AlertsAt, ReferenceAlertsAt, Measure, NoRevival;
  }

  /** The fresh part of the history, as lines of the run. */
  lemma {:induction false} HistoryIsPending(s: Setup, run: seq<Observation>, n: nat, ip: string, now: int)
    requires n <= |run| && NoRevival(Readings(run), s.window)
    ensures var hits, lines := Fresh(History(s, run, n, ip), now, s.window), FreshPending(s, run, n, ip, now);
            |hits| == |lines| && Ports(hits) == PortsOf(run, lines)
  {
    hide AlertsAt, Pending, FreshPending, NoRevival, Ports, PortsOf, Fresh, History;
    NoPorts(run);
    if n == 0 {
      NothingPending(s, run, ip, now);
    } else {
      HistoryIsPending(s, run, n - 1, ip, now);
      FreshHistorySteps(s, run, n, ip, now);
      PendingSteps(s, run, n, ip, now);
      PortsAppend(Fresh(History(s, run, n - 1, ip), now, s.window), run[n - 1].hit);
      PortsOfOneMore(run, FreshPending(s, run, n - 1, ip, now), n - 1);
    }
  }

  lemma NothingPending(s: Setup, run: seq<Observation>, ip: string, now: int)
    ensures Fresh(History(s, run, 0, ip), now, s.window) == [] && FreshPending(s, run, 0, ip, now) == {}
  {
  }

  lemma NoPorts(run: seq<Observation>)
    ensures Ports([]) == {} && PortsOf(run, {}) == {}
  {
  }

  lemma PortsOfOneMore(run: seq<Observation>, lines: set<nat>, i: nat)
    requires i < |run| && forall k :: k in lines ==> k < |run|
    ensures PortsOf(run, lines + {i}) == PortsOf(run, lines) + {run[i].hit.port}
  {
  }

  lemma PortsAppend(hits: seq<Hit>, hit: Hit)
    ensures Ports(hits + [hit]) == Ports(hits) + {hit.port}
  {
    forall p ensures p in Ports(hits + [hit]) <==> p in Ports(hits) + {hit.port} {
      if p == hit.port { assert hit in hits + [hit]; }
      if p in Ports(hits) {
        var h :| h in hits && h.port == p;
        assert h in hits + [hit];
      }
    }
  }

  lemma PendingSteps(s: Setup, run: seq<Observation>, n: nat, ip: string, now: int)
    requires 0 < n <= |run|
    ensures n - 1 !in FreshPending(s, run, n - 1, ip, now)
    ensures FreshPending(s, run, n, ip, now)
         == if run[n - 1].ip != ip then FreshPending(s, run, n - 1, ip, now)
            else if AlertsAt(s, run, n - 1) then {}
            else FreshPending(s, run, n - 1, ip, now)
                 + if now - run[n - 1].hit.at <= s.window then {n - 1} else {}
  {
    hide AlertsAt;
    forall i: nat | i < n - 1 && run[n - 1].ip == ip && AlertsAt(s, run, n - 1)
      ensures !Pending(s, run, i, n, ip) {}
  }

  lemma {:induction false} DistinctPorts(run: seq<Observation>, lines: set<nat>)
    requires forall i :: i in lines ==> i < |run|
    requires OnDistinctPorts(run, lines)
    ensures |PortsOf(run, lines)| == |lines|
  {
    if lines != {} {
      var i :| i in lines;
      var rest := lines - {i};
      DistinctPorts(run, rest);
      PortsOfOneMore(run, rest, i);
      assert rest + {i} == lines;
    } else {
      NoPorts(run);
    }
  }

  ghost predicate OnDistinctPorts(run: seq<Observation>, lines: set<nat>)
    requires forall i :: i in lines ==> i < |run|
  {
    forall i, j :: i in lines && j in lines && i != j ==> run[i].hit.port != run[j].hit.port
  }

  lemma NewPortIsDistinct(run: seq<Observation>, lines: set<nat>, i: nat)
    requires i < |run| && forall k :: k in lines ==> k < |run|
    requires OnDistinctPorts(run, lines) && run[i].hit.port !in PortsOf(run, lines)
    ensures OnDistinctPorts(run, lines + {i}) && i !in lines
  {
  }

  /** One line for every port. */
  lemma {:induction false} OneLinePerPort(run: seq<Observation>, lines: set<nat>) returns (picked: set<nat>)
    requires forall i :: i in lines ==> i < |run|
    ensures picked <= lines && OnDistinctPorts(run, picked)
    ensures |picked| == |PortsOf(run, lines)| && PortsOf(run, picked) == PortsOf(run, lines)
  {
    picked := {};
    if lines == {} {
      NoPorts(run);
    } else {
      hide PortsOf, OnDistinctPorts;
      var i :| i in lines;
      var rest := lines - {i};
      assert lines == rest + {i};
      var some := OneLinePerPort(run, rest);
      PortsOfOneMore(run, rest, i);
      PortsOfOneMore(run, some, i);
      if run[i].hit.port in PortsOf(run, rest) {
        assert PortsOf(run, rest) + {run[i].hit.port} == PortsOf(run, rest);
        picked := some;
      } else {
        NewPortIsDistinct(run, some, i);
        picked := some + {i};
      }
    }
  }

  /** The lines that count at `n` are the fresh pending ones and `n` itself. */
  lemma CountingIsPending(s: Setup, run: seq<Observation>, n: nat)
    requires n < |run|
    ensures var before := FreshPending(s, run, n, run[n].ip, run[n].hit.at);
            && n !in before
            && Counting(s, run, n) == before + if 0 <= s.window then {n} else {}
  {
    hide AlertsAt;
  }

  lemma MeasureIsCounting(s: Setup, run: seq<Observation>, n: nat)
    requires n < |run| && NoRevival(Readings(run), s.window)
    ensures Measure(s.rule, Recent(TableAfter(s, run, n), run[n].ip, run[n].hit, s.window))
         == if s.rule.CountHits? then |Counting(s, run, n)| else |PortsOf(run, Counting(s, run, n))|
  {
    var ip, hit := run[n].ip, run[n].hit;
    var older := Fresh(History(s, run, n, ip), hit.at, s.window);
    SameCount(s, run, n);
    HistoryIsPending(s, run, n, ip, hit.at);
    CountingIsPending(s, run, n);
    FreshAppend(History(s, run, n, ip), [hit], hit.at, s.window);
    FreshOne(hit, hit.at, s.window);
    assert older + [] == older;
    hide History, Fresh, FreshPending, Counting, NoRevival, Ports, PortsOf, TableAfter, Recent, AlertsAt;
    PortsAppend(older, hit);
    PortsOfOneMore(run, FreshPending(s, run, n, ip, hit.at), n);
  }

  /**
   * Without revivals, a line alerts exactly when `threshold` lines justify it: its own address, since its
   * last alert, in the window, and for a port scan on pairwise different ports.
   */
  lemma AlertsIff(s: Setup, run: seq<Observation>, n: nat)
    requires n < |run| && NoRevival(Readings(run), s.window)
    ensures AlertsAt(s, run, n) <==> exists lines :: Justify(s, run, lines, n) && |lines| >= s.threshold
  {
    MeasureIsCounting(s, run, n);
    var all := Counting(s, run, n);
    hide TableAfter, Recent, NoRevival, Counts;
    if AlertsAt(s, run, n) {
      var lines := all;
      if s.rule.CountPorts? { lines := OneLinePerPort(run, all); }
      assert Justify(s, run, lines, n);
    }
    forall lines | Justify(s, run, lines, n) && |lines| >= s.threshold ensures AlertsAt(s, run, n) {
      assert lines <= all;
      SubsetSize(lines, all);
      if s.rule.CountPorts? {
        DistinctPorts(run, lines);
        SubsetSize(PortsOf(run, lines), PortsOf(run, all));
      }
    }
  }

  /** Hits on one port alone are no port scan, whatever the clock. */
  lemma OnePortIsNoScan(s: Setup, run: seq<Observation>, n: nat)
    requires s.rule == CountPorts && s.threshold >= 2 && n < |run|
    requires forall i :: 0 <= i <= n && run[i].ip == run[n].ip ==> run[i].hit.port == run[n].hit.port
    ensures !AlertsAt(s, run, n)
  {
    hide TableAfter;
    var stored, hit := HitsOf(TableAfter(s, run, n), run[n].ip), run[n].hit;
    forall h | h in Recent(TableAfter(s, run, n), run[n].ip, hit, s.window) ensures h.port == hit.port {
      FreshMembers(stored + [hit], hit.at, s.window);
      if h in stored { var i := StoredHitStayedFresh(s, run, n, run[n].ip, h); }
    }
    var ports := Ports(Recent(TableAfter(s, run, n), run[n].ip, hit, s.window));
    assert ports <= {hit.port};
    SubsetSize(ports, {hit.port});
  }

  // ---------- what every reachable table looks like ----------

  lemma {:induction false} SubsetSize<T>(a: set<T>, b: set<T>)
    requires a <= b
    ensures |a| <= |b|
  {
    if a != {} {
      var x :| x in a;
      SubsetSize(a - {x}, b - {x});
    }
  }

  lemma {:induction false} PortsBound(hits: seq<Hit>)
    ensures |Ports(hits)| <= |hits|
  {
    if hits != [] {
      var n := |hits| - 1;
      PortsBound(hits[..n]);
      assert hits == hits[..n] + [hits[n]];
      assert Ports(hits) == Ports(hits[..n]) + {hits[n].port};
    }
  }

  /** Filtering never raises the measure, and one more hit raises it by at most one. */
  lemma MeasureSteps(rule: Rule, hits: seq<Hit>, hit: Hit, now: int, window: int)
    ensures Measure(rule, Fresh(hits, now, window)) <= Measure(rule, hits)
    ensures Measure(rule, hits + [hit]) <= Measure(rule, hits) + 1
    ensures Measure(rule, hits) <= |hits|
  {
    FreshMembers(hits, now, window);
    SubsetSize(Ports(Fresh(hits, now, window)), Ports(hits));
    assert Ports(hits + [hit]) == Ports(hits) + {hit.port};
    PortsBound(hits);
  }

  /** Between hits, every address stays below the threshold. */
  lemma {:induction false} AlwaysBelowThreshold(s: Setup, run: seq<Observation>, n: nat, ip: string)
    requires s.threshold >= 1 && n <= |run|
    ensures Measure(s.rule, HitsOf(TableAfter(s, run, n), ip)) < s.threshold
  {
    if n > 0 {
      var before, o := TableAfter(s, run, n - 1), run[n - 1];
      AlwaysBelowThreshold(s, run, n - 1, ip);
      MeasureSteps(s.rule, HitsOf(before, ip), o.hit, o.hit.at, s.window);
      if ip == o.ip {
        var after := HitsOf(TableAfter(s, run, n), ip);
        assert after == if AlertsAt(s, run, n - 1) then [] else Recent(before, ip, o.hit, s.window);
      }
    }
    assert Ports([]) == {};
  }

  /** An alert always reports exactly the threshold. */
  lemma {:induction false} AlertIsExact(s: Setup, run: seq<Observation>, n: nat)
    requires s.threshold >= 1 && n < |run| && AlertsAt(s, run, n)
    ensures Measure(s.rule, Recent(TableAfter(s, run, n), run[n].ip, run[n].hit, s.window)) == s.threshold
  {
    var mine := HitsOf(TableAfter(s, run, n), run[n].ip);
    AlwaysBelowThreshold(s, run, n, run[n].ip);
    MeasureSteps(s.rule, mine, run[n].hit, run[n].hit.at, s.window);
    MeasureSteps(s.rule, mine + [run[n].hit], run[n].hit, run[n].hit.at, s.window);
  }

  /** A port scan is reported as "high" exactly when the threshold is not positive. */
  lemma {:induction false} PortScanSeverity(s: Setup, run: seq<Observation>, n: nat)
    requires s.rule == CountPorts && n < |run| && AlertsAt(s, run, n)
    ensures var alert := PortScanAlert(TableAfter(s, run, n), run[n].ip, run[n].hit, s.threshold, s.window);
            && (alert.severity == High <==> s.threshold <= 0)
            && (s.threshold >= 1 ==> alert.reported == s.threshold)
  {
    if s.threshold >= 1 { AlertIsExact(s, run, n); }
  }

  function Lines(run: seq<Observation>, n: nat, ip: string): nat
    requires n <= |run|
  {
    if n == 0 then 0 else Lines(run, n - 1, ip) + if run[n - 1].ip == ip then 1 else 0
  }

  function Alerts(s: Setup, run: seq<Observation>, n: nat, ip: string): nat
    requires n <= |run|
  {
    if n == 0 then 0
    else Alerts(s, run, n - 1, ip) + if run[n - 1].ip == ip && AlertsAt(s, run, n - 1) then 1 else 0
  }

  /** Every alert is paid for: `threshold` matching lines each, and the pending hits on top. */
  lemma {:induction false} AlertsArePaidFor(s: Setup, run: seq<Observation>, n: nat, ip: string)
    requires s.threshold >= 1 && n <= |run|
    ensures s.threshold * Alerts(s, run, n, ip) + |HitsOf(TableAfter(s, run, n), ip)| <= Lines(run, n, ip)
  {
    hide Observed, Fires;
    if n > 0 {
      AlertsArePaidFor(s, run, n - 1, ip);
      PendingAfter(s, run, n - 1, ip);
      if run[n - 1].ip == ip && AlertsAt(s, run, n - 1) {
        OneMore(s.threshold, Alerts(s, run, n - 1, ip));
      }
    }
  }

  lemma OneMore(price: int, count: int)
    ensures price * (count + 1) == price * count + price
  {
  }

  /** One line adds at most one pending hit, and an alert consumes at least `threshold` of them. */
  lemma PendingAfter(s: Setup, run: seq<Observation>, n: nat, ip: string)
    requires n < |run|
    ensures var pending, after := HitsOf(TableAfter(s, run, n), ip), HitsOf(TableAfter(s, run, n + 1), ip);
            if run[n].ip != ip then |after| <= |pending|
            else if AlertsAt(s, run, n) then after == [] && s.threshold <= |pending| + 1
            else |after| <= |pending| + 1
  {
    var before, o := TableAfter(s, run, n), run[n];
    FreshMembers(HitsOf(before, ip), o.hit.at, s.window);
    FreshMembers(HitsOf(before, ip) + [o.hit], o.hit.at, s.window);
    MeasureSteps(s.rule, Recent(before, o.ip, o.hit, s.window), o.hit, o.hit.at, s.window);
  }

  /** The table does not grow without bound: besides the last address, only addresses seen within the window stay. */
  lemma StoredMeansRecent(s: Setup, run: seq<Observation>, n: nat, ip: string)
    requires 0 < n <= |run| && ip in TableAfter(s, run, n) && ip != run[n - 1].ip
    ensures exists j :: 0 <= j < n && run[j].ip == ip && run[n - 1].hit.at - run[j].hit.at <= s.window
  {
    var stored := TableAfter(s, run, n)[ip];
    assert stored != [];
    assert stored[0] in stored;
    var j := StoredHitStayedFresh(s, run, n, ip, stored[0]);
  }
}
