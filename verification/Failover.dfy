/**
 * Warm standby over a shared lock path: API processes, lock probes, the failover
 * orchestrator and (forced) promotions, interleaved step by step.
 */
module Failover {
  import opened Sequences
  import opened Deployment

  type NodeName = string
  type Pid = int

  datatype Pc =
    // an API process
    | Opening               // configured as primary, about to take the lock
    | Locked                // lock taken, metadata still the previous owner's
    | Truncated             // metadata erased
    | Active                // primary initialised
    | Released              // shutting down, lock given back
    | Passive               // standby initialised
    // a probe of the lock: GET /api/deployment, the orchestrator, or a promotion
    | Inspecting | InspectHolding
    | OrchestratorProbing | OrchestratorHolding
    | PromoteProbing(force: bool) | PromoteHolding(force: bool)
    // a promotion past its probe
    | Promoting             // before the role is rewritten
    | Restarting            // role rewritten, services not yet restarted

  datatype Proc = Proc(node: NodeName, pc: Pc)

  datatype World = World(
    lock: Option<Pid>, metadata: Option<NodeName>, roles: map<NodeName, Role>, procs: map<Pid, Proc>)

  datatype Step =
    | StartApi(p: Pid, node: NodeName)
    | StartInspect(p: Pid, node: NodeName)
    | StartOrchestrator(p: Pid, node: NodeName)          // a health check crossed the threshold
    | StartPromote(p: Pid, node: NodeName, force: bool)  // an operator runs the script
    | TryLock(p: Pid)
    | Advance(p: Pid)
    | Crash(p: Pid)

  /** A configuration without a role means primary. */
  function RoleOf(w: World, node: NodeName): Role { if node in w.roles then w.roles[node] else Primary }

  predicate WantsLock(pc: Pc) { pc.Opening? || pc.Inspecting? || pc.OrchestratorProbing? || pc.PromoteProbing? }

  predicate HoldsLock(pc: Pc) {
    pc.Locked? || pc.Truncated? || pc.Active? || pc.InspectHolding? || pc.OrchestratorHolding? || pc.PromoteHolding?
  }

  predicate IsApi(pc: Pc) {
    pc.Opening? || pc.Locked? || pc.Truncated? || pc.Active? || pc.Released? || pc.Passive?
  }

  predicate Enabled(w: World, step: Step) {
    match step
    case StartApi(p, _) => p !in w.procs
    case StartInspect(p, _) => p !in w.procs
    case StartOrchestrator(p, node) => p !in w.procs && RoleOf(w, node) == Standby
    case StartPromote(p, _, _) => p !in w.procs
    case TryLock(p) => p in w.procs && WantsLock(w.procs[p].pc)
    case Advance(p) =>
      p in w.procs && (HoldsLock(w.procs[p].pc) || w.procs[p].pc.Promoting? || w.procs[p].pc.Restarting?)
    case Crash(p) => p in w.procs
  }

  // ---------- effects ----------

  function With(w: World, p: Pid, pc: Pc): World
    requires p in w.procs
  { w.(procs := w.procs[p := w.procs[p].(pc := pc)]) }

  /** The end of a process: the kernel drops its lock. */
  function Without(w: World, gone: set<Pid>): World {
    w.(procs := w.procs - gone, lock := if w.lock.Some? && w.lock.value in gone then None else w.lock)
  }

  function Unlocked(w: World): World { w.(lock := None) }

  function Begin(w: World, p: Pid, node: NodeName, pc: Pc): World { w.(procs := w.procs[p := Proc(node, pc)]) }

  /** The lock is free: take it. */
  function Taken(w: World, p: Pid): World
    requires p in w.procs
  {
    var pc := w.procs[p].pc;
    var next :=
      match pc
      case Opening => Locked
      case Inspecting => InspectHolding
      case OrchestratorProbing => OrchestratorHolding
      case PromoteProbing(force) => PromoteHolding(force)
      case other => other;
    With(w, p, next).(lock := Some(p))
  }

  /** The lock is taken: only a forced promotion goes on; every other contender gives up and exits. */
  function Refused(w: World, p: Pid): World
    requires p in w.procs
  {
    if w.procs[p].pc == PromoteProbing(true) then With(w, p, Promoting) else w.(procs := w.procs - {p})
  }

  function ApiPidsOf(w: World, node: NodeName): set<Pid> {
    set p | p in w.procs && w.procs[p].node == node && IsApi(w.procs[p].pc)
  }

  function Advanced(w: World, p: Pid): World
    requires Enabled(w, Advance(p))
  {
    var proc := w.procs[p];
    match proc.pc
    case Locked => With(w, p, Truncated).(metadata := None)
    case Truncated => With(w, p, Active).(metadata := Some(proc.node))
    case Active => Unlocked(With(w, p, Released))
    case InspectHolding => Unlocked(Without(w, {p}))
    case OrchestratorHolding => Unlocked(With(w, p, PromoteProbing(false)))
    case PromoteHolding(_) => Unlocked(With(w, p, Promoting))
    case Promoting => With(w, p, Restarting).(roles := w.roles[proc.node := Primary])
    case Restarting => Without(w, ApiPidsOf(w, proc.node) + {p})  // the start that follows is a StartApi step
  }

  function Apply(w: World, step: Step): World
    requires Enabled(w, step)
  {
    match step
    case StartApi(p, node) => Begin(w, p, node, if RoleOf(w, node) == Primary then Opening else Passive)
    case StartInspect(p, node) => Begin(w, p, node, Inspecting)
    case StartOrchestrator(p, node) => Begin(w, p, node, OrchestratorProbing)
    case StartPromote(p, node, force) => Begin(w, p, node, PromoteProbing(force))
    case TryLock(p) => if w.lock == None then Taken(w, p) else Refused(w, p)
    case Advance(p) => Advanced(w, p)
    case Crash(p) => Without(w, {p})
  }

  // ---------- runs ----------

  function Initial(roles: map<NodeName, Role>, metadata: Option<NodeName>): World {
    World(None, metadata, roles, map[])
  }

  ghost predicate IsRun(w: World, steps: seq<Step>)
    decreases |steps|
  { steps == [] || (Enabled(w, steps[0]) && IsRun(Apply(w, steps[0]), steps[1..])) }

  ghost function Final(w: World, steps: seq<Step>): World
    requires IsRun(w, steps)
    decreases |steps|
  { if steps == [] then w else Final(Apply(w, steps[0]), steps[1..]) }

  // ---------- the invariant ----------

  predicate IsActive(w: World, p: Pid) { p in w.procs && w.procs[p].pc.Active? }

  ghost predicate Inv(w: World) {
    && (forall p :: p in w.procs && HoldsLock(w.procs[p].pc) ==> w.lock == Some(p))
    && (w.lock.Some? ==> w.lock.value in w.procs && HoldsLock(w.procs[w.lock.value].pc))
    && (forall p :: IsActive(w, p) ==> w.metadata == Some(w.procs[p].node))
  }

  lemma {:induction false} StepKeepsInv(w: World, step: Step)
    requires Inv(w) && Enabled(w, step)
    ensures Inv(Apply(w, step))
  {
    var after := Apply(w, step);
    if step.Advance? && w.procs[step.p].pc.Restarting? {
      var gone := ApiPidsOf(w, w.procs[step.p].node) + {step.p};
      forall q | q in after.procs ensures q in w.procs && q !in gone && after.procs[q] == w.procs[q] { }
    }
  }

  lemma {:induction false} RunKeepsInv(w: World, steps: seq<Step>)
    requires Inv(w) && IsRun(w, steps)
    ensures Inv(Final(w, steps))
    decreases |steps|
  {
    hide Apply, Enabled, Inv;
    if steps != [] {
      StepKeepsInv(w, steps[0]);
      RunKeepsInv(Apply(w, steps[0]), steps[1..]);
    }
  }

  /**
   * Over every interleaving, forced promotions included, at most one process is an
   * initialised primary, it owns the lock, and the lock metadata names its node.
   */
  lemma AtMostOnePrimary(roles: map<NodeName, Role>, metadata: Option<NodeName>, steps: seq<Step>, p: Pid, q: Pid)
    requires IsRun(Initial(roles, metadata), steps)
    requires var w := Final(Initial(roles, metadata), steps); IsActive(w, p) && IsActive(w, q)
    ensures p == q
    ensures var w := Final(Initial(roles, metadata), steps);
            w.lock == Some(p) && w.metadata == Some(w.procs[p].node)
  {
    RunKeepsInv(Initial(roles, metadata), steps);
  }

  /** A primary start is refused exactly when some other live process owns the lock, be it only to probe it. */
  lemma RefusedExactlyWhen(roles: map<NodeName, Role>, metadata: Option<NodeName>, steps: seq<Step>, p: Pid)
    requires IsRun(Initial(roles, metadata), steps)
    requires var w := Final(Initial(roles, metadata), steps); p in w.procs && w.procs[p].pc.Opening?
    ensures var w := Final(Initial(roles, metadata), steps);
            p !in Apply(w, TryLock(p)).procs
            <==> exists q :: q in w.procs && q != p && HoldsLock(w.procs[q].pc)
  {
    RunKeepsInv(Initial(roles, metadata), steps);
    var w := Final(Initial(roles, metadata), steps);
    hide Final, IsRun;
    if w.lock.Some? {
      assert w.lock.value in w.procs && w.lock.value != p && HoldsLock(w.procs[w.lock.value].pc);
    } else {
      assert p in Apply(w, TryLock(p)).procs;
    }
  }

  // ---------- promotions and roles ----------

  /** A promotion gets past its probe exactly when it is forced or no live process owns the lock. */
  lemma PromotionPassesIff(w: World, p: Pid)
    requires Inv(w) && p in w.procs && w.procs[p].pc.PromoteProbing?
    ensures p in Apply(w, TryLock(p)).procs
       <==> w.procs[p].pc.force || !(exists q :: q in w.procs && HoldsLock(w.procs[q].pc))
  {
    var held := exists q :: q in w.procs && HoldsLock(w.procs[q].pc);
    assert w.procs[p].pc == PromoteProbing(w.procs[p].pc.force);
    if w.lock.Some? {
      var q := w.lock.value;
      assert q in w.procs && HoldsLock(w.procs[q].pc);
      assert held;
      assert Apply(w, TryLock(p)) == Refused(w, p);
      if !w.procs[p].pc.force { assert Refused(w, p).procs == w.procs - {p}; }
    } else {
      assert !held;
    }
  }

  /** In every reachable world, that is. */
  lemma ReachablePromotionPassesIff(roles: map<NodeName, Role>, metadata: Option<NodeName>, steps: seq<Step>, p: Pid)
    requires IsRun(Initial(roles, metadata), steps)
    requires var w := Final(Initial(roles, metadata), steps); p in w.procs && w.procs[p].pc.PromoteProbing?
    ensures var w := Final(Initial(roles, metadata), steps);
            p in Apply(w, TryLock(p)).procs
            <==> w.procs[p].pc.force || !(exists q :: q in w.procs && HoldsLock(w.procs[q].pc))
  {
    RunKeepsInv(Initial(roles, metadata), steps);
    PromotionPassesIff(Final(Initial(roles, metadata), steps), p);
  }

  /** Nodes whose promotion is past its probe, or bound to get past it because it is forced. */
  ghost predicate Underway(w: World, node: NodeName) {
    exists p :: p in w.procs && w.procs[p].node == node
                && (w.procs[p].pc.Promoting? || w.procs[p].pc == PromoteProbing(true))
  }

  /** Process `q` owns the lock before every step and after the last. */
  ghost predicate KeepsLock(w: World, steps: seq<Step>, q: Pid)
    requires IsRun(w, steps)
    decreases |steps|
  {
    w.lock == Some(q) && (steps != [] ==> KeepsLock(Apply(w, steps[0]), steps[1..], q))
  }

  predicate Unforced(step: Step) { step.StartPromote? ==> !step.force }

  /** While the lock is kept, one unforced step starts no promotion underway and rewrites no other node's role. */
  lemma LockedStepKeepsRoles(w: World, step: Step, q: Pid, node: NodeName)
    requires Inv(w) && Enabled(w, step) && Unforced(step)
    requires w.lock == Some(q) && Apply(w, step).lock == Some(q)
    requires !Underway(w, node)
    ensures !Underway(Apply(w, step), node) && RoleOf(Apply(w, step), node) == RoleOf(w, node)
  {
    assert step.Advance? && HoldsLock(w.procs[step.p].pc) ==> step.p == q;
  }

  /**
   * While one process keeps the lock, no role is rewritten but through promotions already underway or
   * forced: the lock holds off every promotion of an orchestrator or an operator that comes to it.
   */
  lemma {:induction false} LockKeepsRoles(w: World, steps: seq<Step>, q: Pid, node: NodeName)
    requires Inv(w) && IsRun(w, steps) && KeepsLock(w, steps, q)
    requires forall i :: 0 <= i < |steps| ==> Unforced(steps[i])
    requires !Underway(w, node)
    ensures RoleOf(Final(w, steps), node) == RoleOf(w, node)
    decreases |steps|
  {
    hide Apply, Enabled, Inv, RoleOf, Underway;
    if steps != [] {
      var next := Apply(w, steps[0]);
      assert KeepsLock(next, steps[1..], q);
      StepKeepsInv(w, steps[0]);
      LockedStepKeepsRoles(w, steps[0], q, node);
      LockKeepsRoles(next, steps[1..], q, node);
    }
  }

  ghost predicate NoForce(w: World) {
    forall p :: p in w.procs ==> w.procs[p].pc != PromoteProbing(true) && w.procs[p].pc != PromoteHolding(true)
  }

  /** Only an operator forces a promotion: no orchestrator ever does. */
  lemma {:induction false} ForceIsDeliberate(w: World, steps: seq<Step>)
    requires NoForce(w) && IsRun(w, steps) && forall i :: 0 <= i < |steps| ==> Unforced(steps[i])
    ensures NoForce(Final(w, steps))
    decreases |steps|
  {
    if steps != [] {
      assert Unforced(steps[0]);
      ForceIsDeliberate(Apply(w, steps[0]), steps[1..]);
    }
  }

  /** In a deployment where nobody forces a promotion, a kept lock keeps every role of a node not past its probe. */
  lemma UnforcedRunsRespectTheLock(roles: map<NodeName, Role>, metadata: Option<NodeName>, before: seq<Step>,
                                   during: seq<Step>, q: Pid, node: NodeName)
    requires IsRun(Initial(roles, metadata), before) && IsRun(Final(Initial(roles, metadata), before), during)
    requires KeepsLock(Final(Initial(roles, metadata), before), during, q)
    requires forall i :: 0 <= i < |before| ==> Unforced(before[i])
    requires forall i :: 0 <= i < |during| ==> Unforced(during[i])
    requires var w := Final(Initial(roles, metadata), before);
             forall p :: p in w.procs && w.procs[p].node == node ==> !w.procs[p].pc.Promoting?
    ensures var w := Final(Initial(roles, metadata), before);
            RoleOf(Final(w, during), node) == RoleOf(w, node)
  {
    RunKeepsInv(Initial(roles, metadata), before);
    ForceIsDeliberate(Initial(roles, metadata), before);
    LockKeepsRoles(Final(Initial(roles, metadata), before), during, q, node);
  }

  /** A promotion that restarts its services leaves no API process of its node, and all processes of others. */
  lemma RestartStopsTheApi(w: World, p: Pid)
    requires p in w.procs && w.procs[p].pc.Restarting?
    ensures var after := Apply(w, Advance(p));
            forall q :: q in after.procs <==> q in w.procs && q != p
                                              && !(w.procs[q].node == w.procs[p].node && IsApi(w.procs[q].pc))
  {
  }

  // ---------- what the lock does not promise ----------

  /** A probe can turn a start away although no primary runs or is about to. */
  lemma ProbeCanRefuseStart() returns (steps: seq<Step>)
    ensures IsRun(Initial(map[], None), steps)
    ensures var w := Final(Initial(map[], None), steps);
            && w == World(Some(2), None, map[], map[2 := Proc("b", InspectHolding)])
            && Enabled(w, StartApi(3, "a"))
            && 3 !in Apply(Apply(w, StartApi(3, "a")), TryLock(3)).procs
  {
    var s0, s1 := StartInspect(2, "b"), TryLock(2);
    steps := [s0, s1];
    var w0 := Initial(map[], None);
    var w1 := Apply(w0, s0);
    var w2 := Apply(w1, s1);
    assert steps[1..] == [s1] && [s1][1..] == [];
    assert IsRun(w2, []) && IsRun(w1, [s1]);
    assert Final(w1, [s1]) == Final(w2, []) == w2;
    assert w2 == World(Some(2), None, map[], map[2 := Proc("b", InspectHolding)]);
  }

  /** Two unforced promotions may both pass their probes; both nodes then claim the role, one gets the lock. */
  lemma PromotionsCanRace() returns (w: World, steps: seq<Step>)
    ensures var start := Initial(map["a" := Standby, "b" := Standby], None);
            IsRun(start, steps) && w == Final(start, steps)
    ensures StartPromote(1, "a", false) in steps && StartPromote(2, "b", false) in steps
    ensures w == World(Some(3), Some("a"), map["a" := Primary, "b" := Primary], map[3 := Proc("a", Active)])
  {
    hide IsRun, Final;
    var probed, first := BothProbesPass();
    var rewritten, second := BothRewrite(probed, first);
    w, steps := OneStartSucceeds(rewritten, second);
  }

  const STANDBY_PAIR: map<NodeName, Role> := map["a" := Standby, "b" := Standby]

  lemma BothProbesPass() returns (w: World, steps: seq<Step>)
    ensures IsRun(Initial(STANDBY_PAIR, None), steps) && w == Final(Initial(STANDBY_PAIR, None), steps)
    ensures StartPromote(1, "a", false) in steps && StartPromote(2, "b", false) in steps
    ensures w == World(None, None, STANDBY_PAIR, map[1 := Proc("a", Promoting), 2 := Proc("b", Promoting)])
  {
    var w0 := Initial(STANDBY_PAIR, None);
    assert IsRun(w0, []);
    steps, w := [], w0;
    hide IsRun, Final;
    steps, w := ProbePasses(w0, steps, w, 1, "a");
    steps, w := ProbePasses(w0, steps, w, 2, "b");
  }

  /** An unforced promotion that finds the lock free gets past its probe, and leaves the lock free. */
  lemma ProbePasses(start: World, steps: seq<Step>, w: World, p: Pid, node: NodeName)
    returns (longer: seq<Step>, next: World)
    requires IsRun(start, steps) && Final(start, steps) == w && w.lock == None && p !in w.procs
    ensures IsRun(start, longer) && Final(start, longer) == next
    ensures steps <= longer && StartPromote(p, node, false) in longer
    ensures next == w.(procs := w.procs[p := Proc(node, Promoting)])
  {
    hide IsRun, Final;
    longer, next := Extend(start, steps, w, StartPromote(p, node, false));
    longer, next := Extend(start, longer, next, TryLock(p));
    longer, next := Extend(start, longer, next, Advance(p));
  }

  lemma BothRewrite(probed: World, before: seq<Step>) returns (w: World, steps: seq<Step>)
    requires IsRun(Initial(STANDBY_PAIR, None), before) && probed == Final(Initial(STANDBY_PAIR, None), before)
    requires probed == World(None, None, STANDBY_PAIR, map[1 := Proc("a", Promoting), 2 := Proc("b", Promoting)])
    ensures IsRun(Initial(STANDBY_PAIR, None), steps) && w == Final(Initial(STANDBY_PAIR, None), steps)
    ensures before <= steps
    ensures w == World(None, None, map["a" := Primary, "b" := Primary], map[])
  {
    hide IsRun, Final;
    var w0 := Initial(STANDBY_PAIR, None);
    steps, w := PromotionCompletes(w0, before, probed, 1);
    assert w.procs == map[2 := Proc("b", Promoting)];
    steps, w := PromotionCompletes(w0, steps, w, 2);
    assert w.roles == map["a" := Primary, "b" := Primary];
  }

  /** A promotion past its probe rewrites its node's role and stops the node's API processes, here none. */
  lemma PromotionCompletes(start: World, steps: seq<Step>, w: World, p: Pid) returns (longer: seq<Step>, next: World)
    requires IsRun(start, steps) && Final(start, steps) == w && w.lock == None
    requires p in w.procs && w.procs[p].pc.Promoting?
    requires forall q :: q in w.procs ==> !IsApi(w.procs[q].pc)
    ensures IsRun(start, longer) && Final(start, longer) == next && steps <= longer
    ensures next == w.(roles := w.roles[w.procs[p].node := Primary], procs := w.procs - {p})
  {
    hide IsRun, Final;
    longer, next := Extend(start, steps, w, Advance(p));
    assert next.procs == w.procs[p := Proc(w.procs[p].node, Restarting)];
    forall q ensures q !in ApiPidsOf(next, w.procs[p].node) {
      assert q in next.procs && q != p ==> next.procs[q] == w.procs[q];
    }
    longer, next := Extend(start, longer, next, Advance(p));
    assert next.procs == w.procs - {p};
  }

  lemma OneStartSucceeds(rewritten: World, before: seq<Step>) returns (w: World, steps: seq<Step>)
    requires IsRun(Initial(STANDBY_PAIR, None), before) && rewritten == Final(Initial(STANDBY_PAIR, None), before)
    requires rewritten == World(None, None, map["a" := Primary, "b" := Primary], map[])
    ensures IsRun(Initial(STANDBY_PAIR, None), steps) && w == Final(Initial(STANDBY_PAIR, None), steps)
    ensures before <= steps
    ensures w == World(Some(3), Some("a"), map["a" := Primary, "b" := Primary], map[3 := Proc("a", Active)])
  {
    hide IsRun, Final;
    var w0 := Initial(STANDBY_PAIR, None);
    steps, w := Extend(w0, before, rewritten, StartApi(3, "a"));
    steps, w := Extend(w0, steps, w, TryLock(3));
    steps, w := Extend(w0, steps, w, Advance(3));
    steps, w := Extend(w0, steps, w, Advance(3));
    assert w == World(Some(3), Some("a"), map["a" := Primary, "b" := Primary], map[3 := Proc("a", Active)]);
    steps, w := Extend(w0, steps, w, StartApi(4, "b"));
    steps, w := Extend(w0, steps, w, TryLock(4));
  }

  lemma Extend(start: World, steps: seq<Step>, w: World, step: Step) returns (longer: seq<Step>, next: World)
    requires IsRun(start, steps) && Final(start, steps) == w && Enabled(w, step)
    ensures longer == steps + [step] && next == Apply(w, step)
    ensures IsRun(start, longer) && Final(start, longer) == next
  {
    longer, next := steps + [step], Apply(w, step);
    RunAppend(start, steps, step);
  }

  lemma {:induction false} RunAppend(start: World, steps: seq<Step>, step: Step)
    requires IsRun(start, steps) && Enabled(Final(start, steps), step)
    ensures IsRun(start, steps + [step])
    ensures Final(start, steps + [step]) == Apply(Final(start, steps), step)
    decreases |steps|
  {
    hide Apply, Enabled;
    if steps == [] {
      assert [step][1..] == [];
      assert steps + [step] == [step];
      assert IsRun(Apply(start, step), []);
    } else {
      assert (steps + [step])[1..] == steps[1..] + [step];
      RunAppend(Apply(start, steps[0]), steps[1..], step);
    }
  }

  // ---------- one node's start is a run of these steps ----------

  /** The lock file as the protocol sees it. */
  ghost predicate Agrees(w: World, file: LockFile)
    reads file
  {
    && (w.lock.Some? <==> file.holder.Some?)
    && w.metadata == (if file.payload.Some? then Some(file.payload.value.nodeName) else None)
  }

  /** A start of the API that nothing interrupts: at most the three steps that take the lock and claim it. */
  function StartRun(w: World, p: Pid, node: NodeName): seq<Step> {
    if RoleOf(w, node) == Standby then [StartApi(p, node)]
    else if w.lock.Some? then [StartApi(p, node), TryLock(p)]
    else [StartApi(p, node), TryLock(p), Advance(p), Advance(p)]
  }

  lemma StartIsRun(w: World, p: Pid, node: NodeName)
    requires p !in w.procs
    ensures IsRun(w, StartRun(w, p, node))
    ensures var after := Final(w, StartRun(w, p, node));
            if RoleOf(w, node) == Standby then after == Begin(w, p, node, Passive)
            else if w.lock.Some? then after == w
            else after == Begin(w, p, node, Active).(lock := Some(p), metadata := Some(node))
  {
    hide IsRun, Final;
    EmptyRun(w);
    var steps, next := Extend(w, [], w, StartApi(p, node));
    if RoleOf(w, node) == Primary {
      steps, next := Extend(w, steps, next, TryLock(p));
      if w.lock.None? {
        steps, next := Extend(w, steps, next, Advance(p));
        steps, next := Extend(w, steps, next, Advance(p));
      }
    }
    assert steps == StartRun(w, p, node);
  }

  lemma EmptyRun(w: World)
    ensures IsRun(w, []) && Final(w, []) == w
  {
  }

  /** Initialising a fresh process does to the lock file what its run does to the world. */
  method StartNode(node: Node, role: Role, name: string, now: int, ghost w: World, ghost p: Pid)
    returns (result: InitResult)
    requires node.Valid() && node.lockFd == None && Agrees(w, node.file) && p !in w.procs
    requires var n := if name == "" then "nullius-node" else name; RoleOf(w, n) == role
    modifies node`role, node`nodeName, node`lockFd, node.file
    ensures node.Valid()
    ensures var run := StartRun(w, p, node.nodeName);
            && IsRun(w, run)
            && Agrees(Final(w, run), node.file)
            && (result == Initialised <==> p in Final(w, run).procs)
            && (IsActive(Final(w, run), p) <==> node.lockFd.Some?)
  {
    result := node.InitDeploymentRole(if role == Primary then "primary" else "standby", name, now);
    StartIsRun(w, p, node.nodeName);
  }
}
