/** The explainable risk score: grouped event pressure plus observable health factors. */
module Risk {
  import opened Sequences

  datatype Event = Event(eventType: string, sourceIp: string, severity: string)

  datatype Group = Group(eventType: string, sourceIp: string, severity: string, count: int)

  type Key = (string, string)

  function SeverityWeight(severity: string): nat {
    if severity == "low" then 2
    else if severity == "medium" then 6
    else if severity == "high" then 12
    else if severity == "critical" then 20
    else 0
  }

  function KeyOf(e: Event): Key { (e.eventType, e.sourceIp) }

  function KeyOfGroup(g: Group): Key { (g.eventType, g.sourceIp) }

  function GroupWeight(g: Group): int { SeverityWeight(g.severity) + Min(4, Max(0, g.count - 1)) }

  function TotalWeight(groups: seq<Group>): int {
    if groups == [] then 0 else GroupWeight(groups[0]) + TotalWeight(groups[1..])
  }

  // ---------- grouping ----------

  /** Position of a key in the insertion-ordered dictionary, or its length. */
  function IndexOf(groups: seq<Group>, key: Key): (i: nat)
    ensures i <= |groups|
    ensures i < |groups| ==> KeyOfGroup(groups[i]) == key
    ensures forall j :: 0 <= j < i ==> KeyOfGroup(groups[j]) != key
  {
    if groups == [] || KeyOfGroup(groups[0]) == key then 0 else 1 + IndexOf(groups[1..], key)
  }

  function Bumped(g: Group, e: Event): Group {
    Group(g.eventType, g.sourceIp,
          if SeverityWeight(e.severity) > SeverityWeight(g.severity) then e.severity else g.severity,
          g.count + 1)
  }

  function AddEvent(groups: seq<Group>, e: Event): seq<Group> {
    var i := IndexOf(groups, KeyOf(e));
    if i < |groups| then groups[i := Bumped(groups[i], e)]
    else groups + [Group(e.eventType, e.sourceIp, e.severity, 1)]
  }

  function Grouped(events: seq<Event>): seq<Group> {
    if events == [] then [] else AddEvent(Grouped(events[..|events| - 1]), events[|events| - 1])
  }

  method GroupRecentEvents(events: seq<Event>) returns (groups: seq<Group>)
    ensures groups == Grouped(events)
  {
    hide SeverityWeight;
    groups := [];
    for n := 0 to |events|
      invariant groups == Grouped(events[..n])
    {
      var e := events[n];
      assert events[..n + 1][..n] == events[..n];
      var i := IndexOf(groups, KeyOf(e));
      if i == |groups| {
        groups := groups + [Group(e.eventType, e.sourceIp, e.severity, 1)];
        continue;
      }
      groups := groups[i := groups[i].(count := groups[i].count + 1)];
      if SeverityWeight(e.severity) > SeverityWeight(groups[i].severity) {
        groups := groups[i := groups[i].(severity := e.severity)];
      }
    }
    assert events[..|events|] == events;
  }

  // ---------- what a group says about its key ----------

  function CountOf(events: seq<Event>, key: Key): nat {
    if events == [] then 0
    else CountOf(events[..|events| - 1], key) + if KeyOf(events[|events| - 1]) == key then 1 else 0
  }

  function WorstOf(events: seq<Event>, key: Key): nat {
    if events == [] then 0
    else
      var e, worst := events[|events| - 1], WorstOf(events[..|events| - 1], key);
      if KeyOf(e) == key && SeverityWeight(e.severity) > worst then SeverityWeight(e.severity) else worst
  }

  /** The weight a key contributes, whatever the order of its events. */
  function KeyWeight(events: seq<Event>, key: Key): int {
    WorstOf(events, key) + Min(4, Max(0, CountOf(events, key) - 1))
  }

  ghost predicate DistinctKeys(groups: seq<Group>) {
    forall i, j :: 0 <= i < j < |groups| ==> KeyOfGroup(groups[i]) != KeyOfGroup(groups[j])
  }

  ghost predicate Summarises(groups: seq<Group>, events: seq<Event>) {
    forall i :: 0 <= i < |groups| ==>
      && groups[i].count == CountOf(events, KeyOfGroup(groups[i])) >= 1
      && SeverityWeight(groups[i].severity) == WorstOf(events, KeyOfGroup(groups[i]))
  }

  ghost predicate HasGroup(groups: seq<Group>, key: Key) {
    exists i :: 0 <= i < |groups| && KeyOfGroup(groups[i]) == key
  }

  lemma IndexFindsGroup(groups: seq<Group>, key: Key)
    ensures HasGroup(groups, key) <==> IndexOf(groups, key) < |groups|
  {
    var i := IndexOf(groups, key);
    if i < |groups| { assert KeyOfGroup(groups[i]) == key; }
  }

  lemma AddEventKeys(groups: seq<Group>, e: Event, key: Key)
    ensures HasGroup(AddEvent(groups, e), key) <==> HasGroup(groups, key) || key == KeyOf(e)
  {
    IndexFindsGroup(groups, KeyOf(e));
    var after := AddEvent(groups, e);
    if HasGroup(groups, key) {
      var i :| 0 <= i < |groups| && KeyOfGroup(groups[i]) == key;
      assert KeyOfGroup(after[i]) == key;
    } else if key == KeyOf(e) {
      assert KeyOfGroup(after[|groups|]) == key;
    }
  }

  lemma AddEventSummarises(groups: seq<Group>, before: seq<Event>, e: Event)
    requires DistinctKeys(groups) && Summarises(groups, before)
    requires HasGroup(groups, KeyOf(e)) <==> CountOf(before, KeyOf(e)) > 0
    ensures DistinctKeys(AddEvent(groups, e)) && Summarises(AddEvent(groups, e), before + [e])
  {
    IndexFindsGroup(groups, KeyOf(e));
    assert (before + [e])[..|before|] == before;
    if CountOf(before, KeyOf(e)) == 0 { NeverSeen(before, KeyOf(e)); }
  }

  /** One group per key, carrying its number of events and its worst severity. */
  lemma {:induction false} GroupsSummarise(events: seq<Event>)
    ensures DistinctKeys(Grouped(events)) && Summarises(Grouped(events), events)
    ensures forall key :: CountOf(events, key) > 0 <==> HasGroup(Grouped(events), key)
  {
    if events != [] {
      var before, e := events[..|events| - 1], events[|events| - 1];
      GroupsSummarise(before);
      AddEventSummarises(Grouped(before), before, e);
      assert before + [e] == events;
      forall key ensures CountOf(events, key) > 0 <==> HasGroup(Grouped(events), key) {
        AddEventKeys(Grouped(before), e, key);
      }
    }
  }

  lemma {:induction false} NeverSeen(events: seq<Event>, key: Key)
    requires CountOf(events, key) == 0
    ensures WorstOf(events, key) == 0
  {
    if events != [] { NeverSeen(events[..|events| - 1], key); }
  }

  function KeysOf(groups: seq<Group>): (keys: seq<Key>)
    ensures |keys| == |groups|
    ensures forall i :: 0 <= i < |keys| ==> keys[i] == KeyOfGroup(groups[i])
  {
    if groups == [] then [] else [KeyOfGroup(groups[0])] + KeysOf(groups[1..])
  }

  function SumOver(keys: seq<Key>, events: seq<Event>): int {
    if keys == [] then 0 else KeyWeight(events, keys[0]) + SumOver(keys[1..], events)
  }

  lemma {:induction false} TotalIsSumOverKeys(groups: seq<Group>, events: seq<Event>)
    requires Summarises(groups, events)
    ensures TotalWeight(groups) == SumOver(KeysOf(groups), events)
  {
    if groups != [] {
      assert forall i :: 0 <= i < |groups[1..]| ==> groups[1..][i] == groups[i + 1];
      TotalIsSumOverKeys(groups[1..], events);
    }
  }

  // ---------- order does not matter ----------

  lemma {:induction false} CountRemove(events: seq<Event>, i: nat, key: Key)
    requires i < |events|
    ensures CountOf(events, key) == CountOf(RemoveAt(events, i), key) + if KeyOf(events[i]) == key then 1 else 0
    decreases |events|
  {
    var n, rest := |events| - 1, RemoveAt(events, i);
    if i == n {
      assert rest == events[..n];
    } else {
      CountRemove(events[..n], i, key);
      assert rest[..|rest| - 1] == RemoveAt(events[..n], i) && rest[|rest| - 1] == events[n];
    }
  }

  lemma {:induction false} WorstRemove(events: seq<Event>, i: nat, key: Key)
    requires i < |events|
    ensures var rest, e := RemoveAt(events, i), events[i];
            WorstOf(events, key) == if KeyOf(e) == key then Max(WorstOf(rest, key), SeverityWeight(e.severity))
                                    else WorstOf(rest, key)
    decreases |events|
  {
    hide SeverityWeight;
    var n, rest := |events| - 1, RemoveAt(events, i);
    if i == n {
      assert rest == events[..n];
    } else {
      WorstRemove(events[..n], i, key);
      assert rest[..|rest| - 1] == RemoveAt(events[..n], i) && rest[|rest| - 1] == events[n];
    }
  }

  lemma {:induction false} KeyFactsOfPermutation(a: seq<Event>, b: seq<Event>, key: Key)
    requires multiset(a) == multiset(b)
    ensures CountOf(a, key) == CountOf(b, key) && WorstOf(a, key) == WorstOf(b, key)
    decreases |a|
  {
    if a == [] {
      assert |multiset(b)| == 0;
    } else {
      assert a[0] in multiset(b);
      var i :| 0 <= i < |b| && b[i] == a[0];
      RemoveAtMultiset(a, 0);
      RemoveAtMultiset(b, i);
      KeyFactsOfPermutation(RemoveAt(a, 0), RemoveAt(b, i), key);
      CountRemove(a, 0, key);
      CountRemove(b, i, key);
      WorstRemove(a, 0, key);
      WorstRemove(b, i, key);
    }
  }

  ghost predicate NoDuplicates(keys: seq<Key>) {
    forall i, j :: 0 <= i < j < |keys| ==> keys[i] != keys[j]
  }

  lemma {:induction false} SumRemove(keys: seq<Key>, i: nat, events: seq<Event>)
    requires i < |keys|
    ensures SumOver(keys, events) == KeyWeight(events, keys[i]) + SumOver(RemoveAt(keys, i), events)
  {
    if i == 0 {
      assert RemoveAt(keys, 0) == keys[1..];
    } else {
      SumRemove(keys[1..], i - 1, events);
      assert RemoveAt(keys, i)[1..] == RemoveAt(keys[1..], i - 1);
    }
  }

  /** Two duplicate-free lists of the same keys, weighed over event lists that agree on every key. */
  lemma {:induction false} SumOverSameKeys(a: seq<Key>, b: seq<Key>, x: seq<Event>, y: seq<Event>)
    requires NoDuplicates(a) && NoDuplicates(b)
    requires forall i :: 0 <= i < |a| ==> a[i] in b
    requires forall i :: 0 <= i < |b| ==> b[i] in a
    requires forall k :: KeyWeight(x, k) == KeyWeight(y, k)
    ensures SumOver(a, x) == SumOver(b, y)
    decreases |a|
  {
    if a != [] {
      assert a[0] in a && a[0] in b;
      var i :| 0 <= i < |b| && b[i] == a[0];
      var rest := RemoveAt(b, i);
      forall k ensures k in a[1..] <==> k in rest {
        KeysAfterRemoval(a, 0, k);
        assert RemoveAt(a, 0) == a[1..];
        KeysAfterRemoval(b, i, k);
      }
      SumOverSameKeys(a[1..], rest, x, y);
      SumRemove(b, i, y);
    }
  }

  lemma KeysAfterRemoval(keys: seq<Key>, i: nat, k: Key)
    requires NoDuplicates(keys) && i < |keys|
    ensures k in RemoveAt(keys, i) <==> k in keys && k != keys[i]
  {
    assert keys == keys[..i] + [keys[i]] + keys[i + 1..];
  }

  /** The event pressure does not depend on the order in which the database returns the events. */
  lemma {:induction false} PressureOrderFree(a: seq<Event>, b: seq<Event>)
    requires multiset(a) == multiset(b)
    ensures TotalWeight(Grouped(a)) == TotalWeight(Grouped(b))
  {
    hide Grouped, CountOf, WorstOf, TotalWeight, KeyWeight, SumOver;
    GroupsSummarise(a);
    GroupsSummarise(b);
    TotalIsSumOverKeys(Grouped(a), a);
    TotalIsSumOverKeys(Grouped(b), b);
    forall k ensures KeyWeight(a, k) == KeyWeight(b, k) {
      KeyFactsOfPermutation(a, b, k);
      SameFactsSameWeight(a, b, k);
    }
    forall k ensures k in KeysOf(Grouped(a)) <==> k in KeysOf(Grouped(b)) {
      KeyFactsOfPermutation(a, b, k);
      KeyIsGrouped(a, k);
      KeyIsGrouped(b, k);
    }
    SumOverSameKeys(KeysOf(Grouped(a)), KeysOf(Grouped(b)), a, b);
  }

  lemma SameFactsSameWeight(a: seq<Event>, b: seq<Event>, k: Key)
    requires CountOf(a, k) == CountOf(b, k) && WorstOf(a, k) == WorstOf(b, k)
    ensures KeyWeight(a, k) == KeyWeight(b, k)
  {
  }

  lemma KeyIsGrouped(events: seq<Event>, k: Key)
    ensures k in KeysOf(Grouped(events)) <==> CountOf(events, k) > 0
  {
    GroupsSummarise(events);
    var groups := Grouped(events);
    if HasGroup(groups, k) {
      var i :| 0 <= i < |groups| && KeyOfGroup(groups[i]) == k;
      assert KeysOf(groups)[i] == k;
    }
  }

  /** One more event never lowers the pressure. */
  lemma PressureGrows(events: seq<Event>, e: Event)
    ensures TotalWeight(Grouped(events)) <= TotalWeight(Grouped(events + [e]))
  {
    assert (events + [e])[..|events|] == events;
    var groups := Grouped(events);
    var i := IndexOf(groups, KeyOf(e));
    if i < |groups| {
      TotalUpdate(groups, i, Bumped(groups[i], e));
    } else {
      TotalAppend(groups, Group(e.eventType, e.sourceIp, e.severity, 1));
    }
  }

  lemma {:induction false} TotalUpdate(groups: seq<Group>, i: nat, g: Group)
    requires i < |groups|
    ensures TotalWeight(groups[i := g]) == TotalWeight(groups) - GroupWeight(groups[i]) + GroupWeight(g)
  {
    if i == 0 {
      assert groups[0 := g][1..] == groups[1..];
    } else {
      TotalUpdate(groups[1..], i - 1, g);
      assert groups[i := g][1..] == groups[1..][i - 1 := g];
    }
  }

  lemma {:induction false} TotalAppend(groups: seq<Group>, g: Group)
    ensures TotalWeight(groups + [g]) == TotalWeight(groups) + GroupWeight(g)
  {
    if groups == [] {
      assert [g][1..] == [];
      assert groups + [g] == [g];
    } else {
      assert (groups + [g])[1..] == groups[1..] + [g];
      TotalAppend(groups[1..], g);
    }
  }

  /** Raising a severity in place never lowers the pressure. */
  lemma PressureGrowsWithSeverity(events: seq<Event>, i: nat, severity: string)
    requires i < |events| && SeverityWeight(events[i].severity) <= SeverityWeight(severity)
    ensures TotalWeight(Grouped(events)) <= TotalWeight(Grouped(events[i := events[i].(severity := severity)]))
  {
    hide Grouped, CountOf, WorstOf, TotalWeight, KeyWeight, SumOver, SeverityWeight;
    var worse := events[i := events[i].(severity := severity)];
    GroupsSummarise(events);
    GroupsSummarise(worse);
    TotalIsSumOverKeys(Grouped(events), events);
    TotalIsSumOverKeys(Grouped(worse), worse);
    forall k ensures KeyWeight(events, k) <= KeyWeight(worse, k) && (CountOf(events, k) == CountOf(worse, k)) {
      KeyGrowsWithSeverity(events, i, severity, k);
    }
    forall k ensures k in KeysOf(Grouped(events)) <==> k in KeysOf(Grouped(worse)) {
      KeyIsGrouped(events, k);
      KeyIsGrouped(worse, k);
    }
    SumOverGrows(KeysOf(Grouped(events)), events, worse);
    SumOverSameKeys(KeysOf(Grouped(events)), KeysOf(Grouped(worse)), worse, worse);
  }

  lemma KeyGrowsWithSeverity(events: seq<Event>, i: nat, severity: string, k: Key)
    requires i < |events| && SeverityWeight(events[i].severity) <= SeverityWeight(severity)
    ensures var worse := events[i := events[i].(severity := severity)];
            KeyWeight(events, k) <= KeyWeight(worse, k) && CountOf(events, k) == CountOf(worse, k)
  {
    var worse := events[i := events[i].(severity := severity)];
    hide CountOf, WorstOf, SeverityWeight;
    assert RemoveAt(worse, i) == RemoveAt(events, i);
    CountRemove(events, i, k);
    CountRemove(worse, i, k);
    WorstRemove(events, i, k);
    WorstRemove(worse, i, k);
  }

  lemma {:induction false} SumOverGrows(keys: seq<Key>, x: seq<Event>, y: seq<Event>)
    requires forall k :: KeyWeight(x, k) <= KeyWeight(y, k)
    ensures SumOver(keys, x) <= SumOver(keys, y)
  {
    hide KeyWeight;
    if keys != [] { SumOverGrows(keys[1..], x, y); }
  }

  /** `k` equal events weigh their severity, and one point for each repetition up to four. */
  lemma {:induction false} RepeatsAreSoft(e: Event, k: nat)
    requires k > 0
    ensures Grouped(seq(k, _ => e)) == [Group(e.eventType, e.sourceIp, e.severity, k)]
    ensures TotalWeight(Grouped(seq(k, _ => e))) == SeverityWeight(e.severity) + Min(4, k - 1)
  {
    hide SeverityWeight;
    var events := seq(k, _ => e);
    assert events[..k - 1] == seq(k - 1, _ => e);
    if k > 1 {
      RepeatsAreSoft(e, k - 1);
    }
    var group := Group(e.eventType, e.sourceIp, e.severity, k);
    assert Grouped(events) == [group];
    assert [group][1..] == [];
  }

  /** The known severities are strictly ranked, above everything unknown. */
  lemma SeveritiesRanked(unknown: string)
    requires unknown !in {"low", "medium", "high", "critical"}
    ensures 0 == SeverityWeight(unknown) < SeverityWeight("low") < SeverityWeight("medium")
          < SeverityWeight("high") < SeverityWeight("critical")
  {
  }

  // ---------- the score ----------

  datatype Service = Service(name: string, status: string)

  datatype Inputs = Inputs(
    apiOk: bool, agentConnected: bool, dbOk: bool, latestMetricsTs: Option<int>,
    services: seq<Service>, recentEvents: seq<Event>, allowedServices: seq<string>, now: int)

  datatype Factor = Factor(code: string, weight: int)

  datatype Level = LowRisk | MediumRisk | HighRisk | CriticalRisk

  datatype Risk = Risk(score: int, level: Level, factors: seq<Factor>)

  function RiskLevel(score: int): Level {
    if score >= 75 then CriticalRisk else if score >= 50 then HighRisk else if score >= 25 then MediumRisk else LowRisk
  }

  function NormalizeServiceName(name: string): string {
    var suffix := ".service";
    if |name| >= |suffix| && name[|name| - |suffix|..] == suffix then name[..|name| - |suffix|] else name
  }

  predicate IsImportantStopped(service: Service, allowed: seq<string>) {
    service.status == "stopped"
    && exists i :: 0 <= i < |allowed| && NormalizeServiceName(allowed[i]) == NormalizeServiceName(service.name)
  }

  function FailedCount(services: seq<Service>): nat {
    if services == [] then 0 else (if services[0].status == "failed" then 1 else 0) + FailedCount(services[1..])
  }

  function StoppedCount(services: seq<Service>, allowed: seq<string>): nat {
    if services == [] then 0
    else (if IsImportantStopped(services[0], allowed) then 1 else 0) + StoppedCount(services[1..], allowed)
  }

  function ServiceWeight(inputs: Inputs): int {
    var failed, stopped := FailedCount(inputs.services), StoppedCount(inputs.services, inputs.allowedServices);
    if failed > 0 then Min(30, 10 * failed) else Min(10, 3 * stopped)
  }

  function MetricsWeight(inputs: Inputs): int {
    match inputs.latestMetricsTs
    case None => 20
    case Some(ts) =>
      var age := Max(0, inputs.now - ts);
      if age > 300 then 20 else if age > 60 then 10 else 0
  }

  function MetricsCode(inputs: Inputs): string {
    if inputs.latestMetricsTs.None? then "metrics_missing"
    else if inputs.now - inputs.latestMetricsTs.value > 300 then "metrics_stale"
    else "metrics_aging"
  }

  function EventWeight(inputs: Inputs): int { Min(25, TotalWeight(Grouped(inputs.recentEvents))) }

  function HealthWeight(inputs: Inputs): int {
    (if inputs.apiOk then 0 else 25) + (if inputs.agentConnected then 0 else 25) + (if inputs.dbOk then 0 else 25)
  }

  /** The capped sum of everything observed. */
  function ScoreOf(inputs: Inputs): int {
    Min(100, HealthWeight(inputs) + ServiceWeight(inputs) + MetricsWeight(inputs) + EventWeight(inputs))
  }

  function FactorSum(factors: seq<Factor>): int {
    if factors == [] then 0 else FactorSum(factors[..|factors| - 1]) + factors[|factors| - 1].weight
  }

  lemma FactorSumAppend(factors: seq<Factor>, f: Factor)
    ensures FactorSum(factors + [f]) == FactorSum(factors) + f.weight
  {
    assert (factors + [f])[..|factors|] == factors;
  }

  function Listed(code: string, weight: int): seq<Factor> { if weight == 0 then [] else [Factor(code, weight)] }

  /** Adds a factor to the running score; a factor that does not apply weighs nothing and is not listed. */
  method AddFactor(score: int, factors: seq<Factor>, code: string, weight: nat)
    returns (newScore: int, newFactors: seq<Factor>)
    requires score == FactorSum(factors) && AllPositive(factors)
    ensures newScore == score + weight == FactorSum(newFactors) && AllPositive(newFactors)
    ensures newFactors == factors + Listed(code, weight)
  {
    if weight == 0 {
      return score, factors;
    }
    FactorSumAppend(factors, Factor(code, weight));
    return score + weight, factors + [Factor(code, weight)];
  }

  ghost predicate AllPositive(factors: seq<Factor>) {
    forall i :: 0 <= i < |factors| ==> factors[i].weight > 0
  }

  /** The factors listed explain the score: they are positive, and add up to it below the cap. */
  method CalculateRiskScore(inputs: Inputs) returns (risk: Risk)
    ensures risk.score == ScoreOf(inputs) == Min(100, FactorSum(risk.factors))
    ensures risk.level == CriticalRisk <==> risk.score >= 75
    ensures risk.level == HighRisk <==> 50 <= risk.score < 75
    ensures risk.level == MediumRisk <==> 25 <= risk.score < 50
    ensures AllPositive(risk.factors)
    ensures risk.factors
         == Listed("api_unhealthy", if inputs.apiOk then 0 else 25)
            + Listed("agent_disconnected", if inputs.agentConnected then 0 else 25)
            + Listed("db_unhealthy", if inputs.dbOk then 0 else 25)
            + Listed(if FailedCount(inputs.services) > 0 then "failed_services" else "stopped_services",
                     ServiceWeight(inputs))
            + Listed(MetricsCode(inputs), MetricsWeight(inputs))
            + Listed("recent_security_pressure", EventWeight(inputs))
  {
    hide Grouped, TotalWeight, FactorSum, FailedCount, StoppedCount, Listed, AllPositive, MetricsCode, MetricsWeight;
    var score, factors := 0, [];
    NoFactors();
    score, factors := AddFactor(score, factors, "api_unhealthy", if inputs.apiOk then 0 else 25);
    assert factors == Listed("api_unhealthy", if inputs.apiOk then 0 else 25);
    score, factors := AddFactor(score, factors, "agent_disconnected", if inputs.agentConnected then 0 else 25);
    score, factors := AddFactor(score, factors, "db_unhealthy", if inputs.dbOk then 0 else 25);
    var failed, stopped := FailedCount(inputs.services), StoppedCount(inputs.services, inputs.allowedServices);
    if failed > 0 {
      score, factors := AddFactor(score, factors, "failed_services", Min(30, 10 * failed));
    } else {
      score, factors := AddFactor(score, factors, "stopped_services", Min(10, 3 * stopped));
    }
    assert score == HealthWeight(inputs) + ServiceWeight(inputs);
    MetricsWeightIsNatural(inputs);
    score, factors := AddFactor(score, factors, MetricsCode(inputs), MetricsWeight(inputs));
    var groups := GroupRecentEvents(inputs.recentEvents);
    TotalNonNegative(groups);
    score, factors := AddFactor(score, factors, "recent_security_pressure", Min(25, TotalWeight(groups)));
    return Risk(Min(100, score), RiskLevel(Min(100, score)), factors);
  }

  lemma MetricsWeightIsNatural(inputs: Inputs)
    ensures MetricsWeight(inputs) >= 0
  {
  }

  lemma NoFactors()
    ensures FactorSum([]) == 0 && AllPositive([])
  {
  }

  lemma {:induction false} TotalNonNegative(groups: seq<Group>)
    ensures TotalWeight(groups) >= 0
  {
    if groups != [] { TotalNonNegative(groups[1..]); }
  }

  // ---------- what the score promises ----------

  /** Any order of the same recent events gives the same score, which stays in 0..100. */
  lemma {:induction false} ScoreOrderFree(inputs: Inputs, reordered: seq<Event>)
    requires multiset(inputs.recentEvents) == multiset(reordered)
    ensures ScoreOf(inputs) == ScoreOf(inputs.(recentEvents := reordered))
    ensures 0 <= ScoreOf(inputs) <= 100
  {
    hide Grouped, TotalWeight, FailedCount, StoppedCount;
    PressureOrderFree(inputs.recentEvents, reordered);
    TotalNonNegative(Grouped(inputs.recentEvents));
  }

  lemma PressureGrowsAnywhere(events: seq<Event>, position: nat, e: Event)
    requires position <= |events|
    ensures TotalWeight(Grouped(events)) <= TotalWeight(Grouped(events[..position] + [e] + events[position..]))
  {
    hide Grouped, TotalWeight;
    var inserted := events[..position] + [e] + events[position..];
    assert multiset(inserted) == multiset(events + [e]) by {
      assert events == events[..position] + events[position..];
    }
    PressureGrows(events, e);
    PressureOrderFree(inserted, events + [e]);
  }

  /** One more event, at any position, never lowers the score. */
  lemma ScoreGrowsWithEvents(inputs: Inputs, position: nat, e: Event)
    requires position <= |inputs.recentEvents|
    ensures var events := inputs.recentEvents;
            ScoreOf(inputs) <= ScoreOf(inputs.(recentEvents := events[..position] + [e] + events[position..]))
  {
    hide Grouped, TotalWeight, FailedCount, StoppedCount;
    PressureGrowsAnywhere(inputs.recentEvents, position, e);
  }

  lemma {:induction false} FailureCounts(services: seq<Service>, i: nat, allowed: seq<string>)
    requires i < |services| && services[i].status == "stopped"
    ensures FailedCount(services[i := services[i].(status := "failed")]) == FailedCount(services) + 1
    ensures FailedCount(services) == 0 || FailedCount(services) >= 1
  {
    var after := services[i := services[i].(status := "failed")];
    if i == 0 {
      assert after[1..] == services[1..];
    } else {
      FailureCounts(services[1..], i - 1, allowed);
      assert after[1..] == services[1..][i - 1 := services[i].(status := "failed")];
    }
  }

  /** A worse severity of any recent event never lowers the score. */
  lemma ScoreGrowsWithSeverity(inputs: Inputs, i: nat, severity: string)
    requires i < |inputs.recentEvents| && SeverityWeight(inputs.recentEvents[i].severity) <= SeverityWeight(severity)
    ensures var events := inputs.recentEvents;
            ScoreOf(inputs) <= ScoreOf(inputs.(recentEvents := events[i := events[i].(severity := severity)]))
  {
    hide Grouped, TotalWeight, FailedCount, StoppedCount, SeverityWeight;
    PressureGrowsWithSeverity(inputs.recentEvents, i, severity);
  }

  /** Metrics cost nothing for a minute, 10 up to five minutes and 20 after that, or when there are none at all. */
  lemma StaleMetricsCost(inputs: Inputs, ts: int)
    ensures MetricsWeight(inputs.(latestMetricsTs := Some(inputs.now - 60))) == 0
    ensures MetricsWeight(inputs.(latestMetricsTs := Some(inputs.now - 61))) == 10
    ensures MetricsWeight(inputs.(latestMetricsTs := Some(inputs.now - 300))) == 10
    ensures MetricsWeight(inputs.(latestMetricsTs := Some(inputs.now - 301))) == 20
    ensures MetricsWeight(inputs.(latestMetricsTs := None)) == 20
  {
  }

  /** Older metrics never lower the score, and missing ones least of all. */
  lemma ScoreGrowsWithAge(inputs: Inputs, older: int, newer: int)
    requires older <= newer
    ensures ScoreOf(inputs.(latestMetricsTs := Some(newer))) <= ScoreOf(inputs.(latestMetricsTs := Some(older)))
         <= ScoreOf(inputs.(latestMetricsTs := None))
  {
    hide Grouped, TotalWeight, FailedCount, StoppedCount;
  }

  /** Below the cap an outage of the API, the agent or the database costs 25 points each, independently. */
  lemma OutagesCost(inputs: Inputs)
    requires inputs.apiOk && inputs.agentConnected && inputs.dbOk
    ensures ScoreOf(inputs.(apiOk := false)) == Min(100, ScoreOf(inputs) + 25)
    ensures ScoreOf(inputs.(agentConnected := false)) == Min(100, ScoreOf(inputs) + 25)
    ensures ScoreOf(inputs.(dbOk := false)) == Min(100, ScoreOf(inputs) + 25)
    ensures ScoreOf(inputs.(apiOk := false, agentConnected := false)) == Min(100, ScoreOf(inputs) + 50)
    ensures ScoreOf(inputs.(apiOk := false, agentConnected := false, dbOk := false)) == Min(100, ScoreOf(inputs) + 75)
  {
    hide Grouped, TotalWeight, FailedCount, StoppedCount;
  }

  /** Failed services cost 10 each up to 30; without any, important stopped ones cost 3 each up to 10. */
  lemma ServicesCost(inputs: Inputs)
    ensures var failed, stopped := FailedCount(inputs.services), StoppedCount(inputs.services, inputs.allowedServices);
            && (failed == 1 ==> ServiceWeight(inputs) == 10) && (failed == 2 ==> ServiceWeight(inputs) == 20)
            && (failed >= 3 ==> ServiceWeight(inputs) == 30)
            && (failed == 0 && stopped <= 3 ==> ServiceWeight(inputs) == 3 * stopped)
            && (failed == 0 && stopped >= 4 ==> ServiceWeight(inputs) == 10)
  {
    hide FailedCount, StoppedCount;
  }

  /** Recent events cost what their groups weigh, up to 25. */
  lemma EventsCost(inputs: Inputs)
    ensures var weight := TotalWeight(Grouped(inputs.recentEvents));
            EventWeight(inputs) == if weight >= 25 then 25 else weight
  {
    hide Grouped, TotalWeight;
  }

  /** Counts add up service by service: one for a failed one, one for a stopped one that is allowed under its name. */
  lemma {:induction false} ServicesAddUp(a: seq<Service>, b: seq<Service>, allowed: seq<string>)
    ensures FailedCount(a + b) == FailedCount(a) + FailedCount(b)
    ensures StoppedCount(a + b, allowed) == StoppedCount(a, allowed) + StoppedCount(b, allowed)
    ensures |a| == 1 ==>
              && FailedCount(a) == (if a[0].status == "failed" then 1 else 0)
              && StoppedCount(a, allowed) == (if IsImportantStopped(a[0], allowed) then 1 else 0)
  {
    hide IsImportantStopped;
    if a == [] {
      assert a + b == b;
    } else {
      assert (a + b)[1..] == a[1..] + b;
      ServicesAddUp(a[1..], b, allowed);
      assert |a| == 1 ==> a[1..] == [];
    }
  }

  /** A unit's suffix does not matter: a service counts under its name with it and without. */
  lemma SuffixIsIgnored(name: string, allowed: seq<string>)
    ensures NormalizeServiceName(name + ".service") == name
    ensures name in allowed && NormalizeServiceName(name) == name ==>
              && IsImportantStopped(Service(name, "stopped"), allowed)
              && IsImportantStopped(Service(name + ".service", "stopped"), allowed)
  {
    var unit := name + ".service";
    assert unit[|unit| - 8..] == ".service" && unit[..|unit| - 8] == name;
    if name in allowed {
      var i :| 0 <= i < |allowed| && allowed[i] == name;
    }
  }

  /** A stopped service that fails never lowers the score. */
  lemma ScoreGrowsWithFailure(inputs: Inputs, i: nat)
    requires i < |inputs.services| && inputs.services[i].status == "stopped"
    ensures ScoreOf(inputs)
         <= ScoreOf(inputs.(services := inputs.services[i := inputs.services[i].(status := "failed")]))
  {
    FailureCounts(inputs.services, i, inputs.allowedServices);
  }
}
