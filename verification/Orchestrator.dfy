/** The failover orchestrator's persisted counters, and the pacing of promotion attempts they enforce. */
module Orchestrator {
  import opened Sequences

  datatype Settings = Settings(failureThreshold: int, cooloffSeconds: int)

  function Threshold(s: Settings): int { Max(1, s.failureThreshold) }

  function Cooloff(s: Settings): int { Max(60, s.cooloffSeconds) }

  datatype Counters = Counters(
    consecutiveFailures: int, lastFailureAt: int, lastSuccessAt: int, lastPromoteAttemptAt: int)

  const INITIAL_COUNTERS := Counters(0, 0, 0, 0)

  /** What one run of the timer finds: whether orchestration applies, the primary's health, a free lock. */
  datatype Check = Check(now: int, applies: bool, healthy: bool, lockFree: bool)

  datatype Verdict = Skipped | Healthy | Wait(failures: int) | CoolingOff | LockHeld | Promote

  function VerdictOf(s: Settings, c: Counters, check: Check): Verdict {
    if !check.applies then Skipped
    else if check.healthy then Healthy
    else if c.consecutiveFailures + 1 < Threshold(s) then Wait(c.consecutiveFailures + 1)
    else if check.now - c.lastPromoteAttemptAt < Cooloff(s) then CoolingOff
    else if !check.lockFree then LockHeld
    else Promote
  }

  function Next(s: Settings, c: Counters, check: Check): Counters {
    if !check.applies then c
    else if check.healthy then c.(consecutiveFailures := 0, lastSuccessAt := check.now)
    else
      var failed := c.(consecutiveFailures := c.consecutiveFailures + 1, lastFailureAt := check.now);
      if VerdictOf(s, c, check) == Promote then failed.(lastPromoteAttemptAt := check.now) else failed
  }

  class FailoverOrchestrator {
    const settings: Settings
    var state: Counters

    constructor (settings: Settings)
      ensures this.settings == settings && state == INITIAL_COUNTERS
    {
      this.settings, state := settings, INITIAL_COUNTERS;
    }

    method RunCheck(check: Check) returns (verdict: Verdict)
      modifies this
      ensures verdict == VerdictOf(settings, old(state), check)
      ensures state == Next(settings, old(state), check)
      ensures verdict == Skipped <==> !check.applies
      ensures verdict == Healthy <==> check.applies && check.healthy
      ensures verdict.Wait? ==> verdict.failures == state.consecutiveFailures < Max(1, settings.failureThreshold)
      ensures verdict == CoolingOff ==>
                check.now - old(state).lastPromoteAttemptAt < Max(60, settings.cooloffSeconds)
      ensures verdict == LockHeld ==>
                !check.lockFree && check.now - old(state).lastPromoteAttemptAt >= Max(60, settings.cooloffSeconds)
    {
      if !check.applies {
        return Skipped;
      }
      if check.healthy {
        state := state.(consecutiveFailures := 0);
        state := state.(lastSuccessAt := check.now);
        return Healthy;
      }
      state := state.(consecutiveFailures := state.consecutiveFailures + 1);
      state := state.(lastFailureAt := check.now);
      if state.consecutiveFailures < Threshold(settings) {
        return Wait(state.consecutiveFailures);
      }
      if check.now - state.lastPromoteAttemptAt < Cooloff(settings) {
        return CoolingOff;
      }
      if !check.lockFree {
        return LockHeld;
      }
      state := state.(lastPromoteAttemptAt := check.now);
      return Promote;
    }
  }

  // ---------- runs ----------

  function CountersAfter(s: Settings, checks: seq<Check>, n: nat): Counters
    requires n <= |checks|
  {
    if n == 0 then INITIAL_COUNTERS else Next(s, CountersAfter(s, checks, n - 1), checks[n - 1])
  }

  predicate PromotesAt(s: Settings, checks: seq<Check>, n: nat)
    requires n < |checks|
  { VerdictOf(s, CountersAfter(s, checks, n), checks[n]) == Promote }

  ghost predicate Clocked(checks: seq<Check>) {
    forall i, j :: 0 <= i < j < |checks| ==> checks[i].now <= checks[j].now
  }

  predicate SawHealthy(check: Check) { check.applies && check.healthy }

  /** Checks `from..to` saw no healthy primary, and reach back to the last one that did, or to the first check. */
  ghost predicate WholeStreak(checks: seq<Check>, from: nat, to: nat)
    requires to <= |checks|
  {
    && from <= to
    && (forall i :: from <= i < to ==> !SawHealthy(checks[i]))
    && (from == 0 || SawHealthy(checks[from - 1]))
  }

  function FailedBetween(checks: seq<Check>, from: nat, to: nat): nat
    requires from <= to <= |checks|
  {
    if from == to then 0
    else FailedBetween(checks, from, to - 1) + if checks[to - 1].applies && !checks[to - 1].healthy then 1 else 0
  }

  /** The counter counts the failed checks since the last healthy one. */
  lemma {:induction false} CounterIsStreak(s: Settings, checks: seq<Check>, n: nat) returns (from: nat)
    requires n <= |checks|
    ensures WholeStreak(checks, from, n)
    ensures CountersAfter(s, checks, n).consecutiveFailures == FailedBetween(checks, from, n)
  {
    if n == 0 {
      from := 0;
    } else if SawHealthy(checks[n - 1]) {
      from := n;
    } else {
      from := CounterIsStreak(s, checks, n - 1);
    }
  }

  /** Every promotion attempt ends a streak of at least the threshold failed checks without a healthy one. */
  lemma PromotionNeedsStreak(s: Settings, checks: seq<Check>, n: nat) returns (from: nat)
    requires n < |checks| && PromotesAt(s, checks, n)
    ensures from <= n && WholeStreak(checks, from, n + 1)
    ensures FailedBetween(checks, from, n + 1) >= Max(1, s.failureThreshold)
    ensures checks[n].applies && !checks[n].healthy && checks[n].lockFree
  {
    from := CounterIsStreak(s, checks, n);
  }

  /** The remembered attempt is the last one made, if any. */
  lemma {:induction false} RemembersLastAttempt(s: Settings, checks: seq<Check>, i: nat, n: nat)
    requires Clocked(checks) && i < n <= |checks| && PromotesAt(s, checks, i)
    ensures checks[i].now <= CountersAfter(s, checks, n).lastPromoteAttemptAt <= checks[n - 1].now
  {
    if n > i + 1 {
      RemembersLastAttempt(s, checks, i, n - 1);
      assert checks[n - 2].now <= checks[n - 1].now && checks[i].now <= checks[n - 1].now;
    }
  }

  /** Two attempts are at least the cooloff apart. */
  lemma AttemptsAreSpaced(s: Settings, checks: seq<Check>, i: nat, j: nat)
    requires Clocked(checks) && i < j < |checks| && PromotesAt(s, checks, i) && PromotesAt(s, checks, j)
    ensures checks[j].now - checks[i].now >= s.cooloffSeconds && checks[j].now - checks[i].now >= 60
    ensures Cooloff(s) == Max(60, s.cooloffSeconds)
  {
    RemembersLastAttempt(s, checks, i, j);
  }

  /** Without an attempt so far the counters remember the epoch, else the time of an attempt. */
  lemma {:induction false} RememberedAttempt(s: Settings, checks: seq<Check>, n: nat)
    requires n <= |checks|
    ensures var at := CountersAfter(s, checks, n).lastPromoteAttemptAt;
            if forall i :: 0 <= i < n ==> !PromotesAt(s, checks, i) then at == 0
            else exists i :: 0 <= i < n && PromotesAt(s, checks, i) && checks[i].now == at
  {
    if n > 0 {
      RememberedAttempt(s, checks, n - 1);
      if PromotesAt(s, checks, n - 1) {
        assert CountersAfter(s, checks, n).lastPromoteAttemptAt == checks[n - 1].now;
      }
    }
  }

  /** No attempt within the cooloff before check `n`, nor within the cooloff after the epoch. */
  ghost predicate Cooled(s: Settings, checks: seq<Check>, n: nat)
    requires n < |checks|
  {
    && (forall i :: 0 <= i < n && PromotesAt(s, checks, i) ==>
          checks[n].now - checks[i].now >= s.cooloffSeconds && checks[n].now - checks[i].now >= 60)
    && ((forall i :: 0 <= i < n ==> !PromotesAt(s, checks, i)) ==>
          checks[n].now >= s.cooloffSeconds && checks[n].now >= 60)
  }

  /** A check promotes exactly when it ends a long enough streak of failures, on a free lock, with the cooloff over. */
  lemma PromotesIff(s: Settings, checks: seq<Check>, n: nat) returns (from: nat)
    requires Clocked(checks) && n < |checks|
    ensures from <= n && WholeStreak(checks, from, n)
    ensures PromotesAt(s, checks, n)
       <==> && checks[n].applies && !checks[n].healthy && checks[n].lockFree
            && FailedBetween(checks, from, n) + 1 >= s.failureThreshold
            && Cooled(s, checks, n)
  {
    from := CounterIsStreak(s, checks, n);
    RememberedAttempt(s, checks, n);
    forall i | 0 <= i < n && PromotesAt(s, checks, i)
      ensures checks[i].now <= CountersAfter(s, checks, n).lastPromoteAttemptAt
    {
      RemembersLastAttempt(s, checks, i, n);
    }
    hide CountersAfter;
  }

  /** Success and failure are dated by the last check of their kind. */
  lemma {:induction false} LastSeen(s: Settings, checks: seq<Check>, i: nat, n: nat)
    requires i < n <= |checks| && checks[i].applies
    requires forall k :: i < k < n && checks[k].applies ==> checks[k].healthy != checks[i].healthy
    ensures if checks[i].healthy then CountersAfter(s, checks, n).lastSuccessAt == checks[i].now
            else CountersAfter(s, checks, n).lastFailureAt == checks[i].now
  {
    if n > i + 1 { LastSeen(s, checks, i, n - 1); }
  }

  function Attempts(s: Settings, checks: seq<Check>, i: nat, j: nat): nat
    requires i <= j <= |checks|
  {
    if i == j then 0 else Attempts(s, checks, i, j - 1) + if PromotesAt(s, checks, j - 1) then 1 else 0
  }

  /** The last attempt among checks `i..j`, and the time the attempts up to it took. */
  lemma {:induction false} AttemptsTakeTime(s: Settings, checks: seq<Check>, i: nat, j: nat) returns (last: nat)
    requires Clocked(checks) && i <= j <= |checks| && Attempts(s, checks, i, j) > 0
    ensures i <= last < j && PromotesAt(s, checks, last)
    ensures (Attempts(s, checks, i, j) - 1) * Cooloff(s) <= checks[last].now - checks[i].now
  {
    if PromotesAt(s, checks, j - 1) {
      last := j - 1;
      assert i < last ==> checks[i].now <= checks[last].now;
      var before := Attempts(s, checks, i, j - 1);
      if before > 0 {
        var previous := AttemptsTakeTime(s, checks, i, j - 1);
        AttemptsAreSpaced(s, checks, previous, last);
        assert before * Cooloff(s) == (before - 1) * Cooloff(s) + Cooloff(s);
      }
    } else {
      last := AttemptsTakeTime(s, checks, i, j - 1);
    }
  }

  /** Checks within a period of `period` seconds make at most `1 + period / cooloff` attempts. */
  lemma AttemptsPerPeriod(s: Settings, checks: seq<Check>, i: nat, j: nat, period: nat)
    requires Clocked(checks) && i < j <= |checks| && checks[j - 1].now - checks[i].now <= period
    ensures Attempts(s, checks, i, j) <= 1 + period / Max(60, s.cooloffSeconds)
  {
    var attempts := Attempts(s, checks, i, j);
    if attempts > 0 {
      var last := AttemptsTakeTime(s, checks, i, j);
      assert last < j - 1 ==> checks[last].now <= checks[j - 1].now;
      AtMostQuotient(attempts - 1, Cooloff(s), period);
    }
  }

  lemma AtMostQuotient(k: int, d: int, n: int)
    requires d > 0 && k * d <= n
    ensures k <= n / d
  {
    var q := n / d;
    assert n < q * d + d;
    if q + 1 <= k { Scaled(q + 1, k, d); }
  }
}
