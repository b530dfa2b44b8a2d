/** Scores, labels and quality gates of the clean-baseline builder, over the reals. */
module BaselineQuality {
  import opened Sequences

  // ---------- Python number conversions ----------

  /** `int(x)`: truncation toward zero. */
  function Truncate(x: real): int { if x >= 0.0 then x.Floor else -((-x).Floor) }

  /** `round(x)`: to the nearest integer, halves to the even one. */
  function RoundHalfEven(x: real): int {
    var below := x.Floor;
    var fraction := x - below as real;
    if fraction < 0.5 || (fraction == 0.5 && below % 2 == 0) then below else below + 1
  }

  lemma RoundMonotone(x: real, y: real)
    requires x <= y
    ensures RoundHalfEven(x) <= RoundHalfEven(y)
  {
    if x.Floor == y.Floor {
      assert x - x.Floor as real <= y - y.Floor as real;
    }
  }

  /** The nearest integer, and the even one of two. */
  lemma RoundHalfEvenIff(x: real, n: int)
    ensures RoundHalfEven(x) == n
       <==> n as real - 0.5 <= x <= n as real + 0.5
            && ((x == n as real - 0.5 || x == n as real + 0.5) ==> n % 2 == 0)
  {
    var below := x.Floor;
    if n != below && n != below + 1 {
      assert n as real + 0.5 < x || x < n as real - 0.5;
    }
  }

  /** `int(round(base * multiplier))`. */
  function Scale(base: int, multiplier: real): int { RoundHalfEven(base as real * multiplier) }

  /** A larger multiplier never gives less. */
  lemma ScaledRounds(base: nat, a: real, b: real)
    requires a <= b
    ensures Scale(base, a) <= Scale(base, b)
  {
    assert base as real * (b - a) >= 0.0;
    RoundMonotone(base as real * a, base as real * b);
  }

  /** The integer next to `x` on the way to zero. */
  lemma TruncateIff(x: real, n: int)
    ensures Truncate(x) == n
       <==> if x >= 0.0 then n as real <= x < n as real + 1.0 else n as real - 1.0 < x <= n as real
  {
    if x < 0.0 { assert (-x).Floor == -n <==> (-n) as real <= -x < (-n) as real + 1.0; }
  }

  /** `round(x, 6)`. */
  function RoundMicro(x: real): real { RoundHalfEven(x * 1000000.0) as real / 1000000.0 }

  /** Six digits are within half a millionth; order is kept, strictly so over more than a millionth. */
  lemma RoundMicroIsClose(x: real, y: real)
    ensures x - 0.0000005 <= RoundMicro(x) <= x + 0.0000005
    ensures x <= y ==> RoundMicro(x) <= RoundMicro(y)
    ensures x + 0.000001 < y ==> RoundMicro(x) < RoundMicro(y)
  {
    RoundHalfEvenIff(x * 1000000.0, RoundHalfEven(x * 1000000.0));
    RoundHalfEvenIff(y * 1000000.0, RoundHalfEven(y * 1000000.0));
    if x <= y { RoundMonotone(x * 1000000.0, y * 1000000.0); }
  }

  function MinReal(x: real, y: real): real { if x <= y then x else y }

  function MaxReal(x: real, y: real): real { if x >= y then x else y }

  // ---------- gates ----------

  function SampleMultiplier(hostProfile: string): real {
    if hostProfile == "web" then 1.15
    else if hostProfile == "docker" then 1.1
    else if hostProfile == "database" then 1.25
    else if hostProfile == "dev" then 0.85
    else 1.0
  }

  function EventTolerance(hostProfile: string): real {
    if hostProfile == "web" then 0.8
    else if hostProfile == "docker" then 0.85
    else if hostProfile == "database" then 0.7
    else if hostProfile == "dev" then 1.3
    else 1.0
  }

  datatype Gates = Gates(minSamples: int, maxCleanEvents: int)

  function EffectiveQualityGates(hostProfile: string, minSamples: int, maxCleanEvents: int): (g: Gates)
    ensures g.minSamples >= 50 && g.maxCleanEvents >= 1
  {
    Gates(
      Max(50, Scale(minSamples, SampleMultiplier(hostProfile))),
      Max(1, Scale(maxCleanEvents, EventTolerance(hostProfile))))
  }

  /** A database host is never held to a looser gate than a generic one, nor a dev host to a stricter one. */
  lemma {:induction false} StricterProfiles(minSamples: nat, maxCleanEvents: nat)
    ensures var generic := EffectiveQualityGates("generic", minSamples, maxCleanEvents);
            var database := EffectiveQualityGates("database", minSamples, maxCleanEvents);
            var dev := EffectiveQualityGates("dev", minSamples, maxCleanEvents);
            && database.minSamples >= generic.minSamples >= dev.minSamples
            && database.maxCleanEvents <= generic.maxCleanEvents <= dev.maxCleanEvents
  {
    hide Scale;
    ScaledRounds(minSamples, 1.0, 1.25);
    ScaledRounds(minSamples, 0.85, 1.0);
    ScaledRounds(maxCleanEvents, 0.7, 1.0);
    ScaledRounds(maxCleanEvents, 1.0, 1.3);
  }

  const PROFILES_BY_STRICTNESS := ["dev", "generic", "docker", "web", "database"]

  /** The profiles are ranked: a stricter one never asks for fewer samples, nor tolerates more events. */
  lemma {:induction false} ProfilesRanked(i: nat, j: nat, minSamples: nat, maxCleanEvents: nat)
    requires i < j < |PROFILES_BY_STRICTNESS|
    ensures var loose := EffectiveQualityGates(PROFILES_BY_STRICTNESS[i], minSamples, maxCleanEvents);
            var strict := EffectiveQualityGates(PROFILES_BY_STRICTNESS[j], minSamples, maxCleanEvents);
            strict.minSamples >= loose.minSamples && strict.maxCleanEvents <= loose.maxCleanEvents
  {
    var loose, strict := PROFILES_BY_STRICTNESS[i], PROFILES_BY_STRICTNESS[j];
    ProfileTablesRanked(i, j);
    hide SampleMultiplier, EventTolerance, Scale;
    ScaledRounds(minSamples, SampleMultiplier(loose), SampleMultiplier(strict));
    ScaledRounds(maxCleanEvents, EventTolerance(strict), EventTolerance(loose));
  }

  lemma ProfileTablesRanked(i: nat, j: nat)
    requires i < j < |PROFILES_BY_STRICTNESS|
    ensures SampleMultiplier(PROFILES_BY_STRICTNESS[i]) < SampleMultiplier(PROFILES_BY_STRICTNESS[j])
    ensures EventTolerance(PROFILES_BY_STRICTNESS[i]) > EventTolerance(PROFILES_BY_STRICTNESS[j])
  {
  }

  /** A generic or unknown profile takes the settings as they are; what the others make of 200 samples and 10 events. */
  lemma ProfileExamples(unknown: string, minSamples: int, maxCleanEvents: int)
    requires unknown !in {"web", "docker", "database", "dev"}
    ensures EffectiveQualityGates(unknown, minSamples, maxCleanEvents)
         == Gates(Max(50, minSamples), Max(1, maxCleanEvents))
    ensures EffectiveQualityGates("database", 200, 10) == Gates(250, 7)
    ensures EffectiveQualityGates("web", 200, 10) == Gates(230, 8)
    ensures EffectiveQualityGates("docker", 200, 10) == Gates(220, 8)
    ensures EffectiveQualityGates("dev", 200, 10) == Gates(170, 13)
  {
    assert 200.0 * 1.25 == 250.0 && 200.0 * 1.15 == 230.0 && 200.0 * 1.1 == 220.0 && 200.0 * 0.85 == 170.0;
    assert 10.0 * 0.7 == 7.0 && 10.0 * 0.8 == 8.0 && 10.0 * 0.85 == 8.5 && 10.0 * 1.3 == 13.0;
  }

  // ---------- quality score ----------

  datatype Evidence = Evidence(
    totalSamples: int, cleanSamples: int, pressure: int, maintenanceEvents: int,
    minSamples: int, maxCleanEvents: int)

  function CleanRatio(e: Evidence): real
    requires e.totalSamples > 0
  { e.cleanSamples as real / e.totalSamples as real }

  function PressureScore(e: Evidence): real {
    var penalty := MinReal(e.pressure as real / Max(e.maxCleanEvents, 1) as real, 3.0);
    MaxReal(0.0, 1.0 - penalty / 3.0)
  }

  function SampleScore(e: Evidence): real {
    MinReal(e.cleanSamples as real / Max(e.minSamples, 1) as real, 1.0)
  }

  function MaintenanceScore(e: Evidence): real {
    MaxReal(0.0, 1.0 - MinReal(e.maintenanceEvents as real / 5.0, 1.0))
  }

  function RawQuality(e: Evidence): real
    requires e.totalSamples > 0
  {
    CleanRatio(e) * 45.0 + PressureScore(e) * 20.0 + SampleScore(e) * 25.0 + MaintenanceScore(e) * 10.0
  }

  function QualityScore(e: Evidence): (score: int)
    ensures 0 <= score <= 100
  {
    if e.totalSamples <= 0 then 0 else Max(0, Min(Truncate(RawQuality(e)), 100))
  }

  /** Evidence as the builder produces it. */
  ghost predicate Plausible(e: Evidence) {
    0 <= e.cleanSamples <= e.totalSamples && 0 < e.totalSamples && 0 <= e.pressure && 0 <= e.maintenanceEvents
  }

  lemma QuotientMonotone(a: int, b: int, d: int)
    requires a <= b && d > 0
    ensures a as real / d as real <= b as real / d as real
    ensures 0 <= a ==> 0.0 <= a as real / d as real
    ensures d <= a ==> 1.0 <= a as real / d as real
    ensures a <= d ==> a as real / d as real <= 1.0
  {
    var k := 1.0 / d as real;
    assert k > 0.0 && k * d as real == 1.0;
    assert a as real / d as real == a as real * k;
    assert b as real / d as real == b as real * k;
    assert (b as real - a as real) * k >= 0.0;
  }

  /** On plausible evidence the clamp is idle: the four parts already sum into 0..100. */
  lemma ClampIsIdle(e: Evidence)
    requires Plausible(e)
    ensures 0.0 <= RawQuality(e) <= 100.0
    ensures QualityScore(e) == RawQuality(e).Floor
  {
    QuotientMonotone(e.cleanSamples, e.cleanSamples, e.totalSamples);
    QuotientMonotone(e.cleanSamples, e.cleanSamples, Max(e.minSamples, 1));
    QuotientMonotone(e.pressure, e.pressure, Max(e.maxCleanEvents, 1));
    QuotientMonotone(e.maintenanceEvents, e.maintenanceEvents, 5);
    assert 0.0 <= PressureScore(e) <= 1.0;
    assert 0.0 <= SampleScore(e) <= 1.0;
    assert 0.0 <= MaintenanceScore(e) <= 1.0;
  }

  /** `better` has the same gates and total, no fewer clean samples, and no more noise. */
  ghost predicate NoWorse(worse: Evidence, better: Evidence) {
    && worse.totalSamples == better.totalSamples && worse.minSamples == better.minSamples
    && worse.maxCleanEvents == better.maxCleanEvents
    && worse.cleanSamples <= better.cleanSamples
    && worse.pressure >= better.pressure
    && worse.maintenanceEvents >= better.maintenanceEvents
  }

  lemma {:induction false} QualityMonotone(worse: Evidence, better: Evidence)
    requires NoWorse(worse, better) && Plausible(worse) && Plausible(better)
    ensures QualityScore(worse) <= QualityScore(better)
  {
    ClampIsIdle(worse);
    ClampIsIdle(better);
    QuotientMonotone(worse.cleanSamples, better.cleanSamples, worse.totalSamples);
    QuotientMonotone(worse.cleanSamples, better.cleanSamples, Max(worse.minSamples, 1));
    QuotientMonotone(better.pressure, worse.pressure, Max(worse.maxCleanEvents, 1));
    QuotientMonotone(better.maintenanceEvents, worse.maintenanceEvents, 5);
    assert PressureScore(worse) <= PressureScore(better);
    assert SampleScore(worse) <= SampleScore(better);
    assert MaintenanceScore(worse) <= MaintenanceScore(better);
    assert RawQuality(worse) <= RawQuality(better);
  }

  /** A window that lost nothing, has enough samples and tolerable pressure scores at least 83. */
  lemma QuietScore(e: Evidence)
    requires Plausible(e) && e.cleanSamples == e.totalSamples >= e.minSamples
    requires e.pressure <= e.maxCleanEvents
    ensures QualityScore(e) >= 83
    ensures e.pressure == e.maxCleanEvents > 0 && e.maintenanceEvents >= 5 ==> QualityScore(e) == 83
  {
    ClampIsIdle(e);
    QuotientMonotone(e.cleanSamples, e.cleanSamples, e.totalSamples);
    QuotientMonotone(e.cleanSamples, e.cleanSamples, Max(e.minSamples, 1));
    QuotientMonotone(e.pressure, e.pressure, Max(e.maxCleanEvents, 1));
    QuotientMonotone(5, Max(5, e.maintenanceEvents), 5);
    assert CleanRatio(e) == 1.0 && SampleScore(e) == 1.0;
    assert PressureScore(e) >= 2.0 / 3.0;
    assert MaintenanceScore(e) >= 0.0;
    assert RawQuality(e) >= 83.0;
  }

  /** Full marks without a sample: 20 for tolerable pressure and 10 for no maintenance. */
  lemma MarksWithoutSamples(e: Evidence)
    requires Plausible(e)
    ensures RawQuality(e.(cleanSamples := 0, pressure := 0, maintenanceEvents := 0)) == 30.0
  {
    QuotientMonotone(0, 0, e.totalSamples);
    QuotientMonotone(0, 0, Max(1, e.minSamples));
    QuotientMonotone(0, 0, Max(1, e.maxCleanEvents));
  }

  /** Clean samples are worth up to 45 for their share and 25 for their number. */
  lemma CleanSamplesEarn(e: Evidence)
    requires Plausible(e) && e.minSamples >= 1
    ensures (RawQuality(e) - RawQuality(e.(cleanSamples := 0))) * (e.totalSamples as real * e.minSamples as real)
         == 45.0 * e.cleanSamples as real * e.minSamples as real
            + 25.0 * Min(e.cleanSamples, e.minSamples) as real * e.totalSamples as real
  {
    CleanPart(e);
    CleanPart(e.(cleanSamples := 0));
    var ratio, sample := CleanRatio(e), SampleScore(e);
    assert RawQuality(e) - RawQuality(e.(cleanSamples := 0)) == ratio * 45.0 + sample * 25.0 by {
      hide CleanRatio, SampleScore;
    }
    hide CleanRatio, SampleScore, RawQuality;
    SumOfParts(ratio, sample, e.totalSamples as real, e.minSamples as real);
  }

  /** Pressure costs up to 20, reached at three times the limit. */
  lemma PressureCosts(e: Evidence)
    requires Plausible(e) && e.maxCleanEvents >= 1
    ensures (RawQuality(e.(pressure := 0)) - RawQuality(e)) * (3 * e.maxCleanEvents) as real
         == 20.0 * Min(e.pressure, 3 * e.maxCleanEvents) as real
  {
    PressurePart(e);
    QuotientMonotone(0, 0, e.maxCleanEvents);
    assert PressureScore(e.(pressure := 0)) == 1.0;
    var score := PressureScore(e);
    hide PressureScore;
    assert RawQuality(e.(pressure := 0)) - RawQuality(e) == 20.0 - score * 20.0;
    hide RawQuality;
    DropOfPart(score, (3 * e.maxCleanEvents) as real);
  }

  /** Every maintenance command costs 2, up to five of them. */
  lemma MaintenanceCosts(e: Evidence)
    requires Plausible(e)
    ensures RawQuality(e.(maintenanceEvents := 0)) - RawQuality(e) == 2.0 * Min(e.maintenanceEvents, 5) as real
  {
    MaintenancePart(e);
    MaintenancePart(e.(maintenanceEvents := 0));
    hide MaintenanceScore;
  }

  lemma SumOfParts(ratio: real, sample: real, t: real, m: real)
    ensures (ratio * 45.0 + sample * 25.0) * (t * m) == 45.0 * (ratio * t) * m + 25.0 * (sample * m) * t
  {
  }

  lemma DropOfPart(score: real, limit: real)
    ensures (20.0 - score * 20.0) * limit == 20.0 * (limit - score * limit)
  {
  }

  lemma CleanPart(e: Evidence)
    requires Plausible(e) && e.minSamples >= 1
    ensures CleanRatio(e) * e.totalSamples as real == e.cleanSamples as real
    ensures SampleScore(e) * e.minSamples as real == Min(e.cleanSamples, e.minSamples) as real
    ensures e.cleanSamples == 0 ==> CleanRatio(e) == 0.0 && SampleScore(e) == 0.0
  {
    QuotientMonotone(e.cleanSamples, e.cleanSamples, e.minSamples);
  }

  lemma PressurePart(e: Evidence)
    requires Plausible(e) && e.maxCleanEvents >= 1
    ensures PressureScore(e) * (3 * e.maxCleanEvents) as real
         == (3 * e.maxCleanEvents) as real - Min(e.pressure, 3 * e.maxCleanEvents) as real
  {
    var limit := e.maxCleanEvents as real;
    var load := e.pressure as real / limit;
    assert load * limit == e.pressure as real;
    LoadAgainstThree(e.pressure, e.maxCleanEvents);
    if e.pressure <= 3 * e.maxCleanEvents {
      assert PressureScore(e) == 1.0 - load / 3.0;
      assert (1.0 - load / 3.0) * (3.0 * limit) == 3.0 * limit - load * limit;
    } else {
      assert PressureScore(e) == 0.0;
    }
  }

  lemma LoadAgainstThree(pressure: int, limit: int)
    requires limit >= 1
    ensures pressure as real / limit as real <= 3.0 <==> pressure <= 3 * limit
  {
    var load := pressure as real / limit as real;
    assert load * limit as real == pressure as real;
    assert (load - 3.0) * limit as real == (pressure - 3 * limit) as real;
  }

  lemma MaintenancePart(e: Evidence)
    requires Plausible(e)
    ensures MaintenanceScore(e) * 10.0 == (10 - 2 * Min(e.maintenanceEvents, 5)) as real
  {
    QuotientMonotone(e.maintenanceEvents, e.maintenanceEvents, 5);
  }

  // ---------- labels ----------

  datatype QualityLabel = High | Medium | Low

  datatype NoiseLabel = Clean | Stressed | Noisy

  function QualityLabelOf(score: int): QualityLabel {
    if score >= 80 then High else if score >= 55 then Medium else Low
  }

  function NoiseLabelOf(pressure: int, maxCleanEvents: int): NoiseLabel {
    if pressure <= Max(maxCleanEvents / 2, 1) then Clean
    else if pressure <= maxCleanEvents then Stressed
    else Noisy
  }

  lemma NoisyMeansOverLimit(pressure: int, maxCleanEvents: int)
    requires maxCleanEvents >= 1
    ensures NoiseLabelOf(pressure, maxCleanEvents) == Noisy <==> pressure > maxCleanEvents
  {
  }
}
