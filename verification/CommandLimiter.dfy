/** The agent's command rate limit: a token bucket refilled by whole tokens only. */
module CommandLimiter {
  const MAX_COMMANDS_PER_SECOND := 10
  const NANOS_PER_TOKEN := 100_000_000

  datatype Bucket = Bucket(tokens: int, last: int)

  /** Tokens for an elapsed time in nanoseconds, truncated toward zero. */
  function Refill(elapsed: int): int {
    if elapsed >= 0 then elapsed / NANOS_PER_TOKEN else -((-elapsed) / NANOS_PER_TOKEN)
  }

  function Refilled(b: Bucket, now: int): int {
    var tokens := b.tokens + Refill(now - b.last);
    if tokens > MAX_COMMANDS_PER_SECOND then MAX_COMMANDS_PER_SECOND else tokens
  }

  predicate Admits(b: Bucket, now: int) { Refilled(b, now) > 0 }

  function Next(b: Bucket, now: int): Bucket {
    Bucket(if Admits(b, now) then Refilled(b, now) - 1 else Refilled(b, now), now)
  }

  class Limiter {
    var commandTokens: int
    var lastCommandTime: int

    constructor (now: int)
      ensures State() == Bucket(MAX_COMMANDS_PER_SECOND, now)
    {
      commandTokens, lastCommandTime := MAX_COMMANDS_PER_SECOND, now;
    }

    function State(): Bucket
      reads this
    { Bucket(commandTokens, lastCommandTime) }

    method CanExecuteCommand(now: int) returns (admitted: bool)
      modifies this
      ensures State() == Next(old(State()), now)
      ensures admitted == Admits(old(State()), now)
    {
      var elapsed := now - lastCommandTime;
      commandTokens := commandTokens + Refill(elapsed);
      if commandTokens > MAX_COMMANDS_PER_SECOND {
        commandTokens := MAX_COMMANDS_PER_SECOND;
      }
      lastCommandTime := now;
      if commandTokens <= 0 {
        return false;
      }
      commandTokens := commandTokens - 1;
      return true;
    }
  }

  // ---------- runs ----------

  /** Nondecreasing clock readings, none before `last`. */
  ghost predicate Monotone(last: int, times: seq<int>)
    decreases |times|
  {
    times == [] || (last <= times[0] && Monotone(times[0], times[1..]))
  }

  function After(b: Bucket, times: seq<int>): Bucket
    decreases |times|
  {
    if times == [] then b else After(Next(b, times[0]), times[1..])
  }

  /** How many of the calls made at `times` are admitted. */
  function Admitted(b: Bucket, times: seq<int>): nat
    decreases |times|
  {
    if times == [] then 0
    else (if Admits(b, times[0]) then 1 else 0) + Admitted(Next(b, times[0]), times[1..])
  }

  ghost predicate Sane(b: Bucket) { 0 <= b.tokens <= MAX_COMMANDS_PER_SECOND }

  lemma {:induction false} TokensStayInRange(b: Bucket, times: seq<int>, later: seq<int>)
    requires Sane(b) && Monotone(b.last, times + later)
    ensures Sane(After(b, times)) && Monotone(After(b, times).last, later)
    decreases |times|
  {
    if times == [] {
      assert times + later == later;
    } else {
      assert (times + later)[1..] == times[1..] + later;
      TokensStayInRange(Next(b, times[0]), times[1..], later);
    }
  }

  /** Truncated refills never add up to more than the truncated total. */
  lemma RefillsAddUp(a: nat, b: nat)
    ensures a / NANOS_PER_TOKEN + b / NANOS_PER_TOKEN <= (a + b) / NANOS_PER_TOKEN
  {
  }

  lemma {:induction false} AdmittedBudget(b: Bucket, times: seq<int>)
    requires b.tokens >= 0 && times != [] && Monotone(b.last, times)
    ensures b.last <= times[|times| - 1]
    ensures Admitted(b, times) <= b.tokens + (times[|times| - 1] - b.last) / NANOS_PER_TOKEN
    decreases |times|
  {
    if |times| > 1 {
      AdmittedBudget(Next(b, times[0]), times[1..]);
      RefillsAddUp(times[0] - b.last, times[|times| - 1] - times[0]);
    } else {
      assert times[1..] == [];
    }
  }

  /**
   * Any stretch of calls, wherever it starts in a run, admits at most the burst of ten
   * plus one command per full tenth of a second between its first and its last call.
   */
  lemma {:induction false} StretchBound(start: int, earlier: seq<int>, stretch: seq<int>)
    requires stretch != [] && Monotone(start, earlier + stretch)
    ensures Admitted(After(Bucket(MAX_COMMANDS_PER_SECOND, start), earlier), stretch)
         <= MAX_COMMANDS_PER_SECOND + (stretch[|stretch| - 1] - stretch[0]) / NANOS_PER_TOKEN
  {
    var b := After(Bucket(MAX_COMMANDS_PER_SECOND, start), earlier);
    TokensStayInRange(Bucket(MAX_COMMANDS_PER_SECOND, start), earlier, stretch);
    if |stretch| > 1 {
      AdmittedBudget(Next(b, stretch[0]), stretch[1..]);
    } else {
      assert stretch[1..] == [];
    }
  }

  // ---------- what comes back ----------

  /** Idle time fills the bucket again: exactly when it lasts a tenth of a second per missing token. */
  lemma FullAgainIff(b: Bucket, now: int)
    requires Sane(b) && b.last <= now
    ensures Refilled(b, now) == MAX_COMMANDS_PER_SECOND
       <==> now - b.last >= (MAX_COMMANDS_PER_SECOND - b.tokens) * NANOS_PER_TOKEN
    ensures Admits(b, now) <==> b.tokens > 0 || now - b.last >= NANOS_PER_TOKEN
  {
  }

  /** Whatever came before, after a second of silence the first ten of any rapid calls are admitted, and no more. */
  lemma BurstAfterSilence(start: int, earlier: seq<int>, burst: seq<int>)
    requires burst != [] && Monotone(start, earlier + burst)
    requires burst[0] - After(Bucket(MAX_COMMANDS_PER_SECOND, start), earlier).last >= 1_000_000_000
    requires Rapid(burst[0], burst[1..])
    ensures Admitted(After(Bucket(MAX_COMMANDS_PER_SECOND, start), earlier), burst)
         == if |burst| <= 10 then |burst| else 10
  {
    var b := After(Bucket(MAX_COMMANDS_PER_SECOND, start), earlier);
    TokensStayInRange(Bucket(MAX_COMMANDS_PER_SECOND, start), earlier, burst);
    FullAgainIff(b, burst[0]);
    RapidCallsStarve(Next(b, burst[0]), burst[1..]);
  }

  /** Calls a tenth of a second apart. */
  ghost predicate Paced(last: int, times: seq<int>)
    decreases |times|
  {
    times == [] || (times[0] - last >= 100_000_000 && Paced(times[0], times[1..]))
  }

  /** They are all admitted, even from an empty bucket. */
  lemma {:induction false} PacedCallsAdmitted(b: Bucket, times: seq<int>)
    requires Sane(b) && Paced(b.last, times)
    ensures Admitted(b, times) == |times|
    decreases |times|
  {
    if times != [] {
      FullAgainIff(b, times[0]);
      PacedCallsAdmitted(Next(b, times[0]), times[1..]);
    }
  }

  // ---------- what truncation loses ----------

  /** Tokens granted by the refills at `times`, before any cap. */
  function Granted(last: int, times: seq<int>): int
    decreases |times|
  {
    if times == [] then 0 else Refill(times[0] - last) + Granted(times[0], times[1..])
  }

  /** Nanoseconds that earned nothing, call by call. */
  function Lost(last: int, times: seq<int>): int
    decreases |times|
  {
    if times == [] then 0 else (times[0] - last) % NANOS_PER_TOKEN + Lost(times[0], times[1..])
  }

  ghost predicate WholeGaps(last: int, times: seq<int>)
    decreases |times|
  {
    times == [] || ((times[0] - last) % NANOS_PER_TOKEN == 0 && WholeGaps(times[0], times[1..]))
  }

  /**
   * The refill equals the elapsed time exactly when every gap is a whole number of tokens, and
   * falls short of it by no whole token exactly when the lost fractions stay below one.
   */
  lemma {:induction false} RefillProportionalIff(last: int, times: seq<int>)
    requires times != [] && Monotone(last, times)
    ensures Granted(last, times) * NANOS_PER_TOKEN + Lost(last, times) == times[|times| - 1] - last
    ensures 0 <= Lost(last, times)
    ensures Granted(last, times) * NANOS_PER_TOKEN == times[|times| - 1] - last <==> WholeGaps(last, times)
    ensures Granted(last, times) == (times[|times| - 1] - last) / NANOS_PER_TOKEN
       <==> Lost(last, times) < NANOS_PER_TOKEN
    decreases |times|
  {
    if |times| > 1 {
      RefillProportionalIff(times[0], times[1..]);
    } else {
      assert times[1..] == [];
    }
  }

  /** Calls that never leave a full tenth of a second between them drain the bucket for good. */
  ghost predicate Rapid(last: int, times: seq<int>)
    decreases |times|
  {
    times == [] || (0 <= times[0] - last < 100_000_000 && Rapid(times[0], times[1..]))
  }

  /**
   * The fractional refill is lost on every call: under rapid calls no token ever comes
   * back, however long the run lasts.
   */
  lemma {:induction false} RapidCallsStarve(b: Bucket, times: seq<int>)
    requires Sane(b) && Rapid(b.last, times)
    ensures Admitted(b, times) == if |times| <= b.tokens then |times| else b.tokens
    decreases |times|
  {
    if times != [] { RapidCallsStarve(Next(b, times[0]), times[1..]); }
  }
}
