/**
 * Sends and the reconnect drain interleaved: every section under a mutex is one step,
 * any number of sends run at once, and there is one drain at a time.
 */
module DeliveryProtocol {
  import opened Sequences
  import opened AgentBuffer

  /** Where a running `Send` stands: it has read the connection state, or its write has failed. */
  datatype Phase = Snapped(online: bool) | WriteFailed

  datatype Sending = Sending(message: Message, phase: Phase)

  /** The reconnect loop: writing out the drained list, or pushing its rest back after a failure. */
  datatype Drain = Idle | Writing(rest: seq<Message>) | Returning(rest: seq<Message>)

  datatype State = State(
    connected: bool, buffer: seq<Message>, drain: Drain, sends: seq<Sending>,
    accepted: seq<Message>, written: seq<Message>, evicted: seq<Message>)

  datatype Step =
    | Connect | Disconnect
    | Accept(message: Message)      // Send is called and reads the connection state
    | Buffer(index: nat)            // an offline or failed send pushes
    | Write(index: nat, ok: bool)   // an online send writes
    | StartDrain
    | DrainWrite(ok: bool)
    | DrainReturn
    | EndDrain

  const START := State(false, [], Idle, [], [], [], [])

  predicate Enabled(s: State, step: Step) {
    match step
    case Connect => s.drain.Idle?
    case Disconnect => true
    case Accept(_) => true
    case Buffer(i) => i < |s.sends| && s.sends[i].phase != Snapped(true)
    case Write(i, _) => i < |s.sends| && s.sends[i].phase == Snapped(true)
    case StartDrain => s.drain.Idle?
    case DrainWrite(_) => s.drain.Writing? && s.drain.rest != []
    case DrainReturn => s.drain.Returning? && s.drain.rest != []
    case EndDrain => !s.drain.Idle? && s.drain.rest == []
  }

  /** A push, and the message it overwrites when the ring is full. */
  function Pushed(s: State, m: Message, capacity: nat): State {
    s.(buffer := BoundedPush(s.buffer, m, capacity),
       evicted := if |s.buffer| >= capacity > 0 then s.evicted + [s.buffer[0]] else s.evicted)
  }

  function Apply(s: State, step: Step, capacity: nat): State
    requires Enabled(s, step)
  {
    match step
    case Connect => s.(connected := true)
    case Disconnect => s.(connected := false)
    case Accept(m) => s.(accepted := s.accepted + [m], sends := s.sends + [Sending(m, Snapped(s.connected))])
    case Buffer(i) => Pushed(s, s.sends[i].message, capacity).(sends := RemoveAt(s.sends, i))
    case Write(i, ok) =>
      if ok then s.(written := s.written + [s.sends[i].message], sends := RemoveAt(s.sends, i))
      else s.(sends := s.sends[i := Sending(s.sends[i].message, WriteFailed)])
    case StartDrain => s.(drain := Writing(s.buffer), buffer := [])
    case DrainWrite(ok) =>
      if ok then s.(written := s.written + [s.drain.rest[0]], drain := Writing(s.drain.rest[1..]))
      else s.(drain := Returning(s.drain.rest))
    case DrainReturn => Pushed(s, s.drain.rest[0], capacity).(drain := Returning(s.drain.rest[1..]))
    case EndDrain => s.(drain := Idle)
  }

  ghost predicate IsRun(s: State, steps: seq<Step>, capacity: nat)
    decreases |steps|
  {
    steps == [] || (Enabled(s, steps[0]) && IsRun(Apply(s, steps[0], capacity), steps[1..], capacity))
  }

  ghost function Final(s: State, steps: seq<Step>, capacity: nat): State
    requires IsRun(s, steps, capacity)
    decreases |steps|
  {
    if steps == [] then s else Final(Apply(s, steps[0], capacity), steps[1..], capacity)
  }

  // ---------- one caller alone ----------

  /** A send that nothing interrupts. */
  function SendRun(s: State, m: Message, ok: bool): seq<Step> {
    var n := |s.sends|;
    [Accept(m)] + if !s.connected then [Buffer(n)] else if ok then [Write(n, true)] else [Write(n, false), Buffer(n)]
  }

  /** It ends in the written messages if it was online and the write went well, and in the buffer otherwise. */
  lemma SendIsRun(s: State, m: Message, ok: bool, capacity: nat)
    ensures IsRun(s, SendRun(s, m, ok), capacity)
    ensures var accepted := s.(accepted := s.accepted + [m]);
            Final(s, SendRun(s, m, ok), capacity)
              == if s.connected && ok then accepted.(written := s.written + [m]) else Pushed(accepted, m, capacity)
  {
    hide BoundedPush;
    var n, run := |s.sends|, SendRun(s, m, ok);
    var first := Apply(s, Accept(m), capacity);
    assert run[0] == Accept(m) && RemoveAt(first.sends, n) == s.sends;
    if s.connected && !ok {
      var second := Apply(first, Write(n, false), capacity);
      assert RemoveAt(second.sends, n) == s.sends;
      assert run[1..] == [Write(n, false), Buffer(n)] && run[1..][1..] == [Buffer(n)];
      OneStep(second, Buffer(n), capacity);
    } else {
      var last := if s.connected then Write(n, true) else Buffer(n);
      assert run[1..] == [last];
      OneStep(first, last, capacity);
    }
  }

  lemma OneStep(s: State, step: Step, capacity: nat)
    requires Enabled(s, step)
    ensures IsRun(s, [step], capacity) && Final(s, [step], capacity) == Apply(s, step, capacity)
  {
    hide Apply, Enabled;
    assert [step][1..] == [];
    assert IsRun(Apply(s, step, capacity), [], capacity);
  }

  lemma FirstStep(s: State, step: Step, steps: seq<Step>, capacity: nat)
    requires Enabled(s, step) && IsRun(Apply(s, step, capacity), steps, capacity)
    ensures IsRun(s, [step] + steps, capacity)
    ensures Final(s, [step] + steps, capacity) == Final(Apply(s, step, capacity), steps, capacity)
  {
    hide Apply, Enabled;
    assert ([step] + steps)[1..] == steps;
  }

  function ReturnRun(rest: seq<Message>): seq<Step> {
    if rest == [] then [EndDrain] else [DrainReturn] + ReturnRun(rest[1..])
  }

  function WriteRun(rest: seq<Message>, failAt: nat): seq<Step>
    decreases |rest|
  {
    if rest == [] then [EndDrain]
    else if failAt == 0 then [DrainWrite(false)] + ReturnRun(rest)
    else [DrainWrite(true)] + WriteRun(rest[1..], failAt - 1)
  }

  /** A drain that nothing interrupts, whose write at index `failAt` fails, if there is one. */
  function FlushRun(buffered: seq<Message>, failAt: nat): seq<Step> { [StartDrain] + WriteRun(buffered, failAt) }

  lemma {:induction false} ReturnIsRun(s: State, rest: seq<Message>, capacity: nat)
    requires s.drain == Returning(rest) && |s.buffer| + |rest| <= capacity
    ensures IsRun(s, ReturnRun(rest), capacity)
    ensures Final(s, ReturnRun(rest), capacity) == s.(drain := Idle, buffer := s.buffer + rest)
    decreases |rest|
  {
    if rest == [] {
      OneStep(s, EndDrain, capacity);
      assert s.buffer + rest == s.buffer;
    } else {
      hide IsRun, Final;
      var next := Apply(s, DrainReturn, capacity);
      ReturnIsRun(next, rest[1..], capacity);
      FirstStep(s, DrainReturn, ReturnRun(rest[1..]), capacity);
      assert next.buffer + rest[1..] == s.buffer + rest;
    }
  }

  lemma {:induction false} WriteIsRun(s: State, rest: seq<Message>, failAt: nat, capacity: nat)
    requires s.drain == Writing(rest) && s.buffer == [] && |rest| <= capacity
    ensures IsRun(s, WriteRun(rest, failAt), capacity)
    ensures var k := Min(failAt, |rest|);
            Final(s, WriteRun(rest, failAt), capacity)
              == s.(drain := Idle, written := s.written + rest[..k], buffer := rest[k..])
    decreases |rest|
  {
    hide IsRun, Final, Pushed;
    if rest == [] {
      OneStep(s, EndDrain, capacity);
      assert s.written + [] == s.written;
    } else if failAt == 0 {
      var failed := Apply(s, DrainWrite(false), capacity);
      assert failed == s.(drain := Returning(rest));
      ReturnIsRun(failed, rest, capacity);
      FirstStep(s, DrainWrite(false), ReturnRun(rest), capacity);
      assert s.written + [] == s.written && [] + rest == rest;
    } else {
      var next := Apply(s, DrainWrite(true), capacity);
      assert next == s.(written := s.written + [rest[0]], drain := Writing(rest[1..]));
      hide Apply, Enabled;
      assert Enabled(s, DrainWrite(true));
      WriteIsRun(next, rest[1..], failAt - 1, capacity);
      FirstStep(s, DrainWrite(true), WriteRun(rest[1..], failAt - 1), capacity);
      WrittenPrefix(s.written, rest, Min(failAt, |rest|));
    }
  }

  lemma WrittenPrefix(written: seq<Message>, rest: seq<Message>, k: nat)
    requires 0 < k <= |rest|
    ensures written + [rest[0]] + rest[1..][..k - 1] == written + rest[..k]
    ensures rest[1..][k - 1..] == rest[k..]
  {
    assert rest == [rest[0]] + rest[1..];
  }

  /** The drain writes up to the point of failure and puts the rest back. */
  lemma FlushIsRun(s: State, failAt: nat, capacity: nat)
    requires s.drain.Idle? && |s.buffer| <= capacity
    ensures IsRun(s, FlushRun(s.buffer, failAt), capacity)
    ensures var k := Min(failAt, |s.buffer|);
            Final(s, FlushRun(s.buffer, failAt), capacity)
              == s.(written := s.written + s.buffer[..k], buffer := s.buffer[k..])
  {
    WriteIsRun(Apply(s, StartDrain, capacity), s.buffer, failAt, capacity);
    FirstStep(s, StartDrain, WriteRun(s.buffer, failAt), capacity);
  }

  function ConnectRun(buffered: seq<Message>, failAt: nat): seq<Step> { [Connect] + FlushRun(buffered, failAt) }

  lemma ConnectIsRun(s: State, failAt: nat, capacity: nat)
    requires s.drain.Idle? && |s.buffer| <= capacity
    ensures IsRun(s, ConnectRun(s.buffer, failAt), capacity)
    ensures var k := Min(failAt, |s.buffer|);
            Final(s, ConnectRun(s.buffer, failAt), capacity)
              == s.(connected := true, written := s.written + s.buffer[..k], buffer := s.buffer[k..])
  {
    hide IsRun, Final;
    FlushIsRun(Apply(s, Connect, capacity), failAt, capacity);
    FirstStep(s, Connect, FlushRun(s.buffer, failAt), capacity);
  }

  // ---------- the ledger ----------

  /** How often `m` occurs. */
  ghost function Times(messages: seq<Message>, m: Message): nat { multiset(messages)[m] }

  lemma TimesAppend(messages: seq<Message>, x: Message, m: Message)
    ensures Times(messages + [x], m) == Times(messages, m) + if x == m then 1 else 0
  {
  }

  lemma TimesTail(messages: seq<Message>, m: Message)
    requires messages != []
    ensures Times(messages, m) == Times(messages[1..], m) + if messages[0] == m then 1 else 0
  {
    TailMultiset(messages);
  }

  ghost function InFlight(sends: seq<Sending>, m: Message): nat {
    if sends == [] then 0 else (if sends[0].message == m then 1 else 0) + InFlight(sends[1..], m)
  }

  function Held(drain: Drain): seq<Message> { if drain.Idle? then [] else drain.rest }

  /** In how many of the five places `m` is found. */
  ghost function Places(s: State, m: Message): nat {
    Times(s.written, m) + Times(s.buffer, m) + Times(s.evicted, m) + Times(Held(s.drain), m) + InFlight(s.sends, m)
  }

  /** Every accepted message is somewhere, exactly as often as it was accepted. */
  ghost predicate Ledger(s: State, m: Message) { Times(s.accepted, m) == Places(s, m) }

  /** Sizes: the same ledger by number, and what an eviction presupposes. */
  ghost predicate Sizes(s: State, capacity: nat) {
    && |s.buffer| <= capacity
    && |s.accepted| == |s.written| + |s.buffer| + |s.evicted| + |Held(s.drain)| + |s.sends|
    && (s.evicted != [] ==> |s.accepted| > capacity)
  }

  lemma {:induction false} InFlightRemove(sends: seq<Sending>, i: nat, m: Message)
    requires i < |sends|
    ensures InFlight(sends, m) == InFlight(RemoveAt(sends, i), m) + if sends[i].message == m then 1 else 0
  {
    if i == 0 {
      assert RemoveAt(sends, 0) == sends[1..];
    } else {
      InFlightRemove(sends[1..], i - 1, m);
      assert RemoveAt(sends, i)[1..] == RemoveAt(sends[1..], i - 1);
    }
  }

  lemma {:induction false} InFlightAppend(sends: seq<Sending>, x: Sending, m: Message)
    ensures InFlight(sends + [x], m) == InFlight(sends, m) + if x.message == m then 1 else 0
  {
    if sends == [] {
      assert [x][1..] == [];
    } else {
      assert (sends + [x])[1..] == sends[1..] + [x];
      InFlightAppend(sends[1..], x, m);
    }
  }

  lemma InFlightUpdate(sends: seq<Sending>, i: nat, phase: Phase, m: Message)
    requires i < |sends|
    ensures InFlight(sends[i := Sending(sends[i].message, phase)], m) == InFlight(sends, m)
  {
    var after := sends[i := Sending(sends[i].message, phase)];
    InFlightRemove(sends, i, m);
    InFlightRemove(after, i, m);
    assert RemoveAt(after, i) == RemoveAt(sends, i);
  }

  /** A push moves its message into the buffer, and at most one other from there to the evicted. */
  lemma PushLedger(s: State, x: Message, capacity: nat, m: Message)
    requires |s.buffer| <= capacity && capacity > 0
    ensures var p := Pushed(s, x, capacity);
            && Times(p.buffer, m) + Times(p.evicted, m)
               == Times(s.buffer, m) + Times(s.evicted, m) + (if x == m then 1 else 0)
            && |p.buffer| + |p.evicted| == |s.buffer| + |s.evicted| + 1
            && |p.buffer| <= capacity && (p.evicted != s.evicted ==> |s.buffer| == capacity)
  {
    hide Times, LastN;
    if |s.buffer| == capacity {
      TimesTail(s.buffer, m);
      TimesAppend(s.evicted, s.buffer[0], m);
      TimesAppend(s.buffer[1..], x, m);
    } else {
      TimesAppend(s.buffer, x, m);
    }
  }

  lemma StepKeepsLedger(s: State, step: Step, capacity: nat, m: Message)
    requires Sizes(s, capacity) && Ledger(s, m) && Enabled(s, step) && capacity > 0
    ensures Sizes(Apply(s, step, capacity), capacity) && Ledger(Apply(s, step, capacity), m)
  {
    hide Times, InFlight, BoundedPush;
    match step {
      case Connect =>
      case Disconnect =>
      case Accept(x) =>
        TimesAppend(s.accepted, x, m);
        InFlightAppend(s.sends, Sending(x, Snapped(s.connected)), m);
      case Buffer(i) =>
        PushLedger(s, s.sends[i].message, capacity, m);
        InFlightRemove(s.sends, i, m);
      case Write(i, ok) =>
        TimesAppend(s.written, s.sends[i].message, m);
        InFlightRemove(s.sends, i, m);
        InFlightUpdate(s.sends, i, WriteFailed, m);
      case StartDrain => NoneOf(m);
      case DrainWrite(ok) =>
        TimesTail(s.drain.rest, m);
        TimesAppend(s.written, s.drain.rest[0], m);
      case DrainReturn =>
        PushLedger(s, s.drain.rest[0], capacity, m);
        TimesTail(s.drain.rest, m);
      case EndDrain => NoneOf(m);
    }
  }

  lemma NoneOf(m: Message)
    ensures Times([], m) == 0
  {
  }

  lemma {:induction false} RunKeepsLedger(s: State, steps: seq<Step>, capacity: nat, m: Message)
    requires Sizes(s, capacity) && Ledger(s, m) && capacity > 0 && IsRun(s, steps, capacity)
    ensures Sizes(Final(s, steps, capacity), capacity) && Ledger(Final(s, steps, capacity), m)
    decreases |steps|
  {
    hide Apply, Ledger, Sizes;
    if steps != [] {
      StepKeepsLedger(s, steps[0], capacity, m);
      RunKeepsLedger(Apply(s, steps[0], capacity), steps[1..], capacity, m);
    }
  }

  /** After any interleaving, each message is found in the five places as often as it was accepted. */
  lemma LedgerHolds(steps: seq<Step>, capacity: nat, m: Message)
    requires capacity > 0 && IsRun(START, steps, capacity)
    ensures Sizes(Final(START, steps, capacity), capacity) && Ledger(Final(START, steps, capacity), m)
  {
    RunKeepsLedger(START, steps, capacity, m);
  }

  /** With no send and no drain running, each message is written, buffered or evicted as often as it was accepted. */
  lemma QuiescentLedger(steps: seq<Step>, capacity: nat, m: Message)
    requires capacity > 0 && IsRun(START, steps, capacity)
    requires Final(START, steps, capacity).drain.Idle? && Final(START, steps, capacity).sends == []
    ensures var s := Final(START, steps, capacity);
            Times(s.accepted, m) == Times(s.written, m) + Times(s.buffer, m) + Times(s.evicted, m)
  {
    RunKeepsLedger(START, steps, capacity, m);
  }

  /** As long as no more messages were accepted than the buffer holds, no interleaving loses one. */
  lemma NoLossWithinCapacity(steps: seq<Step>, capacity: nat)
    requires capacity > 0 && IsRun(START, steps, capacity)
    requires |Final(START, steps, capacity).accepted| <= capacity
    ensures Final(START, steps, capacity).evicted == []
  {
    RunKeepsLedger(START, steps, capacity, []);
  }
}
