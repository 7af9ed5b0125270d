/** The duplicate-send gate of the chat input: a click on the send button
    or Enter without Shift asks to send, and the gate lets the request
    through only when no send is being processed and at least 300 ms have
    passed since the last accepted one. The processing flag is cleared by
    a timer 200 ms after acceptance. Time is an explicit millisecond
    reading (`Date.now()`); the timer is an explicit event. */
module SubmissionGate {
  import opened Base

  /** Minimum distance between accepted sends, in milliseconds. */
  const MinInterval: int := 300

  /** Delay of the timer that clears the processing flag. */
  const ReleaseDelay: int := 200

  /** The two closure variables `isProcessingSend` and `lastSendTime`, and
      the due time of the pending release timer, if any. */
  datatype Gate = Gate(processing: bool, lastSend: int, releaseAt: Option<int>)

  /** State right after `bindEvents`. */
  const Initial: Gate := Gate(false, 0, None)

  /** Where a send request came from. */
  datatype Source = Click | EnterKey

  /** What one call of `safeSendMessage` did: the new state, whether
      `handleSendMessage` ran, and whether its exception escaped. */
  datatype Attempted = Attempted(gate: Gate, handled: bool, raised: bool)

  /** The guard of `safeSendMessage`. */
  predicate Rejects(g: Gate, now: int) {
    now - g.lastSend < MinInterval || g.processing
  }

  /** `safeSendMessage(source)` at clock reading `now`; `handlerThrows`
      says whether `handleSendMessage` throws. The `finally` block
      schedules the release either way. */
  function Attempt(g: Gate, source: Source, now: int, handlerThrows: bool): (r: Attempted)
    ensures r.handled <==> !Rejects(g, now)
    ensures !r.handled ==> r.gate == g && !r.raised
    ensures r.handled ==> r.gate.processing && r.gate.lastSend == now
                          && r.gate.releaseAt == Some(now + ReleaseDelay)
    ensures r.raised <==> r.handled && handlerThrows
  {
    if Rejects(g, now) then Attempted(g, false, false)
    else Attempted(Gate(true, now, Some(now + ReleaseDelay)), true, handlerThrows)
  }

  /** The release timer runs when its due time has come. */
  function Tick(g: Gate, now: int): (r: Gate)
    ensures r.lastSend == g.lastSend
    ensures g.releaseAt.Some? && g.releaseAt.value <= now ==> !r.processing && r.releaseAt.None?
    ensures !(g.releaseAt.Some? && g.releaseAt.value <= now) ==> r == g
  {
    if g.releaseAt.Some? && g.releaseAt.value <= now then Gate(false, g.lastSend, None) else g
  }

  /** The `keydown` listener: only Enter without Shift asks to send. */
  function KeySource(key: string, shift: bool): (r: Option<Source>)
    ensures r.Some? ==> r.value == EnterKey
  {
    if key == "Enter" && !shift then Some(EnterKey) else None
  }

  /** Browser events reaching the gate. */
  datatype Event =
    | ClickEvent(time: int)
    | KeyEvent(time: int, key: string, shift: bool)
    | TimerEvent(time: int)

  /** Which source an event asks to send from, if any. */
  function SendSource(e: Event): Option<Source> {
    match e
    case ClickEvent(_) => Some(Click)
    case KeyEvent(_, key, shift) => KeySource(key, shift)
    case TimerEvent(_) => None
  }

  /** One event; `handlerThrows` is irrelevant to the state, so the trace
      does not record it. Returns the new state and whether a send was
      accepted. */
  function Step(g: Gate, e: Event): (Gate, bool) {
    match e
    case TimerEvent(t) => (Tick(g, t), false)
    case _ =>
      match SendSource(e)
      case None => (g, false)
      case Some(src) =>
        var a := Attempt(g, src, e.time, false);
        (a.gate, a.handled)
  }

  /** Run a trace of events; returns the final state and the clock
      readings of the accepted sends, in order. */
  function Run(g: Gate, events: seq<Event>): (Gate, seq<int>)
    decreases |events|
  {
    if |events| == 0 then (g, [])
    else
      var (g1, ok) := Step(g, events[0]);
      var (gn, rest) := Run(g1, events[1..]);
      (gn, if ok then [events[0].time] + rest else rest)
  }

  /** Consecutive elements of `ts` are at least `MinInterval` apart. */
  predicate Spaced(ts: seq<int>) {
    forall a :: 0 <= a < |ts| - 1 ==> ts[a] + MinInterval <= ts[a + 1]
  }

  /** Accepted sends are spaced by at least 300 ms, the first one at least
      300 ms after the starting `lastSendTime`, and the final
      `lastSendTime` is the last accepted time. This holds for clicks and
      Enter presses alike and needs no assumption on the clock. */
  lemma {:induction false} RunSpaced(g: Gate, events: seq<Event>)
    ensures Spaced(Run(g, events).1)
    ensures |Run(g, events).1| > 0 ==> g.lastSend + MinInterval <= Run(g, events).1[0]
    ensures |Run(g, events).1| > 0 ==>
              Run(g, events).0.lastSend == Run(g, events).1[|Run(g, events).1| - 1]
    ensures |Run(g, events).1| == 0 ==> Run(g, events).0.lastSend == g.lastSend
    decreases |events|
  {
    if |events| > 0 {
      var (g1, ok) := Step(g, events[0]);
      RunSpaced(g1, events[1..]);
      var rest := Run(g1, events[1..]).1;
      var acc := Run(g, events).1;
      if ok {
        assert g1.lastSend == events[0].time;
        assert acc == [events[0].time] + rest;
        forall a | 0 <= a < |acc| - 1 ensures acc[a] + MinInterval <= acc[a + 1] {
          if a > 0 {
            assert acc[a] == rest[a - 1] && acc[a + 1] == rest[a];
          }
        }
      } else {
        assert g1.lastSend == g.lastSend;
        assert acc == rest;
      }
    }
  }

  /** Any two accepted sends, not just neighbours, are 300 ms apart or
      more; in particular no two accepted sends share a timestamp. */
  lemma {:induction false} SpacedPairwise(ts: seq<int>, a: nat, b: nat)
    requires Spaced(ts) && a < b < |ts|
    ensures ts[a] + MinInterval * (b - a) <= ts[b]
    decreases b - a
  {
    if a + 1 < b {
      SpacedPairwise(ts, a + 1, b);
    }
  }

  /** The pending timer is exactly the one scheduled by the last accepted
      send, and it is pending while the flag is set. */
  predicate Consistent(g: Gate) {
    && (g.processing <==> g.releaseAt.Some?)
    && (g.releaseAt.Some? ==> g.releaseAt.value == g.lastSend + ReleaseDelay)
  }

  lemma StepConsistent(g: Gate, e: Event)
    requires Consistent(g)
    ensures Consistent(Step(g, e).0)
  {
  }

  /** If the release timer runs on time (it is given the chance to fire
      before the next send request is handled), the flag never decides
      anything: the gate accepts exactly when 300 ms have passed since
      the last accepted send, because the 200 ms release is shorter than
      the 300 ms interval. */
  lemma FlagRedundant(g: Gate, source: Source, now: int, handlerThrows: bool)
    requires Consistent(g)
    ensures Attempt(Tick(g, now), source, now, handlerThrows).handled <==>
              now - g.lastSend >= MinInterval
  {
  }

  /** Whether the handler throws changes neither the state nor whether the
      send was handled: the release is scheduled in a `finally` block. */
  lemma ThrowIrrelevant(g: Gate, source: Source, now: int)
    ensures Attempt(g, source, now, true).gate == Attempt(g, source, now, false).gate
    ensures Attempt(g, source, now, true).handled == Attempt(g, source, now, false).handled
  {
  }

  /** Click and Enter without Shift go through the same gate with the same
      effect; Shift+Enter and other keys never send and change nothing. */
  lemma AdaptersShareGate(g: Gate, now: int, key: string, shift: bool)
    ensures Step(g, KeyEvent(now, "Enter", false)) == Step(g, ClickEvent(now))
    ensures SendSource(KeyEvent(now, key, shift)).Some? <==> key == "Enter" && !shift
    ensures !(key == "Enter" && !shift) ==> Step(g, KeyEvent(now, key, shift)) == (g, false)
  {
  }

  /** A click at 1000 ms, its release at 1200 ms, Enter at 1250 ms and
      again at 1300 ms: the first Enter is refused by the interval check
      although the flag is already clear, the second is accepted. */
  lemma DoublePressRefused()
    ensures Run(Initial, [ClickEvent(1000), TimerEvent(1200), KeyEvent(1250, "Enter", false),
                          KeyEvent(1300, "Enter", false)]).1 == [1000, 1300]
  {
  }
}
