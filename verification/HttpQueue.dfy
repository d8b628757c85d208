/** The queue of HTTP requests: one operation in flight, callers resumed in turn and free to submit again at once. */
module HttpQueue {
  // How a caller's wait ends: no exception, a transport error, or the session was reset.
  datatype Outcome = Done | Failed(error: nat) | SessionReset

  /**
   * The operation in flight: being connected, or exchanging messages over the stream. It records the caller at the front
   * of the queue when it was started, and the one whose request was at the front when it was written.
   */
  datatype Phase = Idle | Connecting(caller: nat) | Exchanging(caller: nat)

  datatype Resumption = Resumption(caller: nat, outcome: Outcome)

  /**
   * The members of the gateway that the queue uses, and its history: the callers accepted into the queue, those turned
   * away, the resumptions in order, and the outcomes that the transport reported, with the caller of the operation.
   */
  datatype State = State(
    queue: seq<nat>, exception: Outcome, terminate: bool, phase: Phase, stream: bool, timer: bool,
    accepted: seq<nat>, rejected: seq<nat>, resumed: seq<Resumption>, transport: seq<Resumption>)

  const START: State := State([], Done, false, Idle, false, false, [], [], [], [])

  // subs says what each caller submits synchronously when it is resumed.
  datatype Event =
    | Submit(caller: nat)
    | Connected
    | EndOfStream
    | Complete(outcome: Outcome, keepAlive: bool, subs: map<nat, seq<nat>>)
    | TimerExpired
    | Terminate

  function SubsOf(subs: map<nat, seq<nat>>, caller: nat): seq<nat> {
    if caller in subs then subs[caller] else []
  }

  function AllSubs(subs: map<nat, seq<nat>>, callers: seq<nat>): seq<nat> {
    if callers == [] then [] else AllSubs(subs, callers[..|callers| - 1]) + SubsOf(subs, callers[|callers| - 1])
  }

  function Resets(callers: seq<nat>): seq<Resumption> {
    seq(|callers|, i requires 0 <= i < |callers| => Resumption(callers[i], SessionReset))
  }

  /** A batch of submissions made in a row. */
  function Submitted(s: State, callers: seq<nat>): State {
    if s.terminate then s.(rejected := s.rejected + callers)
    else
      s.(queue := s.queue + callers, accepted := s.accepted + callers,
         phase := if s.queue == [] && callers != [] then Connecting(callers[0]) else s.phase)
  }

  /** The finished request leaves the queue, and the next one is started. */
  function Popped(s: State, e: Event): State
    requires e.Complete? && s.queue != [] && s.phase != Idle
  {
    var kept := e.outcome == Done && e.keepAlive;
    s.(queue := s.queue[1..], exception := e.outcome, phase := if |s.queue| == 1 then Idle else Connecting(s.queue[1]),
       stream := s.stream && kept, timer := s.timer || kept,
       resumed := s.resumed + [Resumption(s.queue[0], e.outcome)], transport := s.transport + [Resumption(s.phase.caller, e.outcome)])
  }

  /** The completion handler. */
  function Completed(s: State, e: Event): State
    requires e.Complete? && s.queue != [] && s.phase != Idle
  {
    var caller, rest := s.queue[0], s.queue[1..];
    if s.terminate then
      s.(queue := [], phase := Idle, exception := SessionReset, stream := false,
         resumed := s.resumed + [Resumption(caller, e.outcome)] + Resets(rest), transport := s.transport + [Resumption(s.phase.caller, e.outcome)],
         rejected := s.rejected + SubsOf(e.subs, caller) + AllSubs(e.subs, rest))
    else
      Submitted(Popped(s, e), SubsOf(e.subs, caller))
  }

  predicate Enabled(s: State, e: Event) {
    match e
    case Connected => s.phase.Connecting? && s.queue != []
    case EndOfStream => s.phase.Exchanging?
    case Complete(outcome, _, _) => s.phase != Idle && s.queue != [] && outcome != SessionReset
    case _ => true // a timer handler that is already queued runs in spite of a cancellation
  }

  function Step(s: State, e: Event): State
    requires Enabled(s, e)
  {
    match e
    case Submit(caller) => Submitted(s, [caller])
    case Connected => s.(stream := true, timer := false, phase := Exchanging(s.queue[0]))
    case EndOfStream => s.(stream := false, phase := Connecting(s.phase.caller))
    case Complete(_, _, _) => Completed(s, e)
    case TimerExpired => s.(timer := false, stream := s.stream && s.queue != [])
    case Terminate => s.(terminate := true, timer := false)
  }

  // ---------- The imperative queue ----------

  class Gateway {
    var httpQueue: seq<nat>
    var httpException: Outcome
    var httpTerminate: bool
    var httpPhase: Phase
    var httpStream: bool
    var httpTimer: bool
    ghost var accepted: seq<nat>
    ghost var rejected: seq<nat>
    ghost var resumed: seq<Resumption>
    ghost var transport: seq<Resumption>

    ghost function Now(): State
      reads this
    {
      State(httpQueue, httpException, httpTerminate, httpPhase, httpStream, httpTimer, accepted, rejected, resumed, transport)
    }

    constructor ()
      ensures Now() == START
    {
      httpQueue, httpException, httpTerminate, httpPhase, httpStream, httpTimer := [], Done, false, Idle, false, false;
      accepted, rejected, resumed, transport := [], [], [], [];
    }

    // http_start: an operation begins for the front of the queue; it never completes before this returns.
    method HttpStart()
      requires httpQueue != [] && httpPhase == Idle
      modifies this`httpPhase
      ensures httpPhase == Connecting(httpQueue[0])
    {
      httpPhase := Connecting(httpQueue[0]);
    }

    // http_coro has a stream, cancels the timer and writes the request at the front.
    method OnConnected()
      requires httpPhase.Connecting? && httpQueue != []
      modifies this
      ensures Now() == Step(old(Now()), Connected)
    {
      httpStream := true;
      httpTimer := false;
      httpPhase := Exchanging(httpQueue[0]);
    }

    // http_coro finds the stream closed by the other side, and starts over.
    method OnEndOfStream()
      requires httpPhase.Exchanging?
      modifies this
      ensures Now() == Step(old(Now()), EndOfStream)
    {
      httpStream := false;
      httpPhase := Connecting(httpPhase.caller);
    }

    // The handler of the idle timer.
    method OnTimer()
      modifies this
      ensures Now() == Step(old(Now()), TimerExpired)
    {
      httpTimer := false;
      if httpQueue == [] { httpStream := false; }
    }

    // Deferred by a fatal close, or posted by a signal.
    method OnTerminate()
      modifies this
      ensures Now() == Step(old(Now()), Terminate)
    {
      httpTerminate := true;
      httpTimer := false;
    }

    // DiscordRequestNoRetry up to its suspension; the exception of a terminated session goes to the caller directly.
    method Request(caller: nat)
      requires httpQueue == [] ==> httpPhase == Idle
      modifies this
      ensures Now() == Submitted(old(Now()), [caller])
    {
      if httpTerminate {
        rejected := rejected + [caller];
        return;
      }
      httpQueue := httpQueue + [caller];
      accepted := accepted + [caller];
      if |httpQueue| == 1 { HttpStart(); }
    }

    // coro.resume(): the caller reads the exception, then submits its further requests one after the other.
    method Resume(caller: nat, subs: seq<nat>)
      requires httpQueue == [] ==> httpPhase == Idle
      modifies this
      ensures Now() == Submitted(old(Now()).(resumed := old(resumed) + [Resumption(caller, old(httpException))]), subs)
    {
      resumed := resumed + [Resumption(caller, httpException)];
      ghost var s := Now();
      for i := 0 to |subs|
        invariant Now() == Submitted(s, subs[..i])
        invariant httpQueue == [] ==> httpPhase == Idle
      {
        SubmittedTwice(s, subs[..i], [subs[i]]);
        assert subs[..i + 1] == subs[..i] + [subs[i]];
        Request(subs[i]);
      }
      assert subs[..|subs|] == subs;
    }

    // The completion handler that http_start passes to the operation.
    method OnComplete(e: Event)
      requires e.Complete? && httpQueue != [] && httpPhase != Idle
      modifies this
      ensures Now() == Completed(old(Now()), e)
    {
      hide Submitted, SubsOf, Resets, AllSubs;
      var coro := PopFront(e.outcome);
      if !httpTerminate && e.outcome == Done && e.keepAlive {
        httpTimer := true;
      } else {
        httpStream := false;
      }
      if httpTerminate {
        Drain(coro, e.subs);
        return;
      }
      if httpQueue != [] { HttpStart(); }
      assert Now() == Popped(old(Now()), e).(resumed := old(resumed));
      Resume(coro, SubsOf(e.subs, coro));
    }

    // The finished request leaves the queue, and its outcome is kept for its caller.
    method PopFront(outcome: Outcome) returns (coro: nat)
      requires httpQueue != [] && httpPhase != Idle
      modifies this
      ensures coro == old(httpQueue)[0]
      ensures Now() == old(Now()).(queue := old(httpQueue)[1..], exception := outcome, phase := Idle,
                transport := old(transport) + [Resumption(old(httpPhase).caller, outcome)])
    {
      coro := httpQueue[0];
      transport := transport + [Resumption(httpPhase.caller, outcome)];
      httpQueue := httpQueue[1..];
      httpPhase := Idle;
      httpException := outcome;
    }

    // The catch block: the finished caller sees its own outcome, every other one the reset.
    method Drain(coro: nat, subs: map<nat, seq<nat>>)
      requires httpTerminate && httpPhase == Idle
      modifies this
      ensures Now() == old(Now()).(queue := [], exception := SessionReset,
                resumed := old(resumed) + [Resumption(coro, old(httpException))] + Resets(old(httpQueue)),
                rejected := old(rejected) + SubsOf(subs, coro) + AllSubs(subs, old(httpQueue)))
    {
      Resume(coro, SubsOf(subs, coro));
      httpException := SessionReset;
      ghost var s := Now();
      // The queue is iterated while callers are resumed: they cannot push to it, as the session is terminating.
      for i := 0 to |httpQueue|
        invariant httpQueue == s.queue
        invariant Now() == Reset(s, subs, s.queue[..i])
      {
        ResetOneMore(s, subs, i);
        Resume(httpQueue[i], SubsOf(subs, httpQueue[i]));
      }
      assert s.queue[..|s.queue|] == s.queue;
      httpQueue := [];
    }
  }

  ghost function Reset(s: State, subs: map<nat, seq<nat>>, callers: seq<nat>): State {
    s.(resumed := s.resumed + Resets(callers), rejected := s.rejected + AllSubs(subs, callers))
  }

  lemma ResetOneMore(s: State, subs: map<nat, seq<nat>>, i: nat)
    requires s.terminate && i < |s.queue|
    ensures var r := Reset(s, subs, s.queue[..i]);
            Submitted(r.(resumed := r.resumed + [Resumption(s.queue[i], SessionReset)]), SubsOf(subs, s.queue[i]))
            == Reset(s, subs, s.queue[..i + 1])
  {
    var before, after := s.queue[..i], s.queue[..i + 1];
    assert after[..i] == before;
    assert Resets(after) == Resets(before) + [Resumption(s.queue[i], SessionReset)];
    assert s.resumed + Resets(after) == s.resumed + Resets(before) + [Resumption(s.queue[i], SessionReset)];
    assert AllSubs(subs, after) == AllSubs(subs, before) + SubsOf(subs, s.queue[i]);
    assert s.rejected + AllSubs(subs, after) == s.rejected + AllSubs(subs, before) + SubsOf(subs, s.queue[i]);
  }

  lemma SubmittedTwice(s: State, a: seq<nat>, b: seq<nat>)
    ensures Submitted(Submitted(s, a), b) == Submitted(s, a + b)
  {
    if a == [] { assert a + b == b; } else { assert (a + b)[0] == a[0]; }
    assert s.queue + a + b == s.queue + (a + b);
    assert s.accepted + a + b == s.accepted + (a + b);
    assert s.rejected + a + b == s.rejected + (a + b);
  }

  // ---------- What every run keeps ----------

  function Callers(rs: seq<Resumption>): seq<nat> {
    seq(|rs|, i requires 0 <= i < |rs| => rs[i].caller)
  }

  ghost predicate InOrder(accepted: seq<nat>, resumed: seq<Resumption>, queue: seq<nat>) {
    accepted == Callers(resumed) + queue
  }

  ghost predicate OwnOutcomes(resumed: seq<Resumption>, transport: seq<Resumption>) {
    && transport <= resumed
    && (forall i :: 0 <= i < |transport| ==> transport[i].outcome != SessionReset)
    && (forall i :: |transport| <= i < |resumed| ==> resumed[i].outcome == SessionReset)
  }

  ghost predicate Inv(s: State) {
    // exactly one operation is in flight, for the front, whenever there is a front
    && (s.queue == [] <==> s.phase == Idle)
    && (s.phase != Idle ==> s.phase.caller == s.queue[0])
    && (s.phase.Exchanging? ==> s.stream)
    // first in, first out, nobody lost and nobody resumed twice
    && InOrder(s.accepted, s.resumed, s.queue)
    // the i-th resumption is the i-th completion, of the same caller and with its outcome, unless the session was reset before its turn
    && OwnOutcomes(s.resumed, s.transport)
    && (|s.transport| < |s.resumed| ==> s.terminate && s.queue == [])
  }

  lemma SubmittedKeepsInv(s: State, callers: seq<nat>)
    requires Inv(s)
    ensures Inv(Submitted(s, callers))
  {
  }

  lemma CallersAppend(a: seq<Resumption>, b: seq<Resumption>)
    ensures Callers(a + b) == Callers(a) + Callers(b)
  {
  }

  /** The front leaves the queue for the resumptions, followed by those that are reset with it. */
  lemma FrontIsResumed(resumed: seq<Resumption>, queue: seq<nat>, one: Resumption, resets: seq<Resumption>, left: seq<nat>)
    requires queue != [] && one.caller == queue[0] && queue[1..] == Callers(resets) + left
    ensures Callers(resumed) + queue == Callers(resumed + [one] + resets) + left
  {
    CallersAppend(resumed, [one]);
    CallersAppend(resumed + [one], resets);
    assert queue == [queue[0]] + queue[1..];
    assert Callers([one]) == [queue[0]];
  }

  lemma OwnOutcomesGrow(resumed: seq<Resumption>, transport: seq<Resumption>, one: Resumption, rest: seq<nat>)
    requires OwnOutcomes(resumed, transport) && |transport| == |resumed| && one.outcome != SessionReset
    ensures OwnOutcomes(resumed + [one] + Resets(rest), transport + [one])
  {
  }

  lemma CompletedKeepsInv(s: State, e: Event)
    requires Inv(s) && e.Complete? && Enabled(s, e)
    ensures Inv(Completed(s, e))
  {
    var one := Resumption(s.queue[0], e.outcome);
    var rest := s.queue[1..];
    if s.terminate {
      assert Callers(Resets(rest)) == rest;
      FrontIsResumed(s.resumed, s.queue, one, Resets(rest), []);
      OwnOutcomesGrow(s.resumed, s.transport, one, rest);
    } else {
      var s1 := Popped(s, e);
      FrontIsResumed(s.resumed, s.queue, one, [], rest);
      OwnOutcomesGrow(s.resumed, s.transport, one, []);
      assert s1.resumed + Resets([]) == s1.resumed;
      SubmittedKeepsInv(s1, SubsOf(e.subs, s.queue[0]));
    }
  }

  lemma StepKeepsInv(s: State, e: Event)
    requires Inv(s) && Enabled(s, e)
    ensures Inv(Step(s, e))
  {
    match e {
      case Submit(caller) => SubmittedKeepsInv(s, [caller]);
      case Complete(_, _, _) => CompletedKeepsInv(s, e);
      case _ =>
    }
  }

  /** A run is any sequence of events, each of them possible when it happens. */
  ghost predicate Possible(s: State, events: seq<Event>)
    decreases |events|
  {
    events == [] || (Enabled(s, events[0]) && Possible(Step(s, events[0]), events[1..]))
  }

  ghost function Run(s: State, events: seq<Event>): State
    requires Possible(s, events)
    decreases |events|
  {
    if events == [] then s else Run(Step(s, events[0]), events[1..])
  }

  lemma {:induction false} RunKeepsInv(s: State, events: seq<Event>)
    requires Inv(s) && Possible(s, events)
    ensures Inv(Run(s, events))
    decreases |events|
  {
    hide Inv;
    if events != [] {
      StepKeepsInv(s, events[0]);
      RunKeepsInv(Step(s, events[0]), events[1..]);
    }
  }

  /** At any point of any run: a caller in the queue waits for its one resumption; one that left it has had it. */
  lemma ResumedExactlyOnce(events: seq<Event>, i: nat)
    requires Possible(START, events) && i < |Run(START, events).accepted|
    ensures var s := Run(START, events); |s.resumed| + |s.queue| == |s.accepted|
    ensures var s := Run(START, events);
            if i < |s.resumed| then
              s.resumed[i].caller == s.accepted[i]
              && s.resumed[i] == (if i < |s.transport| then s.transport[i] else Resumption(s.accepted[i], SessionReset))
            else
              s.queue[i - |s.resumed|] == s.accepted[i]
  {
    var s := Run(START, events);
    RunKeepsInv(START, events);
    assert s.accepted[i] == (Callers(s.resumed) + s.queue)[i];
  }

  /** The stream that an exchange runs over is not shut down by the idle timer. */
  lemma TimerSparesExchange(s: State)
    requires Inv(s) && s.phase.Exchanging?
    ensures Step(s, TimerExpired).stream
  {
  }

  /** Once the session terminates, the operation in flight ends the wait of everybody, and nobody waits again. */
  lemma TerminationDrains(s: State, e: Event)
    requires Inv(s) && s.terminate && s.phase != Idle && e.Complete? && Enabled(s, e)
    ensures var s' := Step(s, e);
            && s'.queue == [] && Callers(s'.resumed) == s.accepted
            && s'.resumed == s.resumed + [Resumption(s.queue[0], e.outcome)] + Resets(s.queue[1..])
  {
    CompletedKeepsInv(s, e);
  }

  lemma {:induction false} StaysDrained(s: State, events: seq<Event>)
    requires Inv(s) && s.terminate && s.queue == [] && Possible(s, events)
    ensures var r := Run(s, events); r.queue == [] && r.resumed == s.resumed && r.accepted == s.accepted
    decreases |events|
  {
    if events != [] {
      StepKeepsInv(s, events[0]);
      StaysDrained(Step(s, events[0]), events[1..]);
    }
  }

  // ---------- Who is accepted, and who is turned away ----------

  /** What callers submit when they are resumed one after the other. */
  function Each(subs: map<nat, seq<nat>>, callers: seq<nat>): seq<nat> {
    if callers == [] then [] else (if callers[0] in subs then subs[callers[0]] else []) + Each(subs, callers[1..])
  }

  /** The submissions made during an event: by a caller of its own, or by those that it resumes. */
  function Made(s: State, e: Event): seq<nat> {
    match e
    case Submit(caller) => [caller]
    case Complete(_, _, subs) => Each(subs, if s.terminate || s.queue == [] then s.queue else s.queue[..1])
    case _ => []
  }

  lemma {:induction false} EachConcat(subs: map<nat, seq<nat>>, a: seq<nat>, b: seq<nat>)
    ensures Each(subs, a + b) == Each(subs, a) + Each(subs, b)
  {
    if a == [] {
      assert a + b == b;
    } else {
      EachConcat(subs, a[1..], b);
      assert (a + b)[1..] == a[1..] + b;
      Regroup(SubsOf(subs, a[0]), Each(subs, a[1..]), Each(subs, b));
    }
  }

  lemma Regroup(a: seq<nat>, b: seq<nat>, c: seq<nat>)
    ensures a + (b + c) == a + b + c
  {
  }

  lemma EachOfOne(subs: map<nat, seq<nat>>, caller: nat)
    ensures Each(subs, [caller]) == SubsOf(subs, caller)
  {
    assert Each(subs, []) == [] && SubsOf(subs, caller) + [] == SubsOf(subs, caller);
  }

  lemma {:induction false} AllSubsIsEach(subs: map<nat, seq<nat>>, callers: seq<nat>)
    ensures AllSubs(subs, callers) == Each(subs, callers)
  {
    if callers != [] {
      var front, last := callers[..|callers| - 1], callers[|callers| - 1];
      AllSubsIsEach(subs, front);
      assert callers == front + [last];
      EachConcat(subs, front, [last]);
      EachOfOne(subs, last);
    }
  }

  lemma StepSubmits(s: State, e: Event)
    requires Enabled(s, e)
    ensures Step(s, e).accepted == if s.terminate then s.accepted else s.accepted + Made(s, e)
    ensures Step(s, e).rejected == if s.terminate then s.rejected + Made(s, e) else s.rejected
  {
    hide AllSubs, SubsOf, Each;
    assert s.accepted + [] == s.accepted && s.rejected + [] == s.rejected;
    if e.Complete? {
      var front, rest := s.queue[0], s.queue[1..];
      assert s.queue == [front] + rest && s.queue[..1] == [front];
      EachOfOne(e.subs, front);
      if s.terminate {
        EachConcat(e.subs, [front], rest);
        AllSubsIsEach(e.subs, rest);
        Regroup(s.rejected, SubsOf(e.subs, front), AllSubs(e.subs, rest));
      }
    }
  }

  /** The submissions of a run that are made before the session terminates, and those made after it. */
  ghost function MadeInTime(s: State, terminated: bool, events: seq<Event>): seq<nat>
    requires Possible(s, events)
    decreases |events|
  {
    if events == [] then []
    else (if terminated then [] else Made(s, events[0]))
         + MadeInTime(Step(s, events[0]), terminated || events[0].Terminate?, events[1..])
  }

  ghost function MadeTooLate(s: State, terminated: bool, events: seq<Event>): seq<nat>
    requires Possible(s, events)
    decreases |events|
  {
    if events == [] then []
    else (if terminated then Made(s, events[0]) else [])
         + MadeTooLate(Step(s, events[0]), terminated || events[0].Terminate?, events[1..])
  }

  lemma TerminatesExactly(s: State, e: Event)
    requires Enabled(s, e)
    ensures Step(s, e).terminate <==> s.terminate || e.Terminate?
  {
  }

  lemma {:induction false} RunSubmits(s: State, events: seq<Event>)
    requires Possible(s, events)
    ensures Run(s, events).accepted == s.accepted + MadeInTime(s, s.terminate, events)
    ensures Run(s, events).rejected == s.rejected + MadeTooLate(s, s.terminate, events)
    decreases |events|
  {
    hide Made, Step, Enabled;
    if events == [] {
      assert s.accepted + [] == s.accepted && s.rejected + [] == s.rejected;
    } else {
      var e := events[0];
      var s1 := Step(s, e);
      StepSubmits(s, e);
      TerminatesExactly(s, e);
      RunSubmits(s1, events[1..]);
      Regroup(s.accepted, if s.terminate then [] else Made(s, e), MadeInTime(s1, s1.terminate, events[1..]));
      Regroup(s.rejected, if s.terminate then Made(s, e) else [], MadeTooLate(s1, s1.terminate, events[1..]));
      assert s.accepted + [] == s.accepted && s.rejected + [] == s.rejected;
    }
  }

  /** Every submission, re-entrant ones included, is accepted in order until the session terminates, and refused after it. */
  lemma SubmissionsAccounted(events: seq<Event>)
    requires Possible(START, events)
    ensures Run(START, events).accepted == MadeInTime(START, false, events)
    ensures Run(START, events).rejected == MadeTooLate(START, false, events)
  {
    RunSubmits(START, events);
    assert [] + MadeInTime(START, false, events) == MadeInTime(START, false, events);
    assert [] + MadeTooLate(START, false, events) == MadeTooLate(START, false, events);
  }

  lemma {:induction false} NoneTooLate(s: State, events: seq<Event>)
    requires Possible(s, events) && forall k :: 0 <= k < |events| ==> !events[k].Terminate?
    ensures MadeTooLate(s, false, events) == []
    decreases |events|
  {
    if events != [] { NoneTooLate(Step(s, events[0]), events[1..]); }
  }

  /** As long as the session does not terminate, nobody is turned away. */
  lemma NobodyTurnedAway(events: seq<Event>)
    requires Possible(START, events) && forall k :: 0 <= k < |events| ==> !events[k].Terminate?
    ensures Run(START, events).rejected == []
  {
    SubmissionsAccounted(events);
    NoneTooLate(START, events);
  }

  // ---------- The stream, its timer and the operation ----------

  /** A stream is there after a connection, until it is found closed, an operation does not keep it, or it has been idle. */
  lemma StreamExactly(s: State, e: Event)
    requires Inv(s) && Enabled(s, e)
    ensures Step(s, e).stream <==>
            || e.Connected?
            || (s.stream && !(|| e.EndOfStream?
                              || (e.Complete? && (s.terminate || e.outcome != Done || !e.keepAlive))
                              || (e.TimerExpired? && s.queue == [])))
  {
    hide Each;
  }

  /** The idle timer is set by an operation that keeps the stream, and by nothing else. */
  lemma TimerExactly(s: State, e: Event)
    requires Enabled(s, e)
    ensures Step(s, e).timer <==>
            || (e.Complete? && !s.terminate && e.outcome == Done && e.keepAlive)
            || (s.timer && !e.Connected? && !e.TimerExpired? && !e.Terminate?)
  {
  }

  /** An exchange begins with a connection and ends with its completion or a closed stream. */
  lemma ExchangeExactly(s: State, e: Event)
    requires Inv(s) && Enabled(s, e)
    ensures Step(s, e).phase.Exchanging? <==> e.Connected? || (s.phase.Exchanging? && !e.EndOfStream? && !e.Complete?)
  {
  }

  /** A completion is logged once, for the caller at the front and with its outcome. */
  lemma TransportExactly(s: State, e: Event)
    requires Inv(s) && Enabled(s, e)
    ensures Step(s, e).transport == if e.Complete? then s.transport + [Resumption(s.queue[0], e.outcome)] else s.transport
  {
  }

  /** The exception that resumed callers see: the outcome of the last completion, or the reset once the session terminated. */
  lemma ExceptionExactly(s: State, e: Event)
    requires Enabled(s, e)
    ensures Step(s, e).exception == if !e.Complete? then s.exception else if s.terminate then SessionReset else e.outcome
  {
  }

  /** Which events can happen. */
  lemma EventsPossible(s: State, e: Event)
    requires Inv(s)
    ensures Enabled(s, e) <==>
            match e
            case Connected => s.phase.Connecting?
            case EndOfStream => s.phase.Exchanging?
            case Complete(outcome, _, _) => s.queue != [] && outcome != SessionReset
            case _ => true
  {
  }
}
