/** The life of the websocket sessions: one is live or being established at a time, and each is replaced at most once. */
module GatewaySession {
  import opened Wrappers

  /**
   * A websocket session with its queue of outgoing messages and the messages that the writes in flight were started
   * with. A session has begun with its first read; stalled records that a write was cancelled, after which nothing is
   * sent any more. The messages submitted and the messages whose writes completed are its history.
   */
  datatype Session = Session(
    closing: bool, closeSent: bool, begun: bool, hbAck: bool,
    queue: seq<nat>, writes: seq<nat>, stalled: bool, submitted: seq<nat>, written: seq<nat>)

  const NEW: Session := Session(false, false, false, false, [], [], false, [], [])

  /** All sessions so far, the one that m_ws_session names, the connection attempts, and the sessions replaced. */
  datatype State = State(
    sessions: seq<Session>, current: Option<nat>, terminating: bool, connecting: nat, countdown: nat, replaced: seq<nat>)

  const START: State := State([], None, false, 1, 0, [])

  datatype Reading =
    | Closed(code: nat)             // the server closed the session
    | Lost                          // end of file or a truncated stream
    | Canceled
    | Broken                        // another error, or a message that cannot be processed
    | Hello(msg: nat)
    | HeartbeatRequest(msg: nat, pending: bool) // pending: a heartbeat timer was there to be cancelled
    | HeartbeatAck
    | InvalidSession
    | Other                         // a partial message, a dispatch, a reconnect request or an unknown operation

  datatype Writing = Written | WriteCanceled | WriteFailed

  datatype Event =
    | Read(i: nat, reading: Reading)
    | Write(i: nat, writing: Writing)
    | Timer(i: nat, canceled: bool, msg: nat)
    | Deferred(i: nat)              // the restart that process_event defers
    | Request(msg: nat)             // a request for guild members
    | Connected
    | ConnectFailed
    | CountdownOver
    | Signal

  const FATAL: set<nat> := {4004, 4010, 4011, 4012, 4013, 4014}

  // ---------- One session ----------

  function Sent(x: Session, msg: nat): Session {
    x.(queue := x.queue + [msg], submitted := x.submitted + [msg], writes := if x.queue == [] then x.writes + [msg] else x.writes)
  }

  function Heartbeat(x: Session, msg: nat): Session {
    Sent(x.(hbAck := false), msg)
  }

  function Popped(x: Session): Session
    requires x.writes != [] && x.queue != []
  {
    x.(queue := x.queue[1..], written := x.written + [x.writes[0]],
       writes := x.writes[1..] + if |x.queue| == 1 then [] else [x.queue[1]])
  }

  // ---------- The gateway ----------

  function With(s: State, i: nat, x: Session): State
    requires i < |s.sessions|
  {
    s.(sessions := s.sessions[i := x])
  }

  /** restart, with a close frame, and on_close, without. */
  function Retired(s: State, i: nat, frame: bool): State
    requires i < |s.sessions|
  {
    if s.sessions[i].closing then s
    else
      var s1 := With(s, i, s.sessions[i].(closing := true, closeSent := frame)).(current := if s.current == Some(i) then None else s.current);
      if s.terminating then s1 else s1.(connecting := s.connecting + 1, replaced := s.replaced + [i])
  }

  /** The first read of a session makes it the current one. */
  function Opened(s: State, i: nat): State
    requires i < |s.sessions|
  {
    if s.sessions[i].begun then s else With(s, i, s.sessions[i].(begun := true)).(current := Some(i))
  }

  function OnRead(s: State, i: nat, r: Reading): State
    requires i < |s.sessions|
  {
    var x := s.sessions[i];
    match r
    case Closed(code) => Retired(s.(terminating := s.terminating || code in FATAL), i, false)
    case Lost => Retired(s, i, false)
    case Canceled => s
    case Broken => Retired(s, i, true)
    case InvalidSession => Retired(s, i, true)
    case Hello(msg) => if x.closing then s else With(s, i, Sent(x.(hbAck := true), msg))
    case HeartbeatRequest(msg, pending) => if x.closing || !pending then s else With(s, i, Heartbeat(x, msg))
    case HeartbeatAck => if x.closing then s else With(s, i, x.(hbAck := true))
    case Other => s
  }

  function OnWrite(s: State, i: nat, w: Writing): State
    requires i < |s.sessions| && s.sessions[i].writes != [] && s.sessions[i].queue != []
  {
    var x := s.sessions[i];
    if w == WriteCanceled || x.closing then With(s, i, x.(writes := x.writes[1..], stalled := x.stalled || !x.closing))
    else if w == WriteFailed then Retired(With(s, i, x.(writes := x.writes[1..])), i, true)
    else With(s, i, Popped(x))
  }

  function OnExpire(s: State, i: nat, canceled: bool, msg: nat): State
    requires i < |s.sessions|
  {
    var x := s.sessions[i];
    if canceled || x.closing then s
    else if !x.hbAck then Retired(s, i, true)
    else With(s, i, Heartbeat(x, msg))
  }

  function Step(s: State, e: Event): State
    requires Enabled(s, e)
  {
    match e
    case Read(i, r) => OnRead(Opened(s, i), i, r)
    case Write(i, w) => OnWrite(s, i, w)
    case Timer(i, canceled, msg) => OnExpire(s, i, canceled, msg)
    case Deferred(i) => Retired(s, i, true)
    case Request(msg) => With(s, s.current.value, Sent(s.sessions[s.current.value], msg))
    case Connected => s.(connecting := s.connecting - 1, sessions := s.sessions + [NEW])
    case ConnectFailed => s.(connecting := s.connecting - 1, countdown := s.countdown + 1)
    case CountdownOver => s.(countdown := s.countdown - 1, connecting := if s.terminating then s.connecting else s.connecting + 1)
    case Signal => if s.current.Some? && s.current.value < |s.sessions|
                   then Retired(s.(terminating := true), s.current.value, true) else s.(terminating := true)
  }

  /** Timers, writes and deferred restarts are of sessions that have read something; any session may have its read end. */
  predicate Enabled(s: State, e: Event) {
    match e
    case Read(i, _) => i < |s.sessions|
    case Write(i, _) => i < |s.sessions| && s.sessions[i].writes != [] && s.sessions[i].queue != []
    case Timer(i, _, _) => i < |s.sessions| && s.sessions[i].begun
    case Deferred(i) => i < |s.sessions| && s.sessions[i].begun
    case Request(_) => s.current.Some? && s.current.value < |s.sessions|
    case Connected => s.connecting > 0
    case ConnectFailed => s.connecting > 0
    case CountdownOver => s.countdown > 0
    case Signal => true
  }

  // ---------- Counting ----------

  function Live(xs: seq<Session>): nat {
    if xs == [] then 0 else Live(xs[..|xs| - 1]) + (if xs[|xs| - 1].closing then 0 else 1)
  }

  function Total(s: State): nat {
    Live(s.sessions) + s.connecting + s.countdown
  }

  function One(x: Session): nat { if x.closing then 0 else 1 }

  lemma {:induction false} LiveUpdate(xs: seq<Session>, i: nat, x: Session)
    requires i < |xs|
    ensures Live(xs[i := x]) + One(xs[i]) == Live(xs) + One(x)
  {
    var n := |xs| - 1;
    if i < n {
      LiveUpdate(xs[..n], i, x);
      assert xs[i := x][..n] == xs[..n][i := x];
    } else {
      assert xs[i := x][..n] == xs[..n];
    }
  }

  lemma {:induction false} LiveAtLeast(xs: seq<Session>, i: nat, j: nat)
    requires i < |xs| && j < |xs|
    ensures Live(xs) >= One(xs[i])
    ensures i != j ==> Live(xs) >= One(xs[i]) + One(xs[j])
  {
    var n := |xs| - 1;
    if n > 0 {
      if i < n && j < n { LiveAtLeast(xs[..n], i, j); }
      else if i < n { LiveAtLeast(xs[..n], i, i); }
      else if j < n { LiveAtLeast(xs[..n], j, j); }
    }
  }

  lemma LiveAppend(xs: seq<Session>, x: Session)
    ensures Live(xs + [x]) == Live(xs) + One(x)
  {
    assert (xs + [x])[..|xs|] == xs;
  }

  // ---------- What every run keeps ----------

  /** One write at a time, of the front; what was submitted is written in order, and the rest is still queued. */
  ghost predicate SessionInv(x: Session) {
    && |x.writes| <= 1
    && (x.writes != [] ==> x.queue != [] && x.writes[0] == x.queue[0])
    && (!x.closing && !x.stalled ==> (x.writes != [] <==> x.queue != []))
    && (x.stalled ==> x.queue != [] && x.writes == [])
    && x.submitted == x.written + x.queue
    && (!x.begun ==> !x.closing && x.queue == [])
  }

  ghost predicate Inv(s: State) {
    && (forall i :: 0 <= i < |s.sessions| ==> SessionInv(s.sessions[i]))
    // m_ws_session names the live session, from its first read on
    && (s.current.Some? ==> s.current.value < |s.sessions|)
    && (forall i :: 0 <= i < |s.sessions| ==>
          (s.current == Some(i) <==> s.sessions[i].begun && !s.sessions[i].closing))
    && (if s.terminating then Total(s) <= 1 else Total(s) == 1)
    // each session is replaced at most once, when it is closed
    && (forall k :: 0 <= k < |s.replaced| ==> s.replaced[k] < |s.sessions| && s.sessions[s.replaced[k]].closing)
    && (forall k, l :: 0 <= k < l < |s.replaced| ==> s.replaced[k] != s.replaced[l])
  }

  /** A step that changes one session, but neither opens nor closes it. */
  lemma WithKeepsInv(s: State, i: nat, x: Session)
    requires Inv(s) && i < |s.sessions| && SessionInv(x)
    requires x.begun == s.sessions[i].begun && x.closing == s.sessions[i].closing
    ensures Inv(With(s, i, x)) && Total(With(s, i, x)) == Total(s)
  {
    LiveUpdate(s.sessions, i, x);
  }

  lemma RetiredKeepsInv(s: State, i: nat, frame: bool)
    requires Inv(s) && i < |s.sessions| && s.sessions[i].begun
    ensures Inv(Retired(s, i, frame)) && Total(Retired(s, i, frame)) <= Total(s)
  {
    hide Live;
    if !s.sessions[i].closing {
      var x := s.sessions[i].(closing := true, closeSent := frame);
      LiveUpdate(s.sessions, i, x);
    }
  }

  lemma OpenedKeepsInv(s: State, i: nat)
    requires Inv(s) && i < |s.sessions|
    ensures Inv(Opened(s, i)) && Total(Opened(s, i)) == Total(s)
    ensures |Opened(s, i).sessions| == |s.sessions| && Opened(s, i).sessions[i].begun
  {
    hide Live;
    if !s.sessions[i].begun {
      LiveUpdate(s.sessions, i, s.sessions[i].(begun := true));
      forall j | 0 <= j < |s.sessions| && j != i ensures s.sessions[j].closing {
        LiveAtLeast(s.sessions, i, j);
      }
    }
  }

  lemma SentKeepsInv(x: Session, msg: nat)
    requires SessionInv(x) && x.begun && !x.closing
    ensures SessionInv(Sent(x, msg))
  {
  }

  lemma PoppedKeepsInv(x: Session)
    requires SessionInv(x) && !x.closing && x.writes != []
    ensures SessionInv(Popped(x))
  {
    assert x.queue == [x.queue[0]] + x.queue[1..];
    assert x.submitted == x.written + [x.queue[0]] + x.queue[1..];
  }

  lemma ReadKeepsInv(s: State, i: nat, r: Reading)
    requires Inv(s) && i < |s.sessions| && s.sessions[i].begun
    ensures Inv(OnRead(s, i, r))
    ensures Total(OnRead(s, i, r)) <= Total(s)
  {
    var x := s.sessions[i];
    match r {
      case Closed(code) => RetiredKeepsInv(s.(terminating := s.terminating || code in FATAL), i, false);
      case Lost => RetiredKeepsInv(s, i, false);
      case Broken => RetiredKeepsInv(s, i, true);
      case InvalidSession => RetiredKeepsInv(s, i, true);
      case Hello(msg) =>
        if !x.closing {
          SentKeepsInv(x.(hbAck := true), msg);
          WithKeepsInv(s, i, Sent(x.(hbAck := true), msg));
        }
      case HeartbeatRequest(msg, pending) =>
        if !x.closing {
          SentKeepsInv(x.(hbAck := false), msg);
          WithKeepsInv(s, i, Heartbeat(x, msg));
        }
      case HeartbeatAck => WithKeepsInv(s, i, x.(hbAck := true));
      case _ =>
    }
  }

  lemma WriteKeepsInv(s: State, i: nat, w: Writing)
    requires Inv(s) && Enabled(s, Write(i, w))
    ensures Inv(OnWrite(s, i, w)) && Total(OnWrite(s, i, w)) <= Total(s)
  {
    var x := s.sessions[i];
    if w == WriteCanceled || x.closing {
      WithKeepsInv(s, i, x.(writes := x.writes[1..], stalled := x.stalled || !x.closing));
    } else if w == Written {
      PoppedKeepsInv(x);
      WithKeepsInv(s, i, Popped(x));
    } else {
      FailedWriteKeepsInv(s, i);
    }
  }

  lemma FailedWriteKeepsInv(s: State, i: nat)
    requires Inv(s) && i < |s.sessions| && !s.sessions[i].closing && s.sessions[i].writes != []
    ensures var r := Retired(With(s, i, s.sessions[i].(writes := s.sessions[i].writes[1..])), i, true);
            Inv(r) && Total(r) <= Total(s)
  {
    hide Live;
    var x := s.sessions[i].(writes := s.sessions[i].writes[1..]);
    var y := x.(closing := true, closeSent := true);
    assert s.sessions[i := x][i := y] == s.sessions[i := y];
    LiveUpdate(s.sessions, i, y);
  }

  lemma ConnectedKeepsInv(s: State)
    requires Inv(s) && s.connecting > 0
    ensures Inv(Step(s, Connected)) && Total(Step(s, Connected)) == Total(s)
  {
    hide Live;
    LiveAppend(s.sessions, NEW);
  }

  lemma StepKeepsInv(s: State, e: Event)
    requires Inv(s) && Enabled(s, e)
    ensures Inv(Step(s, e)) && Total(Step(s, e)) <= Total(s)
  {
    hide Live, OnRead, OnWrite, Opened;
    match e {
      case Read(i, r) =>
        OpenedKeepsInv(s, i);
        ReadKeepsInv(Opened(s, i), i, r);
      case Write(i, w) => WriteKeepsInv(s, i, w);
      case Timer(i, canceled, msg) =>
        var x := s.sessions[i];
        if !canceled && !x.closing {
          RetiredKeepsInv(s, i, true);
          SentKeepsInv(x.(hbAck := false), msg);
          WithKeepsInv(s, i, Heartbeat(x, msg));
        }
      case Deferred(i) => RetiredKeepsInv(s, i, true);
      case Request(msg) =>
        var i := s.current.value;
        SentKeepsInv(s.sessions[i], msg);
        WithKeepsInv(s, i, Sent(s.sessions[i], msg));
      case Connected => ConnectedKeepsInv(s);
      case ConnectFailed =>
      case CountdownOver =>
      case Signal =>
        if s.current.Some? { RetiredKeepsInv(s.(terminating := true), s.current.value, true); }
    }
  }

  // ---------- Every run ----------

  ghost predicate Possible(s: State, events: seq<Event>)
    decreases |events|
  {
    events == [] || (Enabled(s, events[0]) && Possible(Step(s, events[0]), events[1..]))
  }

  ghost function Run(s: State, events: seq<Event>): State
    requires Possible(s, events)
    decreases |events|
  {
    if events == [] then s else Run(Step(s, events[0]), events[1..])
  }

  lemma {:induction false} RunKeepsInv(s: State, events: seq<Event>)
    requires Inv(s) && Possible(s, events)
    ensures Inv(Run(s, events))
    decreases |events|
  {
    hide Inv;
    if events != [] {
      StepKeepsInv(s, events[0]);
      RunKeepsInv(Step(s, events[0]), events[1..]);
    }
  }

  lemma StartKeepsInv()
    ensures Inv(START)
  {
  }

  /** While the gateway is not terminating there is exactly one session, live or being established. */
  lemma ExactlyOne(events: seq<Event>)
    requires Possible(START, events)
    ensures var s := Run(START, events);
            && (!s.terminating ==> Live(s.sessions) + s.connecting + s.countdown == 1)
            && Live(s.sessions) + s.connecting + s.countdown <= 1
            && (s.current.Some? ==> s.current.value < |s.sessions| && !s.sessions[s.current.value].closing)
            && (forall k, l :: 0 <= k < l < |s.replaced| ==> s.replaced[k] != s.replaced[l])
  {
    StartKeepsInv();
    RunKeepsInv(START, events);
  }

  /** After termination nothing new is started. */
  lemma {:induction false} NothingNewOnceTerminating(s: State, events: seq<Event>)
    requires Inv(s) && s.terminating && Possible(s, events)
    ensures var r := Run(s, events); r.terminating && r.replaced == s.replaced && Total(r) <= Total(s)
    decreases |events|
  {
    if events != [] {
      StepKeepsInv(s, events[0]);
      StepStartsNothing(s, events[0]);
      NothingNewOnceTerminating(Step(s, events[0]), events[1..]);
    }
  }

  lemma StepStartsNothing(s: State, e: Event)
    requires Enabled(s, e) && s.terminating
    ensures Step(s, e).terminating && Step(s, e).replaced == s.replaced
  {
  }

  /** Closing a session once more, in either way, has no effect. */
  lemma RetiredOnce(s: State, i: nat, frame: bool, again: bool)
    requires i < |s.sessions|
    ensures Retired(Retired(s, i, frame), i, again) == Retired(s, i, frame)
  {
  }

  /** What has been closed stays closed, and is not replaced again whatever its handlers still report. */
  lemma {:induction false} ClosedForGood(s: State, events: seq<Event>, i: nat)
    requires Inv(s) && Possible(s, events) && i < |s.sessions| && s.sessions[i].closing
    ensures var r := Run(s, events);
            && i < |r.sessions| && r.sessions[i].closing && r.current != Some(i)
            && (i in r.replaced <==> i in s.replaced)
    decreases |events|
  {
    if events != [] {
      StepKeepsInv(s, events[0]);
      StepAges(s, events[0], i);
      ClosedForGood(Step(s, events[0]), events[1..], i);
    }
  }

  /** What no operation undoes, seen from session i. */
  ghost predicate Aged(s: State, r: State, i: nat)
    requires i < |s.sessions|
  {
    && i < |r.sessions|
    && (s.sessions[i].begun ==> r.sessions[i].begun)
    && (s.sessions[i].closing ==> r.sessions[i].closing)
    && (s.sessions[i].closing ==> (i in r.replaced <==> i in s.replaced))
  }

  predicate Acknowledges(e: Event, i: nat) {
    e.Read? && e.i == i && (e.reading.HeartbeatAck? || e.reading.Hello?)
  }

  ghost predicate Unacknowledged(s: State, i: nat) {
    i < |s.sessions| && s.sessions[i].begun && (s.sessions[i].closing || !s.sessions[i].hbAck)
  }

  lemma RetiredAges(s: State, j: nat, frame: bool, i: nat)
    requires i < |s.sessions| && j < |s.sessions|
    ensures Aged(s, Retired(s, j, frame), i)
    ensures Unacknowledged(s, i) ==> Unacknowledged(Retired(s, j, frame), i)
  {
  }

  lemma ReadAges(s: State, j: nat, r: Reading, i: nat)
    requires i < |s.sessions| && j < |s.sessions|
    ensures Aged(s, OnRead(s, j, r), i)
    ensures Unacknowledged(s, i) && !Acknowledges(Read(j, r), i) ==> Unacknowledged(OnRead(s, j, r), i)
  {
    if r.Closed? {
      RetiredAges(s.(terminating := s.terminating || r.code in FATAL), j, false, i);
    } else if r.Lost? {
      RetiredAges(s, j, false, i);
    } else if r.Broken? || r.InvalidSession? {
      RetiredAges(s, j, true, i);
    }
  }

  lemma WriteAges(s: State, j: nat, w: Writing, i: nat)
    requires i < |s.sessions| && Enabled(s, Write(j, w))
    ensures Aged(s, OnWrite(s, j, w), i)
    ensures Unacknowledged(s, i) ==> Unacknowledged(OnWrite(s, j, w), i)
  {
    var x := s.sessions[j];
    if w == WriteFailed && !x.closing {
      RetiredAges(With(s, j, x.(writes := x.writes[1..])), j, true, i);
    }
  }

  lemma TimerAges(s: State, j: nat, canceled: bool, msg: nat, i: nat)
    requires i < |s.sessions| && j < |s.sessions|
    ensures Aged(s, OnExpire(s, j, canceled, msg), i)
    ensures Unacknowledged(s, i) ==> Unacknowledged(OnExpire(s, j, canceled, msg), i)
  {
    RetiredAges(s, j, true, i);
  }

  lemma StepAges(s: State, e: Event, i: nat)
    requires Enabled(s, e) && i < |s.sessions|
    ensures Aged(s, Step(s, e), i)
    ensures Unacknowledged(s, i) && !Acknowledges(e, i) ==> Unacknowledged(Step(s, e), i)
  {
    match e {
      case Read(j, r) =>
        var s1 := Opened(s, j);
        assert Aged(s, s1, i) && (Unacknowledged(s, i) ==> Unacknowledged(s1, i));
        ReadAges(s1, j, r, i);
      case Write(j, w) => WriteAges(s, j, w, i);
      case Timer(j, canceled, msg) => TimerAges(s, j, canceled, msg, i);
      case Deferred(j) => RetiredAges(s, j, true, i);
      case Signal =>
        if Enabled(s, Request(0)) { RetiredAges(s.(terminating := true), s.current.value, true, i); }
      case _ =>
    }
  }

  /** When an event such as READY is processed, m_ws_session names the session that it came from. */
  lemma DispatchFindsSession(s: State, i: nat)
    requires Inv(s) && Enabled(s, Read(i, Other)) && !s.sessions[i].closing
    ensures Opened(s, i).current == Some(i)
  {
    OpenedKeepsInv(s, i);
  }

  lemma FrontIsWritten(x: Session)
    requires SessionInv(x)
    ensures x.submitted == x.written + x.queue && x.writes <= x.queue && |x.writes| <= 1
    ensures !x.closing && !x.stalled ==> (x.writes != [] <==> x.queue != [])
  {
  }

  /** In any session, at any point of any run: first in, first out, and one write in flight for the front. */
  lemma MessagesInOrder(events: seq<Event>, i: nat)
    requires Possible(START, events) && i < |Run(START, events).sessions|
    ensures var x := Run(START, events).sessions[i];
            && x.submitted == x.written + x.queue && x.writes <= x.queue && |x.writes| <= 1
            && (!x.closing && !x.stalled ==> (x.writes != [] <==> x.queue != []))
  {
    hide Live, Total, Step, Run, Possible, SessionInv;
    StartKeepsInv();
    RunKeepsInv(START, events);
    FrontIsWritten(Run(START, events).sessions[i]);
  }

  // ---------- Heartbeats ----------

  /** A session does not outlive two heartbeats with no acknowledgement in between, even if its writes have stalled. */
  lemma ZombieIsClosed(s: State, i: nat, msg: nat, events: seq<Event>, msg': nat)
    requires Enabled(s, Timer(i, false, msg)) && Possible(Step(s, Timer(i, false, msg)), events)
    requires forall k :: 0 <= k < |events| ==> !Acknowledges(events[k], i)
    ensures var s2 := Run(Step(s, Timer(i, false, msg)), events);
            && Enabled(s2, Timer(i, false, msg')) && Step(s2, Timer(i, false, msg')).sessions[i].closing
  {
    hide Possible, Run;
    StaysUnacknowledged(Step(s, Timer(i, false, msg)), events, i);
  }

  lemma {:induction false} StaysUnacknowledged(s: State, events: seq<Event>, i: nat)
    requires Possible(s, events) && Unacknowledged(s, i)
    requires forall k :: 0 <= k < |events| ==> !Acknowledges(events[k], i)
    ensures Unacknowledged(Run(s, events), i)
    decreases |events|
  {
    if events != [] {
      StepAges(s, events[0], i);
      StaysUnacknowledged(Step(s, events[0]), events[1..], i);
    }
  }

  /** A heartbeat is sent on the session, or it is ended instead. */
  predicate Heartbeats(e: Event, i: nat) {
    || (e.Timer? && e.i == i && !e.canceled)
    || (e.Read? && e.i == i && e.reading.HeartbeatRequest? && e.reading.pending)
  }

  /** Whether the last heartbeat is acknowledged after some events, if it was before them. */
  predicate Acked(acked: bool, events: seq<Event>, i: nat)
    decreases |events|
  {
    if events == [] then acked
    else Acked(Acknowledges(events[0], i) || (acked && !Heartbeats(events[0], i)), events[1..], i)
  }

  // ---------- One session through one event ----------

  function AfterClose(x: Session, frame: bool): Session {
    if x.closing then x else x.(closing := true, closeSent := frame)
  }

  function AfterRead(x: Session, r: Reading): Session {
    var y := x.(begun := true);
    if y.closing then y
    else match r
      case Closed(_) => AfterClose(y, false)
      case Lost => AfterClose(y, false)
      case Broken => AfterClose(y, true)
      case InvalidSession => AfterClose(y, true)
      case Hello(msg) => Sent(y.(hbAck := true), msg)
      case HeartbeatRequest(msg, pending) => if pending then Heartbeat(y, msg) else y
      case HeartbeatAck => y.(hbAck := true)
      case _ => y
  }

  function AfterWrite(x: Session, w: Writing): Session
    requires x.writes != [] && x.queue != []
  {
    if w == WriteCanceled || x.closing then x.(writes := x.writes[1..], stalled := x.stalled || !x.closing)
    else if w == WriteFailed then AfterClose(x.(writes := x.writes[1..]), true)
    else Popped(x)
  }

  function AfterTimer(x: Session, canceled: bool, msg: nat): Session {
    if canceled || x.closing then x else if !x.hbAck then AfterClose(x, true) else Heartbeat(x, msg)
  }

  /** Session i after an event; an event is about one session at most. */
  function AfterEvent(s: State, e: Event, i: nat): Session
    requires Enabled(s, e) && i < |s.sessions|
  {
    var x := s.sessions[i];
    match e
    case Read(j, r) => if j == i then AfterRead(x, r) else x
    case Write(j, w) => if j == i then AfterWrite(x, w) else x
    case Timer(j, canceled, msg) => if j == i then AfterTimer(x, canceled, msg) else x
    case Deferred(j) => if j == i then AfterClose(x, true) else x
    case Request(msg) => if s.current == Some(i) then Sent(x, msg) else x
    case Signal => if s.current == Some(i) then AfterClose(x, true) else x
    case _ => x
  }

  lemma RetiredAt(s: State, j: nat, frame: bool, i: nat)
    requires i < |s.sessions| && j < |s.sessions|
    ensures var r := Retired(s, j, frame);
            && |r.sessions| == |s.sessions| && r.terminating == s.terminating
            && r.sessions[i] == (if i == j then AfterClose(s.sessions[i], frame) else s.sessions[i])
            && r.replaced == if s.terminating || s.sessions[j].closing then s.replaced else s.replaced + [j]
  {
  }

  lemma ReadAt(s: State, j: nat, r: Reading, i: nat)
    requires i < |s.sessions| && j < |s.sessions|
    ensures var q := OnRead(Opened(s, j), j, r);
            && |q.sessions| == |s.sessions|
            && q.sessions[i] == if i == j then AfterRead(s.sessions[i], r) else s.sessions[i]
  {
    hide Retired, Sent;
    var s1 := Opened(s, j);
    RetiredAt(s1, j, false, i);
    RetiredAt(s1, j, true, i);
    if r.Closed? { RetiredAt(s1.(terminating := s1.terminating || r.code in FATAL), j, false, i); }
  }

  lemma WriteAt(s: State, j: nat, w: Writing, i: nat)
    requires i < |s.sessions| && Enabled(s, Write(j, w))
    ensures var q := OnWrite(s, j, w);
            && |q.sessions| == |s.sessions|
            && q.sessions[i] == if i == j then AfterWrite(s.sessions[i], w) else s.sessions[i]
  {
    hide Retired, Popped;
    var x := s.sessions[j];
    RetiredAt(With(s, j, x.(writes := x.writes[1..])), j, true, i);
  }

  lemma TimerAt(s: State, j: nat, canceled: bool, msg: nat, i: nat)
    requires i < |s.sessions| && j < |s.sessions|
    ensures var q := OnExpire(s, j, canceled, msg);
            && |q.sessions| == |s.sessions|
            && q.sessions[i] == if i == j then AfterTimer(s.sessions[i], canceled, msg) else s.sessions[i]
  {
    hide Retired, Sent;
    RetiredAt(s, j, true, i);
  }

  lemma StepAt(s: State, e: Event, i: nat)
    requires Enabled(s, e) && i < |s.sessions|
    ensures i < |Step(s, e).sessions| && Step(s, e).sessions[i] == AfterEvent(s, e, i)
  {
    hide OnRead, OnWrite, OnExpire, Retired, Opened, AfterRead, AfterWrite, AfterTimer, Sent;
    match e {
      case Read(j, r) => ReadAt(s, j, r, i);
      case Write(j, w) => WriteAt(s, j, w, i);
      case Timer(j, canceled, msg) => TimerAt(s, j, canceled, msg, i);
      case Deferred(j) => RetiredAt(s, j, true, i);
      case Signal =>
        if s.current.Some? && s.current.value < |s.sessions| { RetiredAt(s.(terminating := true), s.current.value, true, i); }
      case _ =>
    }
  }

  /** A new session is as new. */
  lemma StepNew(s: State, e: Event, i: nat)
    requires Enabled(s, e) && |s.sessions| <= i < |Step(s, e).sessions|
    ensures e == Connected && Step(s, e).sessions[i] == NEW
  {
    if |s.sessions| > 0 && !e.Connected? { StepAt(s, e, 0); }
    SameLength(s, e);
  }

  lemma SameLength(s: State, e: Event)
    requires Enabled(s, e)
    ensures |Step(s, e).sessions| == |s.sessions| + if e.Connected? then 1 else 0
  {
  }

  function HbAck(s: State, i: nat): bool {
    i < |s.sessions| && s.sessions[i].hbAck
  }

  lemma StepAcked(s: State, e: Event, i: nat)
    requires Enabled(s, e) && i < |Step(s, e).sessions| && !Step(s, e).sessions[i].closing
    ensures HbAck(Step(s, e), i) == (Acknowledges(e, i) || (HbAck(s, i) && !Heartbeats(e, i)))
  {
    hide Step;
    if i < |s.sessions| { StepAt(s, e, i); } else { StepNew(s, e, i); }
  }

  lemma {:induction false} RunAcked(s: State, events: seq<Event>, i: nat)
    requires Possible(s, events) && i < |Run(s, events).sessions| && !Run(s, events).sessions[i].closing
    ensures HbAck(Run(s, events), i) == Acked(HbAck(s, i), events, i)
    decreases |events|
  {
    if events != [] {
      var s1 := Step(s, events[0]);
      RunAcked(s1, events[1..], i);
      if i < |s1.sessions| {
        if s1.sessions[i].closing { StaysClosed(s1, events[1..], i); }
        StepAcked(s, events[0], i);
      } else {
        NotYetThere(s, events[0], i);
      }
    }
  }

  lemma {:induction false} StaysClosed(s: State, events: seq<Event>, i: nat)
    requires Possible(s, events) && i < |s.sessions| && s.sessions[i].closing
    ensures i < |Run(s, events).sessions| && Run(s, events).sessions[i].closing
    decreases |events|
  {
    if events != [] {
      StepAges(s, events[0], i);
      StaysClosed(Step(s, events[0]), events[1..], i);
    }
  }

  lemma NotYetThere(s: State, e: Event, i: nat)
    requires Enabled(s, e) && |Step(s, e).sessions| <= i
    ensures |s.sessions| <= i && !Acknowledges(e, i)
  {
  }

  /** The k-th event acknowledges, and no heartbeat comes after it. */
  ghost predicate LastAck(events: seq<Event>, i: nat, k: nat) {
    k < |events| && Acknowledges(events[k], i) && forall j :: k < j < |events| ==> !Heartbeats(events[j], i)
  }

  lemma {:induction false} AckedIff(acked: bool, events: seq<Event>, i: nat)
    ensures Acked(acked, events, i) <==>
            || (exists k: nat :: LastAck(events, i, k))
            || (acked && forall j :: 0 <= j < |events| ==> !Heartbeats(events[j], i))
    decreases |events|
  {
    if events != [] {
      var rest, acked' := events[1..], Acknowledges(events[0], i) || (acked && !Heartbeats(events[0], i));
      AckedIff(acked', rest, i);
      assert forall j :: 0 <= j < |rest| ==> rest[j] == events[j + 1];
      forall k: nat ensures LastAck(rest, i, k) <==> LastAck(events, i, k + 1) {
        assert k < |rest| ==> forall j :: k + 1 < j < |events| ==> events[j] == rest[j - 1];
      }
      if k: nat :| LastAck(events, i, k) {
        if k > 0 { assert LastAck(rest, i, k - 1); }
      }
      if acked' && forall j :: 0 <= j < |rest| ==> !Heartbeats(rest[j], i) {
        assert forall j :: 0 < j < |events| ==> events[j] == rest[j - 1];
        if Acknowledges(events[0], i) { assert LastAck(events, i, 0); }
      }
    }
  }

  /**
   * A heartbeat timer ends an open session exactly if nothing acknowledged it since its last heartbeat, or ever;
   * otherwise the session stays open and the next heartbeat is submitted.
   */
  lemma HeartbeatIff(events: seq<Event>, i: nat, msg: nat)
    requires Possible(START, events) && Enabled(Run(START, events), Timer(i, false, msg))
    requires !Run(START, events).sessions[i].closing
    ensures var s := Run(START, events);
            var r := Step(s, Timer(i, false, msg));
            if exists k: nat :: LastAck(events, i, k)
            then !r.sessions[i].closing && r.sessions[i].submitted == s.sessions[i].submitted + [msg]
            else r.sessions[i].closing && r.sessions[i].submitted == s.sessions[i].submitted
  {
    hide Run, Possible;
    RunAcked(START, events, i);
    AckedIff(false, events, i);
  }

  // ---------- What each event does to a session ----------

  /** The event ends the open session i. */
  predicate Ends(s: State, e: Event, i: nat)
    requires i < |s.sessions|
  {
    match e
    case Read(j, r) => j == i && (r.Closed? || r.Lost? || r.Broken? || r.InvalidSession?)
    case Write(j, w) => j == i && w == WriteFailed
    case Timer(j, canceled, _) => j == i && !canceled && !s.sessions[i].hbAck
    case Deferred(j) => j == i
    case Signal => s.current == Some(i)
    case _ => false
  }

  /** A session is ended by these events and no other; it is sent a close frame unless it was closed from outside. */
  lemma EndsExactly(s: State, e: Event, i: nat)
    requires Enabled(s, e) && i < |s.sessions| && !s.sessions[i].closing
    ensures var r := Step(s, e);
            && i < |r.sessions| && (r.sessions[i].closing <==> Ends(s, e, i))
            && (Ends(s, e, i) ==> (r.sessions[i].closeSent <==> !(e.Read? && (e.reading.Closed? || e.reading.Lost?))))
            && (Ends(s, e, i) ==> r.replaced == if r.terminating then s.replaced else s.replaced + [i])
  {
    StepAt(s, e, i);
    if Ends(s, e, i) { EndReplaces(s, e, i); }
    hide Step;
  }

  lemma EndReplaces(s: State, e: Event, i: nat)
    requires Enabled(s, e) && i < |s.sessions| && !s.sessions[i].closing && Ends(s, e, i)
    ensures Step(s, e).replaced == if Step(s, e).terminating then s.replaced else s.replaced + [i]
  {
  }

  /** What the event submits on the open session i. */
  function Submits(s: State, e: Event, i: nat): seq<nat>
    requires i < |s.sessions|
  {
    match e
    case Read(j, Hello(msg)) => if j == i then [msg] else []
    case Read(j, HeartbeatRequest(msg, pending)) => if j == i && pending then [msg] else []
    case Timer(j, canceled, msg) => if j == i && !canceled && s.sessions[i].hbAck then [msg] else []
    case Request(msg) => if s.current == Some(i) then [msg] else []
    case _ => []
  }

  lemma KnownSession(s: State, i: nat)
    requires Inv(s) && i < |s.sessions|
    ensures s.current == Some(i) <==> s.sessions[i].begun && !s.sessions[i].closing
    ensures s.sessions[i].writes != [] ==> s.sessions[i].queue != [] && s.sessions[i].writes[0] == s.sessions[i].queue[0]
  {
  }

  /** Messages are submitted on open sessions by these events and no other, and written when their write completes. */
  lemma SubmitsExactly(s: State, e: Event, i: nat)
    requires Inv(s) && Enabled(s, e) && i < |s.sessions|
    ensures var r := Step(s, e);
            && i < |r.sessions|
            && r.sessions[i].submitted == s.sessions[i].submitted + (if s.sessions[i].closing then [] else Submits(s, e, i))
            && r.sessions[i].written == s.sessions[i].written
               + (if !s.sessions[i].closing && e == Write(i, Written) then [s.sessions[i].queue[0]] else [])
  {
    hide Inv, SessionInv, Step;
    StepAt(s, e, i);
    KnownSession(s, i);
    var x := s.sessions[i];
    NothingMore(x);
    if e.Read? && e.i == i {
      ReadSubmits(x, e.reading);
    } else if e.Write? && e.i == i {
      WriteSubmits(x, e.writing);
    }
  }

  lemma NothingMore(x: Session)
    ensures x.submitted + [] == x.submitted && x.written + [] == x.written
  {
  }

  lemma ReadSubmits(x: Session, r: Reading)
    ensures AfterRead(x, r).written == x.written
    ensures AfterRead(x, r).submitted
            == if !x.closing && (r.Hello? || (r.HeartbeatRequest? && r.pending)) then x.submitted + [r.msg] else x.submitted
  {
  }

  lemma WriteSubmits(x: Session, w: Writing)
    requires x.writes != [] && x.queue != []
    ensures AfterWrite(x, w).submitted == x.submitted
    ensures AfterWrite(x, w).written == if !x.closing && w == Written then x.written + [x.writes[0]] else x.written
  {
  }

  predicate Fatal(e: Event) {
    e.Read? && e.reading.Closed? && e.reading.code in {4004, 4010, 4011, 4012, 4013, 4014}
  }

  /** Sessions appear with a connection, terminating starts with a signal or a fatal close code, and nothing ends it. */
  lemma StartsExactly(s: State, e: Event)
    requires Enabled(s, e)
    ensures var r := Step(s, e);
            && |r.sessions| == |s.sessions| + (if e.Connected? then 1 else 0)
            && (e.Connected? ==> r.sessions[|s.sessions|] == NEW)
            && r.terminating == (s.terminating || e.Signal? || Fatal(e))
            && r.countdown == s.countdown + (if e.ConnectFailed? then 1 else if e.CountdownOver? then -1 else 0)
            && r.connecting == s.connecting + |r.replaced| - |s.replaced|
               + (if e.Connected? || e.ConnectFailed? then -1 else if e.CountdownOver? && !s.terminating then 1 else 0)
  {
    hide Retired, Opened;
    SameLength(s, e);
    match e {
      case Read(j, r) =>
        var s1 := Opened(s, j);
        OpenedCounts(s, j);
        RetiredCounts(s1, j, true);
        RetiredCounts(s1, j, false);
        if r.Closed? { RetiredCounts(s1.(terminating := s1.terminating || r.code in FATAL), j, false); }
      case Write(j, w) => RetiredCounts(With(s, j, s.sessions[j].(writes := s.sessions[j].writes[1..])), j, true);
      case Timer(j, canceled, msg) => RetiredCounts(s, j, true);
      case Deferred(j) => RetiredCounts(s, j, true);
      case Signal =>
        if s.current.Some? && s.current.value < |s.sessions| { RetiredCounts(s.(terminating := true), s.current.value, true); }
      case _ =>
    }
  }

  lemma RetiredCounts(s: State, j: nat, frame: bool)
    requires j < |s.sessions|
    ensures var r := Retired(s, j, frame);
            r.terminating == s.terminating && r.countdown == s.countdown && r.connecting == s.connecting + |r.replaced| - |s.replaced|
  {
  }

  lemma OpenedCounts(s: State, j: nat)
    requires j < |s.sessions|
    ensures var r := Opened(s, j);
            && |r.sessions| == |s.sessions| && r.terminating == s.terminating && r.countdown == s.countdown
            && r.connecting == s.connecting && r.replaced == s.replaced
  {
  }

  /** Which events can happen. */
  lemma EventsPossible(s: State, e: Event)
    requires Inv(s)
    ensures Enabled(s, e) <==>
            match e
            case Read(i, _) => i < |s.sessions|
            case Write(i, _) => i < |s.sessions| && s.sessions[i].writes != []
            case Timer(i, _, _) => i < |s.sessions| && s.sessions[i].begun
            case Deferred(i) => i < |s.sessions| && s.sessions[i].begun
            case Request(_) => s.current.Some?
            case Connected => s.connecting > 0
            case ConnectFailed => s.connecting > 0
            case CountdownOver => s.countdown > 0
            case Signal => true
  {
    hide Live;
  }

  /** A session begins with its first read, which names it unless it ends it as well. */
  lemma BeginsExactly(s: State, i: nat, r: Reading)
    requires Inv(s) && i < |s.sessions| && !s.sessions[i].closing
    ensures var q := Step(s, Read(i, r));
            && i < |q.sessions| && q.sessions[i].begun
            && (q.current == Some(i) <==> !(r.Closed? || r.Lost? || r.Broken? || r.InvalidSession?))
  {
    var e := Read(i, r);
    StepKeepsInv(s, e);
    StepAt(s, e, i);
    EndsExactly(s, e, i);
    KnownSession(Step(s, e), i);
    hide Inv, Step, Live;
  }

  // ---------- Termination by a signal ----------

  /** A signal ends everything at once exactly if a session is established; an attempt that is under way goes on. */
  lemma SignalEndsIff(s: State)
    requires Inv(s) && !s.terminating
    ensures Total(Step(s, Signal)) == 0 <==> s.current.Some?
    ensures Step(s, Signal).connecting == s.connecting && Step(s, Signal).countdown == s.countdown
  {
    if s.current.Some? {
      var i := s.current.value;
      LiveUpdate(s.sessions, i, s.sessions[i].(closing := true, closeSent := true));
    }
  }

  lemma RunOne(s: State, e: Event, rest: seq<Event>)
    requires Enabled(s, e) && Possible(Step(s, e), rest)
    ensures Possible(s, [e] + rest) && Run(s, [e] + rest) == Run(Step(s, e), rest)
  {
    assert ([e] + rest)[1..] == rest;
  }

  const SIGNALLED: State := START.(terminating := true)
  const CONNECTED: State := SIGNALLED.(connecting := 0, sessions := [NEW])
  const LEFT: State := CONNECTED.(sessions := [NEW.(begun := true)], current := Some(0))

  lemma Steps()
    ensures Enabled(START, Signal) && Step(START, Signal) == SIGNALLED
    ensures Enabled(SIGNALLED, Connected) && Step(SIGNALLED, Connected) == CONNECTED
    ensures Enabled(CONNECTED, Read(0, Other)) && Step(CONNECTED, Read(0, Other)) == LEFT
  {
    hide OnWrite, OnExpire, Retired;
  }

  /** So a signal during the connection attempt leaves a session behind that nobody closes. */
  lemma SignalWhileConnecting()
    ensures Possible(START, [Signal] + ([Connected] + ([Read(0, Other)] + [])))
    ensures var s := Run(START, [Signal] + ([Connected] + ([Read(0, Other)] + [])));
            s.terminating && s.current == Some(0) && s.sessions == [NEW.(begun := true)]
  {
    Steps();
    RunOne(CONNECTED, Read(0, Other), []);
    RunOne(SIGNALLED, Connected, [Read(0, Other)] + []);
    RunOne(START, Signal, [Connected] + ([Read(0, Other)] + []));
  }

  // ---------- The imperative gateway ----------

  class Gateway {
    var sessions: seq<Session>
    var wsSession: Option<nat>
    var wsTerminating: bool
    var connecting: nat
    var countdown: nat
    ghost var replaced: seq<nat>

    ghost function Now(): State
      reads this
    {
      State(sessions, wsSession, wsTerminating, connecting, countdown, replaced)
    }

    // Run: the gateway is started.
    constructor ()
      ensures Now() == START
    {
      sessions, wsSession, wsTerminating, connecting, countdown, replaced := [], None, false, 1, 0, [];
    }

    method RunSession()
      modifies this`connecting
      ensures connecting == old(connecting) + 1
    {
      connecting := connecting + 1;
    }

    method Restart(i: nat)
      requires i < |sessions|
      modifies this
      ensures Now() == Retired(old(Now()), i, true)
    {
      if sessions[i].closing { return; }
      sessions := sessions[i := sessions[i].(closing := true, closeSent := true)];
      if wsSession == Some(i) { wsSession := None; }
      if !wsTerminating {
        replaced := replaced + [i];
        RunSession();
      }
    }

    method OnClose(i: nat)
      requires i < |sessions|
      modifies this
      ensures Now() == Retired(old(Now()), i, false)
    {
      if sessions[i].closing { return; }
      sessions := sessions[i := sessions[i].(closing := true, closeSent := false)];
      if wsSession == Some(i) { wsSession := None; }
      if !wsTerminating {
        replaced := replaced + [i];
        RunSession();
      }
    }

    method Send(i: nat, msg: nat)
      requires i < |sessions|
      modifies this`sessions
      ensures Now() == With(old(Now()), i, Sent(old(sessions[i]), msg))
    {
      var x := sessions[i];
      x := x.(queue := x.queue + [msg], submitted := x.submitted + [msg]);
      if |x.queue| == 1 { x := x.(writes := x.writes + [msg]); }
      sessions := sessions[i := x];
    }

    method SendHeartbeat(i: nat, msg: nat)
      requires i < |sessions|
      modifies this`sessions
      ensures Now() == With(old(Now()), i, Heartbeat(old(sessions[i]), msg))
    {
      ghost var before := sessions;
      sessions := sessions[i := sessions[i].(hbAck := false)];
      ghost var x := sessions[i];
      Send(i, msg);
      assert before[i := x][i := Sent(x, msg)] == before[i := Sent(x, msg)];
    }

    // The handler of a read; the first one names the session before it goes on.
    method OnReadHandler(i: nat, reading: Reading)
      requires i < |sessions|
      modifies this
      ensures Now() == OnRead(Opened(old(Now()), i), i, reading)
    {
      if !sessions[i].begun {
        sessions := sessions[i := sessions[i].(begun := true)];
        wsSession := Some(i);
      }
      match reading {
        case Closed(code) =>
          if code in FATAL { wsTerminating := true; }
          OnClose(i);
        case Lost => OnClose(i);
        case Canceled =>
        case Broken => Restart(i);
        case InvalidSession => Restart(i);
        case Hello(msg) =>
          if !sessions[i].closing { Greet(i, msg); }
        case HeartbeatRequest(msg, pending) =>
          if !sessions[i].closing && pending { SendHeartbeat(i, msg); }
        case HeartbeatAck =>
          if !sessions[i].closing { sessions := sessions[i := sessions[i].(hbAck := true)]; }
        case Other =>
      }
    }

    // OP_HELLO: the session identifies itself or resumes an earlier one.
    method Greet(i: nat, msg: nat)
      requires i < |sessions|
      modifies this`sessions
      ensures Now() == With(old(Now()), i, Sent(old(sessions[i]).(hbAck := true), msg))
    {
      ghost var before := sessions;
      sessions := sessions[i := sessions[i].(hbAck := true)];
      ghost var x := sessions[i];
      Send(i, msg);
      assert before[i := x][i := Sent(x, msg)] == before[i := Sent(x, msg)];
    }

    method OnWriteHandler(i: nat, writing: Writing)
      requires Enabled(Now(), Write(i, writing))
      modifies this
      ensures Now() == OnWrite(old(Now()), i, writing)
    {
      var x := sessions[i];
      if writing == WriteCanceled || x.closing {
        sessions := sessions[i := x.(writes := x.writes[1..], stalled := x.stalled || !x.closing)];
        return;
      }
      var message := x.writes[0];
      sessions := sessions[i := x.(writes := x.writes[1..])];
      if writing == WriteFailed {
        Restart(i);
        return;
      }
      ghost var before, popped := sessions, Popped(x);
      assert x.writes[1..] + [] == x.writes[1..];
      x := sessions[i];
      x := x.(queue := x.queue[1..], written := x.written + [message]);
      if x.queue != [] { x := x.(writes := x.writes + [x.queue[0]]); }
      assert x == popped && before[i := x] == old(sessions)[i := x];
      sessions := sessions[i := x];
    }

    method OnExpireHandler(i: nat, canceled: bool, msg: nat)
      requires i < |sessions|
      modifies this
      ensures Now() == OnExpire(old(Now()), i, canceled, msg)
    {
      if canceled || sessions[i].closing { return; }
      if !sessions[i].hbAck {
        Restart(i);
        return;
      }
      SendHeartbeat(i, msg);
    }

    // A connection attempt ends: with a session, whose first read is under way, or with a countdown to the next one.
    method OnConnect(success: bool)
      requires connecting > 0
      modifies this
      ensures Now() == Step(old(Now()), if success then Connected else ConnectFailed)
    {
      connecting := connecting - 1;
      if success {
        sessions := sessions + [NEW];
      } else {
        countdown := countdown + 1;
      }
    }

    // The countdown of retry is over, or was given up because the gateway is terminating.
    method OnRetry()
      requires countdown > 0
      modifies this
      ensures Now() == Step(old(Now()), CountdownOver)
    {
      countdown := countdown - 1;
      if !wsTerminating { RunSession(); }
    }

    method OnSignal()
      requires wsSession.Some? ==> wsSession.value < |sessions|
      modifies this
      ensures Now() == Step(old(Now()), Signal)
    {
      wsTerminating := true;
      if wsSession.Some? { Restart(wsSession.value); }
    }
  }
}
