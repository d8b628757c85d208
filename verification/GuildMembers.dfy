/** Requests for the members of a guild: chunks arrive over the gateway and a suspended coroutine consumes them. */
module GuildMembers {
  import opened Wrappers

  datatype Chunk = Chunk(index: nat, count: nat, members: seq<nat>)

  datatype Error = Corrupt(reason: nat) | RateLimited | SessionReset | TimedOut | OutOfSequence

  /**
   * Where the consuming coroutine stands: suspended until a chunk arrives (the count is known once the first has), at a
   * co_yield with so many members of the front chunk handed out, on its way back to the strand, or finished.
   */
  datatype Frame =
    | Waiting(index: nat, total: Option<nat>)
    | Yielding(index: nat, count: nat, given: nat)
    | Hopping(index: nat, count: nat)
    | Ended(count: nat)
    | Abandoned(index: nat, count: nat, given: nat)
    | Failed(index: nat, error: Error)

  /**
   * An entry with its coroutine, and the history of both: the members yielded and the chunks that arrived. The flag
   * stale records that a coroutine that had already finished was resumed, which is undefined behaviour. An entry that
   * was erased is no longer reached by events.
   */
  datatype Request = Request(
    chunks: seq<Chunk>, coro: bool, except: Option<Error>, startedAt: int,
    frame: Frame, yielded: seq<nat>, arrived: seq<Chunk>, stale: bool, erased: bool)

  const TIMEOUT := 120_000_000_000 // two minutes, in nanoseconds
  const BATCH := 100

  // ---------- What the coroutine does ----------

  function Suspend(r: Request, index: nat, total: Option<nat>, now: int): Request {
    match r.except
    case Some(e) => r.(frame := Failed(index, e))
    case None => r.(startedAt := now, coro := true, frame := Waiting(index, total))
  }

  function Begin(now: int): Request {
    Suspend(Request([], false, None, 0, Waiting(0, None), [], [], false, false), 0, None, now)
  }

  /** The loop over the chunks, up to the next suspension. */
  function Consume(r: Request, index: nat, count: nat, now: int): Request
    decreases |r.chunks|
  {
    if index >= count then r.(frame := Ended(count))
    else if r.chunks == [] then Suspend(r, index, Some(count), now)
    else if r.chunks[0].count != count || r.chunks[0].index != index then r.(frame := Failed(index, OutOfSequence))
    else if r.chunks[0].members == [] then Consume(r.(chunks := r.chunks[1..]), index + 1, count, now)
    else r.(yielded := r.yielded + [r.chunks[0].members[0]], frame := Yielding(index, count, 1))
  }

  /** A resumption without an exception finds a chunk. */
  predicate Wakeable(r: Request) {
    r.coro && r.frame.Waiting? && r.except.None? ==> r.chunks != []
  }

  /** The entry's coroutine is resumed if there is one. */
  function Woken(r: Request, now: int): Request
    requires Wakeable(r)
  {
    if !r.coro then r
    else if !r.frame.Waiting? then r.(stale := true)
    else if r.except.Some? then r.(frame := Failed(r.frame.index, r.except.value))
    else Consume(r.(coro := false), r.frame.index, if r.frame.total.Some? then r.frame.total.value else r.chunks[0].count, now)
  }

  datatype Event =
    | Arrive(chunk: Chunk, now: int) // a GUILD_MEMBERS_CHUNK event
    | Fail(error: Error)             // a chunk that cannot be parsed, a RATE_LIMITED event or a session reset
    | Expire(now: int)               // a heartbeat
    | Next                           // the reader asks for the next member
    | Hop(now: int)                  // the coroutine is back on the strand
    | Abandon                        // the reader stops
    | Erase                          // the deferred erasure of the entry of a finished coroutine

  predicate Finished(f: Frame) {
    f.Ended? || f.Abandoned? || f.Failed?
  }

  predicate Enabled(r: Request, e: Event) {
    match e
    case Next => r.frame.Yielding? && r.chunks != []
    case Abandon => r.frame.Yielding?
    case Hop(_) => r.frame.Hopping? && r.chunks != []
    case Erase => Finished(r.frame) && !r.erased
    case Arrive(_, _) => r.erased || Wakeable(r.(chunks := r.chunks + [e.chunk]))
    case _ => true
  }

  function Step(r: Request, e: Event): Request
    requires Enabled(r, e)
  {
    match e
    case Arrive(chunk, now) => if r.erased then r else Woken(r.(chunks := r.chunks + [chunk], arrived := r.arrived + [chunk]), now)
    case Fail(error) => if r.erased then r else Woken(r.(except := Some(error)), 0)
    case Expire(now) => if !r.erased && r.coro && now - r.startedAt > TIMEOUT then Woken(r.(except := Some(TimedOut)), now) else r
    case Next => Advance(r)
    case Hop(now) => Consume(r.(chunks := r.chunks[1..]), r.frame.index + 1, r.frame.count, now)
    case Abandon => r.(frame := Abandoned(r.frame.index, r.frame.count, r.frame.given))
    case Erase => r.(erased := true)
  }

  function Advance(r: Request): Request
    requires r.frame.Yielding? && r.chunks != []
  {
    var given, members := r.frame.given, r.chunks[0].members;
    if given < |members|
    then r.(yielded := r.yielded + [members[given]], frame := Yielding(r.frame.index, r.frame.count, given + 1))
    else r.(frame := Hopping(r.frame.index, r.frame.count))
  }

  // ---------- What the chunks say ----------

  function Flat(cs: seq<Chunk>): seq<nat> {
    if cs == [] then [] else Flat(cs[..|cs| - 1]) + cs[|cs| - 1].members
  }

  lemma FlatNext(cs: seq<Chunk>, i: nat)
    requires i < |cs|
    ensures Flat(cs[..i + 1]) == Flat(cs[..i]) + cs[i].members
  {
    assert cs[..i + 1][..i] == cs[..i];
  }

  lemma FlatAppend(cs: seq<Chunk>, c: Chunk)
    ensures Flat(cs + [c]) == Flat(cs) + c.members
  {
    assert (cs + [c])[..|cs|] == cs;
  }

  lemma FlatNothing(a: seq<Chunk>)
    ensures Flat(a + []) == Flat(a) + Flat([])
  {
    assert a + [] == a;
  }

  lemma {:induction false} FlatConcat(a: seq<Chunk>, b: seq<Chunk>)
    ensures Flat(a + b) == Flat(a) + Flat(b)
  {
    hide Flat;
    if b == [] {
      FlatNothing(a);
    } else {
      var front, last := b[..|b| - 1], b[|b| - 1];
      FlatConcat(a, front);
      FlatAppend(front, last);
      FlatAppend(a + front, last);
      assert b == front + [last] && a + b == a + front + [last];
      assert Flat(a) + (Flat(front) + last.members) == Flat(a) + Flat(front) + last.members;
    }
  }

  /** The first k chunks are numbered 0, 1, 2, ... and agree on their number. */
  ghost predicate InSequence(cs: seq<Chunk>, k: nat, count: nat) {
    k <= |cs| && forall j :: 0 <= j < k ==> cs[j].index == j && cs[j].count == count
  }

  /** Chunk k is not number k, or disagrees with the first about their number. */
  predicate OutOfTurn(cs: seq<Chunk>, k: nat) {
    k < |cs| && (cs[k].index != k || cs[k].count != cs[0].count)
  }

  // ---------- The invariant of a request ----------

  ghost predicate Inv(r: Request) {
    (r.erased ==> Finished(r.frame)) && FrameInv(r)
  }

  ghost predicate FrameInv(r: Request) {
    match r.frame
    case Waiting(index, total) =>
      // no wakeup is lost: a suspended coroutine can be resumed and leaves no chunk and no exception behind
      && r.coro && r.chunks == [] && r.except == None
      && |r.arrived| == index && r.yielded == Flat(r.arrived)
      && (if total.None? then index == 0 else 0 < index < total.value && InSequence(r.arrived, index, total.value))
    case Yielding(index, count, given) =>
      !r.coro && Halfway(r, index, count, given)
    case Hopping(index, count) =>
      !r.coro && index < |r.arrived| && Halfway(r, index, count, |r.arrived[index].members|)
    case Abandoned(index, count, given) =>
      !r.coro && index < |r.arrived| && InSequence(r.arrived, index + 1, count)
      && given <= |r.arrived[index].members| && r.yielded == Flat(r.arrived[..index]) + r.arrived[index].members[..given]
    case Ended(count) =>
      // all or nothing: a generator that ends has yielded every member of every chunk
      && !r.coro && InSequence(r.arrived, count, count) && r.yielded == Flat(r.arrived[..count])
      && r.arrived != [] && r.arrived[0].count == count
    case Failed(index, error) =>
      // a generator that fails does so between two chunks, for an exception or for a chunk that is out of turn
      && index <= |r.arrived| && r.yielded == Flat(r.arrived[..index])
      && (index > 0 ==> InSequence(r.arrived, index, r.arrived[0].count))
      && (r.except.Some? || (error == OutOfSequence && OutOfTurn(r.arrived, index)))
  }

  ghost predicate Halfway(r: Request, index: nat, count: nat, given: nat) {
    && index < count && index < |r.arrived| && r.chunks == r.arrived[index..]
    && InSequence(r.arrived, index + 1, count)
    && given <= |r.arrived[index].members|
    && r.yielded == Flat(r.arrived[..index]) + r.arrived[index].members[..given]
  }

  /** Between two chunks, with the coroutine running. */
  ghost predicate Between(r: Request, index: nat, count: nat) {
    && !r.coro && !r.erased && r.arrived != [] && r.arrived[0].count == count
    && index <= count && index <= |r.arrived| && r.chunks == r.arrived[index..]
    && InSequence(r.arrived, index, count) && r.yielded == Flat(r.arrived[..index])
  }

  lemma PoppedIsBetween(r: Request, index: nat, count: nat)
    requires Between(r, index, count) && index < count && r.chunks != []
    requires r.chunks[0].count == count && r.chunks[0].index == index && r.chunks[0].members == []
    ensures Between(r.(chunks := r.chunks[1..]), index + 1, count)
  {
    assert r.chunks[0] == r.arrived[index];
    FlatNext(r.arrived, index);
  }

  lemma FirstYield(r: Request, index: nat, count: nat)
    requires Between(r, index, count) && index < count && r.chunks != []
    requires r.chunks[0].count == count && r.chunks[0].index == index && r.chunks[0].members != []
    ensures Inv(r.(yielded := r.yielded + [r.chunks[0].members[0]], frame := Yielding(index, count, 1)))
  {
    assert r.chunks[0] == r.arrived[index];
    assert r.arrived[index].members[..1] == [r.arrived[index].members[0]];
  }

  lemma SuspendKeepsInv(r: Request, index: nat, count: nat, now: int)
    requires Between(r, index, count) && 0 < index < count && r.chunks == []
    ensures Inv(Suspend(r, index, Some(count), now))
  {
    assert r.arrived[..index] == r.arrived;
  }

  lemma {:induction false} ConsumeKeepsInv(r: Request, index: nat, count: nat, now: int)
    requires Between(r, index, count) && (index == 0 ==> r.chunks != [])
    ensures Inv(Consume(r, index, count, now))
    decreases |r.chunks|
  {
    if index >= count {
    } else if r.chunks == [] {
      SuspendKeepsInv(r, index, count, now);
    } else if r.chunks[0].count != count || r.chunks[0].index != index {
      assert r.chunks[0] == r.arrived[index];
    } else if r.chunks[0].members == [] {
      PoppedIsBetween(r, index, count);
      ConsumeKeepsInv(r.(chunks := r.chunks[1..]), index + 1, count, now);
    } else {
      FirstYield(r, index, count);
    }
  }

  lemma ExtendedHalfway(r: Request, chunk: Chunk, index: nat, count: nat, given: nat)
    requires Halfway(r, index, count, given)
    ensures Halfway(r.(chunks := r.chunks + [chunk], arrived := r.arrived + [chunk]), index, count, given)
  {
    hide Flat;
    assert (r.arrived + [chunk])[..index] == r.arrived[..index];
    assert r.chunks + [chunk] == (r.arrived + [chunk])[index..];
  }

  lemma ArriveKeepsInv(r: Request, chunk: Chunk, now: int)
    requires Inv(r)
    ensures Enabled(r, Arrive(chunk, now)) && Inv(Step(r, Arrive(chunk, now)))
  {
    hide Flat, Consume;
    if r.erased { return; }
    var r1 := r.(chunks := r.chunks + [chunk], arrived := r.arrived + [chunk]);
    assert forall i :: 0 <= i <= |r.arrived| ==> r1.arrived[..i] == r.arrived[..i];
    if r.frame.Waiting? {
      var index := r.frame.index;
      assert r1.arrived[..index] == r.arrived;
      ConsumeKeepsInv(r1.(coro := false), index, if r.frame.total.Some? then r.frame.total.value else chunk.count, now);
    } else if r.frame.Yielding? {
      ExtendedHalfway(r, chunk, r.frame.index, r.frame.count, r.frame.given);
    } else if r.frame.Hopping? {
      ExtendedHalfway(r, chunk, r.frame.index, r.frame.count, |r.arrived[r.frame.index].members|);
    }
  }

  lemma HopKeepsInv(r: Request, now: int)
    requires Inv(r) && r.frame.Hopping?
    ensures Enabled(r, Hop(now)) && Inv(Step(r, Hop(now)))
  {
    var index := r.frame.index;
    FlatNext(r.arrived, index);
    var members := r.arrived[index].members;
    assert members[..|members|] == members;
    assert r.chunks[1..] == r.arrived[index + 1..];
    ConsumeKeepsInv(r.(chunks := r.chunks[1..]), index + 1, r.frame.count, now);
  }

  lemma NextKeepsInv(r: Request)
    requires Inv(r) && r.frame.Yielding?
    ensures Enabled(r, Next) && Inv(Step(r, Next))
  {
    var index, given := r.frame.index, r.frame.given;
    var members := r.arrived[index].members;
    assert r.chunks[0] == r.arrived[index];
    if given < |members| {
      assert members[..given + 1] == members[..given] + [members[given]];
    }
  }

  lemma StepKeepsInv(r: Request, e: Event)
    requires Inv(r) && Enabled(r, e)
    ensures Inv(Step(r, e))
  {
    match e {
      case Arrive(chunk, now) => ArriveKeepsInv(r, chunk, now);
      case Hop(now) => HopKeepsInv(r, now);
      case Next => NextKeepsInv(r);
      case Fail(_) => FailureKeepsInv(r, e);
      case Expire(_) => FailureKeepsInv(r, e);
      case _ =>
    }
  }

  lemma FailureKeepsInv(r: Request, e: Event)
    requires Inv(r) && (e.Fail? || e.Expire?)
    ensures Inv(Step(r, e))
  {
    if r.frame.Waiting? {
      assert r.arrived[..r.frame.index] == r.arrived;
    }
  }

  // ---------- Every run of one request ----------

  ghost predicate Possible(r: Request, events: seq<Event>)
    decreases |events|
  {
    events == [] || (Enabled(r, events[0]) && Possible(Step(r, events[0]), events[1..]))
  }

  ghost function Run(r: Request, events: seq<Event>): Request
    requires Possible(r, events)
    decreases |events|
  {
    if events == [] then r else Run(Step(r, events[0]), events[1..])
  }

  lemma {:induction false} RunKeepsInv(r: Request, events: seq<Event>)
    requires Inv(r) && Possible(r, events)
    ensures Inv(Run(r, events))
    decreases |events|
  {
    hide Inv;
    if events != [] {
      StepKeepsInv(r, events[0]);
      RunKeepsInv(Step(r, events[0]), events[1..]);
    }
  }

  /** The chunks that the events bring before they erase the entry. */
  function Brought(events: seq<Event>): seq<Chunk> {
    if events == [] || events[0].Erase? then []
    else (if events[0].Arrive? then [events[0].chunk] else []) + Brought(events[1..])
  }

  lemma {:induction false} ConsumeKeepsHistory(r: Request, index: nat, count: nat, now: int)
    ensures var q := Consume(r, index, count, now);
            q.except == r.except && q.arrived == r.arrived && q.erased == r.erased
    decreases |r.chunks|
  {
    if index < count && r.chunks != [] && r.chunks[0].members == [] {
      ConsumeKeepsHistory(r.(chunks := r.chunks[1..]), index + 1, count, now);
    }
  }

  lemma StepArrived(r: Request, e: Event)
    requires Enabled(r, e) && !r.erased
    ensures Step(r, e).arrived == r.arrived + if e.Arrive? then [e.chunk] else []
    ensures Step(r, e).erased <==> e.Erase?
  {
    if e.Arrive? && r.coro && r.frame.Waiting? {
      var r1 := r.(coro := false, chunks := r.chunks + [e.chunk], arrived := r.arrived + [e.chunk]);
      ConsumeKeepsHistory(r1, r.frame.index, if r.frame.total.Some? then r.frame.total.value else r1.chunks[0].count, e.now);
    } else if e.Hop? {
      ConsumeKeepsHistory(r.(chunks := r.chunks[1..]), r.frame.index + 1, r.frame.count, e.now);
    }
  }

  /** No chunk is lost: what has arrived is what the events brought, whatever the reader was doing then. */
  lemma {:induction false} ArrivedIs(r: Request, events: seq<Event>)
    requires Inv(r) && !r.erased && Possible(r, events)
    ensures Run(r, events).arrived == r.arrived + Brought(events)
    decreases |events|
  {
    hide Inv;
    if events != [] {
      var e, rest := events[0], events[1..];
      StepArrived(r, e);
      StepKeepsInv(r, e);
      if e.Erase? {
        ErasedForGood(Step(r, e), rest);
      } else {
        ArrivedIs(Step(r, e), rest);
        assert r.arrived + (if e.Arrive? then [e.chunk] else []) + Brought(rest)
            == r.arrived + ((if e.Arrive? then [e.chunk] else []) + Brought(rest));
      }
    }
  }

  /** So many chunks have been opened. */
  function Opened(f: Frame): nat {
    match f
    case Waiting(index, _) => index
    case Yielding(index, _, _) => index + 1
    case Hopping(index, _) => index + 1
    case Abandoned(index, _, _) => index + 1
    case Ended(count) => count
    case Failed(index, _) => index
  }

  lemma PrefixOfOpened(r: Request)
    requires Inv(r)
    ensures Opened(r.frame) <= |r.arrived| && r.yielded <= Flat(r.arrived[..Opened(r.frame)])
  {
    if r.frame.Yielding? || r.frame.Hopping? || r.frame.Abandoned? {
      FlatNext(r.arrived, r.frame.index);
    } else if r.frame.Waiting? {
      assert r.arrived[..r.frame.index] == r.arrived;
    }
  }

  lemma OpenedInSequence(r: Request)
    requires Inv(r) && r.arrived != []
    ensures InSequence(r.arrived, Opened(r.frame), r.arrived[0].count)
  {
  }

  /** Whatever happens, the reader has seen the members of chunks 0, 1, 2, ... in order and without a gap. */
  lemma YieldsPrefix(now: int, events: seq<Event>)
    requires Possible(Begin(now), events)
    ensures var r := Run(Begin(now), events);
            && r.arrived == Brought(events) && r.yielded <= Flat(r.arrived)
            && Opened(r.frame) <= |r.arrived| && r.yielded <= Flat(r.arrived[..Opened(r.frame)])
            && (r.arrived != [] ==> InSequence(r.arrived, Opened(r.frame), r.arrived[0].count))
  {
    var r := Run(Begin(now), events);
    BeginIsSound(now);
    RunKeepsInv(Begin(now), events);
    ArrivedIs(Begin(now), events);
    var k := Opened(r.frame);
    PrefixOfOpened(r);
    FlatConcat(r.arrived[..k], r.arrived[k..]);
    assert r.arrived == r.arrived[..k] + r.arrived[k..];
    if r.arrived != [] { OpenedInSequence(r); }
  }

  /** A coroutine that is suspended can be resumed, and there is neither a chunk nor an exception it should have seen. */
  lemma NoLostWakeup(now: int, events: seq<Event>)
    requires Possible(Begin(now), events)
    ensures var r := Run(Begin(now), events); r.frame.Waiting? ==> r.coro && r.chunks == [] && r.except == None
  {
    BeginIsSound(now);
    RunKeepsInv(Begin(now), events);
  }

  // ---------- The reader reads on ----------

  function Load(cs: seq<Chunk>): nat {
    if cs == [] then 0 else |cs[0].members| + 2 + Load(cs[1..])
  }

  /** What is left to read in the chunks that are there. */
  function Work(r: Request): int {
    Load(r.chunks) - (if r.frame.Yielding? then r.frame.given - 1 else if r.frame.Hopping? && r.chunks != [] then |r.chunks[0].members| else 0)
  }

  lemma {:induction false} ConsumeWork(r: Request, index: nat, count: nat, now: int)
    requires !r.frame.Yielding? && !r.frame.Hopping?
    ensures var q := Consume(r, index, count, now);
            Work(q) <= Load(r.chunks) && q.arrived == r.arrived && q.except == r.except && !q.frame.Hopping? && !q.frame.Abandoned?
    decreases |r.chunks|
  {
    if index < count && r.chunks != [] && r.chunks[0].members == [] {
      ConsumeWork(r.(chunks := r.chunks[1..]), index + 1, count, now);
    }
  }

  lemma ConsumeIgnoresFrame(r: Request, f: Frame, index: nat, count: nat, now: int)
    ensures Consume(r.(frame := f), index, count, now) == Consume(r, index, count, now)
    decreases |r.chunks|
  {
    if index < count && r.chunks != [] && r.chunks[0].members == [] {
      ConsumeIgnoresFrame(r.(chunks := r.chunks[1..]), f, index + 1, count, now);
    }
  }

  /** Each step of the reader leaves it less to read, so it comes to the end of what has arrived. */
  lemma ReadingProgresses(r: Request, e: Event)
    requires Inv(r) && Enabled(r, e) && (e.Next? || e.Hop?)
    ensures 0 <= Work(r) && Work(Step(r, e)) < Work(r)
    ensures Step(r, e).arrived == r.arrived && Step(r, e).except == r.except && !Step(r, e).frame.Abandoned?
  {
    if e.Hop? {
      var r1 := r.(chunks := r.chunks[1..]);
      ConsumeIgnoresFrame(r1, Waiting(0, None), r.frame.index + 1, r.frame.count, e.now);
      ConsumeWork(r1.(frame := Waiting(0, None)), r.frame.index + 1, r.frame.count, e.now);
      assert r.chunks[0] == r.arrived[r.frame.index];
    } else {
      assert r.chunks[0] == r.arrived[r.frame.index];
    }
  }

  /** The reader reads on, without anything arriving, until it has to wait or is done. */
  ghost function ReadAll(r: Request, now: int): (q: Request)
    requires Inv(r)
    ensures Inv(q) && q.arrived == r.arrived && q.except == r.except && !q.frame.Yielding? && !q.frame.Hopping?
    ensures !r.frame.Abandoned? ==> !q.frame.Abandoned?
    decreases Work(r)
  {
    if r.frame.Yielding? then
      StepKeepsInv(r, Next); ReadingProgresses(r, Next); ReadAll(Step(r, Next), now)
    else if r.frame.Hopping? then
      StepKeepsInv(r, Hop(now)); ReadingProgresses(r, Hop(now)); ReadAll(Step(r, Hop(now)), now)
    else r
  }

  /** Chunks in order and of one count, in any interleaving with the reader: all members, once each, and the end. */
  lemma AllMembersOnce(now: int, events: seq<Event>, later: int)
    requires Possible(Begin(now), events)
    requires var cs := Brought(events); cs != [] && InSequence(cs, |cs|, |cs|)
    requires var r := Run(Begin(now), events); r.except == None && !r.frame.Abandoned?
    ensures var r, cs := Run(Begin(now), events), Brought(events);
            Inv(r) && ReadAll(r, later).frame == Ended(|cs|) && ReadAll(r, later).yielded == Flat(cs)
  {
    BeginIsSound(now);
    RunKeepsInv(Begin(now), events);
    ArrivedIs(Begin(now), events);
    var r, cs := Run(Begin(now), events), Brought(events);
    assert r.arrived == [] + cs == cs;
    hide Inv, ReadAll, Flat, Step, Begin;
    ReadsToTheEnd(r, later);
  }

  lemma ReadsToTheEnd(r: Request, later: int)
    requires Inv(r) && r.arrived != [] && InSequence(r.arrived, |r.arrived|, |r.arrived|)
    requires r.except == None && !r.frame.Abandoned?
    ensures ReadAll(r, later).frame == Ended(|r.arrived|) && ReadAll(r, later).yielded == Flat(r.arrived)
  {
    var q := ReadAll(r, later);
    hide ReadAll, Step, Flat;
    assert r.arrived[..|r.arrived|] == r.arrived;
    assert r.arrived[0].count == |r.arrived|;
  }

  /** Where reading stops that is under way: at the end exactly if all chunks are there, otherwise at any exception. */
  lemma ReadingStops(r: Request, now: int)
    requires Inv(r) && (r.frame.Yielding? || r.frame.Hopping?)
    ensures var n := r.arrived[0].count;
            && (ReadAll(r, now).frame.Ended? <==> InSequence(r.arrived, n, n))
            && (ReadAll(r, now).frame.Waiting? <==> r.except == None && |r.arrived| < n && InSequence(r.arrived, |r.arrived|, n))
    decreases Work(r)
  {
    hide Flat, Load, Work, Consume;
    var e := if r.frame.Yielding? then Next else Hop(now);
    var index, n := r.frame.index, r.arrived[0].count;
    assert r.arrived[0].count == r.frame.count;
    StepKeepsInv(r, e);
    ReadingProgresses(r, e);
    var r1 := Step(r, e);
    if r1.frame.Yielding? || r1.frame.Hopping? {
      ReadingStops(r1, now);
    } else {
      FlatNext(r.arrived, index);
      var members := r.arrived[index].members;
      assert members[..|members|] == members;
      assert r.chunks[1..] == r.arrived[index + 1..];
      ConsumeVerdict(r.(chunks := r.chunks[1..]), index + 1, n, now);
    }
  }

  lemma {:induction false} ConsumeVerdict(r: Request, index: nat, count: nat, now: int)
    requires Between(r, index, count)
    ensures var f := Consume(r, index, count, now).frame;
            && (f.Ended? ==> InSequence(r.arrived, count, count))
            && (f.Failed? ==> !InSequence(r.arrived, count, count))
            && (f.Failed? ==> r.except.Some? || !InSequence(r.arrived, |r.arrived|, count))
            && (f.Waiting? ==> r.except == None && |r.arrived| < count && InSequence(r.arrived, |r.arrived|, count))
    decreases |r.chunks|
  {
    hide Flat;
    if index < count && r.chunks != [] {
      assert r.chunks[0] == r.arrived[index];
      if r.chunks[0].count == count && r.chunks[0].index == index && r.chunks[0].members == [] {
        PoppedIsBetween(r, index, count);
        ConsumeVerdict(r.(chunks := r.chunks[1..]), index + 1, count, now);
      }
    }
  }

  // ---------- What can happen, and how a request fails ----------

  /** Chunks, failures and heartbeats can come at any time; the reader and the coroutine take turns. */
  lemma EventsPossible(r: Request, e: Event)
    requires Inv(r)
    ensures Enabled(r, e) <==>
            match e
            case Next => r.frame.Yielding?
            case Abandon => r.frame.Yielding?
            case Hop(_) => r.frame.Hopping?
            case Erase => !r.erased && (r.frame.Ended? || r.frame.Abandoned? || r.frame.Failed?)
            case _ => true
  {
  }

  /** The event leaves the coroutine suspended anew: it has consumed all chunks that are there. */
  predicate Suspends(r: Request, e: Event)
    requires Enabled(r, e)
  {
    (e.Arrive? || e.Hop?) && Step(r, e).frame.Waiting?
  }

  /** When the coroutine was suspended last, by the times of the events; it was at t before them. */
  ghost function SuspendedAt(r: Request, t: int, events: seq<Event>): int
    requires Possible(r, events)
    decreases |events|
  {
    if events == [] then t
    else SuspendedAt(Step(r, events[0]), if Suspends(r, events[0]) then events[0].now else t, events[1..])
  }

  lemma {:induction false} ConsumeSuspendsNow(r: Request, index: nat, count: nat, now: int)
    requires !r.frame.Waiting?
    ensures var q := Consume(r, index, count, now); q.frame.Waiting? ==> q.startedAt == now
    decreases |r.chunks|
  {
    if index < count && r.chunks != [] && r.chunks[0].members == [] {
      ConsumeSuspendsNow(r.(chunks := r.chunks[1..]), index + 1, count, now);
    }
  }

  lemma StepSuspends(r: Request, e: Event)
    requires Inv(r) && Enabled(r, e) && Step(r, e).frame.Waiting?
    ensures Step(r, e).startedAt == if Suspends(r, e) then e.now else r.startedAt
    ensures !Suspends(r, e) ==> r.frame.Waiting?
  {
    hide FrameInv, Flat;
    if e.Arrive? && !r.erased && r.coro && r.frame.Waiting? {
      var r1 := r.(coro := false, chunks := r.chunks + [e.chunk], arrived := r.arrived + [e.chunk]);
      var count := if r.frame.total.Some? then r.frame.total.value else r1.chunks[0].count;
      ConsumeIgnoresFrame(r1, Ended(0), r.frame.index, count, e.now);
      ConsumeSuspendsNow(r1.(frame := Ended(0)), r.frame.index, count, e.now);
    } else if e.Arrive? {
      assert r.erased || !r.coro ==> Step(r, e).frame == r.frame;
      NotWaitingWithoutHandle(r);
    } else if e.Hop? {
      ConsumeSuspendsNow(r.(chunks := r.chunks[1..]), r.frame.index + 1, r.frame.count, e.now);
    }
  }

  lemma NotWaitingWithoutHandle(r: Request)
    requires Inv(r)
    ensures r.frame.Waiting? ==> r.coro && !r.erased
  {
  }

  lemma {:induction false} StartedAtIs(r: Request, t: int, events: seq<Event>)
    requires Inv(r) && Possible(r, events) && (r.frame.Waiting? ==> r.startedAt == t)
    ensures Run(r, events).frame.Waiting? ==> Run(r, events).startedAt == SuspendedAt(r, t, events)
    decreases |events|
  {
    hide Inv;
    if events != [] {
      var e := events[0];
      StepKeepsInv(r, e);
      if Step(r, e).frame.Waiting? { StepSuspends(r, e); }
      StartedAtIs(Step(r, e), if Suspends(r, e) then e.now else t, events[1..]);
    }
  }

  /** In every run: a heartbeat fails a suspended request exactly if it was suspended more than two minutes before. */
  lemma TimesOutIff(now: int, events: seq<Event>, later: int)
    requires Possible(Begin(now), events)
    requires Run(Begin(now), events).frame.Waiting?
    ensures var r := Run(Begin(now), events);
            Step(r, Expire(later)).frame
            == if later - SuspendedAt(Begin(now), now, events) > 120_000_000_000 then Failed(r.frame.index, TimedOut) else r.frame
  {
    hide FrameInv;
    BeginIsSound(now);
    RunKeepsInv(Begin(now), events);
    NotWaitingWithoutHandle(Run(Begin(now), events));
    StartedAtIs(Begin(now), now, events);
  }

  /** A request that is not suspended is not failed by a heartbeat. */
  lemma OnlyWaitingTimesOut(r: Request, later: int)
    requires Inv(r) && !r.frame.Waiting?
    ensures Step(r, Expire(later)).frame == r.frame
  {
    hide Consume;
  }

  /** Which error a request fails with: the one that came, the one that was kept, or that of a chunk out of turn. */
  lemma ErrorIs(r: Request, e: Event)
    requires Inv(r) && Enabled(r, e) && !Finished(r.frame) && Step(r, e).frame.Failed?
    ensures var q := Step(r, e);
            && (e.Fail? ==> q.frame.error == e.error)
            && (e.Expire? ==> q.frame.error == TimedOut)
            && (e.Arrive? || e.Hop? ==>
                  || (q.frame.error == OutOfSequence && OutOfTurn(q.arrived, q.frame.index))
                  || (q.except == Some(q.frame.error) && q.frame.index == |q.arrived|))
  {
    if e.Arrive? {
      var r1 := r.(coro := false, chunks := r.chunks + [e.chunk], arrived := r.arrived + [e.chunk]);
      assert r1.arrived[..r.frame.index] == r.arrived;
      ConsumeError(r1, r.frame.index, if r.frame.total.Some? then r.frame.total.value else e.chunk.count, e.now);
    } else if e.Hop? {
      FlatNext(r.arrived, r.frame.index);
      var members := r.arrived[r.frame.index].members;
      assert members[..|members|] == members;
      ConsumeError(r.(chunks := r.chunks[1..]), r.frame.index + 1, r.frame.count, e.now);
    }
  }

  lemma {:induction false} ConsumeError(r: Request, index: nat, count: nat, now: int)
    requires Between(r, index, count)
    ensures var q := Consume(r, index, count, now);
            q.frame.Failed? ==>
              || (q.frame.error == OutOfSequence && OutOfTurn(q.arrived, q.frame.index))
              || (q.except == Some(q.frame.error) && q.frame.index == |q.arrived|)
    decreases |r.chunks|
  {
    hide Flat;
    if index < count && r.chunks != [] {
      assert r.chunks[0] == r.arrived[index];
      if r.chunks[0].count == count && r.chunks[0].index == index && r.chunks[0].members == [] {
        PoppedIsBetween(r, index, count);
        ConsumeError(r.(chunks := r.chunks[1..]), index + 1, count, now);
      }
    }
  }

  /** The exception that is kept is the last failure that reached the entry. */
  lemma ExceptIs(r: Request, e: Event)
    requires Inv(r) && Enabled(r, e) && !r.erased
    ensures Step(r, e).except
            == if e.Fail? then Some(e.error)
               else if e.Expire? && r.coro && e.now - r.startedAt > 120_000_000_000 then Some(TimedOut)
               else r.except
  {
    hide FrameInv, Flat;
    if e.Arrive? && r.coro && r.frame.Waiting? {
      var r1 := r.(coro := false, chunks := r.chunks + [e.chunk], arrived := r.arrived + [e.chunk]);
      ConsumeKeepsHistory(r1, r.frame.index, if r.frame.total.Some? then r.frame.total.value else r1.chunks[0].count, e.now);
    } else if e.Hop? {
      ConsumeKeepsHistory(r.(chunks := r.chunks[1..]), r.frame.index + 1, r.frame.count, e.now);
    }
  }

  // ---------- The handle of a finished coroutine ----------

  predicate Wakes(r: Request, e: Event) {
    !r.erased && (e.Arrive? || e.Fail? || (e.Expire? && e.now - r.startedAt > TIMEOUT))
  }

  /** A finished coroutine is resumed exactly if an event reaches an entry whose request failed with the handle in it. */
  lemma StaleIff(r: Request, e: Event)
    requires Inv(r) && Enabled(r, e) && !r.stale
    ensures Step(r, e).stale <==> Wakes(r, e) && r.coro && r.frame.Failed?
  {
    if r.frame.Waiting? && e.Arrive? {
      ConsumeKeepsStale(r.(coro := false, chunks := r.chunks + [e.chunk], arrived := r.arrived + [e.chunk]), r.frame.index,
                        if r.frame.total.Some? then r.frame.total.value else e.chunk.count, e.now);
    } else if e.Hop? {
      ConsumeKeepsStale(r.(chunks := r.chunks[1..]), r.frame.index + 1, r.frame.count, e.now);
    }
  }

  lemma {:induction false} ConsumeKeepsStale(r: Request, index: nat, count: nat, now: int)
    ensures Consume(r, index, count, now).stale == r.stale && Consume(r, index, count, now).erased == r.erased
    ensures Consume(r, index, count, now).frame.Failed? ==> Consume(r, index, count, now).coro == r.coro
    decreases |r.chunks|
  {
    if index < count && r.chunks != [] && r.chunks[0].members == [] {
      ConsumeKeepsStale(r.(chunks := r.chunks[1..]), index + 1, count, now);
    }
  }

  lemma ErasesIff(r: Request, e: Event)
    requires Enabled(r, e)
    ensures Step(r, e).erased <==> r.erased || e.Erase?
  {
    if e.Arrive? && !r.erased && r.coro && r.frame.Waiting? {
      var r1 := r.(chunks := r.chunks + [e.chunk], arrived := r.arrived + [e.chunk]);
      ConsumeKeepsStale(r1.(coro := false), r.frame.index,
                        if r.frame.total.Some? then r.frame.total.value else r1.chunks[0].count, e.now);
    } else if e.Hop? {
      ConsumeKeepsStale(r.(chunks := r.chunks[1..]), r.frame.index + 1, r.frame.count, e.now);
    }
  }

  lemma {:induction false} ErasedSince(r: Request, events: seq<Event>)
    requires Possible(r, events)
    ensures Run(r, events).erased <==> r.erased || Erase in events
    decreases |events|
  {
    if events != [] {
      ErasesIff(r, events[0]);
      ErasedSince(Step(r, events[0]), events[1..]);
      assert Erase in events <==> events[0] == Erase || Erase in events[1..];
    }
  }

  /** An entry is there from the start until its erasure. */
  lemma ErasedIff(now: int, events: seq<Event>)
    requires Possible(Begin(now), events)
    ensures Run(Begin(now), events).erased <==> Erase in events
  {
    ErasedSince(Begin(now), events);
  }

  /** The handle stays in the entry exactly if it was an exception that ended the wait. */
  lemma HandleKeptIff(r: Request, e: Event)
    requires Inv(r) && Enabled(r, e) && !r.frame.Failed? && Step(r, e).frame.Failed?
    ensures Step(r, e).coro <==> e.Fail? || e.Expire?
  {
    if e.Arrive? {
      ConsumeKeepsStale(r.(coro := false, chunks := r.chunks + [e.chunk], arrived := r.arrived + [e.chunk]), r.frame.index,
                        if r.frame.total.Some? then r.frame.total.value else e.chunk.count, e.now);
    } else if e.Hop? {
      ConsumeKeepsStale(r.(chunks := r.chunks[1..]), r.frame.index + 1, r.frame.count, e.now);
    }
  }

  lemma {:induction false} NotStaleSince(r: Request, events: seq<Event>)
    requires Inv(r) && Possible(r, events) && !r.stale && (r.frame.Failed? ==> !r.coro)
    requires forall e :: e in events ==> !e.Fail? && !e.Expire?
    ensures !Run(r, events).stale
    decreases |events|
  {
    hide Inv;
    if events != [] {
      var e, q := events[0], Step(r, events[0]);
      assert e in events;
      StaleIff(r, e);
      StepKeepsInv(r, e);
      if r.frame.Failed? {
        FinishedStays(r, e);
      } else if q.frame.Failed? {
        HandleKeptIff(r, e);
      }
      NotStaleSince(q, events[1..]);
    }
  }

  /** Without a failure from outside no finished coroutine is resumed, not even after a chunk out of turn. */
  lemma StaleNeedsFailure(now: int, events: seq<Event>)
    requires Possible(Begin(now), events)
    requires forall e :: e in events ==> !e.Fail? && !e.Expire?
    ensures !Run(Begin(now), events).stale
  {
    BeginIsSound(now);
    NotStaleSince(Begin(now), events);
  }

  lemma FinishedStays(r: Request, e: Event)
    requires Inv(r) && Enabled(r, e) && Finished(r.frame)
    ensures Step(r, e).frame == r.frame && Step(r, e).yielded == r.yielded && Step(r, e).coro == r.coro
  {
  }

  lemma {:induction false} FinishedForGood(r: Request, events: seq<Event>)
    requires Inv(r) && Finished(r.frame) && Possible(r, events)
    ensures Run(r, events).frame == r.frame && Run(r, events).yielded == r.yielded
    decreases |events|
  {
    hide Inv;
    if events != [] {
      FinishedStays(r, events[0]);
      StepKeepsInv(r, events[0]);
      FinishedForGood(Step(r, events[0]), events[1..]);
    }
  }

  /** A reader who stops is given nothing more, whatever arrives. */
  lemma AbandonEnds(r: Request, events: seq<Event>)
    requires Inv(r) && r.frame.Yielding? && Possible(r, [Abandon] + events)
    ensures var q := Run(r, [Abandon] + events); q.frame.Abandoned? && q.yielded == r.yielded
  {
    assert ([Abandon] + events)[1..] == events;
    StepKeepsInv(r, Abandon);
    FinishedForGood(Step(r, Abandon), events);
  }

  /** The erasure ends the window: whatever follows, nothing happens to the request any more. */
  lemma {:induction false} ErasedForGood(r: Request, events: seq<Event>)
    requires Inv(r) && r.erased && Possible(r, events)
    ensures Run(r, events) == r
    decreases |events|
  {
    if events != [] { ErasedForGood(Step(r, events[0]), events[1..]); }
  }

  /** Two failures in a row, before the entry is erased: the first one finishes the coroutine, the second resumes it. */
  lemma StaleResumption()
    ensures Possible(Begin(0), [Fail(RateLimited), Fail(SessionReset)])
    ensures Run(Begin(0), [Fail(RateLimited), Fail(SessionReset)]).stale
  {
    var e1, e2 := Fail(RateLimited), Fail(SessionReset);
    var r1 := Step(Begin(0), e1);
    assert [e1, e2][1..] == [e2] && [e2][1..] == [];
    assert Possible(Step(r1, e2), []);
    assert Possible(r1, [e2]);
    assert Run(r1, [e2]) == Run(Step(r1, e2), []);
  }

  // ---------- The imperative form ----------

  /** Requests that have no entry yet are numbered as well; every entry is that of an earlier number. */
  ghost predicate Sound(entries: map<nat, Request>, pending: seq<nat>, nonce: nat) {
    && (forall n :: n in entries ==> n < nonce && Inv(entries[n]) && !entries[n].erased)
    && (forall i :: 0 <= i < |pending| ==> pending[i] < nonce && pending[i] !in entries)
    && (forall i, j :: 0 <= i < j < |pending| ==> pending[i] != pending[j])
  }

  /** The same event reaches every entry. */
  ghost predicate ToAll(before: map<nat, Request>, after: map<nat, Request>, e: Event)
    requires e.Fail? || e.Expire?
  {
    after.Keys == before.Keys && forall n :: n in before ==> after[n] == Step(before[n], e)
  }

  function Registered(entries: map<nat, Request>, ns: seq<nat>, now: int): map<nat, Request> {
    if ns == [] then entries else Registered(entries, ns[..|ns| - 1], now)[ns[|ns| - 1] := Begin(now)]
  }

  class Gateway {
    var entries: map<nat, Request>
    var pending: seq<nat>
    var nonce: nat
    var application: Option<bool> // whether the application has the privileged intents, once it is known
    ghost var sent: seq<nat>

    ghost predicate Valid()
      reads this
    {
      Sound(entries, pending, nonce)
    }

    constructor ()
      ensures Valid() && entries == map[] && pending == [] && sent == []
    {
      entries, pending, nonce, application, sent := map[], [], 0, None, [];
    }

    // RequestGuildMembers: a request for all members needs the privileged intents, which may have to be fetched first
    // (None: that fails); a request without a session to send it over has to wait for one.
    method RequestMembers(all: bool, fetched: Option<bool>, connected: bool, now: int) returns (ok: bool, n: nat)
      requires Valid()
      modifies this
      ensures Valid()
      ensures application == if all && old(application).None? then fetched else old(application)
      ensures ok <==> !all || application == Some(true)
      ensures n == old(nonce) && nonce == if ok then n + 1 else n
      ensures entries == (if ok && connected then old(entries)[n := Begin(now)] else old(entries))
      ensures pending == (if ok && !connected then old(pending) + [n] else old(pending))
      ensures sent == (if ok && connected then old(sent) + [n] else old(sent))
    {
      n := nonce;
      if all {
        if application.None? { application := fetched; }
        if application != Some(true) { return false, n; }
      }
      ok := true;
      BeginIsSound(now);
      nonce := nonce + 1;
      if connected {
        Register(n, now);
      } else {
        pending := pending + [n];
      }
    }

    // The payload is sent and the coroutine suspends itself in a new entry.
    method Register(n: nat, now: int)
      modifies this`entries, this`sent
      ensures entries == old(entries)[n := Begin(now)] && sent == old(sent) + [n]
    {
      sent := sent + [n];
      entries := entries[n := Begin(now)];
    }

    // rgm_resume, after a READY or a RESUMED event: there is a session now.
    method RgmResume(now: int)
      requires Valid()
      modifies this`entries, this`pending, this`sent
      ensures Valid() && pending == []
      ensures sent == old(sent) + old(pending) && entries == Registered(old(entries), old(pending), now)
    {
      hide Registered, Sound;
      ghost var all, done := pending, 0;
      NothingRegistered(entries, now);
      while pending != []
        invariant done <= |all| && pending == all[done..] && sent == old(sent) + all[..done]
        invariant entries == Registered(old(entries), all[..done], now)
        invariant Valid()
        decreases |pending|
      {
        RegisteredOneMore(old(entries), all, done, now);
        SoundRegister(entries, pending, nonce, now);
        Register(pending[0], now);
        pending := pending[1..];
        done := done + 1;
      }
      assert all[..done] == all;
    }

    // A GUILD_MEMBERS_CHUNK event; an unknown nonce makes the gateway restart its session.
    method OnChunk(n: nat, chunk: Option<Chunk>, reason: nat, now: int) returns (known: bool)
      requires Valid()
      modifies this`entries
      ensures Valid() && known == (n in old(entries))
      ensures known ==> entries == old(entries)[n := Step(old(entries)[n], if chunk.Some? then Arrive(chunk.value, now) else Fail(Corrupt(reason)))]
      ensures !known ==> entries == old(entries)
    {
      if n !in entries { return false; }
      var entry := entries[n];
      StepKeepsInv(entry, Fail(Corrupt(reason)));
      match chunk {
        case Some(c) =>
          ArriveKeepsInv(entry, c, now);
          ErasesIff(entry, Arrive(c, now));
          entry := entry.(chunks := entry.chunks + [c], arrived := entry.arrived + [c]);
        case None =>
          entry := entry.(except := Some(Corrupt(reason)));
      }
      if entry.coro { entry := Resume(entry, now); }
      entries := entries[n := entry];
      return true;
    }

    // A RATE_LIMITED event.
    method OnRateLimited(n: nat) returns (known: bool)
      requires Valid()
      modifies this`entries
      ensures Valid() && known == (n in old(entries))
      ensures entries == if known then old(entries)[n := Step(old(entries)[n], Fail(RateLimited))] else old(entries)
    {
      if n !in entries { return false; }
      var entry := entries[n];
      StepKeepsInv(entry, Fail(RateLimited));
      entry := entry.(except := Some(RateLimited));
      if entry.coro { entry := Resume(entry, 0); }
      entries := entries[n := entry];
      return true;
    }

    // The reader asks for the next member: another one of the front chunk, or the coroutine goes back to the strand.
    method Read(n: nat)
      requires Valid() && n in entries && entries[n].frame.Yielding?
      modifies this`entries
      ensures Valid() && entries == old(entries)[n := Step(old(entries)[n], Next)]
    {
      hide Sound, FrameInv;
      var entry := entries[n];
      SoundAt(entries, pending, nonce, n);
      NextKeepsInv(entry);
      SoundUpdate(entries, pending, nonce, n, Step(entry, Next));
      var Yielding(index, count, given) := entry.frame;
      var members := entry.chunks[0].members;
      if given < |members| {
        entry := entry.(yielded := entry.yielded + [members[given]], frame := Yielding(index, count, given + 1));
      } else {
        entry := entry.(frame := Hopping(index, count));
      }
      entries := entries[n := entry];
    }

    // Back on the strand, the coroutine pops the chunk that it has yielded and goes on.
    method Return(n: nat, now: int)
      requires Valid() && n in entries && entries[n].frame.Hopping?
      modifies this`entries
      ensures Valid() && entries == old(entries)[n := Step(old(entries)[n], Hop(now))]
    {
      hide Sound, FrameInv;
      var entry := entries[n];
      SoundAt(entries, pending, nonce, n);
      HopKeepsInv(entry, now);
      ErasesIff(entry, Hop(now));
      SoundUpdate(entries, pending, nonce, n, Step(entry, Hop(now)));
      var Hopping(index, count) := entry.frame;
      var next := RunLoop(entry.(chunks := entry.chunks[1..]), index + 1, count, now);
      entries := entries[n := next];
    }

    // What the destructor of the awaitable defers.
    method EraseEntry(n: nat)
      requires Valid() && n in entries && Finished(entries[n].frame)
      modifies this`entries
      ensures Valid() && n !in entries
      ensures entries == map m | m in old(entries) && m != n :: old(entries)[m]
    {
      entries := entries - {n};
    }

    // rgm_reset, after the session has been identified anew.
    method RgmReset()
      requires Valid()
      modifies this`entries
      ensures Valid() && ToAll(old(entries), entries, Fail(SessionReset))
    {
      hide Step, FrameInv;
      var todo := entries.Keys;
      while todo != {}
        invariant Reached(old(entries), entries, todo, Fail(SessionReset)) && Valid()
        decreases |todo|
      {
        assert (forall n :: n !in todo) ==> todo == {};
        var n :| n in todo;
        var entry := Reset(entries[n]);
        ReachedOneMore(old(entries), entries, todo, Fail(SessionReset), n, entry);
        SoundUpdate(entries, pending, nonce, n, entry);
        entries := entries[n := entry];
        todo := todo - {n};
      }
    }

    // rgm_timeout, with every heartbeat.
    method RgmTimeout(now: int)
      requires Valid()
      modifies this`entries
      ensures Valid() && ToAll(old(entries), entries, Expire(now))
    {
      hide Step, FrameInv;
      var todo := entries.Keys;
      while todo != {}
        invariant Reached(old(entries), entries, todo, Expire(now)) && Valid()
        decreases |todo|
      {
        assert (forall n :: n !in todo) ==> todo == {};
        var n :| n in todo;
        var entry := Timeout(entries[n], now);
        ReachedOneMore(old(entries), entries, todo, Expire(now), n, entry);
        SoundUpdate(entries, pending, nonce, n, entry);
        entries := entries[n := entry];
        todo := todo - {n};
      }
    }
  }

  /** The event has reached the entries outside todo. */
  ghost predicate Reached(before: map<nat, Request>, after: map<nat, Request>, todo: set<nat>, e: Event)
    requires e.Fail? || e.Expire?
  {
    && todo <= before.Keys == after.Keys
    && (forall n :: n in todo ==> after[n] == before[n])
    && (forall n :: n in before && n !in todo ==> after[n] == Step(before[n], e))
  }

  lemma ReachedOneMore(before: map<nat, Request>, after: map<nat, Request>, todo: set<nat>, e: Event, n: nat, q: Request)
    requires e.Fail? || e.Expire?
    requires Reached(before, after, todo, e) && n in todo && q == Step(after[n], e)
    ensures Reached(before, after[n := q], todo - {n}, e)
  {
  }

  lemma SoundAt(entries: map<nat, Request>, pending: seq<nat>, nonce: nat, n: nat)
    requires Sound(entries, pending, nonce) && n in entries
    ensures Inv(entries[n]) && !entries[n].erased
  {
  }

  lemma SoundUpdate(entries: map<nat, Request>, pending: seq<nat>, nonce: nat, n: nat, q: Request)
    requires Sound(entries, pending, nonce) && n in entries && Inv(q) && !q.erased
    ensures Sound(entries[n := q], pending, nonce)
  {
  }

  method Reset(r: Request) returns (q: Request)
    requires Inv(r) && !r.erased
    ensures q == Step(r, Fail(SessionReset)) && Inv(q) && !q.erased
  {
    StepKeepsInv(r, Fail(SessionReset));
    q := r.(except := Some(SessionReset));
    if q.coro { q := Resume(q, 0); }
  }

  method Timeout(r: Request, now: int) returns (q: Request)
    requires Inv(r) && !r.erased
    ensures q == Step(r, Expire(now)) && Inv(q) && !q.erased
  {
    StepKeepsInv(r, Expire(now));
    q := r;
    if q.coro && now - q.startedAt > TIMEOUT {
      q := Resume(q.(except := Some(TimedOut)), now);
    }
  }

  lemma NothingRegistered(entries: map<nat, Request>, now: int)
    ensures Registered(entries, [], now) == entries
  {
  }

  lemma RegisteredOneMore(entries: map<nat, Request>, all: seq<nat>, done: nat, now: int)
    requires done < |all|
    ensures all[..done + 1] == all[..done] + [all[done]]
    ensures Registered(entries, all[..done + 1], now) == Registered(entries, all[..done], now)[all[done] := Begin(now)]
  {
    assert all[..done + 1][..done] == all[..done];
  }

  lemma SoundRegister(entries: map<nat, Request>, pending: seq<nat>, nonce: nat, now: int)
    requires Sound(entries, pending, nonce) && pending != []
    ensures Sound(entries[pending[0] := Begin(now)], pending[1..], nonce)
  {
    BeginIsSound(now);
  }

  lemma BeginIsSound(now: int)
    ensures Inv(Begin(now)) && !Begin(now).erased
  {
  }

  // coro.resume(): await_resume, then the coroutine runs on to its next suspension.
  method Resume(r: Request, now: int) returns (q: Request)
    requires r.coro && Wakeable(r)
    ensures q == Woken(r, now)
  {
    if !r.frame.Waiting? { return r.(stale := true); }
    if r.except.Some? { return r.(frame := Failed(r.frame.index, r.except.value)); }
    var count := if r.frame.total.Some? then r.frame.total.value else r.chunks[0].count;
    q := RunLoop(r.(coro := false), r.frame.index, count, now);
  }

  method RunLoop(r: Request, from: nat, count: nat, now: int) returns (q: Request)
    ensures q == Consume(r, from, count, now)
  {
    q := r;
    var index: nat := from;
    while index < count && q.chunks != []
      invariant Consume(q, index, count, now) == Consume(r, from, count, now)
      decreases |q.chunks|
    {
      var chunk := q.chunks[0];
      if chunk.count != count || chunk.index != index { return q.(frame := Failed(index, OutOfSequence)); }
      if chunk.members != [] {
        return q.(yielded := q.yielded + [chunk.members[0]], frame := Yielding(index, count, 1));
      }
      q := q.(chunks := q.chunks[1..]);
      index := index + 1;
    }
    q := if index < count then Suspend(q, index, Some(count), now) else q.(frame := Ended(count));
  }

  // ---------- Waiting for a session ----------

  /** Resuming the front while there is no session: it queues again before it is popped. */
  function Requeued(pending: seq<nat>): seq<nat>
    requires pending != []
  {
    (pending + [pending[0]])[1..]
  }

  function RequeuedTimes(pending: seq<nat>, k: nat): seq<nat>
    requires pending != []
    decreases k
  {
    if k == 0 then pending else RequeuedTimes(Requeued(pending), k - 1)
  }

  /** Without a session rgm_resume would go round for ever: however often the front is resumed, all of them stay. */
  lemma {:induction false} NeverEmpties(pending: seq<nat>, k: nat)
    requires pending != []
    ensures |RequeuedTimes(pending, k)| == |pending| && multiset(RequeuedTimes(pending, k)) == multiset(pending)
    decreases k
  {
    if k > 0 {
      assert Requeued(pending) == pending[1..] + [pending[0]];
      assert pending == [pending[0]] + pending[1..];
      NeverEmpties(Requeued(pending), k - 1);
    }
  }

  /** In the entries after rgm_resume: one new one for each request that waited, and the others as they were. */
  lemma {:induction false} RegisteredAt(entries: map<nat, Request>, ns: seq<nat>, now: int, n: nat)
    ensures n in Registered(entries, ns, now) <==> n in entries || n in ns
    ensures n in ns ==> Registered(entries, ns, now)[n] == Begin(now)
    ensures n in entries && n !in ns ==> Registered(entries, ns, now)[n] == entries[n]
  {
    if ns != [] {
      assert ns == ns[..|ns| - 1] + [ns[|ns| - 1]];
      RegisteredAt(entries, ns[..|ns| - 1], now, n);
    }
  }

  // ---------- Requests by id ----------

  function Concat(batches: seq<seq<nat>>): seq<nat> {
    if batches == [] then [] else Concat(batches[..|batches| - 1]) + batches[|batches| - 1]
  }

  /** At most 100 ids are requested at a time; the batches, one after the other, are the ids. */
  method RequestMembersById(ids: seq<nat>) returns (batches: seq<seq<nat>>)
    ensures Concat(batches) == ids
    ensures forall i :: 0 <= i < |batches| ==> 0 < |batches[i]| <= 100
    ensures forall i :: 0 <= i < |batches| - 1 ==> |batches[i]| == 100
  {
    if ids == [] { return []; }
    if |ids| <= BATCH {
      assert [ids][..0] == [];
      return [ids];
    }
    batches := [];
    var offset := 0;
    while true
      invariant 0 <= offset < |ids| && Concat(batches) == ids[..offset]
      invariant forall i :: 0 <= i < |batches| ==> |batches[i]| == BATCH
      decreases |ids| - offset
    {
      var size := if |ids| - offset < BATCH then |ids| - offset else BATCH;
      ghost var before := batches;
      batches := batches + [ids[offset..offset + size]];
      assert batches[..|before|] == before;
      assert ids[..offset + size] == ids[..offset] + ids[offset..offset + size];
      offset := offset + BATCH;
      if offset >= |ids| {
        assert ids[..offset - BATCH + size] == ids;
        break;
      }
    }
  }
}
