/** Database connections: who owns them, when they are closed, and what a busy database does to a transaction. */
module Database {
  // ---------- Ownership ----------

  /**
   * Connections are numbered from 1 in the order in which they are opened, and 0 is the null connection. Each is held by
   * the pool, by a transaction object, by the queued handler of a close, or by a caller it was released to; closed
   * records the calls to close. A connection in inTxn has an open transaction.
   */
  datatype State = State(
    created: nat, pool: nat, txns: seq<nat>, handlers: seq<nat>, released: seq<nat>, closed: seq<nat>, inTxn: set<nat>)

  const START: State := State(1, 1, [], [], [], [], {})

  datatype Event =
    | New                            // a transaction object is made, with the pooled connection or a new one
    | NewFails                       // the database cannot be opened
    | Move(i: nat)                   // a transaction object is constructed from another one
    | Assign(i: nat, j: nat)         // a transaction object is assigned from another one
    | Close(i: nat)                  // explicitly or at the end of its life
    | Handle(k: nat, ok: bool)       // a queued handler runs; ok is whether it could roll back
    | Release(i: nat, ok: bool)
    | Drop(k: nat)                   // a caller destroys a released connection
    | Adopt(k: nat)                  // a transaction object is made of a released connection
    | Use(i: nat, open: bool)        // a statement runs on the connection, and leaves a transaction open or not

  predicate Enabled(s: State, e: Event) {
    match e
    case New => true
    case NewFails => s.pool == 0
    case Move(i) => i < |s.txns|
    case Assign(i, j) => i < |s.txns| && j < |s.txns|
    case Close(i) => i < |s.txns|
    case Handle(k, _) => k < |s.handlers|
    case Release(i, _) => i < |s.txns|
    case Drop(k) => k < |s.released|
    case Adopt(k) => k < |s.released|
    case Use(i, _) => i < |s.txns| && s.txns[i] != 0
  }

  function NonNull(conn: nat): seq<nat> {
    if conn == 0 then [] else [conn]
  }

  function Without(xs: seq<nat>, k: nat): seq<nat>
    requires k < |xs|
  {
    xs[..k] + xs[k + 1..]
  }

  /** Close: the transaction lets go of its connection, and a handler is queued for it if there is one. */
  function Closing(s: State, i: nat): State
    requires i < |s.txns|
  {
    s.(txns := s.txns[i := 0], handlers := s.handlers + NonNull(s.txns[i]))
  }

  /** The handler of a close: the connection becomes the pooled one, and the one pooled before is closed. */
  function Handled(s: State, k: nat, ok: bool): State
    requires k < |s.handlers|
  {
    var conn := s.handlers[k];
    var s1 := s.(handlers := Without(s.handlers, k));
    if ok then s1.(pool := conn, closed := s.closed + NonNull(s.pool), inTxn := s.inTxn - {conn})
    else s1.(closed := s.closed + [conn])
  }

  function Step(s: State, e: Event): State
    requires Enabled(s, e)
  {
    match e
    case New => if s.pool != 0 then s.(txns := s.txns + [s.pool], pool := 0)
                else s.(created := s.created + 1, txns := s.txns + [s.created + 1])
    case NewFails => s
    case Move(i) => s.(txns := s.txns[i := 0] + [s.txns[i]])
    case Assign(i, j) =>
      // the argument takes over j's connection, swaps with i and is closed
      if i == j then s else s.(txns := s.txns[i := s.txns[j]][j := 0], handlers := s.handlers + NonNull(s.txns[i]))
    case Close(i) => Closing(s, i)
    case Handle(k, ok) => Handled(s, k, ok)
    case Release(i, ok) =>
      if ok then s.(txns := s.txns[i := 0], released := s.released + NonNull(s.txns[i]), inTxn := s.inTxn - {s.txns[i]}) else s
    case Drop(k) => s.(released := Without(s.released, k), closed := s.closed + [s.released[k]])
    case Adopt(k) => s.(released := Without(s.released, k), txns := s.txns + [s.released[k]])
    case Use(i, open) => s.(inTxn := if open then s.inTxn + {s.txns[i]} else s.inTxn - {s.txns[i]})
  }

  // ---------- Conservation ----------

  function Is(a: nat, b: nat): nat { if a == b then 1 else 0 }

  /** In how many places a connection is. */
  function Places(s: State, c: nat): nat {
    Is(s.pool, c) + multiset(s.txns)[c] + multiset(s.handlers)[c] + multiset(s.released)[c] + multiset(s.closed)[c]
  }

  /** Every connection that was opened is in one place, and the pooled one has no open transaction. */
  ghost predicate Inv(s: State) {
    && (forall c: nat :: c > 0 ==> Places(s, c) == if c <= s.created then 1 else 0)
    && 0 !in s.handlers && 0 !in s.released && 0 !in s.closed
    && s.pool !in s.inTxn
    && 0 !in s.inTxn
  }

  lemma WithoutCount(xs: seq<nat>, k: nat, c: nat)
    requires k < |xs|
    ensures multiset(Without(xs, k))[c] + Is(xs[k], c) == multiset(xs)[c]
  {
    assert xs == xs[..k] + [xs[k]] + xs[k + 1..];
  }

  lemma UpdateCount(xs: seq<nat>, i: nat, x: nat, c: nat)
    requires i < |xs|
    ensures multiset(xs[i := x])[c] + Is(xs[i], c) == multiset(xs)[c] + Is(x, c)
  {
  }

  lemma AppendCount(xs: seq<nat>, x: nat, c: nat)
    ensures multiset(xs + [x])[c] == multiset(xs)[c] + Is(x, c)
    ensures c > 0 ==> multiset(xs + NonNull(x))[c] == multiset(xs)[c] + Is(x, c)
  {
    assert xs + [] == xs;
  }

  lemma NewPlaces(s: State, c: nat)
    requires c > 0
    ensures Places(Step(s, New), c) == Places(s, c) + (if s.pool == 0 then Is(s.created + 1, c) else 0)
  {
    AppendCount(s.txns, if s.pool != 0 then s.pool else s.created + 1, c);
  }

  lemma AssignPlaces(s: State, i: nat, j: nat, c: nat)
    requires Enabled(s, Assign(i, j)) && c > 0
    ensures Places(Step(s, Assign(i, j)), c) == Places(s, c)
  {
    if i != j {
      UpdateCount(s.txns, i, s.txns[j], c);
      UpdateCount(s.txns[i := s.txns[j]], j, 0, c);
      AppendCount(s.handlers, s.txns[i], c);
    }
  }

  lemma HandlePlaces(s: State, k: nat, ok: bool, c: nat)
    requires Enabled(s, Handle(k, ok)) && c > 0
    ensures Places(Step(s, Handle(k, ok)), c) == Places(s, c)
  {
    WithoutCount(s.handlers, k, c);
    AppendCount(s.closed, if ok then s.pool else s.handlers[k], c);
  }

  lemma ReleasePlaces(s: State, i: nat, ok: bool, c: nat)
    requires Enabled(s, Release(i, ok)) && c > 0
    ensures Places(Step(s, Release(i, ok)), c) == Places(s, c)
  {
    UpdateCount(s.txns, i, 0, c);
    AppendCount(s.released, s.txns[i], c);
  }

  lemma ReleasedPlaces(s: State, k: nat, c: nat)
    requires k < |s.released| && c > 0
    ensures Places(Step(s, Drop(k)), c) == Places(s, c) && Places(Step(s, Adopt(k)), c) == Places(s, c)
  {
    WithoutCount(s.released, k, c);
    AppendCount(s.closed, s.released[k], c);
    AppendCount(s.txns, s.released[k], c);
  }

  /** A step moves a connection from one place to another; only New makes one. */
  lemma StepKeepsPlaces(s: State, e: Event, c: nat)
    requires Enabled(s, e) && c > 0
    ensures Places(Step(s, e), c) == Places(s, c) + (if e.New? && s.pool == 0 then Is(s.created + 1, c) else 0)
  {
    match e {
      case New => NewPlaces(s, c);
      case Move(i) => UpdateCount(s.txns, i, 0, c); AppendCount(s.txns[i := 0], s.txns[i], c);
      case Assign(i, j) => AssignPlaces(s, i, j, c);
      case Close(i) => UpdateCount(s.txns, i, 0, c); AppendCount(s.handlers, s.txns[i], c);
      case Handle(k, ok) => HandlePlaces(s, k, ok, c);
      case Release(i, ok) => ReleasePlaces(s, i, ok, c);
      case Drop(k) => ReleasedPlaces(s, k, c);
      case Adopt(k) => ReleasedPlaces(s, k, c);
      case _ =>
    }
  }

  /** Two places cannot hold the same connection. */
  lemma PoolIsNotATransaction(s: State, i: nat)
    requires Inv(s) && i < |s.txns| && s.txns[i] != 0
    ensures s.txns[i] != s.pool
  {
    assert s.txns[i] in multiset(s.txns);
    assert Places(s, s.txns[i]) == 1 || Places(s, s.txns[i]) == 0;
  }

  lemma StepKeepsPool(s: State, e: Event)
    requires Inv(s) && Enabled(s, e)
    ensures Step(s, e).pool !in Step(s, e).inTxn && 0 !in Step(s, e).inTxn
  {
    if e.Use? { PoolIsNotATransaction(s, e.i); }
    if e.Handle? { assert s.handlers[e.k] in s.handlers; }
  }

  lemma StepKeepsNonNull(s: State, e: Event)
    requires Inv(s) && Enabled(s, e)
    ensures var r := Step(s, e); 0 !in r.handlers && 0 !in r.released && 0 !in r.closed
  {
  }

  lemma StepKeepsInv(s: State, e: Event)
    requires Inv(s) && Enabled(s, e)
    ensures Inv(Step(s, e))
  {
    StepKeepsPool(s, e);
    StepKeepsNonNull(s, e);
    forall c: nat | c > 0 ensures Places(Step(s, e), c) == if c <= Step(s, e).created then 1 else 0 {
      StepKeepsPlaces(s, e, c);
    }
  }

  ghost predicate Possible(s: State, events: seq<Event>)
    decreases |events|
  {
    events == [] || (Enabled(s, events[0]) && Possible(Step(s, events[0]), events[1..]))
  }

  ghost function Run(s: State, events: seq<Event>): State
    requires Possible(s, events)
    decreases |events|
  {
    if events == [] then s else Run(Step(s, events[0]), events[1..])
  }

  lemma {:induction false} RunKeepsInv(s: State, events: seq<Event>)
    requires Inv(s) && Possible(s, events)
    ensures Inv(Run(s, events))
    decreases |events|
  {
    hide Inv;
    if events != [] {
      StepKeepsInv(s, events[0]);
      RunKeepsInv(Step(s, events[0]), events[1..]);
    }
  }

  lemma StartIsSound()
    ensures Inv(START)
  {
  }

  /** In every run each connection has one owner until it is closed, and it is closed once and never used again. */
  lemma OneOwner(events: seq<Event>, c: nat)
    requires Possible(START, events) && 0 < c <= Run(START, events).created
    ensures var s := Run(START, events);
            && Is(s.pool, c) + multiset(s.txns)[c] + multiset(s.handlers)[c] + multiset(s.released)[c] + multiset(s.closed)[c] == 1
            && (c in s.closed ==> c != s.pool && c !in s.txns && c !in s.handlers && c !in s.released)
            && s.pool !in s.inTxn
  {
    var s := Run(START, events);
    StartIsSound();
    RunKeepsInv(START, events);
    assert Places(s, c) == 1;
    assert c in s.closed ==> c in multiset(s.closed);
  }

  /** Once every transaction is gone and every handler has run, all connections but the pooled one are closed. */
  lemma IdleKeepsOne(events: seq<Event>, c: nat)
    requires Possible(START, events) && 0 < c <= Run(START, events).created
    requires var s := Run(START, events); (forall i :: 0 <= i < |s.txns| ==> s.txns[i] == 0) && s.handlers == [] && s.released == []
    ensures var s := Run(START, events); c == s.pool || c in s.closed
  {
    var s := Run(START, events);
    StartIsSound();
    RunKeepsInv(START, events);
    assert Places(s, c) == 1;
    assert c !in s.txns;
  }

  /** A connection that was closed by its transaction serves the next one, without a transaction left open. */
  lemma ServesTheNext(s: State, i: nat)
    requires Inv(s) && i < |s.txns| && s.txns[i] != 0
    ensures var s1 := Step(s, Close(i));
            var s2 := Step(s1, Handle(|s1.handlers| - 1, true));
            var s3 := Step(s2, New);
            && s3.created == s.created && s3.pool == 0 && s3.txns == s1.txns + [s.txns[i]]
            && s.txns[i] !in s3.inTxn && s3.closed == s.closed + NonNull(s.pool)
  {
    var s1 := Step(s, Close(i));
    assert s1.handlers[|s1.handlers| - 1] == s.txns[i];
  }

  // ---------- Who holds a connection after an operation ----------

  /** What closing a transaction object hands to a handler. */
  function HandedOn(s: State, i: nat): seq<nat>
    requires i < |s.txns|
  {
    Step(s, Close(i)).handlers[|s.handlers|..]
  }

  lemma HandedOnIs(s: State, i: nat)
    requires i < |s.txns|
    ensures HandedOn(s, i) == if s.txns[i] == 0 then [] else [s.txns[i]]
    ensures Step(s, Close(i)).handlers == s.handlers + HandedOn(s, i)
    ensures |Step(s, Close(i)).txns| == |s.txns| && HandedOn(Step(s, Close(i)), i) == []
  {
  }

  /** After a move the new object holds the connection, the source none, and every other object what it held. */
  lemma MoveHandsOver(s: State, i: nat)
    requires i < |s.txns|
    ensures var r := Step(s, Move(i));
            && |r.txns| == |s.txns| + 1 && r.handlers == s.handlers
            && HandedOn(r, i) == [] && HandedOn(r, |s.txns|) == HandedOn(s, i)
            && forall k: nat :: k < |s.txns| && k != i ==> HandedOn(r, k) == HandedOn(s, k)
  {
    var r := Step(s, Move(i));
    HandedOnIs(s, i);
    forall k: nat | k <= |s.txns| ensures HandedOn(r, k) == if r.txns[k] == 0 then [] else [r.txns[k]] { HandedOnIs(r, k); }
    forall k: nat | k < |s.txns| ensures HandedOn(s, k) == if s.txns[k] == 0 then [] else [s.txns[k]] { HandedOnIs(s, k); }
  }

  /** After an assignment the target holds what the source held, the source nothing, and what the target held is closed. */
  lemma AssignHandsOver(s: State, i: nat, j: nat)
    requires i < |s.txns| && j < |s.txns|
    ensures var r := Step(s, Assign(i, j));
            && |r.txns| == |s.txns|
            && r.handlers == (if i == j then s.handlers else s.handlers + HandedOn(s, i))
            && HandedOn(r, i) == HandedOn(s, j) && (i != j ==> HandedOn(r, j) == [])
            && forall k: nat :: k < |s.txns| && k != i && k != j ==> HandedOn(r, k) == HandedOn(s, k)
  {
    var r := Step(s, Assign(i, j));
    forall k: nat | k < |s.txns| ensures HandedOn(r, k) == if r.txns[k] == 0 then [] else [r.txns[k]] { HandedOnIs(r, k); }
    forall k: nat | k < |s.txns| ensures HandedOn(s, k) == if s.txns[k] == 0 then [] else [s.txns[k]] { HandedOnIs(s, k); }
    assert s.handlers + [] == s.handlers;
  }

  /** A new transaction object holds the pooled connection, or one that has never been anywhere. */
  lemma NewHolds(s: State)
    requires Inv(s)
    ensures var r := Step(s, New);
            && |r.txns| == |s.txns| + 1 && r.txns[..|s.txns|] == s.txns && r.pool == 0 && r.txns[|s.txns|] != 0
            && (if s.pool != 0 then r.txns[|s.txns|] == s.pool && r.created == s.created
                else Places(s, r.txns[|s.txns|]) == 0 && r.created == s.created + 1)
    ensures Enabled(s, NewFails) ==> Step(s, NewFails) == s
  {
  }

  /** A released connection is with the caller, without a transaction; another transaction object can have it, or it is closed. */
  lemma ReleasedGoesOn(s: State, i: nat)
    requires Inv(s) && i < |s.txns| && s.txns[i] != 0
    ensures Step(s, Release(i, false)) == s
    ensures var r := Step(s, Release(i, true));
            && |r.txns| == |s.txns| && HandedOn(r, i) == [] && s.txns[i] !in r.inTxn
            && r.released == s.released + [s.txns[i]] && r.handlers == s.handlers && r.closed == s.closed && r.pool == s.pool
            && Step(r, Adopt(|s.released|)).released == s.released
            && Step(r, Adopt(|s.released|)).txns == r.txns + [s.txns[i]]
            && Step(r, Drop(|s.released|)).released == s.released
            && Step(r, Drop(|s.released|)).closed == s.closed + [s.txns[i]]
  {
    var r := Step(s, Release(i, true));
    HandedOnIs(r, i);
    assert r.released[..|s.released|] + r.released[|s.released| + 1..] == s.released;
  }

  /** A handler runs once: it pools its connection and closes the one pooled before, or closes its own. */
  lemma HandlerRunsOnce(s: State, k: nat, ok: bool)
    requires k < |s.handlers|
    ensures var r, conn := Step(s, Handle(k, ok)), s.handlers[k];
            && multiset(r.handlers) + multiset{conn} == multiset(s.handlers) && r.txns == s.txns && r.released == s.released
            && (if ok then r.pool == conn && conn !in r.inTxn && r.closed == (if s.pool == 0 then s.closed else s.closed + [s.pool])
                else r.pool == s.pool && r.closed == s.closed + [conn])
  {
    var hs := s.handlers;
    assert hs == hs[..k] + [hs[k]] + hs[k + 1..];
    assert s.closed + [] == s.closed;
  }

  /** A statement opens or ends the transaction of its own connection; otherwise only a rollback ends one. */
  lemma OpensExactly(s: State, e: Event, conn: nat)
    requires Enabled(s, e)
    ensures conn in Step(s, e).inTxn <==>
            if e.Use? && conn == s.txns[e.i] then e.open
            else conn in s.inTxn
                 && !(e.Handle? && e.ok && conn == s.handlers[e.k])
                 && !(e.Release? && e.ok && conn == s.txns[e.i])
  {
  }

  /** Which operations are possible: opening fails only when a connection has to be opened. */
  lemma EventsPossible(s: State, e: Event)
    ensures Enabled(s, e) <==>
            match e
            case New => true
            case NewFails => s.pool == 0
            case Move(i) => i < |s.txns|
            case Assign(i, j) => i < |s.txns| && j < |s.txns|
            case Close(i) => i < |s.txns|
            case Handle(k, _) => k < |s.handlers|
            case Release(i, _) => i < |s.txns|
            case Drop(k) => k < |s.released|
            case Adopt(k) => k < |s.released|
            case Use(i, _) => i < |s.txns| && s.txns[i] != 0
  {
  }

  // ---------- The imperative pool and its transactions ----------

  /** The global connection, and the transaction objects and handlers that exchange and swap it. */
  class Pool {
    var dbConn: nat
    var created: nat
    var txns: seq<nat>
    var handlers: seq<nat>
    var released: seq<nat>
    ghost var closed: seq<nat>
    ghost var inTxn: set<nat>

    ghost function Now(): State
      reads this
    {
      State(created, dbConn, txns, handlers, released, closed, inTxn)
    }

    // dbInitialize
    constructor ()
      ensures Now() == START
    {
      dbConn, created, txns, handlers, released, closed, inTxn := 1, 1, [], [], [], [], {};
    }

    // dbCreateInstance: the pooled connection is moved out; without one, another is opened, which may fail.
    method CreateInstance(opens: bool) returns (conn: nat)
      modifies this`dbConn, this`created
      ensures old(dbConn) != 0 ==> conn == old(dbConn) && dbConn == 0 && created == old(created)
      ensures old(dbConn) == 0 ==> dbConn == 0
      ensures old(dbConn) == 0 && opens ==> conn == created == old(created) + 1
      ensures old(dbConn) == 0 && !opens ==> conn == 0 && created == old(created)
    {
      if dbConn != 0 {
        conn := dbConn;
        dbConn := 0;
      } else if opens {
        created := created + 1;
        conn := created;
      } else {
        conn := 0;
      }
    }

    method NewTransaction(opens: bool)
      modifies this
      ensures Now() == Step(old(Now()), if opens || old(dbConn) != 0 then New else NewFails)
    {
      var conn := CreateInstance(opens);
      if conn != 0 { txns := txns + [conn]; }
    }

    // The move constructor: the other object's connection is exchanged for the null connection.
    method MoveConstruct(i: nat)
      requires i < |txns|
      modifies this`txns
      ensures Now() == Step(old(Now()), Event.Move(i))
    {
      var conn := txns[i];
      txns := txns[i := 0];
      txns := txns + [conn];
    }

    // Assignment: the argument is constructed from j, swapped with i, and destroyed.
    method AssignTransaction(i: nat, j: nat)
      requires i < |txns| && j < |txns|
      modifies this`txns, this`handlers
      ensures Now() == Step(old(Now()), Event.Assign(i, j))
    {
      var o := txns[j];
      txns := txns[j := 0];
      var swapped := txns[i];
      txns := txns[i := o];
      if swapped != 0 { handlers := handlers + [swapped]; }
    }

    method CloseTransaction(i: nat)
      requires i < |txns|
      modifies this`txns, this`handlers
      ensures Now() == Step(old(Now()), Event.Close(i))
    {
      if txns[i] != 0 {
        handlers := handlers + [txns[i]];
        txns := txns[i := 0];
      }
    }

    // The handler that Close dispatches.
    method RunHandler(k: nat, rolledBack: bool)
      requires k < |handlers|
      modifies this
      ensures Now() == Step(old(Now()), Event.Handle(k, rolledBack))
    {
      var conn := handlers[k];
      handlers := handlers[..k] + handlers[k + 1..];
      if !rolledBack {
        closed := closed + [conn];
        return;
      }
      inTxn := inTxn - {conn};
      var before := dbConn;
      dbConn := conn;
      if before != 0 { closed := closed + [before]; }
    }

    method ReleaseConnection(i: nat, rolledBack: bool) returns (conn: nat)
      requires i < |txns|
      modifies this
      ensures Now() == Step(old(Now()), Event.Release(i, rolledBack))
      ensures conn == if rolledBack then old(txns[i]) else 0
    {
      if !rolledBack { return 0; }
      conn := txns[i];
      txns := txns[i := 0];
      inTxn := inTxn - {conn};
      if conn != 0 { released := released + [conn]; }
    }
  }

  // ---------- A transaction against a busy database ----------

  datatype Code = Fine | Busy | Error

  /** What a statement reports, and whether it leaves a transaction open in case it fails. */
  datatype Reply = Reply(code: Code, leaves: bool)

  const MAX_RETRIES := 100
  const MAX_ATTEMPTS := 300

  /** The k-th BEGIN succeeds: those before were all busy, and could be rolled back where they left something open. */
  ghost predicate BeginsAt(k: nat, begins: nat -> Reply, rollbacks: nat -> Reply) {
    begins(k).code == Fine && BusyBefore(k, begins, rollbacks)
  }

  ghost predicate BusyBefore(k: nat, begins: nat -> Reply, rollbacks: nat -> Reply) {
    forall j: nat :: j < k ==> begins(j).code == Busy && (begins(j).leaves ==> rollbacks(j).code == Fine)
  }

  /** A connection as its one user sees it. */
  class Connection {
    var isNull: bool
    var autocommit: bool
    ghost var statements: nat // BEGIN statements so far

    constructor (isNull: bool)
      ensures this.isNull == isNull && autocommit && statements == 0
    {
      this.isNull, autocommit, statements := isNull, true, 0;
    }

    method BeginImpl(reply: Reply) returns (code: Code)
      modifies this`autocommit, this`statements
      ensures if isNull || !old(autocommit) then code == Fine && autocommit == old(autocommit) && statements == old(statements)
              else code == reply.code && statements == old(statements) + 1
                   && autocommit == (reply.code != Fine && !reply.leaves)
    {
      if isNull || !autocommit { return Fine; }
      autocommit := reply.code != Fine && !reply.leaves;
      statements := statements + 1;
      return reply.code;
    }

    method RollbackImpl(reply: Reply) returns (code: Code)
      modifies this`autocommit
      ensures if isNull || old(autocommit) then code == Fine && autocommit == old(autocommit)
              else code == reply.code && autocommit == (reply.code == Fine || !reply.leaves)
    {
      if isNull || autocommit { return Fine; }
      autocommit := reply.code == Fine || !reply.leaves;
      return reply.code;
    }

    method CommitImpl(reply: Reply) returns (code: Code)
      modifies this`autocommit
      ensures if isNull || old(autocommit) then code == Fine && autocommit == old(autocommit)
              else code == reply.code && autocommit == (reply.code == Fine || !reply.leaves)
    {
      if isNull || autocommit { return Fine; }
      autocommit := reply.code == Fine || !reply.leaves;
      return reply.code;
    }

    // Begin: success means an open transaction, and comes exactly if one of the first 101 attempts gets through.
    method Begin(begins: nat -> Reply, rollbacks: nat -> Reply) returns (code: Code)
      modifies this`autocommit, this`statements
      ensures code == Fine && !isNull ==> !autocommit
      ensures isNull || !old(autocommit) ==> code == Fine && autocommit == old(autocommit) && statements == old(statements)
      ensures statements <= old(statements) + 101
      ensures !isNull && old(autocommit) ==> (code == Fine <==> exists k: nat :: k <= 100 && BeginsAt(k, begins, rollbacks))
    {
      ghost var runs := !isNull && autocommit;
      code := BeginImpl(begins(0));
      var i: nat := 0;
      while code == Busy && i < MAX_RETRIES
        invariant !runs ==> code == Fine && autocommit == old(autocommit) && statements == old(statements)
        invariant i <= MAX_RETRIES
        invariant runs ==> statements == old(statements) + i + 1 && BusyBefore(i, begins, rollbacks)
        invariant runs ==> code == begins(i).code && autocommit == (code != Fine && !begins(i).leaves)
        decreases MAX_RETRIES - i
      {
        var back := RollbackImpl(rollbacks(i));
        if back != Fine {
          code := back;
          assert !BusyBefore(i + 1, begins, rollbacks);
          NoneAfter(i, begins, rollbacks);
          return;
        }
        i := i + 1;
        code := BeginImpl(begins(i));
      }
      if code != Fine {
        NoneAfter(i, begins, rollbacks);
      } else {
        assert runs ==> BeginsAt(i, begins, rollbacks);
      }
    }

    // Commit: retried while busy, without rolling back. It succeeds exactly if one of the first 101 attempts gets
    // through, or finds the transaction gone because the attempt before it lost it.
    method Commit(commits: nat -> Reply) returns (code: Code)
      modifies this`autocommit
      ensures code == Fine && !isNull ==> autocommit
      ensures isNull || old(autocommit) ==> code == Fine && autocommit == old(autocommit)
      ensures !isNull && !old(autocommit) ==>
                (code == Fine <==> exists k: nat :: k <= 100 && (CommitsAt(k, commits) || LostBefore(k, commits)))
    {
      ghost var runs := !isNull && !autocommit;
      code := CommitImpl(commits(0));
      var i: nat := 0;
      ghost var lost := false;
      while code == Busy && i < MAX_RETRIES
        invariant i <= MAX_RETRIES
        invariant !runs ==> code == Fine && autocommit == old(autocommit)
        invariant runs && lost ==> code == Fine && autocommit && LostBefore(i, commits)
        invariant runs && !lost ==> BusyUntil(i, commits)
        invariant runs && !lost ==> code == commits(i).code && autocommit == (code == Fine || !commits(i).leaves)
        decreases MAX_RETRIES - i
      {
        lost := !commits(i).leaves;
        i := i + 1;
        code := CommitImpl(commits(i));
      }
      if code != Fine {
        NoCommit(i, commits);
      } else {
        assert runs && !lost ==> CommitsAt(i, commits);
      }
    }
  }

  /** All attempts before the i-th were busy and left the transaction open. */
  ghost predicate BusyUntil(i: nat, commits: nat -> Reply) {
    forall j: nat :: j < i ==> commits(j).code == Busy && commits(j).leaves
  }

  ghost predicate CommitsAt(k: nat, commits: nat -> Reply) {
    commits(k).code == Fine && BusyUntil(k, commits)
  }

  /** The attempt before the k-th was busy, and yet the transaction is gone. */
  ghost predicate LostBefore(k: nat, commits: nat -> Reply) {
    k > 0 && commits(k - 1).code == Busy && !commits(k - 1).leaves && BusyUntil(k - 1, commits)
  }

  lemma NoCommit(i: nat, commits: nat -> Reply)
    requires BusyUntil(i, commits) && commits(i).code != Fine
    requires commits(i).code == Error || i == MAX_RETRIES
    ensures forall k: nat :: k <= MAX_RETRIES ==> !CommitsAt(k, commits) && !LostBefore(k, commits)
  {
    forall k: nat | k <= MAX_RETRIES ensures !CommitsAt(k, commits) && !LostBefore(k, commits) {
      if k <= i {
        assert k < i ==> commits(k).code == Busy;
        assert 0 < k ==> commits(k - 1).leaves;
      } else {
        assert commits(i).code == Error;
        assert k - 1 == i || (BusyUntil(k - 1, commits) ==> commits(i).code == Busy);
      }
    }
  }

  /** Once an attempt fails for good, or a rollback does, no later one is made. */
  lemma NoneAfter(i: nat, begins: nat -> Reply, rollbacks: nat -> Reply)
    requires begins(i).code != Fine && (i < MAX_RETRIES ==> !BusyBefore(i + 1, begins, rollbacks))
    requires BusyBefore(i, begins, rollbacks)
    ensures forall k: nat :: k <= MAX_RETRIES && k <= i ==> !BeginsAt(k, begins, rollbacks)
    ensures i < MAX_RETRIES ==> forall k: nat :: !BeginsAt(k, begins, rollbacks)
  {
    forall k: nat | k <= i || i < MAX_RETRIES ensures !BeginsAt(k, begins, rollbacks) {
      if k < i {
        assert begins(k).code == Busy;
      } else if k > i && BusyBefore(k, begins, rollbacks) {
        assert BusyBefore(i + 1, begins, rollbacks);
      }
    }
  }

  // ---------- Retrying a function of statements ----------

  /** What a connection's statements have done: for good, and within its open transaction. */
  datatype Work = Work(durable: seq<nat>, open: bool, pending: seq<nat>)

  /** An invocation of the function: the statements that took effect, and what it reports. */
  datatype Invocation = Invocation(statements: seq<nat>, code: Code)

  datatype Attempt = Attempt(code: Code, work: Work)

  function Applied(w: Work, statements: seq<nat>): Work {
    if w.open then w.(pending := w.pending + statements) else w.(durable := w.durable + statements)
  }

  function RolledBack(w: Work): Work {
    w.(open := false, pending := [])
  }

  /** All that the connection's user relies on. */
  function Contents(w: Work): seq<nat> {
    w.durable + w.pending
  }

  /** Exec from its i-th invocation on. */
  function Executed(w: Work, i: nat, runs: nat -> Invocation, rollbacks: nat -> Reply): Attempt
    requires i < MAX_ATTEMPTS
    decreases MAX_ATTEMPTS - i
  {
    var done := Applied(w, runs(i).statements);
    if runs(i).code != Busy || i + 1 >= MAX_ATTEMPTS then Attempt(runs(i).code, done)
    else if w.open && rollbacks(i).code != Fine then
      Attempt(rollbacks(i).code, if rollbacks(i).leaves then done else RolledBack(done))
    else if w.open then Executed(RolledBack(done), i + 1, runs, rollbacks)
    else Executed(done, i + 1, runs, rollbacks)
  }

  class BaseDao {
    var durable: seq<nat>
    var open: bool
    var pending: seq<nat>

    ghost function Now(): Work
      reads this
    {
      Work(durable, open, pending)
    }

    constructor ()
      ensures Now() == Work([], false, [])
    {
      durable, open, pending := [], false, [];
    }

    // The statements of the invoked function take effect in the open transaction, or at once if there is none.
    method Invoke(statements: seq<nat>)
      modifies this
      ensures Now() == Applied(old(Now()), statements)
    {
      if open { pending := pending + statements; } else { durable := durable + statements; }
    }

    // runs(i) is what the i-th invocation does and reports, and rollbacks(i) what the rollback after it reports.
    method Exec(runs: nat -> Invocation, rollbacks: nat -> Reply) returns (code: Code)
      modifies this
      ensures Attempt(code, Now()) == Executed(old(Now()), 0, runs, rollbacks)
    {
      var i: nat := 0;
      while true
        invariant i < MAX_ATTEMPTS
        invariant Executed(Now(), i, runs, rollbacks) == Executed(old(Now()), 0, runs, rollbacks)
        decreases MAX_ATTEMPTS - i
      {
        code := runs(i).code;
        Invoke(runs(i).statements);
        if code != Busy || i + 1 >= MAX_ATTEMPTS { return; }
        if open {
          code := rollbacks(i).code;
          if code == Fine || !rollbacks(i).leaves { open, pending := false, []; }
          if code != Fine { return; }
        }
        i := i + 1;
      }
    }
  }

  /** Without an open transaction nothing is pending. */
  predicate Sane(w: Work) {
    w.open || w.pending == []
  }

  ghost predicate RunsAt(k: nat, runs: nat -> Invocation) {
    runs(k).code == Fine && forall j: nat :: j < k ==> runs(j).code == Busy
  }

  /** The k-th invocation is the last one: it is not busy or the 300th, and all before it were busy. */
  ghost predicate EndsAt(k: nat, runs: nat -> Invocation) {
    k < 300 && (runs(k).code != Busy || k == 299) && forall j: nat :: j < k ==> runs(j).code == Busy
  }

  /** What the invocations from i up to k have done, one after the other. */
  function Strays(runs: nat -> Invocation, i: nat, k: nat): seq<nat>
    requires i <= k
    decreases k - i
  {
    if i == k then [] else runs(i).statements + Strays(runs, i + 1, k)
  }

  lemma {:induction false} ExecutedOutside(w: Work, i: nat, k: nat, runs: nat -> Invocation, rollbacks: nat -> Reply)
    requires i <= k && !w.open && EndsAt(k, runs)
    ensures Executed(w, i, runs, rollbacks)
            == Attempt(runs(k).code, w.(durable := w.durable + Strays(runs, i, k) + runs(k).statements))
    decreases k - i
  {
    if i == k {
      assert w.durable + [] == w.durable;
    } else {
      var done := Applied(w, runs(i).statements);
      ExecutedOutside(done, i + 1, k, runs, rollbacks);
      assert w.durable + (runs(i).statements + Strays(runs, i + 1, k))
             == w.durable + runs(i).statements + Strays(runs, i + 1, k);
    }
  }

  lemma {:induction false} FailsOutside(w: Work, i: nat, runs: nat -> Invocation, rollbacks: nat -> Reply)
    requires i < MAX_ATTEMPTS && !w.open && forall j: nat :: j < i ==> runs(j).code == Busy
    requires forall k: nat :: k < MAX_ATTEMPTS ==> !RunsAt(k, runs)
    ensures Executed(w, i, runs, rollbacks).code != Fine
    decreases MAX_ATTEMPTS - i
  {
    assert !RunsAt(i, runs);
    if runs(i).code == Busy && i + 1 < MAX_ATTEMPTS {
      FailsOutside(Applied(w, runs(i).statements), i + 1, runs, rollbacks);
    }
  }

  /** The k-th invocation gets through: those before were busy, and an open transaction could be rolled back. */
  ghost predicate Through(w: Work, k: nat, runs: nat -> Invocation, rollbacks: nat -> Reply) {
    k < 300 && RunsAt(k, runs) && (k > 0 && w.open ==> rollbacks(0).code == Fine)
  }

  /** What busy invocations leave behind for good: all of them do without a transaction, and all but the first with one. */
  function LeftBehind(w: Work, runs: nat -> Invocation, k: nat): seq<nat>
    requires k > 0
  {
    (if w.open then [] else runs(0).statements) + Strays(runs, 1, k)
  }

  lemma Regrouped(w: Work, runs: nat -> Invocation, k: nat)
    requires k > 0
    ensures (if w.open then w.durable else w.durable + runs(0).statements) + Strays(runs, 1, k) == w.durable + LeftBehind(w, runs, k)
  {
    hide Strays;
    var strays := Strays(runs, 1, k);
    if w.open {
      assert [] + strays == strays;
    } else {
      assert w.durable + (runs(0).statements + strays) == w.durable + runs(0).statements + strays;
    }
  }

  /** Unless a rollback fails Exec reports what the last invocation does, and leaves its statements behind all that came before. */
  lemma ExecOutcome(w: Work, k: nat, runs: nat -> Invocation, rollbacks: nat -> Reply)
    requires EndsAt(k, runs) && (k > 0 && w.open ==> rollbacks(0).code == Fine)
    ensures Executed(w, 0, runs, rollbacks) == Attempt(runs(k).code,
              if k == 0 then Applied(w, runs(0).statements)
              else Work(w.durable + LeftBehind(w, runs, k) + runs(k).statements, false, if w.open then [] else w.pending))
  {
    hide LeftBehind, Strays;
    if k > 0 {
      assert runs(0).code == Busy;
      var done := Applied(w, runs(0).statements);
      ExecutedOutside(if w.open then RolledBack(done) else done, 1, k, runs, rollbacks);
      Regrouped(w, runs, k);
    }
  }

  /** If it does fail, Exec reports that and nothing is done for good; the transaction stays open exactly if the rollback leaves it. */
  lemma ExecRollbackFails(w: Work, runs: nat -> Invocation, rollbacks: nat -> Reply)
    requires w.open && runs(0).code == Busy && rollbacks(0).code != Fine
    ensures Executed(w, 0, runs, rollbacks) == Attempt(rollbacks(0).code,
              if rollbacks(0).leaves then Work(w.durable, true, w.pending + runs(0).statements) else Work(w.durable, false, []))
  {
  }

  /** What a successful Exec leaves: its statements in the transaction, or, after a retry, behind all that came before. */
  lemma ExecEffect(w: Work, k: nat, runs: nat -> Invocation, rollbacks: nat -> Reply)
    requires Through(w, k, runs, rollbacks)
    ensures Executed(w, 0, runs, rollbacks) == Attempt(Fine,
              if k == 0 then Applied(w, runs(0).statements)
              else Work(w.durable + LeftBehind(w, runs, k) + runs(k).statements, false, if w.open then [] else w.pending))
  {
    hide LeftBehind, Strays, Executed;
    ExecOutcome(w, k, runs, rollbacks);
  }

  /** Exec succeeds exactly if one of 300 invocations does, all before it were busy, and an open transaction rolls back. */
  lemma ExecSucceedsIff(w: Work, runs: nat -> Invocation, rollbacks: nat -> Reply)
    ensures Executed(w, 0, runs, rollbacks).code == Fine <==> exists k: nat :: Through(w, k, runs, rollbacks)
  {
    if k: nat :| Through(w, k, runs, rollbacks) {
      ExecEffect(w, k, runs, rollbacks);
    } else if runs(0).code == Busy {
      var done := Applied(w, runs(0).statements);
      if !w.open || rollbacks(0).code == Fine {
        forall k: nat | k < MAX_ATTEMPTS ensures !RunsAt(k, runs) {
          assert !Through(w, k, runs, rollbacks);
        }
        FailsOutside(if w.open then RolledBack(done) else done, 1, runs, rollbacks);
      }
    } else {
      assert !Through(w, 0, runs, rollbacks);
      assert RunsAt(0, runs) <==> runs(0).code == Fine;
    }
  }

  /**
   * A successful Exec adds its statements to the earlier work, and nothing else, exactly if the first invocation was not
   * busy, or what was left behind by busy ones happens to be what the transaction lost.
   */
  lemma ExecKeepsWorkIff(w: Work, k: nat, runs: nat -> Invocation, rollbacks: nat -> Reply)
    requires Sane(w) && Through(w, k, runs, rollbacks)
    ensures Contents(Executed(w, 0, runs, rollbacks).work) == Contents(w) + runs(k).statements
            <==> k == 0 || LeftBehind(w, runs, k) == w.pending
  {
    hide Executed, LeftBehind, RunsAt;
    ExecEffect(w, k, runs, rollbacks);
    var last := runs(k).statements;
    if k == 0 {
      assert w.durable + (w.pending + last) == w.durable + w.pending + last;
      assert !w.open ==> w.durable + last + [] == w.durable + [] + last;
    } else {
      var left := LeftBehind(w, runs, k);
      assert w.durable + left + last + [] == w.durable + left + last;
      SameMiddle(w.durable, left, w.pending, last);
    }
  }

  lemma SameMiddle(a: seq<nat>, x: seq<nat>, y: seq<nat>, b: seq<nat>)
    ensures a + x + b == a + y + b <==> x == y
  {
    if a + x + b == a + y + b {
      assert |x| == |y|;
      assert x == (a + x + b)[|a|..|a| + |x|] && y == (a + y + b)[|a|..|a| + |y|];
    }
  }

  /** For single statements, which have no effect when busy: exactly if no busy retry hit a transaction with work in it. */
  lemma {:induction false} StatementKeepsWorkIff(w: Work, k: nat, runs: nat -> Invocation, rollbacks: nat -> Reply)
    requires Sane(w) && Through(w, k, runs, rollbacks)
    requires forall j: nat :: runs(j).code == Busy ==> runs(j).statements == []
    ensures Contents(Executed(w, 0, runs, rollbacks).work) == Contents(w) + runs(k).statements
            <==> runs(0).code == Fine || w.pending == []
  {
    ExecKeepsWorkIff(w, k, runs, rollbacks);
    if k > 0 {
      assert runs(0).code == Busy;
      NoStrays(runs, 1, k);
    }
  }

  lemma {:induction false} NoStrays(runs: nat -> Invocation, i: nat, k: nat)
    requires i <= k && RunsAt(k, runs)
    requires forall j: nat :: runs(j).code == Busy ==> runs(j).statements == []
    ensures Strays(runs, i, k) == []
    decreases k - i
  {
    if i < k {
      assert runs(i).code == Busy;
      NoStrays(runs, i + 1, k);
    }
  }

  /** After a busy retry the transaction is over: the statements took effect on their own and cannot be rolled back. */
  lemma RetryLeavesTransaction(w: Work, k: nat, runs: nat -> Invocation, rollbacks: nat -> Reply)
    requires Sane(w) && Through(w, k, runs, rollbacks) && k > 0
    ensures var r := Executed(w, 0, runs, rollbacks).work;
            !r.open && RolledBack(r) == r && r.durable == w.durable + LeftBehind(w, runs, k) + runs(k).statements
  {
    hide Executed, LeftBehind, RunsAt;
    ExecEffect(w, k, runs, rollbacks);
  }
}
