/** The infractions table, and the warning handler that times a user out for two recent infractions. */
module Infractions {
  import opened IntSets
  import opened Wrappers

  const DAY: int := 86_400_000
  // std::chrono::months(3), in milliseconds: a chrono month is 2629746 seconds.
  const THREE_MONTHS: int := 3 * 2_629_746_000

  // PRIMARY KEY (user_id, timestamp)
  datatype Key = Key(user: nat, at: int)

  // The value is the timed_out column.
  type Table = map<Key, bool>

  datatype Timeout = Timeout(user: nat, older: int, newer: int, days: nat)

  /** The timestamps of a user's infractions that have not led to a timeout yet. */
  function Open(t: Table, user: nat): set<int> {
    set k | k in t && k.user == user && !t[k] :: k.at
  }

  /** The second row, in descending order, of LAG(timestamp) - timestamp. */
  function TopTwo(s: set<int>): (r: Option<(int, int)>)
    ensures r.Some? ==> r.value.0 in s && r.value.1 in s && r.value.0 < r.value.1
    ensures r.Some? ==> forall x :: x in s && x != r.value.1 ==> x <= r.value.0
    ensures r.None? ==> forall x, y :: x in s && y in s ==> x == y
  {
    if s == {} then None
    else
      var newer := Max(s);
      var rest := s - {newer};
      assert forall x :: x in s && x != newer ==> x in rest;
      if rest == {} then None
      else Some((Max(rest), newer))
  }

  function TimedOutUpTo(t: Table, user: nat, now: int): Table {
    map k | k in t :: t[k] || (k.user == user && k.at <= now)
  }

  function TimeoutDays(dt: int): nat {
    if dt < 3 * DAY then 7
    else if dt < 5 * DAY then 5
    else if dt < 15 * DAY then 3
    else 1
  }

  /** The timeout that a new warning calls for, if the two most recent open infractions are close. */
  function Due(t: Table, user: nat): Option<Timeout> {
    match TopTwo(Open(t, user))
    case None => None
    case Some((older, newer)) =>
      if newer - older < THREE_MONTHS then Some(Timeout(user, older, newer, TimeoutDays(newer - older))) else None
  }

  function Warned(t: Table, user: nat, now: int): Table {
    var registered := t[Key(user, now) := false];
    if Due(registered, user).Some? then TimedOutUpTo(registered, user, now) else registered
  }

  /** Any two open infractions of a user are at least three months apart. */
  ghost predicate Spaced(s: set<int>) {
    forall x, y :: x in s && y in s && x < y ==> y - x >= THREE_MONTHS
  }

  // ---------- The data access object and the handlers ----------

  class Store {
    var table: Table

    constructor ()
      ensures table == map[]
    {
      table := map[];
    }

    // INSERT: the primary key rejects a second infraction with the same timestamp.
    method Register(user: nat, now: int) returns (ok: bool)
      modifies this
      ensures ok <==> Key(user, now) !in old(table)
      ensures table == if ok then old(table)[Key(user, now) := false] else old(table)
    {
      ok := Key(user, now) !in table;
      if ok { table := table[Key(user, now) := false]; }
    }

    method GetRecentDeltaTime(user: nat) returns (dt: Option<int>)
      ensures dt == match TopTwo(Open(table, user)) case None => None case Some((older, newer)) => Some(newer - older)
    {
      var pair := TopTwo(Open(table, user));
      dt := if pair.None? then None else Some(pair.value.1 - pair.value.0);
    }

    method TimeOut(user: nat, now: int)
      modifies this
      ensures table.Keys == old(table).Keys
      ensures Open(table, user) == set x | x in Open(old(table), user) && x > now
      ensures forall k :: k in table ==> (table[k] <==> old(table)[k] || (k.user == user && k.at <= now))
      ensures forall other :: other != user ==> Open(table, other) == Open(old(table), other)
    {
      OpenAfterTimeOut(table, user, now);
      TimeOutSpares(table, user, now);
      table := TimedOutUpTo(table, user, now);
    }

    method Delete(user: nat, at: int)
      modifies this
      ensures Key(user, at) !in table && Open(table, user) == Open(old(table), user) - {at}
      ensures forall k :: k != Key(user, at) ==> (k in table <==> k in old(table))
      ensures forall k :: k in table ==> k in old(table) && table[k] == old(table)[k]
    {
      OpenAfterRemoval(table, {Key(user, at)}, user);
      table := table - {Key(user, at)};
    }

    method DeleteAll(user: nat)
      modifies this
      ensures forall k :: k in table <==> k in old(table) && k.user != user
      ensures forall k :: k in table ==> table[k] == old(table)[k]
    {
      table := table - (set k | k in table && k.user == user);
    }

    // The database effects of process_warn_impl; days is the length of the timeout, 0 for none.
    method Warn(user: nat, now: int) returns (ok: bool, days: nat)
      modifies this
      ensures ok <==> Key(user, now) !in old(table)
      ensures !ok ==> table == old(table) && days == 0
      ensures ok ==> table == Warned(old(table), user, now)
      ensures ok ==> days == match Due(old(table)[Key(user, now) := false], user) case None => 0 case Some(d) => d.days
    {
      days := 0;
      ok := Register(user, now);
      if !ok { return; }
      var dt := GetRecentDeltaTime(user);
      if dt.Some? && dt.value < THREE_MONTHS {
        days := TimeoutDays(dt.value);
        TimeOut(user, now);
      }
    }

    // The database effects of process_infractions_remove, by the button or the menu that was used.
    method Remove(choice: Choice)
      modifies this
      ensures forall k :: k in table <==> k in old(table) && !Chosen(choice, k)
      ensures forall k :: k in table ==> table[k] == old(table)[k]
    {
      match choice {
        case Selected(user, at) => Delete(user, at);
        case All(user) => DeleteAll(user);
        case Undo(user, at) => Delete(user, at);
        case Other =>
      }
    }
  }

  // What a moderator may ask to remove; the buttons that open or cancel the menu remove nothing.
  datatype Choice = Selected(user: nat, at: int) | All(user: nat) | Undo(user: nat, at: int) | Other

  predicate Chosen(choice: Choice, k: Key) {
    match choice
    case Selected(user, at) => k == Key(user, at)
    case All(user) => k.user == user
    case Undo(user, at) => k == Key(user, at)
    case Other => false
  }

  function Removed(t: Table, choice: Choice): Table {
    map k | k in t && !Chosen(choice, k) :: t[k]
  }

  // ---------- One warning ----------

  lemma OpenAfterRegister(t: Table, user: nat, now: int)
    requires Key(user, now) !in t
    ensures Open(t[Key(user, now) := false], user) == Open(t, user) + {now}
  {
    var t' := t[Key(user, now) := false];
    forall x ensures x in Open(t', user) <==> x in Open(t, user) + {now} {
      assert x in Open(t', user) <==> Key(user, x) in t' && !t'[Key(user, x)];
      assert x in Open(t, user) <==> Key(user, x) in t && !t[Key(user, x)];
    }
  }

  lemma OpenAfterTimeOut(t: Table, user: nat, now: int)
    ensures Open(TimedOutUpTo(t, user, now), user) == set x | x in Open(t, user) && x > now
  {
    var t' := TimedOutUpTo(t, user, now);
    forall x ensures x in Open(t', user) <==> x in Open(t, user) && x > now {
      assert x in Open(t', user) <==> Key(user, x) in t' && !t'[Key(user, x)];
      assert x in Open(t, user) <==> Key(user, x) in t && !t[Key(user, x)];
    }
  }

  lemma TimeOutSpares(t: Table, user: nat, now: int)
    ensures forall other :: other != user ==> Open(TimedOutUpTo(t, user, now), other) == Open(t, other)
  {
    var t' := TimedOutUpTo(t, user, now);
    forall other, x | other != user ensures x in Open(t', other) <==> x in Open(t, other) {
      assert x in Open(t', other) <==> Key(other, x) in t' && !t'[Key(other, x)];
      assert x in Open(t, other) <==> Key(other, x) in t && !t[Key(other, x)];
    }
  }

  lemma OpenAfterRemoval(t: Table, keys: set<Key>, user: nat)
    ensures Open(t - keys, user) == set x | x in Open(t, user) && Key(user, x) !in keys
  {
    var t' := t - keys;
    forall x ensures x in Open(t', user) <==> x in Open(t, user) && Key(user, x) !in keys {
      assert x in Open(t', user) <==> Key(user, x) in t' && !t'[Key(user, x)];
      assert x in Open(t, user) <==> Key(user, x) in t && !t[Key(user, x)];
    }
  }

  lemma OthersUntouched(t: Table, user: nat, now: int, other: nat)
    requires other != user
    ensures Open(Warned(t, user, now), other) == Open(t, other)
  {
    var t' := Warned(t, user, now);
    forall x ensures x in Open(t', other) <==> x in Open(t, other) {
      assert x in Open(t', other) <==> Key(other, x) in t' && !t'[Key(other, x)];
      assert x in Open(t, other) <==> Key(other, x) in t && !t[Key(other, x)];
    }
  }

  /** A warning handled so late that the newest infraction is three months ahead of it, with another one near it. */
  ghost predicate Late(s: set<int>, now: int) {
    && (exists newest :: newest in s && newest - now >= THREE_MONTHS)
    && (exists x :: x in s && -THREE_MONTHS < x - now < THREE_MONTHS)
  }

  /** The handler keeps a user's open infractions spaced exactly when the warning is not Late. */
  lemma WarnKeepsSpacingIff(t: Table, user: nat, now: int)
    requires Key(user, now) !in t
    requires Spaced(Open(t, user))
    ensures Spaced(Open(Warned(t, user, now), user)) <==> !Late(Open(t, user), now)
  {
    var s, s' := Open(t, user), Open(t, user) + {now};
    var registered := t[Key(user, now) := false];
    OpenAfterRegister(t, user, now);
    OpenAfterTimeOut(registered, user, now);
    assert now !in s by {
      assert now in s ==> Key(user, now) in t;
    }
    match TopTwo(s') {
      case None =>
        assert now in s' && forall x :: x in s ==> x in s';
        assert s == {};
      case Some((older, newer)) =>
        assert now in s';
        if newer == now {
          assert forall x :: x in s ==> x in s' && x <= older;
        } else {
          assert newer in s && now <= older;
          if newer - older >= THREE_MONTHS {
            assert newer - now >= THREE_MONTHS;
            SpacedWith(s, now);
          } else {
            assert older in s ==> older == now;
          }
        }
    }
  }

  lemma SpacedWith(s: set<int>, now: int)
    requires Spaced(s) && now !in s
    ensures Spaced(s + {now}) <==> forall x :: x in s ==> !(-THREE_MONTHS < x - now < THREE_MONTHS)
  {
    var s' := s + {now};
    if x :| x in s && -THREE_MONTHS < x - now < THREE_MONTHS {
      assert x in s' && now in s';
    } else {
      forall x, y | x in s' && y in s' && x < y ensures y - x >= THREE_MONTHS {
        if x == now { assert y in s; } else if y == now { assert x in s; }
      }
    }
  }

  /** A new warning that is less than three months older than every open infraction keeps them spaced. */
  lemma PromptKeepsSpacing(t: Table, user: nat, now: int)
    requires Key(user, now) !in t
    requires Spaced(Open(t, user))
    requires forall x :: x in Open(t, user) ==> x - now < THREE_MONTHS
    ensures Spaced(Open(Warned(t, user, now), user))
  {
    WarnKeepsSpacingIff(t, user, now);
  }

  // Only a warning handled three months after its creation can be Late; Discord gives an interaction far less time.
  lemma LateWarning()
    ensures var t: Table := map[Key(7, 0) := false, Key(7, 100 * THREE_MONTHS) := false];
            Spaced(Open(t, 7)) && !Spaced(Open(Warned(t, 7, DAY), 7))
  {
    var t: Table := map[Key(7, 0) := false, Key(7, 100 * THREE_MONTHS) := false];
    var s := Open(t, 7);
    assert forall x :: x in s <==> Key(7, x) in t && !t[Key(7, x)];
    assert 0 in s && 100 * THREE_MONTHS in s;
    WarnKeepsSpacingIff(t, 7, DAY);
  }

  /** What an in-order warning does to the open infractions: all are closed by a timeout, or the new one joins them. */
  lemma WarnInOrder(t: Table, user: nat, now: int)
    requires forall x :: Key(user, x) in t ==> x < now
    requires Spaced(Open(t, user))
    ensures Spaced(Open(Warned(t, user, now), user))
    ensures var due := Due(t[Key(user, now) := false], user);
            && Open(Warned(t, user, now), user) == (if due.Some? then {} else Open(t, user) + {now})
            && (due.Some? ==> due.value.user == user && due.value.newer == now
                              && due.value.older < now && due.value.older in Open(t, user))
  {
    var s := Open(t, user);
    assert Key(user, now) !in t;
    assert forall x :: x in s ==> Key(user, x) in t;
    WarnKeepsSpacingIff(t, user, now);
    OpenAfterRegister(t, user, now);
    OpenAfterTimeOut(t[Key(user, now) := false], user, now);
    assert now in s + {now};
  }

  /** Undoing a new warning restores the table exactly if it did not time out an earlier infraction. */
  lemma UndoRestoresIff(t: Table, user: nat, now: int)
    requires Key(user, now) !in t
    ensures Removed(Warned(t, user, now), Undo(user, now)) == t <==>
            Due(t[Key(user, now) := false], user).None? || forall x :: x in Open(t, user) ==> x > now
  {
    var registered := t[Key(user, now) := false];
    var t' := Removed(Warned(t, user, now), Undo(user, now));
    assert t'.Keys == t.Keys;
    if Due(registered, user).None? {
      assert t' == t;
    } else if x :| x in Open(t, user) && x <= now {
      assert Key(user, x) in t && !t[Key(user, x)] && t'[Key(user, x)];
    } else {
      forall k | k in t ensures t'[k] == t[k] {
        assert k.user == user && !t[k] ==> k.at in Open(t, user);
      }
    }
  }

  // ---------- One warning and the timeouts before it ----------

  // timeouts is the history of timeouts given.
  datatype State = State(table: Table, timeouts: seq<Timeout>)

  const START: State := State(map[], [])

  datatype Event = Warn(user: nat, now: int) | Remove(choice: Choice)

  function Step(s: State, e: Event): State {
    match e
    case Warn(user, now) =>
      // a warning with a taken timestamp fails and changes nothing
      if Key(user, now) in s.table then s
      else
        var due := Due(s.table[Key(user, now) := false], user);
        State(Warned(s.table, user, now), if due.Some? then s.timeouts + [due.value] else s.timeouts)
    case Remove(choice) => s.(table := Removed(s.table, choice))
  }

  /** The pairs of infractions behind a user's timeouts follow one another without sharing one. */
  ghost predicate Disjoint(ds: seq<Timeout>) {
    forall i, j :: 0 <= i < j < |ds| && ds[i].user == ds[j].user ==> ds[i].newer < ds[j].older
  }

  /** What a timeout was given for lies before all open infractions of its user. */
  ghost predicate Past(t: Table, d: Timeout) {
    d.older < d.newer && forall x :: x in Open(t, d.user) ==> x > d.newer
  }

  ghost predicate AllPast(t: Table, ds: seq<Timeout>) {
    forall i :: 0 <= i < |ds| ==> Past(t, ds[i])
  }

  ghost predicate Tidy(s: State) {
    Disjoint(s.timeouts) && AllPast(s.table, s.timeouts)
  }

  ghost predicate AfterTimeouts(ds: seq<Timeout>, user: nat, now: int) {
    forall i :: 0 <= i < |ds| && ds[i].user == user ==> ds[i].newer < now
  }

  /** A warning that times its user out is the newest open one; any other is newer than its user's timeouts. */
  ghost predicate Orderly(s: State, user: nat, now: int) {
    if Due(s.table[Key(user, now) := false], user).Some? then forall x :: x in Open(s.table, user) ==> x < now
    else AfterTimeouts(s.timeouts, user, now)
  }

  lemma OthersPast(t: Table, user: nat, now: int, d: Timeout)
    requires d.user != user
    ensures Past(Warned(t, user, now), d) <==> Past(t, d)
  {
    OthersUntouched(t, user, now, d.user);
  }

  /** What the timestamps of a timeout that is due have to do with the open infractions and the warning. */
  lemma DueFacts(t: Table, user: nat, now: int)
    requires Key(user, now) !in t
    requires Due(t[Key(user, now) := false], user).Some?
    ensures var d, s := Due(t[Key(user, now) := false], user).value, Open(t, user) + {now};
            && d.user == user && d.older in s && d.newer in s && d.older < d.newer
            && (forall x :: x in s ==> x <= d.newer)
            && Open(Warned(t, user, now), user) == set x | x in Open(t, user) && x > now
  {
    OpenAfterRegister(t, user, now);
    OpenAfterTimeOut(t[Key(user, now) := false], user, now);
  }

  lemma NotDueFacts(t: Table, user: nat, now: int)
    requires Key(user, now) !in t
    requires Due(t[Key(user, now) := false], user).None?
    ensures Open(Warned(t, user, now), user) == Open(t, user) + {now}
  {
    OpenAfterRegister(t, user, now);
  }

  lemma TimedOutTidyIff(s: State, user: nat, now: int)
    requires Key(user, now) !in s.table && Tidy(s)
    requires Due(s.table[Key(user, now) := false], user).Some?
    ensures Tidy(Step(s, Warn(user, now))) <==> forall x :: x in Open(s.table, user) ==> x < now
  {
    hide Due, Warned, Open;
    var d := Due(s.table[Key(user, now) := false], user).value;
    var r := Step(s, Warn(user, now));
    DueFacts(s.table, user, now);
    assert r.timeouts[|s.timeouts|] == d;
    if forall x :: x in Open(s.table, user) ==> x < now {
      forall i | 0 <= i < |s.timeouts| ensures Past(r.table, s.timeouts[i]) {
        assert Past(s.table, s.timeouts[i]);
        if s.timeouts[i].user != user { OthersPast(s.table, user, now, s.timeouts[i]); }
      }
      forall i | 0 <= i < |s.timeouts| && s.timeouts[i].user == user ensures s.timeouts[i].newer < d.older {
        assert Past(s.table, s.timeouts[i]) && d.older in Open(s.table, user);
      }
    } else {
      var x :| x in Open(s.table, user) && x >= now;
      assert x != now by { OpenAreKeys(s.table, user, now); }
      assert d.newer > now && d.newer in Open(r.table, user);
      assert !Past(r.table, d);
      assert !AllPast(r.table, r.timeouts) by { assert r.timeouts[|s.timeouts|] == d; }
    }
  }

  lemma OpenAreKeys(t: Table, user: nat, x: int)
    ensures x in Open(t, user) ==> Key(user, x) in t
  {
  }

  lemma NotTimedOutTidyIff(s: State, user: nat, now: int)
    requires Key(user, now) !in s.table && Tidy(s)
    requires Due(s.table[Key(user, now) := false], user).None?
    ensures Tidy(Step(s, Warn(user, now))) <==> AfterTimeouts(s.timeouts, user, now)
  {
    hide Due, Warned, Open;
    var r := Step(s, Warn(user, now));
    NotDueFacts(s.table, user, now);
    forall i | 0 <= i < |s.timeouts|
      ensures Past(r.table, s.timeouts[i]) <==> (s.timeouts[i].user == user ==> s.timeouts[i].newer < now)
    {
      assert Past(s.table, s.timeouts[i]);
      if s.timeouts[i].user != user {
        OthersPast(s.table, user, now, s.timeouts[i]);
      } else {
        assert now in Open(r.table, user);
      }
    }
  }

  /** A new warning, whatever its timestamp, keeps the pairs behind timeouts disjoint and past exactly if it is orderly. */
  lemma WarnKeepsTidyIff(s: State, user: nat, now: int)
    requires Key(user, now) !in s.table && Tidy(s)
    ensures Tidy(Step(s, Warn(user, now))) <==> Orderly(s, user, now)
  {
    if Due(s.table[Key(user, now) := false], user).Some? {
      TimedOutTidyIff(s, user, now);
    } else {
      NotTimedOutTidyIff(s, user, now);
    }
  }

  // ---------- Runs ----------

  function After(events: seq<Event>): State {
    if events == [] then START else Step(After(events[..|events| - 1]), events[|events| - 1])
  }

  /** The warnings of a run that are registered: those whose timestamp is not taken. */
  ghost predicate Registers(events: seq<Event>, k: nat) {
    k < |events| && events[k].Warn? && Key(events[k].user, events[k].now) !in After(events[..k]).table
  }

  lemma RemovedOpen(t: Table, choice: Choice, user: nat)
    ensures Open(Removed(t, choice), user) <= Open(t, user)
  {
  }

  /** Whenever no warning of a run is late, all open infractions are spaced after it. */
  lemma {:induction false} SpacedUnlessLate(events: seq<Event>, user: nat)
    requires forall k: nat :: Registers(events, k) ==> !Late(Open(After(events[..k]).table, events[k].user), events[k].now)
    ensures Spaced(Open(After(events).table, user))
    decreases |events|
  {
    hide Late, Open, Warned, Removed;
    if events == [] {
      NothingOpen(user);
    } else {
      var n := |events| - 1;
      var t := After(events[..n]).table;
      Prefixes(events, n);
      SpacedUnlessLate(events[..n], user);
      assert Registers(events, n) ==> !Late(Open(t, events[n].user), events[n].now);
      match events[n] {
        case Warn(u, now) =>
          if Key(u, now) !in t {
            if u == user { WarnKeepsSpacingIff(t, u, now); } else { OthersUntouched(t, u, now, user); }
          }
        case Remove(choice) => RemovedOpen(t, choice, user);
      }
    }
  }

  lemma NothingOpen(user: nat)
    ensures Open(After([]).table, user) == {}
  {
  }

  lemma Prefixes(events: seq<Event>, n: nat)
    requires n <= |events|
    ensures forall k :: 0 <= k <= n ==> events[..n][..k] == events[..k]
    ensures forall k: nat :: Registers(events[..n], k) <==> k < n && Registers(events, k)
  {
    assert forall k :: 0 <= k <= n ==> events[..n][..k] == events[..k];
  }

  /** Whenever all warnings of a run are orderly, the pairs behind its timeouts are disjoint and past. */
  lemma {:induction false} TidyIfOrderly(events: seq<Event>)
    requires forall k: nat :: Registers(events, k) ==> Orderly(After(events[..k]), events[k].user, events[k].now)
    ensures Tidy(After(events))
    decreases |events|
  {
    hide Orderly, Open, Warned, Due, Removed;
    if events != [] {
      var n := |events| - 1;
      var s := After(events[..n]);
      Prefixes(events, n);
      TidyIfOrderly(events[..n]);
      assert Registers(events, n) ==> Orderly(s, events[n].user, events[n].now);
      match events[n] {
        case Warn(u, now) =>
          if Key(u, now) !in s.table { WarnKeepsTidyIff(s, u, now); }
        case Remove(choice) =>
          forall i | 0 <= i < |s.timeouts| ensures Past(Removed(s.table, choice), s.timeouts[i]) {
            RemovedOpen(s.table, choice, s.timeouts[i].user);
            assert Past(s.table, s.timeouts[i]);
          }
      }
    }
  }

  // ---------- Runs in order ----------

  /** Warnings of one user are handled in the order of their timestamps. */
  ghost predicate InOrder(events: seq<Event>) {
    forall i, j :: 0 <= i < j < |events| && events[i].Warn? && events[j].Warn? && events[i].user == events[j].user ==>
      events[i].now < events[j].now
  }

  /** The user's warnings are all before now. */
  ghost predicate Before(events: seq<Event>, user: nat, now: int) {
    forall i :: 0 <= i < |events| && events[i].Warn? && events[i].user == user ==> events[i].now < now
  }

  lemma {:induction false} AllBefore(events: seq<Event>, user: nat, now: int)
    requires Before(events, user, now)
    ensures forall x :: Key(user, x) in After(events).table ==> x < now
    ensures AfterTimeouts(After(events).timeouts, user, now)
    decreases |events|
  {
    if events != [] {
      var n := |events| - 1;
      var s := After(events[..n]);
      assert forall i :: 0 <= i < n ==> events[..n][i] == events[i];
      AllBefore(events[..n], user, now);
      if events[n].Warn? { StepBefore(s, events[n].user, events[n].now, user, now); }
    }
  }

  lemma StepBefore(s: State, u: nat, at: int, user: nat, now: int)
    requires forall x :: Key(user, x) in s.table ==> x < now
    requires AfterTimeouts(s.timeouts, user, now)
    requires u == user ==> at < now
    ensures forall x :: Key(user, x) in Step(s, Warn(u, at)).table ==> x < now
    ensures AfterTimeouts(Step(s, Warn(u, at)).timeouts, user, now)
  {
    hide Due, Warned, Open;
    WarnedKeys(s.table, u, at);
    if Key(u, at) !in s.table && Due(s.table[Key(u, at) := false], u).Some? {
      DueFacts(s.table, u, at);
      OpenAreKeys(s.table, u, Due(s.table[Key(u, at) := false], u).value.newer);
    }
  }

  lemma WarnedKeys(t: Table, user: nat, now: int)
    ensures forall k :: k in Warned(t, user, now) ==> k in t || k == Key(user, now)
  {
  }

  /** After every run in order, open infractions are spaced, and no infraction is behind two timeouts. */
  lemma InfractionSafety(events: seq<Event>, user: nat)
    requires InOrder(events)
    ensures Spaced(Open(After(events).table, user))
    ensures Disjoint(After(events).timeouts)
  {
    hide Open, After, Due, Spaced;
    forall k: nat | Registers(events, k)
      ensures Orderly(After(events[..k]), events[k].user, events[k].now)
      ensures !Late(Open(After(events[..k]).table, events[k].user), events[k].now)
    {
      var t := After(events[..k]).table;
      AllBefore(events[..k], events[k].user, events[k].now);
      forall x | x in Open(t, events[k].user) ensures x < events[k].now { OpenAreKeys(t, events[k].user, x); }
    }
    SpacedUnlessLate(events, user);
    TidyIfOrderly(events);
  }

  const SWAPPED: seq<Event> := [Warn(7, 10_000), Warn(7, 5_000), Warn(7, 20_000)]

  lemma TopTwoOf(a: int, b: int)
    requires a < b
    ensures TopTwo({a, b}) == Some((a, b)) && TopTwo({a}) == None
  {
  }

  const FIRST: Table := map[Key(7, 10_000) := false]
  const SECOND: Table := map[Key(7, 10_000) := false, Key(7, 5_000) := true]

  lemma FirstWarning()
    ensures Step(START, Warn(7, 10_000)) == State(FIRST, [])
  {
    hide Due, TopTwo;
    DueIs(map[], 10_000, {10_000});
    TopTwoOf(10_000, 10_001);
  }

  lemma SecondWarning()
    ensures Step(State(FIRST, []), Warn(7, 5_000)) == State(SECOND, [Timeout(7, 5_000, 10_000, 7)])
  {
    hide Due, TopTwo;
    DueIs(FIRST, 5_000, {5_000, 10_000});
    TopTwoOf(5_000, 10_000);
  }

  lemma ThirdWarning(ds: seq<Timeout>)
    ensures Step(State(SECOND, ds), Warn(7, 20_000)).timeouts == ds + [Timeout(7, 10_000, 20_000, 7)]
  {
    hide Due, TopTwo;
    DueIs(SECOND, 20_000, {10_000, 20_000});
    TopTwoOf(10_000, 20_000);
  }

  lemma AfterOneMore(events: seq<Event>, e: Event)
    ensures After(events + [e]) == Step(After(events), e)
  {
    assert (events + [e])[..|events|] == events;
  }

  /** Two warnings handled in the other order, by however little: one infraction ends up behind two timeouts. */
  lemma SwappedWarnings()
    ensures After(SWAPPED).timeouts == [Timeout(7, 5_000, 10_000, 7), Timeout(7, 10_000, 20_000, 7)]
    ensures !Disjoint(After(SWAPPED).timeouts)
  {
    hide Step;
    FirstWarning();
    SecondWarning();
    ThirdWarning([Timeout(7, 5_000, 10_000, 7)]);
    assert After([]) == START;
    AfterOneMore([], Warn(7, 10_000));
    AfterOneMore([] + [Warn(7, 10_000)], Warn(7, 5_000));
    AfterOneMore([] + [Warn(7, 10_000)] + [Warn(7, 5_000)], Warn(7, 20_000));
    assert SWAPPED == [] + [Warn(7, 10_000)] + [Warn(7, 5_000)] + [Warn(7, 20_000)];
    var ds := After(SWAPPED).timeouts;
    assert ds[0].user == ds[1].user && ds[0].newer == ds[1].older;
  }

  lemma DueIs(t: Table, now: int, s: set<int>)
    requires forall x :: x in s <==> Key(7, x) in t[Key(7, now) := false] && !t[Key(7, now) := false][Key(7, x)]
    ensures Due(t[Key(7, now) := false], 7) == match TopTwo(s) case None => None case Some((a, b)) =>
              if b - a < THREE_MONTHS then Some(Timeout(7, a, b, TimeoutDays(b - a))) else None
  {
    var r := t[Key(7, now) := false];
    forall x ensures x in Open(r, 7) <==> x in s {
      assert x in Open(r, 7) <==> Key(7, x) in r && !r[Key(7, x)];
    }
    assert Open(r, 7) == s;
  }

  // ---------- The numbers ----------

  /** How long a timeout lasts: 7, 5, 3 or 1 days, by whether the two warnings are 3, 5 or 15 days apart; three months or none. */
  lemma TimeoutLengths(t: Table, user: nat, now: int)
    requires Key(user, now) !in t
    requires forall x :: x in Open(t, user) ==> x < now
    ensures match Due(t[Key(user, now) := false], user)
            case None => forall x :: x in Open(t, user) ==> now - x >= 7_889_238_000
            case Some(d) =>
              && d.newer == now && d.older in Open(t, user) && (forall x :: x in Open(t, user) ==> x <= d.older)
              && now - d.older < 7_889_238_000
              && (d.days == 7 <==> now - d.older < 259_200_000)
              && (d.days == 5 <==> 259_200_000 <= now - d.older < 432_000_000)
              && (d.days == 3 <==> 432_000_000 <= now - d.older < 1_296_000_000)
              && (d.days == 1 <==> 1_296_000_000 <= now - d.older)
  {
    OpenAfterRegister(t, user, now);
    assert now in Open(t, user) + {now};
  }

  /** Which rows a moderator's choice removes. */
  lemma RemovedRows(t: Table, choice: Choice, k: Key)
    ensures k in Removed(t, choice) <==>
            k in t && match choice
                      case Selected(user, at) => k != Key(user, at)
                      case Undo(user, at) => k != Key(user, at)
                      case All(user) => k.user != user
                      case Other => true
    ensures k in Removed(t, choice) ==> Removed(t, choice)[k] == t[k]
  {
  }

  /** Registering a warning opens it for its user alone, and a timeout closes what its user had open until then. */
  lemma WarnedRows(t: Table, user: nat, now: int, k: Key)
    requires Key(user, now) !in t
    ensures k in Warned(t, user, now) <==> k in t || k == Key(user, now)
    ensures k in Warned(t, user, now) ==>
              (Warned(t, user, now)[k] <==>
                 || (k in t && t[k])
                 || (k.user == user && k.at <= now && Due(t[Key(user, now) := false], user).Some?))
  {
    hide Due;
  }

  /** What an event of a run does to the rows and the timeouts. */
  lemma StepRows(s: State, e: Event, k: Key)
    ensures e.Remove? ==> Step(s, e).timeouts == s.timeouts
    ensures e.Remove? ==> (k in Step(s, e).table <==>
              k in s.table && match e.choice
                              case Selected(user, at) => k != Key(user, at)
                              case Undo(user, at) => k != Key(user, at)
                              case All(user) => k.user != user
                              case Other => true)
    ensures e.Warn? && Key(e.user, e.now) in s.table ==> Step(s, e) == s
    ensures e.Warn? && Key(e.user, e.now) !in s.table ==>
              && (k in Step(s, e).table <==> k in s.table || k == Key(e.user, e.now))
              && match Due(s.table[Key(e.user, e.now) := false], e.user)
                 case None => Step(s, e).timeouts == s.timeouts
                 case Some(d) => Step(s, e).timeouts == s.timeouts + [d]
  {
    hide Due;
  }
}
