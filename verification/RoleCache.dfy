/** The guild's role vector, sorted only when it is looked at, and the member colour read from it. */
module RoleCache {
  // A colour of 0 is "no colour".
  datatype Role = Role(id: nat, position: nat, color: nat)

  datatype Event =
    | GuildCreate(roles: seq<Role>)
    | RoleCreate(role: Role)
    | RoleUpdate(role: Role)
    | RoleDelete(id: nat)

  ghost predicate SortedByPosition(roles: seq<Role>) {
    forall i, j :: 0 <= i < j < |roles| ==> roles[i].position >= roles[j].position
  }

  ghost predicate Candidate(roles: seq<Role>, held: seq<nat>, r: Role) {
    r in roles && r.id in held && r.color != 0
  }

  /** The colour a member should show: that of a highest coloured role they hold, or none. No order is assumed. */
  ghost predicate IsMemberColor(roles: seq<Role>, held: seq<nat>, color: nat) {
    if exists r :: Candidate(roles, held, r) then
      exists r :: Candidate(roles, held, r) && r.color == color
                  && forall q :: Candidate(roles, held, q) ==> q.position <= r.position
    else
      color == 0
  }

  function Without(roles: seq<Role>, id: nat): (r: seq<Role>)
    ensures forall x :: x in r <==> x in roles && x.id != id
  {
    if roles == [] then []
    else if roles[0].id == id then Without(roles[1..], id)
    else [roles[0]] + Without(roles[1..], id)
  }

  lemma {:induction false} WithoutKeepsOrder(roles: seq<Role>, id: nat)
    requires SortedByPosition(roles)
    ensures SortedByPosition(Without(roles, id))
  {
    if roles != [] {
      var rest := Without(roles[1..], id);
      WithoutKeepsOrder(roles[1..], id);
      forall x | x in rest ensures x.position <= roles[0].position {
        var i :| 0 <= i < |roles[1..]| && roles[1..][i] == x;
        assert roles[i + 1] == x;
      }
    }
  }

  /** The first role with the given id is replaced; a role that is not there is appended. */
  function Updated(roles: seq<Role>, role: Role): seq<Role> {
    if roles == [] then [role]
    else if roles[0].id == role.id then [role] + roles[1..]
    else [roles[0]] + Updated(roles[1..], role)
  }

  lemma {:induction false} UpdatedAt(roles: seq<Role>, role: Role, i: nat)
    requires i <= |roles|
    requires forall j :: 0 <= j < i ==> roles[j].id != role.id
    requires i < |roles| ==> roles[i].id == role.id
    ensures Updated(roles, role) == if i < |roles| then roles[i := role] else roles + [role]
  {
    if i > 0 {
      UpdatedAt(roles[1..], role, i - 1);
      assert roles == [roles[0]] + roles[1..];
    }
  }

  /** The roles of the guild as the events alone say, kept as a bag: sorting never loses or invents one. */
  ghost function Bag(roles: seq<Role>): multiset<Role> {
    multiset(roles)
  }

  class Cache {
    var roles: seq<Role>
    var sorted: bool

    ghost predicate Valid()
      reads this
    {
      sorted ==> SortedByPosition(roles)
    }

    constructor ()
      ensures Valid() && roles == []
    {
      roles, sorted := [], false;
    }

    method OnGuildCreate(newRoles: seq<Role>)
      modifies this
      ensures Valid() && roles == newRoles
    {
      roles := newRoles;
      sorted := false;
    }

    method OnGuildRoleCreate(role: Role)
      modifies this
      ensures Valid() && roles == old(roles) + [role]
    {
      roles := roles + [role];
      sorted := false;
    }

    method OnGuildRoleUpdate(role: Role)
      modifies this
      ensures Valid() && roles == Updated(old(roles), role)
    {
      var i := 0;
      while i < |roles| && roles[i].id != role.id
        invariant 0 <= i <= |roles|
        invariant forall j :: 0 <= j < i ==> roles[j].id != role.id
      {
        i := i + 1;
      }
      UpdatedAt(roles, role, i);
      roles := if i < |roles| then roles[i := role] else roles + [role];
      sorted := false;
    }

    // The flag is left alone: erasing keeps the order of the others.
    method OnGuildRoleDelete(id: nat)
      requires Valid()
      modifies this
      ensures Valid() && roles == Without(old(roles), id) && sorted == old(sorted)
    {
      if sorted { WithoutKeepsOrder(roles, id); }
      roles := Without(roles, id);
    }

    method GetRoles() returns (view: seq<Role>)
      requires Valid()
      modifies this
      ensures Valid() && sorted && view == roles
      ensures SortedByPosition(view)
      ensures Bag(roles) == Bag(old(roles))
      ensures old(sorted) ==> roles == old(roles)
    {
      if !sorted {
        roles := Sort(roles);
        sorted := true;
      }
      view := roles;
    }

    method GetMemberColor(held: seq<nat>) returns (color: nat)
      requires Valid()
      modifies this
      ensures Valid() && Bag(roles) == Bag(old(roles))
      ensures IsMemberColor(old(roles), held, color)
    {
      var view := GetRoles();
      color := FindColor(view, held);
      ColorIgnoresOrder(view, old(roles), held, color);
    }
  }

  function Insert(sorted: seq<Role>, r: Role): seq<Role> {
    if sorted != [] && sorted[0].position > r.position then [sorted[0]] + Insert(sorted[1..], r) else [r] + sorted
  }

  lemma {:induction false} InsertBag(sorted: seq<Role>, r: Role)
    ensures Bag(Insert(sorted, r)) == Bag(sorted) + multiset{r}
  {
    if sorted != [] && sorted[0].position > r.position {
      InsertBag(sorted[1..], r);
      assert sorted == [sorted[0]] + sorted[1..];
    }
  }

  lemma {:induction false} InsertKeepsOrder(sorted: seq<Role>, r: Role)
    requires SortedByPosition(sorted)
    ensures SortedByPosition(Insert(sorted, r))
  {
    if sorted != [] && sorted[0].position > r.position {
      var tail := sorted[1..];
      var rest := Insert(tail, r);
      InsertKeepsOrder(tail, r);
      InsertBag(tail, r);
      forall i | 0 <= i < |rest| ensures rest[i].position <= sorted[0].position {
        assert rest[i] in multiset(rest);
        assert rest[i] == r || rest[i] in tail;
      }
      Prepend(sorted[0], rest);
    }
  }

  lemma Prepend(first: Role, rest: seq<Role>)
    requires SortedByPosition(rest)
    requires forall i :: 0 <= i < |rest| ==> rest[i].position <= first.position
    ensures SortedByPosition([first] + rest)
  {
  }

  /** What the library's sort by position promises; equal positions may end up in any order. */
  method Sort(input: seq<Role>) returns (output: seq<Role>)
    ensures SortedByPosition(output)
    ensures Bag(output) == Bag(input)
  {
    output := [];
    for i := 0 to |input|
      invariant SortedByPosition(output)
      invariant Bag(output) == Bag(input[..i])
    {
      InsertKeepsOrder(output, input[i]);
      InsertBag(output, input[i]);
      assert input[..i + 1] == input[..i] + [input[i]];
      output := Insert(output, input[i]);
    }
    assert input[..|input|] == input;
  }

  /** find_first_of: the first role, in the vector's order, that is held and coloured. */
  method FindColor(view: seq<Role>, held: seq<nat>) returns (color: nat)
    requires SortedByPosition(view)
    ensures IsMemberColor(view, held, color)
  {
    for i := 0 to |view|
      invariant forall j :: 0 <= j < i ==> !Candidate(view, held, view[j])
    {
      if view[i].id in held && view[i].color != 0 {
        assert Candidate(view, held, view[i]);
        return view[i].color;
      }
    }
    return 0;
  }

  lemma ColorIgnoresOrder(a: seq<Role>, b: seq<Role>, held: seq<nat>, color: nat)
    requires Bag(a) == Bag(b)
    ensures IsMemberColor(a, held, color) <==> IsMemberColor(b, held, color)
  {
    forall r ensures Candidate(a, held, r) <==> Candidate(b, held, r) {
      assert r in a <==> r in multiset(a);
      assert r in b <==> r in multiset(b);
    }
  }

  // ---------- Runs of events, with any number of lookups in between ----------

  function Apply(roles: seq<Role>, e: Event): seq<Role> {
    match e
    case GuildCreate(rs) => rs
    case RoleCreate(r) => roles + [r]
    case RoleUpdate(r) => Updated(roles, r)
    case RoleDelete(id) => Without(roles, id)
  }

  ghost predicate DistinctIds(roles: seq<Role>) {
    forall i, j :: 0 <= i < j < |roles| ==> roles[i].id != roles[j].id
  }

  /** An event does the same to a reordered vector, as long as no two roles share an id. */
  lemma ApplyIgnoresOrder(a: seq<Role>, b: seq<Role>, e: Event)
    requires Bag(a) == Bag(b) && DistinctIds(a)
    ensures Bag(Apply(a, e)) == Bag(Apply(b, e))
  {
    match e {
      case GuildCreate(_) =>
      case RoleCreate(_) =>
      case RoleUpdate(r) =>
        DistinctIgnoresOrder(a, b);
        UpdatedBag(a, r);
        UpdatedBag(b, r);
        WithoutIgnoresOrder(a, b, r.id);
      case RoleDelete(id) =>
        WithoutIgnoresOrder(a, b, id);
    }
  }

  lemma {:induction false} WithoutBag(roles: seq<Role>, id: nat, x: Role)
    ensures Bag(Without(roles, id))[x] == if x.id == id then 0 else Bag(roles)[x]
  {
    if roles != [] {
      WithoutBag(roles[1..], id, x);
      assert roles == [roles[0]] + roles[1..];
    }
  }

  lemma DistinctIgnoresOrder(a: seq<Role>, b: seq<Role>)
    requires Bag(a) == Bag(b) && DistinctIds(a)
    ensures DistinctIds(b)
  {
    if i, j :| 0 <= i < j < |b| && b[i].id == b[j].id {
      var x, y := b[i], b[j];
      assert x in multiset(b) && y in multiset(b);
      assert x in a && y in a;
      if x == y {
        TwiceMeansTwo(b, i, j);
        DistinctOnce(a, x);
      }
    }
  }

  lemma TwiceMeansTwo(s: seq<Role>, i: nat, j: nat)
    requires i < j < |s| && s[i] == s[j]
    ensures multiset(s)[s[i]] >= 2
  {
    assert s == s[..j] + [s[j]] + s[j + 1..];
    assert s[i] in s[..j];
    assert multiset(s) == multiset(s[..j]) + multiset{s[j]} + multiset(s[j + 1..]);
  }

  lemma {:induction false} DistinctOnce(s: seq<Role>, x: Role)
    requires DistinctIds(s)
    ensures multiset(s)[x] <= 1
  {
    if s != [] {
      assert s == [s[0]] + s[1..];
      DistinctOnce(s[1..], x);
      if x == s[0] { assert x !in s[1..]; assert x !in multiset(s[1..]); }
    }
  }

  lemma WithoutIgnoresOrder(a: seq<Role>, b: seq<Role>, id: nat)
    requires Bag(a) == Bag(b)
    ensures Bag(Without(a, id)) == Bag(Without(b, id))
  {
    forall x ensures Bag(Without(a, id))[x] == Bag(Without(b, id))[x] {
      WithoutBag(a, id, x);
      WithoutBag(b, id, x);
    }
  }

  /** With distinct ids an update is a removal followed by an addition. */
  lemma {:induction false} UpdatedBag(roles: seq<Role>, role: Role)
    requires DistinctIds(roles)
    ensures Bag(Updated(roles, role)) == Bag(Without(roles, role.id)) + multiset{role}
  {
    if roles != [] {
      var rest := roles[1..];
      assert roles == [roles[0]] + rest;
      if roles[0].id == role.id {
        AbsentStays(rest, role.id);
      } else {
        UpdatedBag(rest, role);
      }
    }
  }

  lemma {:induction false} AbsentStays(roles: seq<Role>, id: nat)
    requires forall i :: 0 <= i < |roles| ==> roles[i].id != id
    ensures Without(roles, id) == roles
  {
    if roles != [] {
      AbsentStays(roles[1..], id);
      assert roles == [roles[0]] + roles[1..];
    }
  }

  /** The events of a run give every role one id: creations use new ids, a guild's own list has no repeats. */
  ghost predicate WellFormed(roles: seq<Role>, events: seq<Event>)
    decreases |events|
  {
    events == [] || (DistinctIds(Apply(roles, events[0])) && WellFormed(Apply(roles, events[0]), events[1..]))
  }

  function Replay(roles: seq<Role>, events: seq<Event>): seq<Role>
    decreases |events|
  {
    if events == [] then roles else Replay(Apply(roles, events[0]), events[1..])
  }

  /** The cache's vectors along a run: after each event, any number of lookups may have reordered the vector. */
  ghost predicate IsRun(states: seq<seq<Role>>, events: seq<Event>) {
    && |states| == |events| + 1
    && forall i :: 0 <= i < |events| ==> Bag(states[i + 1]) == Bag(Apply(states[i], events[i]))
  }

  /** Wherever the lookups fall, the cache ends with the roles of the bare event history, and shows the same colours. */
  lemma {:induction false} LookupsAreInvisible(states: seq<seq<Role>>, events: seq<Event>, start: seq<Role>, held: seq<nat>, color: nat)
    requires IsRun(states, events)
    requires DistinctIds(start) && WellFormed(start, events)
    requires Bag(states[0]) == Bag(start)
    ensures Bag(states[|events|]) == Bag(Replay(start, events))
    ensures IsMemberColor(states[|events|], held, color) <==> IsMemberColor(Replay(start, events), held, color)
    decreases |events|
  {
    if events != [] {
      ApplyIgnoresOrder(start, states[0], events[0]);
      LookupsAreInvisible(states[1..], events[1..], Apply(start, events[0]), held, color);
    } else {
      ColorIgnoresOrder(states[0], start, held, color);
    }
  }

  // ---------- What the colour and the events mean ----------

  /** The colour is that of the highest role with a colour that the member holds; without one it is 0. */
  lemma HighestWins(roles: seq<Role>, held: seq<nat>, r: Role, color: nat)
    requires r in roles && r.id in held && r.color != 0
    requires forall q :: q in roles && q.id in held && q.color != 0 && q != r ==> q.position < r.position
    ensures IsMemberColor(roles, held, color) <==> color == r.color
  {
    assert Candidate(roles, held, r);
    if q :| Candidate(roles, held, q) && q.color == color && forall p :: Candidate(roles, held, p) ==> p.position <= q.position {
      assert r.position <= q.position;
    }
    assert forall q :: Candidate(roles, held, q) ==> q.position <= r.position;
  }

  lemma NoneIsDefault(roles: seq<Role>, held: seq<nat>, color: nat)
    requires forall q :: q in roles && q.id in held ==> q.color == 0
    ensures IsMemberColor(roles, held, color) <==> color == 0
  {
    assert forall q :: !Candidate(roles, held, q);
  }

  /** Which roles there are after an event. */
  lemma RolesAfter(roles: seq<Role>, e: Event, x: Role)
    requires DistinctIds(roles)
    ensures x in Apply(roles, e) <==>
            match e
            case GuildCreate(all) => x in all
            case RoleCreate(role) => x in roles || x == role
            case RoleUpdate(role) => x == role || (x in roles && x.id != role.id)
            case RoleDelete(id) => x in roles && x.id != id
  {
    match e {
      case RoleUpdate(role) =>
        UpdatedBag(roles, role);
        assert x in Updated(roles, role) <==> x in Bag(Updated(roles, role));
        assert x in Without(roles, role.id) <==> x in Bag(Without(roles, role.id));
      case _ =>
    }
  }
}
