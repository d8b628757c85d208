/** Rank roles: which role a level deserves, and the in-place edit that gives a member that role alone. */
module RankRoles {
  import opened Wrappers

  const MEMBER: nat               := 350264923806367754
  const ACTIVE_MEMBER: nat        := 352008860904456192
  const ACTIVE_USER: nat          := 352009155864821760
  const REALLY_ACTIVE_MEMBER: nat := 353354156783960075
  const USUAL_SUSPECT: nat        := 410753563543732225
  const GREEK_LOVER: nat          := 410754841556549633
  const PROESTOS: nat             := 414523335595130905
  const EPITIMOS: nat             := 466238555304230913
  const ELLINOPOULO: nat          := 608687509291008000
  const PALIOS: nat               := 631559446782410752
  const VETERANOS: nat            := 817337981979066398

  const NO_ROLE: nat := 0

  /** The sorted table that the binary search runs over. It does not list VETERANOS. */
  const RANK_ROLES: seq<nat> := [
    MEMBER, ACTIVE_MEMBER, ACTIVE_USER, REALLY_ACTIVE_MEMBER, USUAL_SUSPECT,
    GREEK_LOVER, PROESTOS, EPITIMOS, ELLINOPOULO, PALIOS
  ]

  function TargetRole(level: int): nat {
    if level >= 150 then VETERANOS
    else if level >= 100 then PALIOS
    else if level >= 70 then ELLINOPOULO
    else if level >= 50 then EPITIMOS
    else if level >= 40 then PROESTOS
    else if level >= 35 then GREEK_LOVER
    else if level >= 25 then USUAL_SUSPECT
    else if level >= 20 then REALLY_ACTIVE_MEMBER
    else if level >= 15 then ACTIVE_MEMBER
    else if level >= 10 then MEMBER
    else if level >= 6 then ACTIVE_USER
    else NO_ROLE
  }

  ghost predicate IsRank(role: nat) {
    role in RANK_ROLES
  }

  lemma TargetIsRank(level: int)
    ensures IsRank(TargetRole(level)) <==> 6 <= level < 150
    ensures TargetRole(level) == NO_ROLE <==> level < 6
  {
    var i := if level >= 100 then 9 else if level >= 70 then 8 else if level >= 50 then 7
             else if level >= 40 then 6 else if level >= 35 then 5 else if level >= 25 then 4
             else if level >= 20 then 3 else if level >= 15 then 1 else if level >= 10 then 0 else 2;
    assert 6 <= level < 150 ==> RANK_ROLES[i] == TargetRole(level);
  }

  /** What the edit is for, said of bags: the roles that are not rank roles, and the target. */
  ghost function Bag(target: nat): multiset<nat> {
    if target == NO_ROLE then multiset{} else multiset{target}
  }

  ghost function Keep(roles: seq<nat>, rank: bool): seq<nat> {
    if roles == [] then []
    else if IsRank(roles[0]) == rank then [roles[0]] + Keep(roles[1..], rank)
    else Keep(roles[1..], rank)
  }

  /** The member already has the target as the only rank role (or none when none is due). */
  ghost predicate Settled(level: int, roles: seq<nat>) {
    multiset(Keep(roles, true)) == Bag(TargetRole(level))
  }

  ghost function Wanted(level: int, roles: seq<nat>): multiset<nat> {
    multiset(Keep(roles, false)) + Bag(TargetRole(level))
  }

  lemma {:induction false} KeepCounts(roles: seq<nat>, rank: bool, x: nat)
    ensures multiset(Keep(roles, rank))[x] == if IsRank(x) == rank then multiset(roles)[x] else 0
  {
    if roles != [] {
      KeepCounts(roles[1..], rank, x);
      assert roles == [roles[0]] + roles[1..];
    }
  }

  /** A partition holds the two kept parts, whatever order the library leaves them in. */
  lemma PartitionBags(roles: seq<nat>, front: seq<nat>, back: seq<nat>)
    requires multiset(front) + multiset(back) == multiset(roles)
    requires forall x :: x in front ==> !IsRank(x)
    requires forall x :: x in back ==> IsRank(x)
    ensures multiset(front) == multiset(Keep(roles, false))
    ensures multiset(back) == multiset(Keep(roles, true))
  {
    forall x: nat
      ensures multiset(front)[x] == multiset(Keep(roles, false))[x]
      ensures multiset(back)[x] == multiset(Keep(roles, true))[x]
    {
      KeepCounts(roles, false, x);
      KeepCounts(roles, true, x);
      assert multiset(roles)[x] == multiset(front)[x] + multiset(back)[x];
      assert x !in front ==> multiset(front)[x] == 0;
      assert x !in back ==> multiset(back)[x] == 0;
    }
  }

  ghost predicate Increasing(table: seq<nat>) {
    forall i, j :: 0 <= i < j < |table| ==> table[i] < table[j]
  }

  lemma TableSorted()
    ensures Increasing(RANK_ROLES)
  {
    IncreasingBySteps(RANK_ROLES);
  }

  lemma {:induction false} IncreasingBySteps(table: seq<nat>)
    requires forall i :: 0 <= i < |table| - 1 ==> table[i] < table[i + 1]
    ensures Increasing(table)
  {
    if |table| > 1 {
      var init := table[..|table| - 1];
      IncreasingBySteps(init);
      forall i, j | 0 <= i < j < |table| ensures table[i] < table[j] {
        assert i < |init| && init[i] == table[i] && (j < |init| ==> init[j] == table[j]);
        assert init[|init| - 1] < table[|table| - 1];
      }
    }
  }

  method BinarySearch(table: seq<nat>, role: nat) returns (found: bool)
    requires Increasing(table)
    ensures found <==> role in table
  {
    var lo, hi := 0, |table|;
    while lo < hi
      invariant 0 <= lo <= hi <= |table|
      invariant forall i :: 0 <= i < lo ==> table[i] < role
      invariant forall i :: hi <= i < |table| ==> role <= table[i]
    {
      var mid := (lo + hi) / 2;
      if table[mid] < role { lo := mid + 1; } else { hi := mid; }
    }
    found := lo < |table| && table[lo] == role;
  }

  lemma SameAsItself(s: seq<nat>)
    ensures SameBag(s, s)
  {
  }

  ghost function Swapped(s: seq<nat>, i: nat, j: nat): seq<nat>
    requires i < |s| && j < |s|
  {
    s[i := s[j]][j := s[i]]
  }

  ghost predicate SameBag(s: seq<nat>, t: seq<nat>) {
    multiset(s) == multiset(t)
  }

  lemma SwappedBag(s: seq<nat>, i: nat, j: nat, t: seq<nat>)
    requires i < |s| && j < |s| && SameBag(s, t)
    ensures SameBag(Swapped(s, i, j), t)
  {
  }

  /** The listed roles are pushed behind the others by swaps; returns where they start. */
  method Partition(a: array<nat>, table: seq<nat>) returns (mid: nat)
    requires Increasing(table)
    modifies a
    ensures mid <= a.Length
    ensures SameBag(a[..], old(a[..]))
    ensures forall i :: 0 <= i < mid ==> a[i] !in table
    ensures forall i :: mid <= i < a.Length ==> a[i] in table
  {
    hide Increasing, SameBag;
    SameAsItself(a[..]);
    mid := 0;
    var last := a.Length;
    while mid < last
      invariant 0 <= mid <= last <= a.Length
      invariant SameBag(a[..], old(a[..]))
      invariant forall i :: 0 <= i < mid ==> a[i] !in table
      invariant forall i :: last <= i < a.Length ==> a[i] in table
    {
      var listed := BinarySearch(table, a[mid]);
      if listed {
        last := last - 1;
        ghost var before := a[..];
        a[mid], a[last] := a[last], a[mid];
        assert a[..] == Swapped(before, mid, last);
        SwappedBag(before, mid, last, old(a[..]));
      } else {
        mid := mid + 1;
      }
    }
  }

  /**
   * The role edit of process_leaderboard_new_message on the member's roles.
   * None: no request is sent. Some(r): the member is given the roles r.
   */
  method Reconcile(level: int, roles: seq<nat>) returns (request: Option<seq<nat>>)
    ensures request.None? <==> Settled(level, roles)
    ensures request.Some? ==> multiset(request.value) == Wanted(level, roles)
  {
    var target := TargetRole(level);
    var memberRoles := new nat[|roles|](i requires 0 <= i < |roles| => roles[i]);
    assert memberRoles[..] == roles;
    TableSorted();
    var mid := Partition(memberRoles, RANK_ROLES);
    var front, back := memberRoles[..mid], memberRoles[mid..];
    assert front + back == memberRoles[..];
    PartitionBags(roles, front, back);
    if |back| == 0 {
      if target == NO_ROLE { return None; }
      assert multiset(Keep(roles, true))[target] == 0;
      return Some(front + [target]);
    } else if |back| == 1 {
      assert back == [back[0]];
      assert multiset(back)[back[0]] == 1;
      if target == NO_ROLE { return Some(front); }
      if back[0] != target {
        return Some(front + [target]);
      }
      return None;
    } else {
      NotSingleton(back, target);
      if target != NO_ROLE {
        return Some(front + [target]);
      }
      return Some(front);
    }
  }

  lemma NotSingleton(s: seq<nat>, target: nat)
    requires |s| >= 2
    ensures multiset(s) != Bag(target)
  {
    assert |multiset(s)| == |s|;
  }

  /** Below level 150 the request leaves the target once, no other rank role, and the other roles as they were. */
  lemma ReconciledExactly(level: int, roles: seq<nat>, result: seq<nat>)
    requires level < 150
    requires multiset(result) == Wanted(level, roles)
    ensures forall x :: !IsRank(x) ==> multiset(result)[x] == multiset(roles)[x]
    ensures forall x :: IsRank(x) ==> multiset(result)[x] == if x == TargetRole(level) then 1 else 0
    ensures TargetRole(level) != NO_ROLE ==> multiset(result)[TargetRole(level)] == 1
  {
    TargetIsRank(level);
    forall x: nat ensures multiset(result)[x] == multiset(Keep(roles, false))[x] + Bag(TargetRole(level))[x]
                  ensures multiset(Keep(roles, false))[x] == if IsRank(x) then 0 else multiset(roles)[x] {
      KeepCounts(roles, false, x);
    }
  }

  /** A second message changes nothing more, exactly when the level is below 150. */
  lemma SettledIffBelow150(level: int, roles: seq<nat>, result: seq<nat>)
    requires multiset(result) == Wanted(level, roles)
    ensures Settled(level, result) <==> level < 150
  {
    TargetIsRank(level);
    var target := TargetRole(level);
    forall x: nat
      ensures multiset(Keep(result, true))[x] == if IsRank(x) then Bag(target)[x] else 0
    {
      KeepCounts(result, true, x);
      KeepCounts(roles, false, x);
    }
    if level < 150 {
      forall x: nat ensures multiset(Keep(result, true))[x] == Bag(target)[x] { }
      assert multiset(Keep(result, true)) == Bag(target);
    } else {
      assert multiset(Keep(result, true))[VETERANOS] == 0;
      assert Bag(target)[VETERANOS] == 1;
    }
  }

  /** From level 150 on every message asks for one more VETERANOS than the member had. */
  lemma VeteransPileUp(level: int, roles: seq<nat>, result: seq<nat>)
    requires level >= 150
    requires multiset(result) == Wanted(level, roles)
    ensures multiset(result)[VETERANOS] == multiset(roles)[VETERANOS] + 1
  {
    TargetIsRank(level);
    KeepCounts(roles, false, VETERANOS);
  }

  /** The role that each level deserves, by the ids of the roles. */
  lemma RoleOfLevel(level: int)
    ensures level >= 150 ==> TargetRole(level) == 817337981979066398
    ensures 100 <= level < 150 ==> TargetRole(level) == 631559446782410752
    ensures 70 <= level < 100 ==> TargetRole(level) == 608687509291008000
    ensures 50 <= level < 70 ==> TargetRole(level) == 466238555304230913
    ensures 40 <= level < 50 ==> TargetRole(level) == 414523335595130905
    ensures 35 <= level < 40 ==> TargetRole(level) == 410754841556549633
    ensures 25 <= level < 35 ==> TargetRole(level) == 410753563543732225
    ensures 20 <= level < 25 ==> TargetRole(level) == 353354156783960075
    ensures 15 <= level < 20 ==> TargetRole(level) == 352008860904456192
    ensures 10 <= level < 15 ==> TargetRole(level) == 350264923806367754
    ensures 6 <= level < 10 ==> TargetRole(level) == 352009155864821760
    ensures level < 6 ==> TargetRole(level) == 0
  {
  }

  /** A listed role is one that some level below 150 deserves, and the other way round. */
  lemma RanksAreTargets(role: nat)
    ensures IsRank(role) <==> exists level :: 6 <= level < 150 && TargetRole(level) == role
  {
    if IsRank(role) {
      var i :| 0 <= i < |RANK_ROLES| && RANK_ROLES[i] == role;
      var level := if i == 0 then 10 else if i == 1 then 15 else if i == 2 then 6 else if i == 3 then 20 else if i == 4 then 25
                   else if i == 5 then 35 else if i == 6 then 40 else if i == 7 then 50 else if i == 8 then 70 else 100;
      assert TargetRole(level) == role;
    }
    forall level | 6 <= level < 150 ensures IsRank(TargetRole(level)) { TargetIsRank(level); }
  }

  /** When no request is sent: the member holds the target once and no other listed role, or none when none is due. */
  lemma SettledExactly(level: int, roles: seq<nat>)
    requires level < 150
    ensures Settled(level, roles) <==>
            forall x :: IsRank(x) ==> multiset(roles)[x] == if x == TargetRole(level) then 1 else 0
  {
    hide IsRank, TargetRole;
    TargetIsRank(level);
    forall x ensures multiset(Keep(roles, true))[x] == if IsRank(x) then multiset(roles)[x] else 0 { KeepCounts(roles, true, x); }
    NoRoleIsNoRank();
    forall x ensures Bag(TargetRole(level))[x] == if x == TargetRole(level) && x != NO_ROLE then 1 else 0 {
    }
    if forall x :: IsRank(x) ==> multiset(roles)[x] == if x == TargetRole(level) then 1 else 0 {
      assert forall x :: multiset(Keep(roles, true))[x] == Bag(TargetRole(level))[x];
      assert multiset(Keep(roles, true)) == Bag(TargetRole(level));
    }
  }

  lemma NoRoleIsNoRank()
    ensures !IsRank(NO_ROLE)
  {
  }
}
