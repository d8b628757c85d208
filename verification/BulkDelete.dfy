/** Snowflake timestamps, and deleting any number of messages in batches. */
module BulkDelete {
  const BATCH: nat := 100

  // The first of January 2015, in milliseconds of Unix time.
  const DISCORD_EPOCH: int := 1_420_070_400_000

  const NS_PER_MS: int := 1_000_000
  const NS_PER_DAY: int := 86_400_000_000_000

  datatype Call = Bulk(ids: seq<nat>) | Single(id: nat)

  /** GetTimestamp: milliseconds of Unix time; the shift drops the 22 low bits. */
  function Timestamp(id: nat): int {
    DISCORD_EPOCH + id / 0x40_0000
  }

  /** A greater id is never an earlier message. */
  lemma IdOrderRefinesTime(a: nat, b: nat)
    requires a <= b
    ensures Timestamp(a) <= Timestamp(b)
    ensures Timestamp(a) < Timestamp(b) <==> a / 0x40_0000 < b / 0x40_0000
  {
  }

  // std::chrono::ceil<days> of a duration in nanoseconds.
  function CeilDays(ns: int): int {
    -((-ns) / NS_PER_DAY)
  }

  /** The bulk endpoint's test, with the clock in nanoseconds. */
  predicate Young(id: nat, now: int) {
    CeilDays(now - Timestamp(id) * NS_PER_MS) < 14
  }

  lemma YoungIsThirteenDays(id: nat, now: int)
    ensures Young(id, now) <==> now - Timestamp(id) * NS_PER_MS <= 13 * NS_PER_DAY
  {
  }

  ghost predicate Descending(s: seq<nat>) {
    forall i, j :: 0 <= i < j < |s| ==> s[i] >= s[j]
  }

  function Keep(s: seq<nat>, now: int, young: bool): seq<nat> {
    if s == [] then []
    else
      var k := Keep(s[..|s| - 1], now, young);
      if Young(s[|s| - 1], now) == young then k + [s[|s| - 1]] else k
  }

  function Reverse(s: seq<nat>): seq<nat> {
    if s == [] then [] else [s[|s| - 1]] + Reverse(s[..|s| - 1])
  }

  function Insert(s: seq<nat>, x: nat): seq<nat> {
    if s != [] && s[0] > x then [s[0]] + Insert(s[1..], x) else [x] + s
  }

  /** What the library's sort by descending id leaves. */
  function Sorted(s: seq<nat>): seq<nat> {
    if s == [] then [] else Insert(Sorted(s[1..]), s[0])
  }

  function Singles(s: seq<nat>): seq<Call> {
    seq(|s|, i requires 0 <= i < |s| => Single(s[i]))
  }

  function Ids(calls: seq<Call>): seq<nat> {
    if calls == [] then []
    else IdsOf(calls[0]) + Ids(calls[1..])
  }

  function IdsOf(call: Call): seq<nat> {
    match call case Bulk(ids) => ids case Single(id) => [id]
  }

  // ---------- Facts ----------

  lemma {:induction false} InsertBag(s: seq<nat>, x: nat)
    ensures multiset(Insert(s, x)) == multiset(s) + multiset{x}
  {
    if s != [] && s[0] > x {
      InsertBag(s[1..], x);
      assert s == [s[0]] + s[1..];
    }
  }

  lemma {:induction false} InsertBelow(s: seq<nat>, x: nat, bound: nat)
    requires x <= bound && forall i :: 0 <= i < |s| ==> s[i] <= bound
    ensures forall i :: 0 <= i < |Insert(s, x)| ==> Insert(s, x)[i] <= bound
  {
    if s != [] && s[0] > x { InsertBelow(s[1..], x, bound); }
  }

  lemma {:induction false} InsertOrder(s: seq<nat>, x: nat)
    requires Descending(s)
    ensures Descending(Insert(s, x))
  {
    if s != [] && s[0] > x {
      InsertOrder(s[1..], x);
      InsertBelow(s[1..], x, s[0]);
    }
  }

  lemma {:induction false} SortedFacts(s: seq<nat>)
    ensures Descending(Sorted(s)) && multiset(Sorted(s)) == multiset(s)
  {
    if s != [] {
      SortedFacts(s[1..]);
      InsertOrder(Sorted(s[1..]), s[0]);
      InsertBag(Sorted(s[1..]), s[0]);
      assert s == [s[0]] + s[1..];
    }
  }

  lemma SameBagSameSize(a: seq<nat>, b: seq<nat>)
    requires multiset(a) == multiset(b)
    ensures |a| == |b|
  {
    assert |multiset(a)| == |a| && |multiset(b)| == |b|;
  }

  lemma {:induction false} KeepSplits(s: seq<nat>, now: int)
    ensures multiset(Keep(s, now, true)) + multiset(Keep(s, now, false)) == multiset(s)
    ensures |Keep(s, now, true)| + |Keep(s, now, false)| == |s|
    ensures forall i :: 0 <= i < |Keep(s, now, true)| ==> Young(Keep(s, now, true)[i], now)
    ensures forall i :: 0 <= i < |Keep(s, now, false)| ==> !Young(Keep(s, now, false)[i], now)
  {
    hide Young;
    if s != [] {
      KeepSplits(s[..|s| - 1], now);
      assert s == s[..|s| - 1] + [s[|s| - 1]];
    }
  }

  lemma {:induction false} ReverseBag(s: seq<nat>)
    ensures multiset(Reverse(s)) == multiset(s) && |Reverse(s)| == |s|
  {
    if s != [] {
      ReverseBag(s[..|s| - 1]);
      assert s == s[..|s| - 1] + [s[|s| - 1]];
    }
  }

  lemma {:induction false} IdsOfSingles(s: seq<nat>)
    ensures Ids(Singles(s)) == s
  {
    if s != [] {
      assert Singles(s)[1..] == Singles(s[1..]);
      IdsOfSingles(s[1..]);
    }
  }

  lemma {:induction false} IdsConcat(a: seq<Call>, b: seq<Call>)
    ensures Ids(a + b) == Ids(a) + Ids(b)
  {
    hide IdsOf;
    if a == [] {
      assert a + b == b;
    } else {
      IdsConcat(a[1..], b);
      assert (a + b)[1..] == a[1..] + b;
      var first := IdsOf(a[0]);
      assert first + (Ids(a[1..]) + Ids(b)) == first + Ids(a[1..]) + Ids(b);
    }
  }

  // ---------- One batch ----------

  /**
   * The calls made for one batch: the young messages in one bulk call if there are two or more of them,
   * and every other message alone, newest first.
   */
  ghost predicate BatchOk(batch: seq<nat>, now: int, calls: seq<Call>) {
    exists bulk, singles ::
      && calls == (if bulk == [] then [] else [Bulk(bulk)]) + Singles(singles)
      && BatchParts(batch, now, bulk, singles)
  }

  ghost predicate BatchParts(batch: seq<nat>, now: int, bulk: seq<nat>, singles: seq<nat>) {
    && multiset(bulk) + multiset(singles) == multiset(batch)
    && Descending(singles)
    && |bulk| <= 100
    && (bulk != [] ==> |bulk| >= 2 && bulk == Keep(batch, now, true))
    && (bulk == [] ==> |Keep(batch, now, true)| < 2)
  }

  /** The two-ended in-place partition: young ids from the front, the others from the back. */
  method Partition(ids: array<nat>, batch: seq<nat>, now: int) returns (it: nat)
    requires ids.Length == BATCH && |batch| <= BATCH
    modifies ids
    ensures it <= |batch|
    ensures ids[..it] == Keep(batch, now, true)
    ensures ids[it..|batch|] == Reverse(Keep(batch, now, false))
  {
    hide Young, Keep, Reverse;
    var outBegin, outEnd := 0, |batch|;
    assert ids[..0] == [] && ids[|batch|..|batch|] == [] && batch[..0] == [];
    KeepNothing(now);
    for i := 0 to |batch|
      invariant outBegin + (|batch| - outEnd) == i
      invariant 0 <= outBegin <= outEnd <= |batch|
      invariant ids[..outBegin] == Keep(batch[..i], now, true)
      invariant ids[outEnd..|batch|] == Reverse(Keep(batch[..i], now, false))
    {
      KeepStep(batch, i, now);
      ghost var before := ids[..];
      Parts(ids, outBegin, outEnd, |batch|);
      if Young(batch[i], now) {
        ids[outBegin] := batch[i];
        StoredInFront(before, ids[..], outBegin, outEnd, |batch|, batch[i]);
        outBegin := outBegin + 1;
      } else {
        outEnd := outEnd - 1;
        ids[outEnd] := batch[i];
        StoredBehind(before, ids[..], outBegin, outEnd, |batch|, batch[i]);
      }
      Parts(ids, outBegin, outEnd, |batch|);
    }
    assert batch[..|batch|] == batch;
    it := outEnd;
  }

  lemma Parts(ids: array<nat>, front: nat, back: nat, end: nat)
    requires front <= ids.Length && back <= end <= ids.Length
    ensures ids[..front] == ids[..][..front] && ids[back..end] == ids[..][back..end]
  {
  }

  lemma StoredInFront(s: seq<nat>, t: seq<nat>, front: nat, back: nat, end: nat, x: nat)
    requires front < back <= end <= |s| == |t| && t == s[front := x]
    ensures t[..front + 1] == s[..front] + [x] && t[back..end] == s[back..end]
  {
  }

  lemma StoredBehind(s: seq<nat>, t: seq<nat>, front: nat, back: nat, end: nat, x: nat)
    requires front <= back < end <= |s| == |t| && t == s[back := x]
    ensures t[back..end] == [x] + s[back + 1..end] && t[..front] == s[..front]
  {
  }

  lemma KeepNothing(now: int)
    ensures Keep([], now, true) == [] && Reverse(Keep([], now, false)) == []
  {
  }

  lemma KeepStep(batch: seq<nat>, i: nat, now: int)
    requires i < |batch|
    ensures Keep(batch[..i + 1], now, true) ==
            if Young(batch[i], now) then Keep(batch[..i], now, true) + [batch[i]] else Keep(batch[..i], now, true)
    ensures Reverse(Keep(batch[..i + 1], now, false)) ==
            if Young(batch[i], now) then Reverse(Keep(batch[..i], now, false)) else [batch[i]] + Reverse(Keep(batch[..i], now, false))
  {
    assert batch[..i + 1][..i] == batch[..i];
    var k := Keep(batch[..i], now, false);
    assert (k + [batch[i]])[..|k|] == k;
  }

  method SortDescending(ids: array<nat>, lo: nat, hi: nat)
    requires lo <= hi <= ids.Length
    modifies ids
    ensures ids[lo..hi] == Sorted(old(ids[lo..hi]))
    ensures forall i :: 0 <= i < ids.Length && !(lo <= i < hi) ==> ids[i] == old(ids[i])
  {
    var sorted := Sorted(ids[lo..hi]);
    SortedFacts(ids[lo..hi]);
    SameBagSameSize(sorted, ids[lo..hi]);
    forall i | lo <= i < hi {
      ids[i] := sorted[i - lo];
    }
  }

  method DeleteBatch(ids: array<nat>, batch: seq<nat>, now: int) returns (calls: seq<Call>)
    requires ids.Length == BATCH && |batch| <= BATCH
    modifies ids
    ensures BatchOk(batch, now, calls)
  {
    hide Young, Keep, Reverse, Sorted, Singles, Descending;
    var it := Partition(ids, batch, now);
    ghost var young, old_ := Keep(batch, now, true), Keep(batch, now, false);
    KeepSplits(batch, now);
    ReverseBag(old_);
    var newer := ids[..it];
    calls := [];
    if |newer| >= 2 {
      calls := [Bulk(newer)];
    } else {
      it := 0;
    }
    ghost var rest := ids[it..|batch|];
    assert ids[..|batch|] == young + Reverse(old_);
    SortedFacts(rest);
    SortDescending(ids, it, |batch|);
    var older := ids[it..|batch|];
    assert BatchParts(batch, now, if |newer| >= 2 then newer else [], older);
    calls := calls + Singles(older);
  }

  // ---------- All batches ----------

  function Flatten(groups: seq<seq<Call>>): seq<Call> {
    if groups == [] then [] else Flatten(groups[..|groups| - 1]) + groups[|groups| - 1]
  }

  // The k-th batch of a list of ids.
  function Batch(ids: seq<nat>, k: nat): seq<nat> {
    if BATCH * k >= |ids| then []
    else if BATCH * (k + 1) <= |ids| then ids[BATCH * k..BATCH * (k + 1)]
    else ids[BATCH * k..]
  }

  ghost predicate AllBatchesOk(ids: seq<nat>, clock: nat -> int, groups: seq<seq<Call>>) {
    forall k :: 0 <= k < |groups| ==> BatchOk(Batch(ids, k), clock(k), groups[k])
  }

  /** DeleteMessages; clock(k) is the time read for batch k. */
  method DeleteMessages(msgIds: seq<nat>, clock: nat -> int) returns (calls: seq<Call>, ghost groups: seq<seq<Call>>)
    ensures calls == Flatten(groups)
    ensures |groups| == (|msgIds| + 99) / 100
    ensures AllBatchesOk(msgIds, clock, groups)
    ensures multiset(Ids(calls)) == multiset(msgIds)
  {
    hide Ids, Flatten, Batches, Batch, BatchOk, AllBatchesOk;
    var ids := new nat[BATCH];
    calls, groups := [], [];
    var left := msgIds;
    ghost var taken: seq<nat> := [];
    var k := 0;
    NoBatch(msgIds, clock);
    while left != []
      invariant msgIds == taken + left
      invariant left != [] ==> |taken| == BATCH * k
      invariant |groups| == k == Batches(|taken|)
      invariant calls == Flatten(groups)
      invariant AllBatchesOk(msgIds, clock, groups)
      invariant multiset(Ids(calls)) == multiset(taken)
      decreases |left|
    {
      var size := if |left| < BATCH then |left| else BATCH;
      var batch := left[..size];
      BatchAt(taken, left, k);
      OneMoreBatch(|taken|, k, size);
      var more := DeleteBatch(ids, batch, clock(k));
      ConserveStep(taken, batch, clock(k), calls, more);
      AppendGroup(groups, more);
      AppendOk(msgIds, clock, groups, more);
      calls, groups := calls + more, groups + [more];
      taken, left := taken + batch, left[size..];
      k := k + 1;
    }
    BatchesOfHundred(|msgIds|);
  }

  function Batches(n: nat): nat {
    (n + BATCH - 1) / BATCH
  }

  lemma BatchesOfHundred(n: nat)
    ensures Batches(n) == (n + 99) / 100
  {
  }

  lemma NoBatch(ids: seq<nat>, clock: nat -> int)
    ensures Flatten([]) == [] && Ids([]) == [] && Batches(0) == 0 && AllBatchesOk(ids, clock, [])
  {
  }

  lemma OneMoreBatch(n: nat, k: nat, size: nat)
    requires n == BATCH * k && 1 <= size <= BATCH
    ensures Batches(n) == k && Batches(n + size) == k + 1
  {
  }

  lemma BatchAt(taken: seq<nat>, left: seq<nat>, k: nat)
    requires |taken| == BATCH * k && left != []
    ensures Batch(taken + left, k) == left[..if |left| < BATCH then |left| else BATCH]
  {
  }

  lemma ConserveStep(before: seq<nat>, batch: seq<nat>, now: int, calls: seq<Call>, more: seq<Call>)
    requires multiset(Ids(calls)) == multiset(before)
    requires BatchOk(batch, now, more)
    ensures multiset(Ids(calls + more)) == multiset(before + batch)
  {
    BatchConserves(batch, now, more);
    IdsConcat(calls, more);
    BagOfConcat(Ids(calls), Ids(more));
    BagOfConcat(before, batch);
  }

  lemma BagOfConcat(a: seq<nat>, b: seq<nat>)
    ensures multiset(a + b) == multiset(a) + multiset(b)
  {
  }

  lemma AppendGroup(groups: seq<seq<Call>>, more: seq<Call>)
    ensures Flatten(groups + [more]) == Flatten(groups) + more
  {
    assert (groups + [more])[..|groups|] == groups;
  }

  lemma AppendOk(ids: seq<nat>, clock: nat -> int, groups: seq<seq<Call>>, more: seq<Call>)
    requires AllBatchesOk(ids, clock, groups)
    requires BatchOk(Batch(ids, |groups|), clock(|groups|), more)
    ensures AllBatchesOk(ids, clock, groups + [more])
  {
    hide BatchOk, Batch;
  }

  lemma BatchConserves(batch: seq<nat>, now: int, calls: seq<Call>)
    requires BatchOk(batch, now, calls)
    ensures multiset(Ids(calls)) == multiset(batch)
  {
    var bulk, singles :| calls == (if bulk == [] then [] else [Bulk(bulk)]) + Singles(singles)
                         && BatchParts(batch, now, bulk, singles);
    IdsOfSingles(singles);
    if bulk == [] {
      assert calls == Singles(singles);
    } else {
      assert calls[1..] == Singles(singles);
    }
  }

  /** Every bulk call carries 2 to 100 messages that were at most 13 days old when its batch was looked at. */
  lemma BulkCallsAreLegal(batch: seq<nat>, now: int, calls: seq<Call>, i: nat)
    requires BatchOk(batch, now, calls)
    requires i < |calls| && calls[i].Bulk?
    ensures 2 <= |calls[i].ids| <= 100
    ensures forall id :: id in calls[i].ids ==> id in batch && now - Timestamp(id) * 1_000_000 <= 13 * 86_400_000_000_000
  {
    var bulk, singles :| calls == (if bulk == [] then [] else [Bulk(bulk)]) + Singles(singles)
                         && BatchParts(batch, now, bulk, singles);
    assert bulk != [] && i == 0;
    KeepSplits(batch, now);
    forall id | id in bulk ensures id in batch && now - Timestamp(id) * NS_PER_MS <= 13 * NS_PER_DAY {
      YoungIsThirteenDays(id, now);
      assert id in multiset(bulk);
      assert id in multiset(batch);
    }
  }

  /** Within a batch, later single deletions are of messages that are no newer; a single one is young only if alone. */
  lemma SinglesAreOrdered(batch: seq<nat>, now: int, calls: seq<Call>, i: nat, j: nat)
    requires BatchOk(batch, now, calls)
    requires i < j < |calls| && calls[i].Single? && calls[j].Single?
    ensures calls[i].id >= calls[j].id && Timestamp(calls[i].id) >= Timestamp(calls[j].id)
    ensures !(Young(calls[i].id, now) && Young(calls[j].id, now))
  {
    var bulk, singles :| calls == (if bulk == [] then [] else [Bulk(bulk)]) + Singles(singles)
                         && BatchParts(batch, now, bulk, singles);
    var d := if bulk == [] then 0 else 1;
    assert calls[i].id == singles[i - d] && calls[j].id == singles[j - d];
    IdOrderRefinesTime(singles[j - d], singles[i - d]);
    AtMostOneYoung(batch, now, bulk, singles, i - d, j - d);
  }

  lemma AtMostOneYoung(batch: seq<nat>, now: int, bulk: seq<nat>, singles: seq<nat>, i: nat, j: nat)
    requires BatchParts(batch, now, bulk, singles)
    requires i < j < |singles|
    ensures !(Young(singles[i], now) && Young(singles[j], now))
  {
    KeepSplits(batch, now);
    var old_ := Keep(batch, now, false);
    if bulk != [] {
      var b, o := multiset(bulk), multiset(old_);
      assert b == multiset(Keep(batch, now, true));
      assert (b + multiset(singles)) - b == multiset(singles) && (b + o) - b == o;
      assert singles[i] in multiset(singles);
      assert singles[i] in old_;
    } else {
      SameBagSameYoung(singles, batch, now);
      YoungCounted(singles, now, i, j);
    }
  }

  lemma {:induction false} YoungCounted(s: seq<nat>, now: int, i: nat, j: nat)
    requires i < j < |s|
    ensures Young(s[i], now) && Young(s[j], now) ==> |Keep(s, now, true)| >= 2
  {
    var n := |s| - 1;
    if j < n {
      YoungCounted(s[..n], now, i, j);
    } else {
      YoungCountedOnce(s[..n], now, i);
    }
  }

  lemma {:induction false} YoungCountedOnce(s: seq<nat>, now: int, i: nat)
    requires i < |s|
    ensures Young(s[i], now) ==> |Keep(s, now, true)| >= 1
  {
    var n := |s| - 1;
    if i < n { YoungCountedOnce(s[..n], now, i); }
  }

  lemma {:induction false} KeepCounts(s: seq<nat>, now: int, x: nat)
    ensures multiset(Keep(s, now, true))[x] == if Young(x, now) then multiset(s)[x] else 0
  {
    if s != [] {
      KeepCounts(s[..|s| - 1], now, x);
      assert s == s[..|s| - 1] + [s[|s| - 1]];
    }
  }

  lemma SameBagSameYoung(a: seq<nat>, b: seq<nat>, now: int)
    requires multiset(a) == multiset(b)
    ensures |Keep(a, now, true)| == |Keep(b, now, true)|
  {
    forall x: nat ensures multiset(Keep(a, now, true))[x] == multiset(Keep(b, now, true))[x] {
      KeepCounts(a, now, x);
      KeepCounts(b, now, x);
    }
    assert multiset(Keep(a, now, true)) == multiset(Keep(b, now, true));
    SameBagSameSize(Keep(a, now, true), Keep(b, now, true));
  }

  /** The timestamp of a snowflake, on the one that Discord's documentation gives as an example. */
  lemma TimestampSample()
    ensures Timestamp(175928847299117063) == 1462015105796
  {
  }

  /** Two or more young messages of a batch are all deleted by one bulk call, which comes first; old ones one by one. */
  lemma YoungGoTogether(batch: seq<nat>, now: int, calls: seq<Call>)
    requires BatchOk(batch, now, calls)
    ensures |Keep(batch, now, true)| >= 2 ==> calls != [] && calls[0] == Bulk(Keep(batch, now, true))
    ensures forall i :: 0 <= i < |calls| && calls[i].Bulk? ==> i == 0
  {
    var bulk, singles :| calls == (if bulk == [] then [] else [Bulk(bulk)]) + Singles(singles)
                         && BatchParts(batch, now, bulk, singles);
    assert forall i :: 0 <= i < |singles| ==> Singles(singles)[i].Single?;
  }
}
