/** Retrieving channel messages page by page, from a channel that changes while it is read. */
module Pagination {
  import opened Wrappers

  const PAGE: nat := 100

  datatype Request = Request(before: Option<nat>, limit: nat)

  ghost predicate Descending(h: seq<nat>) {
    forall i, j :: 0 <= i < j < |h| ==> h[i] > h[j]
  }

  function OlderThan(h: seq<nat>, id: nat): seq<nat> {
    if h == [] then []
    else if h[0] < id then [h[0]] + OlderThan(h[1..], id)
    else OlderThan(h[1..], id)
  }

  /** The newest n messages of a history that is listed newest first. */
  function Newest(h: seq<nat>, n: nat): seq<nat> {
    if n < |h| then h[..n] else h
  }

  /** What the server answers. */
  function Page(h: seq<nat>, r: Request): seq<nat> {
    Newest(if r.before.Some? then OlderThan(h, r.before.value) else h, r.limit)
  }

  ghost predicate NotOlder(a: seq<nat>, id: nat) {
    forall i :: 0 <= i < |a| ==> a[i] >= id
  }

  // ---------- Facts about histories ----------

  lemma {:induction false} OlderSkips(a: seq<nat>, h: seq<nat>, id: nat)
    requires NotOlder(a, id)
    ensures OlderThan(a + h, id) == OlderThan(h, id)
  {
    if a == [] {
      assert a + h == h;
    } else {
      OlderSkips(a[1..], h, id);
      assert (a + h)[1..] == a[1..] + h;
    }
  }

  lemma {:induction false} OlderKeepsAll(h: seq<nat>, id: nat)
    requires forall i :: 0 <= i < |h| ==> h[i] < id
    ensures OlderThan(h, id) == h
  {
    if h != [] { OlderKeepsAll(h[1..], id); }
  }

  lemma {:induction false} OlderMembers(h: seq<nat>, id: nat)
    ensures forall x :: x in OlderThan(h, id) <==> x in h && x < id
    ensures Descending(h) ==> Descending(OlderThan(h, id))
  {
    if h != [] {
      assert h == [h[0]] + h[1..];
      OlderMembers(h[1..], id);
      if Descending(h) {
        var rest := OlderThan(h[1..], id);
        forall j | 0 <= j < |rest| ensures h[0] > rest[j] {
          assert rest[j] in rest;
          var i :| 0 <= i < |h[1..]| && h[1..][i] == rest[j];
          assert h[0] > h[i + 1];
        }
      }
    }
  }

  lemma {:induction false} OlderTwice(h: seq<nat>, id: nat, earlier: nat)
    requires earlier <= id
    ensures OlderThan(OlderThan(h, id), earlier) == OlderThan(h, earlier)
  {
    if h != [] { OlderTwice(h[1..], id, earlier); }
  }

  /** In a descending history, what is older than the message at p is what follows it. */
  lemma OlderIsSuffix(h: seq<nat>, p: nat)
    requires Descending(h) && p < |h|
    ensures OlderThan(h, h[p]) == h[p + 1..]
  {
    assert h == h[..p + 1] + h[p + 1..];
    OlderSkips(h[..p + 1], h[p + 1..], h[p]);
    OlderKeepsAll(h[p + 1..], h[p]);
  }

  /** The answer to a request that asks for messages before one of hist does not depend on what arrived since. */
  lemma PageIgnoresArrivals(hist: seq<nat>, new_: seq<nat>, before: nat, limit: nat)
    requires Descending(new_ + hist)
    requires before in hist || NotOlder(new_, before)
    ensures Page(new_ + hist, Request(Some(before), limit)) == Newest(OlderThan(hist, before), limit)
  {
    forall i | 0 <= i < |new_| ensures new_[i] >= before {
      if before in hist {
        var j :| 0 <= j < |hist| && hist[j] == before;
        assert (new_ + hist)[i] > (new_ + hist)[|new_| + j];
      }
    }
    OlderSkips(new_, hist, before);
  }

  // ---------- What the generators yield ----------

  function PageSize(limit: nat): nat {
    if limit < PAGE then limit else PAGE
  }

  /**
   * The messages yielded from request k on, up to a limit. channel(k) is what the channel holds, newest first, when that
   * request is answered; messages may arrive and be deleted between two requests.
   */
  function Retrieved(channel: nat -> seq<nat>, k: nat, before: Option<nat>, limit: nat): seq<nat>
    decreases limit
  {
    if limit == 0 then []
    else
      var page := Page(channel(k), Request(before, PageSize(limit)));
      if limit <= PAGE || |page| < PAGE then page
      else page + Retrieved(channel, k + 1, Some(page[PAGE - 1]), limit - PAGE)
  }

  /** The requests made for them. */
  function Asked(channel: nat -> seq<nat>, k: nat, before: Option<nat>, limit: nat): seq<Request>
    decreases limit
  {
    if limit == 0 then []
    else
      var r := Request(before, PageSize(limit));
      var page := Page(channel(k), r);
      if limit <= PAGE || |page| < PAGE then [r]
      else [r] + Asked(channel, k + 1, Some(page[PAGE - 1]), limit - PAGE)
  }

  /** Every request asks for 1 to 100 messages, and there are no more of them than the limit needs. */
  lemma {:induction false} RequestsAreLegal(channel: nat -> seq<nat>, k: nat, before: Option<nat>, limit: nat)
    ensures var asked := Asked(channel, k, before, limit);
            && |asked| <= (limit + PAGE - 1) / PAGE
            && forall i :: 0 <= i < |asked| ==> 1 <= asked[i].limit <= 100
    decreases limit
  {
    if limit > PAGE {
      var page := Page(channel(k), Request(before, PAGE));
      if |page| == PAGE { RequestsAreLegal(channel, k + 1, Some(page[PAGE - 1]), limit - PAGE); }
    }
  }

  lemma PageLength(h: seq<nat>, r: Request)
    ensures |Page(h, r)| <= r.limit
  {
  }

  // ---------- Any channel ----------

  ghost predicate Listed(channel: nat -> seq<nat>) {
    forall k: nat :: Descending(channel(k))
  }

  predicate Earlier(id: nat, before: Option<nat>) {
    before.Some? ==> id < before.value
  }

  lemma PageFacts(h: seq<nat>, r: Request)
    requires Descending(h)
    ensures var page := Page(h, r);
            && Descending(page) && |page| <= r.limit
            && (forall x :: x in page ==> x in h && Earlier(x, r.before))
            && (forall x :: x in h && Earlier(x, r.before) && x !in page ==> |page| == r.limit && forall y :: y in page ==> y > x)
  {
    if r.before.Some? { OlderMembers(h, r.before.value); }
    var all := if r.before.Some? then OlderThan(h, r.before.value) else h;
    var page := Page(h, r);
    forall x | x in all && x !in page ensures |page| == r.limit && forall y :: y in page ==> y > x {
      var j :| 0 <= j < |all| && all[j] == x;
      assert forall i :: 0 <= i < |page| ==> page[i] == all[i];
      assert |page| <= j;
      forall y | y in page ensures y > x {
        var i :| 0 <= i < |page| && page[i] == y;
        assert all[i] == y;
      }
    }
  }

  lemma DescendingConcat(a: seq<nat>, b: seq<nat>)
    requires Descending(a) && Descending(b) && a != []
    requires forall x :: x in b ==> x < a[|a| - 1]
    ensures Descending(a + b)
  {
    var c := a + b;
    forall i, j | 0 <= i < j < |c| ensures c[i] > c[j] {
      if i < |a| <= j {
        assert c[j] in b && a[i] >= a[|a| - 1];
      }
    }
  }

  /** Whatever arrives or is deleted meanwhile, messages come newest first, so none comes twice, and up to the limit. */
  lemma {:induction false} NoneTwice(channel: nat -> seq<nat>, k: nat, before: Option<nat>, limit: nat)
    requires Listed(channel)
    ensures var r := Retrieved(channel, k, before, limit);
            Descending(r) && |r| <= limit && forall x :: x in r ==> Earlier(x, before)
    decreases limit
  {
    hide Page, Descending;
    if limit == 0 {
      assert Descending([]) by { NothingDescends(); }
    } else {
      var page := Page(channel(k), Request(before, PageSize(limit)));
      PageFacts(channel(k), Request(before, PageSize(limit)));
      if limit > PAGE && |page| == PAGE {
        NoneTwice(channel, k + 1, Some(page[PAGE - 1]), limit - PAGE);
        DescendingConcat(page, Retrieved(channel, k + 1, Some(page[PAGE - 1]), limit - PAGE));
        assert page[PAGE - 1] in page;
      }
    }
  }

  lemma NothingDescends()
    ensures Descending([])
  {
  }

  /** A message is in the channel at every one of n requests from the k-th on. */
  ghost predicate Stays(channel: nat -> seq<nat>, k: nat, n: nat, id: nat) {
    forall j: nat :: k <= j < k + n ==> id in channel(j)
  }

  /** A message that is there all along is not skipped: it is yielded, unless the limit ends with a newer one. */
  lemma {:induction false} NoneSkipped(channel: nat -> seq<nat>, k: nat, before: Option<nat>, limit: nat, id: nat)
    requires Listed(channel) && Earlier(id, before)
    requires Stays(channel, k, |Asked(channel, k, before, limit)|, id)
    ensures var r := Retrieved(channel, k, before, limit);
            id in r || (|r| == limit && forall x :: x in r ==> x > id)
    decreases limit
  {
    hide Page, Descending;
    if limit > 0 {
      var page := Page(channel(k), Request(before, PageSize(limit)));
      PageFacts(channel(k), Request(before, PageSize(limit)));
      assert id in channel(k);
      if limit > PAGE && |page| == PAGE && id !in page {
        var last := page[PAGE - 1];
        assert last in page;
        assert Stays(channel, k + 1, |Asked(channel, k + 1, Some(last), limit - PAGE)|, id);
        NoneSkipped(channel, k + 1, Some(last), limit - PAGE, id);
      }
    }
  }

  // ---------- A channel that only grows ----------

  /** At request j the channel holds arrivals(j), newer than everything in hist, and then hist. */
  ghost predicate Grows(channel: nat -> seq<nat>, hist: seq<nat>, arrivals: nat -> seq<nat>) {
    forall j: nat :: channel(j) == arrivals(j) + hist && Descending(channel(j))
  }

  function Candidates(hist: seq<nat>, before: Option<nat>): seq<nat> {
    if before.Some? then OlderThan(hist, before.value) else hist
  }

  lemma SuffixDescends(new_: seq<nat>, hist: seq<nat>)
    requires Descending(new_ + hist)
    ensures Descending(hist)
  {
    var all := new_ + hist;
    assert forall i :: 0 <= i < |hist| ==> hist[i] == all[|new_| + i];
  }

  /** What is older than the last message of a full page is what the page left over. */
  lemma RestOfCandidates(hist: seq<nat>, before: Option<nat>)
    requires Descending(hist) && |Candidates(hist, before)| >= PAGE
    ensures var all := Candidates(hist, before);
            all[PAGE - 1] in hist && OlderThan(hist, all[PAGE - 1]) == all[PAGE..]
  {
    var all := Candidates(hist, before);
    assert all[PAGE - 1] in all;
    if before.Some? {
      OlderMembers(hist, before.value);
      OlderTwice(hist, before.value, all[PAGE - 1]);
    }
    OlderIsSuffix(all, PAGE - 1);
  }

  lemma NewestSplits(all: seq<nat>, limit: nat)
    requires limit > PAGE && |all| >= PAGE
    ensures Newest(all, PAGE) + Newest(all[PAGE..], limit - PAGE) == Newest(all, limit)
  {
  }

  lemma PageOfHistory(hist: seq<nat>, new_: seq<nat>, before: Option<nat>, limit: nat)
    requires Descending(new_ + hist)
    requires if before.Some? then before.value in hist || NotOlder(new_, before.value) else new_ == []
    ensures Page(new_ + hist, Request(before, limit)) == Newest(Candidates(hist, before), limit)
  {
    if before.Some? {
      PageIgnoresArrivals(hist, new_, before.value, limit);
    } else {
      assert new_ + hist == hist;
    }
  }

  /** Without deletions: exactly the newest messages as of the first page, whatever arrives between two pages. */
  lemma {:induction false} ExactlyTheNewest(channel: nat -> seq<nat>, k: nat, before: Option<nat>, limit: nat,
                                            hist: seq<nat>, arrivals: nat -> seq<nat>)
    requires Grows(channel, hist, arrivals)
    requires if before.Some? then before.value in hist || NotOlder(arrivals(k), before.value) else arrivals(k) == []
    ensures Retrieved(channel, k, before, limit) == Newest(Candidates(hist, before), limit)
    decreases limit
  {
    hide Page, Descending, NotOlder, Candidates, OlderThan;
    if limit > 0 {
      var all := Candidates(hist, before);
      assert channel(k) == arrivals(k) + hist;
      SuffixDescends(arrivals(k), hist);
      PageOfHistory(hist, arrivals(k), before, PageSize(limit));
      if limit > PAGE && |all| >= PAGE {
        var last := all[PAGE - 1];
        RestOfCandidates(hist, before);
        ExactlyTheNewest(channel, k + 1, Some(last), limit - PAGE, hist, arrivals);
        CandidatesBefore(hist, last);
        NewestSplits(all, limit);
      }
    }
  }

  lemma CandidatesBefore(hist: seq<nat>, id: nat)
    ensures Candidates(hist, Some(id)) == OlderThan(hist, id)
  {
  }

  // ---------- The generators ----------

  /** get_channel_messages: the k-th request. */
  method GetPage(channel: nat -> seq<nat>, k: nat, request: Request) returns (page: seq<nat>)
    ensures page == Page(channel(k), request)
  {
    page := Page(channel(k), request);
  }

  // What is yielded and asked for in all, when so much has been yielded and asked for before request k.
  function Total(yielded: seq<nat>, channel: nat -> seq<nat>, k: nat, before: Option<nat>, limit: nat): seq<nat> {
    yielded + Retrieved(channel, k, before, limit)
  }

  function TotalAsked(requests: seq<Request>, channel: nat -> seq<nat>, k: nat, before: Option<nat>, limit: nat): seq<Request> {
    requests + Asked(channel, k, before, limit)
  }

  lemma NothingYet(channel: nat -> seq<nat>, k: nat, before: Option<nat>, limit: nat)
    ensures Total([], channel, k, before, limit) == Retrieved(channel, k, before, limit)
    ensures TotalAsked([], channel, k, before, limit) == Asked(channel, k, before, limit)
    ensures limit == 0 ==> Retrieved(channel, k, before, limit) == [] && Asked(channel, k, before, limit) == []
  {
  }

  /** A full page, and more to ask for. */
  lemma NextRequest(yielded: seq<nat>, requests: seq<Request>, channel: nat -> seq<nat>, k: nat, before: Option<nat>, limit: nat)
    requires limit > PAGE && |Page(channel(k), Request(before, PAGE))| == PAGE
    ensures var r := Request(before, PAGE);
            var page := Page(channel(k), r);
            && Total(yielded, channel, k, before, limit) == Total(yielded + page, channel, k + 1, Some(page[PAGE - 1]), limit - PAGE)
            && TotalAsked(requests, channel, k, before, limit)
               == TotalAsked(requests + [r], channel, k + 1, Some(page[PAGE - 1]), limit - PAGE)
  {
    hide Page;
    var r := Request(before, PAGE);
    var page := Page(channel(k), r);
    Regroup(yielded, page, Retrieved(channel, k + 1, Some(page[PAGE - 1]), limit - PAGE));
    Regroup(requests, [r], Asked(channel, k + 1, Some(page[PAGE - 1]), limit - PAGE));
  }

  /** A page that is not full, or the last one that the limit needs. */
  lemma LastRequest(yielded: seq<nat>, requests: seq<Request>, channel: nat -> seq<nat>, k: nat, before: Option<nat>, limit: nat)
    requires limit > 0
    requires limit <= PAGE || |Page(channel(k), Request(before, PAGE))| < PAGE
    ensures var r := Request(before, PageSize(limit));
            && Total(yielded, channel, k, before, limit) == yielded + Page(channel(k), r)
            && TotalAsked(requests, channel, k, before, limit) == requests + [r]
  {
    hide Page;
  }

  lemma Regroup<T>(a: seq<T>, b: seq<T>, c: seq<T>)
    ensures a + (b + c) == a + b + c
  {
  }

  /** The loop that yields a page, counts it and remembers its last message. */
  method YieldPage(yielded0: seq<nat>, page: seq<nat>, before0: nat) returns (yielded: seq<nat>, before: nat, count: nat)
    ensures yielded == yielded0 + page && count == |page|
    ensures before == if page == [] then before0 else page[|page| - 1]
  {
    yielded, before, count := yielded0, before0, 0;
    for i := 0 to |page|
      invariant count == i && yielded == yielded0 + page[..i]
      invariant before == if i == 0 then before0 else page[i - 1]
    {
      before := page[i];
      count := count + 1;
      yielded := yielded + [page[i]];
    }
    assert page[..|page|] == page;
  }

  /** GetChannelMessagesBefore, run to its end; first is the number of its first request. */
  method GetChannelMessagesBefore(channel: nat -> seq<nat>, first: nat, beforeId: nat, limit0: nat)
    returns (yielded: seq<nat>, requests: seq<Request>)
    ensures yielded == Retrieved(channel, first, Some(beforeId), limit0)
    ensures requests == Asked(channel, first, Some(beforeId), limit0)
  {
    hide Page, Total, TotalAsked, Retrieved, Asked;
    yielded, requests := [], [];
    var limit, before := limit0, beforeId;
    NothingYet(channel, first, Some(beforeId), limit0);
    if limit == 0 {
      return;
    } else if limit > PAGE {
      var more := true;
      while more
        invariant 1 <= limit && (more <==> limit > PAGE)
        invariant Total(yielded, channel, first + |requests|, Some(before), limit) == Retrieved(channel, first, Some(beforeId), limit0)
        invariant TotalAsked(requests, channel, first + |requests|, Some(before), limit) == Asked(channel, first, Some(beforeId), limit0)
        decreases limit
      {
        var request, k := Request(Some(before), PAGE), first + |requests|;
        var page := GetPage(channel, k, request);
        PageLength(channel(k), request);
        if |page| < PAGE {
          LastRequest(yielded, requests, channel, k, Some(before), limit);
        } else {
          NextRequest(yielded, requests, channel, k, Some(before), limit);
        }
        limit := limit - PAGE;
        requests := requests + [request];
        var count;
        yielded, before, count := YieldPage(yielded, page, before);
        if count < PAGE { return; }
        more := limit > PAGE;
      }
    }
    LastRequest(yielded, requests, channel, first + |requests|, Some(before), limit);
    var page := GetPage(channel, first + |requests|, Request(Some(before), limit));
    requests := requests + [Request(Some(before), limit)];
    yielded := yielded + page;
  }

  /** GetChannelMessages, run to its end. */
  method GetChannelMessages(channel: nat -> seq<nat>, limit: nat) returns (yielded: seq<nat>, requests: seq<Request>)
    ensures yielded == Retrieved(channel, 0, None, limit)
    ensures requests == Asked(channel, 0, None, limit)
  {
    hide Page, Retrieved, Asked;
    NothingYet(channel, 0, None, limit);
    yielded, requests := [], [];
    if limit == 0 {
      return;
    } else if limit > PAGE {
      var page := GetPage(channel, 0, Request(None, PAGE));
      PageLength(channel(0), Request(None, PAGE));
      requests := [Request(None, PAGE)];
      var lastId, count;
      yielded, lastId, count := YieldPage([], page, 0);
      if count < PAGE {
        LastRequest([], [], channel, 0, None, limit);
        return;
      }
      NextRequest([], [], channel, 0, None, limit);
      assert [] + page == page && [] + requests == requests;
      var rest, more := GetChannelMessagesBefore(channel, 1, lastId, limit - PAGE);
      yielded, requests := yielded + rest, requests + more;
    } else {
      LastRequest([], [], channel, 0, None, limit);
      yielded := GetPage(channel, 0, Request(None, limit));
      requests := [Request(None, limit)];
    }
  }

  lemma FirstRequest(channel: nat -> seq<nat>, k: nat, before: Option<nat>, limit: nat)
    requires limit > 0
    ensures Asked(channel, k, before, limit) != [] && Asked(channel, k, before, limit)[0].before == before
  {
    hide Page;
  }

  /** Every request after the first asks for what is before the last message of a full page of 100. */
  lemma {:induction false} RequestsFollow(channel: nat -> seq<nat>, k: nat, before: Option<nat>, limit: nat, i: nat)
    requires 0 < i < |Asked(channel, k, before, limit)|
    ensures var r := Retrieved(channel, k, before, limit);
            100 * i <= |r| && Asked(channel, k, before, limit)[i].before == Some(r[100 * i - 1])
    decreases limit
  {
    hide Page;
    var page := Page(channel(k), Request(before, PageSize(limit)));
    var last, rest := Some(page[PAGE - 1]), limit - PAGE;
    PageLength(channel(k), Request(before, PageSize(limit)));
    if i == 1 {
      FirstRequest(channel, k + 1, last, rest);
    } else {
      RequestsFollow(channel, k + 1, last, rest, i - 1);
    }
  }
}
