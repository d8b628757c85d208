/** The two starboard rankings: a window function for one author, an ordered and limited query for the top ten. */
module StarboardRank {
  import opened Wrappers

  datatype Row = Row(msg: nat, author: nat, num: nat)

  // One group of the GROUP BY: COUNT(msg_id), SUM(num) and MAX(num) of an author.
  datatype Group = Group(author: nat, count: nat, total: nat, most: nat)

  datatype Entry = Entry(group: Group, rank: nat)

  /** ORDER BY SUM(num) DESC, MAX(num) DESC, COUNT(msg_id), author_id */
  predicate Before(a: Group, b: Group) {
    a.total > b.total || (a.total == b.total && (
      a.most > b.most || (a.most == b.most && (
        a.count < b.count || (a.count == b.count && a.author < b.author)))))
  }

  /** The rows of one author that pass WHERE num >= threshold, aggregated. */
  function Aggregate(rows: seq<Row>, threshold: nat, author: nat): Group {
    if rows == [] then Group(author, 0, 0, 0)
    else
      var rest := Aggregate(rows[1..], threshold, author);
      var r := rows[0];
      if r.author == author && r.num >= threshold then
        Group(author, rest.count + 1, rest.total + r.num, if r.num > rest.most then r.num else rest.most)
      else rest
  }

  /** The authors with a group, each once. */
  function Authors(rows: seq<Row>, threshold: nat): (r: seq<nat>)
    ensures forall a :: a in r <==> exists i :: 0 <= i < |rows| && rows[i].author == a && rows[i].num >= threshold
    ensures Distinct(r)
  {
    if rows == [] then []
    else
      var rest := Authors(rows[1..], threshold);
      assert forall i :: 0 < i < |rows| ==> rows[i] == rows[1..][i - 1];
      if rows[0].num >= threshold && rows[0].author !in rest then [rows[0].author] + rest else rest
  }

  predicate Distinct(s: seq<nat>) {
    forall i, j :: 0 <= i < j < |s| ==> s[i] != s[j]
  }

  function Groups(rows: seq<Row>, threshold: nat): (r: seq<Group>)
    ensures |r| == |Authors(rows, threshold)|
    ensures forall i :: 0 <= i < |r| ==> r[i] == Aggregate(rows, threshold, Authors(rows, threshold)[i])
  {
    var authors := Authors(rows, threshold);
    seq(|authors|, i requires 0 <= i < |authors| => Aggregate(rows, threshold, authors[i]))
  }

  lemma {:induction false} AggregateAuthor(rows: seq<Row>, threshold: nat, author: nat)
    ensures Aggregate(rows, threshold, author).author == author
  {
    if rows != [] { AggregateAuthor(rows[1..], threshold, author); }
  }

  ghost predicate DistinctAuthors(gs: seq<Group>) {
    forall i, j :: 0 <= i < j < |gs| ==> gs[i].author != gs[j].author
  }

  lemma GroupsDistinct(rows: seq<Row>, threshold: nat)
    ensures DistinctAuthors(Groups(rows, threshold))
  {
    var authors := Authors(rows, threshold);
    forall i | 0 <= i < |authors| ensures Groups(rows, threshold)[i].author == authors[i] {
      AggregateAuthor(rows, threshold, authors[i]);
    }
  }

  // ---------- The window function ----------

  function CountBefore(gs: seq<Group>, g: Group): nat {
    if gs == [] then 0 else (if Before(gs[0], g) then 1 else 0) + CountBefore(gs[1..], g)
  }

  /** ROW_NUMBER() of an author's group: one more than the number of groups ordered before it. */
  function GetRank(rows: seq<Row>, threshold: nat, author: nat): Option<Entry> {
    if author in Authors(rows, threshold) then
      var g := Aggregate(rows, threshold, author);
      Some(Entry(g, 1 + CountBefore(Groups(rows, threshold), g)))
    else None
  }

  // ---------- The ordered and limited query ----------

  ghost predicate Ordered(gs: seq<Group>) {
    forall i, j :: 0 <= i < j < |gs| ==> Before(gs[i], gs[j])
  }

  function Insert(gs: seq<Group>, g: Group): seq<Group> {
    if gs != [] && Before(gs[0], g) then [gs[0]] + Insert(gs[1..], g) else [g] + gs
  }

  function OrderBy(gs: seq<Group>): seq<Group> {
    if gs == [] then [] else Insert(OrderBy(gs[1..]), gs[0])
  }

  lemma BeforeTransitive(a: Group, b: Group, c: Group)
    requires Before(a, b) && Before(b, c)
    ensures Before(a, c)
  {
  }

  lemma BeforeTotal(a: Group, b: Group)
    requires a.author != b.author
    ensures Before(a, b) || Before(b, a)
  {
  }

  lemma {:induction false} InsertFacts(gs: seq<Group>, g: Group)
    requires Ordered(gs)
    requires forall x :: x in gs ==> x.author != g.author
    ensures Ordered(Insert(gs, g))
    ensures forall x :: x in Insert(gs, g) <==> x in gs || x == g
    ensures |Insert(gs, g)| == |gs| + 1
  {
    hide Before;
    if gs != [] {
      assert gs == [gs[0]] + gs[1..];
      assert forall x :: x in gs[1..] ==> x in gs && Before(gs[0], x);
      if Before(gs[0], g) {
        InsertFacts(gs[1..], g);
      } else {
        BeforeTotal(g, gs[0]);
        forall x | x in gs[1..] ensures Before(g, x) { BeforeTransitive(g, gs[0], x); }
      }
    }
  }

  lemma {:induction false} InsertCount(gs: seq<Group>, g: Group, x: Group)
    ensures CountBefore(Insert(gs, g), x) == CountBefore(gs, x) + if Before(g, x) then 1 else 0
  {
    if gs != [] && Before(gs[0], g) { InsertCount(gs[1..], g, x); }
  }

  lemma {:induction false} OrderByFacts(gs: seq<Group>)
    requires DistinctAuthors(gs)
    ensures Ordered(OrderBy(gs))
    ensures forall x :: x in OrderBy(gs) <==> x in gs
    ensures |OrderBy(gs)| == |gs|
  {
    if gs != [] {
      OrderByFacts(gs[1..]);
      assert gs == [gs[0]] + gs[1..];
      assert forall x :: x in gs[1..] ==> x.author != gs[0].author;
      InsertFacts(OrderBy(gs[1..]), gs[0]);
    }
  }

  lemma {:induction false} OrderByCount(gs: seq<Group>, x: Group)
    ensures CountBefore(OrderBy(gs), x) == CountBefore(gs, x)
  {
    if gs != [] {
      OrderByCount(gs[1..], x);
      InsertCount(OrderBy(gs[1..]), gs[0], x);
    }
  }

  /** In an ordered list, the number of groups before the one at i is i. */
  lemma {:induction false} CountIsIndex(gs: seq<Group>, i: nat)
    requires Ordered(gs) && i < |gs|
    ensures CountBefore(gs, gs[i]) == i
  {
    if i == 0 {
      NoneBefore(gs[1..], gs[0]);
    } else {
      CountIsIndex(gs[1..], i - 1);
    }
  }

  lemma {:induction false} NoneBefore(gs: seq<Group>, g: Group)
    requires forall j :: 0 <= j < |gs| ==> Before(g, gs[j])
    ensures CountBefore(gs, g) == 0
  {
    if gs != [] { NoneBefore(gs[1..], g); }
  }

  /** GetTop10: steps through the ordered rows, numbering them, until LIMIT 10. */
  method GetTop10(rows: seq<Row>, threshold: nat) returns (result: seq<Entry>)
    ensures |result| == if |Groups(rows, threshold)| < 10 then |Groups(rows, threshold)| else 10
    ensures forall i :: 0 <= i < |result| ==> GetRank(rows, threshold, result[i].group.author) == Some(result[i])
    ensures forall i :: 0 <= i < |result| ==> result[i].rank == i + 1
    ensures forall author :: (exists i :: 0 <= i < |result| && result[i].group.author == author) <==>
                             InTopTen(GetRank(rows, threshold, author))
  {
    var ordered := OrderBy(Groups(rows, threshold));
    GroupsDistinct(rows, threshold);
    OrderByFacts(Groups(rows, threshold));
    result := [];
    var rank := 1;
    while rank <= |ordered| && rank <= 10
      invariant 1 <= rank <= |ordered| + 1 && rank <= 11
      invariant |result| == rank - 1
      invariant forall i :: 0 <= i < |result| ==> result[i] == Entry(ordered[i], i + 1)
    {
      result := result + [Entry(ordered[rank - 1], rank)];
      rank := rank + 1;
    }
    forall i | 0 <= i < |ordered| ensures GetRank(rows, threshold, ordered[i].author) == Some(Entry(ordered[i], i + 1)) {
      RankOfOrdered(rows, threshold, i);
    }
    forall author ensures (exists i :: 0 <= i < |result| && result[i].group.author == author) <==>
                          InTopTen(GetRank(rows, threshold, author)) {
      if InTopTen(GetRank(rows, threshold, author)) {
        var i := IndexOfAuthor(rows, threshold, author);
        assert result[i].group.author == author;
      } else {
        assert forall i :: 0 <= i < |result| ==> InTopTen(GetRank(rows, threshold, result[i].group.author));
      }
    }
  }

  predicate InTopTen(e: Option<Entry>) {
    e.Some? && e.value.rank <= 10
  }

  /** The group at position i of the ordered query is the one that the window function numbers i + 1. */
  lemma RankOfOrdered(rows: seq<Row>, threshold: nat, i: nat)
    requires i < |OrderBy(Groups(rows, threshold))|
    ensures var g := OrderBy(Groups(rows, threshold))[i];
            GetRank(rows, threshold, g.author) == Some(Entry(g, i + 1))
  {
    var gs := Groups(rows, threshold);
    GroupsDistinct(rows, threshold);
    OrderByFacts(gs);
    var g := OrderBy(gs)[i];
    assert g in OrderBy(gs);
    var k :| 0 <= k < |gs| && gs[k] == g;
    AggregateAuthor(rows, threshold, Authors(rows, threshold)[k]);
    CountIsIndex(OrderBy(gs), i);
    OrderByCount(gs, g);
  }

  /** Every ranked author stands in the ordered query, at the position of their rank. */
  lemma IndexOfAuthor(rows: seq<Row>, threshold: nat, author: nat) returns (i: nat)
    requires GetRank(rows, threshold, author).Some?
    ensures i < |OrderBy(Groups(rows, threshold))|
    ensures OrderBy(Groups(rows, threshold))[i].author == author
    ensures GetRank(rows, threshold, author).value.rank == i + 1
  {
    var gs := Groups(rows, threshold);
    GroupsDistinct(rows, threshold);
    OrderByFacts(gs);
    var k :| 0 <= k < |gs| && Authors(rows, threshold)[k] == author;
    AggregateAuthor(rows, threshold, author);
    assert gs[k] in gs;
    i :| 0 <= i < |OrderBy(gs)| && OrderBy(gs)[i] == gs[k];
    RankOfOrdered(rows, threshold, i);
  }

  // ---------- What the aggregates mean ----------

  /** The counts of an author's rows that pass the threshold, in the order of the rows. */
  function Nums(rows: seq<Row>, threshold: nat, author: nat): seq<nat> {
    if rows == [] then []
    else (if rows[0].author == author && threshold <= rows[0].num then [rows[0].num] else []) + Nums(rows[1..], threshold, author)
  }

  function Sum(nums: seq<nat>): nat {
    if nums == [] then 0 else nums[0] + Sum(nums[1..])
  }

  /** COUNT, SUM and MAX of the author's rows that pass. */
  lemma {:induction false} AggregateIs(rows: seq<Row>, threshold: nat, author: nat)
    ensures var g, nums := Aggregate(rows, threshold, author), Nums(rows, threshold, author);
            && g.count == |nums| && g.total == Sum(nums)
            && (nums != [] ==> g.most in nums) && forall n :: n in nums ==> n <= g.most
  {
    if rows != [] {
      AggregateIs(rows[1..], threshold, author);
      var rest, r := Nums(rows[1..], threshold, author), rows[0];
      if r.author == author && threshold <= r.num {
        assert Nums(rows, threshold, author) == [r.num] + rest;
        assert ([r.num] + rest)[1..] == rest;
        if rest == [] { NothingMost(rows[1..], threshold, author); }
      } else {
        assert Nums(rows, threshold, author) == rest;
      }
    }
  }

  lemma {:induction false} NothingMost(rows: seq<Row>, threshold: nat, author: nat)
    requires Nums(rows, threshold, author) == []
    ensures Aggregate(rows, threshold, author).most == 0
  {
    if rows != [] { NothingMost(rows[1..], threshold, author); }
  }

  /** Which of two groups comes first: greater sum, then greater maximum, then fewer messages, then smaller author id. */
  lemma FirstOf(a: Group, b: Group)
    ensures a.total > b.total ==> Before(a, b) && !Before(b, a)
    ensures a.total == b.total && a.most > b.most ==> Before(a, b) && !Before(b, a)
    ensures a.total == b.total && a.most == b.most && a.count < b.count ==> Before(a, b) && !Before(b, a)
    ensures a.total == b.total && a.most == b.most && a.count == b.count && a.author < b.author ==> Before(a, b) && !Before(b, a)
    ensures a == b ==> !Before(a, b)
  {
  }
}
