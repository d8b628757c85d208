/** The starboard: counted reactions in a table, and the posts that a channel shows for popular messages. */
module Starboard {
  import opened Wrappers

  const REACTION_THRESHOLD: int := 5

  // One row of the table, keyed by msg_id; post is sb_msg_id.
  datatype Row = Row(author: nat, post: Option<nat>, num: int)

  type Table = map<nat, Row>

  // posts: the messages now in the starboard channel, in the order they were sent.
  datatype State = State(rows: Table, posts: seq<nat>)

  datatype Event =
    | Add(user: nat, msg: nat, author: nat, freshPost: nat)
    | Remove(user: nat, msg: nat, freshPost: nat)
    | Delete(msgs: seq<nat>)

  function Without(posts: seq<nat>, gone: set<nat>): seq<nat> {
    if posts == [] then []
    else if posts[0] in gone then Without(posts[1..], gone)
    else [posts[0]] + Without(posts[1..], gone)
  }

  /** The rows that the messages delete, by their posts. */
  function PostsOf(rows: Table, msgs: seq<nat>): set<nat> {
    set m | m in msgs && m in rows && rows[m].post.Some? :: rows[m].post.value
  }

  // ---------- What one completed handler does ----------

  function Registered(rows: Table, msg: nat, author: nat): Table {
    if msg in rows then rows[msg := rows[msg].(num := rows[msg].num + 1)] else rows[msg := Row(author, None, 1)]
  }

  /** process_reaction on the stored row: below the threshold the post goes, at it and above a missing post is sent. */
  function Processed(s: State, msg: nat, freshPost: nat): State
    requires msg in s.rows
  {
    var row := s.rows[msg];
    if row.num < REACTION_THRESHOLD then
      if row.post.Some? then State(s.rows[msg := row.(post := None)], Without(s.posts, {row.post.value})) else s
    else if row.post.Some? then s
    else State(s.rows[msg := row.(post := Some(freshPost))], s.posts + [freshPost])
  }

  predicate CountsFor(user: nat, author: nat, bot: nat) {
    author != user && author != bot
  }

  function Step(s: State, e: Event, bot: nat): State {
    match e
    case Add(user, msg, author, freshPost) =>
      if CountsFor(user, author, bot) then
        Processed(s.(rows := Registered(s.rows, msg, author)), msg, freshPost)
      else s
    case Remove(user, msg, freshPost) =>
      // CHECK(num > 0) rejects the last removal, and the handler ends there.
      if Counted(s, e, bot) && s.rows[msg].num > 1 then
        Processed(s.(rows := s.rows[msg := s.rows[msg].(num := s.rows[msg].num - 1)]), msg, freshPost)
      else s
    case Delete(msgs) =>
      State(map m | m in s.rows && m !in msgs :: s.rows[m], Without(s.posts, PostsOf(s.rows, msgs)))
  }

  /** The reaction event reaches the table (whether or not the table accepts it). */
  predicate Counted(s: State, e: Event, bot: nat) {
    match e
    case Add(user, msg, author, _) => CountsFor(user, author, bot)
    case Remove(user, msg, _) =>
      msg in s.rows && s.rows[msg].author != user && s.rows[msg].author != bot
    case Delete(_) => false
  }

  // ---------- The imperative handlers ----------

  class Board {
    const bot: nat
    var rows: Table
    var posts: seq<nat>

    ghost function Now(): State
      reads this
    {
      State(rows, posts)
    }

    constructor (bot: nat)
      ensures this.bot == bot && Now() == State(map[], [])
    {
      this.bot := bot;
      rows, posts := map[], [];
    }

    method RegisterReaction(msg: nat, author: nat) returns (post: Option<nat>, num: int)
      modifies this
      ensures rows == Registered(old(rows), msg, author) && posts == old(posts)
      ensures post == rows[msg].post && num == rows[msg].num
    {
      if msg in rows {
        rows := rows[msg := rows[msg].(num := rows[msg].num + 1)];
      } else {
        rows := rows[msg := Row(author, None, 1)];
      }
      post, num := rows[msg].post, rows[msg].num;
    }

    // Fails, leaving the table alone, when the check constraint does not hold of the new count.
    method RemoveReaction(msg: nat) returns (ok: bool, post: Option<nat>, num: int)
      modifies this
      ensures posts == old(posts)
      ensures msg !in old(rows) ==> ok && rows == old(rows) && post == None && num == 0
      ensures msg in old(rows) ==> (ok <==> old(rows)[msg].num > 1)
      ensures !ok ==> rows == old(rows)
      ensures ok && msg in old(rows) ==>
                rows == old(rows)[msg := old(rows)[msg].(num := old(rows)[msg].num - 1)]
                && post == rows[msg].post && num == rows[msg].num
    {
      if msg !in rows { return true, None, 0; }
      if rows[msg].num - 1 <= 0 { return false, None, 0; }
      rows := rows[msg := rows[msg].(num := rows[msg].num - 1)];
      return true, rows[msg].post, rows[msg].num;
    }

    method ProcessReaction(msg: nat, post: Option<nat>, num: int, freshPost: nat)
      requires msg in rows && rows[msg].post == post && rows[msg].num == num
      modifies this
      ensures Now() == Processed(old(Now()), msg, freshPost)
    {
      if num < REACTION_THRESHOLD {
        if post.Some? {
          rows := rows[msg := rows[msg].(post := None)];
          DeleteMessage(post.value);
        }
        return;
      }
      if post.Some? {
        return;  // the post is edited
      }
      posts := posts + [freshPost];
      rows := rows[msg := rows[msg].(post := Some(freshPost))];
    }

    method DeleteMessage(post: nat)
      modifies this`posts
      ensures posts == Without(old(posts), {post})
    {
      posts := Without(posts, {post});
    }

    method OnReactionAdd(user: nat, msg: nat, author: nat, freshPost: nat)
      modifies this
      ensures Now() == Step(old(Now()), Add(user, msg, author, freshPost), bot)
    {
      if author == user || author == bot { return; }
      var post, num := RegisterReaction(msg, author);
      ProcessReaction(msg, post, num, freshPost);
    }

    method OnReactionRemove(user: nat, msg: nat, freshPost: nat)
      modifies this
      ensures Now() == Step(old(Now()), Remove(user, msg, freshPost), bot)
    {
      if msg in rows && rows[msg].author != user && rows[msg].author != bot {
        var ok, post, num := RemoveReaction(msg);
        if ok { ProcessReaction(msg, post, num, freshPost); }
      }
    }

    // DELETE ... WHERE msg_id IN (...) RETURNING sb_msg_id
    method DeleteAll(msgs: seq<nat>) returns (result: seq<nat>)
      modifies this`rows
      ensures rows == map m | m in old(rows) && m !in msgs :: old(rows)[m]
      ensures forall p :: p in result <==> p in PostsOf(old(rows), msgs)
    {
      result := [];
      for i := 0 to |msgs|
        invariant rows == map m | m in old(rows) && m !in msgs[..i] :: old(rows)[m]
        invariant forall p :: p in result <==> p in PostsOf(old(rows), msgs[..i])
      {
        assert msgs[..i + 1] == msgs[..i] + [msgs[i]];
        assert forall m :: m in msgs[..i + 1] <==> m in msgs[..i] || m == msgs[i];
        if msgs[i] in rows {
          if rows[msgs[i]].post.Some? { result := result + [rows[msgs[i]].post.value]; }
          rows := map m | m in rows && m != msgs[i] :: rows[m];
        }
      }
      assert msgs[..|msgs|] == msgs;
    }

    method OnMessagesDeleted(msgs: seq<nat>)
      modifies this
      ensures Now() == Step(old(Now()), Delete(msgs), bot)
    {
      ghost var before := posts;
      var gone := DeleteAll(msgs);
      WithoutNone(posts);
      assert Elements(gone[..0]) == {};
      ghost var table := rows;
      for i := 0 to |gone|
        invariant rows == table
        invariant posts == Without(before, Elements(gone[..i]))
      {
        assert gone[..i + 1] == gone[..i] + [gone[i]];
        assert Elements(gone[..i + 1]) == Elements(gone[..i]) + {gone[i]};
        WithoutTwice(before, Elements(gone[..i]), gone[i]);
        DeleteMessage(gone[i]);
      }
      assert gone[..|gone|] == gone;
      assert Elements(gone) == PostsOf(old(rows), msgs);
    }
  }

  function Elements(s: seq<nat>): set<nat> {
    set p | p in s
  }

  lemma {:induction false} WithoutNone(posts: seq<nat>)
    ensures Without(posts, {}) == posts
  {
    if posts != [] { WithoutNone(posts[1..]); }
  }

  lemma {:induction false} WithoutTwice(posts: seq<nat>, gone: set<nat>, p: nat)
    ensures Without(Without(posts, gone), {p}) == Without(posts, gone + {p})
  {
    if posts != [] { WithoutTwice(posts[1..], gone, p); }
  }

  // ---------- What every run keeps ----------

  ghost predicate Distinct(posts: seq<nat>) {
    forall i, j :: 0 <= i < j < |posts| ==> posts[i] != posts[j]
  }

  /** p is the post that the table records for msg. */
  ghost predicate Records(rows: Table, msg: nat, p: nat) {
    msg in rows && rows[msg].post == Some(p)
  }

  ghost predicate Consistent(s: State) {
    // a row has a post iff its count reaches the threshold, and every count is positive
    && (forall m :: m in s.rows ==> s.rows[m].num >= 1 && (s.rows[m].post.Some? <==> s.rows[m].num >= REACTION_THRESHOLD))
    // the channel shows exactly the recorded posts, each once and for one message
    && Distinct(s.posts)
    && (forall p :: p in s.posts <==> exists m :: Records(s.rows, m, p))
    && (forall m, n, p :: Records(s.rows, m, p) && Records(s.rows, n, p) ==> m == n)
  }

  lemma {:induction false} WithoutFacts(posts: seq<nat>, gone: set<nat>)
    ensures forall p :: p in Without(posts, gone) <==> p in posts && p !in gone
    ensures Distinct(posts) ==> Distinct(Without(posts, gone))
  {
    if posts != [] {
      WithoutFacts(posts[1..], gone);
      assert posts == [posts[0]] + posts[1..];
    }
  }

  /** One row's count moved by one: process_reaction restores consistency. */
  lemma ProcessedConsistent(s: State, msg: nat, num: int, author: nat, freshPost: nat)
    requires Consistent(s)
    requires freshPost !in s.posts
    requires num >= 1
    ensures var post := if msg in s.rows then s.rows[msg].post else None;
            Consistent(Processed(s.(rows := s.rows[msg := Row(author, post, num)]), msg, freshPost))
  {
    var post := if msg in s.rows then s.rows[msg].post else None;
    var s1 := s.(rows := s.rows[msg := Row(author, post, num)]);
    var s2 := Processed(s1, msg, freshPost);
    forall m, p | m != msg ensures Records(s2.rows, m, p) <==> Records(s.rows, m, p) { }
    forall p ensures Records(s1.rows, msg, p) <==> Records(s.rows, msg, p) { }
    if num < REACTION_THRESHOLD {
      if post.Some? {
        WithoutFacts(s.posts, {post.value});
        assert Records(s.rows, msg, post.value);
        forall p ensures p in s2.posts <==> exists m :: Records(s2.rows, m, p) {
          if p in s2.posts {
            var m :| Records(s.rows, m, p);
            assert Records(s2.rows, m, p);
          }
        }
      } else {
        forall p ensures p in s2.posts <==> exists m :: Records(s2.rows, m, p) {
          if p in s2.posts {
            var m :| Records(s.rows, m, p);
            assert Records(s2.rows, m, p);
          }
        }
      }
    } else {
      forall p ensures p in s2.posts <==> exists m :: Records(s2.rows, m, p) {
        if p in s.posts {
          var m :| Records(s.rows, m, p);
          assert Records(s2.rows, m, p);
        } else if p in s2.posts {
          assert p == freshPost && Records(s2.rows, msg, p);
        }
      }
    }
  }

  lemma DeleteConsistent(s: State, msgs: seq<nat>, bot: nat)
    requires Consistent(s)
    ensures Consistent(Step(s, Delete(msgs), bot))
  {
    var s' := Step(s, Delete(msgs), bot);
    WithoutFacts(s.posts, PostsOf(s.rows, msgs));
    forall m, p ensures Records(s'.rows, m, p) <==> Records(s.rows, m, p) && m !in msgs { }
    forall p ensures p in s'.posts <==> exists m :: Records(s'.rows, m, p) {
      if p in s'.posts {
        var m :| Records(s.rows, m, p);
        assert m in msgs ==> p in PostsOf(s.rows, msgs);
        assert Records(s'.rows, m, p);
      } else if m :| Records(s'.rows, m, p) {
        assert Records(s.rows, m, p);
        assert p in PostsOf(s.rows, msgs);
        var n :| n in msgs && Records(s.rows, n, p);
      }
    }
  }

  lemma StepConsistent(s: State, e: Event, bot: nat)
    requires Consistent(s)
    requires e.Add? || e.Remove? ==> e.freshPost !in s.posts
    ensures Consistent(Step(s, e, bot))
  {
    match e {
      case Add(user, msg, author, freshPost) =>
        if CountsFor(user, author, bot) {
          if msg in s.rows {
            ProcessedConsistent(s, msg, s.rows[msg].num + 1, s.rows[msg].author, freshPost);
          } else {
            ProcessedConsistent(s, msg, 1, author, freshPost);
          }
        }
      case Remove(user, msg, freshPost) =>
        if Counted(s, e, bot) && s.rows[msg].num > 1 {
          ProcessedConsistent(s, msg, s.rows[msg].num - 1, s.rows[msg].author, freshPost);
        }
      case Delete(msgs) => DeleteConsistent(s, msgs, bot);
    }
  }

  // ---------- Runs ----------

  const EMPTY: State := State(map[], [])

  function After(events: seq<Event>, bot: nat): State {
    if events == [] then EMPTY else Step(After(events[..|events| - 1], bot), events[|events| - 1], bot)
  }

  /** Discord never reuses an id: a post created by an event is not one that is in the channel. */
  ghost predicate FreshPosts(events: seq<Event>, bot: nat) {
    forall k: nat :: k < |events| && (events[k].Add? || events[k].Remove?) ==> events[k].freshPost !in After(events[..k], bot).posts
  }

  lemma FreshPrefix(events: seq<Event>, bot: nat)
    requires FreshPosts(events, bot) && events != []
    ensures FreshPosts(events[..|events| - 1], bot)
  {
    var before := events[..|events| - 1];
    assert forall k: nat :: k <= |before| ==> before[..k] == events[..k];
  }

  /** After every run of completed handlers the table and the channel agree. */
  lemma {:induction false} StarboardConsistent(events: seq<Event>, bot: nat)
    requires FreshPosts(events, bot)
    ensures Consistent(After(events, bot))
    decreases |events|
  {
    if events != [] {
      var n := |events| - 1;
      FreshPrefix(events, bot);
      StarboardConsistent(events[..n], bot);
      StepConsistent(After(events[..n], bot), events[n], bot);
    }
  }

  // ---------- How far the stored counts can be off ----------

  predicate Deletes(e: Event, msg: nat) {
    e.Delete? && msg in e.msgs
  }

  predicate Concerns(s: State, e: Event, bot: nat, msg: nat) {
    Counted(s, e, bot) && e.msg == msg
  }

  /** The reactions to a message that were added less those removed, as far as they count, since it was last deleted. */
  function Live(events: seq<Event>, bot: nat, msg: nat): int {
    if events == [] then 0
    else
      var before, e := events[..|events| - 1], events[|events| - 1];
      if Deletes(e, msg) then 0
      else if Concerns(After(before, bot), e, bot, msg) then Live(before, bot, msg) + (if e.Add? then 1 else -1)
      else Live(before, bot, msg)
  }

  /** The k-th event removes the only reaction that is stored, and the message is not deleted later. */
  ghost predicate RemovesLast(events: seq<Event>, bot: nat, msg: nat, k: nat) {
    && k < |events| && events[k].Remove?
    && Concerns(After(events[..k], bot), events[k], bot, msg)
    && After(events[..k], bot).rows[msg].num == 1
    && forall j :: k < j < |events| ==> !Deletes(events[j], msg)
  }

  // How many events do.
  ghost function Refusals(events: seq<Event>, bot: nat, msg: nat): nat {
    if events == [] then 0
    else
      var before, e := events[..|events| - 1], events[|events| - 1];
      var s := After(before, bot);
      if Deletes(e, msg) then 0
      else if e.Remove? && Concerns(s, e, bot, msg) && s.rows[msg].num == 1 then Refusals(before, bot, msg) + 1
      else Refusals(before, bot, msg)
  }

  function StoredCount(s: State, msg: nat): int {
    if msg in s.rows then s.rows[msg].num else 0
  }

  lemma {:induction false} CountSplits(events: seq<Event>, bot: nat, msg: nat)
    requires FreshPosts(events, bot)
    ensures StoredCount(After(events, bot), msg) == Live(events, bot, msg) + Refusals(events, bot, msg)
    decreases |events|
  {
    if events != [] {
      var n := |events| - 1;
      FreshPrefix(events, bot);
      CountSplits(events[..n], bot, msg);
      StarboardConsistent(events[..n], bot);
      StepCounts(After(events[..n], bot), events[n], bot, msg);
    }
  }

  /** What one event does to one stored count. */
  lemma StepCounts(s: State, e: Event, bot: nat, msg: nat)
    requires Consistent(s)
    ensures StoredCount(Step(s, e, bot), msg) ==
            if Deletes(e, msg) then 0
            else if !Concerns(s, e, bot, msg) then StoredCount(s, msg)
            else if e.Add? then StoredCount(s, msg) + 1
            else if s.rows[msg].num == 1 then 1
            else StoredCount(s, msg) - 1
  {
  }

  lemma {:induction false} NoRefusalsIff(events: seq<Event>, bot: nat, msg: nat)
    ensures Refusals(events, bot, msg) == 0 <==> forall k: nat :: !RemovesLast(events, bot, msg, k)
    decreases |events|
  {
    if events != [] {
      var n := |events| - 1;
      var before, e := events[..n], events[n];
      NoRefusalsIff(before, bot, msg);
      forall k: nat ensures k < n && !Deletes(e, msg) ==> (RemovesLast(events, bot, msg, k) <==> RemovesLast(before, bot, msg, k)) {
        if k < n { assert before[..k] == events[..k]; }
      }
      if Deletes(e, msg) {
        assert forall k: nat :: RemovesLast(events, bot, msg, k) ==> k == n;
      } else {
        assert RemovesLast(events, bot, msg, n) <==>
               e.Remove? && Concerns(After(before, bot), e, bot, msg) && After(before, bot).rows[msg].num == 1;
        assert forall k: nat :: RemovesLast(before, bot, msg, k) ==> k < n;
        assert forall k: nat :: RemovesLast(events, bot, msg, k) ==> k <= n;
      }
    }
  }

  /** A stored count is the number of live reactions exactly if no removal found it at 1 since the message was deleted. */
  lemma CountIsLiveIff(events: seq<Event>, bot: nat, msg: nat)
    requires FreshPosts(events, bot) && msg in After(events, bot).rows
    ensures After(events, bot).rows[msg].num == Live(events, bot, msg) <==> forall k: nat :: !RemovesLast(events, bot, msg, k)
  {
    CountSplits(events, bot, msg);
    NoRefusalsIff(events, bot, msg);
  }

  const DRIFT: seq<Event> := [Add(1, 10, 2, 100), Remove(1, 10, 101), Add(1, 10, 2, 102)]

  /** One reaction added, removed and added again counts as two. */
  lemma CountDrifts()
    ensures After(DRIFT, 9) == State(map[10 := Row(2, None, 2)], []) && Live(DRIFT, 9, 10) == 1
  {
    var e0, e1, e2 := Add(1, 10, 2, 100), Remove(1, 10, 101), Add(1, 10, 2, 102);
    var s1 := State(map[10 := Row(2, None, 1)], []);
    assert DRIFT[..2] == [e0, e1] && [e0, e1][..1] == [e0] && [e0][..0] == [];
    assert After([e0], 9) == s1 && Live([e0], 9, 10) == 1;
    assert After([e0, e1], 9) == s1 && Live([e0, e1], 9, 10) == 0;
  }

  // ---------- Whose reactions count, and what stays ----------

  /** A reaction by the message's author, or to a message of the bot, changes nothing; any other one counts by one. */
  lemma WhoCounts(s: State, user: nat, msg: nat, author: nat, freshPost: nat, bot: nat)
    ensures user == author || author == bot ==> Step(s, Add(user, msg, author, freshPost), bot) == s
    ensures user != author && author != bot ==>
              StoredCount(Step(s, Add(user, msg, author, freshPost), bot), msg) == StoredCount(s, msg) + 1
    ensures msg in s.rows && (s.rows[msg].author == user || s.rows[msg].author == bot || s.rows[msg].num <= 1) ==>
              Step(s, Remove(user, msg, freshPost), bot) == s
    ensures msg in s.rows && s.rows[msg].author != user && s.rows[msg].author != bot && s.rows[msg].num > 1 ==>
              StoredCount(Step(s, Remove(user, msg, freshPost), bot), msg) == StoredCount(s, msg) - 1
    ensures msg !in s.rows ==> Step(s, Remove(user, msg, freshPost), bot) == s
  {
  }

  /** A row keeps its author, and its post as long as its count stays at 5 or more; no event touches another row. */
  lemma RowsStay(s: State, e: Event, bot: nat, m: nat)
    requires m in s.rows && m in Step(s, e, bot).rows
    ensures var before, after := s.rows[m], Step(s, e, bot).rows[m];
            && after.author == before.author
            && (before.post.Some? && after.num >= 5 ==> after.post == before.post)
            && (e.Delete? || e.msg != m ==> after == before)
            && (!e.Delete? && before.post.None? && after.post.Some? ==> after.post == Some(e.freshPost))
  {
  }

  /** Rows appear with a reaction, by the author that it names, and go with their message. */
  lemma RowsExactly(s: State, e: Event, bot: nat, m: nat)
    ensures m in Step(s, e, bot).rows <==>
            match e
            case Add(user, msg, author, _) => m in s.rows || (m == msg && user != author && author != bot)
            case Remove(_, _, _) => m in s.rows
            case Delete(msgs) => m in s.rows && m !in msgs
    ensures m !in s.rows && m in Step(s, e, bot).rows ==> e.Add? && Step(s, e, bot).rows[m] == Row(e.author, None, 1)
  {
  }

  /** A row has a post from a count of 5 on. */
  lemma PostsFromFive(events: seq<Event>, bot: nat, m: nat)
    requires FreshPosts(events, bot) && m in After(events, bot).rows
    ensures After(events, bot).rows[m].post.Some? <==> After(events, bot).rows[m].num >= 5
  {
    StarboardConsistent(events, bot);
  }
}
