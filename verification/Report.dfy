/** The nickname report: its text, and sending it in pieces that a message can hold. */
module Report {
  import Decimal

  const MESSAGE_LIMIT: nat := 2000

  // std::string::npos, and the modulus of size_t.
  const NPOS: nat := 0xFFFF_FFFF_FFFF_FFFF
  const SIZE_MODULUS: nat := 0x1_0000_0000_0000_0000

  // A user id is a 64-bit snowflake.
  type UserId = n: nat | n < 0x1_0000_0000_0000_0000

  // ---------- The text ----------

  function Mention(id: UserId): string {
    "<@" + Decimal.Print(id) + ">"
  }

  function JoinBySpaces(words: seq<string>): string {
    if words == [] then ""
    else if |words| == 1 then words[0]
    else JoinBySpaces(words[..|words| - 1]) + " " + words[|words| - 1]
  }

  function Mentions(ids: seq<UserId>): seq<string> {
    seq(|ids|, i requires 0 <= i < |ids| => Mention(ids[i]))
  }

  function Section(header: string, ids: seq<UserId>): string {
    if ids == [] then "" else header + JoinBySpaces(Mentions(ids)) + "\n"
  }

  const LEARNERS: string := "## Learners\n"
  const FLUENTS: string := "## Fluents\n"
  const NONLEARNERS: string := "## Natives and non-learners\n"

  function Text(learners: seq<UserId>, fluents: seq<UserId>, nonlearners: seq<UserId>): string {
    var content := Section(LEARNERS, learners) + Section(FLUENTS, fluents) + Section(NONLEARNERS, nonlearners);
    if content == "" then "Nothing to show" else content
  }

  /** One section is appended: a space after each mention, the last of them turned into a newline. */
  method AppendSection(content0: string, header: string, ids: seq<UserId>) returns (content: string)
    ensures content == content0 + Section(header, ids)
  {
    hide Mention, Mentions, JoinBySpaces;
    content := content0;
    if ids == [] { return; }
    content := content + header;
    for i := 0 to |ids|
      invariant i == 0 ==> content == content0 + header
      invariant i > 0 ==> content == content0 + header + (JoinBySpaces(Mentions(ids[..i])) + " ")
    {
      OneMoreMention(ids, i);
      content := content + Mention(ids[i]) + " ";
    }
    assert ids[..|ids|] == ids;
    LastSpace(content0, header, JoinBySpaces(Mentions(ids)));
    content := content[|content| - 1 := '\n'];
  }

  lemma OneMoreMention(ids: seq<UserId>, i: nat)
    requires i < |ids|
    ensures JoinBySpaces(Mentions(ids[..i + 1]))
            == if i == 0 then Mention(ids[0]) else JoinBySpaces(Mentions(ids[..i])) + " " + Mention(ids[i])
  {
    hide Mention;
    assert Mentions(ids[..i + 1])[..i] == Mentions(ids[..i]);
  }

  lemma LastSpace(before: string, header: string, mentions: string)
    ensures var s := before + header + (mentions + " ");
            s[|s| - 1 := '\n'] == before + (header + mentions + "\n")
  {
  }

  method Formulate(learners: seq<UserId>, fluents: seq<UserId>, nonlearners: seq<UserId>) returns (content: string)
    ensures content == Text(learners, fluents, nonlearners)
  {
    content := "";
    content := AppendSection(content, LEARNERS, learners);
    NothingBefore(Section(LEARNERS, learners));
    content := AppendSection(content, FLUENTS, fluents);
    content := AppendSection(content, NONLEARNERS, nonlearners);
    if content == "" { content := "Nothing to show"; }
  }

  lemma NothingBefore(s: string)
    ensures "" + s == s
  {
  }

  // ---------- Where the spaces are ----------

  // No run of characters without a space is as long as this.
  const RUN: nat := 64

  /** The number of characters after the last space. */
  ghost function Tail(s: string): nat {
    if s == "" || s[|s| - 1] == ' ' then 0 else 1 + Tail(s[..|s| - 1])
  }

  ghost predicate Dense(s: string) {
    s == "" || (Tail(s) < RUN && Dense(s[..|s| - 1]))
  }

  lemma {:induction false} AppendDense(s: string, t: string)
    requires Dense(s) && Tail(s) + |t| < RUN
    ensures Dense(s + t) && Tail(s + t) <= Tail(s) + |t|
  {
    if t == "" {
      assert s + t == s;
    } else {
      AppendDense(s, t[..|t| - 1]);
      assert (s + t)[..|s + t| - 1] == s + t[..|t| - 1];
    }
  }

  lemma AppendSpace(s: string)
    requires Dense(s)
    ensures Dense(s + " ") && Tail(s + " ") == 0
  {
    assert (s + " ")[..|s|] == s;
  }

  lemma MentionShape(id: UserId)
    ensures |Mention(id)| <= 23
    ensures ' ' !in Mention(id)
  {
    assert Decimal.Pow10(20) == 100_000_000_000_000_000_000 by {
      assert Decimal.Pow10(5) == 100_000;
      assert Decimal.Pow10(10) == 10_000_000_000;
      assert Decimal.Pow10(15) == 1_000_000_000_000_000;
    }
    Decimal.PrintLength(id, 20);
    Decimal.PrintDigits(id);
  }

  lemma {:induction false} JoinDense(s: string, words: seq<string>)
    requires Dense(s) && Tail(s) <= 13 && words != []
    requires forall i :: 0 <= i < |words| ==> |words[i]| <= 23
    ensures Dense(s + JoinBySpaces(words)) && Tail(s + JoinBySpaces(words)) <= 36
    decreases |words|
  {
    hide Dense, Tail;
    var n := |words| - 1;
    if n == 0 {
      AppendDense(s, words[0]);
    } else {
      var init := JoinBySpaces(words[..n]);
      JoinDense(s, words[..n]);
      AppendSpace(s + init);
      AppendDense(s + init + " ", words[n]);
      assert s + (init + " " + words[n]) == s + init + " " + words[n];
    }
  }

  lemma HeaderDense(s: string, before: string, after: string)
    requires |before| <= 20 && |after| <= 13
    requires Dense(s) && Tail(s) <= 37
    ensures Dense(s + before + " " + after) && Tail(s + before + " " + after) <= 13
  {
    AppendDense(s, before);
    AppendSpace(s + before);
    AppendDense(s + before + " ", after);
  }

  lemma SectionDense(s: string, header: string, before: string, after: string, ids: seq<UserId>)
    requires header == before + " " + after && |before| <= 20 && |after| <= 13
    requires Dense(s) && Tail(s) <= 37
    ensures Dense(s + Section(header, ids)) && Tail(s + Section(header, ids)) <= 37
  {
    hide Dense, Tail, Mention, JoinBySpaces;
    if ids == [] {
      assert s + "" == s;
    } else {
      HeaderDense(s, before, after);
      var h, words := s + before + " " + after, Mentions(ids);
      forall i | 0 <= i < |words| ensures |words[i]| <= 23 { MentionShape(ids[i]); }
      JoinDense(h, words);
      AppendDense(h + JoinBySpaces(words), "\n");
      assert s + (header + JoinBySpaces(words) + "\n") == h + JoinBySpaces(words) + "\n";
    }
  }

  lemma TextDense(learners: seq<UserId>, fluents: seq<UserId>, nonlearners: seq<UserId>)
    ensures Dense(Text(learners, fluents, nonlearners))
  {
    var a, b, c := Section(LEARNERS, learners), Section(FLUENTS, fluents), Section(NONLEARNERS, nonlearners);
    assert LEARNERS == "##" + " " + "Learners\n";
    assert FLUENTS == "##" + " " + "Fluents\n";
    SectionDense("", LEARNERS, "##", "Learners\n", learners);
    assert "" + a == a;
    SectionDense(a, FLUENTS, "##", "Fluents\n", fluents);
    NonlearnersDense(a + b, nonlearners);
    if a + b + c == "" {
      AppendDense("", "Nothing to show");
      assert "" + "Nothing to show" == "Nothing to show";
    }
  }

  lemma NonlearnersDense(s: string, ids: seq<UserId>)
    requires Dense(s) && Tail(s) <= 37
    ensures Dense(s + Section(NONLEARNERS, ids))
  {
    assert NONLEARNERS == "## Natives and" + " " + "non-learners\n";
    SectionDense(s, NONLEARNERS, "## Natives and", "non-learners\n", ids);
  }

  lemma {:induction false} DensePrefix(s: string, n: nat)
    requires Dense(s) && n <= |s|
    ensures Dense(s[..n])
  {
    if n < |s| {
      DensePrefix(s[..|s| - 1], n);
      assert s[..|s| - 1][..n] == s[..n];
    } else {
      assert s[..n] == s;
    }
  }

  lemma {:induction false} TailSpace(s: string)
    requires Tail(s) < |s|
    ensures s[|s| - 1 - Tail(s)] == ' '
  {
    if s[|s| - 1] != ' ' { TailSpace(s[..|s| - 1]); }
  }

  lemma {:induction false} TailOfSuffix(s: string, k: nat)
    requires k <= |s|
    ensures Tail(s[k..]) <= Tail(s)
  {
    if k < |s| && s[|s| - 1] != ' ' {
      TailOfSuffix(s[..|s| - 1], k);
      assert s[k..][..|s[k..]| - 1] == s[..|s| - 1][k..];
    }
  }

  lemma {:induction false} DenseSuffix(s: string, k: nat)
    requires Dense(s) && k <= |s|
    ensures Dense(s[k..])
  {
    TailOfSuffix(s, k);
    if k < |s| {
      DenseSuffix(s[..|s| - 1], k);
      assert s[k..][..|s[k..]| - 1] == s[..|s| - 1][k..];
    }
  }

  /** A dense text of at least RUN characters has a space among the first RUN. */
  lemma EarlySpace(s: string) returns (j: nat)
    requires Dense(s) && |s| >= RUN
    ensures j < RUN && s[j] == ' '
  {
    DensePrefix(s, RUN);
    TailSpace(s[..RUN]);
    j := RUN - 1 - Tail(s[..RUN]);
  }

  // ---------- Sending it ----------

  /** std::string::rfind of one character: the last occurrence at or before p. */
  method RFind(s: string, c: char, p: nat) returns (r: nat)
    ensures r == NPOS || (r < |s| && r <= p && s[r] == c)
    ensures (exists i :: 0 <= i < |s| && i <= p && s[i] == c) ==> r < |s| && s[r] == c && r <= p
    ensures forall i :: 0 <= i < |s| && i <= p && s[i] == c ==> i <= r
  {
    var i := if p < |s| then p + 1 else |s|;
    while i > 0
      invariant 0 <= i <= |s|
      invariant forall j :: i <= j < |s| && j <= p ==> s[j] != c
    {
      i := i - 1;
      if i <= p && s[i] == c { return i; }
    }
    return NPOS;
  }

  ghost predicate Contains(s: string, w: string) {
    exists a :: OccursAt(s, w, a)
  }

  ghost predicate OccursAt(s: string, w: string, a: int) {
    0 <= a <= |s| - |w| && s[a..a + |w|] == w
  }

  ghost predicate InSomePiece(pieces: seq<string>, w: string) {
    exists i :: 0 <= i < |pieces| && Contains(pieces[i], w)
  }

  /** No word without spaces is lost or split: each is in one of the pieces, or in what is still to be sent. */
  ghost predicate Kept(text: string, pieces: seq<string>, content: string) {
    forall w :: ' ' !in w && Contains(text, w) ==> InSomePiece(pieces, w) || Contains(content, w)
  }

  /** A word without spaces is on one side of a cut at a space, or on the other. */
  lemma CutKeepsWord(s: string, pos: nat, w: string)
    requires pos < |s| && s[pos] == ' '
    requires Contains(s, w) && ' ' !in w
    ensures Contains(s[..pos], w) || Contains(s[pos + 1..], w)
  {
    var a :| OccursAt(s, w, a);
    assert forall k :: 0 <= k < |w| ==> w[k] == s[a..a + |w|][k] == s[a + k];
    if a + |w| <= pos {
      assert s[..pos][a..a + |w|] == s[a..a + |w|];
      assert OccursAt(s[..pos], w, a);
    } else if pos < a {
      assert s[pos + 1..][a - pos - 1..a - pos - 1 + |w|] == s[a..a + |w|];
      assert OccursAt(s[pos + 1..], w, a - pos - 1);
    } else {
      assert false;
    }
  }

  lemma {:induction false} JoinAppend(pieces: seq<string>, last: string)
    ensures JoinBySpaces(pieces + [last]) == if pieces == [] then last else JoinBySpaces(pieces) + " " + last
  {
    assert (pieces + [last])[..|pieces|] == pieces;
  }

  /** Where piece i starts: after the space at which the piece before it was cut off. */
  function Start(cuts: seq<nat>, i: nat): nat
    requires i <= |cuts|
  {
    if i == 0 then 0 else cuts[i - 1] + 1
  }

  /** What starts there is too long; the piece is cut off at its last space within 2000 characters. */
  ghost predicate CutOff(text: string, start: nat, cut: nat, piece: string) {
    && start <= cut <= start + 2000 < |text|
    && text[cut] == ' ' && piece == text[start..cut]
    && forall k :: cut < k <= start + 2000 ==> text[k] != ' '
  }

  ghost predicate CutSoFar(text: string, pieces: seq<string>, cuts: seq<nat>) {
    && |pieces| == |cuts|
    && forall i :: 0 <= i < |cuts| ==> CutOff(text, Start(cuts, i), cuts[i], pieces[i])
  }

  /** The pieces are as long as they can be: each is what lies between two cuts, and the last one is short enough. */
  ghost predicate CutUp(text: string, pieces: seq<string>, cuts: seq<nat>) {
    && |pieces| == |cuts| + 1
    && CutSoFar(text, pieces[..|cuts|], cuts)
    && Start(cuts, |cuts|) <= |text| <= Start(cuts, |cuts|) + 2000
    && pieces[|cuts|] == text[Start(cuts, |cuts|)..]
  }

  lemma CutHere(text: string, start: nat, pos: nat)
    requires start + pos <= |text|
    requires CutOff(text[start..], 0, pos, text[start..][..pos])
    ensures CutOff(text, start, start + pos, text[start..][..pos])
    ensures text[start..][pos + 1..] == text[start + pos + 1..]
  {
    assert text[start..][..pos] == text[start..start + pos];
    forall k | start + pos < k <= start + 2000 ensures text[k] != ' ' {
      assert text[start..][k - start] == text[k];
    }
  }

  lemma OneMoreCut(text: string, pieces: seq<string>, cuts: seq<nat>, cut: nat, piece: string)
    requires CutSoFar(text, pieces, cuts) && CutOff(text, Start(cuts, |cuts|), cut, piece)
    ensures CutSoFar(text, pieces + [piece], cuts + [cut])
  {
    hide CutOff;
    var more := cuts + [cut];
    forall i | 0 <= i < |more| ensures CutOff(text, Start(more, i), more[i], (pieces + [piece])[i]) {
      assert Start(more, i) == Start(cuts, i);
    }
  }

  lemma NextCut(text: string, pieces: seq<string>, cuts: seq<nat>, content: string, pos: nat)
    requires CutSoFar(text, pieces, cuts) && Rest(text, cuts, content)
    requires pos <= |content| && CutOff(content, 0, pos, content[..pos])
    ensures var more := cuts + [Start(cuts, |cuts|) + pos];
            CutSoFar(text, pieces + [content[..pos]], more) && Rest(text, more, content[pos + 1..])
  {
    hide CutSoFar;
    var start := Start(cuts, |cuts|);
    CutHere(text, start, pos);
    OneMoreCut(text, pieces, cuts, start + pos, content[..pos]);
  }

  // What is left of the text after the cuts.
  ghost predicate Rest(text: string, cuts: seq<nat>, content: string) {
    Start(cuts, |cuts|) <= |text| && content == text[Start(cuts, |cuts|)..]
  }

  /**
   * The chunking loop: cut at the last space within the limit, until the rest fits.
   * Its inner loop searches backwards from the end; it terminates because the text is dense.
   */
  method Send(text: string) returns (pieces: seq<string>, ghost cuts: seq<nat>)
    requires Dense(text)
    ensures CutUp(text, pieces, cuts)
    ensures pieces != [] && JoinBySpaces(pieces) == text
    ensures forall i :: 0 <= i < |pieces| ==> |pieces[i]| <= MESSAGE_LIMIT
    ensures forall w :: ' ' !in w && Contains(text, w) ==> InSomePiece(pieces, w)
    ensures |text| <= MESSAGE_LIMIT ==> pieces == [text]
  {
    hide Kept, Dense, JoinBySpaces, CutSoFar, Start, Rest, CutOff, CutUp;
    pieces, cuts := [], [];
    var content := text;
    NothingSent(text);
    while |content| > MESSAGE_LIMIT
      invariant CutSoFar(text, pieces, cuts) && Rest(text, cuts, content)
      invariant Dense(content)
      invariant if pieces == [] then content == text else |text| > MESSAGE_LIMIT
      invariant text == if pieces == [] then content else JoinBySpaces(pieces) + " " + content
      invariant forall i :: 0 <= i < |pieces| ==> |pieces[i]| <= MESSAGE_LIMIT
      invariant Kept(text, pieces, content)
      decreases |content|
    {
      var pos := Cut(content);
      CutInvariant(text, pieces, content, pos);
      JoinAppend(pieces, content[..pos]);
      DenseSuffix(content, pos + 1);
      CutIsOff(content, pos);
      NextCut(text, pieces, cuts, content, pos);
      cuts := cuts + [Start(cuts, |cuts|) + pos];
      pieces := pieces + [content[..pos]];
      content := content[pos + 1..];
    }
    LastPiece(text, pieces, content);
    JoinAppend(pieces, content);
    AllCut(text, pieces, cuts, content);
    pieces := pieces + [content];
  }

  lemma NothingSent(text: string)
    ensures Kept(text, [], text)
    ensures CutSoFar(text, [], []) && Rest(text, [], text)
  {
  }

  lemma AllCut(text: string, pieces: seq<string>, cuts: seq<nat>, content: string)
    requires CutSoFar(text, pieces, cuts) && Rest(text, cuts, content) && |content| <= 2000
    ensures CutUp(text, pieces + [content], cuts)
  {
    assert (pieces + [content])[..|cuts|] == pieces;
  }

  lemma CutIsOff(content: string, pos: nat)
    requires pos <= MESSAGE_LIMIT < |content| && content[pos] == ' '
    requires forall i :: pos < i <= MESSAGE_LIMIT ==> content[i] != ' '
    ensures CutOff(content, 0, pos, content[..pos])
  {
  }

  /** The inner loop: pos walks back over spaces until it is within the limit. */
  method Cut(content: string) returns (pos: nat)
    requires Dense(content) && |content| > MESSAGE_LIMIT
    ensures pos <= MESSAGE_LIMIT && content[pos] == ' '
    ensures forall i :: pos < i <= MESSAGE_LIMIT ==> content[i] != ' '
  {
    ghost var j := EarlySpace(content);
    pos := 0;
    pos := RFind(content, ' ', (pos - 1) % SIZE_MODULUS);
    while pos > MESSAGE_LIMIT
      invariant pos < |content| && content[pos] == ' '
      invariant j <= pos
      invariant forall i :: pos < i <= MESSAGE_LIMIT ==> content[i] != ' '
      decreases pos
    {
      pos := RFind(content, ' ', (pos - 1) % SIZE_MODULUS);
    }
  }

  lemma CutInvariant(text: string, pieces: seq<string>, content: string, pos: nat)
    requires pos < |content| && content[pos] == ' '
    requires Kept(text, pieces, content)
    ensures Kept(text, pieces + [content[..pos]], content[pos + 1..])
  {
    var more := pieces + [content[..pos]];
    forall w | ' ' !in w && Contains(text, w) ensures InSomePiece(more, w) || Contains(content[pos + 1..], w) {
      if InSomePiece(pieces, w) {
        var i :| 0 <= i < |pieces| && Contains(pieces[i], w);
        assert more[i] == pieces[i];
      } else {
        CutKeepsWord(content, pos, w);
        assert more[|pieces|] == content[..pos];
      }
    }
  }

  lemma LastPiece(text: string, pieces: seq<string>, content: string)
    requires Kept(text, pieces, content)
    ensures forall w :: ' ' !in w && Contains(text, w) ==> InSomePiece(pieces + [content], w)
  {
    var more := pieces + [content];
    forall w | ' ' !in w && Contains(text, w) ensures InSomePiece(more, w) {
      if InSomePiece(pieces, w) {
        var i :| 0 <= i < |pieces| && Contains(pieces[i], w);
        assert more[i] == pieces[i];
      } else {
        assert more[|pieces|] == content;
      }
    }
  }

  // ---------- The report as a whole ----------

  lemma ContainsIn(a: string, s: string, b: string, w: string)
    requires Contains(s, w)
    ensures Contains(a + s + b, w)
  {
    var k :| OccursAt(s, w, k);
    assert (a + s + b)[|a| + k..|a| + k + |w|] == s[k..k + |w|];
    assert OccursAt(a + s + b, w, |a| + k);
  }

  lemma {:induction false} JoinContains(words: seq<string>, i: nat)
    requires i < |words|
    ensures Contains(JoinBySpaces(words), words[i])
  {
    var n := |words| - 1;
    if i == n {
      var front := if n == 0 then "" else JoinBySpaces(words[..n]) + " ";
      assert words[n][0..|words[n]|] == words[n];
      assert OccursAt(words[n], words[n], 0);
      ContainsIn(front, words[n], "", words[n]);
      assert front + words[n] + "" == JoinBySpaces(words);
    } else {
      JoinContains(words[..n], i);
      ContainsIn("", JoinBySpaces(words[..n]), " " + words[n], words[i]);
      assert "" + JoinBySpaces(words[..n]) + (" " + words[n]) == JoinBySpaces(words);
    }
  }

  lemma SectionMentions(header: string, ids: seq<UserId>, i: nat)
    requires i < |ids|
    ensures Contains(Section(header, ids), Mention(ids[i]))
  {
    JoinContains(Mentions(ids), i);
    ContainsIn(header, JoinBySpaces(Mentions(ids)), "\n", Mention(ids[i]));
  }

  lemma ContainsInThree(a: string, b: string, c: string, w: string)
    requires Contains(a, w) || Contains(b, w) || Contains(c, w)
    ensures Contains(a + b + c, w)
  {
    if Contains(a, w) {
      ContainsIn("", a, b + c, w);
      assert "" + a + (b + c) == a + b + c;
    } else if Contains(b, w) {
      ContainsIn(a, b, c, w);
    } else {
      ContainsIn(a + b, c, "", w);
      assert a + b + c + "" == a + b + c;
    }
  }

  lemma ListMentions(header: string, ids: seq<UserId>, id: UserId)
    requires id in ids
    ensures Contains(Section(header, ids), Mention(id)) && Section(header, ids) != ""
  {
    var i :| 0 <= i < |ids| && ids[i] == id;
    SectionMentions(header, ids, i);
  }

  lemma TextMentions(learners: seq<UserId>, fluents: seq<UserId>, nonlearners: seq<UserId>, id: UserId)
    requires id in learners || id in fluents || id in nonlearners
    ensures Contains(Text(learners, fluents, nonlearners), Mention(id))
  {
    if id in learners {
      ListMentions(LEARNERS, learners, id);
    } else if id in fluents {
      ListMentions(FLUENTS, fluents, id);
    } else {
      ListMentions(NONLEARNERS, nonlearners, id);
    }
    ContainsInThree(Section(LEARNERS, learners), Section(FLUENTS, fluents), Section(NONLEARNERS, nonlearners), Mention(id));
  }

  /** The message part of process_nicknames: nobody's mention is lost or split, and every piece fits. */
  method SendReport(learners: seq<UserId>, fluents: seq<UserId>, nonlearners: seq<UserId>)
    returns (pieces: seq<string>, ghost cuts: seq<nat>)
    ensures CutUp(Text(learners, fluents, nonlearners), pieces, cuts)
    ensures JoinBySpaces(pieces) == Text(learners, fluents, nonlearners)
    ensures forall i :: 0 <= i < |pieces| ==> |pieces[i]| <= 2000
    ensures forall id: UserId :: id in learners || id in fluents || id in nonlearners ==> InSomePiece(pieces, Mention(id))
  {
    var content := Formulate(learners, fluents, nonlearners);
    TextDense(learners, fluents, nonlearners);
    pieces, cuts := Send(content);
    forall id: UserId | id in learners || id in fluents || id in nonlearners ensures InSomePiece(pieces, Mention(id)) {
      TextMentions(learners, fluents, nonlearners, id);
      MentionShape(id);
    }
  }

  /** The report's wording, on one member of each kind, on several, and on nobody. */
  lemma ReportSamples()
    ensures Text([1], [20], [3]) == "## Learners\n<@1>\n" + "## Fluents\n<@20>\n" + "## Natives and non-learners\n<@3>\n"
    ensures Text([1, 20], [], []) == "## Learners\n<@1> <@20>\n"
    ensures Text([], [], []) == "Nothing to show"
  {
    assert Decimal.Print(1) == "1" && Decimal.Print(3) == "3" && Decimal.Print(20) == Decimal.Print(2) + "0" == "20";
    assert Mention(1) == "<@1>" && Mention(20) == "<@20>" && Mention(3) == "<@3>";
    assert Mentions([1]) == ["<@1>"] && Mentions([20]) == ["<@20>"] && Mentions([3]) == ["<@3>"];
    assert Mentions([1, 20]) == ["<@1>", "<@20>"] && ["<@1>", "<@20>"][..1] == ["<@1>"];
    assert Section(LEARNERS, [1]) == "## Learners\n<@1>\n";
    assert Section(FLUENTS, [20]) == "## Fluents\n<@20>\n";
    assert Section(NONLEARNERS, [3]) == "## Natives and non-learners\n<@3>\n";
    assert Section(LEARNERS, [1, 20]) == "## Learners\n<@1> <@20>\n";
    hide Section;
  }
}
