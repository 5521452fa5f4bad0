/** The plain-text excerpt of a conversation that goes to the vision provider with an image. */
module Context {
  import opened Basics
  import opened Content
  import opened Rewrite
  import opened Requests

  // ---------- Images and texts of a message ----------

  predicate HasImage(b: Block, depth: nat)
    decreases MAX_DEPTH - depth
  {
    depth < MAX_DEPTH && (IsImage(b)
        || (b.typ == TOOL_RESULT && exists i :: 0 <= i < |b.content| && HasImage(b.content[i], depth + 1)))
  }

  predicate MessageHasImage(m: Message) {
    exists i :: 0 <= i < |m.content| && HasImage(m.content[i], 0)
  }

  function CollectText(b: Block, depth: nat): seq<string>
    decreases MAX_DEPTH - depth, 0
  {
    if depth >= MAX_DEPTH then []
    else if b.typ == TEXT && b.text != "" then [b.text]
    else if b.typ == TOOL_RESULT then CollectTexts(b.content, depth + 1)
    else []
  }

  function CollectTexts(blocks: seq<Block>, depth: nat): seq<string>
    decreases MAX_DEPTH - depth, 1, |blocks|
  {
    if blocks == [] then [] else CollectTexts(blocks[..|blocks| - 1], depth) + CollectText(blocks[|blocks| - 1], depth)
  }

  function Join(parts: seq<string>, separator: string): string {
    if parts == [] then ""
    else if |parts| == 1 then parts[0]
    else parts[0] + separator + Join(parts[1..], separator)
  }

  function MessageText(m: Message): string {
    Join(CollectTexts(m.content, 0), " ")
  }

  lemma {:induction false} HasImageLeads(b: Block, depth: nat) returns (p: Path)
    requires HasImage(b, depth)
    ensures Eligible(b, p, depth) && depth + |p| < MAX_DEPTH
    decreases MAX_DEPTH - depth
  {
    p := [];
    if !IsImage(b) {
      var k :| 0 <= k < |b.content| && HasImage(b.content[k], depth + 1);
      var q := HasImageLeads(b.content[k], depth + 1);
      p := [k] + q;
      assert p[1..] == q;
    }
  }

  lemma {:induction false} EligibleIsSeen(b: Block, p: Path, depth: nat)
    requires Eligible(b, p, depth) && depth + |p| < MAX_DEPTH
    ensures HasImage(b, depth)
    decreases |p|
  {
    if p != [] {
      EligibleIsSeen(b.content[p[0]], p[1..], depth + 1);
    }
  }

  /** The search for an image here stops one layer sooner than the search that replaces images. */
  lemma HasImageStopsOneLayerSooner(b: Block, depth: nat)
    ensures HasImage(b, depth) <==> exists p: Path :: Eligible(b, p, depth) && depth + |p| < MAX_DEPTH
  {
    if HasImage(b, depth) {
      var p := HasImageLeads(b, depth);
    }
    forall p: Path | Eligible(b, p, depth) && depth + |p| < MAX_DEPTH ensures HasImage(b, depth) {
      EligibleIsSeen(b, p, depth);
    }
  }

  // ---------- What the excerpt is ----------

  datatype Line = Line(role: string, text: string)

  function Lower(c: char): char {
    if 'A' <= c <= 'Z' then c - 'A' + 'a' else c
  }

  function ToLower(s: string): (r: string)
    ensures |r| == |s|
  {
    seq(|s|, i requires 0 <= i < |s| => Lower(s[i]))
  }

  // A message's line, if it is from the user or the assistant and holds text.
  function LineOf(m: Message): seq<Line> {
    var role, text := ToLower(m.role), MessageText(m);
    if (role == USER || role == ASSISTANT) && text != "" then [Line(role, text)] else []
  }

  function Lines(ms: seq<Message>): seq<Line> {
    if ms == [] then [] else Lines(ms[..|ms| - 1]) + LineOf(ms[|ms| - 1])
  }

  function Users(lines: seq<Line>): nat {
    if lines == [] then 0 else Users(lines[..|lines| - 1]) + if lines[|lines| - 1].role == USER then 1 else 0
  }

  // The last lines, back to the rounds-th user line.
  function Recent(lines: seq<Line>, rounds: nat): (r: seq<Line>)
    ensures |r| <= |lines|
  {
    if rounds == 0 || lines == [] then []
    else
      var last := lines[|lines| - 1];
      Recent(lines[..|lines| - 1], if last.role == USER then rounds - 1 else rounds) + [last]
  }

  // Length in UTF-8.
  function ByteLen(c: char): nat {
    if c < '\U{80}' then 1 else if c < '\U{800}' then 2 else if c < '\U{10000}' then 3 else 4
  }

  function Bytes(s: string): nat {
    if s == "" then 0 else ByteLen(s[0]) + Bytes(s[1..])
  }

  function Format(line: Line): string {
    "[" + line.role + "] " + line.text
  }

  function Formatted(lines: seq<Line>): (r: seq<string>)
    ensures |r| == |lines|
  {
    seq(|lines|, i requires 0 <= i < |lines| => Format(lines[i]))
  }

  // The bytes of the lines with a newline after each.
  function Total(lines: seq<string>): nat {
    if lines == [] then 0 else Bytes(lines[0]) + 1 + Total(lines[1..])
  }

  // Where the longest suffix that fits begins, or the last line if none does.
  function CutFrom(lines: seq<string>, maxChars: int, i: nat): (c: nat)
    requires i < |lines|
    ensures c <= i
  {
    if i > 0 && Total(lines[i - 1..]) <= maxChars then CutFrom(lines, maxChars, i - 1) else i
  }

  // The messages that may contribute: the last one does not if it is a user's and holds an image.
  function Considered(ms: seq<Message>): seq<Message> {
    if ms != [] && ms[|ms| - 1].role == USER && MessageHasImage(ms[|ms| - 1]) then ms[..|ms| - 1] else ms
  }

  function Excerpt(ms: seq<Message>, rounds: int, maxChars: int): string {
    if rounds <= 0 || maxChars <= 0 then ""
    else
      var lines := Formatted(Recent(Lines(Considered(ms)), rounds));
      if lines == [] then "" else Join(lines[CutFrom(lines, maxChars, |lines| - 1)..], "\n")
  }

  // ---------- What that means ----------

  // lines[start..] goes back to the rounds-th user line from the end, or to the first line if there are fewer.
  predicate StartsAt(lines: seq<Line>, start: nat, rounds: nat)
    requires start <= |lines|
  {
    || (start < |lines| && lines[start].role == USER && Users(lines[start..]) == rounds)
    || (start == 0 && Users(lines) < rounds)
  }

  /** The lines collected are the suffix that starts at the rounds-th user line from the end, or all of
      them if there are fewer. */
  lemma {:induction false} RecentStartsAtARound(lines: seq<Line>, rounds: nat)
    requires rounds > 0
    ensures Recent(lines, rounds) == lines[|lines| - |Recent(lines, rounds)|..]
    ensures StartsAt(lines, |lines| - |Recent(lines, rounds)|, rounds)
  {
    if lines != [] {
      hide StartsAt, Users;
      var n := |lines| - 1;
      var last := lines[n];
      if last.role == USER && rounds == 1 {
        StartsAtLast(lines);
        assert lines[n..] == [last];
      } else {
        var rest := if last.role == USER then rounds - 1 else rounds;
        RecentStartsAtARound(lines[..n], rest);
        StartsEarlier(lines, n - |Recent(lines[..n], rest)|, rest);
      }
    } else {
      assert StartsAt(lines, 0, rounds);
    }
  }

  lemma StartsAtLast(lines: seq<Line>)
    requires lines != [] && lines[|lines| - 1].role == USER
    ensures StartsAt(lines, |lines| - 1, 1)
  {
    assert lines[|lines| - 1..][..0] == [];
  }

  // The last line counts as one round if it is a user's.
  lemma StartsEarlier(lines: seq<Line>, start: nat, rest: nat)
    requires lines != [] && start < |lines| && rest > 0 && StartsAt(lines[..|lines| - 1], start, rest)
    ensures lines[start..] == lines[..|lines| - 1][start..] + [lines[|lines| - 1]]
    ensures StartsAt(lines, start, if lines[|lines| - 1].role == USER then rest + 1 else rest)
  {
    assert lines[start..][..|lines[start..]| - 1] == lines[..|lines| - 1][start..];
  }

  lemma {:induction false} UsersTail(lines: seq<Line>, i: nat)
    requires i < |lines|
    ensures Users(lines[i..]) == Users(lines[i + 1..]) + if lines[i].role == USER then 1 else 0
    decreases |lines|
  {
    var n := |lines| - 1;
    assert lines[i..][..|lines[i..]| - 1] == lines[..n][i..];
    if i < n {
      UsersTail(lines[..n], i);
      assert lines[i + 1..][..|lines[i + 1..]| - 1] == lines[..n][i + 1..];
    }
  }

  lemma {:induction false} UsersFall(lines: seq<Line>, i: nat, k: nat)
    requires i <= k <= |lines|
    ensures Users(lines[i..]) >= Users(lines[k..])
    decreases k - i
  {
    if i < k {
      UsersFall(lines, i + 1, k);
      UsersTail(lines, i);
    }
  }

  /** Only one suffix does that. */
  lemma StartIsUnique(lines: seq<Line>, i: nat, k: nat, rounds: nat)
    requires i <= k <= |lines| && StartsAt(lines, i, rounds) && StartsAt(lines, k, rounds) && rounds > 0
    ensures i == k
  {
    assert lines[0..] == lines;
    if i < k {
      UsersTail(lines, i);
      UsersFall(lines, i + 1, k);
      UsersFall(lines, 0, k);
    }
  }

  /** What is kept is the longest suffix that fits, or the newest line if none does. */
  lemma {:induction false} CutKeepsTheLongestFit(lines: seq<string>, maxChars: int, i: nat)
    requires i < |lines| && (i == |lines| - 1 || Total(lines[i..]) <= maxChars)
    ensures var c := CutFrom(lines, maxChars, i);
            && c <= i && (c == |lines| - 1 || Total(lines[c..]) <= maxChars)
            && forall k :: 0 <= k < c ==> Total(lines[k..]) > maxChars
    decreases i
  {
    if i > 0 && Total(lines[i - 1..]) <= maxChars {
      CutKeepsTheLongestFit(lines, maxChars, i - 1);
    } else {
      forall k | 0 <= k < i ensures Total(lines[k..]) > maxChars {
        TotalGrows(lines, k, i - 1);
      }
    }
  }

  lemma {:induction false} TotalGrows(lines: seq<string>, k: nat, i: nat)
    requires k <= i <= |lines|
    ensures Total(lines[k..]) >= Total(lines[i..])
    decreases i - k
  {
    if k < i {
      assert lines[k..][1..] == lines[k + 1..];
      TotalGrows(lines, k + 1, i);
    }
  }

  // Joined lines take one byte less than their total.
  lemma {:induction false} BytesConcat(s: string, t: string)
    ensures Bytes(s + t) == Bytes(s) + Bytes(t)
  {
    if s == "" {
      assert s + t == t;
    } else {
      BytesConcat(s[1..], t);
      assert (s + t)[1..] == s[1..] + t;
    }
  }

  lemma {:induction false} JoinedBytes(lines: seq<string>)
    requires lines != []
    ensures Bytes(Join(lines, "\n")) + 1 == Total(lines)
  {
    assert Bytes("\n") == 1;
    if |lines| > 1 {
      JoinedBytes(lines[1..]);
      BytesConcat(lines[0] + "\n", Join(lines[1..], "\n"));
      BytesConcat(lines[0], "\n");
    }
  }

  lemma LastAlone(lines: seq<string>)
    requires lines != []
    ensures Join(lines[|lines| - 1..], "\n") == lines[|lines| - 1]
  {
  }

  /** An excerpt of more than one line is shorter than maxChars bytes. */
  lemma ExcerptFits(ms: seq<Message>, rounds: int, maxChars: int)
    requires rounds > 0 && maxChars > 0
    ensures var lines := Formatted(Recent(Lines(Considered(ms)), rounds));
            lines == [] || Excerpt(ms, rounds, maxChars) == lines[|lines| - 1]
                || Bytes(Excerpt(ms, rounds, maxChars)) < maxChars
  {
    hide Lines, Considered, Recent, Formatted, Join, Bytes, Total, CutFrom;
    var lines := Formatted(Recent(Lines(Considered(ms)), rounds));
    if lines != [] {
      LastAlone(lines);
      CutKeepsTheLongestFit(lines, maxChars, |lines| - 1);
      JoinedBytes(lines[CutFrom(lines, maxChars, |lines| - 1)..]);
    }
  }

  // ---------- The cut and whole rounds ----------

  // Nothing is cut off, or what is kept starts a round.
  predicate CutsAtARound(lines: seq<Line>, maxChars: int)
    requires lines != []
  {
    var c := CutFrom(Formatted(lines), maxChars, |lines| - 1);
    c == 0 || lines[c].role == USER
  }

  lemma TotalStep(lines: seq<string>, k: nat)
    requires k < |lines|
    ensures Total(lines[k..]) == Bytes(lines[k]) + 1 + Total(lines[k + 1..])
  {
    assert lines[k..][1..] == lines[k + 1..];
  }

  // With just the bytes it takes, any line can be the first one kept.
  lemma AnyLineCanBeTheCut(lines: seq<string>, k: nat)
    requires k < |lines|
    ensures Total(lines[k..]) > 0 && CutFrom(lines, Total(lines[k..]), |lines| - 1) == k
  {
    hide Total, CutFrom, Bytes;
    var maxChars := Total(lines[k..]);
    var c := CutFrom(lines, maxChars, |lines| - 1);
    TotalStep(lines, k);
    CutKeepsTheLongestFit(lines, maxChars, |lines| - 1);
    if c < k {
      TotalStep(lines, c);
      TotalGrows(lines, c + 1, k);
    }
  }

  /** The code comment promises a cut by whole rounds. For given lines this holds for every maxChars if and
      only if every line but the first is a user's. */
  lemma CutsAtRoundsIff(lines: seq<Line>)
    requires lines != []
    ensures (forall maxChars :: maxChars > 0 ==> CutsAtARound(lines, maxChars)) <==>
            (forall k :: 1 <= k < |lines| ==> lines[k].role == USER)
  {
    if forall maxChars :: maxChars > 0 ==> CutsAtARound(lines, maxChars) {
      forall k | 1 <= k < |lines| ensures lines[k].role == USER {
        AnyLineCanBeTheCut(Formatted(lines), k);
        assert CutsAtARound(lines, Total(Formatted(lines)[k..]));
      }
    }
  }

  function TextMessage(role: string, text: string): Message {
    Message(role, [TextOnly(text)], false)
  }

  lemma OneLine(role: string, text: string)
    requires (role == USER || role == ASSISTANT) && text != ""
    ensures LineOf(TextMessage(role, text)) == [Line(role, text)]
    ensures !MessageHasImage(TextMessage(role, text))
  {
    assert [TextOnly(text)][..0] == [];
    assert CollectTexts([TextOnly(text)], 0) == [text];
    assert ToLower(role) == role;
  }

  lemma LinesOfTwo(m: Message, n: Message, a: Line, b: Line)
    requires LineOf(m) == [a] && LineOf(n) == [b]
    ensures Lines([m, n]) == [a, b]
  {
    hide LineOf;
    assert [m, n][..1] == [m] && [m][..0] == [];
    assert Lines([m]) == [a];
  }

  lemma RecentOfTwo(a: Line, b: Line)
    requires a.role == USER && b.role != USER
    ensures Recent([a, b], 1) == [a, b]
  {
    assert [a, b][..1] == [a] && [a][..0] == [];
  }

  lemma OnlyTheSecondFits(a: string, b: string, maxChars: int)
    requires Bytes(a) + 1 + Bytes(b) + 1 > maxChars
    ensures CutFrom([a, b], maxChars, 1) == 1 && Join([a, b][1..], "\n") == b
  {
    var lines := [a, b];
    TotalStep(lines, 0);
    TotalStep(lines, 1);
    assert lines[1..] == [b];
  }

  /** A question and its answer that do not both fit: the excerpt starts inside the round, at the answer. */
  lemma ARoundIsCut(question: string, answer: string, maxChars: int)
    requires question != "" && answer != ""
    requires 0 < maxChars < Bytes(Format(Line(USER, question))) + 1 + Bytes(Format(Line(ASSISTANT, answer))) + 1
    ensures Excerpt([TextMessage(USER, question), TextMessage(ASSISTANT, answer)], 1, maxChars)
            == Format(Line(ASSISTANT, answer))
  {
    var ms := [TextMessage(USER, question), TextMessage(ASSISTANT, answer)];
    var a, b := Line(USER, question), Line(ASSISTANT, answer);
    OneLine(USER, question);
    OneLine(ASSISTANT, answer);
    RecentOfTwo(a, b);
    OnlyTheSecondFits(Format(a), Format(b), maxChars);
    hide Lines, LineOf, MessageHasImage, Bytes, Recent, CutFrom, Join, Format, TextMessage;
    LinesOfTwo(ms[0], ms[1], a, b);
    assert Formatted([a, b]) == [Format(a), Format(b)];
  }

  // ---------- Image data do not matter ----------

  predicate AlikeSource(s: Option<ImageSource>, t: Option<ImageSource>) {
    && s.Some? == t.Some?
    && (s.Some? ==> (s.value.data == "") == (t.value.data == ""))
  }

  // The same tree but for image data, which are empty in both or in neither.
  predicate Alike(b: Block, c: Block)
    decreases b
  {
    && b.typ == c.typ && b.text == c.text && AlikeSource(b.source, c.source)
    && |b.content| == |c.content| && forall i :: 0 <= i < |b.content| ==> Alike(b.content[i], c.content[i])
  }

  predicate AlikeMessages(m: Message, n: Message) {
    m.role == n.role && |m.content| == |n.content| && forall i :: 0 <= i < |m.content| ==>
        Alike(m.content[i], n.content[i])
  }

  lemma {:induction false} AlikeHasImage(b: Block, c: Block, depth: nat)
    requires Alike(b, c)
    ensures HasImage(b, depth) == HasImage(c, depth)
    decreases MAX_DEPTH - depth
  {
    if depth < MAX_DEPTH && b.typ == TOOL_RESULT {
      forall i | 0 <= i < |b.content| ensures HasImage(b.content[i], depth + 1) == HasImage(c.content[i], depth + 1) {
        AlikeHasImage(b.content[i], c.content[i], depth + 1);
      }
    }
  }

  lemma {:induction false} AlikeText(b: Block, c: Block, depth: nat)
    requires Alike(b, c)
    ensures CollectText(b, depth) == CollectText(c, depth)
    decreases MAX_DEPTH - depth, 0
  {
    if depth < MAX_DEPTH {
      AlikeTexts(b.content, c.content, depth + 1);
    }
  }

  lemma {:induction false} AlikeTexts(b: seq<Block>, c: seq<Block>, depth: nat)
    requires |b| == |c| && forall i :: 0 <= i < |b| ==> Alike(b[i], c[i])
    ensures CollectTexts(b, depth) == CollectTexts(c, depth)
    decreases MAX_DEPTH - depth, 1, |b|
  {
    if b != [] {
      AlikeTexts(b[..|b| - 1], c[..|c| - 1], depth);
      AlikeText(b[|b| - 1], c[|c| - 1], depth);
    }
  }

  lemma {:induction false} AlikeLines(ms: seq<Message>, ns: seq<Message>)
    requires |ms| == |ns| && forall i :: 0 <= i < |ms| ==> AlikeMessages(ms[i], ns[i])
    ensures Lines(ms) == Lines(ns)
  {
    if ms != [] {
      hide Alike, CollectTexts, Join, ToLower;
      var m, n := ms[|ms| - 1], ns[|ns| - 1];
      AlikeLines(ms[..|ms| - 1], ns[..|ns| - 1]);
      assert AlikeMessages(m, n);
      AlikeTexts(m.content, n.content, 0);
    }
  }

  /** Replacing any non-empty image data by other non-empty data does not change the excerpt. */
  lemma ImageDataDoNotMatter(ms: seq<Message>, ns: seq<Message>, rounds: int, maxChars: int)
    requires |ms| == |ns| && forall i :: 0 <= i < |ms| ==> AlikeMessages(ms[i], ns[i])
    ensures Excerpt(ms, rounds, maxChars) == Excerpt(ns, rounds, maxChars)
  {
    hide Lines, HasImage, Alike;
    if ms != [] {
      var m, n := ms[|ms| - 1], ns[|ns| - 1];
      assert AlikeMessages(m, n);
      forall i | 0 <= i < |m.content| ensures HasImage(m.content[i], 0) == HasImage(n.content[i], 0) {
        AlikeHasImage(m.content[i], n.content[i], 0);
      }
      assert MessageHasImage(m) == MessageHasImage(n);
    }
    AlikeLines(Considered(ms), Considered(ns));
  }

  // ---------- The extraction, step by step ----------

  // Appends the texts of b to out.
  method CollectTextInto(b: Block, depth: nat, out: seq<string>) returns (all: seq<string>)
    ensures all == out + CollectText(b, depth)
    decreases MAX_DEPTH - depth
  {
    all := out;
    if depth >= MAX_DEPTH {
      return;
    }
    if b.typ == TEXT && b.text != "" {
      return out + [b.text];
    }
    if b.typ == TOOL_RESULT {
      for k := 0 to |b.content|
        invariant all == out + CollectTexts(b.content[..k], depth + 1)
      {
        assert b.content[..k + 1][..k] == b.content[..k];
        all := CollectTextInto(b.content[k], depth + 1, all);
      }
      assert b.content[..|b.content|] == b.content;
    }
  }

  method ExtractMessageText(m: Message) returns (text: string)
    ensures text == MessageText(m)
  {
    var parts := [];
    for j := 0 to |m.content|
      invariant parts == CollectTexts(m.content[..j], 0)
    {
      assert m.content[..j + 1][..j] == m.content[..j];
      parts := CollectTextInto(m.content[j], 0, parts);
    }
    assert m.content[..|m.content|] == m.content;
    text := Join(parts, " ");
  }

  function Backwards(lines: seq<Line>): (r: seq<Line>)
    ensures |r| == |lines|
  {
    if lines == [] then [] else [lines[|lines| - 1]] + Backwards(lines[..|lines| - 1])
  }

  lemma {:induction false} BackwardsAt(lines: seq<Line>, k: nat)
    requires k < |lines|
    ensures Backwards(lines)[k] == lines[|lines| - 1 - k]
  {
    if k > 0 {
      BackwardsAt(lines[..|lines| - 1], k - 1);
    }
  }

  // Walks back from message n - 1, newest line first, until `rounds` user lines are collected.
  method CollectBack(ms: seq<Message>, n: nat, rounds: nat) returns (collected: seq<Line>)
    requires n <= |ms| && rounds > 0
    ensures Backwards(collected) == Recent(Lines(ms[..n]), rounds)
  {
    hide Lines, Recent, ToLower, MessageText, Backwards;
    collected := [];
    BackwardsNone();
    var users, i := 0, n;
    while i > 0 && users < rounds
      invariant 0 <= i <= n && 0 <= users <= rounds
      invariant Recent(Lines(ms[..i]), rounds - users) + Backwards(collected) == Recent(Lines(ms[..n]), rounds)
    {
      i := i - 1;
      var role := ToLower(ms[i].role);
      StepBack(ms, i, rounds - users);
      if role != USER && role != ASSISTANT {
        continue;
      }
      var text := ExtractMessageText(ms[i]);
      if text == "" {
        continue;
      }
      BackwardsSnoc(collected, Line(role, text));
      collected := collected + [Line(role, text)];
      if role == USER {
        users := users + 1;
      }
    }
    WalkedBack(ms, i, rounds - users);
  }

  lemma StepBack(ms: seq<Message>, i: nat, rounds: nat)
    requires i < |ms| && rounds > 0
    ensures var line := LineOf(ms[i]);
            Recent(Lines(ms[..i + 1]), rounds)
            == if line == [] then Recent(Lines(ms[..i]), rounds)
               else Recent(Lines(ms[..i]), if line[0].role == USER then rounds - 1 else rounds) + line
  {
    assert ms[..i + 1][..i] == ms[..i];
    var lines, line := Lines(ms[..i]), LineOf(ms[i]);
    if line == [] {
      assert lines + line == lines;
    } else {
      assert (lines + line)[..|lines|] == lines;
    }
  }

  lemma WalkedBack(ms: seq<Message>, i: nat, rounds: nat)
    requires i <= |ms| && (i == 0 || rounds == 0)
    ensures Recent(Lines(ms[..i]), rounds) == []
  {
  }

  lemma BackwardsNone()
    ensures Backwards([]) == []
  {
  }

  lemma BackwardsSnoc(lines: seq<Line>, line: Line)
    ensures Backwards(lines + [line]) == [line] + Backwards(lines)
  {
    assert (lines + [line])[..|lines|] == lines;
  }

  // Reverses in place.
  method Reverse(a: array<Line>)
    modifies a
    ensures a[..] == Backwards(old(a[..]))
  {
    ghost var was := a[..];
    var i, j := 0, a.Length - 1;
    while i < j
      invariant 0 <= i <= a.Length && i + j == a.Length - 1 && j >= -1
      invariant forall k :: i <= k <= j ==> a[k] == was[k]
      invariant forall k :: 0 <= k < i ==> a[k] == was[a.Length - 1 - k] && a[a.Length - 1 - k] == was[k]
    {
      a[i], a[j] := a[j], a[i];
      i, j := i + 1, j - 1;
    }
    forall k | 0 <= k < a.Length ensures a[k] == Backwards(was)[k] {
      BackwardsAt(was, k);
      assert k < i || k == a.Length - 1 - k || k > j;
    }
  }

  // From the newest line back while the total fits; the newest line is kept in any case.
  method FindCut(lines: seq<string>, maxChars: int) returns (cutFrom: nat)
    requires lines != []
    ensures cutFrom == CutFrom(lines, maxChars, |lines| - 1)
  {
    var total, i := 0, |lines|;
    cutFrom := 0;
    while i > 0
      invariant 0 <= i <= |lines| && total == Total(lines[i..]) && cutFrom == 0
      invariant i < |lines| ==> CutFrom(lines, maxChars, i) == CutFrom(lines, maxChars, |lines| - 1)
    {
      var line := lines[i - 1];
      assert lines[i - 1..][1..] == lines[i..];
      var length := Bytes(line) + 1;
      if total + length > maxChars && i - 1 < |lines| - 1 {
        return i;
      }
      total := total + length;
      i := i - 1;
    }
  }

  method JoinLines(lines: seq<string>) returns (result: string)
    requires lines != []
    ensures result == Join(lines, "\n")
  {
    result := "";
    for i := 0 to |lines|
      invariant result + Ended(lines[i..]) == Ended(lines)
    {
      assert lines[i..][1..] == lines[i + 1..];
      result := result + lines[i];
      result := result + "\n";
    }
    EndedIsJoin(lines);
    assert result == Join(lines, "\n") + "\n";
    if |result| > 0 && result[|result| - 1] == '\n' {
      result := result[..|result| - 1];
    }
  }

  // Each line with a newline after it.
  function Ended(lines: seq<string>): string {
    if lines == [] then "" else lines[0] + "\n" + Ended(lines[1..])
  }

  lemma {:induction false} EndedIsJoin(lines: seq<string>)
    requires lines != []
    ensures Ended(lines) == Join(lines, "\n") + "\n"
  {
    if |lines| > 1 {
      EndedIsJoin(lines[1..]);
    }
  }

  lemma NoMessages(rounds: int, maxChars: int)
    ensures Excerpt([], rounds, maxChars) == ""
  {
  }

  /** The excerpt: the longest run of the latest text lines, back to the rounds-th user line, that fits. */
  method ExtractConversationContext(ms: seq<Message>, recentRounds: int, maxChars: int) returns (result: string)
    ensures result == Excerpt(ms, recentRounds, maxChars)
  {
    hide Lines, Recent, MessageHasImage, Join, CutFrom, Backwards;
    NoMessages(recentRounds, maxChars);
    if recentRounds <= 0 || maxChars <= 0 || |ms| == 0 {
      return "";
    }
    var n := |ms|;
    var excludeLast := ms[n - 1].role == USER && MessageHasImage(ms[n - 1]);
    var collected := CollectBack(ms, if excludeLast then n - 1 else n, recentRounds);
    assert ms[..n] == ms;
    if |collected| == 0 {
      return "";
    }
    var a := new Line[|collected|](i requires 0 <= i < |collected| => collected[i]);
    assert a[..] == collected;
    Reverse(a);
    var formatted := Formatted(a[..]);
    var cutFrom := FindCut(formatted, maxChars);
    result := JoinLines(formatted[cutFrom..]);
  }
}