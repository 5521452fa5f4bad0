/** Which texts an excerpt holds and in which form, told from the messages alone. */
module Excerpts {
  import opened Basics
  import opened Content
  import opened Rewrite
  import opened Requests
  import opened Context

  // ---------- The texts of a message ----------

  // p leads from b through tool_results to a text block with text.
  predicate LeadsToText(b: Block, p: Path)
    decreases |p|
  {
    if p == [] then b.typ == "text" && b.text != ""
    else b.typ == "tool_result" && p[0] < |b.content| && LeadsToText(b.content[p[0]], p[1..])
  }

  function TextAlong(b: Block, p: Path): string
    requires LeadsToText(b, p)
    decreases |p|
  {
    if p == [] then b.text else TextAlong(b.content[p[0]], p[1..])
  }

  // The paths to the texts of b, which stands under `depth` layers, and of the blocks of a content.
  function Paths(b: Block, depth: nat): seq<Path>
    decreases MAX_DEPTH - depth, 0
  {
    if depth >= MAX_DEPTH then []
    else if b.typ == TEXT && b.text != "" then [[]]
    else if b.typ == TOOL_RESULT then PathsIn(b.content, depth + 1)
    else []
  }

  function PathsIn(blocks: seq<Block>, depth: nat): seq<Path>
    decreases MAX_DEPTH - depth, 1, |blocks|
  {
    if blocks == [] then []
    else PathsIn(blocks[..|blocks| - 1], depth) + Under(|blocks| - 1, Paths(Last(blocks), depth))
  }

  function Last(blocks: seq<Block>): Block
    requires blocks != []
  {
    blocks[|blocks| - 1]
  }

  function Under(k: nat, ps: seq<Path>): (r: seq<Path>)
    ensures |r| == |ps| && forall i :: 0 <= i < |ps| ==> r[i] == [k] + ps[i]
  {
    seq(|ps|, i requires 0 <= i < |ps| => [k] + ps[i])
  }

  lemma {:induction false} AsManyPaths(b: Block, depth: nat)
    ensures |Paths(b, depth)| == |CollectText(b, depth)|
    decreases MAX_DEPTH - depth, 0
  {
    if depth < MAX_DEPTH {
      AsManyPathsIn(b.content, depth + 1);
    }
  }

  lemma {:induction false} AsManyPathsIn(blocks: seq<Block>, depth: nat)
    ensures |PathsIn(blocks, depth)| == |CollectTexts(blocks, depth)|
    decreases MAX_DEPTH - depth, 1, |blocks|
  {
    if blocks != [] {
      AsManyPathsIn(blocks[..|blocks| - 1], depth);
      AsManyPaths(Last(blocks), depth);
    }
  }

  // p leads to the text from b, or from the block of a content it names first.
  predicate Shows(b: Block, p: Path, text: string) {
    LeadsToText(b, p) && TextAlong(b, p) == text
  }

  predicate ShowsIn(blocks: seq<Block>, p: Path, text: string) {
    p != [] && p[0] < |blocks| && Shows(blocks[p[0]], p[1..], text)
  }

  lemma {:induction false} PathShows(b: Block, depth: nat, k: nat)
    requires k < |Paths(b, depth)| == |CollectText(b, depth)|
    ensures Shows(b, Paths(b, depth)[k], CollectText(b, depth)[k]) && depth + |Paths(b, depth)[k]| < 16
    decreases MAX_DEPTH - depth, 0
  {
    if b.typ == TOOL_RESULT {
      PathShowsIn(b.content, depth + 1, k);
    }
  }

  lemma {:induction false} PathShowsIn(blocks: seq<Block>, depth: nat, k: nat)
    requires k < |PathsIn(blocks, depth)| == |CollectTexts(blocks, depth)|
    ensures ShowsIn(blocks, PathsIn(blocks, depth)[k], CollectTexts(blocks, depth)[k])
    ensures depth + |PathsIn(blocks, depth)[k]| <= 16
    decreases MAX_DEPTH - depth, 1, |blocks|
  {
    hide Shows, Paths, CollectText;
    var front := blocks[..|blocks| - 1];
    AsManyPathsIn(front, depth);
    AsManyPaths(Last(blocks), depth);
    if k < |PathsIn(front, depth)| {
      PathShowsIn(front, depth, k);
    } else {
      var i := k - |PathsIn(front, depth)|;
      PathShows(Last(blocks), depth, i);
      assert ([|blocks| - 1] + Paths(Last(blocks), depth)[i])[1..] == Paths(Last(blocks), depth)[i];
    }
  }

  lemma {:induction false} PathFound(b: Block, depth: nat, p: Path) returns (k: nat)
    requires LeadsToText(b, p) && depth + |p| < 16
    ensures k < |Paths(b, depth)| && Paths(b, depth)[k] == p
    decreases MAX_DEPTH - depth, 0
  {
    if p == [] {
      k := 0;
    } else {
      k := PathFoundIn(b.content, depth + 1, p);
    }
  }

  lemma {:induction false} PathFoundIn(blocks: seq<Block>, depth: nat, p: Path) returns (k: nat)
    requires p != [] && p[0] < |blocks| && LeadsToText(blocks[p[0]], p[1..]) && depth + |p| <= 16
    ensures k < |PathsIn(blocks, depth)| && PathsIn(blocks, depth)[k] == p
    decreases MAX_DEPTH - depth, 1, |blocks|
  {
    hide LeadsToText, Paths;
    var n := |blocks| - 1;
    if p[0] < n {
      k := PathFoundIn(blocks[..n], depth, p);
    } else {
      var i := PathFound(blocks[n], depth, p[1..]);
      k := |PathsIn(blocks[..n], depth)| + i;
      assert [n] + p[1..] == p;
    }
  }

  lemma {:induction false} PathsAscend(b: Block, depth: nat, i: nat, j: nat)
    requires i < j < |Paths(b, depth)|
    ensures Before(Paths(b, depth)[i], Paths(b, depth)[j])
    decreases MAX_DEPTH - depth, 0
  {
    if b.typ == TOOL_RESULT {
      PathsInAscend(b.content, depth + 1, i, j);
    }
  }

  lemma {:induction false} PathsInAscend(blocks: seq<Block>, depth: nat, i: nat, j: nat)
    requires i < j < |PathsIn(blocks, depth)|
    ensures Before(PathsIn(blocks, depth)[i], PathsIn(blocks, depth)[j])
    decreases MAX_DEPTH - depth, 1, |blocks|
  {
    hide Paths;
    var n := |blocks| - 1;
    var m := |PathsIn(blocks[..n], depth)|;
    if j < m {
      PathsInAscend(blocks[..n], depth, i, j);
    } else {
      var q := Paths(Last(blocks), depth)[j - m];
      assert ([n] + q)[1..] == q;
      if i < m {
        AsManyPathsIn(blocks[..n], depth);
        PathShowsIn(blocks[..n], depth, i);
      } else {
        var p := Paths(Last(blocks), depth)[i - m];
        assert ([n] + p)[1..] == p;
        PathsAscend(Last(blocks), depth, i - m, j - m);
      }
    }
  }

  /** The text of a message is, joined by spaces, the non-empty texts of all its text blocks under fewer than 16
      layers of tool_results, each once and in document order, and nothing else. */
  lemma MessageTextIs(m: Message) returns (texts: seq<string>, paths: seq<Path>)
    ensures MessageText(m) == Join(texts, " ") && |paths| == |texts|
    ensures forall k :: 0 <= k < |paths| ==> ShowsIn(m.content, paths[k], texts[k]) && |paths[k]| <= 16
    ensures forall p: Path, text :: ShowsIn(m.content, p, text) && |p| <= 16 ==> p in paths
    ensures forall i, j :: 0 <= i < j < |paths| ==> Before(paths[i], paths[j])
  {
    hide PathsIn, CollectTexts, ShowsIn, Before;
    texts, paths := CollectTexts(m.content, 0), PathsIn(m.content, 0);
    AsManyPathsIn(m.content, 0);
    forall k | 0 <= k < |paths| ensures ShowsIn(m.content, paths[k], texts[k]) && |paths[k]| <= 16 {
      PathShowsIn(m.content, 0, k);
    }
    forall p: Path, text | ShowsIn(m.content, p, text) && |p| <= 16 ensures p in paths {
      ShownLeads(m.content, p, text);
      var k := PathFoundIn(m.content, 0, p);
    }
    forall i, j | 0 <= i < j < |paths| ensures Before(paths[i], paths[j]) {
      PathsInAscend(m.content, 0, i, j);
    }
  }

  lemma ShownLeads(blocks: seq<Block>, p: Path, text: string)
    requires ShowsIn(blocks, p, text)
    ensures p != [] && p[0] < |blocks| && LeadsToText(blocks[p[0]], p[1..])
  {
  }

  // ---------- The messages of an excerpt ----------

  // The role is the word, letter by letter in lower or upper case.
  predicate Spells(role: string, lower: string, upper: string)
    requires |lower| == |upper|
  {
    |role| == |lower| && forall i :: 0 <= i < |role| ==> role[i] == lower[i] || role[i] == upper[i]
  }

  predicate IsUser(role: string) {
    Spells(role, "user", "USER")
  }

  predicate IsAssistant(role: string) {
    Spells(role, "assistant", "ASSISTANT")
  }

  lemma RoleSpelled(role: string)
    ensures ToLower(role) == "user" <==> IsUser(role)
    ensures ToLower(role) == "assistant" <==> IsAssistant(role)
  {
    SpelledLower(role, "user", "USER");
    SpelledLower(role, "assistant", "ASSISTANT");
  }

  lemma SpelledLower(role: string, lower: string, upper: string)
    requires |lower| == |upper|
    requires forall i :: 0 <= i < |lower| ==> 'a' <= lower[i] <= 'z' && upper[i] == lower[i] - 'a' + 'A'
    ensures ToLower(role) == lower <==> Spells(role, lower, upper)
  {
    if Spells(role, lower, upper) {
      assert ToLower(role) == lower;
    }
  }

  // Message i is from the user or the assistant and holds text, and it is not a user's last message with an image.
  ghost predicate Speaks(ms: seq<Message>, i: nat) {
    && i < |ms| && (IsUser(ms[i].role) || IsAssistant(ms[i].role)) && MessageText(ms[i]) != ""
    && !(i == |ms| - 1 && ms[i].role == "user" && ShowsImage(ms[i]))
  }

  // An image under fewer than 16 layers of tool_results.
  ghost predicate ShowsImage(m: Message) {
    exists k: nat, p: Path :: k < |m.content| && Eligible(m.content[k], p, 0) && |p| < 16
  }

  lemma ImageIsShown(m: Message)
    ensures MessageHasImage(m) <==> ShowsImage(m)
  {
    hide Eligible, HasImage;
    forall k: nat | k < |m.content|
      ensures HasImage(m.content[k], 0) <==> exists p: Path :: Eligible(m.content[k], p, 0) && |p| < 16
    {
      HasImageStopsOneLayerSooner(m.content[k], 0);
    }
  }

  // The messages that have a line, by their places.
  function Speakers(ms: seq<Message>): seq<nat> {
    if ms == [] then []
    else Speakers(ms[..|ms| - 1]) + if LineOf(ms[|ms| - 1]) == [] then [] else [|ms| - 1]
  }

  ghost predicate Rising(places: seq<nat>) {
    forall i, j :: 0 <= i < j < |places| ==> places[i] < places[j]
  }

  lemma {:induction false} LinesAreSpeakers(ms: seq<Message>)
    ensures |Speakers(ms)| == |Lines(ms)| && Rising(Speakers(ms))
    ensures forall k :: 0 <= k < |Speakers(ms)| ==>
              Speakers(ms)[k] < |ms| && LineOf(ms[Speakers(ms)[k]]) == [Lines(ms)[k]]
  {
    if ms != [] {
      var n := |ms| - 1;
      LinesAreSpeakers(ms[..n]);
      OneLineAtMost(ms[n]);
    }
  }

  lemma OneLineAtMost(m: Message)
    ensures LineOf(m) == [] || (|LineOf(m)| == 1 && LineOf(m)[0] == Line(ToLower(m.role), MessageText(m)))
    ensures LineOf(m) != [] <==> (IsUser(m.role) || IsAssistant(m.role)) && MessageText(m) != ""
    ensures LineOf(m) != [] ==> ToLower(m.role) == if IsUser(m.role) then "user" else "assistant"
  {
    RoleSpelled(m.role);
    hide ToLower, MessageText, Spells;
  }

  lemma {:induction false} SpeakerFound(ms: seq<Message>, i: nat) returns (k: nat)
    requires i < |ms| && LineOf(ms[i]) != []
    ensures k < |Speakers(ms)| && Speakers(ms)[k] == i
  {
    if i == |ms| - 1 {
      k := |Speakers(ms)| - 1;
    } else {
      k := SpeakerFound(ms[..|ms| - 1], i);
    }
  }

  // How a message stands in the excerpt.
  function LineText(m: Message): string {
    (if IsUser(m.role) then "[user] " else "[assistant] ") + MessageText(m)
  }

  // The lines of the messages at the places, one below the other.
  function Printed(ms: seq<Message>, places: seq<nat>): string
    requires forall k :: 0 <= k < |places| ==> places[k] < |ms|
  {
    if places == [] then ""
    else if |places| == 1 then LineText(ms[places[0]])
    else LineText(ms[places[0]]) + "\n" + Printed(ms, places[1..])
  }

  lemma LineIsFormatted(m: Message, line: Line)
    requires LineOf(m) == [line]
    ensures LineText(m) == Format(line)
  {
    hide ToLower, MessageText, Spells, LineOf;
    OneLineAtMost(m);
    assert "[" + "user" + "] " == "[user] " && "[" + "assistant" + "] " == "[assistant] ";
  }

  lemma {:induction false} PrintedIsJoined(ms: seq<Message>, places: seq<nat>, lines: seq<Line>)
    requires |places| == |lines|
    requires forall k :: 0 <= k < |places| ==> places[k] < |ms| && LineOf(ms[places[k]]) == [lines[k]]
    ensures Printed(ms, places) == Join(Formatted(lines), "\n")
  {
    if places != [] {
      hide ToLower, MessageText, LineOf, Spells;
      OneLineAtMost(ms[places[0]]);
      LineIsFormatted(ms[places[0]], lines[0]);
      assert Formatted(lines)[1..] == Formatted(lines[1..]);
      PrintedIsJoined(ms, places[1..], lines[1..]);
    }
  }

  // The last n messages that speak.
  ghost predicate LastSpeakers(ms: seq<Message>, places: seq<nat>) {
    && Rising(places) && (forall k :: 0 <= k < |places| ==> Speaks(ms, places[k]))
    && forall i: nat :: Speaks(ms, i) && places != [] && i >= places[0] ==> i in places
  }

  lemma SpeakersSpeak(ms: seq<Message>, i: nat)
    ensures Speaks(ms, i) <==> i < |Considered(ms)| && LineOf(Considered(ms)[i]) != []
  {
    hide MessageText, ToLower, MessageHasImage, ShowsImage, Spells, LineOf;
    if i < |ms| {
      OneLineAtMost(ms[i]);
      ImageIsShown(ms[i]);
    }
  }

  // Any end of the list of speakers is what it should be.
  lemma EndsAreLastSpeakers(ms: seq<Message>, start: nat)
    requires start <= |Speakers(Considered(ms))|
    ensures LastSpeakers(ms, Speakers(Considered(ms))[start..])
  {
    hide Speakers, Considered, LineOf, Speaks, Lines;
    var all := Speakers(Considered(ms));
    LinesAreSpeakers(Considered(ms));
    forall k | 0 <= k < |all| ensures Speaks(ms, all[k]) {
      SpeakersSpeak(ms, all[k]);
    }
    forall i: nat | Speaks(ms, i) && start < |all| && i >= all[start] ensures i in all[start..] {
      SpeakersSpeak(ms, i);
      var k := SpeakerFound(Considered(ms), i);
      assert all[start..][k - start] == i;
    }
  }

  lemma NothingPrinted(ms: seq<Message>)
    ensures Printed(ms, []) == "" && Join(Formatted([]), "\n") == ""
  {
  }

  lemma RecentIsThere(lines: seq<Line>, rounds: nat)
    requires rounds > 0
    ensures Recent(lines, rounds) == [] <==> lines == []
  {
  }

  lemma ConsideredAreFirst(ms: seq<Message>)
    ensures |Considered(ms)| <= |ms| && forall k :: 0 <= k < |Considered(ms)| ==> Considered(ms)[k] == ms[k]
  {
  }

  lemma SpeakersExist(ms: seq<Message>)
    ensures Speakers(Considered(ms)) == [] <==> forall i: nat :: !Speaks(ms, i)
  {
    hide Considered, Speaks, Speakers, LineOf;
    var all := Speakers(Considered(ms));
    LinesAreSpeakers(Considered(ms));
    if all != [] {
      SpeakersSpeak(ms, all[0]);
    }
    forall i: nat | Speaks(ms, i) ensures all != [] {
      SpeakersSpeak(ms, i);
      var k := SpeakerFound(Considered(ms), i);
    }
  }

  lemma FormattedTail(lines: seq<Line>, cut: nat)
    requires cut <= |lines|
    ensures Formatted(lines)[cut..] == Formatted(lines[cut..])
  {
    hide Format;
  }

  // The messages whose lines are the last ones are printed as these lines joined.
  lemma TailIsPrinted(ms: seq<Message>, from: nat)
    requires from <= |Lines(Considered(ms))|
    ensures var places := Speakers(Considered(ms));
            && |places| == |Lines(Considered(ms))| && (forall k :: 0 <= k < |places| ==> places[k] < |ms|)
            && Printed(ms, places[from..]) == Join(Formatted(Lines(Considered(ms))[from..]), "\n")
  {
    hide Lines, Considered, LineOf, Speakers, Printed, Join, Formatted;
    LinesAreSpeakers(Considered(ms));
    ConsideredAreFirst(ms);
    PrintedIsJoined(ms, Speakers(Considered(ms))[from..], Lines(Considered(ms))[from..]);
  }

  /** An excerpt is the lines of the last messages that speak, each as "[user] text" or "[assistant] text",
      down to the last of them; it is empty only if none speaks or no rounds or bytes are asked for. */
  lemma ExcerptIsTheLastSpeakers(ms: seq<Message>, rounds: int, maxChars: int) returns (places: seq<nat>)
    ensures LastSpeakers(ms, places)
    ensures places == [] <==> rounds <= 0 || maxChars <= 0 || forall i: nat :: !Speaks(ms, i)
    ensures Excerpt(ms, rounds, maxChars) == Printed(ms, places)
  {
    hide Lines, Considered, LineOf, Speaks, Speakers, LastSpeakers, Formatted, Join, CutFrom, Recent, Printed;
    var all, lines := Speakers(Considered(ms)), Lines(Considered(ms));
    TailIsPrinted(ms, |lines|);
    NothingPrinted(ms);
    SpeakersExist(ms);
    var from := |lines|;
    if rounds > 0 && maxChars > 0 && lines != [] {
      var recent := Recent(lines, rounds);
      RecentStartsAtARound(lines, rounds);
      RecentIsThere(lines, rounds);
      var cut := CutFrom(Formatted(recent), maxChars, |recent| - 1);
      FormattedTail(recent, cut);
      from := |lines| - |recent| + cut;
      assert lines[from..] == recent[cut..];
      TailIsPrinted(ms, from);
    } else if rounds > 0 {
      RecentIsThere(lines, rounds);
    }
    places := all[from..];
    EndsAreLastSpeakers(ms, from);
  }

  // ---------- Bytes ----------

  // A character in UTF-8 (section 3 of RFC 3629).
  function Utf8(c: char): seq<int> {
    var n := c as int;
    if n < 0x80 then [n]
    else if n < 0x800 then [0xC0 + n / 0x40, 0x80 + n % 0x40]
    else if n < 0x1_0000 then [0xE0 + n / 0x1000, 0x80 + n / 0x40 % 0x40, 0x80 + n % 0x40]
    else [0xF0 + n / 0x4_0000, 0x80 + n / 0x1000 % 0x40, 0x80 + n / 0x40 % 0x40, 0x80 + n % 0x40]
  }

  function Utf8All(s: string): seq<int> {
    if s == "" then [] else Utf8(s[0]) + Utf8All(s[1..])
  }

  /** The length the excerpt is measured by is that of the text in UTF-8, all of whose units are bytes. */
  lemma {:induction false} BytesAreUtf8(s: string)
    ensures |Utf8All(s)| == Bytes(s) && forall k :: 0 <= k < |Utf8All(s)| ==> 0 <= Utf8All(s)[k] < 0x100
  {
    if s != "" {
      BytesAreUtf8(s[1..]);
      CharIsUtf8(s[0]);
    }
  }

  lemma CharIsUtf8(c: char)
    ensures |Utf8(c)| == ByteLen(c) && forall k :: 0 <= k < |Utf8(c)| ==> 0 <= Utf8(c)[k] < 0x100
  {
  }
}
