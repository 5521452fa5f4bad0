/**
  Whole requests: what is decoded from a body, how system messages move to the top level, which image
  blocks are found, and what the body is after they were replaced in any order.
*/
module Requests {
  import opened Basics
  import opened Content
  import opened Rewrite

  // isNil, as for blocks.
  datatype Message = Message(role: string, content: seq<Block>, isNil: bool)

  datatype Request = Request(
    model: string, messages: seq<Message>, isNil: bool, maxTokens: int, system: seq<Block>, stream: bool)

  const USER := "user"
  const ASSISTANT := "assistant"
  const SYSTEM := "system"

  // ---------- Decoding and encoding; only the declared fields are kept ----------

  function DecodeInt(j: Json): Option<int> {
    match j
    case Null => Some(0)
    case Int(n) => Some(n)
    case _ => None
  }

  function DecodeField(fields: map<string, Json>, key: string): Option<seq<Block>> {
    if key in fields then DecodeContent(fields[key]) else Some([])
  }

  function DecodeMessage(j: Json): Option<Message> {
    match j
    case Null => Some(Message("", [], true))
    case Obj(f) =>
      var role, content := DecodeString(Field(f, "role")), DecodeField(f, "content");
      if role.Some? && content.Some? then Some(Message(role.value, content.value, ContentIsNil(Field(f, "content"))))
          else None
    case _ => None
  }

  function DecodeMessages(items: seq<Json>): (r: Option<seq<Message>>)
    ensures r.Some? ==> |r.value| == |items|
  {
    if items == [] then Some([])
    else
      var first, rest := DecodeMessage(items[0]), DecodeMessages(items[1..]);
      if first.Some? && rest.Some? then Some([first.value] + rest.value) else None
  }

  // The messages of a body, as JSON; None if the field is neither an array nor null.
  function MessageItems(j: Json): Option<seq<Json>> {
    match j
    case Null => Some([])
    case Arr(items) => Some(items)
    case _ => None
  }

  function DecodeRequest(j: Json): Option<Request> {
    match j
    case Null => Some(Request("", [], true, 0, [], false))
    case Obj(f) =>
      var model, items := DecodeString(Field(f, "model")), MessageItems(Field(f, "messages"));
      var maxTokens, stream := DecodeInt(Field(f, "max_tokens")), DecodeBool(Field(f, "stream"));
      var system := DecodeField(f, "system");
      if model.None? || items.None? || maxTokens.None? || stream.None? || system.None? then None
      else
        var messages := DecodeMessages(items.value);
        if messages.None? then None
        else Some(Request(model.value, messages.value, Field(f, "messages").Null?, maxTokens.value, system.value,
            stream.value))
    case _ => None
  }

  function EncodeMessage(m: Message): Json {
    Obj(map["role" := Str(m.role), "content" := if m.isNil then Null else Arr(EncodeBlocks(m.content))])
  }

  function EncodeMessages(ms: seq<Message>): seq<Json> {
    seq(|ms|, i requires 0 <= i < |ms| => EncodeMessage(ms[i]))
  }

  function BodyJson(model: string, messages: Json, maxTokens: int, system: seq<Json>, stream: bool): Json {
    Obj(map["model" := Str(model), "messages" := messages, "max_tokens" := Int(maxTokens)]
        + (if system != [] then map["system" := Arr(system)] else map[])
        + if stream then map["stream" := Bool(true)] else map[])
  }

  function EncodeRequest(r: Request): Json {
    BodyJson(r.model, if r.isNil then Null else Arr(EncodeMessages(r.messages)), r.maxTokens, EncodeBlocks(r.system),
        r.stream)
  }

  // ---------- System messages ----------

  function Kept(ms: seq<Message>): seq<Message> {
    if ms == [] then [] else (if ms[0].role == SYSTEM then [] else [ms[0]]) + Kept(ms[1..])
  }

  // The blocks of the system messages, in order.
  function Moved(ms: seq<Message>): seq<Block> {
    if ms == [] then [] else (if ms[0].role == SYSTEM then ms[0].content else []) + Moved(ms[1..])
  }

  function SystemCount(ms: seq<Message>): nat {
    if ms == [] then 0 else (if ms[0].role == SYSTEM then 1 else 0) + SystemCount(ms[1..])
  }

  function Normalized(r: Request): Request {
    r.(messages := Kept(r.messages), system := r.system + Moved(r.messages),
       isNil := if SystemCount(r.messages) > 0 then Kept(r.messages) == [] else r.isNil)
  }

  predicate NoSystem(ms: seq<Message>) {
    forall i :: 0 <= i < |ms| ==> ms[i].role != SYSTEM
  }

  lemma {:induction false} KeptFacts(ms: seq<Message>)
    ensures |Kept(ms)| + SystemCount(ms) == |ms| && NoSystem(Kept(ms))
    ensures SystemCount(ms) == 0 ==> Kept(ms) == ms && Moved(ms) == []
    ensures NoSystem(ms) <==> SystemCount(ms) == 0
  {
    if ms != [] {
      KeptFacts(ms[1..]);
      assert ms == [ms[0]] + ms[1..];
    }
  }

  /** Normalising changes a request exactly when it holds a system message, and a second time never. */
  lemma NormalizeOnce(r: Request)
    ensures NoSystem(Normalized(r).messages) && Normalized(Normalized(r)) == Normalized(r)
    ensures |Normalized(r).messages| + SystemCount(r.messages) == |r.messages|
    ensures Normalized(r) == r <==> NoSystem(r.messages)
  {
    KeptFacts(r.messages);
    KeptFacts(Kept(r.messages));
    assert r.system + [] == r.system;
    assert Normalized(r).system + [] == Normalized(r).system;
  }

  // ---------- Finding and replacing images ----------

  function FindImages(r: Request): seq<Path> {
    FindInMessages(r.messages, 0)
  }

  function FindInMessages(ms: seq<Message>, i: nat): seq<Path>
    decreases |ms| - i
  {
    if i >= |ms| then []
    else (if ms[i].role == USER then FindInBlocks(ms[i].content, i, 0) else []) + FindInMessages(ms, i + 1)
  }

  function FindInBlocks(content: seq<Block>, i: nat, j: nat): seq<Path>
    decreases |content| - j
  {
    if j >= |content| then []
    else Find(content[j], [i, j], 0) + FindInBlocks(content, i, j + 1)
  }

  function RewriteBlocks(content: seq<Block>, i: nat, f: Path -> string): seq<Block> {
    seq(|content|, j requires 0 <= j < |content| => RewriteBlock(content[j], [i, j], 0, f))
  }

  function RewriteMessage(m: Message, i: nat, f: Path -> string): Message {
    if m.role == USER then m.(content := RewriteBlocks(m.content, i, f)) else m
  }

  // The request with every image of a user message replaced.
  function RewriteRequest(r: Request, f: Path -> string): Request {
    r.(messages := seq(|r.messages|, i requires 0 <= i < |r.messages| => RewriteMessage(r.messages[i], i, f)))
  }

  // p leads to a block of the request: message, block, and on from there.
  predicate InRequest(r: Request, p: Path) {
    |p| >= 2 && p[0] < |r.messages| && p[1] < |r.messages[p[0]].content|
  }

  // The request with the block at path p replaced in place.
  function ReplaceIn(r: Request, p: Path, text: string): Request {
    if !InRequest(r, p) then r
    else
      var m := r.messages[p[0]];
      r.(messages := r.messages[p[0] := m.(content := m.content[p[1] := ReplaceAt(m.content[p[1]], p[2..], text)])])
  }

  // Replacements one after the other.
  function ReplaceEach(r: Request, order: seq<Path>, f: Path -> string): Request {
    if order == [] then r
    else ReplaceIn(ReplaceEach(r, order[..|order| - 1], f), order[|order| - 1], f(order[|order| - 1]))
  }

  // ---------- A request as one tree ----------
  // The root's children are the messages; a user message is opened, like a tool_result. The blocks of
  // a message are then at depth 0.

  const ROOT_DEPTH := -2

  function Node(m: Message): Block {
    Block(None, if m.role == USER then TOOL_RESULT else "", "", None, m.content, false, false)
  }

  function Tree(r: Request): Block {
    Block(None, TOOL_RESULT, "", None, seq(|r.messages|, i requires 0 <= i < |r.messages| => Node(r.messages[i])),
        false, false)
  }

  lemma {:induction false} FindInBlocksIsFind(m: Message, i: nat, j: nat)
    requires j <= |m.content|
    ensures FindInBlocks(m.content, i, j) == FindFrom(Node(m), [i], ROOT_DEPTH + 1, j)
    decreases |m.content| - j
  {
    if j < |m.content| {
      assert [i] + [j] == [i, j];
      FindInBlocksIsFind(m, i, j + 1);
    }
  }

  lemma {:induction false} FindInMessagesIsFind(r: Request, i: nat)
    requires i <= |r.messages|
    ensures FindInMessages(r.messages, i) == FindFrom(Tree(r), [], ROOT_DEPTH, i)
    decreases |r.messages| - i
  {
    if i < |r.messages| {
      assert [] + [i] == [i];
      FindInBlocksIsFind(r.messages[i], i, 0);
      FindInMessagesIsFind(r, i + 1);
    }
  }

  lemma TreeFind(r: Request)
    ensures FindImages(r) == Find(Tree(r), [], ROOT_DEPTH)
  {
    FindInMessagesIsFind(r, 0);
  }

  lemma TreeRewriteMessage(m: Message, i: nat, f: Path -> string)
    ensures RewriteBlock(Node(m), [i], ROOT_DEPTH + 1, f) == Node(RewriteMessage(m, i, f))
  {
    if m.role == USER {
      forall j | 0 <= j < |m.content|
        ensures RewriteFrom(Node(m), [i], ROOT_DEPTH + 1, f, 0)[j] == RewriteBlocks(m.content, i, f)[j]
      {
        RewriteFromAt(Node(m), [i], ROOT_DEPTH + 1, f, 0, j);
        assert [i] + [j] == [i, j];
      }
      assert RewriteFrom(Node(m), [i], ROOT_DEPTH + 1, f, 0) == RewriteBlocks(m.content, i, f);
    }
  }

  lemma TreeRewrite(r: Request, f: Path -> string)
    ensures Tree(RewriteRequest(r, f)) == RewriteBlock(Tree(r), [], ROOT_DEPTH, f)
  {
    var t := Tree(RewriteRequest(r, f));
    forall i | 0 <= i < |r.messages| ensures t.content[i] == RewriteFrom(Tree(r), [], ROOT_DEPTH, f, 0)[i] {
      TreeRewriteMessage(r.messages[i], i, f);
      RewriteFromAt(Tree(r), [], ROOT_DEPTH, f, 0, i);
      assert [] + [i] == [i];
    }
    assert t.content == RewriteFrom(Tree(r), [], ROOT_DEPTH, f, 0);
  }

  lemma TreeReplace(r: Request, p: Path, text: string)
    requires InRequest(r, p)
    ensures Tree(ReplaceIn(r, p, text)) == ReplaceAt(Tree(r), p, text)
  {
    var t, node := Tree(ReplaceIn(r, p, text)), Node(r.messages[p[0]]);
    assert p[1..][0] == p[1] && p[1..][1..] == p[2..];
    assert t.content[p[0]] == ReplaceAt(node, p[1..], text);
    assert t.content == ReplaceAt(Tree(r), p, text).content;
  }

  /** FindImageBlocks finds a path exactly when it leads to an eligible image of a user message. */
  lemma FindImagesIsEligible(r: Request, p: Path)
    ensures p in FindImages(r) <==>
            InRequest(r, p) && r.messages[p[0]].role == USER && Eligible(r.messages[p[0]].content[p[1]], p[2..], 0)
  {
    TreeFind(r);
    FindIsEligible(Tree(r), [], ROOT_DEPTH, p);
    assert p[0..] == p;
    EligibleInTree(r, p);
  }

  lemma EligibleInTree(r: Request, p: Path)
    ensures Eligible(Tree(r), p, ROOT_DEPTH) <==>
            InRequest(r, p) && r.messages[p[0]].role == USER && Eligible(r.messages[p[0]].content[p[1]], p[2..], 0)
  {
    if |p| > 1 {
      assert p[1..][0] == p[1] && p[1..][1..] == p[2..];
    }
  }

  /** Each image is found once, and none of them lies inside another. */
  lemma FoundOnceAndApart(r: Request)
    ensures Distinct(FindImages(r))
    ensures forall p, q :: p in FindImages(r) && q in FindImages(r) && p <= q ==> p == q
  {
    TreeFind(r);
    FindOnce(Tree(r), [], ROOT_DEPTH);
    forall p, q | p in FindImages(r) && q in FindImages(r) && p <= q ensures p == q {
      FoundImagesAreDisjoint(Tree(r), [], ROOT_DEPTH, p, q);
    }
  }

  /** The images are found in document order. */
  lemma FoundInOrder(r: Request, i: nat, j: nat)
    requires i < j < |FindImages(r)|
    ensures Before(FindImages(r)[i], FindImages(r)[j])
  {
    TreeFind(r);
    FindAscends(Tree(r), [], ROOT_DEPTH, i, j);
  }

  /** After the rewrite a second search finds nothing. */
  lemma SecondSearchFindsNothing(r: Request, f: Path -> string)
    ensures FindImages(RewriteRequest(r, f)) == []
  {
    TreeFind(RewriteRequest(r, f));
    TreeRewrite(r, f);
    RewriteLeavesNoImage(Tree(r), [], ROOT_DEPTH, f, []);
  }

  // Same request but for the contents of the messages, whose numbers of blocks agree.
  predicate SameFrame(r: Request, s: Request) {
    && s == r.(messages := s.messages) && |s.messages| == |r.messages|
    && forall i :: 0 <= i < |r.messages| ==>
        && s.messages[i].role == r.messages[i].role && s.messages[i].isNil == r.messages[i].isNil
        && |s.messages[i].content| == |r.messages[i].content|
  }

  lemma SameTree(r: Request, s: Request)
    requires SameFrame(r, s) && Tree(r) == Tree(s)
    ensures r == s
  {
    forall i | 0 <= i < |r.messages| ensures r.messages[i] == s.messages[i] {
      assert Tree(r).content[i] == Tree(s).content[i];
    }
    assert r.messages == s.messages;
  }

  lemma {:induction false} EachMarksOne(r: Request, order: seq<Path>, f: Path -> string)
    requires Distinct(order) && forall p :: p in order ==> p in FindImages(r)
    ensures SameFrame(r, ReplaceEach(r, order, f))
    ensures Tree(ReplaceEach(r, order, f)) == Marked(Tree(r), [], ROOT_DEPTH, f, Elements(order))
  {
    if order == [] {
      MarkedNone(Tree(r), [], ROOT_DEPTH, f);
      assert Elements(order) == {};
    } else {
      hide Marked, Tree, SameFrame, ReplaceIn, FindImages;
      var before, p := order[..|order| - 1], order[|order| - 1];
      EachMarksOne(r, before, f);
      assert p in order && p !in before;
      OneMore(r, ReplaceEach(r, before, f), Elements(before), p, f);
      assert Elements(order) == Elements(before) + {p};
    }
  }

  // s is r with the images in `done` replaced; replacing one more marks one more.
  lemma OneMore(r: Request, s: Request, done: set<Path>, p: Path, f: Path -> string)
    requires SameFrame(r, s) && Tree(s) == Marked(Tree(r), [], ROOT_DEPTH, f, done)
    requires p in FindImages(r) && p !in done
    ensures SameFrame(r, ReplaceIn(s, p, f(p)))
    ensures Tree(ReplaceIn(s, p, f(p))) == Marked(Tree(r), [], ROOT_DEPTH, f, done + {p})
  {
    hide Marked, Eligible, Tree, ReplaceAt;
    FindImagesIsEligible(r, p);
    EligibleInTree(r, p);
    TreeReplace(s, p, f(p));
    assert [] + p == p;
    MarkOneMore(Tree(r), [], ROOT_DEPTH, f, done, p);
  }

  /** Whatever order the replacements finish in, the request is the same: every image is replaced by
      its text and nothing else has changed. */
  lemma AnyOrderGivesTheRewrite(r: Request, order: seq<Path>, f: Path -> string)
    requires Distinct(order) && forall p :: p in order <==> p in FindImages(r)
    ensures ReplaceEach(r, order, f) == RewriteRequest(r, f)
  {
    EachMarksOne(r, order, f);
    TreeFind(r);
    MarkedAll(Tree(r), [], ROOT_DEPTH, f, Elements(order));
    TreeRewrite(r, f);
    SameTree(ReplaceEach(r, order, f), RewriteRequest(r, f));
  }
}
