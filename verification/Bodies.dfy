/**
  From the body a client sends to the body that is forwarded: validation, and the pure rewriting of
  JSON that parsing, normalising, replacing images and printing amount to.
*/
module Bodies {
  import opened Basics
  import opened Content
  import opened Rewrite
  import opened Requests

  // ---------- Validation ----------

  // What unicode.IsSpace accepts.
  predicate IsSpace(c: char) {
    || '\t' <= c <= '\r' || c == ' ' || c == '\U{85}' || c == '\U{A0}' || c == '\U{1680}'
        || '\U{2000}' <= c <= '\U{200A}'
    || c == '\U{2028}' || c == '\U{2029}' || c == '\U{202F}' || c == '\U{205F}' || c == '\U{3000}'
  }

  function TrimLeft(s: string): string {
    if s != "" && IsSpace(s[0]) then TrimLeft(s[1..]) else s
  }

  predicate ValidSource(s: ImageSource) {
    && s.typ == "base64" && s.mediaType in {"image/png", "image/jpeg", "image/webp", "image/gif"}
    && TrimLeft(s.data) != "" && !("data:" <= TrimLeft(s.data))
  }

  predicate ValidBlock(b: Block) {
    && b.typ != ""
    && (b.typ == TEXT ==> b.text != "")
    && (b.typ == IMAGE ==> b.source.Some? && ValidSource(b.source.value))
  }

  predicate ValidMessage(m: Message) {
    (m.role == USER || m.role == ASSISTANT) && m.content != [] && forall b :: b in m.content ==> ValidBlock(b)
  }

  predicate ValidRequest(r: Request) {
    r.model != "" && r.messages != [] && (forall m :: m in r.messages ==> ValidMessage(m)) && r.maxTokens >= 0
  }

  // ---------- Images of a body, told from its JSON ----------

  // p leads from j to an image through tool_result arrays only, the last under at most 16 of them.
  predicate EligibleJson(j: Json, p: Path, depth: int)
    decreases |p|
  {
    if p == [] then IsImageJson(j)
    else
      && HasType(j, TOOL_RESULT) && depth < MAX_DEPTH && Field(j.fields, "content").Arr?
      && p[0] < |j.fields["content"].items| && EligibleJson(j.fields["content"].items[p[0]], p[1..], depth + 1)
  }

  lemma {:induction false} DecodedEligible(j: Json, p: Path, depth: int)
    requires DecodeBlock(j).Some?
    ensures Eligible(DecodeBlock(j).value, p, depth) <==> EligibleJson(j, p, depth)
    decreases |p|
  {
    DecodedKinds(j);
    if p != [] && HasType(j, TOOL_RESULT) && Field(j.fields, "content").Arr? {
      var items := j.fields["content"].items;
      if p[0] < |items| {
        DecodeBlocksAt(items, p[0]);
        DecodedEligible(items[p[0]], p[1..], depth + 1);
      }
    }
  }

  function RoleOf(item: Json): string {
    if item.Obj? && Field(item.fields, "role").Str? then item.fields["role"].s else ""
  }

  function ContentOf(item: Json): Json {
    if item.Obj? then Field(item.fields, "content") else Null
  }

  // ---------- The pure rewriting of a body ----------

  function KeptItems(items: seq<Json>): seq<Json> {
    if items == [] then [] else (if RoleOf(items[0]) == SYSTEM then [] else [items[0]]) + KeptItems(items[1..])
  }

  const UNTOUCHED := MAX_DEPTH + 1  // from this depth on no image is replaced

  // Content at `here` as an array; images are replaced if it is at depth 0.
  function ContentItems(c: Json, here: Path, depth: int, f: Path -> string): seq<Json> {
    match c
    case Str(s) => if s == "" then [] else [TextJson(s)]
    case Arr(items) => RewriteItems(items, here, 0, depth, f)
    case _ => []
  }

  // The blocks of the system messages, in order.
  function MovedItems(items: seq<Json>, f: Path -> string): seq<Json> {
    if items == [] then []
    else (if RoleOf(items[0]) == SYSTEM then ContentItems(ContentOf(items[0]), [], UNTOUCHED, f) else [])
         + MovedItems(items[1..], f)
  }

  function MessageJson(item: Json, i: nat, f: Path -> string): Json {
    var content := ContentItems(ContentOf(item), [i], if RoleOf(item) == USER then 0 else UNTOUCHED, f);
    Obj(map["role" := Str(RoleOf(item)), "content" := if ContentIsNil(ContentOf(item)) then Null else Arr(content)])
  }

  function MessagesJson(items: seq<Json>, f: Path -> string): seq<Json> {
    seq(|items|, i requires 0 <= i < |items| => MessageJson(items[i], i, f))
  }

  // The body with system messages moved to the top level, the images of user messages replaced by
  // their texts, and the notice, if any, as the last system block.
  function RewrittenBody(j: Json, model: string, notice: Option<string>, f: Path -> string): Json
    requires DecodeRequest(j).Some? && j.Obj?
  {
    var items := MessageItems(Field(j.fields, "messages")).value;
    var kept := KeptItems(items);
    BodyJson(
      model,
      if (if |kept| < |items| then kept == [] else Field(j.fields, "messages").Null?) then Null
          else Arr(MessagesJson(kept, f)),
      DecodeInt(Field(j.fields, "max_tokens")).value,
      ContentItems(Field(j.fields, "system"), [], UNTOUCHED, f) + MovedItems(items, f)
      + if notice.Some? then [TextJson(notice.value)] else [],
      Field(j.fields, "stream") == Bool(true))
  }

  // ---------- The way the handler goes ----------

  function WithNotice(r: Request, notice: Option<string>): Request {
    if notice.Some? then r.(system := r.system + [TextOnly(notice.value)]) else r
  }

  // The request as it is checked and searched for images.
  function Prepared(r: Request, sanitize: string -> string): Request {
    Normalized(r.(model := sanitize(r.model)))
  }

  // The body sent on, or None for a refused request, once every image has its text.
  function Forwarded(j: Json, sanitize: string -> string, notice: string, f: Path -> string): Option<Json> {
    var parsed := DecodeRequest(j);
    if parsed.None? then Some(j)
    else
      var r := Prepared(parsed.value, sanitize);
      if !ValidRequest(r) then None
      else
        var found := FindImages(r) != [];
        var done := WithNotice(RewriteRequest(r, f), if found then Some(notice) else None);
        if found || SystemCount(parsed.value.messages) > 0 || sanitize(parsed.value.model) != parsed.value.model
        then Some(EncodeRequest(done))
        else Some(j)
  }

  // ---------- The two agree ----------

  lemma {:induction false} EncodeBlocksConcat(a: seq<Block>, b: seq<Block>)
    ensures EncodeBlocks(a + b) == EncodeBlocks(a) + EncodeBlocks(b)
  {
    forall k | 0 <= k < |a + b| ensures EncodeBlocks(a + b)[k] == (EncodeBlocks(a) + EncodeBlocks(b))[k] {
      EncodeBlocksAt(a + b, k);
      if k < |a| {
        EncodeBlocksAt(a, k);
      } else {
        EncodeBlocksAt(b, k - |a|);
      }
    }
  }

  lemma RewrittenContent(c: Json, here: Path, depth: int, f: Path -> string, blocks: seq<Block>)
    requires DecodeContent(c).Some? && |blocks| == |DecodeContent(c).value|
    requires forall k :: 0 <= k < |blocks| ==>
        blocks[k] == RewriteBlock(DecodeContent(c).value[k], here + [k], depth, f)
    ensures EncodeBlocks(blocks) == ContentItems(c, here, depth, f)
  {
    match c
    case Str(s) =>
      if s != "" {
        assert blocks == [RewriteBlock(TextOnly(s), here + [0], depth, f)];
        TextOnlyFacts(s, here + [0], depth, f);
        assert EncodeBlocks(blocks) == [TextJson(s)];
      }
    case Arr(items) =>
      ItemsArePureRewrites(items, blocks, here, depth, f);
    case _ =>
  }

  lemma PlainContent(c: Json, here: Path, f: Path -> string)
    requires DecodeContent(c).Some?
    ensures EncodeBlocks(DecodeContent(c).value) == ContentItems(c, here, UNTOUCHED, f)
  {
    RewrittenContent(c, here, UNTOUCHED, f, DecodeContent(c).value);
  }

  lemma DecodedMessage(item: Json)
    requires DecodeMessage(item).Some?
    ensures DecodeMessage(item).value.role == RoleOf(item)
    ensures DecodeContent(ContentOf(item)) == Some(DecodeMessage(item).value.content)
  {
  }

  lemma {:induction false} MessagesAt(items: seq<Json>, i: nat)
    requires DecodeMessages(items).Some? && i < |items|
    ensures DecodeMessage(items[i]) == Some(DecodeMessages(items).value[i])
  {
    if i > 0 {
      MessagesAt(items[1..], i - 1);
    }
  }

  lemma {:induction false} KeptDecoded(items: seq<Json>)
    requires DecodeMessages(items).Some?
    ensures DecodeMessages(KeptItems(items)) == Some(Kept(DecodeMessages(items).value))
  {
    if items != [] {
      DecodedMessage(items[0]);
      KeptDecoded(items[1..]);
      var kept, keptMessages := KeptItems(items[1..]), Kept(DecodeMessages(items).value[1..]);
      assert [] + kept == kept && ([items[0]] + kept)[1..] == kept;
      assert [] + keptMessages == keptMessages;
    }
  }

  lemma {:induction false} MovedDecoded(items: seq<Json>, f: Path -> string)
    requires DecodeMessages(items).Some?
    ensures EncodeBlocks(Moved(DecodeMessages(items).value)) == MovedItems(items, f)
  {
    if items != [] {
      var ms := DecodeMessages(items).value;
      DecodedMessage(items[0]);
      MovedDecoded(items[1..], f);
      PlainContent(ContentOf(items[0]), [], f);
      EncodeBlocksConcat(if ms[0].role == SYSTEM then ms[0].content else [], Moved(ms[1..]));
    }
  }

  lemma MessageContentDecoded(item: Json, i: nat, f: Path -> string)
    requires DecodeMessage(item).Some?
    ensures EncodeBlocks(RewriteMessage(DecodeMessage(item).value, i, f).content)
            == ContentItems(ContentOf(item), [i], if RoleOf(item) == USER then 0 else UNTOUCHED, f)
  {
    var m, c := DecodeMessage(item).value, ContentOf(item);
    DecodedMessage(item);
    if m.role == USER {
      forall k | 0 <= k < |m.content|
        ensures RewriteBlocks(m.content, i, f)[k] == RewriteBlock(m.content[k], [i] + [k], 0, f)
      {
        assert [i] + [k] == [i, k];
      }
      RewrittenContent(c, [i], 0, f, RewriteBlocks(m.content, i, f));
    } else {
      PlainContent(c, [i], f);
    }
  }

  lemma MessageDecoded(item: Json, i: nat, f: Path -> string)
    requires DecodeMessage(item).Some?
    ensures EncodeMessage(RewriteMessage(DecodeMessage(item).value, i, f)) == MessageJson(item, i, f)
  {
    DecodedMessage(item);
    MessageContentDecoded(item, i, f);
  }

  lemma MessagesDecoded(items: seq<Json>, f: Path -> string, r: Request)
    requires DecodeMessages(items) == Some(r.messages)
    ensures EncodeMessages(RewriteRequest(r, f).messages) == MessagesJson(items, f)
  {
    forall i | 0 <= i < |items|
      ensures EncodeMessages(RewriteRequest(r, f).messages)[i] == MessagesJson(items, f)[i]
    {
      MessagesAt(items, i);
      MessageDecoded(items[i], i, f);
    }
  }

  lemma SystemDecoded(j: Json, notice: Option<string>, f: Path -> string)
    requires DecodeRequest(j).Some? && j.Obj? && notice != Some("")
    ensures var r := DecodeRequest(j).value;
            EncodeBlocks(WithNotice(Normalized(r), notice).system)
            == ContentItems(Field(j.fields, "system"), [], UNTOUCHED, f)
               + MovedItems(MessageItems(Field(j.fields, "messages")).value, f)
               + if notice.Some? then [TextJson(notice.value)] else []
  {
    var r, items := DecodeRequest(j).value, MessageItems(Field(j.fields, "messages")).value;
    PlainContent(Field(j.fields, "system"), [], f);
    MovedDecoded(items, f);
    EncodeBlocksConcat(r.system, Moved(r.messages));
    if notice.Some? {
      EncodeBlocksConcat(Normalized(r).system, [TextOnly(notice.value)]);
      TextOnlyFacts(notice.value, [], 0, f);
      assert EncodeBlocks([TextOnly(notice.value)]) == [TextJson(notice.value)];
    }
  }

  /** Parsing a body, normalising it, replacing every image found by any text and printing the request
      is exactly the pure rewriting of the body's JSON. */
  lemma BodyIsPureRewrite(j: Json, sanitize: string -> string, notice: Option<string>, f: Path -> string)
    requires DecodeRequest(j).Some? && j.Obj? && notice != Some("")
    ensures var r := DecodeRequest(j).value;
            EncodeRequest(WithNotice(RewriteRequest(Prepared(r, sanitize), f), notice))
            == RewrittenBody(j, sanitize(r.model), notice, f)
  {
    hide EncodeBlocks, EncodeMessages, MessagesJson, ContentItems, MovedItems, KeptItems, Kept, Moved, SystemCount;
    var r, items := DecodeRequest(j).value, MessageItems(Field(j.fields, "messages")).value;
    KeptDecoded(items);
    KeptFacts(r.messages);
    MessagesDecoded(KeptItems(items), f, Prepared(r, sanitize));
    SystemDecoded(j, notice, f);
  }

  // p leads to an image of a user message of the body: message, block, and on from there. Messages are
  // counted without the system messages.
  predicate ImageOfBody(j: Json, p: Path)
    requires DecodeRequest(j).Some? && j.Obj?
  {
    var kept := KeptItems(MessageItems(Field(j.fields, "messages")).value);
    && |p| >= 2 && p[0] < |kept| && RoleOf(kept[p[0]]) == USER && ContentOf(kept[p[0]]).Arr?
    && p[1] < |ContentOf(kept[p[0]]).items| && EligibleJson(ContentOf(kept[p[0]]).items[p[1]], p[2..], 0)
  }

  lemma EligibleContent(c: Json, k: nat, p: Path)
    requires DecodeContent(c).Some?
    ensures k < |DecodeContent(c).value| && Eligible(DecodeContent(c).value[k], p, 0) <==>
            c.Arr? && k < |c.items| && EligibleJson(c.items[k], p, 0)
  {
    if c.Arr? && k < |c.items| {
      DecodeBlocksAt(c.items, k);
      DecodedEligible(c.items[k], p, 0);
    }
  }

  /** The images found are exactly those the body's JSON holds. */
  lemma FoundAreTheImagesOfTheBody(j: Json, sanitize: string -> string, p: Path)
    requires DecodeRequest(j).Some? && j.Obj?
    ensures p in FindImages(Prepared(DecodeRequest(j).value, sanitize)) <==> ImageOfBody(j, p)
  {
    var r := Prepared(DecodeRequest(j).value, sanitize);
    var items := MessageItems(Field(j.fields, "messages")).value;
    KeptDecoded(items);
    FindImagesIsEligible(r, p);
    if |p| >= 2 && p[0] < |r.messages| {
      var item := KeptItems(items)[p[0]];
      MessagesAt(KeptItems(items), p[0]);
      DecodedMessage(item);
      EligibleContent(ContentOf(item), p[1], p[2..]);
    }
  }

  ghost predicate HasImage(j: Json)
    requires DecodeRequest(j).Some? && j.Obj?
  {
    exists p :: ImageOfBody(j, p)
  }

  // Neither a system message to move, nor a model name to clean, nor an image to replace.
  ghost predicate NothingToDo(j: Json, sanitize: string -> string)
    requires DecodeRequest(j).Some? && j.Obj?
  {
    var model, items := DecodeRequest(j).value.model, MessageItems(Field(j.fields, "messages")).value;
    KeptItems(items) == items && sanitize(model) == model && !HasImage(j)
  }

  lemma {:induction false} KeptItemsShrinks(items: seq<Json>)
    ensures |KeptItems(items)| <= |items|
    ensures |KeptItems(items)| == |items| <==> KeptItems(items) == items
  {
    if items != [] {
      KeptItemsShrinks(items[1..]);
      assert items == [items[0]] + items[1..];
    }
  }

  /** What is sent upstream: a body that does not parse as it came; a refused request not at all; a body
      with nothing to do as it came; any other body purely rewritten, with the notice exactly if it held
      an image. */
  lemma ForwardedIsPureRewrite(j: Json, sanitize: string -> string, notice: string, f: Path -> string)
    requires notice != ""
    ensures DecodeRequest(j).None? ==> Forwarded(j, sanitize, notice, f) == Some(j)
    ensures DecodeRequest(j).Some? && !ValidRequest(Prepared(DecodeRequest(j).value, sanitize))
            ==> Forwarded(j, sanitize, notice, f) == None
    ensures DecodeRequest(j).Some? && ValidRequest(Prepared(DecodeRequest(j).value, sanitize)) ==>
              && j.Obj?
              && Forwarded(j, sanitize, notice, f)
                 == Some(if NothingToDo(j, sanitize) then j
                         else RewrittenBody(j, sanitize(DecodeRequest(j).value.model),
                                            if HasImage(j) then Some(notice) else None, f))
  {
    if DecodeRequest(j).Some? && ValidRequest(Prepared(DecodeRequest(j).value, sanitize)) {
      var r := DecodeRequest(j).value;
      var items := MessageItems(Field(j.fields, "messages")).value;
      var found := FindImages(Prepared(r, sanitize));
      if found != [] {
        FoundAreTheImagesOfTheBody(j, sanitize, found[0]);
      }
      forall p | ImageOfBody(j, p) ensures found != [] {
        FoundAreTheImagesOfTheBody(j, sanitize, p);
      }
      assert HasImage(j) <==> found != [];
      KeptDecoded(items);
      KeptFacts(r.messages);
      KeptItemsShrinks(items);
      BodyIsPureRewrite(j, sanitize, if found != [] then Some(notice) else None, f);
    }
  }
}
