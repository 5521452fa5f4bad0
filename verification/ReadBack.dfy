/**
  The printed body read back: what a client of the upstream sees in it, field by field and item by item, and
  that parsing it again gives the same request.
*/
module ReadBack {
  import opened Basics
  import opened Content
  import opened Rewrite
  import opened Requests
  import opened Bodies

  // ---------- Spelled-out blocks ----------

  // A block's JSON with the non-empty string content of tool_results, at any depth, spelled out as one text block.
  function Spelled(j: Json): Json
    decreases j, 1
  {
    if !HasType(j, TOOL_RESULT) || "content" !in j.fields then j
    else
      match j.fields["content"]
      case Str(s) =>
        if s == "" then j
        else Obj(j.fields["content" := Arr([Obj(map["type" := Str("text"), "text" := Str(s)])])])
      case Arr(items) => Obj(j.fields["content" := Arr(SpelledItems(items))])
      case _ => j
  }

  function SpelledItems(items: seq<Json>): (r: seq<Json>)
    ensures |r| == |items|
    decreases items, 0
  {
    if items == [] then [] else [Spelled(items[0])] + SpelledItems(items[1..])
  }

  // Below the reach of the search nothing but the spelling changes.
  lemma {:induction false} OutOfReachIsSpelled(j: Json, here: Path, depth: int, f: Path -> string)
    requires depth > MAX_DEPTH
    ensures RewriteJson(j, here, depth, f) == Spelled(j)
    decreases j, 1
  {
    if HasType(j, TOOL_RESULT) && "content" in j.fields && j.fields["content"].Arr? {
      var items := j.fields["content"].items;
      ItemsOutOfReach(items, here, 0, depth + 1, f);
      if items == [] {
        assert j.fields["content" := Arr([])] == j.fields;
      }
    }
  }

  lemma {:induction false} ItemsOutOfReach(items: seq<Json>, here: Path, k: nat, depth: int, f: Path -> string)
    requires depth > MAX_DEPTH
    ensures RewriteItems(items, here, k, depth, f) == SpelledItems(items)
    decreases items, 0
  {
    if items != [] {
      OutOfReachIsSpelled(items[0], here + [k], depth, f);
      ItemsOutOfReach(items[1..], here, k + 1, depth, f);
    }
  }

  /** An image within reach becomes the text block of its text and a tool_result keeps its fields, with the content
      rewritten item by item; any other block stays as it is. */
  lemma RewrittenBlockReadsBack(j: Json, here: Path, depth: int, f: Path -> string)
    requires depth <= MAX_DEPTH
    ensures var r := RewriteJson(j, here, depth, f);
            if IsImageJson(j) then r == Obj(map["type" := Str("text"), "text" := Str(f(here))])
            else if HasType(j, TOOL_RESULT) && Field(j.fields, "content").Arr? then
              && r.Obj? && r.fields == j.fields["content" := Field(r.fields, "content")]
              && Field(r.fields, "content").Arr?
              && var items, rewritten := Field(j.fields, "content").items, Field(r.fields, "content").items;
                 && |rewritten| == |items|
                 && forall k :: 0 <= k < |items| ==> rewritten[k] == RewriteJson(items[k], here + [k], depth + 1, f)
            else r == Spelled(j)
  {
    if !IsImageJson(j) && HasType(j, TOOL_RESULT) && Field(j.fields, "content").Arr? {
      var items := j.fields["content"].items;
      forall k | 0 <= k < |items|
        ensures RewriteItems(items, here, 0, depth + 1, f)[k] == RewriteJson(items[k], here + [k], depth + 1, f)
      {
        RewriteItemsAt(items, here, 0, depth + 1, f, k);
      }
      if items == [] {
        assert j.fields["content" := Arr([])] == j.fields;
      }
    }
  }

  // ---------- What is printed parses again ----------

  lemma TextDecodes(text: string)
    ensures DecodeBlock(TextJson(text)).Some? && !HasType(TextJson(text), TOOL_RESULT)
  {
  }

  // A rewritten block parses, and is spelled out already.
  lemma {:induction false} RewrittenDecodes(j: Json, here: Path, depth: int, f: Path -> string)
    requires DecodeBlock(j).Some?
    ensures DecodeBlock(RewriteJson(j, here, depth, f)).Some?
    ensures Spelled(RewriteJson(j, here, depth, f)) == RewriteJson(j, here, depth, f)
    decreases j, 1
  {
    DecodedKinds(j);
    if IsImageJson(j) && depth <= MAX_DEPTH {
      TextDecodes(f(here));
    } else if HasType(j, TOOL_RESULT) && "content" in j.fields {
      match j.fields["content"]
      case Str(s) =>
        if s != "" {
          StringRewrittenDecodes(j, s);
        }
      case Arr(items) =>
        ItemsRewrittenDecode(items, here, 0, depth + 1, f);
      case _ =>
    }
  }

  lemma StringRewrittenDecodes(j: Json, s: string)
    requires DecodeBlock(j).Some? && HasType(j, TOOL_RESULT)
    ensures var r := Obj(j.fields["content" := Arr([TextJson(s)])]); DecodeBlock(r).Some? && Spelled(r) == r
  {
    TextDecodes(s);
    assert DecodeBlocks([TextJson(s)]).Some?;
    assert SpelledItems([TextJson(s)]) == [TextJson(s)];
  }

  lemma {:induction false} ItemsRewrittenDecode(items: seq<Json>, here: Path, k: nat, depth: int, f: Path -> string)
    requires DecodeBlocks(items).Some?
    ensures DecodeBlocks(RewriteItems(items, here, k, depth, f)).Some?
    ensures SpelledItems(RewriteItems(items, here, k, depth, f)) == RewriteItems(items, here, k, depth, f)
    decreases items, 0
  {
    if items != [] {
      RewrittenDecodes(items[0], here + [k], depth, f);
      ItemsRewrittenDecode(items[1..], here, k + 1, depth, f);
      var rest := RewriteItems(items[1..], here, k + 1, depth, f);
      assert ([RewriteJson(items[0], here + [k], depth, f)] + rest)[1..] == rest;
    }
  }

  // Items that parse to blocks which print as the same items.
  predicate ReadsBack(items: seq<Json>) {
    DecodeBlocks(items).Some? && EncodeBlocks(DecodeBlocks(items).value) == items
  }

  lemma SpelledReadsBack(items: seq<Json>)
    requires DecodeBlocks(items).Some? && SpelledItems(items) == items
    ensures ReadsBack(items)
  {
    var f := (p: Path) => "";
    PlainContent(Arr(items), [], f);
    ItemsOutOfReach(items, [], 0, UNTOUCHED, f);
  }

  lemma ContentReadsBack(c: Json, here: Path, depth: int, f: Path -> string)
    requires DecodeContent(c).Some?
    ensures ReadsBack(ContentItems(c, here, depth, f))
  {
    match c
    case Str(s) =>
      if s != "" {
        TextDecodes(s);
        assert DecodeBlocks([TextJson(s)]).Some?;
        assert SpelledItems([TextJson(s)]) == [TextJson(s)];
        SpelledReadsBack([TextJson(s)]);
      }
    case Arr(items) =>
      ItemsRewrittenDecode(items, here, 0, depth, f);
      SpelledReadsBack(RewriteItems(items, here, 0, depth, f));
    case _ =>
  }

  lemma {:induction false} DecodeConcat(a: seq<Json>, b: seq<Json>)
    requires DecodeBlocks(a).Some? && DecodeBlocks(b).Some?
    ensures DecodeBlocks(a + b) == Some(DecodeBlocks(a).value + DecodeBlocks(b).value)
  {
    hide DecodeBlock;
    if a == [] {
      assert a + b == b;
      assert DecodeBlocks(a).value + DecodeBlocks(b).value == DecodeBlocks(b).value;
    } else {
      DecodeConcat(a[1..], b);
      assert (a + b)[1..] == a[1..] + b;
      var first, rest := [DecodeBlock(a[0]).value], DecodeBlocks(a[1..]).value;
      assert first + (rest + DecodeBlocks(b).value) == first + rest + DecodeBlocks(b).value;
    }
  }

  lemma ReadsBackConcat(a: seq<Json>, b: seq<Json>)
    requires ReadsBack(a) && ReadsBack(b)
    ensures ReadsBack(a + b)
  {
    DecodeConcat(a, b);
    EncodeBlocksConcat(DecodeBlocks(a).value, DecodeBlocks(b).value);
  }

  lemma {:induction false} MovedReadsBack(items: seq<Json>, f: Path -> string)
    requires DecodeMessages(items).Some?
    ensures ReadsBack(MovedItems(items, f))
  {
    if items != [] {
      MovedReadsBack(items[1..], f);
      DecodedMessage(items[0]);
      ContentReadsBack(ContentOf(items[0]), [], UNTOUCHED, f);
      ReadsBackConcat(if RoleOf(items[0]) == SYSTEM then ContentItems(ContentOf(items[0]), [], UNTOUCHED, f) else [],
                      MovedItems(items[1..], f));
    }
  }

  // ---------- A printed request parses to the same request ----------

  // All blocks print as JSON that reads back, and only empty slices are nil.
  predicate Printable(r: Request) {
    && ReadsBack(EncodeBlocks(r.system)) && (r.isNil ==> r.messages == [])
    && forall i :: 0 <= i < |r.messages| ==>
         ReadsBack(EncodeBlocks(r.messages[i].content)) && (r.messages[i].isNil ==> r.messages[i].content == [])
  }

  // The same request but for how its blocks are held: they print the same.
  predicate PrintsAlike(r: Request, s: Request) {
    && s.model == r.model && s.maxTokens == r.maxTokens && s.stream == r.stream && s.isNil == r.isNil
    && EncodeBlocks(s.system) == EncodeBlocks(r.system)
    && |s.messages| == |r.messages|
    && forall i :: 0 <= i < |r.messages| ==>
         && s.messages[i].role == r.messages[i].role && s.messages[i].isNil == r.messages[i].isNil
         && EncodeBlocks(s.messages[i].content) == EncodeBlocks(r.messages[i].content)
  }

  lemma MessageReadsBack(m: Message)
    requires ReadsBack(EncodeBlocks(m.content)) && (m.isNil ==> m.content == [])
    ensures var r := DecodeMessage(EncodeMessage(m));
            && r.Some? && r.value.role == m.role && r.value.isNil == m.isNil
            && EncodeBlocks(r.value.content) == EncodeBlocks(m.content)
  {
  }

  lemma {:induction false} DecodeMessagesAll(items: seq<Json>)
    requires forall i :: 0 <= i < |items| ==> DecodeMessage(items[i]).Some?
    ensures DecodeMessages(items).Some?
  {
    if items != [] {
      DecodeMessagesAll(items[1..]);
    }
  }

  lemma MessagesReadBack(ms: seq<Message>)
    requires forall i :: 0 <= i < |ms| ==>
               ReadsBack(EncodeBlocks(ms[i].content)) && (ms[i].isNil ==> ms[i].content == [])
    ensures |EncodeMessages(ms)| == |ms|
    ensures var r := DecodeMessages(EncodeMessages(ms));
            && r.Some?
            && forall i :: 0 <= i < |ms| ==>
                 && r.value[i].role == ms[i].role && r.value[i].isNil == ms[i].isNil
                 && EncodeBlocks(r.value[i].content) == EncodeBlocks(ms[i].content)
  {
    hide EncodeMessage, DecodeMessage, ReadsBack;
    var items := EncodeMessages(ms);
    forall i | 0 <= i < |ms| ensures DecodeMessage(items[i]).Some? {
      MessageReadsBack(ms[i]);
    }
    DecodeMessagesAll(items);
    forall i | 0 <= i < |ms|
      ensures var m := DecodeMessages(items).value[i];
              && m.role == ms[i].role && m.isNil == ms[i].isNil
              && EncodeBlocks(m.content) == EncodeBlocks(ms[i].content)
    {
      MessagesAt(items, i);
      MessageReadsBack(ms[i]);
    }
  }

  /** Parsing a printed request gives the request: its model, token limit, stream flag, messages with their roles,
      and blocks that print the same. So printing it once more changes nothing. */
  lemma RequestReadsBack(r: Request)
    requires Printable(r)
    ensures DecodeRequest(EncodeRequest(r)).Some? && PrintsAlike(r, DecodeRequest(EncodeRequest(r)).value)
  {
    hide EncodeMessages, DecodeMessages, ReadsBack, EncodeBlocks, DecodeBlocks;
    MessagesReadBack(r.messages);
    SystemReadsBack(r);
    RequestFields(r);
    if r.messages == [] {
      assert EncodeMessages(r.messages) == [] && DecodeMessages([]) == Some([]) by { NoMessages(); }
    }
  }

  lemma NoMessages()
    ensures EncodeMessages([]) == [] && DecodeMessages([]) == Some([])
  {
  }

  lemma SystemReadsBack(r: Request)
    requires ReadsBack(EncodeBlocks(r.system))
    ensures var s := DecodeField(EncodeRequest(r).fields, "system");
            s.Some? && EncodeBlocks(s.value) == EncodeBlocks(r.system)
  {
    hide EncodeMessages;
  }

  // The fields of a printed request.
  lemma RequestFields(r: Request)
    ensures var j := EncodeRequest(r);
            && j.Obj?
            && Field(j.fields, "model") == Str(r.model)
            && Field(j.fields, "messages") == (if r.isNil then Null else Arr(EncodeMessages(r.messages)))
            && Field(j.fields, "max_tokens") == Int(r.maxTokens)
            && Field(j.fields, "system") == (if r.system == [] then Null else Arr(EncodeBlocks(r.system)))
            && Field(j.fields, "stream") == (if r.stream then Bool(true) else Null)
            && j.fields.Keys <= {"model", "messages", "max_tokens", "system", "stream"}
  {
    hide EncodeMessages;
  }

  // ---------- The body sent on ----------

  lemma RewrittenMessagePrintable(item: Json, i: nat, f: Path -> string)
    requires DecodeMessage(item).Some?
    ensures var m := RewriteMessage(DecodeMessage(item).value, i, f);
            ReadsBack(EncodeBlocks(m.content)) && (m.isNil ==> m.content == [])
  {
    DecodedMessage(item);
    MessageContentDecoded(item, i, f);
    ContentReadsBack(ContentOf(item), [i], if RoleOf(item) == USER then 0 else UNTOUCHED, f);
  }

  lemma SentSystemReadsBack(j: Json, notice: Option<string>, f: Path -> string)
    requires DecodeRequest(j).Some? && j.Obj? && notice != Some("")
    ensures ReadsBack(EncodeBlocks(WithNotice(Normalized(DecodeRequest(j).value), notice).system))
  {
    hide ReadsBack;
    var items := MessageItems(Field(j.fields, "messages")).value;
    var own, moved := ContentItems(Field(j.fields, "system"), [], UNTOUCHED, f), MovedItems(items, f);
    SystemDecoded(j, notice, f);
    ContentReadsBack(Field(j.fields, "system"), [], UNTOUCHED, f);
    MovedReadsBack(items, f);
    ReadsBackConcat(own, moved);
    if notice.Some? {
      ContentReadsBack(Str(notice.value), [], UNTOUCHED, f);
      ReadsBackConcat(own + moved, [TextJson(notice.value)]);
    } else {
      assert own + moved + [] == own + moved;
    }
  }

  /** The request the handler prints, with its system messages moved, every image replaced by any text and the
      notice appended, is printed so that parsing gives it back. */
  lemma SentReadsBack(j: Json, sanitize: string -> string, notice: Option<string>, f: Path -> string)
    requires DecodeRequest(j).Some? && j.Obj? && notice != Some("")
    ensures var done := WithNotice(RewriteRequest(Prepared(DecodeRequest(j).value, sanitize), f), notice);
            && DecodeRequest(EncodeRequest(done)).Some?
            && PrintsAlike(done, DecodeRequest(EncodeRequest(done)).value)
  {
    hide ReadsBack, PrintsAlike, EncodeRequest, EncodeBlocks, DecodeBlocks;
    var r := DecodeRequest(j).value;
    var items := MessageItems(Field(j.fields, "messages")).value;
    var done := WithNotice(RewriteRequest(Prepared(r, sanitize), f), notice);
    SentSystemReadsBack(j, notice, f);
    KeptDecoded(items);
    KeptFacts(r.messages);
    forall i | 0 <= i < |done.messages|
      ensures ReadsBack(EncodeBlocks(done.messages[i].content))
      ensures done.messages[i].isNil ==> done.messages[i].content == []
    {
      MessagesAt(KeptItems(items), i);
      RewrittenMessagePrintable(KeptItems(items)[i], i, f);
    }
    RequestReadsBack(done);
  }

  // The block below j that p leads to through array contents of tool_results.
  function JsonAt(j: Json, p: Path): Option<Json>
    decreases |p|
  {
    if p == [] then Some(j)
    else if HasType(j, TOOL_RESULT) && Field(j.fields, "content").Arr? && p[0] < |Field(j.fields, "content").items|
    then JsonAt(Field(j.fields, "content").items[p[0]], p[1..])
    else None
  }

  /** At every path: where the block was an image the search reaches there is the text block of the text for the
      path, and every other block but a tool_result is what it was. */
  lemma {:induction false} RewrittenAt(j: Json, here: Path, depth: int, f: Path -> string, p: Path)
    requires 0 <= depth <= MAX_DEPTH && JsonAt(j, p).Some? && !HasType(JsonAt(j, p).value, TOOL_RESULT)
    ensures JsonAt(RewriteJson(j, here, depth, f), p)
            == Some(if EligibleJson(j, p, depth) then Obj(map["type" := Str("text"), "text" := Str(f(here + p))])
                    else JsonAt(j, p).value)
    decreases |p|
  {
    RewrittenBlockReadsBack(j, here, depth, f);
    if p == [] {
      assert here + p == here;
    } else {
      hide RewriteJson;
      var items := Field(j.fields, "content").items;
      assert here + p == here + [p[0]] + p[1..];
      if depth < MAX_DEPTH {
        RewrittenAt(items[p[0]], here + [p[0]], depth + 1, f, p[1..]);
      } else {
        OutOfReachIsSpelled(items[p[0]], here + [p[0]], depth + 1, f);
        SpelledAt(items[p[0]], p[1..]);
      }
    }
  }

  lemma {:induction false} SpelledAt(j: Json, p: Path)
    requires JsonAt(j, p).Some? && !HasType(JsonAt(j, p).value, TOOL_RESULT)
    ensures JsonAt(Spelled(j), p) == JsonAt(j, p)
    decreases |p|
  {
    if p != [] {
      var items := Field(j.fields, "content").items;
      SpelledItemsAt(items, p[0]);
      SpelledAt(items[p[0]], p[1..]);
    }
  }

  lemma {:induction false} SpelledItemsAt(items: seq<Json>, k: nat)
    requires k < |items|
    ensures SpelledItems(items)[k] == Spelled(items[k])
  {
    if k > 0 {
      SpelledItemsAt(items[1..], k - 1);
    }
  }

  // Content that goes on without a search for images, as an array.
  function PlainItems(c: Json): seq<Json> {
    match c
    case Str(s) => if s == "" then [] else [Obj(map["type" := Str("text"), "text" := Str(s)])]
    case Arr(items) => SpelledItems(items)
    case _ => []
  }

  // The contents of the system messages among the items.
  function PlainMoved(items: seq<Json>): seq<Json> {
    if items == [] then []
    else (if RoleOf(items[0]) == "system" then PlainItems(ContentOf(items[0])) else []) + PlainMoved(items[1..])
  }

  lemma PlainIsContent(c: Json, here: Path, f: Path -> string)
    ensures ContentItems(c, here, UNTOUCHED, f) == PlainItems(c)
  {
    if c.Arr? {
      ItemsOutOfReach(c.items, here, 0, UNTOUCHED, f);
    }
  }

  lemma {:induction false} PlainIsMoved(items: seq<Json>, f: Path -> string)
    ensures MovedItems(items, f) == PlainMoved(items)
  {
    if items != [] {
      PlainIsContent(ContentOf(items[0]), [], f);
      PlainIsMoved(items[1..], f);
    }
  }

  // The places from i on of the messages that are no system messages.
  function Others(items: seq<Json>, i: nat): seq<nat>
    decreases |items| - i
  {
    if i >= |items| then []
    else (if RoleOf(items[i]) == "system" then [] else [i]) + Others(items, i + 1)
  }

  lemma {:induction false} OtherAt(items: seq<Json>, i: nat, n: nat)
    requires n < |Others(items, i)|
    ensures i <= Others(items, i)[n] < |items| && RoleOf(items[Others(items, i)[n]]) != "system"
    ensures forall m :: 0 <= m < n ==> Others(items, i)[m] < Others(items, i)[n]
    decreases |items| - i
  {
    hide RoleOf;
    if RoleOf(items[i]) == "system" {
      OtherAt(items, i + 1, n);
    } else if n > 0 {
      OtherAt(items, i + 1, n - 1);
    }
  }

  lemma {:induction false} PlaceOf(items: seq<Json>, i: nat, k: nat) returns (n: nat)
    requires i <= k < |items| && RoleOf(items[k]) != "system"
    ensures n < |Others(items, i)| && Others(items, i)[n] == k
    decreases |items| - i
  {
    hide RoleOf;
    if i == k {
      n := 0;
    } else {
      n := PlaceOf(items, i + 1, k);
      if RoleOf(items[i]) != "system" {
        n := n + 1;
      }
    }
  }

  lemma {:induction false} KeptAt(items: seq<Json>, i: nat)
    requires i <= |items|
    ensures |Others(items, i)| == |KeptItems(items[i..])|
    ensures forall k :: 0 <= k < |Others(items, i)| ==>
              Others(items, i)[k] < |items| && KeptItems(items[i..])[k] == items[Others(items, i)[k]]
    decreases |items| - i
  {
    if i < |items| {
      assert items[i..][1..] == items[i + 1..];
      KeptAt(items, i + 1);
    } else {
      assert items[i..] == [];
    }
  }

  /** The messages that stay are exactly those that are no system messages, in their order. */
  lemma KeptAreTheOthers(items: seq<Json>) returns (places: seq<nat>)
    ensures |places| == |KeptItems(items)|
    ensures forall k :: 0 <= k < |places| ==> places[k] < |items| && KeptItems(items)[k] == items[places[k]]
    ensures forall k, l :: 0 <= k < l < |places| ==> places[k] < places[l]
    ensures forall i: nat :: i in places <==> i < |items| && RoleOf(items[i]) != "system"
  {
    places := Others(items, 0);
    hide Others, RoleOf, KeptItems;
    forall n | 0 <= n < |places|
      ensures places[n] < |items| && RoleOf(items[places[n]]) != "system"
      ensures forall m :: 0 <= m < n ==> places[m] < places[n]
    {
      OtherAt(items, 0, n);
    }
    forall i: nat | i < |items| && RoleOf(items[i]) != "system" ensures i in places {
      var n := PlaceOf(items, 0, i);
    }
    KeptAt(items, 0);
    assert items[0..] == items;
  }

  // What is sent for the k-th message that stays: its role, and its content as an array, with the images of a
  // user message replaced.
  predicate MessageSent(item: Json, sent: Json, k: nat, f: Path -> string) {
    && sent.Obj? && sent.fields.Keys == {"role", "content"} && sent.fields["role"] == Str(RoleOf(item))
    && match ContentOf(item)
       case Str(s) => sent.fields["content"] == Arr([Obj(map["type" := Str("text"), "text" := Str(s)])])
       case Arr(items) =>
         && sent.fields["content"].Arr? && |sent.fields["content"].items| == |items|
         && forall m :: 0 <= m < |items| ==>
              sent.fields["content"].items[m]
              == if RoleOf(item) == "user" then RewriteJson(items[m], [k, m], 0, f) else Spelled(items[m])
       case _ => false
  }

  lemma MessageIsSent(item: Json, k: nat, f: Path -> string)
    requires DecodeMessage(item).Some? && ValidMessage(DecodeMessage(item).value)
    ensures MessageSent(item, MessageJson(item, k, f), k, f)
  {
    hide RewriteJson;
    var c := ContentOf(item);
    DecodedMessage(item);
    if c.Arr? {
      forall m | 0 <= m < |c.items|
        ensures RewriteItems(c.items, [k], 0, 0, f)[m] == RewriteJson(c.items[m], [k, m], 0, f)
      {
        RewriteItemsAt(c.items, [k], 0, 0, f, m);
        assert [k] + [m] == [k, m];
      }
      forall m | 0 <= m < |c.items| ensures SpelledItems(c.items)[m] == Spelled(c.items[m]) {
        SpelledItemsAt(c.items, m);
      }
      ItemsOutOfReach(c.items, [k], 0, UNTOUCHED, f);
    }
  }

  // The messages received.
  function Received(j: Json): seq<Json>
    requires j.Obj?
  {
    if Field(j.fields, "messages").Arr? then Field(j.fields, "messages").items else []
  }

  // The fields of a body other than its messages: the model name, the token limit, the stream flag, and the system
  // blocks received, then those moved, then the notice.
  predicate FieldsSent(j: Json, sent: Json, model: string, notice: Option<string>)
    requires j.Obj?
  {
    && sent.Obj? && sent.fields.Keys <= {"model", "messages", "max_tokens", "system", "stream"}
    && Field(sent.fields, "model") == Str(model)
    && Field(sent.fields, "max_tokens")
       == Int(if Field(j.fields, "max_tokens").Int? then Field(j.fields, "max_tokens").n else 0)
    && Field(sent.fields, "stream") == (if Field(j.fields, "stream") == Bool(true) then Bool(true) else Null)
    && var system :=
         PlainItems(Field(j.fields, "system"))
         + PlainMoved(Received(j))
         + if notice.Some? then [Obj(map["type" := Str("text"), "text" := Str(notice.value)])] else [];
       Field(sent.fields, "system") == if system == [] then Null else Arr(system)
  }

  // The model name received.
  function ModelOf(j: Json): string
    requires j.Obj?
  {
    if Field(j.fields, "model").Str? then Field(j.fields, "model").s else ""
  }

  lemma FieldsAreSent(j: Json, sanitize: string -> string, notice: Option<string>, f: Path -> string)
    requires DecodeRequest(j).Some? && j.Obj? && notice != Some("")
    ensures var done := WithNotice(RewriteRequest(Prepared(DecodeRequest(j).value, sanitize), f), notice);
            FieldsSent(j, EncodeRequest(done), sanitize(ModelOf(j)), notice)
  {
    hide EncodeBlocks, EncodeMessages, ContentItems, MovedItems, PlainItems, PlainMoved;
    var done := WithNotice(RewriteRequest(Prepared(DecodeRequest(j).value, sanitize), f), notice);
    RequestFields(done);
    SystemDecoded(j, notice, f);
    PlainIsContent(Field(j.fields, "system"), [], f);
    PlainIsMoved(Received(j), f);
    assert done.system == [] <==> EncodeBlocks(done.system) == [];
  }

  lemma MessagesAreSent(j: Json, sanitize: string -> string, notice: Option<string>, f: Path -> string)
    requires DecodeRequest(j).Some? && j.Obj? && ValidRequest(Prepared(DecodeRequest(j).value, sanitize))
    ensures var r := Prepared(DecodeRequest(j).value, sanitize);
            var sent := EncodeRequest(WithNotice(RewriteRequest(r, f), notice));
            && sent.Obj? && Field(sent.fields, "messages").Arr?
            && |Field(sent.fields, "messages").items| == |KeptItems(Received(j))|
            && forall k :: 0 <= k < |KeptItems(Received(j))| ==>
                 MessageSent(KeptItems(Received(j))[k], Field(sent.fields, "messages").items[k], k, f)
  {
    hide EncodeBlocks, MessageSent, MessageJson, EncodeMessage, EncodeMessages;
    var r, items := Prepared(DecodeRequest(j).value, sanitize), KeptItems(Received(j));
    var done := WithNotice(RewriteRequest(r, f), notice);
    RequestFields(done);
    KeptDecoded(Received(j));
    KeptFacts(DecodeRequest(j).value.messages);
    MessagesDecoded(items, f, r);
    forall k | 0 <= k < |items| ensures MessageSent(items[k], MessagesJson(items, f)[k], k, f) {
      MessagesAt(items, k);
      assert r.messages[k] in r.messages;
      MessageIsSent(items[k], k, f);
    }
  }

  /** What the upstream reads of a body with something to do: the messages that are no system messages, each with
      its role and its content, the images of user messages replaced, and the other fields as received. */
  lemma TheUpstreamReads(j: Json, sanitize: string -> string, notice: string, f: Path -> string)
    requires notice != "" && DecodeRequest(j).Some? && j.Obj?
    requires ValidRequest(Prepared(DecodeRequest(j).value, sanitize)) && !NothingToDo(j, sanitize)
    ensures Forwarded(j, sanitize, notice, f).Some?
    ensures var sent := Forwarded(j, sanitize, notice, f).value;
            && FieldsSent(j, sent, sanitize(ModelOf(j)), if HasImage(j) then Some(notice) else None)
            && Field(sent.fields, "messages").Arr?
            && |Field(sent.fields, "messages").items| == |KeptItems(Received(j))|
            && forall k :: 0 <= k < |KeptItems(Received(j))| ==>
                 MessageSent(KeptItems(Received(j))[k], Field(sent.fields, "messages").items[k], k, f)
  {
    hide MessageSent, FieldsSent, EncodeRequest, RewriteRequest, RewrittenBody, HasImage, NothingToDo, Forwarded;
    var given := if HasImage(j) then Some(notice) else None;
    ForwardedIsPureRewrite(j, sanitize, notice, f);
    BodyIsPureRewrite(j, sanitize, given, f);
    FieldsAreSent(j, sanitize, given, f);
    MessagesAreSent(j, sanitize, given, f);
  }

  // The block of a body that p leads to: message, block, and on from there.
  function BodyAt(b: Json, p: Path): Option<Json> {
    if |p| < 2 || !b.Obj? || !Field(b.fields, "messages").Arr? || p[0] >= |Field(b.fields, "messages").items| then None
    else
      var content := ContentOf(Field(b.fields, "messages").items[p[0]]);
      if !content.Arr? || p[1] >= |content.items| then None else JsonAt(content.items[p[1]], p[2..])
  }

  lemma {:induction false} EligibleIsThere(j: Json, p: Path, depth: int)
    requires EligibleJson(j, p, depth)
    ensures JsonAt(j, p).Some? && IsImageJson(JsonAt(j, p).value)
    decreases |p|
  {
    if p != [] {
      EligibleIsThere(j.fields["content"].items[p[0]], p[1..], depth + 1);
    }
  }

  lemma ImageInMessage(item: Json, sent: Json, k: nat, m: nat, p: Path, f: Path -> string)
    requires MessageSent(item, sent, k, f) && RoleOf(item) == USER
    requires ContentOf(item).Arr? && m < |ContentOf(item).items| && EligibleJson(ContentOf(item).items[m], p, 0)
    ensures ContentOf(sent).Arr? && m < |ContentOf(sent).items|
    ensures JsonAt(ContentOf(sent).items[m], p)
            == Some(Obj(map["type" := Str("text"), "text" := Str(f([k, m] + p))]))
  {
    EligibleIsThere(ContentOf(item).items[m], p, 0);
    RewrittenAt(ContentOf(item).items[m], [k, m], 0, f, p);
  }

  lemma ImageReceived(j: Json, p: Path)
    requires DecodeRequest(j).Some? && j.Obj? && ImageOfBody(j, p)
    ensures |p| >= 2 && p[0] < |KeptItems(Received(j))|
    ensures var item := KeptItems(Received(j))[p[0]];
            && RoleOf(item) == USER && ContentOf(item).Arr? && p[1] < |ContentOf(item).items|
            && EligibleJson(ContentOf(item).items[p[1]], p[2..], 0)
  {
    hide EligibleJson, KeptItems;
  }

  lemma SentIsAnObject(j: Json, sent: Json, model: string, notice: Option<string>)
    requires j.Obj? && FieldsSent(j, sent, model, notice)
    ensures sent.Obj?
  {
  }

  /** Where the body received holds an image the search finds, the body sent holds the text block of its text. */
  lemma TheUpstreamReadsTheText(j: Json, sanitize: string -> string, notice: string, f: Path -> string, p: Path)
    requires notice != "" && DecodeRequest(j).Some? && j.Obj?
    requires ValidRequest(Prepared(DecodeRequest(j).value, sanitize))
    requires p in FindImages(Prepared(DecodeRequest(j).value, sanitize))
    ensures Forwarded(j, sanitize, notice, f).Some?
    ensures BodyAt(Forwarded(j, sanitize, notice, f).value, p)
            == Some(Obj(map["type" := Str("text"), "text" := Str(f(p))]))
  {
    hide Forwarded, FindImages, MessageSent, EligibleJson, ImageOfBody, DecodeRequest, KeptItems, FieldsSent;
    FoundAreTheImagesOfTheBody(j, sanitize, p);
    ImageReceived(j, p);
    assert HasImage(j);
    TheUpstreamReads(j, sanitize, notice, f);
    var item, sent := KeptItems(Received(j))[p[0]], Forwarded(j, sanitize, notice, f).value;
    SentIsAnObject(j, sent, sanitize(ModelOf(j)), Some(notice));
    ImageInMessage(item, Field(sent.fields, "messages").items[p[0]], p[0], p[1], p[2..], f);
    assert [p[0], p[1]] + p[2..] == p;
  }

  // ---------- Blocks without JSON of their own, replaced blocks, empty contents ----------

  /** A block printed from its fields parses to these fields: of a tool_result its error flag and a content that
      prints the same, of any other block its text and source. */
  lemma FieldsReadBack(b: Block)
    requires b.raw.None? && ReadsBack(EncodeBlocks(b.content)) && (b.isNil ==> b.content == [])
    ensures var r := DecodeBlock(EncodeBlock(b));
            && r.Some? && r.value.typ == b.typ
            && if b.typ == "tool_result" then
                 r.value.isError == b.isError && EncodeBlocks(r.value.content) == EncodeBlocks(b.content)
               else r.value.text == b.text && r.value.source == b.source
  {
    if b.typ == TOOL_RESULT {
      ToolResultReadsBack(b);
    } else {
      hide DecodeSource, EncodeSource;
      if b.source.Some? {
        SourceReadsBack(b.source.value);
      }
      assert DecodeSource(Null) == Some(None) by { NoSource(); }
    }
  }

  lemma NoSource()
    ensures DecodeSource(Null) == Some(None)
  {
  }

  lemma ToolResultReadsBack(b: Block)
    requires b.raw.None? && ReadsBack(EncodeBlocks(b.content)) && (b.isNil ==> b.content == []) && b.typ == TOOL_RESULT
    ensures var r := DecodeBlock(EncodeBlock(b));
            && r.Some? && r.value.typ == b.typ && r.value.isError == b.isError
            && EncodeBlocks(r.value.content) == EncodeBlocks(b.content)
  {
  }

  lemma SourceReadsBack(s: ImageSource)
    ensures DecodeSource(EncodeSource(s)) == Some(Some(s))
  {
  }

  /** A replaced block shows what its new JSON says, and keeps its content and error flag. */
  lemma ReplacedShowsItsJson(b: Block, text: string)
    ensures var r := Replaced(b, text);
            && r.raw == Some(EncodeBlock(r)) && r.text == text
            && r.content == b.content && r.isError == b.isError && r.isNil == b.isNil
    ensures var r, d := Replaced(b, text), DecodeBlock(EncodeBlock(Replaced(b, text)));
            d.Some? && r.typ == d.value.typ && r.text == d.value.text && r.source == d.value.source
  {
  }

  /** A message whose content is missing, null or an empty string is printed with null, one with an empty array
      with an empty array. */
  lemma EmptyContentReadsBack(j: Json)
    requires j.Obj? && DecodeMessage(j).Some?
    ensures var c := Field(j.fields, "content");
            var printed := Field(EncodeMessage(DecodeMessage(j).value).fields, "content");
            && (printed == Null <==> c == Null || c == Str("")) && (printed == Arr([]) <==> c == Arr([]))
  {
  }
}
