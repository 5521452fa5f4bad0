/** Which bodies are parsed, which of those are accepted and which refused, told from their JSON. */
module Acceptance {
  import opened Basics
  import opened Content
  import opened Rewrite
  import opened Requests
  import opened Bodies

  // ---------- Parsed ----------

  predicate StringOrNull(j: Json) {
    j.Str? || j.Null?
  }

  predicate BoolOrNull(j: Json) {
    j.Bool? || j.Null?
  }

  predicate SourceParses(j: Json) {
    j.Null? || (j.Obj? && StringOrNull(Field(j.fields, "type")) && StringOrNull(Field(j.fields, "media_type"))
                && StringOrNull(Field(j.fields, "data")))
  }

  predicate BlockParses(j: Json)
    decreases j, 1
  {
    j.Null? || (j.Obj? && StringOrNull(Field(j.fields, "type")) && StringOrNull(Field(j.fields, "text"))
                && SourceParses(Field(j.fields, "source")) && BoolOrNull(Field(j.fields, "is_error"))
                && ("content" in j.fields ==> ContentParses(j.fields["content"])))
  }

  predicate ContentParses(j: Json)
    decreases j, 0
  {
    StringOrNull(j) || (j.Arr? && forall i :: 0 <= i < |j.items| ==> BlockParses(j.items[i]))
  }

  predicate MessageParses(j: Json) {
    j.Null? || (j.Obj? && StringOrNull(Field(j.fields, "role")) && ContentParses(Field(j.fields, "content")))
  }

  predicate BodyParses(j: Json) {
    j.Null? ||
    (&& j.Obj? && StringOrNull(Field(j.fields, "model"))
     && (Field(j.fields, "max_tokens").Int? || Field(j.fields, "max_tokens").Null?)
     && BoolOrNull(Field(j.fields, "stream")) && ContentParses(Field(j.fields, "system"))
     && var messages := Field(j.fields, "messages");
        messages.Null? || (messages.Arr? && forall i :: 0 <= i < |messages.items| ==> MessageParses(messages.items[i])))
  }

  lemma SourceDecodes(j: Json)
    ensures DecodeSource(j).Some? <==> SourceParses(j)
  {
  }

  lemma {:induction false} BlockDecodes(j: Json)
    ensures DecodeBlock(j).Some? <==> BlockParses(j)
    decreases j, 1
  {
    if j.Obj? {
      SourceDecodes(Field(j.fields, "source"));
      if "content" in j.fields {
        ContentDecodes(j.fields["content"]);
      }
    }
  }

  lemma {:induction false} ContentDecodes(j: Json)
    ensures DecodeContent(j).Some? <==> ContentParses(j)
    decreases j, 0
  {
    if j.Arr? {
      forall i | 0 <= i < |j.items| ensures DecodeBlock(j.items[i]).Some? <==> BlockParses(j.items[i]) {
        BlockDecodes(j.items[i]);
      }
      BlocksDecode(j.items);
    }
  }

  lemma {:induction false} BlocksDecode(items: seq<Json>)
    ensures DecodeBlocks(items).Some? <==> forall i :: 0 <= i < |items| ==> DecodeBlock(items[i]).Some?
  {
    if items != [] {
      BlocksDecode(items[1..]);
      assert forall i :: 0 < i < |items| ==> items[i] == items[1..][i - 1];
    }
  }

  lemma MessageDecodes(j: Json)
    ensures DecodeMessage(j).Some? <==> MessageParses(j)
  {
    if j.Obj? {
      ContentDecodes(Field(j.fields, "content"));
    }
  }

  lemma {:induction false} MessagesDecode(items: seq<Json>)
    ensures DecodeMessages(items).Some? <==> forall i :: 0 <= i < |items| ==> MessageParses(items[i])
  {
    if items != [] {
      MessageDecodes(items[0]);
      MessagesDecode(items[1..]);
      assert forall i :: 0 < i < |items| ==> items[i] == items[1..][i - 1];
    }
  }

  /** A body is parsed exactly if it is null or an object whose known fields have the right types, at every depth;
      unknown fields may hold anything. */
  lemma ParsedIff(j: Json)
    ensures DecodeRequest(j).Some? <==> BodyParses(j)
  {
    hide DecodeMessages, DecodeContent, ContentParses, MessageParses;
    if j.Obj? {
      ContentDecodes(Field(j.fields, "system"));
      ContentDecodes(Null);
      NullContent();
      if Field(j.fields, "messages").Arr? {
        MessagesDecode(Field(j.fields, "messages").items);
      }
      assert DecodeMessages([]).Some? by { MessagesDecode([]); }
    }
  }

  lemma NullContent()
    ensures DecodeContent(Null).Some? && ContentParses(Null)
  {
  }

  // ---------- Accepted ----------

  // Image data with something else than space in it, and no data: prefix after leading space.
  ghost predicate GoodData(d: string) {
    exists i: nat :: GoodFrom(d, i)
  }

  // d[i] is the first character that is no space, and does not start a data: prefix.
  ghost predicate GoodFrom(d: string, i: nat) {
    i < |d| && !IsSpace(d[i]) && (forall k :: 0 <= k < i ==> IsSpace(d[k])) && !("data:" <= d[i..])
  }

  ghost predicate GoodSource(j: Json) {
    && j.Obj? && Field(j.fields, "type") == Str("base64") && Field(j.fields, "data").Str?
    && Field(j.fields, "media_type") in {Str("image/png"), Str("image/jpeg"), Str("image/webp"), Str("image/gif")}
    && GoodData(Field(j.fields, "data").s)
  }

  // A block with a type; a text block with text, an image block with a good source.
  ghost predicate GoodBlock(j: Json) {
    && j.Obj? && Field(j.fields, "type").Str? && Field(j.fields, "type").s != ""
    && (Field(j.fields, "type").s == "text" ==> Field(j.fields, "text").Str? && Field(j.fields, "text").s != "")
    && (Field(j.fields, "type").s == "image" ==> GoodSource(Field(j.fields, "source")))
  }

  // A user or assistant message with content: a string, or an array of good blocks.
  ghost predicate GoodMessage(j: Json) {
    && j.Obj? && Field(j.fields, "role") in {Str("user"), Str("assistant")}
    && match Field(j.fields, "content")
       case Str(s) => s != ""
       case Arr(items) => items != [] && forall i :: 0 <= i < |items| ==> GoodBlock(items[i])
       case _ => false
  }

  // With the system messages aside there are messages, all of them good; the model name is not cleaned away, and the
  // token limit not negative.
  ghost predicate GoodBody(j: Json, sanitize: string -> string) {
    && j.Obj?
    && sanitize(if Field(j.fields, "model").Str? then Field(j.fields, "model").s else "") != ""
    && (Field(j.fields, "max_tokens").Int? ==> Field(j.fields, "max_tokens").n >= 0)
    && Field(j.fields, "messages").Arr?
    && var items := Field(j.fields, "messages").items;
       && (exists i :: 0 <= i < |items| && RoleOf(items[i]) != "system")
       && forall i :: 0 <= i < |items| && RoleOf(items[i]) != "system" ==> GoodMessage(items[i])
  }

  lemma OneSpaceLess(d: string, i: nat)
    requires d != "" && IsSpace(d[0])
    ensures GoodFrom(d, i + 1) <==> GoodFrom(d[1..], i)
    ensures !GoodFrom(d, 0)
  {
    hide IsSpace;
    if i + 1 < |d| {
      assert d[1..][i..] == d[i + 1..];
      if forall k :: 0 <= k < i ==> IsSpace(d[1..][k]) {
        forall k | 0 <= k < i + 1 ensures IsSpace(d[k]) {
          assert k > 0 ==> d[k] == d[1..][k - 1];
        }
      }
    }
  }

  lemma {:induction false} TrimmedData(d: string)
    ensures TrimLeft(d) != "" && !("data:" <= TrimLeft(d)) <==> GoodData(d)
  {
    hide GoodFrom, IsSpace;
    if d == "" {
      assert forall i: nat :: !GoodFrom(d, i) by { NothingIsGood(); }
    } else if IsSpace(d[0]) {
      TrimmedData(d[1..]);
      OneSpaceLess(d, 0);
      forall i: nat ensures GoodFrom(d, i + 1) <==> GoodFrom(d[1..], i) {
        OneSpaceLess(d, i);
      }
      if i: nat :| GoodFrom(d, i) {
        assert i > 0 && GoodFrom(d[1..], i - 1);
      }
    } else {
      FirstIsNoSpace(d);
    }
  }

  lemma NothingIsGood()
    ensures forall i: nat :: !GoodFrom("", i)
  {
  }

  lemma FirstIsNoSpace(d: string)
    requires d != "" && !IsSpace(d[0])
    ensures GoodData(d) <==> !("data:" <= d)
  {
    hide IsSpace;
    assert d[0..] == d;
    assert GoodFrom(d, 0) <==> !("data:" <= d);
  }

  lemma SourceIsGood(j: Json)
    requires DecodeSource(j).Some?
    ensures DecodeSource(j).value.Some? && ValidSource(DecodeSource(j).value.value) <==> GoodSource(j)
  {
    hide GoodData, TrimLeft;
    if j.Obj? && Field(j.fields, "data").Str? {
      TrimmedData(Field(j.fields, "data").s);
    } else {
      assert TrimLeft("") == "" by { TrimNothing(); }
    }
  }

  lemma TrimNothing()
    ensures TrimLeft("") == ""
  {
  }

  lemma BlockIsGood(j: Json)
    requires DecodeBlock(j).Some?
    ensures ValidBlock(DecodeBlock(j).value) <==> GoodBlock(j)
  {
    hide DecodeContent, DecodeSource, ValidSource, GoodSource;
    if j.Obj? {
      SourceIsGood(Field(j.fields, "source"));
    }
  }

  lemma MessageIsGood(j: Json)
    requires DecodeMessage(j).Some?
    ensures ValidMessage(DecodeMessage(j).value) <==> GoodMessage(j)
  {
    hide DecodeBlock, ValidBlock, GoodBlock;
    var m := DecodeMessage(j).value;
    DecodedMessage(j);
    match ContentOf(j)
    case Str(s) =>
      TextIsValid(s);
    case Arr(items) =>
      forall i | 0 <= i < |items| ensures ValidBlock(m.content[i]) <==> GoodBlock(items[i]) {
        DecodeBlocksAt(items, i);
        BlockIsGood(items[i]);
      }
      assert forall b :: b in m.content ==> exists i :: 0 <= i < |items| && m.content[i] == b;
    case _ =>
  }

  lemma TextIsValid(s: string)
    ensures s != "" ==> ValidBlock(TextOnly(s))
  {
  }

  lemma KeptIsGood(items: seq<Json>)
    requires DecodeMessages(items).Some?
    ensures (forall m :: m in Kept(DecodeMessages(items).value) ==> ValidMessage(m))
            <==> forall i :: 0 <= i < |items| && RoleOf(items[i]) != "system" ==> GoodMessage(items[i])
    ensures Kept(DecodeMessages(items).value) != [] <==> exists i :: 0 <= i < |items| && RoleOf(items[i]) != "system"
  {
    hide ValidMessage, GoodMessage, DecodeMessage, RoleOf, Kept;
    var ms := DecodeMessages(items).value;
    forall i | 0 <= i < |items|
      ensures ms[i].role == SYSTEM <==> RoleOf(items[i]) == "system"
      ensures ValidMessage(ms[i]) <==> GoodMessage(items[i])
    {
      MessagesAt(items, i);
      DecodedMessage(items[i]);
      MessageIsGood(items[i]);
    }
    forall m ensures m in Kept(ms) <==> m in ms && m.role != SYSTEM {
      KeptMember(ms, m);
    }
    if Kept(ms) != [] {
      assert Kept(ms)[0] in Kept(ms);
    }
  }

  lemma {:induction false} KeptMember(ms: seq<Message>, m: Message)
    ensures m in Kept(ms) <==> m in ms && m.role != SYSTEM
  {
    if ms != [] {
      KeptMember(ms[1..], m);
      assert ms == [ms[0]] + ms[1..];
    }
  }

  /** A parsed body is accepted exactly if, with the system messages aside, it has messages and they are all good, the
      cleaned model name is not empty and the token limit not negative. */
  lemma AcceptedIff(j: Json, sanitize: string -> string)
    requires DecodeRequest(j).Some?
    ensures ValidRequest(Prepared(DecodeRequest(j).value, sanitize)) <==> GoodBody(j, sanitize)
  {
    hide ValidMessage, GoodMessage, RoleOf, DecodeMessages;
    if j.Obj? {
      var items := MessageItems(Field(j.fields, "messages")).value;
      KeptIsGood(items);
    }
  }

  /** A body is refused exactly if it is parsed and not good. */
  lemma RefusedIff(j: Json, sanitize: string -> string, notice: string, f: Path -> string)
    requires notice != ""
    ensures Forwarded(j, sanitize, notice, f).None? <==> BodyParses(j) && !GoodBody(j, sanitize)
  {
    hide BodyParses, GoodBody, DecodeRequest, ValidRequest, RewrittenBody, NothingToDo, HasImage, Forwarded;
    ParsedIff(j);
    ForwardedIsPureRewrite(j, sanitize, notice, f);
    if DecodeRequest(j).Some? {
      AcceptedIff(j, sanitize);
    }
  }
}
