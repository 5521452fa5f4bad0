/**
  JSON values (sections 3 to 5 of RFC 8259, objects as maps) and the content blocks of a request,
  which keep both the JSON they were parsed from and the fields the proxy works with.
*/
module Content {
  import opened Basics

  // Numbers: a literal Go decodes into an int, or any other literal.
  datatype Json =
    | Null
    | Bool(b: bool)
    | Int(n: int)
    | OtherNumber(literal: string)
    | Str(s: string)
    | Arr(items: seq<Json>)
    | Obj(fields: map<string, Json>)

  datatype ImageSource = ImageSource(typ: string, mediaType: string, data: string)

  // isNil: the content slice is nil, which prints as null where an empty slice prints as [].
  datatype Block = Block(
    raw: Option<Json>, typ: string, text: string, source: Option<ImageSource>, content: seq<Block>, isError: bool,
    isNil: bool)

  const TEXT := "text"
  const IMAGE := "image"
  const TOOL_RESULT := "tool_result"

  // ---------- Decoding ----------
  // None is a decoding error. A missing field and a JSON null both leave the zero value.

  function Field(fields: map<string, Json>, key: string): Json {
    if key in fields then fields[key] else Null
  }

  function DecodeString(j: Json): Option<string> {
    match j
    case Null => Some("")
    case Str(s) => Some(s)
    case _ => None
  }

  function DecodeBool(j: Json): Option<bool> {
    match j
    case Null => Some(false)
    case Bool(b) => Some(b)
    case _ => None
  }

  function DecodeSource(j: Json): Option<Option<ImageSource>> {
    match j
    case Null => Some(None)
    case Obj(f) =>
      var t, m, d := DecodeString(Field(f, "type")), DecodeString(Field(f, "media_type")),
          DecodeString(Field(f, "data"));
      if t.Some? && m.Some? && d.Some? then Some(Some(ImageSource(t.value, m.value, d.value))) else None
    case _ => None
  }

  // A missing content, a null and an empty string leave a nil slice.
  predicate ContentIsNil(j: Json) {
    j.Null? || j == Str("")
  }

  function TextOnly(text: string): Block {
    Block(None, TEXT, text, None, [], false, true)
  }

  function DecodeBlock(j: Json): Option<Block>
    decreases j, 1
  {
    match j
    case Null => Some(Block(Some(Null), "", "", None, [], false, true))
    case Obj(f) =>
      var typ, text := DecodeString(Field(f, "type")), DecodeString(Field(f, "text"));
      var source, isError := DecodeSource(Field(f, "source")), DecodeBool(Field(f, "is_error"));
      var content := if "content" in f then DecodeContent(f["content"]) else Some([]);
      if typ.Some? && text.Some? && source.Some? && isError.Some? && content.Some?
      then Some(Block(Some(j), typ.value, text.value, source.value, content.value, isError.value,
                      ContentIsNil(Field(f, "content"))))
      else None
    case _ => None
  }

  // An array of blocks, or a string standing for one text block.
  function DecodeContent(j: Json): Option<seq<Block>>
    decreases j, 0
  {
    match j
    case Null => Some([])
    case Arr(items) => DecodeBlocks(items)
    case Str(s) => Some(if s == "" then [] else [TextOnly(s)])
    case _ => None
  }

  function DecodeBlocks(items: seq<Json>): (r: Option<seq<Block>>)
    ensures r.Some? ==> |r.value| == |items|
    decreases items, 0
  {
    if items == [] then Some([])
    else
      var first, rest := DecodeBlock(items[0]), DecodeBlocks(items[1..]);
      if first.Some? && rest.Some? then Some([first.value] + rest.value) else None
  }

  // ---------- Encoding ----------

  function EncodeSource(s: ImageSource): Json {
    Obj(map["type" := Str(s.typ), "media_type" := Str(s.mediaType), "data" := Str(s.data)])
  }

  function EncodeBlocks(content: seq<Block>): (r: seq<Json>)
    ensures |r| == |content|
    decreases content, 0
  {
    if content == [] then [] else [EncodeBlock(content[0])] + EncodeBlocks(content[1..])
  }

  // The fallback for a block that was not parsed from JSON.
  function EncodeFields(b: Block): Json
    decreases b, 0
  {
    if b.typ == TOOL_RESULT
    then Obj(map["type" := Str(b.typ), "content" := if b.isNil then Null else Arr(EncodeBlocks(b.content))]
             + if b.isError then map["is_error" := Bool(true)] else map[])
    else Obj(map["type" := Str(b.typ)]
             + (if b.text != "" then map["text" := Str(b.text)] else map[])
             + if b.source.Some? then map["source" := EncodeSource(b.source.value)] else map[])
  }

  function EncodeBlock(b: Block): Json
    decreases b, 1
  {
    if b.raw.None? then EncodeFields(b)
    else if b.typ != TOOL_RESULT then b.raw.value
    else if !b.raw.value.Obj? then EncodeFields(b)
    else if b.content == [] then b.raw.value
    else Obj(b.raw.value.fields["content" := Arr(EncodeBlocks(b.content))])
  }

  // ---------- What parsing and printing preserve ----------

  function TextJson(text: string): Json {
    Obj(map["type" := Str(TEXT), "text" := Str(text)])
  }

  // A JSON object whose type field is the given string.
  predicate HasType(j: Json, typ: string) {
    j.Obj? && Field(j.fields, "type") == Str(typ)
  }

  lemma {:induction false} DecodeBlocksAt(items: seq<Json>, k: nat)
    requires DecodeBlocks(items).Some? && k < |items|
    ensures DecodeBlock(items[k]) == Some(DecodeBlocks(items).value[k])
  {
    if k > 0 {
      DecodeBlocksAt(items[1..], k - 1);
    }
  }

  lemma {:induction false} EncodeBlocksAt(content: seq<Block>, k: nat)
    requires k < |content|
    ensures EncodeBlocks(content)[k] == EncodeBlock(content[k])
  {
    if k > 0 {
      EncodeBlocksAt(content[1..], k - 1);
    }
  }

  /** A block of any other type comes back as the JSON it was, unknown fields included. */
  lemma OtherBlocksRoundTrip(j: Json)
    requires DecodeBlock(j).Some? && !HasType(j, TOOL_RESULT)
    ensures EncodeBlock(DecodeBlock(j).value) == j
  {
  }

  /** A tool_result comes back with every field but a non-empty content unchanged. */
  lemma ToolResultKeepsFields(j: Json, key: string)
    requires DecodeBlock(j).Some? && HasType(j, TOOL_RESULT) && key != "content"
    ensures EncodeBlock(DecodeBlock(j).value).Obj?
    ensures key in j.fields <==> key in EncodeBlock(DecodeBlock(j).value).fields
    ensures key in j.fields ==> EncodeBlock(DecodeBlock(j).value).fields[key] == j.fields[key]
  {
  }
}
