/**
  Content blocks as the source holds them: objects that own their nested blocks, found by pointer and
  changed in place. Proved against the block values of `Content` and the paths of `Rewrite`.
*/
module Blocks {
  import opened Basics
  import opened Content
  import opened Rewrite

  class ContentBlock {
    var raw: Option<Json>
    var typ: string
    var text: string
    var source: Option<ImageSource>
    var content: seq<ContentBlock>
    var isError: bool
    var isNil: bool                    // the content slice is nil
    ghost var repr: set<ContentBlock>  // this block and every block below it

    // The blocks below form a tree.
    ghost predicate Valid()
      reads this, repr
      decreases repr
    {
      && this in repr
      && (forall c :: c in content ==> c in repr && c.repr < repr && this !in c.repr && c.Valid())
      && (forall i, j :: 0 <= i < j < |content| ==> content[i].repr !! content[j].repr)
    }

    ghost function View(): (b: Block)
      requires Valid()
      reads this, repr
      ensures |b.content| == |content|
      decreases repr, 1
    {
      Block(raw, typ, text, source, Views(|content|), isError, isNil)
    }

    ghost function Views(n: nat): (v: seq<Block>)
      requires Valid() && n <= |content|
      reads this, repr
      ensures |v| == n
      ensures forall i :: 0 <= i < n ==> content[i].Valid() && v[i] == content[i].View()
      decreases repr, 0, n
    {
      if n == 0 then [] else Views(n - 1) + [content[n - 1].View()]
    }

    // The zero value.
    constructor ()
      ensures Valid() && repr == {this} && View() == Block(None, "", "", None, [], false, true)
    {
      raw, typ, text, source, content, isError, isNil := None, "", "", None, [], false, true;
      repr := {this};
    }

    /** Writes the receiver's fields from a JSON value, keeping the value itself in raw. */
    method UnmarshalJSON(j: Json) returns (ok: bool)
      requires repr == {this} && content == []
      modifies this
      ensures ok <==> DecodeBlock(j).Some?
      ensures ok ==> Valid() && fresh(repr - {this}) && View() == DecodeBlock(j).value
      decreases j, 1
    {
      hide DecodeString, DecodeSource, DecodeBool, DecodeContent, ContentIsNil, Field, Forest, Shows, Valid, View,
          Views;
      raw := Some(j);
      if j.Null? {
        typ, text, source, isError, isNil := "", "", None, false, true;
        Leaf();
        return true;
      }
      if !j.Obj? {
        return false;
      }
      var t, x := DecodeString(Field(j.fields, "type")), DecodeString(Field(j.fields, "text"));
      var s, e := DecodeSource(Field(j.fields, "source")), DecodeBool(Field(j.fields, "is_error"));
      var fine, blocks := true, [];
      ghost var all: set<ContentBlock> := {};
      NoBlocks();
      if "content" in j.fields {
        fine, blocks, all := UnmarshalContent(j.fields["content"]);
      }
      if t.None? || x.None? || s.None? || e.None? || !fine {
        return false;
      }
      isNil := ContentIsNil(Field(j.fields, "content"));
      SetFields(t.value, x.value, s.value, e.value, blocks, all,
                if "content" in j.fields then DecodeContent(j.fields["content"]).value else []);
      return true;
    }

    lemma Leaf()
      requires repr == {this} && content == []
      ensures Valid() && View() == Block(raw, typ, text, source, [], isError, isNil)
    {
    }

    lemma ViewFields()
      requires Valid()
      ensures View() == Block(raw, typ, text, source, View().content, isError, isNil)
    {
    }

    method SetFields(typ: string, text: string, source: Option<ImageSource>, isError: bool,
                     blocks: seq<ContentBlock>, ghost all: set<ContentBlock>, ghost values: seq<Block>)
      requires Forest(blocks, all) && this !in all && Shows(blocks, all, values)
      modifies this`typ, this`text, this`source, this`isError, this`content, this`repr
      ensures Valid() && repr == {this} + all && View() == Block(raw, typ, text, source, values, isError, isNil)
    {
      hide Forest, Shows, Valid, View, Views;
      this.typ, this.text, this.source, this.isError := typ, text, source, isError;
      Adopt(blocks, all, values);
      ViewFields();
    }

    // Takes a forest as the block's content.
    method Adopt(blocks: seq<ContentBlock>, ghost all: set<ContentBlock>, ghost values: seq<Block>)
      requires Forest(blocks, all) && this !in all && Shows(blocks, all, values)
      modifies this`content, this`repr
      ensures Valid() && content == blocks && repr == {this} + all
      ensures View().content == values
    {
      content := blocks;
      repr := {this} + all;
      assert Forest(blocks, all) && Shows(blocks, all, values);
      assert View().content == values;
    }

    /** Prints the block: raw, with content merged in for a tool_result, or the fields if there is no raw. */
    method MarshalJSON() returns (j: Json)
      requires Valid()
      ensures j == EncodeBlock(View())
      decreases repr, 1
    {
      if raw.None? || (typ == TOOL_RESULT && !raw.value.Obj?) {
        j := MarshalFromFields();
        return;
      }
      if typ != TOOL_RESULT || content == [] {
        return raw.value;
      }
      var items := MarshalContent();
      return Obj(raw.value.fields["content" := Arr(items)]);
    }

    method MarshalFromFields() returns (j: Json)
      requires Valid()
      ensures j == EncodeFields(View())
      decreases repr, 0, |content| + 1
    {
      if typ == TOOL_RESULT {
        var c := Json.Null;
        if !isNil {
          var items := MarshalContent();
          c := Arr(items);
        }
        return Obj(map["type" := Str(typ), "content" := c] + if isError then map["is_error" := Bool(true)] else map[]);
      }
      return Obj(map["type" := Str(typ)]
                 + (if text != "" then map["text" := Str(text)] else map[])
                 + if source.Some? then map["source" := EncodeSource(source.value)] else map[]);
    }

    method MarshalContent() returns (items: seq<Json>)
      requires Valid()
      ensures items == EncodeBlocks(View().content)
      decreases repr, 0, |content|
    {
      items := [];
      ghost var blocks := View().content;
      for k := 0 to |content|
        invariant |items| == k
        invariant forall i :: 0 <= i < k ==> items[i] == EncodeBlock(blocks[i])
      {
        var item := content[k].MarshalJSON();
        items := items + [item];
      }
      forall i | 0 <= i < |items| ensures items[i] == EncodeBlocks(blocks)[i] {
        EncodeBlocksAt(blocks, i);
      }
    }

    /** Makes the block a text block in place. */
    method ReplaceWithText(newText: string)
      modifies this`typ, this`text, this`source, this`raw
      ensures BecameText(newText)
    {
      typ, text, source, raw := TEXT, newText, None, Some(TextJson(newText));
    }

    twostate predicate BecameText(new newText: string)
      reads this
    {
      && typ == TEXT && text == newText && source == None && raw == Some(TextJson(newText))
      && content == old(content) && isError == old(isError) && isNil == old(isNil) && repr == old(repr)
    }

    /** Appends to out the image blocks of this tree, as pointers; `here` names the place of this block. */
    method CollectImageBlocks(out: seq<ContentBlock>, depth: nat, ghost here: Path)
      returns (all: seq<ContentBlock>, ghost found: seq<ContentBlock>)
      requires Valid()
      ensures all == out + found && Points(this, here, Find(View(), here, depth), found)
      decreases repr, |content| + 1
    {
      if typ == IMAGE && source.Some? && source.value.data != "" {
        return out + [this], [this];
      }
      all, found := out, [];
      if typ == TOOL_RESULT && depth < MAX_DEPTH {
        all, found := CollectFromContent(out, depth, here);
      }
    }

    method CollectFromContent(out: seq<ContentBlock>, depth: nat, ghost here: Path)
      returns (all: seq<ContentBlock>, ghost found: seq<ContentBlock>)
      requires Valid() && depth < MAX_DEPTH
      ensures all == out + found && Points(this, here, FindFrom(View(), here, depth, 0), found)
      decreases repr, |content|
    {
      hide Find, FindFrom, Points, Resolve, View, Views;
      all, found := out, [];
      ghost var paths: seq<Path> := [];
      NoPoints(this, here);
      for k := 0 to |content|
        invariant all == out + found && Points(this, here, paths, found)
        invariant paths + FindFrom(View(), here, depth, k) == FindFrom(View(), here, depth, 0)
      {
        ghost var more;
        all, more := content[k].CollectImageBlocks(all, depth + 1, here + [k]);
        ghost var next := Find(View().content[k], here + [k], depth + 1);
        ChildView(k);
        FindFromStep(View(), here, depth, k);
        PointsFromChild(this, here, k, next, more);
        PointsConcat(this, here, paths, found, next, more);
        paths, found := paths + next, found + more;
      }
      FindFromEnd(View(), here, depth);
      assert paths + [] == paths;
    }

    lemma ChildView(k: nat)
      requires Valid() && k < |content|
      ensures content[k].Valid() && View().content[k] == content[k].View()
    {
    }
  }

  // ---------- Pointers and paths ----------

  // The block a path leads to, or null.
  ghost function Resolve(b: ContentBlock, p: Path): (r: ContentBlock?)
    requires b.Valid()
    reads b, b.repr
    ensures r != null ==> r in b.repr
    decreases |p|
  {
    if p == [] then b
    else if p[0] < |b.content| then Resolve(b.content[p[0]], p[1..])
    else null
  }

  // found[i] is the block at paths[i], where b itself stands at `here`.
  ghost predicate Points(b: ContentBlock, here: Path, paths: seq<Path>, found: seq<ContentBlock>)
    requires b.Valid()
    reads b, b.repr
  {
    && |paths| == |found|
    && forall i :: 0 <= i < |paths| ==> Extends(here, paths[i]) && Resolve(b, paths[i][|here|..]) == found[i]
  }

  lemma FindFromStep(b: Block, here: Path, depth: nat, k: nat)
    requires k < |b.content|
    ensures FindFrom(b, here, depth, k) == Find(b.content[k], here + [k], depth + 1) + FindFrom(b, here, depth, k + 1)
  {
  }

  lemma FindFromEnd(b: Block, here: Path, depth: nat)
    ensures FindFrom(b, here, depth, |b.content|) == []
  {
  }

  lemma NoPoints(b: ContentBlock, here: Path)
    requires b.Valid()
    ensures Points(b, here, [], [])
  {
  }

  lemma PointsConcat(b: ContentBlock, here: Path, p: seq<Path>, f: seq<ContentBlock>, q: seq<Path>,
      g: seq<ContentBlock>)
    requires b.Valid() && Points(b, here, p, f) && Points(b, here, q, g)
    ensures Points(b, here, p + q, f + g)
  {
    hide Resolve;
  }

  lemma PointsFromChild(b: ContentBlock, here: Path, k: nat, paths: seq<Path>, found: seq<ContentBlock>)
    requires b.Valid() && k < |b.content| && Points(b.content[k], here + [k], paths, found)
    ensures Points(b, here, paths, found)
  {
    forall i | 0 <= i < |paths| ensures Extends(here, paths[i]) && Resolve(b, paths[i][|here|..]) == found[i] {
      ExtendChild(here, k, paths[i]);
    }
  }

  // Between two states only block t of the root's tree has changed, and it became a text block.
  twostate predicate OnlyChanged(root: ContentBlock, t: ContentBlock, new text: string)
    reads root, root.repr, t
  {
    t.BecameText(text) && root.repr == old(root.repr) && forall o :: o in old(root.repr) && o != t ==> unchanged(o)
  }

  // A tree whose blocks have not changed shows the same value.
  twostate lemma TreeSame(b: ContentBlock)
    requires old(b.Valid()) && forall o :: o in old(b.repr) ==> unchanged(o)
    ensures b.repr == old(b.repr) && b.Valid() && b.View() == old(b.View())
  {
    assert b in old(b.repr);
  }

  twostate lemma StillValid(b: ContentBlock)
    requires old(b.Valid()) && b.content == old(b.content) && b.repr == old(b.repr)
    requires forall c :: c in b.content ==> c.repr == old(c.repr) && c.Valid()
    ensures b.Valid()
  {
  }

  lemma ViewIs(b: ContentBlock, values: seq<Block>)
    requires b.Valid() && |values| == |b.content|
    requires forall i :: 0 <= i < |values| ==> values[i] == b.content[i].View()
    ensures b.View() == Block(b.raw, b.typ, b.text, b.source, values, b.isError, b.isNil)
  {
    assert b.View().content == values;
  }

  // A child owns a part of its parent's tree, without the parent.
  twostate lemma ChildTree(b: ContentBlock, new i: nat)
    requires old(b.Valid()) && i < |old(b.content)|
    ensures old(b.content[i].Valid()) && old(b.content[i].repr) <= old(b.repr)
    ensures b in old(b.repr) && b !in old(b.content[i].repr)
    ensures |old(b.View()).content| == |old(b.content)| && old(b.View()).content[i] == old(b.content[i].View())
  {
  }

  twostate lemma Siblings(b: ContentBlock, new i: nat, new k: nat)
    requires old(b.Valid()) && i < |old(b.content)| && k < |old(b.content)| && i != k
    ensures old(b.content[i].repr) !! old(b.content[k].repr)
  {
  }

  twostate lemma OldFields(b: ContentBlock)
    requires old(b.Valid())
    ensures old(b.View()) == Block(
              old(b.raw), old(b.typ), old(b.text), old(b.source), old(b.View()).content, old(b.isError), old(b.isNil))
  {
  }

  twostate lemma ReplaceRootShows(b: ContentBlock, new text: string)
    requires old(b.Valid()) && OnlyChanged(b, b, text)
    ensures b.Valid() && b.View() == Replaced(old(b.View()), text)
  {
    hide ContentBlock.Valid, ContentBlock.View, ContentBlock.Views;
    forall i | 0 <= i < |b.content|
      ensures b.content[i].repr == old(b.content[i].repr) && b.content[i].Valid()
      ensures |old(b.View()).content| == |b.content| && b.content[i].View() == old(b.View()).content[i]
    {
      ChildTree(b, i);
      TreeSame(old(b.content[i]));
    }
    StillValid(b);
    ViewIs(b, old(b.View()).content);
    OldFields(b);
  }

  // A change below child p[0] changes neither the root nor the other children.
  twostate lemma ChangedInChild(b: ContentBlock, new p: Path, new text: string)
    requires old(b.Valid()) && p != [] && old(Resolve(b, p)) != null && OnlyChanged(b, old(Resolve(b, p)), text)
    ensures p[0] < |old(b.content)| && unchanged(b)
    ensures forall o :: o in old(b.repr) && o !in old(b.content[p[0]].repr) ==> unchanged(o)
    ensures OnlyChanged(old(b.content[p[0]]), old(Resolve(b, p)), text)
  {
    ChildTree(b, p[0]);
  }

  // The changed block lies below child k, which is known to show the change.
  twostate lemma ReplaceBelowShows(b: ContentBlock, new k: nat, new child: Block)
    requires old(b.Valid()) && k < |old(b.content)| && unchanged(b)
    requires forall o :: o in old(b.repr) && o !in old(b.content[k].repr) ==> unchanged(o)
    requires old(b.content[k]).repr == old(b.content[k].repr)
    requires old(b.content[k]).Valid() && old(b.content[k]).View() == child
    ensures b.Valid() && b.View() == old(b.View()).(content := old(b.View()).content[k := child])
  {
    hide ContentBlock.Valid, ContentBlock.View, ContentBlock.Views;
    ChildTree(b, k);
    forall i | 0 <= i < |b.content| && i != k
      ensures b.content[i].repr == old(b.content[i].repr) && b.content[i].Valid()
      ensures b.content[i].View() == old(b.View()).content[i]
    {
      Siblings(b, i, k);
      ChildTree(b, i);
      TreeSame(old(b.content[i]));
    }
    StillValid(b);
    ViewIs(b, old(b.View()).content[k := child]);
    OldFields(b);
  }

  /** Changing one block through its pointer changes the tree at its path, and no other block. */
  twostate lemma {:induction false} ReplaceShows(b: ContentBlock, new p: Path, new text: string)
    requires old(b.Valid()) && old(Resolve(b, p)) != null && OnlyChanged(b, old(Resolve(b, p)), text)
    ensures b.repr == old(b.repr) && b.Valid() && b.View() == ReplaceAt(old(b.View()), p, text)
    decreases |p|
  {
    if p == [] {
      ReplaceRootShows(b, text);
    } else {
      ChildTree(b, p[0]);
      ChangedInChild(b, p, text);
      ReplaceShows(old(b.content[p[0]]), p[1..], text);
      ReplaceBelowShows(b, p[0], old(b.content[p[0]]).View());
    }
  }

  // Replacing blocks leaves every pointer where it was.
  twostate lemma {:induction false} ResolveSame(b: ContentBlock, new p: Path)
    requires old(b.Valid()) && b.Valid()
    requires forall o :: o in old(b.repr) ==> o.content == old(o.content) && o.repr == old(o.repr)
    ensures Resolve(b, p) == old(Resolve(b, p))
    decreases |p|
  {
    if p != [] && p[0] < |b.content| {
      assert b in old(b.repr);
      ChildTree(b, p[0]);
      ResolveSame(old(b.content[p[0]]), p[1..]);
    }
  }

  // Well-formed trees with no block in common, all of them within `all`.
  ghost predicate Forest(blocks: seq<ContentBlock>, all: set<ContentBlock>)
    reads all
  {
    && (forall b :: b in blocks ==> b in all && b.repr <= all && b.Valid())
    && (forall i, j :: 0 <= i < j < |blocks| ==> blocks[i].repr !! blocks[j].repr)
  }

  ghost predicate Shows(blocks: seq<ContentBlock>, all: set<ContentBlock>, values: seq<Block>)
    requires Forest(blocks, all)
    reads all
  {
    |blocks| == |values| && forall i :: 0 <= i < |blocks| ==> blocks[i].View() == values[i]
  }

  lemma ForestSnoc(blocks: seq<ContentBlock>, all: set<ContentBlock>, values: seq<Block>, b: ContentBlock)
    requires Forest(blocks, all) && b.Valid() && b.repr !! all && Shows(blocks, all, values)
    ensures Forest(blocks + [b], all + b.repr) && Shows(blocks + [b], all + b.repr, values + [b.View()])
  {
    var more := blocks + [b];
    forall i, j | 0 <= i < j < |more| ensures more[i].repr !! more[j].repr {
      assert more[i] in blocks;
    }
  }

  // The loop over the items computes the recursive decoding.
  lemma {:induction false} DecodeBlocksFrom(items: seq<Json>, values: seq<Block>)
    requires |values| == |items| && forall i :: 0 <= i < |items| ==> DecodeBlock(items[i]) == Some(values[i])
    ensures DecodeBlocks(items) == Some(values)
  {
    if items != [] {
      assert values == [values[0]] + values[1..];
      DecodeBlocksFrom(items[1..], values[1..]);
    }
  }

  lemma DecodeBlocksFails(items: seq<Json>, k: nat)
    requires k < |items| && DecodeBlock(items[k]).None?
    ensures DecodeBlocks(items).None?
  {
    if DecodeBlocks(items).Some? {
      DecodeBlocksAt(items, k);
    }
  }

  /** An array of blocks, or a string standing for one text block; anything else is an error. */
  method UnmarshalContent(j: Json) returns (ok: bool, blocks: seq<ContentBlock>, ghost all: set<ContentBlock>)
    ensures ok <==> DecodeContent(j).Some?
    ensures ok ==> Forest(blocks, all) && fresh(all) && Shows(blocks, all, DecodeContent(j).value)
    decreases j, 0
  {
    ok, blocks, all := true, [], {};
    match j {
      case Arr(items) =>
        ok, blocks, all := UnmarshalBlocks(items);
      case Null =>
      case Str(s) =>
        if s != "" {
          var b := new ContentBlock();
          b.typ, b.text := TEXT, s;
          blocks, all := [b], {b};
        }
      case _ => ok := false;
    }
  }

  method UnmarshalBlocks(items: seq<Json>) returns (ok: bool, blocks: seq<ContentBlock>, ghost all: set<ContentBlock>)
    ensures ok <==> DecodeBlocks(items).Some?
    ensures ok ==> Forest(blocks, all) && fresh(all) && Shows(blocks, all, DecodeBlocks(items).value)
    decreases items, 0
  {
    hide Forest, Shows, ContentBlock.Valid, ContentBlock.View, DecodeBlock, DecodeBlocks;
    blocks, all := [], {};
    ghost var values: seq<Block> := [];
    NoBlocks();
    for k := 0 to |items|
      invariant Forest(blocks, all) && fresh(all) && Shows(blocks, all, values)
      invariant |values| == k && forall i :: 0 <= i < k ==> DecodeBlock(items[i]) == Some(values[i])
    {
      var b := new ContentBlock();
      var fine := b.UnmarshalJSON(items[k]);
      if !fine {
        DecodeBlocksFails(items, k);
        return false, blocks, all;
      }
      ForestSnoc(blocks, all, values, b);
      blocks, all, values := blocks + [b], all + b.repr, values + [b.View()];
    }
    ok := true;
    DecodeBlocksFrom(items, values);
  }

  lemma NoBlocks()
    ensures Forest([], {}) && Shows([], {}, [])
  {
  }
}
