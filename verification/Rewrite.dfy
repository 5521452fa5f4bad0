/**
  Finding the image blocks of a request, replacing them with text, and what the marshalled request
  then is. A block is named by its path: the positions to follow from the top. The source holds
  pointers to blocks; `Blocks` relates those to paths.
*/
module Rewrite {
  import opened Basics
  import opened Content

  type Path = seq<nat>

  const MAX_DEPTH := 16

  predicate IsImage(b: Block) {
    b.typ == IMAGE && b.source.Some? && b.source.value.data != ""
  }

  // The block after replacement by a text: only type, text, source and raw change.
  function Replaced(b: Block, text: string): Block {
    b.(typ := TEXT, text := text, source := None, raw := Some(TextJson(text)))
  }

  // ---------- Finding ----------

  // The paths of the image blocks in b, which stands at `here` under `depth` tool_result layers.
  function Find(b: Block, here: Path, depth: int): seq<Path>
    decreases b, |b.content| + 1
  {
    if IsImage(b) then [here]
    else if b.typ == TOOL_RESULT && depth < MAX_DEPTH then FindFrom(b, here, depth, 0)
    else []
  }

  // Those in the children of b from the k-th on.
  function FindFrom(b: Block, here: Path, depth: int, k: nat): seq<Path>
    decreases b, |b.content| - k
  {
    if k >= |b.content| then []
    else Find(b.content[k], here + [k], depth + 1) + FindFrom(b, here, depth, k + 1)
  }

  // The block at a path below b, if there is one.
  function At(b: Block, p: Path): Option<Block>
    decreases |p|
  {
    if p == [] then Some(b)
    else if p[0] < |b.content| then At(b.content[p[0]], p[1..])
    else None
  }

  // p leads from b to an image through tool_result blocks only, the last under at most 16 of them.
  predicate Eligible(b: Block, p: Path, depth: int)
    decreases |p|
  {
    if p == [] then IsImage(b)
    else b.typ == TOOL_RESULT && depth < MAX_DEPTH && p[0] < |b.content| && Eligible(b.content[p[0]], p[1..], depth + 1)
  }

  lemma {:induction false} EligibleIsShallow(b: Block, p: Path, depth: int)
    requires Eligible(b, p, depth) && depth <= MAX_DEPTH
    ensures depth + |p| <= MAX_DEPTH
    ensures At(b, p).Some? && IsImage(At(b, p).value)
    decreases |p|
  {
    if p != [] {
      EligibleIsShallow(b.content[p[0]], p[1..], depth + 1);
    }
  }

  // p leads from b through tool_result blocks to an image block with data, however deep.
  predicate LeadsToImage(b: Block, p: Path)
    decreases |p|
  {
    if p == [] then b.typ == "image" && b.source.Some? && b.source.value.data != ""
    else b.typ == "tool_result" && p[0] < |b.content| && LeadsToImage(b.content[p[0]], p[1..])
  }

  /** Eligible are the image blocks with data under at most 16 layers of tool_results. */
  lemma {:induction false} EligibleIffLeads(b: Block, p: Path, depth: int)
    requires depth <= 16
    ensures Eligible(b, p, depth) <==> LeadsToImage(b, p) && depth + |p| <= 16
    decreases |p|
  {
    if p != [] && p[0] < |b.content| && depth < 16 {
      EligibleIffLeads(b.content[p[0]], p[1..], depth + 1);
    }
  }

  predicate Extends(here: Path, p: Path) {
    here <= p
  }

  lemma ExtendChild(here: Path, k: nat, p: Path)
    requires Extends(here + [k], p)
    ensures Extends(here, p) && |here| < |p| && p[|here|] == k && p[|here|..] == [k] + p[|here| + 1..]
    ensures p[|here| + 1..] == p[|here + [k]|..] && p[|here|..][1..] == p[|here| + 1..]
  {
    assert p[|here|] == (here + [k])[|here|];
  }

  /** FindImageBlocks returns a path exactly when it leads to an eligible image. */
  lemma {:induction false} FindIsEligible(b: Block, here: Path, depth: int, p: Path)
    ensures p in Find(b, here, depth) <==> Extends(here, p) && Eligible(b, p[|here|..], depth)
    decreases b, |b.content| + 1
  {
    if IsImage(b) {
      assert Extends(here, p) && p[|here|..] == [] ==> p == here;
      assert Extends(here, p) && |p| > |here| ==> p[|here|..] != [];
    } else if b.typ == TOOL_RESULT && depth < MAX_DEPTH {
      FindFromIsEligible(b, here, depth, 0, p);
      assert |p| > |here| ==> p[|here|..][0] == p[|here|];
    }
  }

  lemma {:induction false} FindFromIsEligible(b: Block, here: Path, depth: int, k: nat, p: Path)
    requires depth < MAX_DEPTH && k <= |b.content|
    ensures p in FindFrom(b, here, depth, k) <==>
            Extends(here, p) && |p| > |here| && k <= p[|here|] < |b.content| &&
            Eligible(b.content[p[|here|]], p[|here| + 1..], depth + 1)
    decreases b, |b.content| - k
  {
    if k < |b.content| {
      FindIsEligible(b.content[k], here + [k], depth + 1, p);
      FindFromIsEligible(b, here, depth, k + 1, p);
      if Extends(here + [k], p) {
        ExtendChild(here, k, p);
      }
      assert Extends(here, p) && |p| > |here| && p[|here|] == k ==> p[..|here| + 1] == here + [k];
    }
  }

  /** Each eligible image is found once. */
  lemma {:induction false} FindOnce(b: Block, here: Path, depth: int)
    ensures Distinct(Find(b, here, depth))
    decreases b, |b.content| + 1
  {
    if !IsImage(b) && b.typ == TOOL_RESULT && depth < MAX_DEPTH {
      FindFromOnce(b, here, depth, 0);
    }
  }

  lemma DistinctConcat(a: seq<Path>, c: seq<Path>)
    requires Distinct(a) && Distinct(c) && forall p :: p in a ==> p !in c
    ensures Distinct(a + c)
  {
    forall i, j | 0 <= i < j < |a + c| ensures (a + c)[i] != (a + c)[j] {
      if i < |a| <= j {
        assert a[i] in a && c[j - |a|] in c;
      }
    }
  }

  lemma {:induction false} FindFromOnce(b: Block, here: Path, depth: int, k: nat)
    requires depth < MAX_DEPTH && k <= |b.content|
    ensures Distinct(FindFrom(b, here, depth, k))
    decreases b, |b.content| - k
  {
    if k < |b.content| {
      var first, rest := Find(b.content[k], here + [k], depth + 1), FindFrom(b, here, depth, k + 1);
      FindOnce(b.content[k], here + [k], depth + 1);
      FindFromOnce(b, here, depth, k + 1);
      forall p | p in first ensures p !in rest {
        FindIsEligible(b.content[k], here + [k], depth + 1, p);
        FindFromIsEligible(b, here, depth, k + 1, p);
        ExtendChild(here, k, p);
      }
      DistinctConcat(first, rest);
    }
  }

  // p comes before q in the document, and not on the way to it.
  predicate Before(p: Path, q: Path)
    decreases |p|
  {
    p != [] && q != [] && (p[0] < q[0] || (p[0] == q[0] && Before(p[1..], q[1..])))
  }

  // The i-th path found comes before the j-th, below `here`.
  lemma {:induction false} FindAscends(b: Block, here: Path, depth: int, i: nat, j: nat)
    requires i < j < |Find(b, here, depth)|
    ensures var p, q := Find(b, here, depth)[i], Find(b, here, depth)[j];
            Extends(here, p) && Extends(here, q) && Before(p[|here|..], q[|here|..])
    decreases b, |b.content| + 1
  {
    FindFromAscends(b, here, depth, 0, i, j);
  }

  lemma {:induction false} FindFromAscends(b: Block, here: Path, depth: int, k: nat, i: nat, j: nat)
    requires depth < MAX_DEPTH && k <= |b.content| && i < j < |FindFrom(b, here, depth, k)|
    ensures var p, q := FindFrom(b, here, depth, k)[i], FindFrom(b, here, depth, k)[j];
            Extends(here, p) && Extends(here, q) && Before(p[|here|..], q[|here|..])
    decreases b, |b.content| - k
  {
    var first, rest := Find(b.content[k], here + [k], depth + 1), FindFrom(b, here, depth, k + 1);
    var p, q := FindFrom(b, here, depth, k)[i], FindFrom(b, here, depth, k)[j];
    if |first| <= i {
      FindFromAscends(b, here, depth, k + 1, i - |first|, j - |first|);
    } else {
      hide Find, FindFrom, Eligible;
      assert p == first[i] && p in first;
      FindIsEligible(b.content[k], here + [k], depth + 1, p);
      ExtendChild(here, k, p);
      if j < |first| {
        assert q == first[j] && q in first;
        FindIsEligible(b.content[k], here + [k], depth + 1, q);
        ExtendChild(here, k, q);
        FindAscends(b.content[k], here + [k], depth + 1, i, j);
      } else {
        assert q == rest[j - |first|] && q in rest;
        FindFromIsEligible(b, here, depth, k + 1, q);
        assert q[|here|..][0] == q[|here|];
      }
    }
  }

  // An eligible image has no eligible image inside it.
  lemma {:induction false} EligibleAntichain(b: Block, p: Path, q: Path, depth: int)
    requires Eligible(b, p, depth) && Eligible(b, q, depth) && p <= q
    ensures p == q
    decreases |p|
  {
    if p == [] {
      assert q == [];
    } else {
      EligibleAntichain(b.content[p[0]], p[1..], q[1..], depth + 1);
    }
  }

  /** No image found lies inside another. */
  lemma FoundImagesAreDisjoint(b: Block, here: Path, depth: int, p: Path, q: Path)
    requires p in Find(b, here, depth) && q in Find(b, here, depth) && p <= q
    ensures p == q
  {
    FindIsEligible(b, here, depth, p);
    FindIsEligible(b, here, depth, q);
    assert p[|here|..] <= q[|here|..];
    EligibleAntichain(b, p[|here|..], q[|here|..], depth);
    assert p == here + p[|here|..] && q == here + q[|here|..];
  }

  // ---------- Replacing everything at once ----------

  // b with every eligible image replaced by the text for its path.
  function RewriteBlock(b: Block, here: Path, depth: int, f: Path -> string): Block
    decreases b, |b.content| + 1
  {
    if depth > MAX_DEPTH then b
    else if IsImage(b) then Replaced(b, f(here))
    else if b.typ == TOOL_RESULT && depth < MAX_DEPTH then b.(content := RewriteFrom(b, here, depth, f, 0))
    else b
  }

  function RewriteFrom(b: Block, here: Path, depth: int, f: Path -> string, k: nat): (r: seq<Block>)
    ensures |r| == if k <= |b.content| then |b.content| - k else 0
    decreases b, |b.content| - k
  {
    if k >= |b.content| then []
    else [RewriteBlock(b.content[k], here + [k], depth + 1, f)] + RewriteFrom(b, here, depth, f, k + 1)
  }

  lemma {:induction false} RewriteFromAt(b: Block, here: Path, depth: int, f: Path -> string, k: nat, i: nat)
    requires k <= i < |b.content|
    ensures RewriteFrom(b, here, depth, f, k)[i - k] == RewriteBlock(b.content[i], here + [i], depth + 1, f)
    decreases |b.content| - k
  {
    if k < i {
      RewriteFromAt(b, here, depth, f, k + 1, i);
    }
  }

  /** After the rewrite there is no image left to find. */
  lemma {:induction false} RewriteLeavesNoImage(b: Block, here: Path, depth: int, f: Path -> string, at: Path)
    requires depth <= MAX_DEPTH
    ensures Find(RewriteBlock(b, here, depth, f), at, depth) == []
    decreases b, |b.content| + 1
  {
    var r := RewriteBlock(b, here, depth, f);
    if !IsImage(b) && b.typ == TOOL_RESULT && depth < MAX_DEPTH {
      RewriteFromLeavesNoImage(b, r, here, depth, f, at, 0);
    }
  }

  lemma {:induction false} RewriteFromLeavesNoImage(
    b: Block, r: Block, here: Path, depth: int, f: Path -> string, at: Path, k: nat)
    requires depth < MAX_DEPTH && r.content == RewriteFrom(b, here, depth, f, 0) && k <= |b.content|
    ensures FindFrom(r, at, depth, k) == []
    decreases b, |b.content| - k
  {
    if k < |b.content| {
      RewriteFromAt(b, here, depth, f, 0, k);
      RewriteLeavesNoImage(b.content[k], here + [k], depth + 1, f, at + [k]);
      RewriteFromLeavesNoImage(b, r, here, depth, f, at, k + 1);
    }
  }

  // ---------- Replacing one block at a time, in any order ----------

  // b with the block at path p replaced in place.
  function ReplaceAt(b: Block, p: Path, text: string): Block
    decreases |p|
  {
    if p == [] then Replaced(b, text)
    else if p[0] < |b.content|
    then b.(content := b.content[p[0] := ReplaceAt(b.content[p[0]], p[1..], text)])
    else b
  }

  // b with exactly the images whose paths are in `done` replaced.
  function Marked(b: Block, here: Path, depth: int, f: Path -> string, done: set<Path>): Block
    decreases b, |b.content| + 1
  {
    if IsImage(b) then (if here in done then Replaced(b, f(here)) else b)
    else if b.typ == TOOL_RESULT && depth < MAX_DEPTH then b.(content := MarkedFrom(b, here, depth, f, done, 0))
    else b
  }

  function MarkedFrom(b: Block, here: Path, depth: int, f: Path -> string, done: set<Path>, k: nat): (r: seq<Block>)
    ensures |r| == if k <= |b.content| then |b.content| - k else 0
    decreases b, |b.content| - k
  {
    if k >= |b.content| then []
    else [Marked(b.content[k], here + [k], depth + 1, f, done)] + MarkedFrom(b, here, depth, f, done, k + 1)
  }

  lemma {:induction false} MarkedFromAt(b: Block, here: Path, depth: int, f: Path -> string, done: set<Path>, k: nat,
      i: nat)
    requires k <= i < |b.content|
    ensures MarkedFrom(b, here, depth, f, done, k)[i - k] == Marked(b.content[i], here + [i], depth + 1, f, done)
    decreases |b.content| - k
  {
    if k < i {
      MarkedFromAt(b, here, depth, f, done, k + 1, i);
    }
  }

  // Only paths at or below `here` matter.
  lemma {:induction false} MarkedIgnores(b: Block, here: Path, depth: int, f: Path -> string, done: set<Path>, p: Path)
    requires !Extends(here, p)
    ensures Marked(b, here, depth, f, done + {p}) == Marked(b, here, depth, f, done)
    decreases b, |b.content| + 1
  {
    if !IsImage(b) && b.typ == TOOL_RESULT && depth < MAX_DEPTH {
      MarkedFromIgnores(b, here, depth, f, done, p, 0);
    }
  }

  lemma {:induction false} MarkedFromIgnores(
    b: Block, here: Path, depth: int, f: Path -> string, done: set<Path>, p: Path, k: nat)
    requires k <= |b.content| && (Extends(here, p) ==> |p| > |here| && p[|here|] < k)
    ensures MarkedFrom(b, here, depth, f, done + {p}, k) == MarkedFrom(b, here, depth, f, done, k)
    decreases b, |b.content| - k
  {
    if k < |b.content| {
      if Extends(here + [k], p) {
        ExtendChild(here, k, p);
      }
      MarkedIgnores(b.content[k], here + [k], depth + 1, f, done, p);
      MarkedFromIgnores(b, here, depth, f, done, p, k + 1);
    }
  }

  // Marking one more path below child k marks it there and changes no other child.
  lemma ChildrenMarked(b: Block, here: Path, depth: int, f: Path -> string, done: set<Path>, q: Path, k: nat, i: nat)
    requires k < |b.content| && i < |b.content| && here + [k] <= q
    ensures MarkedFrom(b, here, depth, f, done, 0)[i] == Marked(b.content[i], here + [i], depth + 1, f, done)
    ensures MarkedFrom(b, here, depth, f, done + {q}, 0)[i]
            == Marked(b.content[i], here + [i], depth + 1, f, if i == k then done + {q} else done)
  {
    hide Marked, MarkedFrom;
    MarkedFromAt(b, here, depth, f, done, 0, i);
    MarkedFromAt(b, here, depth, f, done + {q}, 0, i);
    if i != k {
      assert !Extends(here + [i], q) by {
        assert (here + [i])[|here|] == i && q[|here|] == (here + [k])[|here|] == k;
      }
      MarkedIgnores(b.content[i], here + [i], depth + 1, f, done, q);
    }
  }

  // Replacing one more image in place marks one more.
  lemma {:induction false} MarkOneMore(b: Block, here: Path, depth: int, f: Path -> string, done: set<Path>, p: Path)
    requires Eligible(b, p, depth) && depth <= MAX_DEPTH && here + p !in done
    ensures ReplaceAt(Marked(b, here, depth, f, done), p, f(here + p)) == Marked(b, here, depth, f, done + {here + p})
    decreases |p|
  {
    if p == [] {
      assert here + p == here;
    } else {
      var k, q := p[0], here + p;
      var marked, goal := Marked(b, here, depth, f, done), Marked(b, here, depth, f, done + {q});
      assert q == here + [k] + p[1..];
      MarkOneMore(b.content[k], here + [k], depth + 1, f, done, p[1..]);
      hide MarkedFrom;
      forall i | 0 <= i < |b.content| ensures ReplaceAt(marked, p, f(q)).content[i] == goal.content[i] {
        ChildrenMarked(b, here, depth, f, done, q, k, i);
        ChildrenMarked(b, here, depth, f, done, q, k, k);
      }
      assert ReplaceAt(marked, p, f(q)).content == goal.content;
    }
  }

  lemma {:induction false} MarkedNone(b: Block, here: Path, depth: int, f: Path -> string)
    ensures Marked(b, here, depth, f, {}) == b
    decreases b, |b.content| + 1
  {
    if !IsImage(b) && b.typ == TOOL_RESULT && depth < MAX_DEPTH {
      forall i | 0 <= i < |b.content| ensures MarkedFrom(b, here, depth, f, {}, 0)[i] == b.content[i] {
        MarkedFromAt(b, here, depth, f, {}, 0, i);
        MarkedNone(b.content[i], here + [i], depth + 1, f);
      }
      assert MarkedFrom(b, here, depth, f, {}, 0) == b.content;
    }
  }

  lemma {:induction false} MarkedAll(b: Block, here: Path, depth: int, f: Path -> string, done: set<Path>)
    requires depth <= MAX_DEPTH && forall p :: p in Find(b, here, depth) ==> p in done
    ensures Marked(b, here, depth, f, done) == RewriteBlock(b, here, depth, f)
    decreases b, |b.content| + 1
  {
    if !IsImage(b) && b.typ == TOOL_RESULT && depth < MAX_DEPTH {
      MarkedFromAll(b, here, depth, f, done, 0);
    }
  }

  lemma {:induction false} MarkedFromAll(b: Block, here: Path, depth: int, f: Path -> string, done: set<Path>, k: nat)
    requires depth < MAX_DEPTH && k <= |b.content| && forall p :: p in FindFrom(b, here, depth, k) ==> p in done
    ensures MarkedFrom(b, here, depth, f, done, k) == RewriteFrom(b, here, depth, f, k)
    decreases b, |b.content| - k
  {
    if k < |b.content| {
      MarkedAll(b.content[k], here + [k], depth + 1, f, done);
      MarkedFromAll(b, here, depth, f, done, k + 1);
    }
  }

  // ---------- The pure JSON rewrite ----------

  predicate IsImageJson(j: Json) {
    && HasType(j, IMAGE) && Field(j.fields, "source").Obj?
    && Field(Field(j.fields, "source").fields, "data").Str?
    && Field(Field(j.fields, "source").fields, "data").s != ""
  }

  // What becomes of a block's JSON: an image under at most 16 tool_result layers becomes a text block;
  // non-empty string content of a tool_result becomes an array of one text block; array content is
  // rewritten item by item; every other field, and every other block, stays.
  function RewriteJson(j: Json, here: Path, depth: int, f: Path -> string): Json
    decreases j, 1
  {
    if IsImageJson(j) && depth <= MAX_DEPTH then TextJson(f(here))
    else if HasType(j, TOOL_RESULT) && "content" in j.fields then
      match j.fields["content"]
      case Str(s) => if s == "" then j else Obj(j.fields["content" := Arr([TextJson(s)])])
      case Arr(items) => if items == [] then j
          else Obj(j.fields["content" := Arr(RewriteItems(items, here, 0, depth + 1, f))])
      case _ => j
    else j
  }

  // The items are the last |items| children, the first of them at position k.
  function RewriteItems(items: seq<Json>, here: Path, k: nat, depth: int, f: Path -> string): (r: seq<Json>)
    ensures |r| == |items|
    decreases items, 0
  {
    if items == [] then []
    else [RewriteJson(items[0], here + [k], depth, f)] + RewriteItems(items[1..], here, k + 1, depth, f)
  }

  lemma DecodedKinds(j: Json)
    requires DecodeBlock(j).Some?
    ensures var b := DecodeBlock(j).value;
            && b.raw == Some(j)
            && (IsImage(b) <==> IsImageJson(j))
            && (b.typ == TOOL_RESULT <==> HasType(j, TOOL_RESULT))
  {
  }

  // A block made from string content: not an image, and nothing inside.
  lemma TextOnlyFacts(text: string, here: Path, depth: int, f: Path -> string)
    requires text != ""
    ensures RewriteBlock(TextOnly(text), here, depth, f) == TextOnly(text)
    ensures EncodeBlock(TextOnly(text)) == TextJson(text)
  {
    assert EncodeFields(TextOnly(text)).fields == TextJson(text).fields;
  }

  /** Parsing a block tree, replacing every found image by any chosen text per position, and
      marshalling is exactly the pure JSON rewrite. */
  lemma {:induction false} PipelineIsPureRewrite(j: Json, here: Path, depth: int, f: Path -> string)
    requires DecodeBlock(j).Some?
    ensures EncodeBlock(RewriteBlock(DecodeBlock(j).value, here, depth, f)) == RewriteJson(j, here, depth, f)
    decreases j, 1
  {
    var b := DecodeBlock(j).value;
    DecodedKinds(j);
    if HasType(j, TOOL_RESULT) && "content" in j.fields {
      ContentIsPureRewrite(j, here, depth, f);
    }
  }

  // The content of a rewritten tool_result, printed.
  lemma {:induction false} ContentIsPureRewrite(j: Json, here: Path, depth: int, f: Path -> string)
    requires DecodeBlock(j).Some? && HasType(j, TOOL_RESULT) && "content" in j.fields
    ensures EncodeBlock(RewriteBlock(DecodeBlock(j).value, here, depth, f)) == RewriteJson(j, here, depth, f)
    decreases j, 0
  {
    DecodedKinds(j);
    match j.fields["content"]
    case Str(s) =>
      if s != "" {
        StringIsPureRewrite(j, here, depth, f, s);
      }
    case Arr(items) =>
      var b := DecodeBlock(j).value;
      var r := RewriteBlock(b, here, depth, f);
      forall i | 0 <= i < |items|
        ensures r.content[i] == RewriteBlock(DecodeBlocks(items).value[i], here + [i], depth + 1, f)
      {
        ChildRewritten(b, here, depth, f, i);
      }
      ItemsArePureRewrites(items, r.content, here, depth + 1, f);
    case _ =>
  }

  lemma StringIsPureRewrite(j: Json, here: Path, depth: int, f: Path -> string, s: string)
    requires DecodeBlock(j).Some? && HasType(j, TOOL_RESULT) && "content" in j.fields && j.fields["content"] == Str(s)
        && s != ""
    ensures EncodeBlock(RewriteBlock(DecodeBlock(j).value, here, depth, f)) == RewriteJson(j, here, depth, f)
  {
    var b := DecodeBlock(j).value;
    DecodedKinds(j);
    assert b.content == [TextOnly(s)];
    TextOnlyFacts(s, here + [0], depth + 1, f);
    ChildRewritten(b, here, depth, f, 0);
    assert RewriteBlock(b, here, depth, f).content == [TextOnly(s)];
    assert EncodeBlocks([TextOnly(s)]) == [TextJson(s)];
  }

  // Blocks rewritten one by one print as the items rewritten one by one.
  lemma {:induction false} ItemsArePureRewrites(items: seq<Json>, blocks: seq<Block>, here: Path, depth: int,
      f: Path -> string)
    requires DecodeBlocks(items).Some? && |blocks| == |items|
    requires forall i :: 0 <= i < |items| ==>
        blocks[i] == RewriteBlock(DecodeBlocks(items).value[i], here + [i], depth, f)
    ensures EncodeBlocks(blocks) == RewriteItems(items, here, 0, depth, f)
    decreases items, 2
  {
    hide RewriteBlock, DecodeBlock, EncodeBlock, RewriteJson, DecodeBlocks, EncodeBlocks, RewriteItems;
    forall i | 0 <= i < |items| ensures EncodeBlocks(blocks)[i] == RewriteItems(items, here, 0, depth, f)[i] {
      DecodeBlocksAt(items, i);
      EncodeBlocksAt(blocks, i);
      RewriteItemsAt(items, here, 0, depth, f, i);
      PipelineIsPureRewrite(items[i], here + [i], depth, f);
    }
  }

  // Whether or not the depth limit stops the search, child i of the rewritten block is child i rewritten.
  lemma ChildRewritten(b: Block, here: Path, depth: int, f: Path -> string, i: nat)
    requires b.typ == TOOL_RESULT && i < |b.content|
    ensures |RewriteBlock(b, here, depth, f).content| == |b.content|
    ensures RewriteBlock(b, here, depth, f).content[i] == RewriteBlock(b.content[i], here + [i], depth + 1, f)
  {
    if depth < MAX_DEPTH {
      RewriteFromAt(b, here, depth, f, 0, i);
    }
  }

  lemma {:induction false} RewriteItemsAt(items: seq<Json>, here: Path, k: nat, depth: int, f: Path -> string, i: nat)
    requires i < |items|
    ensures RewriteItems(items, here, k, depth, f)[i] == RewriteJson(items[i], here + [k + i], depth, f)
    decreases |items|
  {
    if i > 0 {
      RewriteItemsAt(items[1..], here, k + 1, depth, f, i - 1);
    }
  }
}
