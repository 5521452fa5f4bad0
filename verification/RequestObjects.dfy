/**
  A request as the source holds it: message slices over block objects. System messages are moved and
  image blocks found and replaced in place; proved against the request values of `Requests`.
*/
module RequestObjects {
  import opened Basics
  import opened Content
  import opened Rewrite
  import opened Blocks
  import R = Requests

  datatype Message = Message(role: string, content: seq<ContentBlock>, isNil: bool)

  // What the blocks of a forest show.
  ghost function Values(blocks: seq<ContentBlock>, zone: set<ContentBlock>): (v: seq<Block>)
    requires Forest(blocks, zone)
    reads zone
    ensures |v| == |blocks| && Shows(blocks, zone, v)
  {
    if blocks == [] then []
    else
      assert blocks[|blocks| - 1] in blocks;
      Values(blocks[..|blocks| - 1], zone) + [blocks[|blocks| - 1].View()]
  }

  // The blocks of ms[i] lie in zones[i].
  ghost predicate Zoned(ms: seq<Message>, zones: seq<set<ContentBlock>>, all: set<ContentBlock>)
    reads all
  {
    && |zones| == |ms|
    && forall i :: 0 <= i < |zones| ==> zones[i] <= all && Forest(ms[i].content, zones[i])
  }

  // Every message has blocks of its own, those of ms[i] in zones[i], and no block is in two places.
  ghost predicate Separate(ms: seq<Message>, zones: seq<set<ContentBlock>>, system: seq<ContentBlock>,
                           systemZone: set<ContentBlock>, all: set<ContentBlock>)
    reads all
  {
    && |zones| == |ms| && Zoned(ms, zones, all) && systemZone <= all && Forest(system, systemZone)
    && (forall i :: 0 <= i < |zones| ==> zones[i] !! systemZone)
    && (forall i, j :: 0 <= i < j < |zones| ==> zones[i] !! zones[j])
  }

  // What messages show.
  ghost function MessageValues(ms: seq<Message>, zones: seq<set<ContentBlock>>,
      all: set<ContentBlock>): (v: seq<R.Message>)
    requires Zoned(ms, zones, all)
    reads all
    ensures |v| == |ms|
    ensures forall i :: 0 <= i < |ms| ==> v[i] == R.Message(ms[i].role, Values(ms[i].content, zones[i]), ms[i].isNil)
  {
    if ms == [] then []
    else
      var n := |ms| - 1;
      MessageValues(ms[..n], zones[..n], all) + [R.Message(ms[n].role, Values(ms[n].content, zones[n]), ms[n].isNil)]
  }

  lemma ForestConcat(a: seq<ContentBlock>, zoneA: set<ContentBlock>, b: seq<ContentBlock>, zoneB: set<ContentBlock>)
    requires Forest(a, zoneA) && Forest(b, zoneB) && zoneA !! zoneB
    ensures Forest(a + b, zoneA + zoneB)
    ensures Values(a + b, zoneA + zoneB) == Values(a, zoneA) + Values(b, zoneB)
  {
    forall i, j | 0 <= i < j < |a + b| ensures (a + b)[i].repr !! (a + b)[j].repr {
      assert i < |a| ==> a[i] in a;
      assert j >= |a| ==> b[j - |a|] in b;
    }
  }

  // Moving the blocks of message k behind the system blocks keeps everything separate.
  lemma MoveBlocks(ms: seq<Message>, zones: seq<set<ContentBlock>>, system: seq<ContentBlock>,
                   systemZone: set<ContentBlock>, all: set<ContentBlock>, k: nat)
    requires Separate(ms, zones, system, systemZone, all) && k < |ms|
    ensures Separate(Without(ms, k), Without(zones, k), system + ms[k].content, systemZone + zones[k], all)
    ensures Values(system + ms[k].content, systemZone + zones[k])
        == Values(system, systemZone) + Values(ms[k].content, zones[k])
    ensures MessageValues(Without(ms, k), Without(zones, k), all) == Without(MessageValues(ms, zones, all), k)
  {
    hide Forest, Values;
    ForestConcat(system, systemZone, ms[k].content, zones[k]);
  }

  function Without<T>(s: seq<T>, k: nat): (r: seq<T>)
    requires k < |s|
    ensures |r| == |s| - 1
  {
    s[..k] + s[k + 1..]
  }

  lemma WithoutTail<T>(s: seq<T>, k: nat)
    requires 0 < k < |s|
    ensures s[1..][..k - 1] == s[..k][1..] && s[0] == s[..k][0]
    ensures Without(s, k)[0] == s[0] && Without(s, k)[1..] == Without(s[1..], k - 1)
  {
  }

  lemma NoSystemTail(ms: seq<R.Message>)
    requires R.NoSystem(ms) && ms != []
    ensures R.NoSystem(ms[1..]) && ms[0].role != R.SYSTEM
  {
  }

  lemma Head(ms: seq<R.Message>)
    requires ms != []
    ensures R.Kept(ms) == if ms[0].role == R.SYSTEM then R.Kept(ms[1..]) else [ms[0]] + R.Kept(ms[1..])
    ensures R.Moved(ms) == if ms[0].role == R.SYSTEM then ms[0].content + R.Moved(ms[1..]) else R.Moved(ms[1..])
    ensures R.SystemCount(ms) == (if ms[0].role == R.SYSTEM then 1 else 0) + R.SystemCount(ms[1..])
  {
  }

  // Moving the first system message is a step of normalising.
  lemma {:induction false} MoveFirst(ms: seq<R.Message>, k: nat)
    requires k < |ms| && R.NoSystem(ms[..k]) && ms[k].role == R.SYSTEM
    ensures R.Kept(Without(ms, k)) == R.Kept(ms)
    ensures ms[k].content + R.Moved(Without(ms, k)) == R.Moved(ms)
    ensures 1 + R.SystemCount(Without(ms, k)) == R.SystemCount(ms)
  {
    hide R.NoSystem, R.Kept, R.Moved, R.SystemCount;
    Head(ms);
    if k == 0 {
      assert Without(ms, 0) == ms[1..];
    } else {
      hide Without;
      Head(Without(ms, k));
      WithoutTail(ms, k);
      NoSystemTail(ms[..k]);
      MoveFirst(ms[1..], k - 1);
    }
  }

  // A loop state of normalising `was`: messages `shown`, the first n of them kept, and system blocks.
  ghost predicate Progress(was: R.Request, shown: seq<R.Message>, n: nat, system: seq<Block>, moved: nat) {
    && n <= |shown| && R.NoSystem(shown[..n])
    && R.Kept(shown) == R.Kept(was.messages)
    && system + R.Moved(shown) == was.system + R.Moved(was.messages)
    && moved + R.SystemCount(shown) == R.SystemCount(was.messages)
  }

  lemma ProgressMove(was: R.Request, shown: seq<R.Message>, n: nat, system: seq<Block>, moved: nat)
    requires Progress(was, shown, n, system, moved) && n < |shown| && shown[n].role == R.SYSTEM
    ensures Progress(was, Without(shown, n), n, system + shown[n].content, moved + 1)
  {
    MoveFirst(shown, n);
    assert Without(shown, n)[..n] == shown[..n];
    assert system + shown[n].content + R.Moved(Without(shown, n)) == system + R.Moved(shown);
  }

  lemma ProgressKeep(was: R.Request, shown: seq<R.Message>, n: nat, system: seq<Block>, moved: nat)
    requires Progress(was, shown, n, system, moved) && n < |shown| && shown[n].role != R.SYSTEM
    ensures Progress(was, shown, n + 1, system, moved)
  {
    assert shown[..n + 1] == shown[..n] + [shown[n]];
  }

  // With every message passed over, the request is normalised; with none moved, it is as it was.
  lemma ProgressEnd(was: R.Request, shown: seq<R.Message>, system: seq<Block>, moved: nat)
    requires Progress(was, shown, |shown|, system, moved)
    ensures was.(messages := shown, system := system, isNil := if moved > 0 then shown == [] else was.isNil)
        == R.Normalized(was)
    ensures moved == R.SystemCount(was.messages)
  {
    assert shown[..|shown|] == shown;
    R.KeptFacts(shown);
    assert system + [] == system;
  }

  // The messages `now`, the first n of them passed over, with the system blocks so far.
  ghost predicate Moving(was: R.Request, now: seq<Message>, zones: seq<set<ContentBlock>>, n: nat,
                         system: seq<ContentBlock>, systemZone: set<ContentBlock>, all: set<ContentBlock>, moved: nat)
    reads all
  {
    && Separate(now, zones, system, systemZone, all)
    && Progress(was, MessageValues(now, zones, all), n, Values(system, systemZone), moved)
  }

  lemma MovingMove(was: R.Request, now: seq<Message>, zones: seq<set<ContentBlock>>, n: nat,
                   system: seq<ContentBlock>, systemZone: set<ContentBlock>, all: set<ContentBlock>, moved: nat)
    requires Moving(was, now, zones, n, system, systemZone, all, moved) && n < |now| && now[n].role == R.SYSTEM
    ensures |zones| == |now|
    ensures Moving(was, Without(now, n), Without(zones, n), n, system + now[n].content, systemZone + zones[n], all,
        moved + 1)
  {
    hide Zoned, Forest, Values, Progress;
    MoveBlocks(now, zones, system, systemZone, all, n);
    ProgressMove(was, MessageValues(now, zones, all), n, Values(system, systemZone), moved);
  }

  lemma MovingKeep(was: R.Request, now: seq<Message>, zones: seq<set<ContentBlock>>, n: nat,
                   system: seq<ContentBlock>, systemZone: set<ContentBlock>, all: set<ContentBlock>, moved: nat)
    requires Moving(was, now, zones, n, system, systemZone, all, moved) && n < |now| && now[n].role != R.SYSTEM
    ensures Moving(was, now, zones, n + 1, system, systemZone, all, moved)
  {
    hide Zoned, Forest, Values, Progress;
    ProgressKeep(was, MessageValues(now, zones, all), n, Values(system, systemZone), moved);
  }

  // The loop at message i of ms: `done` passed over, zones `apart` for what is left, `zones` to begin with.
  ghost predicate Passing(was: R.Request, ms: seq<Message>, zones: seq<set<ContentBlock>>, i: nat, done: seq<Message>,
                          apart: seq<set<ContentBlock>>, system: seq<ContentBlock>, systemZone: set<ContentBlock>,
                          all: set<ContentBlock>, moved: nat)
    requires i <= |ms|
    reads all
  {
    && Moving(was, done + ms[i..], apart, |done|, system, systemZone, all, moved)
    && (moved == 0 ==> done + ms[i..] == ms && apart == zones)
  }

  lemma LoopSplit(done: seq<Message>, ms: seq<Message>, i: nat)
    requires i < |ms|
    ensures |done| < |done + ms[i..]| && (done + ms[i..])[|done|] == ms[i]
    ensures Without(done + ms[i..], |done|) == done + ms[i + 1..]
    ensures done + [ms[i]] + ms[i + 1..] == done + ms[i..]
  {
  }

  lemma PassingMove(was: R.Request, ms: seq<Message>, zones: seq<set<ContentBlock>>, i: nat, done: seq<Message>,
                    apart: seq<set<ContentBlock>>, system: seq<ContentBlock>, systemZone: set<ContentBlock>,
                    all: set<ContentBlock>, moved: nat)
    requires i < |ms| && ms[i].role == R.SYSTEM
    requires Passing(was, ms, zones, i, done, apart, system, systemZone, all, moved)
    ensures |done| < |apart|
    ensures Passing(was, ms, zones, i + 1, done, Without(apart, |done|),
                    system + ms[i].content, systemZone + apart[|done|], all, moved + 1)
  {
    hide Moving, Without;
    LoopSplit(done, ms, i);
    MovingMove(was, done + ms[i..], apart, |done|, system, systemZone, all, moved);
  }

  lemma PassingKeep(was: R.Request, ms: seq<Message>, zones: seq<set<ContentBlock>>, i: nat, done: seq<Message>,
                    apart: seq<set<ContentBlock>>, system: seq<ContentBlock>, systemZone: set<ContentBlock>,
                    all: set<ContentBlock>, moved: nat)
    requires i < |ms| && ms[i].role != R.SYSTEM
    requires Passing(was, ms, zones, i, done, apart, system, systemZone, all, moved)
    ensures Passing(was, ms, zones, i + 1, done + [ms[i]], apart, system, systemZone, all, moved)
  {
    hide Moving, Without;
    LoopSplit(done, ms, i);
    MovingKeep(was, done + ms[i..], apart, |done|, system, systemZone, all, moved);
  }

  lemma PassingEnd(was: R.Request, ms: seq<Message>, zones: seq<set<ContentBlock>>, done: seq<Message>,
                   apart: seq<set<ContentBlock>>, system: seq<ContentBlock>, systemZone: set<ContentBlock>,
                   all: set<ContentBlock>, moved: nat)
    requires Passing(was, ms, zones, |ms|, done, apart, system, systemZone, all, moved)
    ensures Moving(was, done, apart, |done|, system, systemZone, all, moved)
    ensures moved == 0 ==> done == ms && apart == zones
  {
    hide Moving;
    assert done + ms[|ms|..] == done;
  }

  lemma FindStep(ms: seq<R.Message>, i: nat, paths: seq<Path>)
    requires i < |ms|
    ensures paths + R.FindInMessages(ms, i)
            == (if ms[i].role == R.USER then paths + R.FindInBlocks(ms[i].content, i, 0) else paths)
               + R.FindInMessages(ms, i + 1)
  {
    hide R.FindInBlocks;
    var rest := R.FindInMessages(ms, i + 1);
    assert R.FindInMessages(ms, i) == (if ms[i].role == R.USER then R.FindInBlocks(ms[i].content, i, 0) else []) + rest;
    assert [] + rest == rest;
  }

  lemma FindEnd(ms: seq<R.Message>, paths: seq<Path>)
    ensures paths + R.FindInMessages(ms, |ms|) == paths
  {
  }

  class Request {
    var model: string
    var messages: seq<Message>
    var isNil: bool
    var maxTokens: int
    var system: seq<ContentBlock>
    var stream: bool
    ghost var zones: seq<set<ContentBlock>>
    ghost var systemZone: set<ContentBlock>
    ghost var all: set<ContentBlock>

    ghost predicate Valid()
      reads this, all
    {
      Separate(messages, zones, system, systemZone, all)
    }

    ghost function View(): (r: R.Request)
      requires Valid()
      reads this, all
    {
      R.Request(model, MessageValues(messages, zones, all), isNil, maxTokens, Values(system, systemZone), stream)
    }

    /** Moves the blocks of system messages behind the top-level system blocks; counts the messages. */
    method NormalizeSystemMessages() returns (moved: nat)
      requires Valid()
      modifies this
      ensures Valid() && all == old(all)
      ensures View() == R.Normalized(old(View())) && moved == R.SystemCount(old(View()).messages)
    {
      hide Valid, View, Zoned, Forest, Values, MessageValues, Separate, Passing, Moving, Progress;
      hide Without, R.Normalized, R.SystemCount, R.Kept, R.Moved;
      moved := 0;
      var filtered := [];
      ghost var apart, was := zones, View();
      MovingStart();
      for i := 0 to |messages|
        invariant messages == old(messages) && zones == old(zones) && all == old(all)
        invariant model == old(model) && isNil == old(isNil) && maxTokens == old(maxTokens) && stream == old(stream)
        invariant Passing(was, messages, zones, i, filtered, apart, system, systemZone, all, moved)
      {
        var m := messages[i];
        if m.role == R.SYSTEM {
          PassingMove(was, messages, zones, i, filtered, apart, system, systemZone, all, moved);
          system, systemZone := system + m.content, systemZone + apart[|filtered|];
          apart := Without(apart, |filtered|);
          moved := moved + 1;
        } else {
          PassingKeep(was, messages, zones, i, filtered, apart, system, systemZone, all, moved);
          filtered := filtered + [m];
        }
      }
      PassingEnd(was, messages, zones, filtered, apart, system, systemZone, all, moved);
      if moved > 0 {
        messages, isNil, zones := filtered, |filtered| == 0, apart;
      }
      MovingEnd(was, moved);
    }

    lemma MovingStart()
      requires Valid()
      ensures Passing(View(), messages, zones, 0, [], zones, system, systemZone, all, 0)
      ensures View().model == model && View().isNil == isNil && View().maxTokens == maxTokens && View().stream == stream
    {
      assert [] + messages[0..] == messages;
    }

    lemma MovingEnd(was: R.Request, moved: nat)
      requires Moving(was, messages, zones, |messages|, system, systemZone, all, moved)
      requires isNil == if moved > 0 then messages == [] else was.isNil
      requires model == was.model && maxTokens == was.maxTokens && stream == was.stream
      ensures Valid() && View() == R.Normalized(was) && moved == R.SystemCount(was.messages)
    {
      ProgressEnd(was, MessageValues(messages, zones, all), Values(system, systemZone), moved);
    }

    // ---------- Finding and replacing images ----------

    // The block a path leads to, or null.
    ghost function Locate(p: Path): ContentBlock?
      requires Valid()
      reads this, all
    {
      if |p| >= 2 && p[0] < |messages| && p[1] < |messages[p[0]].content|
      then
        var b := TreeAt(p[0], p[1]);
        Resolve(b, p[2..])
      else null
    }

    ghost function TreeAt(i: nat, j: nat): (b: ContentBlock)
      requires Valid() && i < |messages| && j < |messages[i].content|
      reads this, all
      ensures b == messages[i].content[j] && b in all && b.Valid() && b.repr <= zones[i] <= all
      ensures i < |View().messages| && j < |View().messages[i].content|
      ensures View().messages[i].role == messages[i].role && View().messages[i].content[j] == b.View()
      ensures |View().messages[i].content| == |messages[i].content|
    {
      assert messages[i].content[j] in messages[i].content;
      messages[i].content[j]
    }

    ghost predicate Located(paths: seq<Path>, found: seq<ContentBlock>)
      requires Valid()
      reads this, all
    {
      |paths| == |found| && forall k :: 0 <= k < |paths| ==> Locate(paths[k]) == found[k]
    }

    lemma PointsLocated(i: nat, j: nat, paths: seq<Path>, found: seq<ContentBlock>)
      requires Valid() && i < |messages| && j < |messages[i].content|
      requires TreeAt(i, j).Valid() && Points(TreeAt(i, j), [i, j], paths, found)
      ensures Located(paths, found)
    {
      hide Valid, View, Resolve;
      forall k | 0 <= k < |paths| ensures Locate(paths[k]) == found[k] {
        assert Extends([i, j], paths[k]);
        assert paths[k][0] == [i, j][0] && paths[k][1] == [i, j][1];
        assert paths[k][|[i, j]|..] == paths[k][2..];
      }
    }

    lemma NoneLocated()
      requires Valid()
      ensures Located([], [])
    {
    }

    lemma LocatedConcat(p: seq<Path>, f: seq<ContentBlock>, q: seq<Path>, g: seq<ContentBlock>)
      requires Valid() && Located(p, f) && Located(q, g)
      ensures Located(p + q, f + g)
    {
      hide Valid, Locate;
    }

    lemma ViewRole(i: nat)
      requires Valid() && i < |messages|
      ensures |View().messages| == |messages| && View().messages[i].role == messages[i].role
      ensures |View().messages[i].content| == |messages[i].content|
    {
    }

    /** Returns the image blocks of the user messages, as pointers in document order. */
    method FindImageBlocks() returns (found: seq<ContentBlock>, ghost paths: seq<Path>)
      requires Valid()
      ensures paths == R.FindImages(View()) && Located(paths, found)
    {
      hide Valid, View, Located, Locate, R.FindInMessages, R.FindInBlocks;
      found, paths := [], [];
      NoneLocated();
      for i := 0 to |messages|
        invariant Located(paths, found)
        invariant paths + R.FindInMessages(View().messages, i) == R.FindImages(View())
      {
        ViewRole(i);
        FindStep(View().messages, i, paths);
        if messages[i].role == R.USER {
          found, paths := FindInMessage(i, found, paths);
        }
      }
      Lengths();
      FindEnd(View().messages, paths);
    }

    lemma Lengths()
      requires Valid()
      ensures |View().messages| == |messages|
    {
    }

    method FindInMessage(i: nat, before: seq<ContentBlock>, ghost pathsBefore: seq<Path>)
      returns (found: seq<ContentBlock>, ghost paths: seq<Path>)
      requires Valid() && i < |messages| && Located(pathsBefore, before)
      ensures i < |View().messages| && paths == pathsBefore + R.FindInBlocks(View().messages[i].content, i, 0)
      ensures Located(paths, found)
    {
      hide Valid, View, Located, Locate, Points, Find;
      found, paths := before, pathsBefore;
      ViewRole(i);
      ghost var blocks := View().messages[i].content;
      for j := 0 to |messages[i].content|
        invariant Located(paths, found)
        invariant paths + R.FindInBlocks(blocks, i, j) == pathsBefore + R.FindInBlocks(blocks, i, 0)
      {
        ghost var b, next := TreeAt(i, j), Find(blocks[j], [i, j], 0);
        var all;
        ghost var more;
        all, more := messages[i].content[j].CollectImageBlocks(found, 0, [i, j]);
        PointsLocated(i, j, next, more);
        LocatedConcat(paths, found, next, more);
        found, paths := all, paths + next;
      }
      assert paths + [] == paths;
    }

    // Only block t has changed, and it became a text block.
    twostate predicate OnlyTextAt(t: ContentBlock, new text: string)
      requires old(Valid())
      reads this, all, t
    {
      unchanged(this) && t.BecameText(text) && forall o :: o in old(all) && o != t ==> unchanged(o)
    }

    // The message that holds the block at p, after the block became a text block.
    twostate lemma MessageReplaced(new p: Path, new text: string)
      requires old(Valid()) && old(Locate(p)) != null && OnlyTextAt(old(Locate(p)), text)
      ensures p[0] < |messages| && Forest(messages[p[0]].content, zones[p[0]])
      ensures Values(messages[p[0]].content, zones[p[0]])
              == old(Values(messages[p[0]].content, zones[p[0]]))[
                   p[1] := ReplaceAt(old(TreeAt(p[0], p[1]).View()), p[2..], text)]
    {
      hide ReplaceAt, Resolve, ContentBlock.Valid, ContentBlock.View;
      var blocks := messages[p[0]].content;
      forall j | 0 <= j < |blocks|
        ensures blocks[j].repr == old(blocks[j].repr) && blocks[j].Valid()
        ensures blocks[j].View() == if j == p[1] then ReplaceAt(old(blocks[j].View()), p[2..], text)
            else old(blocks[j].View())
      {
        BlockReplaced(p, text, j);
      }
    }

    twostate lemma BlockReplaced(new p: Path, new text: string, new j: nat)
      requires old(Valid()) && old(Locate(p)) != null && OnlyTextAt(old(Locate(p)), text)
      requires p[0] < |messages| && j < |messages[p[0]].content|
      ensures var b := messages[p[0]].content[j];
              && old(allocated(b)) && old(b.Valid()) && b.repr == old(b.repr) && b.Valid()
              && b.View() == if j == p[1] then ReplaceAt(old(b.View()), p[2..], text) else old(b.View())
    {
      var b := messages[p[0]].content[j];
      if j == p[1] {
        ReplaceShows(b, p[2..], text);
      } else {
        TreeSame(b);
      }
    }

    // A zone without the changed block shows what it showed.
    twostate lemma ZoneSame(new blocks: seq<ContentBlock>, new zone: set<ContentBlock>)
      requires old(allocated(blocks)) && old(allocated(zone))
      requires old(Forest(blocks, zone)) && forall o :: o in zone ==> unchanged(o)
      ensures Forest(blocks, zone) && Values(blocks, zone) == old(Values(blocks, zone))
    {
    }

    twostate lemma OtherZones(new p: Path, new text: string)
      requires old(Valid()) && old(Locate(p)) != null && OnlyTextAt(old(Locate(p)), text)
      ensures Forest(system, systemZone) && Values(system, systemZone) == old(Values(system, systemZone))
      ensures forall i :: 0 <= i < |messages| && i != p[0] ==>
        Forest(messages[i].content, zones[i])
            && Values(messages[i].content, zones[i]) == old(Values(messages[i].content, zones[i]))
    {
      hide Forest, Values, ReplaceAt, Resolve;
      ZoneSame(system, systemZone);
      forall i | 0 <= i < |messages| && i != p[0]
        ensures Forest(messages[i].content, zones[i])
            && Values(messages[i].content, zones[i]) == old(Values(messages[i].content, zones[i]))
      {
        ZoneSame(messages[i].content, zones[i]);
      }
    }

    // What the request shows after the block at p became a text block.
    twostate lemma RequestReplaced(new p: Path, new text: string)
      requires old(Valid()) && old(Locate(p)) != null && OnlyTextAt(old(Locate(p)), text)
      ensures Valid() && View() == R.ReplaceIn(old(View()), p, text)
    {
      hide Forest, Values, ReplaceAt, Resolve;
      MessageReplaced(p, text);
      OtherZones(p, text);
      assert View().messages == R.ReplaceIn(old(View()), p, text).messages;
    }

    twostate lemma LocateSame(new p: Path, new text: string, new q: Path)
      requires old(Valid()) && Valid() && old(Locate(p)) != null && OnlyTextAt(old(Locate(p)), text)
      ensures Locate(q) == old(Locate(q))
    {
      hide Forest, Values, View, Resolve;
      if |q| >= 2 && q[0] < |messages| && q[1] < |messages[q[0]].content| {
        var b := old(TreeAt(q[0], q[1]));
        assert b == TreeAt(q[0], q[1]);
        ResolveSame(b, q[2..]);
      }
    }

    /** Makes an image block found earlier a text block; every other block stays, and every pointer
        found earlier still leads to its block. */
    method ReplaceImage(blk: ContentBlock, ghost p: Path, text: string)
      requires Valid() && Locate(p) == blk
      modifies blk
      ensures Valid() && View() == R.ReplaceIn(old(View()), p, text)
      ensures forall q: Path :: Locate(q) == old(Locate(q))
    {
      hide Forest, Values, View, Locate;
      InAll(p);
      blk.ReplaceWithText(text);
      RequestReplaced(p, text);
      forall q: Path ensures Locate(q) == old(Locate(q)) {
        LocateSame(p, text, q);
      }
    }

    lemma InAll(p: Path)
      requires Valid()
      ensures Locate(p) != null ==> Locate(p) in all
    {
    }

    /** Replaces the found images, one after the other, in the order the calls for them end. */
    method ReplaceFound(found: seq<ContentBlock>, ghost paths: seq<Path>, texts: seq<string>, order: seq<nat>,
                        ghost f: Path -> string)
      requires Valid() && paths == R.FindImages(View()) && Located(paths, found)
      requires |texts| == |found| && forall k :: 0 <= k < |texts| ==> texts[k] == f(paths[k])
      requires Distinct(order) && forall k: nat :: k in order <==> k < |found|
      modifies all
      ensures Valid() && View() == R.RewriteRequest(old(View()), f)
      ensures R.FindImages(View()) == []
    {
      hide Valid, View, Locate, R.FindImages, R.RewriteRequest, R.ReplaceIn;
      ghost var done: seq<Path> := [];
      for n := 0 to |order|
        invariant unchanged(this) && Valid() && Located(paths, found)
        invariant |done| == n && forall k :: 0 <= k < n ==> order[k] < |paths| && done[k] == paths[order[k]]
        invariant View() == R.ReplaceEach(old(View()), done, f)
      {
        var k := order[n];
        assert k in order;
        ghost var p := paths[k];
        InAll(p);
        ReplaceImage(found[k], p, texts[k]);
        assert (done + [p])[..n] == done;
        done := done + [p];
      }
      EachOnce(old(View()), paths, order, done);
      R.AnyOrderGivesTheRewrite(old(View()), done, f);
      R.SecondSearchFindsNothing(old(View()), f);
    }
  }

  // Taking the found paths in any order lists each of them once.
  lemma EachOnce(r: R.Request, paths: seq<Path>, order: seq<nat>, done: seq<Path>)
    requires paths == R.FindImages(r) && Distinct(order) && forall k: nat :: k in order <==> k < |paths|
    requires |done| == |order| && forall k :: 0 <= k < |order| ==> order[k] < |paths| && done[k] == paths[order[k]]
    ensures Distinct(done) && forall p :: p in done <==> p in R.FindImages(r)
  {
    R.FoundOnceAndApart(r);
    forall p | p in paths ensures p in done {
      var k :| 0 <= k < |paths| && paths[k] == p;
      assert k in order;
      var n :| 0 <= n < |order| && order[n] == k;
      assert done[n] == p;
    }
  }
}
