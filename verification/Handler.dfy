/**
  The way of a request through the handler: the goroutines of its images replace their blocks in
  whatever order the interleaving gives, and the body goes on.
*/
module Handler {
  import opened Basics
  import opened Content
  import opened Rewrite
  import R = Requests
  import B = Bodies
  import IF = ImageFates
  import IP = ImagePipeline

  // What a block is replaced by: each text in words, descriptions wrapped.
  datatype Wording = Wording(wrap: string -> string, hashFailed: string, notDescribed: string)

  function Words(v: Wording, text: IP.Text): string {
    match text
    case Description(d) => v.wrap(d)
    case HashFailed => v.wrap(v.hashFailed)
    case NotDescribed => v.wrap(v.notDescribed)
  }

  function IndexOf(paths: seq<Path>, p: Path): (k: nat)
    requires p in paths
    ensures k < |paths| && paths[k] == p
  {
    if paths[0] == p then 0 else IndexOf(paths[1..], p) + 1
  }

  // The image data at a path the search found.
  function ImageData(r: R.Request, p: Path): string
    requires p in R.FindImages(r)
  {
    R.FindImagesIsEligible(r, p);
    EligibleIsShallow(r.messages[p[0]].content[p[1]], p[2..], 0);
    At(r.messages[p[0]].content[p[1]], p[2..]).value.source.value.data
  }

  // The tasks of request q are the images of r, each with the bytes its own data decode to.
  ghost predicate Serves(cfg: IP.Config, q: nat, r: R.Request, decode: string -> Option<string>) {
    && IP.HasTasks(cfg, q, |R.FindImages(r)|)
    && forall k :: 0 <= k < |R.FindImages(r)| ==>
         cfg.bytes[IP.Task(q, k)] == decode(ImageData(r, R.FindImages(r)[k]))
  }

  // A description fits image data if some provider call in the run answered it for bytes with the hash of the
  // decoded data, or it was cached under that hash to begin with; a placeholder fits if failing open, one kind
  // for data that do not decode and the other if some call in the run for the hash of the data failed.
  ghost predicate Fits(cfg: IP.Config, cache: map<string, string>, run: seq<IP.Step>, bytes: Option<string>,
                       text: IP.Text) {
    match text
    case Description(d) => bytes.Some? && IF.Came(cfg, cache, run, cfg.hash(bytes.value), d)
    case HashFailed => cfg.failOpen && bytes.None?
    case NotDescribed => cfg.failOpen && bytes.Some? && IF.WasAnswered(cfg, run, cfg.hash(bytes.value), None)
  }

  // The text for the image at each path of the request, once its group has ended without an error.
  ghost function TextFor(w: IP.World, q: nat, paths: seq<Path>, v: Wording): Path -> string
    requires IP.GroupSucceeded(w, q, |paths|)
  {
    (p: Path) => if p in paths && IP.Task(q, IndexOf(paths, p)) in w.stages
        && w.stages[IP.Task(q, IndexOf(paths, p))].Counted?
                 then Words(v, w.stages[IP.Task(q, IndexOf(paths, p))].text) else ""
  }

  // The paths in the order their blocks were replaced.
  function InOrder(paths: seq<Path>, order: seq<nat>): (r: seq<Path>)
    requires forall k :: k in order ==> k < |paths|
    ensures |r| == |order|
  {
    seq(|order|, i requires 0 <= i < |order| => (assert order[i] in order; paths[order[i]]))
  }

  lemma InOrderListsAll(paths: seq<Path>, order: seq<nat>)
    requires Distinct(paths) && Distinct(order) && forall k: nat :: k in order <==> k < |paths|
    ensures Distinct(InOrder(paths, order)) && forall p :: p in InOrder(paths, order) <==> p in paths
  {
    var r := InOrder(paths, order);
    forall i, j | 0 <= i < j < |r| ensures r[i] != r[j] {
      assert order[i] in order && order[j] in order;
    }
    forall i | 0 <= i < |r| ensures r[i] in paths {
      assert order[i] in order;
    }
    forall p | p in paths ensures p in r {
      var k :| 0 <= k < |paths| && paths[k] == p;
      assert k in order;
      var i :| 0 <= i < |order| && order[i] == k;
      assert r[i] == p;
    }
  }

  /** Whatever the interleaving with other requests, with cache evictions and with failing providers: if
      the group of a request ends without an error, its blocks were replaced one by one, in the order of
      the run, to the request in which every image has its own text; all of them are counted, and a
      second search finds none. */
  lemma EveryInterleavingRewritesTheRequest(
    cfg: IP.Config, cache: map<string, string>, run: seq<IP.Step>, q: nat, r: R.Request, v: Wording)
    requires IP.IsRun(cfg, cache, run) && IP.HasTasks(cfg, q, |R.FindImages(r)|)
    requires IP.GroupSucceeded(IP.After(cfg, cache, run), q, |R.FindImages(r)|)
    ensures var w, paths := IP.After(cfg, cache, run), R.FindImages(r);
            var order, f := IP.OrderOf(w.replaced, q), TextFor(w, q, paths, v);
            && (forall k :: k in order ==> k < |paths|)
            && R.ReplaceEach(r, InOrder(paths, order), f) == R.RewriteRequest(r, f)
            && R.FindImages(R.RewriteRequest(r, f)) == []
            && IP.Rewritten(w, q) == |paths|
  {
    var w, paths := IP.After(cfg, cache, run), R.FindImages(r);
    IP.GroupWithoutErrorRewritesAll(cfg, cache, run, q, |paths|);
    R.FoundOnceAndApart(r);
    InOrderListsAll(paths, IP.OrderOf(w.replaced, q));
    R.AnyOrderGivesTheRewrite(r, InOrder(paths, IP.OrderOf(w.replaced, q)), TextFor(w, q, paths, v));
    R.SecondSearchFindsNothing(r, TextFor(w, q, paths, v));
  }

  /** Each image of such a request gets a text for its own data: a description some provider call in the run
      answered for bytes with the hash of what these data decode to, and the one its own call answered if it made
      one that succeeded; or, if failing open, a placeholder for data that do not decode or whose call failed. */
  lemma EveryImageGetsItsOwnText(
    cfg: IP.Config, cache: map<string, string>, run: seq<IP.Step>, q: nat, r: R.Request,
    decode: string -> Option<string>, v: Wording, k: nat)
    requires IP.IsRun(cfg, cache, run) && k < |R.FindImages(r)| && Serves(cfg, q, r, decode)
    requires IP.GroupSucceeded(IP.After(cfg, cache, run), q, |R.FindImages(r)|)
    ensures var w, p := IP.After(cfg, cache, run), R.FindImages(r)[k];
            var text := w.stages[IP.Task(q, k)].text;
            && TextFor(w, q, R.FindImages(r), v)(p) == Words(v, text)
            && Fits(cfg, cache, run, decode(ImageData(r, p)), text)
            && forall i, d :: 0 <= i < |run| && run[i] == IP.Answer(IP.Task(q, k), Some(d)) ==>
                 text == IP.Description(d)
  {
    var w, paths, t := IP.After(cfg, cache, run), R.FindImages(r), IP.Task(q, k);
    hide IP.IsRun, IP.After, Fits, ImageData, Words;
    R.FoundOnceAndApart(r);
    assert IndexOf(paths, paths[k]) == k;
    assert run[..|run|] == run;
    EndedTextFits(cfg, cache, run, t);
    forall i, d | 0 <= i < |run| && run[i] == IP.Answer(t, Some(d)) ensures w.stages[t].text == IP.Description(d) {
      IF.AnAnswerIsUsed(cfg, cache, run, i, |run|, t, Some(d));
    }
  }

  lemma EndedTextFits(cfg: IP.Config, cache: map<string, string>, run: seq<IP.Step>, t: IP.Task)
    requires IP.IsRun(cfg, cache, run) && t in IP.After(cfg, cache, run).stages && t in cfg.bytes
    requires IP.After(cfg, cache, run).stages[t].Counted?
    ensures Fits(cfg, cache, run, cfg.bytes[t], IP.After(cfg, cache, run).stages[t].text)
  {
    hide IP.IsRun, IP.After, IF.WasAnswered;
    IP.TextsAreHonest(cfg, cache, run, t);
    match IP.After(cfg, cache, run).stages[t].text
    case Description(_) => IF.EveryDescriptionCame(cfg, cache, run, t);
    case NotDescribed => IF.NoPlaceholderWithoutAFailure(cfg, cache, run, t);
    case HashFailed =>
  }

  // What is sent on: the body as it came, or the request printed, with the notice if images were rewritten.
  function Sent(j: Json, done: R.Request, rewritten: nat, moved: nat, sanitized: bool, notice: string): Json {
    if rewritten > 0 || moved > 0 || sanitized
    then R.EncodeRequest(B.WithNotice(done, if rewritten > 0 then Some(notice) else None))
    else j
  }

  /** So the body that goes on is the pure rewriting of the body that came, for the texts the run gave. */
  lemma EveryInterleavingSendsThePureRewrite(
    cfg: IP.Config, cache: map<string, string>, run: seq<IP.Step>, q: nat, j: Json, sanitize: string -> string,
    decode: string -> Option<string>, notice: string, v: Wording)
    requires R.DecodeRequest(j).Some? && B.ValidRequest(B.Prepared(R.DecodeRequest(j).value, sanitize)) && notice != ""
    requires IP.IsRun(cfg, cache, run)
    requires var r := B.Prepared(R.DecodeRequest(j).value, sanitize);
             Serves(cfg, q, r, decode) && IP.GroupSucceeded(IP.After(cfg, cache, run), q, |R.FindImages(r)|)
    ensures var parsed, w := R.DecodeRequest(j).value, IP.After(cfg, cache, run);
            var r := B.Prepared(parsed, sanitize);
            var order, f := IP.OrderOf(w.replaced, q), TextFor(w, q, R.FindImages(r), v);
            && j.Obj?
            && (forall k :: k in order ==> k < |R.FindImages(r)|)
            && Sent(j, R.ReplaceEach(r, InOrder(R.FindImages(r), order), f), IP.Rewritten(w, q),
                    R.SystemCount(parsed.messages), sanitize(parsed.model) != parsed.model, notice)
               == (if B.NothingToDo(j, sanitize) then j
                   else B.RewrittenBody(j, sanitize(parsed.model), if B.HasImage(j) then Some(notice) else None, f))
            && forall k :: 0 <= k < |R.FindImages(r)| ==>
                 var p, text := R.FindImages(r)[k], w.stages[IP.Task(q, k)].text;
                 f(p) == Words(v, text) && Fits(cfg, cache, run, decode(ImageData(r, p)), text)
  {
    var r, w := B.Prepared(R.DecodeRequest(j).value, sanitize), IP.After(cfg, cache, run);
    EveryInterleavingRewritesTheRequest(cfg, cache, run, q, r, v);
    B.ForwardedIsPureRewrite(j, sanitize, notice, TextFor(w, q, R.FindImages(r), v));
    forall k | 0 <= k < |R.FindImages(r)|
      ensures var p, text := R.FindImages(r)[k], w.stages[IP.Task(q, k)].text;
              TextFor(w, q, R.FindImages(r), v)(p) == Words(v, text)
                  && Fits(cfg, cache, run, decode(ImageData(r, p)), text)
    {
      EveryImageGetsItsOwnText(cfg, cache, run, q, r, decode, v, k);
    }
  }
}
