/** The words the proxy puts into a rewritten request. */
module Notices {
  import opened Basics
  import opened Blocks
  import opened Content
  import B = Bodies
  import H = Handler
  import IP = ImagePipeline
  import R = Requests
  import RB = ReadBack

  const MARKER := "BLIND_LLM_EYES_IMAGE"

  const OPENING :=
    "<" + MARKER + ">This is an image the user sent. Treat the following description as your own visual "
    + "observation of the image — do NOT say you cannot see it, do NOT invent missing details. If the description is "
    + "insufficient to answer a question, say the information is not enough and ask for the original image.\n"

  const CLOSING := "\n</" + MARKER + ">"

  function WrapImageDescription(description: string): string {
    OPENING + description + CLOSING
  }

  /** The description can be read back from its wrapping, so no two descriptions are wrapped alike. */
  lemma DescriptionReadsBack(d: string, e: string)
    ensures var w := WrapImageDescription(d); w[|OPENING|..|w| - |CLOSING|] == d
    ensures WrapImageDescription(d) == WrapImageDescription(e) ==> d == e
  {
    var w, x := WrapImageDescription(d), WrapImageDescription(e);
    assert w[|OPENING|..|w| - |CLOSING|] == d;
    assert x[|OPENING|..|x| - |CLOSING|] == e;
  }

  /** Turns an image block into the text block that wraps its description. */
  method ReplaceImageWithDescription(blk: ContentBlock, description: string)
    modifies blk`typ, blk`text, blk`source, blk`raw
    ensures blk.BecameText(WrapImageDescription(description))
  {
    blk.ReplaceWithText(WrapImageDescription(description));
  }

  const WORDING := H.Wording(
    (d: string) => WrapImageDescription(d),
    "[Image hash failed, unable to compute cache key]",
    "[Image could not be described by vision model]")

  // What stands inside the wrapping.
  function Inner(text: IP.Text): string {
    match text
    case Description(d) => d
    case HashFailed => "[Image hash failed, unable to compute cache key]"
    case NotDescribed => "[Image could not be described by vision model]"
  }

  /** In the proxy's own wrapping: the body sent on is the pure rewriting of the body received, with the notice
      iff it held an image, and each image's text wraps the description or placeholder for its own data. */
  lemma TheProxySendsThePureRewrite(
    cfg: IP.Config, cache: map<string, string>, run: seq<IP.Step>, q: nat, j: Json, sanitize: string -> string,
    decode: string -> Option<string>, notice: string)
    requires notice != ""
    requires R.DecodeRequest(j).Some? && B.ValidRequest(B.Prepared(R.DecodeRequest(j).value, sanitize))
    requires IP.IsRun(cfg, cache, run)
    requires var r := B.Prepared(R.DecodeRequest(j).value, sanitize);
             H.Serves(cfg, q, r, decode) && IP.GroupSucceeded(IP.After(cfg, cache, run), q, |R.FindImages(r)|)
    ensures var parsed, w := R.DecodeRequest(j).value, IP.After(cfg, cache, run);
            var r := B.Prepared(parsed, sanitize);
            var order, f := IP.OrderOf(w.replaced, q), H.TextFor(w, q, R.FindImages(r), WORDING);
            && j.Obj?
            && (forall k :: k in order ==> k < |R.FindImages(r)|)
            && H.Sent(j, R.ReplaceEach(r, H.InOrder(R.FindImages(r), order), f), IP.Rewritten(w, q),
                      R.SystemCount(parsed.messages), sanitize(parsed.model) != parsed.model, notice)
               == (if B.NothingToDo(j, sanitize) then j
                   else B.RewrittenBody(j, sanitize(parsed.model), if B.HasImage(j) then Some(notice) else None, f))
            && forall k :: 0 <= k < |R.FindImages(r)| ==>
                 var p, text := R.FindImages(r)[k], w.stages[IP.Task(q, k)].text;
                 && f(p) == WrapImageDescription(Inner(text))
                 && H.Fits(cfg, cache, run, decode(H.ImageData(r, p)), text)
  {
    H.EveryInterleavingSendsThePureRewrite(cfg, cache, run, q, j, sanitize, decode, notice, WORDING);
  }

  /** And the upstream reads it there: at the place of every image found, the body sent holds a text block with the
      wrapped description, which some call in the run answered for that image's own hash or the cache held under
      it to begin with; or the wrapped placeholder, if failing open and the data do not decode or a call failed. */
  lemma TheUpstreamReadsEachDescription(
    cfg: IP.Config, cache: map<string, string>, run: seq<IP.Step>, q: nat, j: Json, sanitize: string -> string,
    decode: string -> Option<string>, notice: string, k: nat)
    requires notice != ""
    requires R.DecodeRequest(j).Some? && B.ValidRequest(B.Prepared(R.DecodeRequest(j).value, sanitize))
    requires IP.IsRun(cfg, cache, run)
    requires var r := B.Prepared(R.DecodeRequest(j).value, sanitize);
             && H.Serves(cfg, q, r, decode) && IP.GroupSucceeded(IP.After(cfg, cache, run), q, |R.FindImages(r)|)
             && k < |R.FindImages(r)|
    ensures var parsed, w := R.DecodeRequest(j).value, IP.After(cfg, cache, run);
            var r := B.Prepared(parsed, sanitize);
            var order, f := IP.OrderOf(w.replaced, q), H.TextFor(w, q, R.FindImages(r), WORDING);
            var p, text := R.FindImages(r)[k], w.stages[IP.Task(q, k)].text;
            && (forall i :: i in order ==> i < |R.FindImages(r)|)
            && RB.BodyAt(H.Sent(j, R.ReplaceEach(r, H.InOrder(R.FindImages(r), order), f), IP.Rewritten(w, q),
                                R.SystemCount(parsed.messages), sanitize(parsed.model) != parsed.model, notice), p)
               == Some(Obj(map["type" := Str("text"), "text" := Str(OPENING + Inner(text) + CLOSING)]))
            && H.Fits(cfg, cache, run, decode(H.ImageData(r, p)), text)
  {
    hide IP.IsRun, IP.After, IP.OrderOf, H.TextFor, H.Sent, H.Fits, R.FindImages, B.Forwarded, B.ValidRequest,
      B.RewrittenBody, B.NothingToDo, B.HasImage, RB.BodyAt, R.DecodeRequest, B.Prepared, H.ImageData, H.Serves;
    var r, w := B.Prepared(R.DecodeRequest(j).value, sanitize), IP.After(cfg, cache, run);
    var f := H.TextFor(w, q, R.FindImages(r), WORDING);
    TheProxySendsThePureRewrite(cfg, cache, run, q, j, sanitize, decode, notice);
    B.ForwardedIsPureRewrite(j, sanitize, notice, f);
    RB.TheUpstreamReadsTheText(j, sanitize, notice, f, R.FindImages(r)[k]);
  }
}
