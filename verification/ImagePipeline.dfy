/**
  The goroutines that describe images, of any number of requests at once: look the hash up in the
  shared cache, join or lead the one call in flight for the hash, fill the cache, replace the block.
  Interleaved step by step; a provider call takes as long as it likes and ends either way.
*/
module ImagePipeline {
  import opened Basics

  // Image `index` of request `request`.
  datatype Task = Task(request: nat, index: nat)

  // bytes: the decoded image of each task, None if its data are not base64. hash: SHA-256.
  datatype Config = Config(bytes: map<Task, Option<string>>, hash: string -> string, failOpen: bool)

  // What a block is replaced by: a description, or one of the two placeholders.
  datatype Text = Description(d: string) | HashFailed | NotDescribed

  datatype Stage =
    | Ready
    | Missed                      // found nothing in the cache, about to enter the call group
    | Calling                     // leads the call for its hash
    | Answered(got: Option<string>) // the provider has answered; the cache is not filled yet
    | Filled(d: string)           // the cache is filled; the call is still in flight
    | Waiting(leader: Task)       // joined the leader's call
    | Settled(text: Text)         // knows its text
    | Replaced(text: Text)        // has replaced its block
    | Counted(text: Text)         // has counted it, ended without error
    | Broken                      // ended with an error

  datatype World = World(
    stages: map<Task, Stage>,
    cache: map<string, string>,
    stored: set<(string, string)>,          // everything the cache was ever filled with
    inFlight: map<string, Task>,            // hash to leader
    results: map<Task, Option<string>>,     // what the finished call of a leader returned
    answers: set<(string, string)>,         // image bytes and description of every successful provider call
    replaced: seq<Task>,                    // in the order the blocks were replaced
    rewritten: map<nat, nat>)               // the counter of each request

  datatype Step =
    | Lookup(t: Task)
    | Refuse(t: Task)                       // the provider turns out to be the proxy itself
    | Enter(t: Task)
    | Answer(t: Task, d: Option<string>)
    | Fill(t: Task)
    | Finish(t: Task)
    | Wake(t: Task)
    | Replace(t: Task)
    | Count(t: Task)
    | Evict(h: string)                      // the cache drops an entry: its cap, its age, a restart
    | Resurface(h: string, was: string)     // a cache of two layers shows again what was once stored under h

  // The steps of goroutines, the others being the cache's own.
  predicate OfTask(s: Step) {
    !s.Evict? && !s.Resurface?
  }

  function Init(cfg: Config, cache: map<string, string>): World {
    World(map t | t in cfg.bytes :: Ready, cache, set h | h in cache :: (h, cache[h]), map[], map[], {}, [], map[])
  }

  function Rewritten(w: World, request: nat): nat {
    if request in w.rewritten then w.rewritten[request] else 0
  }

  predicate HasHash(cfg: Config, t: Task) {
    t in cfg.bytes && cfg.bytes[t].Some?
  }

  function Hash(cfg: Config, t: Task): string
    requires HasHash(cfg, t)
  {
    cfg.hash(cfg.bytes[t].value)
  }

  predicate At(cfg: Config, w: World, t: Task) {
    t in w.stages && HasHash(cfg, t)
  }

  predicate Enabled(cfg: Config, w: World, s: Step) {
    match s
    case Lookup(t) => t in w.stages && t in cfg.bytes && w.stages[t].Ready?
    case Refuse(t) => At(cfg, w, t) && w.stages[t].Missed?
    case Enter(t) => At(cfg, w, t) && w.stages[t].Missed?
    case Answer(t, _) => At(cfg, w, t) && w.stages[t].Calling?
    case Fill(t) => At(cfg, w, t) && w.stages[t].Answered? && w.stages[t].got.Some?
    case Finish(t) => At(cfg, w, t) && (w.stages[t].Filled? || w.stages[t] == Answered(None))
    case Wake(t) => At(cfg, w, t) && w.stages[t].Waiting? && w.stages[t].leader in w.results
    case Replace(t) => t in w.stages && w.stages[t].Settled?
    case Count(t) => t in w.stages && w.stages[t].Replaced?
    case Evict(h) => true
    case Resurface(h, was) => (h, was) in w.stored
  }

  // Where a task goes on once its call has returned.
  function Outcome(cfg: Config, d: Option<string>): Stage {
    if d.Some? then Settled(Description(d.value)) else if cfg.failOpen then Settled(NotDescribed) else Broken
  }

  function Found(cfg: Config, w: World, t: Task): Stage
    requires t in cfg.bytes
  {
    if cfg.bytes[t].None? then (if cfg.failOpen then Settled(HashFailed) else Broken)
    else if Hash(cfg, t) in w.cache then Settled(Description(w.cache[Hash(cfg, t)]))
    else Missed
  }

  function Result(stage: Stage): Option<string> {
    if stage.Filled? then Some(stage.d) else None
  }

  // The stage step s takes its task to.
  function Goes(cfg: Config, w: World, s: Step): Stage
    requires Enabled(cfg, w, s) && OfTask(s)
  {
    var stage := w.stages[s.t];
    match s
    case Lookup(t) => Found(cfg, w, t)
    case Refuse(t) => Broken
    case Enter(t) => if Hash(cfg, t) in w.inFlight then Waiting(w.inFlight[Hash(cfg, t)]) else Calling
    case Answer(t, d) => Answered(d)
    case Fill(t) => Filled(stage.got.value)
    case Finish(t) => Outcome(cfg, Result(stage))
    case Wake(t) => Outcome(cfg, w.results[stage.leader])
    case Replace(t) => Replaced(stage.text)
    case Count(t) => Counted(stage.text)
  }

  // Entering opens a call unless one for the hash is in flight; finishing closes it.
  function NextInFlight(cfg: Config, w: World, s: Step): map<string, Task>
    requires Enabled(cfg, w, s)
  {
    if s.Enter? && Hash(cfg, s.t) !in w.inFlight then w.inFlight[Hash(cfg, s.t) := s.t]
    else if s.Finish? then w.inFlight - {Hash(cfg, s.t)}
    else w.inFlight
  }

  function NextCache(cfg: Config, w: World, s: Step): map<string, string>
    requires Enabled(cfg, w, s)
  {
    if s.Fill? then w.cache[Hash(cfg, s.t) := w.stages[s.t].got.value]
    else if s.Evict? then w.cache - {s.h}
    else if s.Resurface? then w.cache[s.h := s.was]
    else w.cache
  }

  function NextStored(cfg: Config, w: World, s: Step): set<(string, string)>
    requires Enabled(cfg, w, s)
  {
    if s.Fill? then w.stored + {(Hash(cfg, s.t), w.stages[s.t].got.value)} else w.stored
  }

  function NextResults(cfg: Config, w: World, s: Step): map<Task, Option<string>>
    requires Enabled(cfg, w, s)
  {
    if s.Finish? then w.results[s.t := Result(w.stages[s.t])] else w.results
  }

  function NextAnswers(cfg: Config, w: World, s: Step): set<(string, string)>
    requires Enabled(cfg, w, s)
  {
    if s.Answer? && s.d.Some? then w.answers + {(cfg.bytes[s.t].value, s.d.value)} else w.answers
  }

  function NextRewritten(w: World, s: Step): map<nat, nat> {
    if s.Count? then w.rewritten[s.t.request := Rewritten(w, s.t.request) + 1] else w.rewritten
  }

  function Next(cfg: Config, w: World, s: Step): World
    requires Enabled(cfg, w, s)
  {
    World(
      if !OfTask(s) then w.stages else w.stages[s.t := Goes(cfg, w, s)],
      NextCache(cfg, w, s), NextStored(cfg, w, s), NextInFlight(cfg, w, s), NextResults(cfg, w, s),
          NextAnswers(cfg, w, s),
      if s.Replace? then w.replaced + [s.t] else w.replaced,
      NextRewritten(w, s))
  }

  // ---------- Runs ----------

  ghost predicate IsRun(cfg: Config, cache: map<string, string>, run: seq<Step>)
    decreases run, 0
  {
    run == [] ||
    (IsRun(cfg, cache, run[..|run| - 1]) && Enabled(cfg, After(cfg, cache, run[..|run| - 1]), run[|run| - 1]))
  }

  ghost function After(cfg: Config, cache: map<string, string>, run: seq<Step>): World
    requires IsRun(cfg, cache, run)
    decreases run, 1
  {
    if run == [] then Init(cfg, cache) else Next(cfg, After(cfg, cache, run[..|run| - 1]), run[|run| - 1])
  }

  // ---------- One call in flight per hash ----------

  predicate Leads(stage: Stage) {
    stage.Calling? || stage.Answered? || stage.Filled?
  }

  // Past the point where a task's own call could still begin or run.
  predicate Ended(stage: Stage) {
    stage.Settled? || stage.Replaced? || stage.Counted? || stage.Broken?
  }

  // The tasks that lead a call are exactly those the table of calls in flight holds, each under its hash.
  ghost predicate Single(cfg: Config, w: World) {
    && w.stages.Keys == cfg.bytes.Keys
    && (forall t :: t in w.stages && Leads(w.stages[t]) ==>
         HasHash(cfg, t) && Hash(cfg, t) in w.inFlight && w.inFlight[Hash(cfg, t)] == t)
    && (forall h :: h in w.inFlight ==>
         At(cfg, w, w.inFlight[h]) && Hash(cfg, w.inFlight[h]) == h && Leads(w.stages[w.inFlight[h]]))
  }

  // Which steps make a task lead a call, or wait for one.
  lemma GoesTo(cfg: Config, w: World, s: Step)
    requires Enabled(cfg, w, s) && OfTask(s)
    ensures Leads(Goes(cfg, w, s)) <==>
            s.Answer? || s.Fill? || (s.Enter? && Hash(cfg, s.t) !in w.inFlight)
    ensures Goes(cfg, w, s).Waiting? ==>
            s.Enter? && Hash(cfg, s.t) in w.inFlight && Goes(cfg, w, s).leader == w.inFlight[Hash(cfg, s.t)]
  {
  }

  lemma SingleStep(cfg: Config, w: World, s: Step)
    requires Single(cfg, w) && Enabled(cfg, w, s)
    ensures Single(cfg, Next(cfg, w, s))
  {
    hide NextCache, NextStored, NextResults, NextAnswers, NextRewritten, Goes;
    if OfTask(s) {
      GoesTo(cfg, w, s);
    }
  }

  // A waiting task waits for a call for its own hash that is in flight or has returned.
  ghost predicate Joined(cfg: Config, w: World) {
    && (forall t :: t in w.stages && w.stages[t].Waiting? ==>
         var l := w.stages[t].leader;
         At(cfg, w, l) && HasHash(cfg, t) && Hash(cfg, l) == Hash(cfg, t) && (l in w.results || Leads(w.stages[l])))
    && (forall l :: l in w.results ==> HasHash(cfg, l))
  }

  lemma JoinedStep(cfg: Config, w: World, s: Step)
    requires Single(cfg, w) && Joined(cfg, w) && Enabled(cfg, w, s)
    ensures Joined(cfg, Next(cfg, w, s))
  {
    hide NextCache, NextStored, NextInFlight, NextAnswers, NextRewritten, Goes;
    if OfTask(s) {
      GoesTo(cfg, w, s);
    }
  }

  // ---------- Where texts come from ----------

  // d was returned for bytes with hash h by a successful call, or was cached under h to begin with.
  ghost predicate Sourced(cfg: Config, cache: map<string, string>, answers: set<(string, string)>,
                          h: string, d: string)
  {
    (h in cache && cache[h] == d) || exists b :: (b, d) in answers && cfg.hash(b) == h
  }

  ghost predicate HonestText(cfg: Config, cache: map<string, string>, answers: set<(string, string)>,
                             t: Task, text: Text)
  {
    match text
    case Description(d) => HasHash(cfg, t) && Sourced(cfg, cache, answers, Hash(cfg, t), d)
    case HashFailed => cfg.failOpen && t in cfg.bytes && cfg.bytes[t].None?
    case NotDescribed => cfg.failOpen && HasHash(cfg, t)
  }

  ghost predicate HonestResult(
    cfg: Config, cache: map<string, string>, answers: set<(string, string)>, t: Task, d: Option<string>)
  {
    HasHash(cfg, t) && (d.Some? ==> Sourced(cfg, cache, answers, Hash(cfg, t), d.value))
  }

  ghost predicate HonestStage(
    cfg: Config, cache: map<string, string>, answers: set<(string, string)>, t: Task, stage: Stage)
  {
    match stage
    case Answered(d) => HonestResult(cfg, cache, answers, t, d)
    case Filled(d) => HonestResult(cfg, cache, answers, t, Some(d))
    case Settled(text) => HonestText(cfg, cache, answers, t, text)
    case Replaced(text) => HonestText(cfg, cache, answers, t, text)
    case Counted(text) => HonestText(cfg, cache, answers, t, text)
    case _ => true
  }

  ghost predicate HonestCache(cfg: Config, cache: map<string, string>, w: World) {
    && (forall h :: h in w.cache ==> Sourced(cfg, cache, w.answers, h, w.cache[h]))
    && (forall p :: p in w.stored ==> Sourced(cfg, cache, w.answers, p.0, p.1))
  }

  ghost predicate HonestResults(cfg: Config, cache: map<string, string>, w: World) {
    forall t :: t in w.results ==> HonestResult(cfg, cache, w.answers, t, w.results[t])
  }

  ghost predicate HonestStages(cfg: Config, cache: map<string, string>, w: World) {
    forall t :: t in w.stages ==> HonestStage(cfg, cache, w.answers, t, w.stages[t])
  }

  // More answers take nothing away.
  lemma SourcedGrows(cfg: Config, cache: map<string, string>, w: World, s: Step, h: string, d: string)
    requires Enabled(cfg, w, s) && Sourced(cfg, cache, w.answers, h, d)
    ensures Sourced(cfg, cache, NextAnswers(cfg, w, s), h, d)
  {
    if !(h in cache && cache[h] == d) {
      var b :| (b, d) in w.answers && cfg.hash(b) == h;
      assert (b, d) in NextAnswers(cfg, w, s);
    }
  }

  lemma StageGrows(cfg: Config, cache: map<string, string>, w: World, s: Step, t: Task, stage: Stage)
    requires Enabled(cfg, w, s) && HonestStage(cfg, cache, w.answers, t, stage)
    ensures HonestStage(cfg, cache, NextAnswers(cfg, w, s), t, stage)
  {
    hide Sourced, NextAnswers;
    forall h, d | Sourced(cfg, cache, w.answers, h, d) ensures Sourced(cfg, cache, NextAnswers(cfg, w, s), h, d) {
      SourcedGrows(cfg, cache, w, s, h, d);
    }
  }

  // The task that steps goes to a stage that is honest.
  lemma GoesHonest(cfg: Config, cache: map<string, string>, w: World, s: Step)
    requires Enabled(cfg, w, s) && OfTask(s) && Joined(cfg, w)
    requires HonestCache(cfg, cache, w) && HonestResults(cfg, cache, w) && HonestStages(cfg, cache, w)
    ensures HonestStage(cfg, cache, if s.Answer? then NextAnswers(cfg, w, s) else w.answers, s.t, Goes(cfg, w, s))
  {
    if s.Answer? && s.d.Some? {
      assert (cfg.bytes[s.t].value, s.d.value) in NextAnswers(cfg, w, s);
    }
  }

  lemma HonestStagesStep(cfg: Config, cache: map<string, string>, w: World, s: Step)
    requires Enabled(cfg, w, s) && Joined(cfg, w)
    requires HonestCache(cfg, cache, w) && HonestResults(cfg, cache, w) && HonestStages(cfg, cache, w)
    ensures HonestStages(cfg, cache, Next(cfg, w, s))
  {
    hide Goes, HonestStage, Joined, HonestCache, HonestResults, NextAnswers, NextCache, NextStored, NextInFlight,
      NextResults, NextRewritten;
    if OfTask(s) {
      GoesHonest(cfg, cache, w, s);
      if !s.Answer? {
        StageGrows(cfg, cache, w, s, s.t, Goes(cfg, w, s));
      }
    }
    forall t | t in w.stages ensures HonestStage(cfg, cache, NextAnswers(cfg, w, s), t, w.stages[t]) {
      StageGrows(cfg, cache, w, s, t, w.stages[t]);
    }
  }

  lemma HonestCacheStep(cfg: Config, cache: map<string, string>, w: World, s: Step)
    requires Enabled(cfg, w, s) && HonestCache(cfg, cache, w) && HonestStages(cfg, cache, w)
    ensures HonestCache(cfg, cache, Next(cfg, w, s))
  {
    hide Goes, Sourced, NextAnswers, NextInFlight, NextResults, NextRewritten;
    forall h, d | Sourced(cfg, cache, w.answers, h, d) ensures Sourced(cfg, cache, NextAnswers(cfg, w, s), h, d) {
      SourcedGrows(cfg, cache, w, s, h, d);
    }
  }

  lemma HonestResultsStep(cfg: Config, cache: map<string, string>, w: World, s: Step)
    requires Enabled(cfg, w, s) && HonestResults(cfg, cache, w) && HonestStages(cfg, cache, w)
    ensures HonestResults(cfg, cache, Next(cfg, w, s))
  {
    hide Goes, Sourced, NextAnswers, NextInFlight, NextCache, NextStored, NextRewritten;
    forall h, d | Sourced(cfg, cache, w.answers, h, d) ensures Sourced(cfg, cache, NextAnswers(cfg, w, s), h, d) {
      SourcedGrows(cfg, cache, w, s, h, d);
    }
  }

  // ---------- What is replaced and counted ----------

  ghost predicate Done(stage: Stage) {
    stage.Replaced? || stage.Counted?
  }

  function CountedOf(w: World, request: nat): set<Task> {
    set t | t in w.stages && t.request == request && w.stages[t].Counted?
  }

  ghost predicate Listed(w: World) {
    && Distinct(w.replaced)
    && forall t :: t in w.replaced <==> t in w.stages && Done(w.stages[t])
  }

  ghost predicate Tallied(w: World) {
    forall request :: Rewritten(w, request) == |CountedOf(w, request)|
  }

  lemma ListedStep(cfg: Config, w: World, s: Step)
    requires Listed(w) && Enabled(cfg, w, s)
    ensures Listed(Next(cfg, w, s))
  {
    hide NextCache, NextStored, NextResults, NextAnswers, NextRewritten, NextInFlight;
    if OfTask(s) {
      assert Done(Goes(cfg, w, s)) <==> s.Replace? || s.Count?;
    }
  }

  lemma TalliedStep(cfg: Config, w: World, s: Step)
    requires Tallied(w) && Enabled(cfg, w, s)
    ensures Tallied(Next(cfg, w, s))
  {
    hide NextCache, NextStored, NextResults, NextAnswers, NextInFlight, NextRewritten, CountedOf, Goes;
    forall request ensures Rewritten(Next(cfg, w, s), request) == |CountedOf(Next(cfg, w, s), request)| {
      CounterStep(cfg, w, s, request);
      CountedStep(cfg, w, s, request);
    }
  }

  lemma CounterStep(cfg: Config, w: World, s: Step, request: nat)
    requires Enabled(cfg, w, s)
    ensures Rewritten(Next(cfg, w, s), request)
            == Rewritten(w, request) + if s.Count? && s.t.request == request then 1 else 0
  {
    hide NextCache, NextStored, NextResults, NextAnswers, NextInFlight, Goes;
  }

  lemma CountedStep(cfg: Config, w: World, s: Step, request: nat)
    requires Enabled(cfg, w, s)
    ensures |CountedOf(Next(cfg, w, s), request)|
            == |CountedOf(w, request)| + if s.Count? && s.t.request == request then 1 else 0
  {
    hide NextCache, NextStored, NextResults, NextAnswers, NextInFlight, NextRewritten;
    var w' := Next(cfg, w, s);
    if s.Count? && s.t.request == request {
      assert CountedOf(w', request) == CountedOf(w, request) + {s.t};
    } else {
      assert !OfTask(s) || s.Count? || !Goes(cfg, w, s).Counted?;
      assert CountedOf(w', request) == CountedOf(w, request);
    }
  }

  // ---------- Every run ----------

  ghost predicate Inv(cfg: Config, cache: map<string, string>, w: World) {
    && Single(cfg, w) && Joined(cfg, w)
    && HonestCache(cfg, cache, w) && HonestResults(cfg, cache, w) && HonestStages(cfg, cache, w)
    && Listed(w) && Tallied(w)
  }

  lemma InvStep(cfg: Config, cache: map<string, string>, w: World, s: Step)
    requires Inv(cfg, cache, w) && Enabled(cfg, w, s)
    ensures Inv(cfg, cache, Next(cfg, w, s))
  {
    hide Next, Single, Joined, HonestCache, HonestResults, HonestStages, Listed, Tallied;
    SingleStep(cfg, w, s);
    JoinedStep(cfg, w, s);
    HonestCacheStep(cfg, cache, w, s);
    HonestResultsStep(cfg, cache, w, s);
    HonestStagesStep(cfg, cache, w, s);
    ListedStep(cfg, w, s);
    TalliedStep(cfg, w, s);
  }

  lemma InvInit(cfg: Config, cache: map<string, string>)
    ensures Inv(cfg, cache, Init(cfg, cache))
  {
    forall request ensures CountedOf(Init(cfg, cache), request) == {} {
    }
  }

  lemma {:induction false} EveryRunKeepsInv(cfg: Config, cache: map<string, string>, run: seq<Step>)
    requires IsRun(cfg, cache, run)
    ensures Inv(cfg, cache, After(cfg, cache, run))
  {
    hide Inv, Next, Init, Enabled;
    if run == [] {
      InvInit(cfg, cache);
    } else {
      EveryRunKeepsInv(cfg, cache, run[..|run| - 1]);
      InvStep(cfg, cache, After(cfg, cache, run[..|run| - 1]), run[|run| - 1]);
    }
  }

  /** In every interleaving at most one call per hash is in flight. */
  lemma OneCallPerHash(cfg: Config, cache: map<string, string>, run: seq<Step>, t: Task, u: Task)
    requires IsRun(cfg, cache, run) && t in After(cfg, cache, run).stages && u in After(cfg, cache, run).stages
    requires Leads(After(cfg, cache, run).stages[t]) && Leads(After(cfg, cache, run).stages[u])
    ensures HasHash(cfg, t) && HasHash(cfg, u) && (Hash(cfg, t) == Hash(cfg, u) ==> t == u)
  {
    EveryRunKeepsInv(cfg, cache, run);
  }

  /** In every interleaving the cache holds under a hash only what a successful provider call returned
      for bytes with that hash, or what it held to begin with. */
  lemma CacheHoldsOnlyAnswers(cfg: Config, cache: map<string, string>, run: seq<Step>, h: string)
    requires IsRun(cfg, cache, run) && h in After(cfg, cache, run).cache
    ensures Sourced(cfg, cache, After(cfg, cache, run).answers, h, After(cfg, cache, run).cache[h])
  {
    EveryRunKeepsInv(cfg, cache, run);
  }

  /** Every text a block was replaced by is a description of bytes with the image's hash; a placeholder
      only when failing open, and the one that fits. */
  lemma TextsAreHonest(cfg: Config, cache: map<string, string>, run: seq<Step>, t: Task)
    requires IsRun(cfg, cache, run) && t in After(cfg, cache, run).stages && Done(After(cfg, cache, run).stages[t])
    ensures t in After(cfg, cache, run).replaced
    ensures HonestText(cfg, cache, After(cfg, cache, run).answers, t, After(cfg, cache, run).stages[t].text)
  {
    EveryRunKeepsInv(cfg, cache, run);
    assert HonestStage(cfg, cache, After(cfg, cache, run).answers, t, After(cfg, cache, run).stages[t]);
  }

  // ---------- No call once the cache is filled ----------

  lemma {:induction false} PrefixIsRun(cfg: Config, cache: map<string, string>, run: seq<Step>, n: nat)
    requires IsRun(cfg, cache, run) && n <= |run|
    ensures IsRun(cfg, cache, run[..n])
    ensures n < |run| ==> Enabled(cfg, After(cfg, cache, run[..n]), run[n])
    ensures n < |run| ==> run[..n + 1][..n] == run[..n] && IsRun(cfg, cache, run[..n + 1])
                          && After(cfg, cache, run[..n + 1]) == Next(cfg, After(cfg, cache, run[..n]), run[n])
    decreases |run| - n
  {
    hide Next, Enabled;
    if n < |run| {
      PrefixIsRun(cfg, cache, run, n + 1);
      assert run[..n + 1][..n] == run[..n];
    } else {
      assert run[..n] == run;
    }
  }

  // t has not looked yet and would hit, or never had to call.
  predicate Spared(cfg: Config, w: World, t: Task) {
    && At(cfg, w, t)
    && ((w.stages[t].Ready? && Hash(cfg, t) in w.cache) || Ended(w.stages[t]))
  }

  lemma SparedStep(cfg: Config, w: World, s: Step, t: Task)
    requires Enabled(cfg, w, s) && At(cfg, w, t) && s != Evict(Hash(cfg, t))
    requires Hash(cfg, t) in w.cache && Spared(cfg, w, t)
    ensures Hash(cfg, t) in Next(cfg, w, s).cache && Spared(cfg, Next(cfg, w, s), t)
  {
  }

  /** Once the cache is filled for a hash and nothing evicts it, a lookup that starts afterwards never
      leads to a provider call, nor waits for one. */
  lemma {:induction false} FilledHashIsNotCalledAgain(
    cfg: Config, cache: map<string, string>, run: seq<Step>, k: nat, n: nat, t: Task)
    requires IsRun(cfg, cache, run) && k < n <= |run| && IsRun(cfg, cache, run[..k + 1]) && IsRun(cfg, cache, run[..n])
    requires run[k].Fill? && HasHash(cfg, run[k].t) && HasHash(cfg, t) && Hash(cfg, run[k].t) == Hash(cfg, t)
    requires t in After(cfg, cache, run[..k + 1]).stages && After(cfg, cache, run[..k + 1]).stages[t].Ready?
    requires forall m :: k < m < |run| ==> run[m] != Evict(Hash(cfg, t))
    ensures Hash(cfg, t) in After(cfg, cache, run[..n]).cache && Spared(cfg, After(cfg, cache, run[..n]), t)
    ensures n < |run| ==> run[n] != Enter(t) && run[n] != Wake(t)
    decreases n
  {
    hide IsRun, After;
    if n == k + 1 {
      PrefixIsRun(cfg, cache, run, k);
    } else {
      PrefixIsRun(cfg, cache, run, n - 1);
      FilledHashIsNotCalledAgain(cfg, cache, run, k, n - 1, t);
      SparedStep(cfg, After(cfg, cache, run[..n - 1]), run[n - 1], t);
    }
    PrefixIsRun(cfg, cache, run, n);
  }

  lemma Extend(cfg: Config, cache: map<string, string>, run: seq<Step>, s: Step)
    requires IsRun(cfg, cache, run) && Enabled(cfg, After(cfg, cache, run), s)
    ensures IsRun(cfg, cache, run + [s])
    ensures After(cfg, cache, run + [s]) == Next(cfg, After(cfg, cache, run), s)
  {
    hide Next, Enabled;
    assert (run + [s])[..|run|] == run;
  }

  // How a call in flight can end: the provider answers, the cache is filled, the call returns.
  function Ending(stage: Stage, t: Task): seq<Step> {
    match stage
    case Calling => [Answer(t, None), Finish(t)]
    case Answered(d) => if d.Some? then [Fill(t), Finish(t)] else [Finish(t)]
    case _ => [Finish(t)]
  }

  lemma CallCanEnd(cfg: Config, cache: map<string, string>, run: seq<Step>, l: Task) returns (more: seq<Step>)
    requires IsRun(cfg, cache, run) && At(cfg, After(cfg, cache, run), l) && Leads(After(cfg, cache, run).stages[l])
    ensures IsRun(cfg, cache, run + more)
    ensures forall s :: s in more ==> OfTask(s)
    ensures After(cfg, cache, run + more).inFlight == After(cfg, cache, run).inFlight - {Hash(cfg, l)}
    ensures forall t :: t != l && t in After(cfg, cache, run).stages ==>
      t in After(cfg, cache, run + more).stages
          && After(cfg, cache, run + more).stages[t] == After(cfg, cache, run).stages[t]
  {
    hide IsRun, After;
    var w := After(cfg, cache, run);
    more := Ending(w.stages[l], l);
    Extend(cfg, cache, run, more[0]);
    if |more| > 1 {
      Extend(cfg, cache, run + [more[0]], more[1]);
      assert run + [more[0]] + [more[1]] == run + more;
    } else {
      assert run + [more[0]] == run + more;
    }
  }

  /** A task whose lookup missed can still make a call of its own, however the others go on, even if the
      hash was described since: the call group does not look at the cache again. */
  lemma MissedCanStillCall(cfg: Config, cache: map<string, string>, run: seq<Step>, t: Task) returns (more: seq<Step>)
    requires IsRun(cfg, cache, run) && At(cfg, After(cfg, cache, run), t) && After(cfg, cache, run).stages[t].Missed?
    ensures IsRun(cfg, cache, run + more)
    ensures forall s :: s in more ==> OfTask(s)
    ensures At(cfg, After(cfg, cache, run + more), t) && After(cfg, cache, run + more).stages[t].Calling?
  {
    hide IsRun, After;
    EveryRunKeepsInv(cfg, cache, run);
    var w := After(cfg, cache, run);
    more := [];
    assert run + more == run;
    if Hash(cfg, t) in w.inFlight {
      more := CallCanEnd(cfg, cache, run, w.inFlight[Hash(cfg, t)]);
    }
    Extend(cfg, cache, run + more, Enter(t));
    assert run + more + [Enter(t)] == run + (more + [Enter(t)]);
    more := more + [Enter(t)];
  }

  // A cached hash that is not evicted spares a task whatever runs beside it.
  lemma {:induction false} CachedIsSpared(cfg: Config, cache: map<string, string>, run: seq<Step>, more: seq<Step>,
      t: Task)
    requires IsRun(cfg, cache, run) && At(cfg, After(cfg, cache, run), t) && After(cfg, cache, run).stages[t].Ready?
    requires Hash(cfg, t) in After(cfg, cache, run).cache
    requires IsRun(cfg, cache, run + more) && Evict(Hash(cfg, t)) !in more
    ensures Hash(cfg, t) in After(cfg, cache, run + more).cache && Spared(cfg, After(cfg, cache, run + more), t)
    decreases |more|
  {
    hide IsRun, After, Next, Enabled;
    if more == [] {
      assert run + more == run;
    } else {
      var front, s := more[..|more| - 1], more[|more| - 1];
      assert run + more == run + front + [s];
      PrefixIsRun(cfg, cache, run + more, |run + front|);
      assert (run + more)[..|run + front|] == run + front && (run + more)[..|run + front| + 1] == run + more;
      CachedIsSpared(cfg, cache, run, front, t);
      SparedStep(cfg, After(cfg, cache, run + front), s, t);
    }
  }

  // Some continuation without an eviction of its hash has the task make a provider call of its own.
  ghost predicate CanCall(cfg: Config, cache: map<string, string>, run: seq<Step>, t: Task)
    requires HasHash(cfg, t)
  {
    exists more: seq<Step> ::
      && IsRun(cfg, cache, run + more) && Evict(Hash(cfg, t)) !in more
      && t in After(cfg, cache, run + more).stages && After(cfg, cache, run + more).stages[t].Calling?
  }

  /** The exact condition: after every run, a task that has not looked yet can still come to call a provider
      if and only if the cache does not hold its hash. */
  lemma CanCallIffNotCached(cfg: Config, cache: map<string, string>, run: seq<Step>, t: Task)
    requires IsRun(cfg, cache, run) && At(cfg, After(cfg, cache, run), t) && After(cfg, cache, run).stages[t].Ready?
    ensures CanCall(cfg, cache, run, t) <==> Hash(cfg, t) !in After(cfg, cache, run).cache
  {
    hide IsRun, After;
    if Hash(cfg, t) in After(cfg, cache, run).cache {
      forall more: seq<Step> | IsRun(cfg, cache, run + more) && Evict(Hash(cfg, t)) !in more
        ensures t in After(cfg, cache, run + more).stages ==> !After(cfg, cache, run + more).stages[t].Calling?
      {
        CachedIsSpared(cfg, cache, run, more, t);
      }
    } else {
      Extend(cfg, cache, run, Lookup(t));
      var rest := MissedCanStillCall(cfg, cache, run + [Lookup(t)], t);
      assert run + ([Lookup(t)] + rest) == run + [Lookup(t)] + rest;
      assert Evict(Hash(cfg, t)) !in [Lookup(t)] + rest;
    }
  }

  // The four steps below, one by one.
  lemma LookupMisses(cfg: Config, w: World, u: Task)
    requires At(cfg, w, u) && w.stages[u].Ready? && Hash(cfg, u) !in w.cache
    ensures Enabled(cfg, w, Lookup(u)) && Next(cfg, w, Lookup(u)) == w.(stages := w.stages[u := Missed])
  {
  }

  lemma FillFills(cfg: Config, w: World, t: Task, d: string)
    requires At(cfg, w, t) && w.stages[t] == Answered(Some(d))
    ensures Enabled(cfg, w, Fill(t))
    ensures var w' := Next(cfg, w, Fill(t));
            && w'.stages == w.stages[t := Filled(d)] && w'.cache == w.cache[Hash(cfg, t) := d]
                && w'.inFlight == w.inFlight
  {
  }

  lemma FinishFrees(cfg: Config, w: World, t: Task, d: string)
    requires At(cfg, w, t) && w.stages[t] == Filled(d)
    ensures Enabled(cfg, w, Finish(t))
    ensures var w' := Next(cfg, w, Finish(t));
            && w'.stages == w.stages[t := Settled(Description(d))] && w'.cache == w.cache
            && Hash(cfg, t) !in w'.inFlight
  {
  }

  lemma EnterCalls(cfg: Config, w: World, u: Task)
    requires At(cfg, w, u) && w.stages[u].Missed? && Hash(cfg, u) !in w.inFlight
    ensures Enabled(cfg, w, Enter(u))
    ensures var w' := Next(cfg, w, Enter(u)); w'.stages == w.stages[u := Calling] && w'.cache == w.cache
  {
  }

  /** So the success of a call alone does not stop a second one: from wherever a provider has answered and the
      cache is not filled yet, a lookup misses, and calls again after the first call is over. */
  lemma SuccessAloneDoesNotStopASecondCall(
    cfg: Config, cache: map<string, string>, run: seq<Step>, t: Task, u: Task, d: string)
    requires IsRun(cfg, cache, run) && At(cfg, After(cfg, cache, run), t) && At(cfg, After(cfg, cache, run), u)
    requires t != u && Hash(cfg, t) == Hash(cfg, u) && Hash(cfg, t) !in After(cfg, cache, run).cache
    requires After(cfg, cache, run).stages[t] == Answered(Some(d)) && After(cfg, cache, run).stages[u].Ready?
    ensures var longer := run + [Lookup(u), Fill(t), Finish(t), Enter(u)];
            && IsRun(cfg, cache, longer) && Hash(cfg, u) in After(cfg, cache, longer).cache
            && u in After(cfg, cache, longer).stages && After(cfg, cache, longer).stages[u].Calling?
  {
    hide IsRun, After, Next, Enabled;
    var r := run;
    LookupMisses(cfg, After(cfg, cache, r), u);
    Extend(cfg, cache, r, Lookup(u));
    r := r + [Lookup(u)];
    FillFills(cfg, After(cfg, cache, r), t, d);
    Extend(cfg, cache, r, Fill(t));
    r := r + [Fill(t)];
    FinishFrees(cfg, After(cfg, cache, r), t, d);
    Extend(cfg, cache, r, Finish(t));
    r := r + [Finish(t)];
    EnterCalls(cfg, After(cfg, cache, r), u);
    Extend(cfg, cache, r, Enter(u));
    assert r + [Enter(u)] == run + [Lookup(u), Fill(t), Finish(t), Enter(u)];
  }

  // ---------- A request whose group ends without an error ----------

  // Request q has n images.
  ghost predicate HasTasks(cfg: Config, q: nat, n: nat) {
    forall k: nat :: Task(q, k) in cfg.bytes <==> k < n
  }

  ghost predicate GroupSucceeded(w: World, q: nat, n: nat) {
    forall k :: 0 <= k < n ==> Task(q, k) in w.stages && w.stages[Task(q, k)].Counted?
  }

  // The images of request q, in the order their blocks were replaced.
  function OrderOf(replaced: seq<Task>, q: nat): seq<nat> {
    if replaced == [] then []
    else
      var last := replaced[|replaced| - 1];
      OrderOf(replaced[..|replaced| - 1], q) + if last.request == q then [last.index] else []
  }

  lemma {:induction false} OrderListsReplaced(replaced: seq<Task>, q: nat)
    requires Distinct(replaced)
    ensures Distinct(OrderOf(replaced, q)) && forall k :: k in OrderOf(replaced, q) <==> Task(q, k) in replaced
  {
    if replaced != [] {
      var front, last := replaced[..|replaced| - 1], replaced[|replaced| - 1];
      OrderListsReplaced(front, q);
      assert replaced == front + [last] && last !in front;
    }
  }

  lemma {:induction false} TaskCount(q: nat, n: nat)
    ensures |set k | 0 <= k < n :: Task(q, k)| == n
  {
    if n > 0 {
      TaskCount(q, n - 1);
      assert (set k | 0 <= k < n :: Task(q, k)) == (set k | 0 <= k < n - 1 :: Task(q, k)) + {Task(q, n - 1)};
    }
  }

  /** If the group of a request ends without an error, as many images were rewritten as were found, and
      each block was replaced once, in some order. */
  lemma GroupWithoutErrorRewritesAll(cfg: Config, cache: map<string, string>, run: seq<Step>, q: nat, n: nat)
    requires IsRun(cfg, cache, run) && HasTasks(cfg, q, n) && GroupSucceeded(After(cfg, cache, run), q, n)
    ensures Rewritten(After(cfg, cache, run), q) == n
    ensures var order := OrderOf(After(cfg, cache, run).replaced, q);
            Distinct(order) && forall k: nat :: k in order <==> k < n
  {
    var w := After(cfg, cache, run);
    EveryRunKeepsInv(cfg, cache, run);
    OrderListsReplaced(w.replaced, q);
    TaskCount(q, n);
    forall t | t in CountedOf(w, q) ensures t.index < n {
      assert t == Task(q, t.index);
    }
    assert CountedOf(w, q) == set k | 0 <= k < n :: Task(q, k);
    forall k: nat ensures k in OrderOf(w.replaced, q) <==> k < n {
      assert k < n ==> Done(w.stages[Task(q, k)]);
    }
  }

  /** Failing open, only a call to the proxy itself can end a goroutine with an error. */
  lemma {:induction false} FailOpenNeverBreaks(cfg: Config, cache: map<string, string>, run: seq<Step>, t: Task)
    requires IsRun(cfg, cache, run) && cfg.failOpen && Refuse(t) !in run && t in After(cfg, cache, run).stages
    ensures !After(cfg, cache, run).stages[t].Broken?
  {
    if run != [] {
      FailOpenNeverBreaks(cfg, cache, run[..|run| - 1], t);
      assert run[|run| - 1] in run;
    }
  }

  // ---------- Progress ----------

  // How many steps a task is from its end, at most.
  function Rank(stage: Stage): nat {
    match stage
    case Ready => 7
    case Missed => 6
    case Calling => 5
    case Answered(_) => 4
    case Filled(_) => 3
    case Waiting(_) => 3
    case Settled(_) => 2
    case Replaced(_) => 1
    case Counted(_) => 0
    case Broken => 0
  }

  ghost predicate AllEnded(w: World) {
    forall t :: t in w.stages ==> w.stages[t].Counted? || w.stages[t].Broken?
  }

  // The next step of a task that is not waiting.
  function Onward(t: Task, stage: Stage): Step {
    match stage
    case Missed => Enter(t)
    case Calling => Answer(t, None)
    case Answered(d) => if d.Some? then Fill(t) else Finish(t)
    case Filled(_) => Finish(t)
    case Waiting(_) => Wake(t)
    case Settled(_) => Replace(t)
    case Replaced(_) => Count(t)
    case _ => Lookup(t)
  }

  // A task that has not ended can go on, or waits for a call that can.
  lemma SomeoneCanGo(cfg: Config, w: World) returns (s: Step)
    requires Single(cfg, w) && Joined(cfg, w) && Hashed(cfg, w) && !AllEnded(w)
    ensures Enabled(cfg, w, s) && OfTask(s) && !s.Refuse?
    ensures Rank(Goes(cfg, w, s)) < Rank(w.stages[s.t])
  {
    hide Enabled, Goes, Rank, Hashed;
    var t :| t in w.stages && !(w.stages[t].Counted? || w.stages[t].Broken?);
    if w.stages[t].Waiting? && w.stages[t].leader !in w.results {
      t := w.stages[t].leader;
    }
    s := Onward(t, w.stages[t]);
    OnwardLowers(cfg, w, t);
  }

  lemma OnwardLowers(cfg: Config, w: World, t: Task)
    requires w.stages.Keys == cfg.bytes.Keys && Hashed(cfg, w) && t in w.stages
    requires !w.stages[t].Counted? && !w.stages[t].Broken?
    requires w.stages[t].Waiting? ==> w.stages[t].leader in w.results
    ensures Enabled(cfg, w, Onward(t, w.stages[t])) && OfTask(Onward(t, w.stages[t])) && !Onward(t, w.stages[t]).Refuse?
    ensures Onward(t, w.stages[t]).t == t && Rank(Goes(cfg, w, Onward(t, w.stages[t]))) < Rank(w.stages[t])
  {
  }

  // Only tasks whose data decode get past their lookup without a text.
  ghost predicate Hashed(cfg: Config, w: World) {
    forall t :: t in w.stages && !w.stages[t].Ready? && !Ended(w.stages[t]) ==> HasHash(cfg, t)
  }

  lemma {:induction false} EveryRunIsHashed(cfg: Config, cache: map<string, string>, run: seq<Step>)
    requires IsRun(cfg, cache, run)
    ensures Hashed(cfg, After(cfg, cache, run))
  {
    if run != [] {
      hide Hashed, Next, Enabled;
      EveryRunIsHashed(cfg, cache, run[..|run| - 1]);
      HashedStep(cfg, After(cfg, cache, run[..|run| - 1]), run[|run| - 1]);
    }
  }

  lemma HashedStep(cfg: Config, w: World, s: Step)
    requires Hashed(cfg, w) && Enabled(cfg, w, s)
    ensures Hashed(cfg, Next(cfg, w, s))
  {
    hide NextCache, NextStored, NextResults, NextAnswers, NextRewritten, NextInFlight;
  }

  lemma GoLowers(cfg: Config, w: World, s: Step)
    requires Enabled(cfg, w, s) && OfTask(s) && Rank(Goes(cfg, w, s)) < Rank(w.stages[s.t])
    ensures Total(Rank, Next(cfg, w, s).stages) < Total(Rank, w.stages)
  {
    hide Goes, Rank;
    TotalUpdate(Rank, w.stages, s.t, Goes(cfg, w, s));
  }

  /** No deadlock: every run can go on, with no eviction, until every goroutine has ended. */
  lemma {:induction false} AllTasksCanEnd(cfg: Config, cache: map<string, string>, run: seq<Step>)
    returns (more: seq<Step>)
    requires IsRun(cfg, cache, run)
    ensures IsRun(cfg, cache, run + more) && AllEnded(After(cfg, cache, run + more))
    ensures forall s :: s in more ==> OfTask(s) && !s.Refuse?
    decreases Total(Rank, After(cfg, cache, run).stages)
  {
    hide IsRun, After, Next, Enabled, AllEnded, Single, Joined, Hashed, Total;
    var w := After(cfg, cache, run);
    if AllEnded(w) {
      more := [];
      assert run + more == run;
    } else {
      EveryRunKeepsInv(cfg, cache, run);
      EveryRunIsHashed(cfg, cache, run);
      var s := SomeoneCanGo(cfg, w);
      Extend(cfg, cache, run, s);
      GoLowers(cfg, w, s);
      var rest := AllTasksCanEnd(cfg, cache, run + [s]);
      more := [s] + rest;
      assert run + more == run + [s] + rest;
    }
  }
}
