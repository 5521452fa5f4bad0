/**
  What becomes of an image, told from the run alone: the text a task ends with is the one its provider call,
  the call it waited for, or its cache hit gave it, and a placeholder stands for a call that failed.
*/
module ImageFates {
  import opened Basics
  import opened ImagePipeline

  // The task is on its way to the text for d, or has it: a description, or for None the placeholder or an error.
  predicate Tells(cfg: Config, stage: Stage, d: Option<string>) {
    match stage
    case Answered(got) => got == d
    case Filled(x) => d == Some(x)
    case Settled(text) => IsTextFor(cfg, text, d)
    case Replaced(text) => IsTextFor(cfg, text, d)
    case Counted(text) => IsTextFor(cfg, text, d)
    case Broken => d.None? && !cfg.failOpen
    case _ => false
  }

  predicate IsTextFor(cfg: Config, text: Text, d: Option<string>) {
    match d
    case Some(x) => text == Description(x)
    case None => text == NotDescribed && cfg.failOpen
  }

  // ---------- The task that calls ----------

  // Once a task tells d, it always will, and its call returns d.
  predicate Settles(cfg: Config, w: World, t: Task, d: Option<string>) {
    && t in w.stages && Tells(cfg, w.stages[t], d)
    && (t in w.results ==> w.results[t] == d && Ended(w.stages[t]))
  }

  lemma SettlesStep(cfg: Config, w: World, s: Step, t: Task, d: Option<string>)
    requires Enabled(cfg, w, s) && Settles(cfg, w, t, d)
    ensures Settles(cfg, Next(cfg, w, s), t, d)
  {
    hide NextCache, NextStored, NextInFlight, NextAnswers, NextRewritten;
  }

  // A task has a result only once its call has returned.
  ghost predicate Returned(w: World) {
    forall t :: t in w.results ==> t in w.stages && Ended(w.stages[t])
  }

  lemma ReturnedStep(cfg: Config, w: World, s: Step)
    requires Enabled(cfg, w, s) && Returned(w)
    ensures Returned(Next(cfg, w, s))
  {
    hide NextCache, NextStored, NextInFlight, NextAnswers, NextRewritten;
  }

  lemma {:induction false} EveryRunReturns(cfg: Config, cache: map<string, string>, run: seq<Step>)
    requires IsRun(cfg, cache, run)
    ensures Returned(After(cfg, cache, run))
  {
    if run != [] {
      hide Returned, Next, Enabled;
      EveryRunReturns(cfg, cache, run[..|run| - 1]);
      ReturnedStep(cfg, After(cfg, cache, run[..|run| - 1]), run[|run| - 1]);
    } else {
      assert Returned(Init(cfg, cache));
    }
  }

  lemma AnswerTells(cfg: Config, w: World, t: Task, d: Option<string>)
    requires Enabled(cfg, w, Answer(t, d)) && Returned(w)
    ensures Settles(cfg, Next(cfg, w, Answer(t, d)), t, d)
  {
  }

  /** What a provider answers is what the task that called it ends with: the description, or after a failure
      the placeholder when failing open and an error otherwise. */
  lemma {:induction false} AnAnswerIsUsed(cfg: Config, cache: map<string, string>, run: seq<Step>, i: nat, n: nat,
                                          t: Task, d: Option<string>)
    requires IsRun(cfg, cache, run) && i < n <= |run| && run[i] == Answer(t, d) && IsRun(cfg, cache, run[..n])
    ensures Settles(cfg, After(cfg, cache, run[..n]), t, d)
    decreases n
  {
    hide IsRun, After, Next, Enabled, Settles, Returned;
    PrefixIsRun(cfg, cache, run, n - 1);
    if i == n - 1 {
      EveryRunReturns(cfg, cache, run[..i]);
      AnswerTells(cfg, After(cfg, cache, run[..i]), t, d);
    } else {
      AnAnswerIsUsed(cfg, cache, run, i, n - 1, t, d);
      SettlesStep(cfg, After(cfg, cache, run[..n - 1]), run[n - 1], t, d);
    }
  }

  // ---------- The tasks that wait ----------

  // Every result is what its task tells.
  predicate Agrees(cfg: Config, w: World) {
    forall t :: t in w.results ==> Settles(cfg, w, t, w.results[t])
  }

  lemma AgreesStep(cfg: Config, w: World, s: Step)
    requires Enabled(cfg, w, s) && Agrees(cfg, w)
    ensures Agrees(cfg, Next(cfg, w, s))
  {
    hide NextCache, NextStored, NextInFlight, NextAnswers, NextRewritten;
  }

  lemma {:induction false} EveryRunAgrees(cfg: Config, cache: map<string, string>, run: seq<Step>)
    requires IsRun(cfg, cache, run)
    ensures Agrees(cfg, After(cfg, cache, run))
  {
    if run != [] {
      hide Agrees, Next, Enabled;
      EveryRunAgrees(cfg, cache, run[..|run| - 1]);
      AgreesStep(cfg, After(cfg, cache, run[..|run| - 1]), run[|run| - 1]);
    } else {
      assert Agrees(cfg, Init(cfg, cache));
    }
  }

  // u waits for t's call, or tells what that call returned.
  predicate Follows(cfg: Config, w: World, u: Task, t: Task) {
    && u in w.stages
    && (w.stages[u] == Waiting(t) || (t in w.results && Ended(w.stages[u]) && Tells(cfg, w.stages[u], w.results[t])))
  }

  lemma FollowsStep(cfg: Config, w: World, s: Step, u: Task, t: Task)
    requires Enabled(cfg, w, s) && Follows(cfg, w, u, t) && Agrees(cfg, w)
    ensures Follows(cfg, Next(cfg, w, s), u, t)
  {
    hide NextCache, NextStored, NextInFlight, NextAnswers, NextRewritten;
  }

  lemma {:induction false} WaitingFollows(cfg: Config, cache: map<string, string>, run: seq<Step>, j: nat, n: nat,
                                          u: Task, t: Task)
    requires IsRun(cfg, cache, run) && j <= n <= |run| && IsRun(cfg, cache, run[..j]) && IsRun(cfg, cache, run[..n])
    requires u in After(cfg, cache, run[..j]).stages && After(cfg, cache, run[..j]).stages[u] == Waiting(t)
    ensures Follows(cfg, After(cfg, cache, run[..n]), u, t)
    decreases n
  {
    hide IsRun, After, Next, Enabled, Agrees, Ended, Tells;
    if j < n {
      hide Follows;
      PrefixIsRun(cfg, cache, run, n - 1);
      WaitingFollows(cfg, cache, run, j, n - 1, u, t);
      EveryRunAgrees(cfg, cache, run[..n - 1]);
      FollowsStep(cfg, After(cfg, cache, run[..n - 1]), run[n - 1], u, t);
    }
  }

  /** The same holds for every task that ever waited for that call: when it has ended, it tells what the provider
      answered to the other. */
  lemma ASharedAnswerIsUsed(cfg: Config, cache: map<string, string>, run: seq<Step>, i: nat, j: nat,
                            t: Task, u: Task, d: Option<string>)
    requires IsRun(cfg, cache, run) && i < |run| && run[i] == Answer(t, d)
    requires j <= |run| && IsRun(cfg, cache, run[..j])
    requires u in After(cfg, cache, run[..j]).stages && After(cfg, cache, run[..j]).stages[u] == Waiting(t)
    ensures u in After(cfg, cache, run).stages
    ensures Ended(After(cfg, cache, run).stages[u]) ==> Tells(cfg, After(cfg, cache, run).stages[u], d)
  {
    hide IsRun, After, Tells;
    assert run[..|run|] == run;
    WaitingFollows(cfg, cache, run, j, |run|, u, t);
    AnAnswerIsUsed(cfg, cache, run, i, |run|, t, d);
  }

  // ---------- The tasks that hit the cache ----------

  lemma LookupTells(cfg: Config, w: World, t: Task)
    requires Enabled(cfg, w, Lookup(t)) && HasHash(cfg, t) && Hash(cfg, t) in w.cache && Returned(w)
    ensures Settles(cfg, Next(cfg, w, Lookup(t)), t, Some(w.cache[Hash(cfg, t)]))
  {
  }

  /** A lookup that finds its hash in the cache ends with what it found. */
  lemma {:induction false} AHitIsUsed(cfg: Config, cache: map<string, string>, run: seq<Step>, i: nat, n: nat, t: Task)
    requires IsRun(cfg, cache, run) && i < n <= |run| && run[i] == Lookup(t) && HasHash(cfg, t)
    requires IsRun(cfg, cache, run[..i]) && IsRun(cfg, cache, run[..n])
    requires Hash(cfg, t) in After(cfg, cache, run[..i]).cache
    ensures Settles(cfg, After(cfg, cache, run[..n]), t, Some(After(cfg, cache, run[..i]).cache[Hash(cfg, t)]))
    decreases n
  {
    hide IsRun, After, Next, Enabled, Settles, Returned;
    PrefixIsRun(cfg, cache, run, n - 1);
    if i == n - 1 {
      EveryRunReturns(cfg, cache, run[..i]);
      LookupTells(cfg, After(cfg, cache, run[..i]), t);
    } else {
      AHitIsUsed(cfg, cache, run, i, n - 1, t);
      SettlesStep(cfg, After(cfg, cache, run[..n - 1]), run[n - 1], t,
          Some(After(cfg, cache, run[..i]).cache[Hash(cfg, t)]));
    }
  }

  // ---------- No placeholder without a failed call ----------

  // Some provider call for the hash h was answered d in the run.
  ghost predicate WasAnswered(cfg: Config, run: seq<Step>, h: string, d: Option<string>) {
    exists i :: 0 <= i < |run| && run[i].Answer? && run[i].d == d && HasHash(cfg, run[i].t) && Hash(cfg, run[i].t) == h
  }

  lemma AnsweredGrows(cfg: Config, run: seq<Step>, s: Step, h: string, d: Option<string>)
    ensures WasAnswered(cfg, run, h, d) ==> WasAnswered(cfg, run + [s], h, d)
    ensures s.Answer? && s.d == d && HasHash(cfg, s.t) && Hash(cfg, s.t) == h ==> WasAnswered(cfg, run + [s], h, d)
  {
    if WasAnswered(cfg, run, h, d) {
      var i :| 0 <= i < |run| && run[i].Answer? && run[i].d == d && HasHash(cfg, run[i].t) && Hash(cfg, run[i].t) == h;
      assert (run + [s])[i] == run[i];
    }
    assert (run + [s])[|run|] == s;
  }

  // A stage that goes with a failed call; `failed`: there was one for the task's hash.
  predicate Excused(cfg: Config, stage: Stage, decodes: bool, refused: bool, failed: bool) {
    match stage
    case Answered(got) => got.None? ==> failed
    case Settled(text) => text.NotDescribed? ==> failed
    case Replaced(text) => text.NotDescribed? ==> failed
    case Counted(text) => text.NotDescribed? ==> failed
    case Broken => refused || (!cfg.failOpen && (decodes ==> failed))
    case _ => true
  }

  ghost predicate TaskExcused(cfg: Config, run: seq<Step>, t: Task, stage: Stage) {
    Excused(cfg, stage, HasHash(cfg, t), Refuse(t) in run,
            HasHash(cfg, t) && WasAnswered(cfg, run, Hash(cfg, t), None))
  }

  ghost predicate AllExcused(cfg: Config, run: seq<Step>, w: World) {
    && (forall t :: t in w.stages ==> TaskExcused(cfg, run, t, w.stages[t]))
    && (forall t :: t in w.results && w.results[t].None? ==>
         HasHash(cfg, t) && WasAnswered(cfg, run, Hash(cfg, t), None))
  }

  lemma ExcusedGrows(cfg: Config, run: seq<Step>, s: Step, t: Task, stage: Stage)
    requires TaskExcused(cfg, run, t, stage)
    ensures TaskExcused(cfg, run + [s], t, stage)
  {
    hide WasAnswered;
    if HasHash(cfg, t) {
      AnsweredGrows(cfg, run, s, Hash(cfg, t), None);
    }
  }

  // The task that steps.
  lemma MoverExcused(cfg: Config, run: seq<Step>, w: World, s: Step)
    requires Enabled(cfg, w, s) && OfTask(s) && Joined(cfg, w) && AllExcused(cfg, run, w)
    ensures TaskExcused(cfg, run + [s], s.t, Goes(cfg, w, s))
  {
    hide WasAnswered;
    if HasHash(cfg, s.t) {
      AnsweredGrows(cfg, run, s, Hash(cfg, s.t), None);
    }
    assert s in run + [s];
    assert TaskExcused(cfg, run, s.t, w.stages[s.t]);
  }

  lemma ExcusedStep(cfg: Config, run: seq<Step>, w: World, s: Step)
    requires Enabled(cfg, w, s) && Joined(cfg, w) && AllExcused(cfg, run, w)
    ensures AllExcused(cfg, run + [s], Next(cfg, w, s))
  {
    hide NextCache, NextStored, NextInFlight, NextAnswers, NextRewritten, Goes, WasAnswered, Joined;
    var w' := Next(cfg, w, s);
    forall t | t in w'.stages ensures TaskExcused(cfg, run + [s], t, w'.stages[t]) {
      if OfTask(s) && s.t == t {
        MoverExcused(cfg, run, w, s);
      } else {
        ExcusedGrows(cfg, run, s, t, w.stages[t]);
      }
    }
    forall t | t in w'.results && w'.results[t].None?
      ensures HasHash(cfg, t) && WasAnswered(cfg, run + [s], Hash(cfg, t), None)
    {
      if s.Finish? && s.t == t {
        ExcusedGrows(cfg, run, s, t, w.stages[t]);
      } else {
        AnsweredGrows(cfg, run, s, Hash(cfg, t), None);
      }
    }
  }

  lemma {:induction false} EveryRunIsExcused(cfg: Config, cache: map<string, string>, run: seq<Step>)
    requires IsRun(cfg, cache, run)
    ensures AllExcused(cfg, run, After(cfg, cache, run))
  {
    if run == [] {
      assert AllExcused(cfg, [], Init(cfg, cache));
    } else {
      hide AllExcused, Next, Enabled, Single, Joined, HonestCache, HonestResults, HonestStages, Listed, Tallied;
      var front, s := run[..|run| - 1], run[|run| - 1];
      EveryRunIsExcused(cfg, cache, front);
      EveryRunKeepsInv(cfg, cache, front);
      ExcusedStep(cfg, front, After(cfg, cache, front), s);
      assert front + [s] == run;
    }
  }

  /** A placeholder for an image whose data decode, and an error without the proxy having been asked to call
      itself, each come from a provider call for that image's hash that failed in the run. */
  lemma NoPlaceholderWithoutAFailure(cfg: Config, cache: map<string, string>, run: seq<Step>, t: Task)
    requires IsRun(cfg, cache, run) && t in After(cfg, cache, run).stages && HasHash(cfg, t)
    ensures Done(After(cfg, cache, run).stages[t]) && After(cfg, cache, run).stages[t].text == NotDescribed ==>
              WasAnswered(cfg, run, Hash(cfg, t), None)
    ensures After(cfg, cache, run).stages[t].Broken? && Refuse(t) !in run ==>
              !cfg.failOpen && WasAnswered(cfg, run, Hash(cfg, t), None)
  {
    hide WasAnswered;
    EveryRunIsExcused(cfg, cache, run);
    assert TaskExcused(cfg, run, t, After(cfg, cache, run).stages[t]);
  }

  // Whatever counts as answered was answered by a step of the run.
  lemma {:induction false} AnswersWereGiven(cfg: Config, cache: map<string, string>, run: seq<Step>,
                                            b: string, d: string)
    requires IsRun(cfg, cache, run) && (b, d) in After(cfg, cache, run).answers
    ensures WasAnswered(cfg, run, cfg.hash(b), Some(d))
  {
    if run != [] {
      hide WasAnswered;
      var front, s := run[..|run| - 1], run[|run| - 1];
      var w := After(cfg, cache, front);
      assert front + [s] == run;
      AnsweredGrows(cfg, front, s, cfg.hash(b), Some(d));
      if (b, d) in w.answers {
        AnswersWereGiven(cfg, cache, front, b, d);
      }
    }
  }

  // A description under the hash h: cached to begin with, or the answer to some call for h in the run.
  ghost predicate Came(cfg: Config, cache: map<string, string>, run: seq<Step>, h: string, d: string) {
    (h in cache && cache[h] == d) || WasAnswered(cfg, run, h, Some(d))
  }

  /** Every description a block was replaced by came from the cache as it was to begin with, or from a call for
      its hash in the run. */
  lemma EveryDescriptionCame(cfg: Config, cache: map<string, string>, run: seq<Step>, t: Task)
    requires IsRun(cfg, cache, run) && t in After(cfg, cache, run).stages && Done(After(cfg, cache, run).stages[t])
    requires After(cfg, cache, run).stages[t].text.Description?
    ensures HasHash(cfg, t) && Came(cfg, cache, run, Hash(cfg, t), After(cfg, cache, run).stages[t].text.d)
  {
    hide IsRun, After, WasAnswered;
    TextsAreHonest(cfg, cache, run, t);
    var w := After(cfg, cache, run);
    var d, h := w.stages[t].text.d, Hash(cfg, t);
    if !(h in cache && cache[h] == d) {
      var b :| (b, d) in w.answers && cfg.hash(b) == h;
      AnswersWereGiven(cfg, cache, run, b, d);
    }
  }

  // ---------- The order of the replacements ----------

  // The tasks that replaced their blocks, in the order of the run.
  function ReplacedIn(run: seq<Step>): seq<Task> {
    if run == [] then []
    else ReplacedIn(run[..|run| - 1]) + if run[|run| - 1].Replace? then [run[|run| - 1].t] else []
  }

  /** The blocks are listed as replaced in the order of the run. */
  lemma {:induction false} ReplacedInOrder(cfg: Config, cache: map<string, string>, run: seq<Step>)
    requires IsRun(cfg, cache, run)
    ensures After(cfg, cache, run).replaced == ReplacedIn(run)
  {
    if run != [] {
      hide NextCache, NextStored, NextInFlight, NextAnswers, NextRewritten, NextResults, Goes;
      ReplacedInOrder(cfg, cache, run[..|run| - 1]);
    }
  }
}
