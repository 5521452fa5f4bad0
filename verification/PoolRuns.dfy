/**
  Any number of concurrent calls on a provider pool, interleaved step by step. Each call walks the
  providers in order; asking a breaker and recording an outcome are the atomic steps, the provider
  call in between takes as long as it likes and ends either way.
*/
module PoolRuns {
  import opened Basics
  import CB = CircuitBreakers

  type CallId = nat

  // Where a call is: about to ask entry i, waiting for provider i, done with i's answer, out of entries.
  datatype Call = Asking(entry: nat) | Running(entry: nat) | Won(entry: nat) | Exhausted

  datatype World = World(breakers: seq<CB.State>, calls: map<CallId, Call>)

  datatype Step =
    | Start(call: CallId)
    | Ask(call: CallId, at: int)
    | Finish(call: CallId, ok: bool, at: int)

  ghost predicate GoodPool(cfg: seq<CB.Config>) {
    |cfg| >= 1 && forall i :: 0 <= i < |cfg| ==> CB.Positive(cfg[i])
  }

  function Init(cfg: seq<CB.Config>): World {
    World(seq(|cfg|, _ => CB.INITIAL), map[])
  }

  function Advance(n: nat, entry: nat): Call {
    if entry + 1 < n then Asking(entry + 1) else Exhausted
  }

  predicate Enabled(cfg: seq<CB.Config>, w: World, s: Step) {
    && |w.breakers| == |cfg|
    && match s
       case Start(c) => c !in w.calls
       case Ask(c, _) => c in w.calls && w.calls[c].Asking? && w.calls[c].entry < |cfg|
       case Finish(c, _, _) => c in w.calls && w.calls[c].Running? && w.calls[c].entry < |cfg|
  }

  // The breaker event a step causes at the entry its call stands at.
  function EventOf(s: Step): CB.Event
    requires !s.Start?
  {
    match s
    case Ask(_, at) => CB.Allow(at)
    case Finish(_, ok, at) => if ok then CB.Success(at) else CB.Fail(at)
  }

  function Next(cfg: seq<CB.Config>, w: World, s: Step): World
    requires Enabled(cfg, w, s)
  {
    if s.Start? then w.(calls := w.calls[s.call := Asking(0)])
    else
      var i := w.calls[s.call].entry;
      var b := w.breakers[i];
      var call :=
        if s.Ask? then (if CB.Admits(cfg[i], b, s.at) then Running(i) else Advance(|cfg|, i))
        else if s.ok then Won(i)
        else Advance(|cfg|, i);
      World(w.breakers[i := CB.Step(cfg[i], b, EventOf(s))], w.calls[s.call := call])
  }

  // ---------- Runs ----------

  ghost predicate IsRun(cfg: seq<CB.Config>, run: seq<Step>)
    decreases run, 0
  {
    run == [] ||
    (IsRun(cfg, run[..|run| - 1]) && Enabled(cfg, After(cfg, run[..|run| - 1]), run[|run| - 1]))
  }

  ghost function After(cfg: seq<CB.Config>, run: seq<Step>): World
    requires IsRun(cfg, run)
    decreases run, 1
  {
    if run == [] then Init(cfg) else Next(cfg, After(cfg, run[..|run| - 1]), run[|run| - 1])
  }

  lemma {:induction false} PrefixIsRun(cfg: seq<CB.Config>, run: seq<Step>, n: nat)
    requires IsRun(cfg, run) && n <= |run|
    ensures IsRun(cfg, run[..n])
  {
    if n < |run| {
      var front := run[..|run| - 1];
      PrefixIsRun(cfg, front, n);
      assert front[..n] == run[..n];
    } else {
      assert run[..n] == run;
    }
  }

  // The breaker events of a run at entry j, in order.
  ghost function HistoryAt(cfg: seq<CB.Config>, run: seq<Step>, j: nat): seq<CB.Event>
    requires IsRun(cfg, run)
  {
    if run == [] then []
    else
      var front, s := run[..|run| - 1], run[|run| - 1];
      var before := After(cfg, front);
      HistoryAt(cfg, front, j) +
      (if !s.Start? && before.calls[s.call].entry == j then [EventOf(s)] else [])
  }

  /** Whatever the interleaving, each breaker lives through a plain history of its own, so every
      theorem about breaker histories holds for every breaker of every concurrent run. */
  lemma {:induction false} BreakerSeesItsHistory(cfg: seq<CB.Config>, run: seq<Step>, j: nat)
    requires IsRun(cfg, run) && j < |cfg|
    ensures |After(cfg, run).breakers| == |cfg|
    ensures After(cfg, run).breakers[j] == CB.After(cfg[j], HistoryAt(cfg, run, j))
  {
    if run != [] {
      var front, s := run[..|run| - 1], run[|run| - 1];
      BreakerSeesItsHistory(cfg, front, j);
      var h, before := HistoryAt(cfg, run, j), HistoryAt(cfg, front, j);
      if !s.Start? && After(cfg, front).calls[s.call].entry == j {
        assert h == before + [EventOf(s)];
        assert h[..|h| - 1] == before;
      } else {
        assert h == before;
      }
    }
  }

  lemma BreakerCount(cfg: seq<CB.Config>, run: seq<Step>)
    requires IsRun(cfg, run)
    ensures |After(cfg, run).breakers| == |cfg|
  {
    if |cfg| > 0 {
      BreakerSeesItsHistory(cfg, run, 0);
    } else if run != [] {
      BreakerCount(cfg, run[..|run| - 1]);
    }
  }

  // ---------- The half-open slot belongs to one running call ----------

  // Step m of the run moves breaker j into half-open, and ever since then j has stayed half-open
  // and the call that moved it has been waiting for provider j.
  ghost predicate HeldSince(cfg: seq<CB.Config>, run: seq<Step>, j: nat, m: nat)
    requires IsRun(cfg, run) && j < |cfg|
  {
    && m < |run| && run[m].Ask?
    && HalfOpenAfter(cfg, run, j, m) == false
    && forall k :: m < k <= |run| ==> HalfOpenAfter(cfg, run, j, k) && RunsAfter(cfg, run, run[m].call, j, k)
  }

  ghost predicate HalfOpenAfter(cfg: seq<CB.Config>, run: seq<Step>, j: nat, k: nat)
    requires IsRun(cfg, run) && j < |cfg| && k <= |run|
  {
    PrefixIsRun(cfg, run, k);
    BreakerCount(cfg, run[..k]);
    After(cfg, run[..k]).breakers[j].phase.HalfOpen?
  }

  ghost predicate RunsAfter(cfg: seq<CB.Config>, run: seq<Step>, c: CallId, j: nat, k: nat)
    requires IsRun(cfg, run) && k <= |run|
  {
    PrefixIsRun(cfg, run, k);
    c in After(cfg, run[..k]).calls && After(cfg, run[..k]).calls[c] == Running(j)
  }

  lemma SamePrefix(cfg: seq<CB.Config>, run: seq<Step>, j: nat, c: CallId, k: nat)
    requires IsRun(cfg, run) && run != [] && j < |cfg| && k < |run|
    ensures IsRun(cfg, run[..|run| - 1])
    ensures HalfOpenAfter(cfg, run[..|run| - 1], j, k) == HalfOpenAfter(cfg, run, j, k)
    ensures RunsAfter(cfg, run[..|run| - 1], c, j, k) == RunsAfter(cfg, run, c, j, k)
  {
    assert run[..|run| - 1][..k] == run[..k];
  }

  // A breaker that stays half-open keeps the call that waits for its provider waiting.
  lemma HolderStays(cfg: seq<CB.Config>, w: World, s: Step, j: nat, c: CallId)
    requires Enabled(cfg, w, s) && j < |cfg| && c in w.calls && w.calls[c] == Running(j)
    requires w.breakers[j].phase.HalfOpen? && Next(cfg, w, s).breakers[j].phase.HalfOpen?
    ensures c in Next(cfg, w, s).calls && Next(cfg, w, s).calls[c] == Running(j)
  {
  }

  // Only an admission moves a breaker into half-open, and its call waits for the provider.
  lemma MoverHolds(cfg: seq<CB.Config>, w: World, s: Step, j: nat)
    requires Enabled(cfg, w, s) && j < |cfg|
    requires !w.breakers[j].phase.HalfOpen? && Next(cfg, w, s).breakers[j].phase.HalfOpen?
    ensures s.Ask? && s.call in Next(cfg, w, s).calls && Next(cfg, w, s).calls[s.call] == Running(j)
  {
  }

  // Step m of the front still holds j after one more step.
  lemma StillHeld(cfg: seq<CB.Config>, run: seq<Step>, j: nat, m: nat)
    requires IsRun(cfg, run) && run != [] && j < |cfg| && HeldSince(cfg, run[..|run| - 1], j, m)
    requires HalfOpenAfter(cfg, run, j, |run|)
    ensures HeldSince(cfg, run, j, m)
  {
    hide IsRun, After, Next, Enabled, HalfOpenAfter, RunsAfter;
    var n := |run| - 1;
    var c := run[m].call;
    LastHolds(cfg, run, j, c);
    forall k | m < k <= |run| ensures HalfOpenAfter(cfg, run, j, k) && RunsAfter(cfg, run, c, j, k) {
      if k <= n {
        SamePrefix(cfg, run, j, c, k);
      }
    }
    SamePrefix(cfg, run, j, c, m);
  }

  lemma LastHolds(cfg: seq<CB.Config>, run: seq<Step>, j: nat, c: CallId)
    requires IsRun(cfg, run) && run != [] && j < |cfg|
    requires HalfOpenAfter(cfg, run[..|run| - 1], j, |run| - 1) && RunsAfter(cfg, run[..|run| - 1], c, j, |run| - 1)
    requires HalfOpenAfter(cfg, run, j, |run|)
    ensures RunsAfter(cfg, run, c, j, |run|)
  {
    hide Next, Enabled;
    var front := run[..|run| - 1];
    BreakerCount(cfg, front);
    assert run[..|run|] == run && front[..|run| - 1] == front;
    HolderStays(cfg, After(cfg, front), run[|run| - 1], j, c);
  }

  lemma NewlyHeld(cfg: seq<CB.Config>, run: seq<Step>, j: nat)
    requires IsRun(cfg, run) && run != [] && j < |cfg|
    requires !HalfOpenAfter(cfg, run[..|run| - 1], j, |run| - 1) && HalfOpenAfter(cfg, run, j, |run|)
    ensures HeldSince(cfg, run, j, |run| - 1)
  {
    hide Next, Enabled;
    var front, s := run[..|run| - 1], run[|run| - 1];
    BreakerCount(cfg, front);
    assert run[..|run|] == run && front[..|run| - 1] == front;
    MoverHolds(cfg, After(cfg, front), s, j);
    SamePrefix(cfg, run, j, s.call, |run| - 1);
  }

  // Of two steps that hold j the earlier one would find it half-open where the later one moves it there.
  lemma HeldByOne(cfg: seq<CB.Config>, run: seq<Step>, j: nat, m: nat, m': nat)
    requires IsRun(cfg, run) && j < |cfg| && HeldSince(cfg, run, j, m) && HeldSince(cfg, run, j, m')
    ensures m == m'
  {
    hide HalfOpenAfter, RunsAfter;
  }

  /** A breaker is half-open only while the one call that moved it there is still running. */
  lemma {:induction false} HalfOpenIsHeldByItsMover(cfg: seq<CB.Config>, run: seq<Step>, j: nat) returns (m: nat)
    requires GoodPool(cfg) && IsRun(cfg, run) && j < |cfg| && HalfOpenAfter(cfg, run, j, |run|)
    ensures HeldSince(cfg, run, j, m)
    ensures forall m': nat :: HeldSince(cfg, run, j, m') ==> m' == m
  {
    hide After, Next, Enabled, HalfOpenAfter, HeldSince;
    EmptyIsNotHalfOpen(cfg, j);
    var front := run[..|run| - 1];
    if HalfOpenAfter(cfg, front, j, |front|) {
      m := HalfOpenIsHeldByItsMover(cfg, front, j);
      StillHeld(cfg, run, j, m);
    } else {
      m := |front|;
      NewlyHeld(cfg, run, j);
    }
    forall m': nat | HeldSince(cfg, run, j, m') ensures m' == m {
      HeldByOne(cfg, run, j, m, m');
    }
  }

  lemma EmptyIsNotHalfOpen(cfg: seq<CB.Config>, j: nat)
    requires j < |cfg|
    ensures IsRun(cfg, []) && !HalfOpenAfter(cfg, [], j, 0)
  {
  }

  lemma HalfOpenHasRunner(cfg: seq<CB.Config>, run: seq<Step>, j: nat) returns (c: CallId)
    requires GoodPool(cfg) && IsRun(cfg, run) && j < |cfg| && HalfOpenAfter(cfg, run, j, |run|)
    ensures c in After(cfg, run).calls && After(cfg, run).calls[c] == Running(j)
  {
    assert run[..|run|] == run;
    var m := HalfOpenIsHeldByItsMover(cfg, run, j);
    c := run[m].call;
    assert RunsAfter(cfg, run, c, j, |run|);
  }

  ghost predicate Quiet(w: World) {
    forall c :: c in w.calls ==> !w.calls[c].Running?
  }

  /** With no call running, every breaker is closed or open. */
  lemma QuietPoolHasNoTrial(cfg: seq<CB.Config>, run: seq<Step>, j: nat)
    requires GoodPool(cfg) && IsRun(cfg, run) && j < |cfg| && Quiet(After(cfg, run))
    ensures |After(cfg, run).breakers| == |cfg| && !After(cfg, run).breakers[j].phase.HalfOpen?
  {
    BreakerCount(cfg, run);
    assert run[..|run|] == run;
    if HalfOpenAfter(cfg, run, j, |run|) {
      var c := HalfOpenHasRunner(cfg, run, j);
    }
  }

  // ---------- Admissions = outcomes + running ----------

  // Step s, taken in w, is an admission (or a recorded outcome) at entry j.
  predicate IsAdmission(cfg: seq<CB.Config>, w: World, s: Step, j: nat)
    requires Enabled(cfg, w, s)
  {
    s.Ask? && w.calls[s.call].entry == j && CB.Admits(cfg[j], w.breakers[j], s.at)
  }

  predicate IsOutcome(cfg: seq<CB.Config>, w: World, s: Step, j: nat)
    requires Enabled(cfg, w, s)
  {
    s.Finish? && w.calls[s.call].entry == j
  }

  ghost function AdmissionsAt(cfg: seq<CB.Config>, run: seq<Step>, j: nat): nat
    requires IsRun(cfg, run)
  {
    if run == [] then 0
    else
      var front := run[..|run| - 1];
      AdmissionsAt(cfg, front, j) + if IsAdmission(cfg, After(cfg, front), run[|run| - 1], j) then 1 else 0
  }

  ghost function OutcomesAt(cfg: seq<CB.Config>, run: seq<Step>, j: nat): nat
    requires IsRun(cfg, run)
  {
    if run == [] then 0
    else
      var front := run[..|run| - 1];
      OutcomesAt(cfg, front, j) + if IsOutcome(cfg, After(cfg, front), run[|run| - 1], j) then 1 else 0
  }

  function RunningAt(w: World, j: nat): set<CallId> {
    set c | c in w.calls && w.calls[c] == Running(j)
  }

  lemma RunningStep(cfg: seq<CB.Config>, w: World, s: Step, j: nat)
    requires Enabled(cfg, w, s)
    ensures |RunningAt(Next(cfg, w, s), j)| == |RunningAt(w, j)|
              + (if IsAdmission(cfg, w, s, j) then 1 else 0) - (if IsOutcome(cfg, w, s, j) then 1 else 0)
  {
    hide CB.Step, CB.Admits;
    var before, after := RunningAt(w, j), RunningAt(Next(cfg, w, s), j);
    if IsAdmission(cfg, w, s, j) {
      assert after == before + {s.call};
    } else if IsOutcome(cfg, w, s, j) {
      assert before == after + {s.call};
    } else {
      assert after == before;
    }
  }

  /** Every admission at a provider is either answered by one recorded outcome or still running. */
  lemma {:induction false} AdmissionsAreOutcomesPlusRunning(cfg: seq<CB.Config>, run: seq<Step>, j: nat)
    requires IsRun(cfg, run)
    ensures AdmissionsAt(cfg, run, j) == OutcomesAt(cfg, run, j) + |RunningAt(After(cfg, run), j)|
  {
    hide Next, IsAdmission, IsOutcome;
    if run == [] {
      assert RunningAt(Init(cfg), j) == {};
    } else {
      AdmissionsAreOutcomesPlusRunning(cfg, run[..|run| - 1], j);
      RunningStep(cfg, After(cfg, run[..|run| - 1]), run[|run| - 1], j);
    }
  }

  // ---------- What a breaker was told ----------

  function Successes(h: seq<CB.Event>): nat {
    if h == [] then 0 else Successes(h[..|h| - 1]) + if h[|h| - 1].Success? then 1 else 0
  }

  function Failures(h: seq<CB.Event>): nat {
    if h == [] then 0 else Failures(h[..|h| - 1]) + if h[|h| - 1].Fail? then 1 else 0
  }

  // The calls answered by provider j.
  function WonAt(w: World, j: nat): set<CallId> {
    set c | c in w.calls && w.calls[c] == Won(j)
  }

  lemma ToldOne(h: seq<CB.Event>, e: CB.Event)
    ensures Successes(h + [e]) == Successes(h) + if e.Success? then 1 else 0
    ensures Failures(h + [e]) == Failures(h) + if e.Fail? then 1 else 0
  {
    assert (h + [e])[..|h|] == h;
  }

  lemma {:induction false} AdmissionsOfFront(c: CB.Config, h: seq<CB.Event>, e: CB.Event, n: nat)
    requires n <= |h|
    ensures CB.Admissions(c, h + [e], 0, n) == CB.Admissions(c, h, 0, n)
    decreases n
  {
    if n > 0 {
      AdmissionsOfFront(c, h, e, n - 1);
      assert (h + [e])[..n - 1] == h[..n - 1];
    }
  }

  lemma AdmittedOne(c: CB.Config, h: seq<CB.Event>, e: CB.Event)
    ensures CB.Admissions(c, h + [e], 0, |h| + 1)
            == CB.Admissions(c, h, 0, |h|) + if e.Allow? && CB.Admits(c, CB.After(c, h), e.at) then 1 else 0
  {
    AdmissionsOfFront(c, h, e, |h|);
    assert (h + [e])[..|h|] == h;
  }

  lemma WinnerStep(cfg: seq<CB.Config>, w: World, s: Step, j: nat, c: CallId)
    requires Enabled(cfg, w, s)
    ensures c in WonAt(Next(cfg, w, s), j) <==> c in WonAt(w, j) || (c == s.call && IsOutcome(cfg, w, s, j) && s.ok)
    ensures c in WonAt(w, j) && IsOutcome(cfg, w, s, j) ==> c != s.call
  {
    hide CB.Step, CB.Admits;
  }

  lemma WinStep(cfg: seq<CB.Config>, w: World, s: Step, j: nat)
    requires Enabled(cfg, w, s)
    ensures |WonAt(Next(cfg, w, s), j)| == |WonAt(w, j)| + if IsOutcome(cfg, w, s, j) && s.ok then 1 else 0
  {
    var before, after := WonAt(w, j), WonAt(Next(cfg, w, s), j);
    hide Next, WonAt, IsOutcome;
    forall c ensures c in after <==> c in before || (c == s.call && IsOutcome(cfg, w, s, j) && s.ok) {
      WinnerStep(cfg, w, s, j, c);
    }
    if IsOutcome(cfg, w, s, j) && s.ok {
      WinnerStep(cfg, w, s, j, s.call);
      assert after == before + {s.call};
    } else {
      assert after == before;
    }
  }

  // What the step tells breaker j.
  lemma HistoryStep(cfg: seq<CB.Config>, run: seq<Step>, j: nat)
    requires IsRun(cfg, run) && run != [] && j < |cfg|
    ensures var front, s := run[..|run| - 1], run[|run| - 1];
            var w, h, h' := After(cfg, front), HistoryAt(cfg, front, j), HistoryAt(cfg, run, j);
            if IsOutcome(cfg, w, s, j) then h' == h + [if s.ok then CB.Success(s.at) else CB.Fail(s.at)]
            else if s.Ask? && w.calls[s.call].entry == j then
              && h' == h + [CB.Allow(s.at)]
              && (IsAdmission(cfg, w, s, j) <==> CB.Admits(cfg[j], CB.After(cfg[j], h), s.at))
            else h' == h && !IsAdmission(cfg, w, s, j)
  {
    hide CB.Admits, CB.After;
    BreakerSeesItsHistory(cfg, run[..|run| - 1], j);
    assert HistoryAt(cfg, run[..|run| - 1], j) + [] == HistoryAt(cfg, run[..|run| - 1], j);
  }

  /** A breaker was told of exactly as many successes as calls ended with its provider's answer, of as many outcomes
      as its provider calls ended in any way, and it let through exactly the calls admitted there. */
  lemma {:induction false} BreakerIsToldTheOutcomes(cfg: seq<CB.Config>, run: seq<Step>, j: nat)
    requires IsRun(cfg, run) && j < |cfg|
    ensures var h := HistoryAt(cfg, run, j);
            && Successes(h) == |WonAt(After(cfg, run), j)|
            && Successes(h) + Failures(h) == OutcomesAt(cfg, run, j)
            && CB.Admissions(cfg[j], h, 0, |h|) == AdmissionsAt(cfg, run, j)
  {
    if run == [] {
      assert WonAt(Init(cfg), j) == {};
    } else {
      var front, s := run[..|run| - 1], run[|run| - 1];
      BreakerIsToldTheOutcomes(cfg, front, j);
      HistoryStep(cfg, run, j);
      WinStep(cfg, After(cfg, front), s, j);
      hide Next, Enabled, IsAdmission, WonAt, CB.Admits, CB.After, CB.Admissions, Successes, Failures, HistoryAt;
      if !s.Start? {
        var h, e := HistoryAt(cfg, front, j), if s.Ask? then CB.Allow(s.at) else if s.ok then CB.Success(s.at)
            else CB.Fail(s.at);
        ToldOne(h, e);
        AdmittedOne(cfg[j], h, e);
      }
    }
  }

  // ---------- What one call does ----------

  datatype Verdict = Skipped | Failed | Succeeded

  // The verdict of a step of call c, if it settles an entry for it.
  function VerdictOf(cfg: seq<CB.Config>, w: World, s: Step, c: CallId): Option<(nat, Verdict)>
    requires Enabled(cfg, w, s)
  {
    if s.call != c || s.Start? then None
    else
      var i := w.calls[c].entry;
      match s
      case Ask(_, at) => if CB.Admits(cfg[i], w.breakers[i], at) then None else Some((i, Skipped))
      case Finish(_, ok, _) => Some((i, if ok then Succeeded else Failed))
  }

  // The entries settled for call c with their verdicts, in the order the run settled them.
  ghost function Trail(cfg: seq<CB.Config>, run: seq<Step>, c: CallId): seq<(nat, Verdict)>
    requires IsRun(cfg, run)
  {
    if run == [] then []
    else
      var front := run[..|run| - 1];
      match VerdictOf(cfg, After(cfg, front), run[|run| - 1], c)
      case None => Trail(cfg, front, c)
      case Some(v) => Trail(cfg, front, c) + [v]
  }

  // The entries whose breaker call c has changed or asked.
  ghost function Touched(cfg: seq<CB.Config>, run: seq<Step>, c: CallId): set<nat>
    requires IsRun(cfg, run)
  {
    if run == [] then {}
    else
      var front, s := run[..|run| - 1], run[|run| - 1];
      Touched(cfg, front, c) +
      if s.call == c && !s.Start? then {After(cfg, front).calls[c].entry} else {}
  }

  // The trail visits entries 0, 1, 2, ... once each, and nothing before its end succeeded.
  ghost predicate InOrder(trail: seq<(nat, Verdict)>) {
    && (forall k :: 0 <= k < |trail| ==> trail[k].0 == k)
    && (forall k :: 0 <= k < |trail| - 1 ==> !trail[k].1.Succeeded?)
  }

  ghost predicate LastSucceeded(trail: seq<(nat, Verdict)>) {
    trail != [] && trail[|trail| - 1].1.Succeeded?
  }

  function Below(n: nat): set<nat> {
    if n == 0 then {} else Below(n - 1) + {n - 1}
  }

  ghost predicate CallFitsTrail(n: nat, call: Call, trail: seq<(nat, Verdict)>, touched: set<nat>) {
    && InOrder(trail)
    && |trail| <= n
    && (LastSucceeded(trail) <==> call.Won?)
    && (call.Won? ==> call.entry == |trail| - 1)
    && (call.Asking? || call.Running? ==> call.entry == |trail| < n)
    && (call.Exhausted? ==> |trail| == n)
    && touched == Below(|trail| + if call.Running? then 1 else 0)
  }

  // The invariant of one call, absent calls included.
  ghost predicate CallFits(n: nat, w: World, c: CallId, trail: seq<(nat, Verdict)>, touched: set<nat>) {
    if c in w.calls then CallFitsTrail(n, w.calls[c], trail, touched) else trail == [] && touched == {}
  }

  lemma CallFitsStep(cfg: seq<CB.Config>, w: World, s: Step, c: CallId, trail: seq<(nat, Verdict)>, touched: set<nat>)
    requires GoodPool(cfg) && Enabled(cfg, w, s) && CallFits(|cfg|, w, c, trail, touched)
    ensures var v := VerdictOf(cfg, w, s, c);
            var touch := if s.call == c && !s.Start? then {w.calls[c].entry} else {};
            CallFits(|cfg|, Next(cfg, w, s), c, if v.Some? then trail + [v.value] else trail, touched + touch)
  {
    hide CB.Step, CB.Admits;
  }

  /** In every interleaving a call visits the entries in order, at most once each; it wins at the
      first success without touching a later breaker, and gives up exactly when every entry was
      skipped or failed. */
  lemma {:induction false} CallVisitsInOrder(cfg: seq<CB.Config>, run: seq<Step>, c: CallId)
    requires GoodPool(cfg) && IsRun(cfg, run)
    ensures CallFits(|cfg|, After(cfg, run), c, Trail(cfg, run, c), Touched(cfg, run, c))
  {
    if run != [] {
      hide CallFits, Next, VerdictOf;
      var front := run[..|run| - 1];
      CallVisitsInOrder(cfg, front, c);
      CallFitsStep(cfg, After(cfg, front), run[|run| - 1], c, Trail(cfg, front, c), Touched(cfg, front, c));
    }
  }

  function Tally(trail: seq<(nat, Verdict)>, v: Verdict): nat {
    if trail == [] then 0
    else Tally(trail[..|trail| - 1], v) + if trail[|trail| - 1].1 == v then 1 else 0
  }

  // Skipped, failed and succeeded verdicts add up to the entries visited.
  lemma {:induction false} TallyTotals(trail: seq<(nat, Verdict)>)
    ensures Tally(trail, Skipped) + Tally(trail, Failed) + Tally(trail, Succeeded) == |trail|
  {
    if trail != [] {
      TallyTotals(trail[..|trail| - 1]);
    }
  }

  lemma {:induction false} NoSuccessTally(trail: seq<(nat, Verdict)>)
    requires forall k :: 0 <= k < |trail| ==> !trail[k].1.Succeeded?
    ensures Tally(trail, Succeeded) == 0
  {
    if trail != [] {
      NoSuccessTally(trail[..|trail| - 1]);
    }
  }

  /** A finished call has visited skipped + failed + succeeded entries: all n of them with no success
      if it gave up, otherwise exactly one success at the entry it won with. */
  lemma FinishedCallTally(cfg: seq<CB.Config>, run: seq<Step>, c: CallId)
    requires GoodPool(cfg) && IsRun(cfg, run) && c in After(cfg, run).calls
    ensures var call, t := After(cfg, run).calls[c], Trail(cfg, run, c);
            && Tally(t, Skipped) + Tally(t, Failed) + Tally(t, Succeeded) == |t|
            && (call.Exhausted? ==> |t| == |cfg| && Tally(t, Succeeded) == 0)
            && (call.Won? ==> |t| == call.entry + 1 && Tally(t, Succeeded) == 1)
  {
    hide After, Trail, Touched, IsRun;
    var t := Trail(cfg, run, c);
    CallVisitsInOrder(cfg, run, c);
    TallyTotals(t);
    if After(cfg, run).calls[c].Won? {
      NoSuccessTally(t[..|t| - 1]);
    } else {
      NoSuccessTally(t);
    }
  }
}
