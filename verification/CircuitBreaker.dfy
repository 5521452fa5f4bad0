/**
  The three-state circuit breaker. `State` and `Step` say what one atomic operation does;
  `CircuitBreaker` is the mutable object; the lemmas are about whole histories of operations.
  Times are integers in nanoseconds.
*/
module CircuitBreakers {
  datatype Phase = Closed | Open | HalfOpen

  datatype Config = Config(failureThreshold: int, resetTimeout: int)

  datatype State = State(phase: Phase, fails: nat, openedAt: int, trial: bool)

  const DEFAULT_THRESHOLD := 5
  const DEFAULT_RESET := 30_000_000_000
  const INITIAL := State(Closed, 0, 0, false)

  // One call of Allow, RecordSuccess or RecordFailure, with the clock it reads under the mutex.
  datatype Event = Allow(at: int) | Success(at: int) | Fail(at: int)

  predicate Positive(c: Config) {
    c.failureThreshold >= 1 && c.resetTimeout >= 1
  }

  predicate Admits(c: Config, s: State, at: int) {
    match s.phase
    case Closed => true
    case Open => at - s.openedAt >= c.resetTimeout
    case HalfOpen => !s.trial
  }

  function Step(c: Config, s: State, e: Event): State {
    match e
    case Allow(at) =>
      if s.phase.Closed? || !Admits(c, s, at) then s else s.(phase := HalfOpen, trial := true)
    case Success(_) =>
      s.(phase := Closed, fails := 0, trial := false)
    case Fail(at) =>
      var failed := s.(fails := s.fails + 1);
      match s.phase
      case Closed =>
        if failed.fails >= c.failureThreshold then failed.(phase := Open, openedAt := at) else failed
      case HalfOpen =>
        failed.(phase := Open, openedAt := at, trial := false)
      case Open => failed
  }

  class CircuitBreaker {
    const failureThreshold: int
    const resetTimeout: int
    var phase: Phase
    var consecutiveFails: nat
    var openedAt: int
    var halfOpenTrialInFlight: bool

    function Cfg(): Config {
      Config(failureThreshold, resetTimeout)
    }

    function View(): State
      reads this
    {
      State(phase, consecutiveFails, openedAt, halfOpenTrialInFlight)
    }

    constructor (failureThreshold: int, resetTimeout: int)
      ensures View() == INITIAL
      ensures Positive(Cfg())
      ensures Cfg() == Config(if failureThreshold <= 0 then 5 else failureThreshold,
                              if resetTimeout <= 0 then 30_000_000_000 else resetTimeout)
    {
      this.failureThreshold := if failureThreshold <= 0 then DEFAULT_THRESHOLD else failureThreshold;
      this.resetTimeout := if resetTimeout <= 0 then DEFAULT_RESET else resetTimeout;
      phase, consecutiveFails, openedAt, halfOpenTrialInFlight := Closed, 0, 0, false;
    }

    method TryAllow(now: int) returns (ok: bool)
      modifies this
      ensures ok == Admits(Cfg(), old(View()), now)
      ensures forall h :: Positive(Cfg()) && old(View()) == After(Cfg(), h) ==> (ok <==> MayTry(Cfg(), h, now))
      ensures View() == Step(Cfg(), old(View()), Allow(now))
    {
      forall h | Positive(Cfg()) && View() == After(Cfg(), h)
        ensures Admits(Cfg(), View(), now) <==> MayTry(Cfg(), h, now)
      {
        AdmittedIffMayTry(Cfg(), h, now);
      }
      match phase {
        case Closed =>
          return true;
        case Open =>
          if now - openedAt >= resetTimeout {
            phase := HalfOpen;
            halfOpenTrialInFlight := true;
            return true;
          }
          return false;
        case HalfOpen =>
          if halfOpenTrialInFlight {
            return false;
          }
          halfOpenTrialInFlight := true;
          return true;
      }
    }

    method RecordSuccess(now: int)
      modifies this
      ensures View() == Step(Cfg(), old(View()), Success(now))
    {
      consecutiveFails := 0;
      phase := Closed;
      halfOpenTrialInFlight := false;
    }

    method RecordFailure(now: int)
      modifies this
      ensures View() == Step(Cfg(), old(View()), Fail(now))
    {
      consecutiveFails := consecutiveFails + 1;
      match phase {
        case Closed =>
          if consecutiveFails >= failureThreshold {
            phase := Open;
            openedAt := now;
          }
        case HalfOpen =>
          phase := Open;
          openedAt := now;
          halfOpenTrialInFlight := false;
        case Open =>
      }
    }
  }

  // ---------- Histories ----------

  // The state of a new breaker after a history of operations, in mutex order.
  function After(c: Config, h: seq<Event>): State {
    if h == [] then INITIAL else Step(c, After(c, h[..|h| - 1]), h[|h| - 1])
  }

  // How many failures were recorded since the last recorded success; Allow calls do not count.
  function TrailingFailures(h: seq<Event>): nat {
    if h == [] then 0
    else
      match h[|h| - 1]
      case Allow(_) => TrailingFailures(h[..|h| - 1])
      case Success(_) => 0
      case Fail(_) => TrailingFailures(h[..|h| - 1]) + 1
  }

  /** After any history at any times, closed means fewer than `failureThreshold` trailing failures,
      and half-open means exactly that the trial flag is set. */
  lemma {:induction false} ClosedIffFewTrailingFailures(c: Config, h: seq<Event>)
    requires Positive(c)
    ensures After(c, h).phase.Closed? <==> TrailingFailures(h) < c.failureThreshold
    ensures After(c, h).phase.HalfOpen? <==> After(c, h).trial
    ensures After(c, h).fails == TrailingFailures(h)
  {
    if h != [] {
      ClosedIffFewTrailingFailures(c, h[..|h| - 1]);
    }
  }

  /** So a half-open breaker refuses every caller: the branch that hands out a second trial is dead. */
  lemma HalfOpenRefuses(c: Config, h: seq<Event>, at: int)
    requires Positive(c) && After(c, h).phase.HalfOpen?
    ensures !Admits(c, After(c, h), at)
  {
    ClosedIffFewTrailingFailures(c, h);
  }

  ghost predicate ClockOrdered(h: seq<Event>) {
    forall i, j :: 0 <= i < j < |h| ==> h[i].at <= h[j].at
  }

  // Event `p` is a recorded failure that opens the breaker, from closed or again from half-open.
  ghost predicate Opens(c: Config, h: seq<Event>, p: nat) {
    p < |h| && !After(c, h[..p]).phase.Open? && After(c, h[..p + 1]).phase.Open?
  }

  predicate AdmittedAt(c: Config, h: seq<Event>, i: nat)
    requires i < |h|
  {
    h[i].Allow? && Admits(c, After(c, h[..i]), h[i].at)
  }

  // The number of admitted calls among events lo .. hi - 1.
  function Admissions(c: Config, h: seq<Event>, lo: nat, hi: nat): nat
    requires lo <= hi <= |h|
  {
    if lo == hi then 0
    else Admissions(c, h, lo, hi - 1) + if AdmittedAt(c, h, hi - 1) then 1 else 0
  }

  ghost predicate NoSuccess(h: seq<Event>, lo: nat, hi: nat)
    requires lo <= hi <= |h|
  {
    forall i :: lo <= i < hi ==> !h[i].Success?
  }

  lemma AfterSnoc(c: Config, h: seq<Event>, i: nat)
    requires i < |h|
    ensures After(c, h[..i + 1]) == Step(c, After(c, h[..i]), h[i])
  {
    assert h[..i + 1][..i] == h[..i];
  }

  // No admitted call is owed before `due`, seen from a moment `now` at which no success followed the opening.
  predicate Spaced(s: State, due: int, now: int) {
    match s.phase
    case Closed => false
    case Open => due <= s.openedAt <= now
    case HalfOpen => s.trial && due <= now
  }

  lemma StepKeepsSpaced(c: Config, s: State, e: Event, due: int, now: int)
    requires Positive(c) && Spaced(s, due, now) && now <= e.at && !e.Success?
    ensures var admitted := e.Allow? && Admits(c, s, e.at);
            Spaced(Step(c, s, e), if admitted then due + c.resetTimeout else due, e.at)
  {
  }

  // The earliest time the next admission after events up to n can be: one resetTimeout per admission so far.
  function Due(c: Config, h: seq<Event>, p: nat, n: nat): int
    requires p < n <= |h|
  {
    h[p].at + Admissions(c, h, p + 1, n) * c.resetTimeout
  }

  lemma DueStep(c: Config, h: seq<Event>, p: nat, n: nat)
    requires p < n < |h|
    ensures Due(c, h, p, n + 1) == Due(c, h, p, n) + if AdmittedAt(c, h, n) then c.resetTimeout else 0
  {
    var k := Admissions(c, h, p + 1, n);
    assert (k + 1) * c.resetTimeout == k * c.resetTimeout + c.resetTimeout;
  }

  lemma OpeningStamps(c: Config, s: State, e: Event)
    requires !s.phase.Open? && Step(c, s, e).phase.Open?
    ensures Step(c, s, e).openedAt == e.at
  {
  }

  lemma {:induction false} SpacingInvariant(c: Config, h: seq<Event>, p: nat, n: nat)
    requires Positive(c) && ClockOrdered(h) && Opens(c, h, p) && p < n <= |h| && NoSuccess(h, p + 1, n)
    ensures Spaced(After(c, h[..n]), Due(c, h, p, n), h[n - 1].at)
    decreases n
  {
    hide After, Step, Admits;
    AfterSnoc(c, h, n - 1);
    if n == p + 1 {
      OpeningStamps(c, After(c, h[..p]), h[p]);
      assert Due(c, h, p, n) == h[p].at;
    } else {
      hide Spaced, Due;
      SpacingInvariant(c, h, p, n - 1);
      DueStep(c, h, p, n - 1);
      StepKeepsSpaced(c, After(c, h[..n - 1]), h[n - 1], Due(c, h, p, n - 1), h[n - 2].at);
    }
  }

  /** After every opening, while no success is recorded, the k-th admitted call comes no earlier than
      k * resetTimeout later, whoever calls and however many late failures are recorded. */
  lemma AdmissionsAreSpaced(c: Config, h: seq<Event>, p: nat, i: nat)
    requires Positive(c) && ClockOrdered(h) && Opens(c, h, p) && p < i < |h| && NoSuccess(h, p + 1, i)
    requires AdmittedAt(c, h, i)
    ensures h[i].at >= h[p].at + Admissions(c, h, p + 1, i + 1) * c.resetTimeout
  {
    SpacingInvariant(c, h, p, i);
    DueStep(c, h, p, i);
  }

  // ---------- Exactly when a call is admitted ----------

  // Of the events before n, p is the last that opens the breaker.
  ghost predicate LastOpening(c: Config, h: seq<Event>, p: nat, n: nat) {
    p < n <= |h| && Opens(c, h, p) && forall q: nat :: p < q < n ==> !Opens(c, h, q)
  }

  // What the state tells about the events since the last opening.
  ghost predicate SinceOpening(c: Config, h: seq<Event>, p: nat, n: nat) {
    && LastOpening(c, h, p, n)
    && var s := After(c, h[..n]);
       if s.phase.Open? then s.openedAt == h[p].at && Admissions(c, h, p + 1, n) == 0
       else Admissions(c, h, p + 1, n) > 0
  }

  // One more event that is no opening and closes nothing.
  lemma QuietStep(c: Config, h: seq<Event>, n: nat)
    requires Positive(c) && n < |h| && !Opens(c, h, n) && !After(c, h[..n + 1]).phase.Closed?
    ensures var s, s' := After(c, h[..n]), After(c, h[..n + 1]);
            && !s.phase.Closed? && (s.phase.HalfOpen? ==> s'.phase.HalfOpen?)
            && (s'.phase.Open? ==> s.phase.Open? && s'.openedAt == s.openedAt)
            && (AdmittedAt(c, h, n) <==> s.phase.Open? && s'.phase.HalfOpen?)
  {
    AfterSnoc(c, h, n);
    ClosedIffFewTrailingFailures(c, h[..n]);
  }

  lemma {:induction false} OpeningFound(c: Config, h: seq<Event>, n: nat) returns (p: nat)
    requires Positive(c) && n <= |h| && !After(c, h[..n]).phase.Closed?
    ensures SinceOpening(c, h, p, n)
    decreases n
  {
    hide After, AdmittedAt;
    StartsClosed(c);
    assert h[..0] == [];
    if Opens(c, h, n - 1) {
      p := n - 1;
      AfterSnoc(c, h, p);
      OpeningStamps(c, After(c, h[..p]), h[p]);
    } else {
      QuietStep(c, h, n - 1);
      p := OpeningFound(c, h, n - 1);
    }
  }

  lemma StartsClosed(c: Config)
    ensures After(c, []).phase.Closed?
  {
  }

  // After the history h a call at `at` may go through: the breaker has not failed often enough, or no call was
  // admitted since the last opening and resetTimeout has passed since then.
  ghost predicate MayTry(c: Config, h: seq<Event>, at: int) {
    || TrailingFailures(h) < c.failureThreshold
    || exists p: nat :: LastOpening(c, h, p, |h|) && Admissions(c, h, p + 1, |h|) == 0 && at >= h[p].at + c.resetTimeout
  }

  /** Exactly when a call is admitted, after any history at any times. */
  lemma AdmittedIffMayTry(c: Config, h: seq<Event>, at: int)
    requires Positive(c)
    ensures Admits(c, After(c, h), at) <==> MayTry(c, h, at)
  {
    assert h[..|h|] == h;
    ClosedIffFewTrailingFailures(c, h);
    if !After(c, h).phase.Closed? {
      var p := OpeningFound(c, h, |h|);
      assert forall q: nat :: LastOpening(c, h, q, |h|) ==> q == p;
      if After(c, h).phase.HalfOpen? {
        HalfOpenRefuses(c, h, at);
      }
    }
  }

  /** Which events open the breaker, told from the history: the failure that completes failureThreshold in a row,
      and every later one that answers a call admitted since the last opening. */
  lemma OpensIff(c: Config, h: seq<Event>, n: nat)
    requires Positive(c) && n < |h|
    ensures Opens(c, h, n) <==>
            && h[n].Fail?
            && (|| TrailingFailures(h[..n]) + 1 == c.failureThreshold
                || (TrailingFailures(h[..n]) >= c.failureThreshold
                    && exists p: nat :: LastOpening(c, h, p, n) && Admissions(c, h, p + 1, n) > 0))
  {
    hide After;
    AfterSnoc(c, h, n);
    ClosedIffFewTrailingFailures(c, h[..n]);
    if !After(c, h[..n]).phase.Closed? {
      var p := OpeningFound(c, h, n);
      assert forall q: nat :: LastOpening(c, h, q, n) ==> q == p;
    }
  }
}
