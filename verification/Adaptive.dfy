/**
  The additive-increase / multiplicative-decrease controller of the image concurrency limit.
  Ratios and thresholds are exact rationals; times are in milliseconds.
*/
module Adaptive {
  import opened Basics

  datatype Sample = Sample(execMs: int, isErr: bool)

  datatype Config = Config(
    enabled: bool, minLimit: int, maxLimit: int, initialLimit: int,
    fastMs: int, slowMs: int, window: int, cooldownMs: int, step: int,
    ratio: real, errorThreshold: real)

  // lastAdjust is None until the first evaluation: the zero time lies arbitrarily far back.
  datatype State = State(samples: seq<Sample>, limit: int, lastAdjust: Option<int>)

  datatype Verdict = Decrease | Increase | Hold

  // ---------- Configuration ----------

  function OrDefault(x: int, d: int): int {
    if x <= 0 then d else x
  }

  function FractionOrDefault(x: real, d: real): real {
    if x <= 0.0 || x >= 1.0 then d else x
  }

  function Clamped(c: Config): Config {
    var d := c.(initialLimit := OrDefault(c.initialLimit, 6), minLimit := OrDefault(c.minLimit, 1),
                maxLimit := OrDefault(c.maxLimit, 12), fastMs := OrDefault(c.fastMs, 8000),
                slowMs := OrDefault(c.slowMs, 15000), window := OrDefault(c.window, 10),
                step := OrDefault(c.step, 1), ratio := FractionOrDefault(c.ratio, 0.75),
                errorThreshold := FractionOrDefault(c.errorThreshold, 0.10));
    var e := if d.minLimit > d.maxLimit then d.(minLimit := 1, maxLimit := 12) else d;
    e.(initialLimit := Min(Max(e.initialLimit, e.minLimit), e.maxLimit))
  }

  ghost predicate Sane(c: Config) {
    && 1 <= c.minLimit <= c.initialLimit <= c.maxLimit
    && c.window >= 1 && c.step >= 1
    && 0.0 < c.ratio < 1.0 && 0.0 < c.errorThreshold < 1.0
  }

  /** Whatever the configuration file says, the controller works with a sane one; one that is sane already, with
      thresholds set, is taken as it is, and one with nothing set gets the defaults. */
  lemma ClampedIsSane(c: Config)
    ensures Sane(Clamped(c)) && Clamped(Clamped(c)) == Clamped(c)
    ensures Sane(c) && c.fastMs > 0 && c.slowMs > 0 ==> Clamped(c) == c
    ensures c.minLimit > c.maxLimit > 0 ==> Clamped(c).minLimit == 1 && Clamped(c).maxLimit == 12
    ensures Clamped(Config(c.enabled, 0, 0, 0, 0, 0, 0, c.cooldownMs, 0, 0.0, 0.0))
            == Config(c.enabled, 1, 12, 6, 8000, 15000, 10, c.cooldownMs, 1, 0.75, 0.10)
  {
  }

  // ---------- Percentile by sorting, percentile by counting ----------

  ghost predicate SortedInts(s: seq<int>) {
    forall i, j :: 0 <= i < j < |s| ==> s[i] <= s[j]
  }

  function InsertInt(s: seq<int>, x: int): (r: seq<int>)
    ensures |r| == |s| + 1
  {
    if s == [] || s[|s| - 1] <= x then s + [x] else InsertInt(s[..|s| - 1], x) + [s[|s| - 1]]
  }

  // What the library's sort leaves of a slice of latencies.
  function SortInts(s: seq<int>): seq<int> {
    if s == [] then [] else InsertInt(SortInts(s[..|s| - 1]), s[|s| - 1])
  }

  lemma {:induction false} InsertIntElements(s: seq<int>, x: int)
    ensures multiset(InsertInt(s, x)) == multiset(s) + multiset{x}
  {
    if s != [] && s[|s| - 1] > x {
      InsertIntElements(s[..|s| - 1], x);
      assert s == s[..|s| - 1] + [s[|s| - 1]];
    }
  }

  lemma {:induction false} InsertIntSorted(s: seq<int>, x: int)
    requires SortedInts(s)
    ensures SortedInts(InsertInt(s, x))
    ensures InsertInt(s, x)[|InsertInt(s, x)| - 1] == if s == [] then x else Max(x, s[|s| - 1])
  {
    if s != [] && s[|s| - 1] > x {
      InsertIntSorted(s[..|s| - 1], x);
    }
  }

  /** The sort returns the same values in ascending order. */
  lemma {:induction false} SortIntsFacts(s: seq<int>)
    ensures |SortInts(s)| == |s| && SortedInts(SortInts(s))
    ensures multiset(SortInts(s)) == multiset(s)
  {
    if s != [] {
      SortIntsFacts(s[..|s| - 1]);
      SortStep(SortInts(s[..|s| - 1]), s);
    }
  }

  lemma SortStep(sorted: seq<int>, s: seq<int>)
    requires s != [] && SortedInts(sorted) && multiset(sorted) == multiset(s[..|s| - 1])
    ensures SortedInts(InsertInt(sorted, s[|s| - 1])) && multiset(InsertInt(sorted, s[|s| - 1])) == multiset(s)
  {
    hide SortedInts, InsertInt;
    InsertIntElements(sorted, s[|s| - 1]);
    InsertIntSorted(sorted, s[|s| - 1]);
    assert s == s[..|s| - 1] + [s[|s| - 1]];
  }

  // The number of elements of s above t, and below t.
  function Above(s: seq<int>, t: int): nat {
    if s == [] then 0 else Above(s[..|s| - 1], t) + if s[|s| - 1] > t then 1 else 0
  }

  function Below(s: seq<int>, t: int): nat {
    if s == [] then 0 else Below(s[..|s| - 1], t) + if s[|s| - 1] < t then 1 else 0
  }

  lemma {:induction false} InsertCounts(s: seq<int>, x: int, t: int)
    ensures Above(InsertInt(s, x), t) == Above(s, t) + if x > t then 1 else 0
    ensures Below(InsertInt(s, x), t) == Below(s, t) + if x < t then 1 else 0
  {
    if s != [] && s[|s| - 1] > x {
      var r := InsertInt(s[..|s| - 1], x);
      InsertCounts(s[..|s| - 1], x, t);
      assert (r + [s[|s| - 1]])[..|r|] == r;
    } else {
      assert (s + [x])[..|s|] == s;
    }
  }

  lemma {:induction false} SortCounts(s: seq<int>, t: int)
    ensures Above(SortInts(s), t) == Above(s, t) && Below(SortInts(s), t) == Below(s, t)
  {
    if s != [] {
      SortCounts(s[..|s| - 1], t);
      InsertCounts(SortInts(s[..|s| - 1]), s[|s| - 1], t);
    }
  }

  // In a sorted sequence the elements above t are a suffix, those below t a prefix.
  lemma {:induction false} SortedCounts(s: seq<int>, t: int, k: nat)
    requires SortedInts(s) && k < |s|
    ensures s[k] > t <==> Above(s, t) >= |s| - k
    ensures s[k] < t <==> Below(s, t) >= k + 1
  {
    var front := s[..|s| - 1];
    if k < |front| {
      SortedCounts(front, t, k);
    }
    CountBounds(front, t);
  }

  lemma {:induction false} CountBounds(s: seq<int>, t: int)
    ensures Above(s, t) <= |s| && Below(s, t) <= |s|
    ensures SortedInts(s) && s != [] && s[|s| - 1] <= t ==> Above(s, t) == 0
    ensures SortedInts(s) && s != [] && s[|s| - 1] < t ==> Below(s, t) == |s|
  {
    if s != [] {
      CountBounds(s[..|s| - 1], t);
    }
  }

  // The index the controller reads: ceil(9n/10) - 1.
  function P90Index(n: nat): int {
    (9 * n + 9) / 10 - 1
  }

  /** The sorted element at the ninetieth percentile exceeds t iff more than floor(n/10) elements do,
      and lies below t iff at least ceil(9n/10) elements do. */
  lemma P90ByCounting(s: seq<int>, t: int)
    requires s != []
    ensures 0 <= P90Index(|s|) < |SortInts(s)|
    ensures SortInts(s)[P90Index(|s|)] > t <==> Above(s, t) > |s| / 10
    ensures SortInts(s)[P90Index(|s|)] < t <==> Below(s, t) >= (9 * |s| + 9) / 10
  {
    SortIntsFacts(s);
    SortCounts(s, t);
    SortedCounts(SortInts(s), t, P90Index(|s|));
  }

  // ---------- One sample ----------

  function Latencies(s: seq<Sample>): (r: seq<int>)
    ensures |r| == |s|
  {
    seq(|s|, i requires 0 <= i < |s| => s[i].execMs)
  }

  function Errors(s: seq<Sample>): nat {
    if s == [] then 0 else Errors(s[..|s| - 1]) + if s[|s| - 1].isErr then 1 else 0
  }

  function Pushed(c: Config, samples: seq<Sample>, x: Sample): seq<Sample> {
    var all := samples + [x];
    if |all| > c.window then all[1..] else all
  }

  function ErrorRate(errs: nat, n: nat): real
    requires n > 0
  {
    errs as real / n as real
  }

  // The multiplicative decrease, rounded down.
  function Scaled(c: Config, limit: int): int {
    (limit as real * c.ratio).Floor
  }

  // The evaluation as the source computes it: sort, index, compare.
  function Evaluate(c: Config, samples: seq<Sample>): Verdict
    requires samples != []
  {
    P90ByCounting(Latencies(samples), c.slowMs);
    var p90 := SortInts(Latencies(samples))[P90Index(|samples|)];
    var errRate := ErrorRate(Errors(samples), |samples|);
    if p90 > c.slowMs || errRate > c.errorThreshold then Decrease
    else if p90 < c.fastMs && errRate == 0.0 then Increase
    else Hold
  }

  function Adjusted(c: Config, limit: int, v: Verdict): int {
    match v
    case Decrease => Max(Scaled(c, limit), c.minLimit)
    case Increase => Min(limit + c.step, c.maxLimit)
    case Hold => limit
  }

  predicate CooledDown(c: Config, s: State, now: int) {
    s.lastAdjust.None? || now - s.lastAdjust.value >= c.cooldownMs
  }

  // Whether recording x at `now` runs an evaluation.
  predicate Evaluates(c: Config, s: State, x: Sample, now: int) {
    c.enabled && |Pushed(c, s.samples, x)| >= c.window >= 1 && CooledDown(c, s, now)
  }

  // `now` is the clock at the cooldown check, `done` the clock when the adjustment is stamped.
  function Record(c: Config, s: State, x: Sample, now: int, done: int): State {
    if !c.enabled then s
    else
      var samples := Pushed(c, s.samples, x);
      if Evaluates(c, s, x, now)
      then State(samples, Adjusted(c, s.limit, Evaluate(c, samples)), Some(done))
      else s.(samples := samples)
  }

  function Initial(c: Config): State {
    State([], c.initialLimit, None)
  }

  class AdaptiveConcurrency {
    const cfg: Config
    var samples: seq<Sample>
    var limit: int
    var lastAdjust: Option<int>

    function View(): State
      reads this
    {
      State(samples, limit, lastAdjust)
    }

    constructor (cfg: Config)
      ensures this.cfg == Clamped(cfg) && Sane(this.cfg) && View() == Initial(this.cfg)
      ensures limit == this.cfg.initialLimit && samples == [] && lastAdjust == None
    {
      this.cfg := Clamped(cfg);
      samples, limit, lastAdjust := [], Clamped(cfg).initialLimit, None;
    }

    // The loop over the window, the sort and the index.
    method Measure() returns (p90: int, errs: nat)
      requires samples != []
      ensures 0 <= P90Index(|samples|) < |SortInts(Latencies(samples))|
      ensures p90 == SortInts(Latencies(samples))[P90Index(|samples|)]
      ensures errs == Errors(samples)
    {
      hide SortInts;
      var n := |samples|;
      var unsorted: seq<int> := [];
      errs := 0;
      for i := 0 to n
        invariant unsorted == Latencies(samples[..i])
        invariant errs == Errors(samples[..i])
      {
        assert samples[..i + 1][..i] == samples[..i];
        unsorted := unsorted + [samples[i].execMs];
        if samples[i].isErr {
          errs := errs + 1;
        }
      }
      assert samples[..n] == samples;
      P90ByCounting(unsorted, 0);
      var sorted := SortInts(unsorted);
      p90 := sorted[P90Index(n)];
    }

    method RecordSample(execMs: int, isErr: bool, now: int, done: int)
      requires Sane(cfg)
      modifies this
      ensures View() == Record(cfg, old(View()), Sample(execMs, isErr), now, done)
    {
      hide SortInts, Errors, Latencies, ErrorRate, Scaled;
      if !cfg.enabled {
        return;
      }
      samples := samples + [Sample(execMs, isErr)];
      if |samples| > cfg.window {
        samples := samples[1..];
      }
      if |samples| < cfg.window {
        return;
      }
      if lastAdjust.Some? && now - lastAdjust.value < cfg.cooldownMs {
        return;
      }
      var p90, errs := Measure();
      var errRate := ErrorRate(errs, |samples|);
      if p90 > cfg.slowMs || errRate > cfg.errorThreshold {
        limit := Max(Scaled(cfg, limit), cfg.minLimit);
      } else if p90 < cfg.fastMs && errRate == 0.0 {
        limit := Min(limit + cfg.step, cfg.maxLimit);
      }
      lastAdjust := Some(done);
    }
  }

  // ---------- Histories ----------

  datatype Event = Event(sample: Sample, now: int, done: int)

  function After(c: Config, h: seq<Event>): State {
    if h == [] then Initial(c)
    else
      var e := h[|h| - 1];
      Record(c, After(c, h[..|h| - 1]), e.sample, e.now, e.done)
  }

  function Samples(h: seq<Event>): (r: seq<Sample>)
    ensures |r| == |h|
  {
    seq(|h|, i requires 0 <= i < |h| => h[i].sample)
  }

  // The last w samples ever recorded, or all of them while there are fewer.
  function LastSamples(h: seq<Event>, w: nat): seq<Sample> {
    Samples(h)[if |h| <= w then 0 else |h| - w..]
  }

  lemma RecordPushes(c: Config, s: State, e: Event)
    requires c.enabled
    ensures Record(c, s, e.sample, e.now, e.done).samples == Pushed(c, s.samples, e.sample)
  {
    hide Adjusted, Evaluate, CooledDown, Pushed;
  }

  lemma LastSamplesStep(c: Config, h: seq<Event>)
    requires Sane(c) && h != []
    ensures Pushed(c, LastSamples(h[..|h| - 1], c.window), h[|h| - 1].sample) == LastSamples(h, c.window)
  {
    assert Samples(h) == Samples(h[..|h| - 1]) + [h[|h| - 1].sample];
  }

  /** The window holds the last W samples ever recorded. */
  lemma {:induction false} WindowIsLastSamples(c: Config, h: seq<Event>)
    requires Sane(c) && c.enabled
    ensures After(c, h).samples == LastSamples(h, c.window)
  {
    if h != [] {
      hide Record, Pushed, LastSamples;
      WindowIsLastSamples(c, h[..|h| - 1]);
      RecordPushes(c, After(c, h[..|h| - 1]), h[|h| - 1]);
      LastSamplesStep(c, h);
    }
  }

  // The samples of a window that took longer than t, took less than t, or failed.
  function Slow(w: seq<Sample>, t: int): set<int> {
    set i | 0 <= i < |w| && w[i].execMs > t
  }

  function Fast(w: seq<Sample>, t: int): set<int> {
    set i | 0 <= i < |w| && w[i].execMs < t
  }

  function Failed(w: seq<Sample>): set<int> {
    set i | 0 <= i < |w| && w[i].isErr
  }

  // The share of e errors among n samples exceeds t, without a division.
  predicate ErrorsExceed(e: nat, n: nat, t: real) {
    e as real > t * n as real
  }

  // The verdict as a counting rule: no sorting, no index.
  function CountingVerdict(c: Config, w: seq<Sample>): Verdict {
    var n := |w|;
    if |Slow(w, c.slowMs)| > n / 10 || |Failed(w)| as real > c.errorThreshold * n as real then Decrease
    else if |Fast(w, c.fastMs)| >= (9 * n + 9) / 10 && Failed(w) == {} then Increase
    else Hold
  }

  lemma {:induction false} SlowSize(w: seq<Sample>, t: int)
    ensures Above(Latencies(w), t) == |Slow(w, t)|
  {
    if w != [] {
      var n := |w| - 1;
      SlowSize(w[..n], t);
      assert Latencies(w)[..n] == Latencies(w[..n]);
      assert Slow(w, t) == Slow(w[..n], t) + if w[n].execMs > t then {n} else {};
    }
  }

  lemma {:induction false} FastSize(w: seq<Sample>, t: int)
    ensures Below(Latencies(w), t) == |Fast(w, t)|
  {
    if w != [] {
      var n := |w| - 1;
      FastSize(w[..n], t);
      assert Latencies(w)[..n] == Latencies(w[..n]);
      assert Fast(w, t) == Fast(w[..n], t) + if w[n].execMs < t then {n} else {};
    }
  }

  lemma {:induction false} FailedSize(w: seq<Sample>)
    ensures Errors(w) == |Failed(w)|
  {
    if w != [] {
      var n := |w| - 1;
      FailedSize(w[..n]);
      assert Failed(w) == Failed(w[..n]) + if w[n].isErr then {n} else {};
    }
  }

  lemma ErrorShare(e: nat, n: nat, t: real)
    requires n > 0
    ensures ErrorRate(e, n) > t <==> ErrorsExceed(e, n, t)
    ensures ErrorRate(e, n) == 0.0 <==> e == 0
  {
    var q := e as real / n as real;
    assert q * n as real == e as real;
    if q > t {
      assert (q - t) * n as real > 0.0;
    } else {
      assert (t - q) * n as real >= 0.0;
    }
  }

  lemma EvaluateCounts(c: Config, w: seq<Sample>)
    requires w != []
    ensures Evaluate(c, w) == CountingVerdict(c, w)
  {
    hide SortInts, Above, Below, Errors, Latencies, ErrorRate, Slow, Fast, Failed;
    SlowSize(w, c.slowMs);
    FastSize(w, c.fastMs);
    FailedSize(w);
    P90ByCounting(Latencies(w), c.slowMs);
    P90ByCounting(Latencies(w), c.fastMs);
    ErrorShare(Errors(w), |w|, c.errorThreshold);
  }

  /** The branch an evaluation takes is the counting rule over the last W samples ever recorded. */
  lemma VerdictIsCounting(c: Config, h: seq<Event>, e: Event)
    requires Sane(c) && Evaluates(c, After(c, h), e.sample, e.now)
    ensures After(c, h + [e]).limit ==
            Adjusted(c, After(c, h).limit, CountingVerdict(c, LastSamples(h + [e], c.window)))
  {
    assert (h + [e])[..|h|] == h;
    WindowIsLastSamples(c, h + [e]);
    EvaluateCounts(c, After(c, h + [e]).samples);
  }

  lemma ScaledBounds(c: Config, limit: int)
    requires Sane(c) && limit >= 1
    ensures Scaled(c, limit) <= limit - 1 && Scaled(c, limit) as real <= c.ratio * limit as real
  {
    var x := limit as real;
    assert (1.0 - c.ratio) * x > 0.0;
  }

  lemma DecreaseLowers(c: Config, limit: int)
    requires Sane(c) && c.minLimit <= limit
    ensures c.minLimit <= Adjusted(c, limit, Decrease) <= Max(limit - 1, c.minLimit)
  {
    hide Scaled;
    ScaledBounds(c, limit);
  }

  /** The limit stays between MinLimit and MaxLimit in every reachable state. */
  lemma {:induction false} LimitStaysInBounds(c: Config, h: seq<Event>)
    requires Sane(c)
    ensures c.minLimit <= After(c, h).limit <= c.maxLimit
    ensures !c.enabled ==> After(c, h) == Initial(c)
  {
    if h != [] {
      hide Scaled, Evaluate, Pushed, CooledDown;
      LimitStaysInBounds(c, h[..|h| - 1]);
      DecreaseLowers(c, After(c, h[..|h| - 1]).limit);
    }
  }

  // ---------- Runs of decreases ----------

  function Pow(r: real, k: nat): real {
    if k == 0 then 1.0 else r * Pow(r, k - 1)
  }

  predicate EvaluatesAt(c: Config, h: seq<Event>, i: nat)
    requires i < |h|
  {
    Evaluates(c, After(c, h[..i]), h[i].sample, h[i].now)
  }

  // The evaluations among events lo .. hi - 1.
  function Evaluations(c: Config, h: seq<Event>, lo: nat, hi: nat): nat
    requires lo <= hi <= |h|
  {
    if lo == hi then 0 else Evaluations(c, h, lo, hi - 1) + if EvaluatesAt(c, h, hi - 1) then 1 else 0
  }

  // Every evaluation among events lo .. hi - 1 says decrease.
  ghost predicate OnlyDecreases(c: Config, h: seq<Event>, lo: nat, hi: nat)
    requires lo <= hi <= |h|
  {
    forall i :: lo <= i < hi && EvaluatesAt(c, h, i) ==>
      CountingVerdict(c, LastSamples(h[..i + 1], c.window)) == Decrease
  }

  lemma LimitStep(c: Config, h: seq<Event>, i: nat)
    requires Sane(c) && i < |h|
    ensures After(c, h[..i + 1]).limit ==
            if EvaluatesAt(c, h, i)
            then Adjusted(c, After(c, h[..i]).limit, CountingVerdict(c, LastSamples(h[..i + 1], c.window)))
            else After(c, h[..i]).limit
  {
    assert h[..i + 1] == h[..i] + [h[i]];
    assert (h[..i] + [h[i]])[..i] == h[..i];
    if EvaluatesAt(c, h, i) {
      VerdictIsCounting(c, h[..i], h[i]);
    }
  }

  function Larger(a: real, b: real): real {
    if a >= b then a else b
  }

  lemma ScaleDown(r: real, x: real, y: real)
    requires 0.0 < r < 1.0 && x <= y
    ensures r * x <= r * y
  {
    assert r * (y - x) >= 0.0;
  }

  lemma ScaledIsLess(r: real, y: real)
    requires 0.0 < r < 1.0 && y >= 0.0
    ensures r * y <= y
  {
    assert (1.0 - r) * y >= 0.0;
  }

  // One decrease, in exact arithmetic: either the floor or at most the ratio of the bound so far.
  lemma DecreaseBound(c: Config, limit: int, bound: real)
    requires Sane(c) && 1 <= limit && limit as real <= Larger(c.minLimit as real, bound)
    ensures Adjusted(c, limit, Decrease) as real <= Larger(c.minLimit as real, c.ratio * bound)
  {
    hide Scaled;
    ScaledBounds(c, limit);
    BoundShrinks(c.ratio, c.minLimit as real, limit as real, bound);
  }

  lemma BoundShrinks(r: real, m: real, x: real, bound: real)
    requires 0.0 < r < 1.0 && m >= 0.0 && x <= Larger(m, bound)
    ensures r * x <= Larger(m, r * bound)
  {
    if bound <= m {
      ScaleDown(r, x, m);
      ScaledIsLess(r, m);
      AtMostLarger(r * x, r * m, m, r * bound);
    } else {
      ScaleDown(r, x, bound);
      AtMostLarger(r * x, r * bound, m, r * bound);
    }
  }

  lemma AtMostLarger(x: real, y: real, a: real, b: real)
    requires x <= y && (y <= a || y <= b)
    ensures x <= Larger(a, b)
  {
  }

  // ratio^k * l0: the bound after k decreases from l0.
  function Decayed(c: Config, l0: int, k: nat): real {
    Pow(c.ratio, k) * l0 as real
  }

  lemma DecayStep(c: Config, l0: int, k: nat)
    ensures Decayed(c, l0, k + 1) == c.ratio * Decayed(c, l0, k)
  {
  }

  // Limit l is what k decreases from l0 may leave.
  ghost predicate Fallen(c: Config, l0: int, k: nat, l: int) {
    && l as real <= Larger(c.minLimit as real, Decayed(c, l0, k))
    && c.minLimit <= l <= Max(l0 - k, c.minLimit)
  }

  lemma FallenStep(c: Config, l0: int, k: nat, l: int)
    requires Sane(c) && Fallen(c, l0, k, l)
    ensures Fallen(c, l0, k + 1, Adjusted(c, l, Decrease))
  {
    hide Adjusted, Decayed;
    DecreaseLowers(c, l);
    DecreaseBound(c, l, Decayed(c, l0, k));
    DecayStep(c, l0, k);
  }

  lemma FallenNone(c: Config, l0: int)
    requires l0 >= c.minLimit
    ensures Fallen(c, l0, 0, l0)
  {
    assert Decayed(c, l0, 0) == l0 as real;
  }

  lemma FallenFar(c: Config, l0: int, k: nat, l: int)
    requires Fallen(c, l0, k, l) && k >= l0 - c.minLimit
    ensures l == c.minLimit
  {
  }

  /** While every evaluation says decrease, k of them leave at most max(MinLimit, ratio^k * L),
      and L - MinLimit of them are enough to reach MinLimit. */
  lemma {:induction false} DecreasesReachTheFloor(c: Config, h: seq<Event>, lo: nat, hi: nat)
    requires Sane(c) && lo <= hi <= |h| && OnlyDecreases(c, h, lo, hi)
    ensures var l0, l, k := After(c, h[..lo]).limit, After(c, h[..hi]).limit, Evaluations(c, h, lo, hi);
            Fallen(c, l0, k, l) && (k >= l0 - c.minLimit ==> l == c.minLimit)
    decreases hi
  {
    hide Adjusted, After, EvaluatesAt, CountingVerdict, Fallen, Sane, LastSamples;
    var l0, l, k := After(c, h[..lo]).limit, After(c, h[..hi]).limit, Evaluations(c, h, lo, hi);
    if lo < hi {
      DecreasesReachTheFloor(c, h, lo, hi - 1);
      LimitStep(c, h, hi - 1);
      if EvaluatesAt(c, h, hi - 1) {
        FallenStep(c, l0, k - 1, After(c, h[..hi - 1]).limit);
      }
    } else {
      LimitStaysInBounds(c, h[..lo]);
      FallenNone(c, l0);
    }
    if k >= l0 - c.minLimit {
      FallenFar(c, l0, k, l);
    }
  }

  // ---------- The limit from the samples ----------

  // Where an evaluation takes the limit: up by the step but not past the maximum, down to the ratio of what it
  // was, rounded down, but not below the minimum, or nowhere.
  predicate Moves(c: Config, limit: int, v: Verdict, m: int) {
    match v
    case Increase => m == Min(limit + c.step, c.maxLimit)
    case Decrease =>
      && m >= c.minLimit && c.ratio * limit as real < (m + 1) as real
      && (m == c.minLimit || m as real <= c.ratio * limit as real)
    case Hold => m == limit
  }

  lemma AdjustedMoves(c: Config, limit: int, v: Verdict)
    ensures Moves(c, limit, v, Adjusted(c, limit, v))
  {
    assert Scaled(c, limit) as real <= limit as real * c.ratio < (Scaled(c, limit) + 1) as real;
  }

  /** Event by event: an evaluation moves the limit as the counting rule over the last W samples says, and
      without one the limit stays. */
  lemma LimitFollowsTheSamples(c: Config, h: seq<Event>, i: nat)
    requires Sane(c) && i < |h|
    ensures var l, m := After(c, h[..i]).limit, After(c, h[..i + 1]).limit;
            if EvaluatesAt(c, h, i) then Moves(c, l, CountingVerdict(c, LastSamples(h[..i + 1], c.window)), m)
            else m == l
  {
    hide After, Moves, Adjusted, CountingVerdict;
    LimitStep(c, h, i);
    AdjustedMoves(c, After(c, h[..i]).limit, CountingVerdict(c, LastSamples(h[..i + 1], c.window)));
  }

  // Every evaluation among events lo .. hi - 1 says increase.
  ghost predicate OnlyIncreases(c: Config, h: seq<Event>, lo: nat, hi: nat)
    requires lo <= hi <= |h|
  {
    forall i :: lo <= i < hi && EvaluatesAt(c, h, i) ==>
      CountingVerdict(c, LastSamples(h[..i + 1], c.window)) == Increase
  }

  /** While every evaluation says increase, k of them from L give exactly min(L + k * step, MaxLimit). */
  lemma {:induction false} IncreasesAddUp(c: Config, h: seq<Event>, lo: nat, hi: nat)
    requires Sane(c) && lo <= hi <= |h| && OnlyIncreases(c, h, lo, hi)
    ensures After(c, h[..hi]).limit
            == Min(After(c, h[..lo]).limit + Evaluations(c, h, lo, hi) * c.step, c.maxLimit)
    decreases hi
  {
    hide After, EvaluatesAt, CountingVerdict, LastSamples;
    if lo < hi {
      IncreasesAddUp(c, h, lo, hi - 1);
      LimitFollowsTheSamples(c, h, hi - 1);
      var k := Evaluations(c, h, lo, hi - 1);
      assert (k + 1) * c.step == k * c.step + c.step;
    } else {
      LimitStaysInBounds(c, h[..lo]);
    }
  }

  // ---------- When an evaluation runs ----------

  // Of the events before n, j is the last that ran an evaluation.
  ghost predicate LastEvaluation(c: Config, h: seq<Event>, j: nat, n: nat) {
    j < n <= |h| && EvaluatesAt(c, h, j) && forall i: nat :: j < i < n ==> !EvaluatesAt(c, h, i)
  }

  // The stamp is the finishing time of the last evaluation, if there was one.
  lemma {:induction false} StampIsTheLast(c: Config, h: seq<Event>, n: nat)
    requires n <= |h|
    ensures After(c, h[..n]).lastAdjust.None? ==> forall j: nat :: !LastEvaluation(c, h, j, n)
    ensures After(c, h[..n]).lastAdjust.Some? ==>
              exists j: nat :: LastEvaluation(c, h, j, n) && After(c, h[..n]).lastAdjust == Some(h[j].done)
    decreases n
  {
    hide Record, Evaluates;
    if n > 0 {
      assert h[..n][..n - 1] == h[..n - 1];
      RecordStamps(c, After(c, h[..n - 1]), h[n - 1]);
      StampIsTheLast(c, h, n - 1);
      if EvaluatesAt(c, h, n - 1) {
        assert LastEvaluation(c, h, n - 1, n);
      } else {
        assert forall j: nat :: LastEvaluation(c, h, j, n) <==> LastEvaluation(c, h, j, n - 1);
      }
    }
  }

  /** Exactly when a sample runs an evaluation: the controller is on, W samples have come, and CooldownMs have
      passed since the last evaluation, if there was one. */
  lemma EvaluatesIff(c: Config, h: seq<Event>, i: nat)
    requires Sane(c) && i < |h|
    ensures EvaluatesAt(c, h, i) <==>
            && c.enabled && i + 1 >= c.window
            && forall j: nat :: LastEvaluation(c, h, j, i) ==> h[i].now >= h[j].done + c.cooldownMs
  {
    StampIsTheLast(c, h, i);
    assert h[..i + 1][..i] == h[..i];
    if c.enabled {
      WindowIsLastSamples(c, h[..i + 1]);
      RecordPushes(c, After(c, h[..i]), h[i]);
    }
    hide After;
    assert forall j: nat, k: nat :: LastEvaluation(c, h, j, i) && LastEvaluation(c, h, k, i) ==> j == k;
  }

  ghost predicate ClockOrdered(h: seq<Event>) {
    && (forall i :: 0 <= i < |h| ==> h[i].now <= h[i].done)
    && (forall i, j :: 0 <= i < j < |h| ==> h[i].done <= h[j].now)
  }

  // The stamp is the finishing time of the last evaluation.
  // A record stamps its finishing time if it evaluates, and leaves the stamp alone otherwise.
  lemma RecordStamps(c: Config, s: State, e: Event)
    ensures var s' := Record(c, s, e.sample, e.now, e.done);
            s'.lastAdjust == if Evaluates(c, s, e.sample, e.now) then Some(e.done) else s.lastAdjust
  {
    hide Evaluate, Adjusted, Pushed, CooledDown;
  }

  lemma {:induction false} StampIsLastEvaluation(c: Config, h: seq<Event>, i: nat, n: nat)
    requires Sane(c) && ClockOrdered(h) && i < n <= |h| && EvaluatesAt(c, h, i)
    ensures var s := After(c, h[..n]); s.lastAdjust.Some? && h[i].done <= s.lastAdjust.value
    decreases n
  {
    hide Record, Evaluates;
    assert h[..n][..n - 1] == h[..n - 1];
    RecordStamps(c, After(c, h[..n - 1]), h[n - 1]);
    if i < n - 1 {
      StampIsLastEvaluation(c, h, i, n - 1);
    }
  }

  /** Any two evaluations are at least CooldownMs apart. */
  lemma EvaluationsAreSpaced(c: Config, h: seq<Event>, i: nat, j: nat)
    requires Sane(c) && ClockOrdered(h) && i < j < |h| && EvaluatesAt(c, h, i) && EvaluatesAt(c, h, j)
    ensures h[j].now >= h[i].done + c.cooldownMs
  {
    StampIsLastEvaluation(c, h, i, j);
  }
}
