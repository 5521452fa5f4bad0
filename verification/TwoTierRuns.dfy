/**
  Any number of concurrent calls on the composite cache. Each access to a layer and each lock is one
  step; the hot layer may drop an entry at any step, the cold one keeps its rows.
*/
module TwoTierRuns {
  import opened Basics

  type Tid = nat

  datatype Call =
    | Looking(key: string)                           // a Get about to look in the hot layer
    | Locking(key: string)                           // it missed, and wants the lock of the key's shard
    | Rechecking(key: string)                        // it holds the lock and looks again
    | Asking(key: string)                            // it missed again, and asks the cold layer
    | Filling(key: string, value: string)            // the cold layer had the value
    | Unlocking(key: string, answer: Option<string>)
    | Answered(key: string, answer: Option<string>)
    | PuttingHot(key: string, value: string)         // a Put
    | PuttingCold(key: string, value: string)
    | PutDone(key: string, value: string)

  datatype World = World(
    hot: map<string, string>, cold: map<string, string>, locks: map<nat, Tid>, calls: map<Tid, Call>)

  datatype Step =
    | Get(tid: Tid, key: string)
    | Put(tid: Tid, key: string, value: string)
    | Go(tid: Tid)
    | Drop(key: string)  // the hot layer evicts, or is replaced by an empty one

  function Init(rows: map<string, string>): World {
    World(map[], rows, map[], map[])
  }

  predicate InSection(c: Call) {
    c.Rechecking? || c.Asking? || c.Filling? || c.Unlocking?
  }

  predicate Enabled(shard: string -> nat, w: World, s: Step) {
    match s
    case Get(tid, _) => tid !in w.calls
    case Put(tid, _, _) => tid !in w.calls
    case Go(tid) =>
      && tid in w.calls && !w.calls[tid].Answered? && !w.calls[tid].PutDone?
      && (w.calls[tid].Locking? ==> shard(w.calls[tid].key) !in w.locks)
    case Drop(_) => true
  }

  // Where a call goes next.
  function Goes(w: World, c: Call): Call {
    match c
    case Looking(k) => if k in w.hot then Answered(k, Some(w.hot[k])) else Locking(k)
    case Locking(k) => Rechecking(k)
    case Rechecking(k) => if k in w.hot then Unlocking(k, Some(w.hot[k])) else Asking(k)
    case Asking(k) => if k in w.cold then Filling(k, w.cold[k]) else Unlocking(k, None)
    case Filling(k, v) => Unlocking(k, Some(v))
    case Unlocking(k, a) => Answered(k, a)
    case PuttingHot(k, v) => PuttingCold(k, v)
    case PuttingCold(k, v) => PutDone(k, v)
    case _ => c
  }

  function NextLocks(shard: string -> nat, w: World, tid: Tid, c: Call): map<nat, Tid> {
    if c.Locking? then w.locks[shard(c.key) := tid]
    else if c.Unlocking? then w.locks - {shard(c.key)}
    else w.locks
  }

  function Next(shard: string -> nat, w: World, s: Step): World
    requires Enabled(shard, w, s)
  {
    match s
    case Get(tid, key) => w.(calls := w.calls[tid := Looking(key)])
    case Put(tid, key, value) => w.(calls := w.calls[tid := PuttingHot(key, value)])
    case Drop(key) => w.(hot := w.hot - {key})
    case Go(tid) =>
      var c := w.calls[tid];
      World(if c.Filling? || c.PuttingHot? then w.hot[c.key := c.value] else w.hot,
            if c.PuttingCold? then w.cold[c.key := c.value] else w.cold,
            NextLocks(shard, w, tid, c),
            w.calls[tid := Goes(w, c)])
  }

  ghost predicate IsRun(shard: string -> nat, rows: map<string, string>, run: seq<Step>)
    decreases run, 0
  {
    run == [] ||
    (IsRun(shard, rows, run[..|run| - 1]) && Enabled(shard, After(shard, rows, run[..|run| - 1]), run[|run| - 1]))
  }

  ghost function After(shard: string -> nat, rows: map<string, string>, run: seq<Step>): World
    requires IsRun(shard, rows, run)
    decreases run, 1
  {
    if run == [] then Init(rows) else Next(shard, After(shard, rows, run[..|run| - 1]), run[|run| - 1])
  }

  // ---------- The shard locks ----------

  // A Get inside the locked part holds the lock of its key's shard, and only such a Get holds one.
  ghost predicate Locked(shard: string -> nat, w: World) {
    && (forall t :: t in w.calls && InSection(w.calls[t]) ==>
         shard(w.calls[t].key) in w.locks && w.locks[shard(w.calls[t].key)] == t)
    && (forall h :: h in w.locks ==>
         w.locks[h] in w.calls && InSection(w.calls[w.locks[h]]) && shard(w.calls[w.locks[h]].key) == h)
  }

  lemma LockedStep(shard: string -> nat, w: World, s: Step)
    requires Locked(shard, w) && Enabled(shard, w, s)
    ensures Locked(shard, Next(shard, w, s))
  {
    if s.Go? {
      GoesInOrOut(w, w.calls[s.tid]);
      hide Goes;
    }
  }

  lemma GoesInOrOut(w: World, c: Call)
    ensures Goes(w, c).key == c.key
    ensures InSection(Goes(w, c)) <==> c.Locking? || c.Rechecking? || c.Asking? || c.Filling?
  {
  }

  lemma {:induction false} EveryRunIsLocked(shard: string -> nat, rows: map<string, string>, run: seq<Step>)
    requires IsRun(shard, rows, run)
    ensures Locked(shard, After(shard, rows, run))
  {
    if run != [] {
      hide Locked, Next, Enabled;
      EveryRunIsLocked(shard, rows, run[..|run| - 1]);
      LockedStep(shard, After(shard, rows, run[..|run| - 1]), run[|run| - 1]);
    } else {
      assert Locked(shard, Init(rows));
    }
  }

  /** In every interleaving at most one Get per shard, so per key, asks the cold layer or fills the hot one. */
  lemma OneGetPerShard(shard: string -> nat, rows: map<string, string>, run: seq<Step>, t: Tid, u: Tid)
    requires IsRun(shard, rows, run) && t in After(shard, rows, run).calls && u in After(shard, rows, run).calls
    requires InSection(After(shard, rows, run).calls[t]) && InSection(After(shard, rows, run).calls[u])
    requires shard(After(shard, rows, run).calls[t].key) == shard(After(shard, rows, run).calls[u].key)
    ensures t == u
  {
    EveryRunIsLocked(shard, rows, run);
  }

  // ---------- The double check ----------

  // The hot layer holds the key, and no Get is about to ask the cold layer for it.
  ghost predicate Spared(w: World, key: string) {
    key in w.hot && forall t :: t in w.calls && w.calls[t].key == key ==> !w.calls[t].Asking?
  }

  lemma SparedStep(shard: string -> nat, w: World, s: Step, key: string)
    requires Enabled(shard, w, s) && Spared(w, key) && s != Drop(key)
    ensures Spared(Next(shard, w, s), key)
  {
  }

  // Right after a Get has filled the hot layer, no other one is about to ask for the key.
  lemma FillingSpares(shard: string -> nat, w: World, t: Tid)
    requires Locked(shard, w) && t in w.calls && w.calls[t].Filling? && Enabled(shard, w, Go(t))
    ensures Spared(Next(shard, w, Go(t)), w.calls[t].key)
  {
  }

  lemma {:induction false} PrefixIsRun(shard: string -> nat, rows: map<string, string>, run: seq<Step>, n: nat)
    requires IsRun(shard, rows, run) && n < |run|
    ensures IsRun(shard, rows, run[..n]) && Enabled(shard, After(shard, rows, run[..n]), run[n])
    ensures IsRun(shard, rows, run[..n + 1])
    ensures After(shard, rows, run[..n + 1]) == Next(shard, After(shard, rows, run[..n]), run[n])
    decreases |run| - n
  {
    hide Next, Enabled;
    if n + 1 < |run| {
      PrefixIsRun(shard, rows, run, n + 1);
    } else {
      assert run[..n + 1] == run;
    }
    assert run[..n + 1][..n] == run[..n];
  }

  /** However many Gets wait for a key: once one of them has filled the hot layer, and until the entry is
      dropped, none of the others asks the cold layer for it. */
  lemma {:induction false} OneFillServesAll(
    shard: string -> nat, rows: map<string, string>, run: seq<Step>, k: nat, n: nat, t: Tid, key: string)
    requires IsRun(shard, rows, run) && k < n <= |run| && IsRun(shard, rows, run[..k]) && IsRun(shard, rows, run[..n])
    requires run[k] == Go(t) && t in After(shard, rows, run[..k]).calls
    requires After(shard, rows, run[..k]).calls[t].Filling? && After(shard, rows, run[..k]).calls[t].key == key
    requires Drop(key) !in run[k..n]
    ensures Spared(After(shard, rows, run[..n]), key)
    decreases n
  {
    hide IsRun, After, Locked, Spared, Next;
    PrefixIsRun(shard, rows, run, n - 1);
    if n == k + 1 {
      EveryRunIsLocked(shard, rows, run[..k]);
      FillingSpares(shard, After(shard, rows, run[..k]), t);
    } else {
      assert run[n - 1] == run[k..n][n - 1 - k];
      assert run[k..n - 1] == run[k..n][..n - 1 - k];
      OneFillServesAll(shard, rows, run, k, n - 1, t, key);
      SparedStep(shard, After(shard, rows, run[..n - 1]), run[n - 1], key);
    }
  }

  // ---------- Hot hits ----------

  /** A Get whose key is in the hot layer when it looks is answered in that step: it takes no lock, waits for none
      and asks nothing of the cold layer. */
  lemma AHotHitEndsAtOnce(shard: string -> nat, rows: map<string, string>, run: seq<Step>, t: Tid)
    requires IsRun(shard, rows, run) && t in After(shard, rows, run).calls
    requires After(shard, rows, run).calls[t].Looking?
    requires After(shard, rows, run).calls[t].key in After(shard, rows, run).hot
    ensures Enabled(shard, After(shard, rows, run), Go(t)) && IsRun(shard, rows, run + [Go(t)])
    ensures var w, w' := After(shard, rows, run), After(shard, rows, run + [Go(t)]);
            && w'.calls == w.calls[t := Answered(w.calls[t].key, Some(w.hot[w.calls[t].key]))]
            && w'.locks == w.locks && w'.hot == w.hot && w'.cold == w.cold
  {
    assert (run + [Go(t)])[..|run|] == run;
  }

  // ---------- One value per key ----------

  // If m holds the key, it holds v for it.
  predicate Holds(m: map<string, string>, key: string, v: string) {
    key in m ==> m[key] == v
  }

  // A call handles no value of its key but v.
  predicate AgreesCall(c: Call, v: string) {
    match c
    case Filling(_, x) => x == v
    case PuttingHot(_, x) => x == v
    case PuttingCold(_, x) => x == v
    case PutDone(_, x) => x == v
    case Unlocking(_, a) => a == None || a == Some(v)
    case Answered(_, a) => a == None || a == Some(v)
    case _ => true
  }

  predicate Finished(c: Call) {
    c.Answered? || c.PutDone?
  }

  ghost predicate AtRest(w: World) {
    forall t :: t in w.calls ==> Finished(w.calls[t])
  }

  // The layers, and all calls for the key but the finished ones in `past`, agree on v.
  ghost predicate AgreesOn(w: World, key: string, v: string, past: map<Tid, Call>) {
    && Holds(w.hot, key, v) && Holds(w.cold, key, v)
    && (forall t :: t in w.calls && t !in past && w.calls[t].key == key ==> AgreesCall(w.calls[t], v))
    && (forall t :: t in past ==> t in w.calls && Finished(w.calls[t]))
  }

  // The Puts of key among the steps store v; nothing is said about other keys.
  ghost predicate PutsOnly(steps: seq<Step>, key: string, v: string) {
    forall i :: 0 <= i < |steps| && steps[i].Put? && steps[i].key == key ==> steps[i].value == v
  }

  lemma AgreesStep(shard: string -> nat, w: World, s: Step, key: string, v: string, past: map<Tid, Call>)
    requires AgreesOn(w, key, v, past) && Enabled(shard, w, s) && (s.Put? && s.key == key ==> s.value == v)
    ensures AgreesOn(Next(shard, w, s), key, v, past)
  {
    hide NextLocks;
  }

  lemma LastStep(shard: string -> nat, rows: map<string, string>, run: seq<Step>, s: Step)
    requires IsRun(shard, rows, run + [s])
    ensures IsRun(shard, rows, run) && Enabled(shard, After(shard, rows, run), s)
    ensures After(shard, rows, run + [s]) == Next(shard, After(shard, rows, run), s)
  {
    assert (run + [s])[..|run|] == run;
  }

  // From a state at rest on, one value per key is kept.
  lemma {:induction false} StaysRight(
    shard: string -> nat, rows: map<string, string>, run: seq<Step>, more: seq<Step>, key: string, v: string)
    requires IsRun(shard, rows, run) && AtRest(After(shard, rows, run)) && IsRun(shard, rows, run + more)
    requires Holds(After(shard, rows, run).hot, key, v) && Holds(After(shard, rows, run).cold, key, v)
    requires PutsOnly(more, key, v)
    ensures AgreesOn(After(shard, rows, run + more), key, v, After(shard, rows, run).calls)
    decreases |more|
  {
    hide IsRun, After, Next, Enabled;
    if more == [] {
      assert run + more == run;
    } else {
      hide AgreesOn, Holds;
      var front, s := more[..|more| - 1], more[|more| - 1];
      assert run + more == run + front + [s];
      assert forall i :: 0 <= i < |front| ==> front[i] == more[i];
      LastStep(shard, rows, run + front, s);
      StaysRight(shard, rows, run, front, key, v);
      AgreesStep(shard, After(shard, rows, run + front), s, key, v, After(shard, rows, run).calls);
    }
  }

  /** As long as a key is stored with one value, whatever is stored under other keys: in every interleaving
      both layers hold no other value for it and no Get of it answers another. */
  lemma NoWrongAnswer(shard: string -> nat, rows: map<string, string>, run: seq<Step>, key: string, v: string)
    requires IsRun(shard, rows, run) && Holds(rows, key, v) && PutsOnly(run, key, v)
    ensures AgreesOn(After(shard, rows, run), key, v, map[])
  {
    Begin(shard, rows);
    assert [] + run == run;
    StaysRight(shard, rows, [], run, key, v);
  }

  // A call for a key the cold layer holds has not been answered with a miss.
  ghost predicate Found(w: World, t: Tid, key: string) {
    && key in w.cold && t in w.calls && w.calls[t].key == key
    && (w.calls[t].Unlocking? || w.calls[t].Answered? ==> w.calls[t].answer.Some?)
  }

  lemma FoundStep(shard: string -> nat, w: World, s: Step, t: Tid, key: string)
    requires Found(w, t, key) && Enabled(shard, w, s)
    ensures Found(Next(shard, w, s), t, key)
  {
  }

  /** With cold eviction off, a Get that starts when the cold layer holds its key, as after a Put of the key
      has returned, never misses, whatever runs beside it. */
  lemma {:induction false} StoredKeysAreFound(
    shard: string -> nat, rows: map<string, string>, run: seq<Step>, k: nat, n: nat, t: Tid, key: string)
    requires IsRun(shard, rows, run) && k < n <= |run| && IsRun(shard, rows, run[..k]) && IsRun(shard, rows, run[..n])
    requires run[k] == Get(t, key) && key in After(shard, rows, run[..k]).cold
    ensures Found(After(shard, rows, run[..n]), t, key)
    decreases n
  {
    hide IsRun, After, Found;
    PrefixIsRun(shard, rows, run, n - 1);
    if n == k + 1 {
      StartsFound(shard, After(shard, rows, run[..k]), t, key);
    } else {
      StoredKeysAreFound(shard, rows, run, k, n - 1, t, key);
      FoundStep(shard, After(shard, rows, run[..n - 1]), run[n - 1], t, key);
    }
  }

  lemma StartsFound(shard: string -> nat, w: World, t: Tid, key: string)
    requires Enabled(shard, w, Get(t, key)) && key in w.cold
    ensures Found(Next(shard, w, Get(t, key)), t, key)
  {
  }

  lemma {:induction false} FinishedPutIsStored(shard: string -> nat, rows: map<string, string>, run: seq<Step>, t: Tid)
    requires IsRun(shard, rows, run) && t in After(shard, rows, run).calls && After(shard, rows, run).calls[t].PutDone?
    ensures After(shard, rows, run).calls[t].key in After(shard, rows, run).cold
  {
    if run != [] {
      var w, s := After(shard, rows, run[..|run| - 1]), run[|run| - 1];
      if t in w.calls && w.calls[t].PutDone? {
        FinishedPutIsStored(shard, rows, run[..|run| - 1], t);
      }
    }
  }

  // ---------- Every answer was true at some moment of the call ----------

  // Read as one map, the layers say a about the key.
  predicate Says(w: World, key: string, a: Option<string>) {
    match a
    case None => key !in w.hot && key !in w.cold
    case Some(v) => (key in w.hot && w.hot[key] == v) || (key in w.cold && w.cold[key] == v)
  }

  // After m steps the call t was under way.
  ghost predicate UnderWay(shard: string -> nat, rows: map<string, string>, run: seq<Step>, m: nat, t: Tid) {
    && m <= |run| && IsRun(shard, rows, run[..m])
    && t in After(shard, rows, run[..m]).calls && !Finished(After(shard, rows, run[..m]).calls[t])
  }

  lemma PrefixOfPrefix(run: seq<Step>, m: nat)
    requires run != [] && m < |run|
    ensures run[..|run| - 1][..m] == run[..m]
  {
  }

  lemma {:induction false} ColdGrows(shard: string -> nat, rows: map<string, string>, run: seq<Step>, m: nat,
      key: string)
    requires IsRun(shard, rows, run) && m <= |run| && IsRun(shard, rows, run[..m])
    requires key in After(shard, rows, run[..m]).cold
    ensures key in After(shard, rows, run).cold
  {
    if m == |run| {
      assert run[..m] == run;
    } else {
      var front := run[..|run| - 1];
      assert front[..m] == run[..m];
      ColdGrows(shard, rows, front, m, key);
    }
  }

  // A Get about to ask the cold layer has missed in the hot one while it was under way.
  lemma {:induction false} AskingHasMissed(shard: string -> nat, rows: map<string, string>, run: seq<Step>, t: Tid)
    returns (m: nat)
    requires IsRun(shard, rows, run) && t in After(shard, rows, run).calls && After(shard, rows, run).calls[t].Asking?
    ensures m < |run| && UnderWay(shard, rows, run, m, t)
    ensures After(shard, rows, run).calls[t].key !in After(shard, rows, run[..m]).hot
  {
    var front := run[..|run| - 1];
    var w := After(shard, rows, front);
    if t in w.calls && w.calls[t].Asking? {
      m := AskingHasMissed(shard, rows, front, t);
    } else {
      m := |front|;
    }
    PrefixOfPrefix(run, m);
    assert front[..|front|] == front;
  }

  // What a Get is going to answer, once it knows.
  function Knows(c: Call): Option<Option<string>> {
    match c
    case Filling(_, v) => Some(Some(v))
    case Unlocking(_, a) => Some(a)
    case Answered(_, a) => Some(a)
    case _ => None
  }

  // A Get learns its answer from what the layers say then, or it has missed twice.
  lemma Learns(shard: string -> nat, w: World, s: Step, t: Tid)
    requires Enabled(shard, w, s) && t in Next(shard, w, s).calls && Knows(Next(shard, w, s).calls[t]).Some?
    ensures t in w.calls && w.calls[t].key == Next(shard, w, s).calls[t].key
    ensures Knows(w.calls[t]).Some? ==> Knows(w.calls[t]) == Knows(Next(shard, w, s).calls[t])
    ensures Knows(w.calls[t]).None? ==>
              var c := Next(shard, w, s).calls[t];
              && !Finished(w.calls[t])
              && if w.calls[t].Asking? && c == Unlocking(c.key, None) then c.key !in w.cold
                 else Says(w, c.key, Knows(c).value)
  {
    hide NextLocks;
  }

  /** At some moment between the beginning and the end of a Get the layers, read as one map, said what it
      answers: so beside other calls a Get does what one look into one map does. */
  lemma {:induction false} EveryAnswerWasTrue(shard: string -> nat, rows: map<string, string>, run: seq<Step>, t: Tid)
    returns (m: nat)
    requires IsRun(shard, rows, run) && t in After(shard, rows, run).calls
        && Knows(After(shard, rows, run).calls[t]).Some?
    ensures m < |run| && UnderWay(shard, rows, run, m, t)
    ensures var c := After(shard, rows, run).calls[t]; Says(After(shard, rows, run[..m]), c.key, Knows(c).value)
  {
    hide Next, Enabled, Says;
    var front := run[..|run| - 1];
    var w, c := After(shard, rows, front), After(shard, rows, run).calls[t];
    Learns(shard, w, run[|run| - 1], t);
    if Knows(w.calls[t]).Some? {
      m := EveryAnswerWasTrue(shard, rows, front, t);
    } else if w.calls[t].Asking? && c == Unlocking(c.key, None) {
      m := AskingHasMissed(shard, rows, front, t);
      if c.key in After(shard, rows, front[..m]).cold {
        ColdGrows(shard, rows, front, m, c.key);
      }
      BothMissed(After(shard, rows, front[..m]), c.key);
    } else {
      m := |front|;
    }
    PrefixOfPrefix(run, m);
    assert front[..|front|] == front;
  }

  lemma BothMissed(w: World, key: string)
    requires key !in w.hot && key !in w.cold
    ensures Says(w, key, None)
  {
  }

  // ---------- When the layers agree at rest ----------

  // What the hot layer holds for the key, the cold one holds too.
  ghost predicate LayersAgree(w: World, key: string) {
    key in w.hot ==> key in w.cold && w.cold[key] == w.hot[key]
  }

  // A key in the hot layer, or on its way there, is in the cold one or about to be.
  ghost predicate Backed(w: World, key: string) {
    && (key in w.hot ==> key in w.cold || exists t :: t in w.calls && w.calls[t].PuttingCold? && w.calls[t].key == key)
    && (forall t :: t in w.calls && w.calls[t].Filling? && w.calls[t].key == key ==> key in w.cold)
  }

  lemma BackedStep(shard: string -> nat, w: World, s: Step, key: string)
    requires Backed(w, key) && Enabled(shard, w, s)
    ensures Backed(Next(shard, w, s), key)
  {
    hide NextLocks;
    var w' := Next(shard, w, s);
    if key in w'.hot && key !in w'.cold {
      if s.Go? && w.calls[s.tid].PuttingHot? && w.calls[s.tid].key == key {
        assert w'.calls[s.tid].PuttingCold?;
      } else {
        var t :| t in w.calls && w.calls[t].PuttingCold? && w.calls[t].key == key;
        assert t in w'.calls && w'.calls[t] == w.calls[t];
      }
    }
  }

  lemma {:induction false} EveryRunIsBacked(shard: string -> nat, rows: map<string, string>, run: seq<Step>,
      key: string)
    requires IsRun(shard, rows, run)
    ensures Backed(After(shard, rows, run), key)
  {
    if run != [] {
      hide Backed, Next, Enabled;
      EveryRunIsBacked(shard, rows, run[..|run| - 1], key);
      BackedStep(shard, After(shard, rows, run[..|run| - 1]), run[|run| - 1], key);
    }
  }

  lemma Append(shard: string -> nat, rows: map<string, string>, run: seq<Step>, s: Step) returns (longer: seq<Step>)
    requires IsRun(shard, rows, run) && Enabled(shard, After(shard, rows, run), s)
    ensures longer == run + [s] && IsRun(shard, rows, longer)
    ensures After(shard, rows, longer) == Next(shard, After(shard, rows, run), s)
  {
    hide Next, Enabled;
    longer := run + [s];
    assert longer[..|run|] == run;
  }

  lemma Begin(shard: string -> nat, rows: map<string, string>)
    ensures IsRun(shard, rows, []) && After(shard, rows, []) == Init(rows)
  {
  }

  lemma {:induction false} FreshTid(calls: map<Tid, Call>) returns (t: Tid)
    ensures forall u :: u in calls ==> u < t
    decreases |calls|
  {
    if calls == map[] {
      t := 0;
    } else {
      var u :| u in calls;
      var below := FreshTid(calls - {u});
      t := if u < below then below else u + 1;
      forall v | v in calls ensures v < t {
        assert v == u || v in calls - {u};
      }
    }
  }

  // At rest no shard is locked.
  lemma NoLocksAtRest(shard: string -> nat, w: World)
    requires Locked(shard, w) && AtRest(w)
    ensures w.locks == map[]
  {
    assert forall h :: h !in w.locks;
  }

  // A new Get that misses in the hot layer holds its lock.
  lemma MissesHot(shard: string -> nat, rows: map<string, string>, run: seq<Step>, key: string, t: Tid)
    returns (longer: seq<Step>)
    requires IsRun(shard, rows, run) && t !in After(shard, rows, run).calls
    requires key !in After(shard, rows, run).hot && After(shard, rows, run).locks == map[]
    ensures longer == run + [Get(t, key), Go(t), Go(t)] && IsRun(shard, rows, longer)
    ensures var w := After(shard, rows, run);
            After(shard, rows, longer) == w.(locks := map[shard(key) := t], calls := w.calls[t := Rechecking(key)])
  {
    hide IsRun, After;
    var w := After(shard, rows, run);
    longer := Append(shard, rows, run, Get(t, key));
    longer := Append(shard, rows, longer, Go(t));
    longer := Append(shard, rows, longer, Go(t));
    assert After(shard, rows, longer).calls == w.calls[t := Rechecking(key)];
  }

  // It misses again, and reads the cold layer.
  lemma ReadsCold(shard: string -> nat, rows: map<string, string>, run: seq<Step>, key: string, t: Tid)
    returns (longer: seq<Step>)
    requires IsRun(shard, rows, run) && t in After(shard, rows, run).calls
    requires After(shard, rows, run).calls[t] == Rechecking(key)
    requires key !in After(shard, rows, run).hot && key in After(shard, rows, run).cold
    ensures longer == run + [Go(t), Go(t)] && IsRun(shard, rows, longer)
    ensures var w := After(shard, rows, run);
            After(shard, rows, longer) == w.(calls := w.calls[t := Filling(key, w.cold[key])])
  {
    hide IsRun, After;
    var w := After(shard, rows, run);
    longer := Append(shard, rows, run, Go(t));
    longer := Append(shard, rows, longer, Go(t));
    assert After(shard, rows, longer).calls == w.calls[t := Filling(key, w.cold[key])];
  }

  // A whole Put.
  lemma PutsBoth(shard: string -> nat, rows: map<string, string>, run: seq<Step>, key: string, v: string, u: Tid)
    returns (longer: seq<Step>)
    requires IsRun(shard, rows, run) && u !in After(shard, rows, run).calls
    ensures longer == run + [Put(u, key, v), Go(u), Go(u)] && IsRun(shard, rows, longer)
    ensures var w := After(shard, rows, run);
            After(shard, rows, longer)
            == World(w.hot[key := v], w.cold[key := v], w.locks, w.calls[u := PutDone(key, v)])
  {
    hide IsRun, After;
    var w := After(shard, rows, run);
    longer := Append(shard, rows, run, Put(u, key, v));
    longer := Append(shard, rows, longer, Go(u));
    longer := Append(shard, rows, longer, Go(u));
    assert After(shard, rows, longer).calls == w.calls[u := PutDone(key, v)];
  }

  // The Get fills the hot layer with what it has read, and returns.
  lemma FillsHot(shard: string -> nat, rows: map<string, string>, run: seq<Step>, key: string, v: string, t: Tid)
    returns (longer: seq<Step>)
    requires IsRun(shard, rows, run) && t in After(shard, rows, run).calls
    requires After(shard, rows, run).calls[t] == Filling(key, v)
    ensures longer == run + [Go(t), Go(t)] && IsRun(shard, rows, longer)
    ensures var w := After(shard, rows, run);
            After(shard, rows, longer)
            == World(w.hot[key := v], w.cold, w.locks - {shard(key)}, w.calls[t := Answered(key, Some(v))])
  {
    hide IsRun, After;
    var w := After(shard, rows, run);
    longer := Append(shard, rows, run, Go(t));
    longer := Append(shard, rows, longer, Go(t));
    assert After(shard, rows, longer).calls == w.calls[t := Answered(key, Some(v))];
  }

  /** From every state at rest whose cold layer holds the key, one Get and one Put of another value can end
      at rest with the old value in the hot layer and the new one in the cold layer. */
  lemma AnotherValueCanGoStale(shard: string -> nat, rows: map<string, string>, run: seq<Step>, key: string, v: string)
    returns (more: seq<Step>)
    requires IsRun(shard, rows, run) && AtRest(After(shard, rows, run)) && key in After(shard, rows, run).cold
    ensures IsRun(shard, rows, run + more) && PutsOnly(more, key, v) && AtRest(After(shard, rows, run + more))
    ensures var w, w' := After(shard, rows, run), After(shard, rows, run + more);
            key in w'.hot && w'.hot[key] == w.cold[key] && key in w'.cold && w'.cold[key] == v
  {
    hide IsRun, After, Next, Enabled, Locked;
    var w := After(shard, rows, run);
    EveryRunIsLocked(shard, rows, run);
    NoLocksAtRest(shard, w);
    assert Enabled(shard, w, Drop(key)) by { DropAnytime(shard, w, key); }
    var t := FreshTid(w.calls);
    var u := t + 1;
    var r := Append(shard, rows, run, Drop(key));
    DropOnlyDrops(shard, w, key);
    r := MissesHot(shard, rows, r, key, t);
    r := ReadsCold(shard, rows, r, key, t);
    r := PutsBoth(shard, rows, r, key, v, u);
    r := FillsHot(shard, rows, r, key, w.cold[key], t);
    more := [Drop(key), Get(t, key), Go(t), Go(t), Go(t), Go(t), Put(u, key, v), Go(u), Go(u), Go(t), Go(t)];
    assert r == run + more;
  }

  lemma DropAnytime(shard: string -> nat, w: World, key: string)
    ensures Enabled(shard, w, Drop(key))
  {
  }

  lemma DropOnlyDrops(shard: string -> nat, w: World, key: string)
    ensures Next(shard, w, Drop(key)) == w.(hot := w.hot - {key})
  {
  }

  /** The exact condition, which a caller can check beforehand. From every run at rest whose hot entry for the
      key agrees with the cold one: however calls go on interleaved, as long as they store only v under the
      key, the layers agree on it whenever they are at rest again, if and only if the cold layer does not hold
      the key with another value. */
  lemma LayersStayInStepIff(shard: string -> nat, rows: map<string, string>, run: seq<Step>, key: string, v: string)
    requires IsRun(shard, rows, run) && AtRest(After(shard, rows, run)) && LayersAgree(After(shard, rows, run), key)
    ensures (forall more: seq<Step> ::
              IsRun(shard, rows, run + more) && PutsOnly(more, key, v) && AtRest(After(shard, rows, run + more))
              ==> LayersAgree(After(shard, rows, run + more), key))
            <==> Holds(After(shard, rows, run).cold, key, v)
  {
    hide IsRun, After, PutsOnly, AtRest;
    var w := After(shard, rows, run);
    if Holds(w.cold, key, v) {
      forall more: seq<Step>
        | IsRun(shard, rows, run + more) && PutsOnly(more, key, v) && AtRest(After(shard, rows, run + more))
        ensures LayersAgree(After(shard, rows, run + more), key)
      {
        StaysRight(shard, rows, run, more, key, v);
        EveryRunIsBacked(shard, rows, run + more, key);
        BackedAtRest(After(shard, rows, run + more), key);
      }
    } else {
      var more := AnotherValueCanGoStale(shard, rows, run, key, v);
    }
  }

  lemma BackedAtRest(w: World, key: string)
    requires Backed(w, key) && AtRest(w)
    ensures key in w.hot ==> key in w.cold
  {
  }

  /** So a table that holds a key, and a Put of another value, are enough: when all calls have returned, later
      Gets answer the old value. */
  lemma TwoValuesCanGoStale(shard: string -> nat, key: string, older: string, newer: string) returns (run: seq<Step>)
    ensures IsRun(shard, map[key := older], run) && PutsOnly(run, key, newer)
    ensures var w := After(shard, map[key := older], run);
            && AtRest(w) && key in w.hot && w.hot[key] == older && key in w.cold && w.cold[key] == newer
  {
    Begin(shard, map[key := older]);
    run := AnotherValueCanGoStale(shard, map[key := older], [], key, newer);
    assert [] + run == run;
  }

  // ---------- Progress ----------

  // How many steps a call is from its end, at most.
  function Rank(c: Call): nat {
    match c
    case Looking(_) => 6
    case Locking(_) => 5
    case Rechecking(_) => 4
    case Asking(_) => 3
    case Filling(_, _) => 2
    case Unlocking(_, _) => 1
    case PuttingHot(_, _) => 2
    case PuttingCold(_, _) => 1
    case _ => 0
  }

  lemma GoLowers(shard: string -> nat, w: World, t: Tid)
    requires Enabled(shard, w, Go(t))
    ensures Rank(Goes(w, w.calls[t])) < Rank(w.calls[t])
    ensures Total(Rank, Next(shard, w, Go(t)).calls) < Total(Rank, w.calls)
  {
    TotalUpdate(Rank, w.calls, t, Goes(w, w.calls[t]));
  }

  // A call that is not at its end can go on, or waits for a lock whose holder can.
  lemma SomeoneCanGo(shard: string -> nat, w: World) returns (t: Tid)
    requires Locked(shard, w) && !AtRest(w)
    ensures Enabled(shard, w, Go(t))
  {
    t :| t in w.calls && !Finished(w.calls[t]);
    if w.calls[t].Locking? && shard(w.calls[t].key) in w.locks {
      t := w.locks[shard(w.calls[t].key)];
    }
  }

  lemma OneGoesOn(shard: string -> nat, rows: map<string, string>, run: seq<Step>) returns (t: Tid)
    requires IsRun(shard, rows, run) && !AtRest(After(shard, rows, run))
    ensures IsRun(shard, rows, run + [Go(t)])
    ensures Total(Rank, After(shard, rows, run + [Go(t)]).calls) < Total(Rank, After(shard, rows, run).calls)
  {
    hide IsRun, After, Next, Enabled, AtRest, Locked, Total;
    EveryRunIsLocked(shard, rows, run);
    t := SomeoneCanGo(shard, After(shard, rows, run));
    var longer := Append(shard, rows, run, Go(t));
    GoLowers(shard, After(shard, rows, run), t);
  }

  /** No deadlock: every run can go on, with no new call, until all calls have returned. */
  lemma {:induction false} AllCallsCanReturn(shard: string -> nat, rows: map<string, string>, run: seq<Step>)
    returns (more: seq<Step>)
    requires IsRun(shard, rows, run)
    ensures IsRun(shard, rows, run + more) && AtRest(After(shard, rows, run + more))
    ensures forall s :: s in more ==> s.Go?
    decreases Total(Rank, After(shard, rows, run).calls)
  {
    hide *;
    if AtRest(After(shard, rows, run)) {
      more := [];
      assert run + more == run;
    } else {
      var t := OneGoesOn(shard, rows, run);
      var rest := AllCallsCanReturn(shard, rows, run + [Go(t)]);
      more := [Go(t)] + rest;
      assert run + more == run + [Go(t)] + rest;
    }
  }
}
