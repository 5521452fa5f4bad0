/**
  The persistent cache table with its separate row counter and its guarded batch eviction.
  Each SQL statement and each atomic operation on the counter or the flag is one step.
*/
module Sqlite {
  import opened Basics

  datatype Row = Row(description: string, createdAt: int, lastAccessed: int)

  type Table = map<string, Row>

  // maxEntries <= 0 means no cap, ttl <= 0 means no expiry.
  datatype Config = Config(maxEntries: int, ttl: int)

  // ---------- Statements ----------

  function InsertOrIgnore(t: Table, key: string, value: string, now: int): Table {
    if key in t then t else t[key := Row(value, now, now)]
  }

  function Update(t: Table, key: string, value: string, now: int): Table {
    if key in t then t[key := Row(value, now, now)] else t
  }

  function TouchAccess(t: Table, key: string, now: int): Table {
    if key in t then t[key := t[key].(lastAccessed := now)] else t
  }

  // The rows deleted by "the del least recently accessed": which ones, among ties, is up to the engine.
  predicate Oldest(t: Table, del: int, victims: set<string>) {
    && victims <= t.Keys
    && |victims| == Min(Max(del, 0), |t|)
    && forall v, w :: v in victims && w in t && w !in victims ==> t[v].lastAccessed <= t[w].lastAccessed
  }

  function Expired(t: Table, cutoff: int): (gone: set<string>)
    ensures gone <= t.Keys
  {
    set k | k in t && t[k].createdAt < cutoff
  }

  lemma DeleteSize(t: Table, victims: set<string>)
    requires victims <= t.Keys
    ensures |t - victims| == |t| - |victims|
  {
    assert (t - victims).Keys == t.Keys - victims;
    assert |t.Keys - victims| == |t.Keys| - |victims|;
  }

  // What the eviction trims to, and how many rows it asks to delete at counter value n.
  function Floor(cfg: Config): int {
    cfg.maxEntries * 9 / 10
  }

  predicate OverFull(cfg: Config, n: int) {
    cfg.maxEntries > 0 && n > cfg.maxEntries
  }

  function Excess(cfg: Config, n: int): int {
    var del := n - Floor(cfg);
    if del < 1 then 1 else del
  }

  // ---------- Concurrent Puts ----------

  type Tid = nat

  // The next thing a Put has to do.
  datatype Stage =
    | Inserting(key: string, value: string, now: int)
    | Updating(key: string, value: string, now: int)
    | Counting
    | Claiming
    | Loading
    | Deleting(n: int)
    | Subtracting(d: nat)
    | Expiring
    | SubtractingExpired(d: nat)
    | Releasing
    | Returned

  datatype World = World(rows: Table, count: int, evicting: bool, puts: map<Tid, Stage>)

  datatype Step =
    | Begin(tid: Tid, key: string, value: string, now: int)
    | Advance(tid: Tid, victims: set<string>, now: int)  // with the rows a count eviction deletes, and the clock
    | Touch(key: string, at: int)                        // a Get refreshing the access time

  predicate InSection(p: Stage) {
    p.Loading? || p.Deleting? || p.Subtracting? || p.Expiring? || p.SubtractingExpired? || p.Releasing?
  }

  ghost predicate Enabled(cfg: Config, w: World, s: Step) {
    match s
    case Begin(tid, _, _, _) => tid !in w.puts
    case Advance(tid, victims, _) =>
      && tid in w.puts && !w.puts[tid].Returned?
      && (w.puts[tid].Deleting? ==> Oldest(w.rows, Excess(cfg, w.puts[tid].n), victims))
    case Touch(_, _) => true
  }

  function AfterCountEviction(cfg: Config): Stage {
    if cfg.ttl > 0 then Expiring else Releasing
  }

  // What a Put shares with the others, and where it is itself.
  datatype Local = Local(rows: Table, count: int, evicting: bool, stage: Stage)

  // The next action of a Put.
  function Act(cfg: Config, l: Local, victims: set<string>, now: int): Local {
    match l.stage
    case Inserting(key, value, t) =>
      l.(rows := InsertOrIgnore(l.rows, key, value, t),
          stage := if key in l.rows then Updating(key, value, t) else Counting)
    case Updating(key, value, t) => l.(rows := Update(l.rows, key, value, t), stage := Claiming)
    case Counting => l.(count := l.count + 1, stage := Claiming)
    case Claiming => if l.evicting then l.(stage := Returned) else l.(evicting := true, stage := Loading)
    case Loading => l.(stage := if OverFull(cfg, l.count) then Deleting(l.count) else AfterCountEviction(cfg))
    case Deleting(n) => l.(rows := l.rows - victims, stage := Subtracting(|victims|))
    case Subtracting(d) => l.(count := l.count - d, stage := AfterCountEviction(cfg))
    case Expiring =>
      var gone := Expired(l.rows, now - cfg.ttl);
      l.(rows := l.rows - gone, stage := SubtractingExpired(|gone|))
    case SubtractingExpired(d) => l.(count := l.count - d, stage := Releasing)
    case Releasing => l.(evicting := false, stage := Returned)
    case Returned => l
  }

  function Next(cfg: Config, w: World, s: Step): World
    requires s.Advance? ==> s.tid in w.puts
  {
    match s
    case Begin(tid, key, value, now) => w.(puts := w.puts[tid := Inserting(key, value, now)])
    case Touch(key, at) => w.(rows := TouchAccess(w.rows, key, at))
    case Advance(tid, victims, now) =>
      var l := Act(cfg, Local(w.rows, w.count, w.evicting, w.puts[tid]), victims, now);
      World(l.rows, l.count, l.evicting, w.puts[tid := l.stage])
  }

  // A freshly opened table: the counter starts at SELECT COUNT(*).
  function Opened(rows: Table): World {
    World(rows, |rows|, false, map[])
  }

  ghost predicate IsRun(cfg: Config, rows: Table, run: seq<Step>)
    decreases run, 0
  {
    run == [] ||
    (IsRun(cfg, rows, run[..|run| - 1]) && Enabled(cfg, After(cfg, rows, run[..|run| - 1]), run[|run| - 1]))
  }

  ghost function After(cfg: Config, rows: Table, run: seq<Step>): World
    requires IsRun(cfg, rows, run)
    decreases run, 1
  {
    if run == [] then Opened(rows) else Next(cfg, After(cfg, rows, run[..|run| - 1]), run[|run| - 1])
  }

  // ---------- What the running Puts owe the counter ----------

  function Uncounted(p: Stage): nat {
    if p.Counting? then 1 else 0
  }

  function Unsubtracted(p: Stage): nat {
    if p.Subtracting? || p.SubtractingExpired? then p.d else 0
  }

  // ---------- The invariant ----------

  // rows = counter + inserts not yet counted - deletes not yet subtracted
  ghost predicate Conserved(w: World) {
    |w.rows| == w.count + Total(Uncounted, w.puts) - Total(Unsubtracted, w.puts)
  }

  // The flag is set exactly while one Put is inside the eviction section.
  ghost predicate Exclusive(w: World) {
    && (forall t, u :: t in w.puts && u in w.puts && InSection(w.puts[t]) && InSection(w.puts[u]) ==> t == u)
    && (w.evicting <==> exists t :: t in w.puts && InSection(w.puts[t]))
  }

  // An evictor that is about to delete loaded a counter value the table has not fallen below.
  ghost predicate EnoughRows(cfg: Config, w: World) {
    forall t :: t in w.puts && w.puts[t].Deleting? ==> OverFull(cfg, w.puts[t].n) && |w.rows| >= w.puts[t].n
  }

  ghost predicate Inv(cfg: Config, w: World) {
    Conserved(w) && Exclusive(w) && EnoughRows(cfg, w)
  }

  lemma TouchKeepsSize(t: Table, key: string, at: int)
    ensures |TouchAccess(t, key, at)| == |t|
  {
    assert TouchAccess(t, key, at).Keys == t.Keys;
  }

  lemma InsertSize(t: Table, key: string, value: string, now: int)
    ensures |InsertOrIgnore(t, key, value, now)| == |t| + if key in t then 0 else 1
    ensures |Update(t, key, value, now)| == |t|
  {
    if key in t {
      assert Update(t, key, value, now).Keys == t.Keys;
    } else {
      assert InsertOrIgnore(t, key, value, now).Keys == t.Keys + {key};
    }
  }

  // How an action changes the number of rows.
  lemma ActRows(cfg: Config, l: Local, victims: set<string>, now: int)
    requires l.stage.Deleting? ==> victims <= l.rows.Keys
    ensures |Act(cfg, l, victims, now).rows| == |l.rows| +
              match l.stage
              case Inserting(key, _, _) => if key in l.rows then 0 else 1
              case Deleting(_) => -|victims|
              case Expiring => -|Expired(l.rows, now - cfg.ttl)|
              case _ => 0
  {
    hide InsertOrIgnore, Update, Expired;
    match l.stage
    case Inserting(key, value, t) => InsertSize(l.rows, key, value, t);
    case Updating(key, value, t) => InsertSize(l.rows, key, value, t);
    case Deleting(_) => DeleteSize(l.rows, victims);
    case Expiring => DeleteSize(l.rows, Expired(l.rows, now - cfg.ttl));
    case _ =>
  }

  // How a step changes the number of rows.
  lemma RowsStep(cfg: Config, w: World, s: Step)
    requires Enabled(cfg, w, s)
    ensures s.Begin? || s.Touch? ==> |Next(cfg, w, s).rows| == |w.rows|
    ensures s.Advance? ==>
              |Next(cfg, w, s).rows| == |w.rows| +
                match w.puts[s.tid]
                case Inserting(key, _, _) => if key in w.rows then 0 else 1
                case Deleting(_) => -|s.victims|
                case Expiring => -|Expired(w.rows, s.now - cfg.ttl)|
                case _ => 0
  {
    hide Act, Expired, TouchAccess;
    match s
    case Begin(_, _, _, _) =>
    case Touch(key, at) => TouchKeepsSize(w.rows, key, at);
    case Advance(tid, victims, now) =>
      ActRows(cfg, Local(w.rows, w.count, w.evicting, w.puts[tid]), victims, now);
  }

  // How a step of a Put changes the counter and what that Put still owes it.
  lemma StageDelta(cfg: Config, w: World, s: Step)
    requires Enabled(cfg, w, s) && !s.Touch?
    ensures var p := Next(cfg, w, s).puts[s.tid];
            if s.Begin? then Uncounted(p) == Unsubtracted(p) == 0 && Next(cfg, w, s).count == w.count
            else
              var q := w.puts[s.tid];
              && Next(cfg, w, s).count == w.count + Uncounted(q) - Unsubtracted(q)
              && Uncounted(p) == (if q.Inserting? && q.key !in w.rows then 1 else 0)
              && Unsubtracted(p) == if q.Deleting? then |s.victims|
                                    else if q.Expiring? then |Expired(w.rows, s.now - cfg.ttl)| else 0
  {
    hide TouchAccess, InsertOrIgnore, Update, Expired, Oldest, Excess, OverFull, Floor;
  }

  // A step concerns one Put at most.
  lemma OnePutMoves(cfg: Config, w: World, s: Step)
    requires Enabled(cfg, w, s)
    ensures var w' := Next(cfg, w, s);
            if s.Touch? then w'.puts == w.puts && w'.count == w.count && w'.evicting == w.evicting
            else s.tid in w'.puts && w'.puts == w.puts[s.tid := w'.puts[s.tid]]
  {
  }

  lemma ConservedStep(cfg: Config, w: World, s: Step)
    requires Conserved(w) && Enabled(cfg, w, s)
    ensures Conserved(Next(cfg, w, s))
  {
    hide Next, Total, Oldest, Excess, Expired;
    RowsStep(cfg, w, s);
    OnePutMoves(cfg, w, s);
    if !s.Touch? {
      var p := Next(cfg, w, s).puts[s.tid];
      TotalUpdate(Uncounted, w.puts, s.tid, p);
      TotalUpdate(Unsubtracted, w.puts, s.tid, p);
      StageDelta(cfg, w, s);
    }
  }

  lemma ExclusiveStep(cfg: Config, w: World, s: Step)
    requires Exclusive(w) && Enabled(cfg, w, s)
    ensures Exclusive(Next(cfg, w, s))
  {
    hide TouchAccess, InsertOrIgnore, Update, Expired, Oldest, Excess, OverFull, Floor;
    var w' := Next(cfg, w, s);
    if s.Advance? && InSection(w'.puts[s.tid]) {
      assert w'.evicting;
    } else if w'.evicting {
      var t :| t in w.puts && InSection(w.puts[t]);
      assert t in w'.puts && InSection(w'.puts[t]);
    }
  }

  // An evictor loads a counter value the table holds at least as many rows as.
  lemma LoadedIsBacked(w: World, tid: Tid)
    requires Conserved(w) && Exclusive(w) && tid in w.puts && w.puts[tid].Loading?
    ensures |w.rows| >= w.count
  {
    TotalZero(Unsubtracted, w.puts);
  }

  lemma EnoughRowsStep(cfg: Config, w: World, s: Step)
    requires Inv(cfg, w) && Enabled(cfg, w, s)
    ensures EnoughRows(cfg, Next(cfg, w, s))
  {
    hide TouchAccess, InsertOrIgnore, Update, Expired, Oldest, Excess, OverFull, Floor, Conserved, Total;
    var w' := Next(cfg, w, s);
    RowsStep(cfg, w, s);
    OnePutMoves(cfg, w, s);
    if s.Advance? && w.puts[s.tid].Loading? {
      LoadedIsBacked(w, s.tid);
    }
    forall t | t in w'.puts && w'.puts[t].Deleting?
      ensures OverFull(cfg, w'.puts[t].n) && |w'.rows| >= w'.puts[t].n
    {
      if s.Advance? && s.tid != t {
        assert !InSection(w.puts[s.tid]);
      }
    }
  }

  lemma {:induction false} EveryRunKeepsInv(cfg: Config, rows: Table, run: seq<Step>)
    requires IsRun(cfg, rows, run)
    ensures Inv(cfg, After(cfg, rows, run))
  {
    if run != [] {
      var w := After(cfg, rows, run[..|run| - 1]);
      EveryRunKeepsInv(cfg, rows, run[..|run| - 1]);
      ConservedStep(cfg, w, run[|run| - 1]);
      ExclusiveStep(cfg, w, run[|run| - 1]);
      EnoughRowsStep(cfg, w, run[|run| - 1]);
    }
  }

  /** In every interleaving: rows = counter + inserts not yet counted - deletes not yet subtracted. */
  lemma RowsAreAccountedFor(cfg: Config, rows: Table, run: seq<Step>)
    requires IsRun(cfg, rows, run)
    ensures var w := After(cfg, rows, run);
            |w.rows| == w.count + Total(Uncounted, w.puts) - Total(Unsubtracted, w.puts)
  {
    EveryRunKeepsInv(cfg, rows, run);
  }

  ghost predicate Quiet(w: World) {
    forall t :: t in w.puts ==> w.puts[t].Returned?
  }

  /** When no Put is running, the counter is the number of rows and the flag is down. */
  lemma QuietCounterIsExact(cfg: Config, rows: Table, run: seq<Step>)
    requires IsRun(cfg, rows, run) && Quiet(After(cfg, rows, run))
    ensures After(cfg, rows, run).count == |After(cfg, rows, run).rows| && !After(cfg, rows, run).evicting
  {
    EveryRunKeepsInv(cfg, rows, run);
    TotalZero(Uncounted, After(cfg, rows, run).puts);
    TotalZero(Unsubtracted, After(cfg, rows, run).puts);
  }

  // The rows deleted are as many as are over the floor.
  lemma EvictionAsks(cfg: Config, w: World, s: Step)
    requires EnoughRows(cfg, w) && Enabled(cfg, w, s) && s.Advance? && w.puts[s.tid].Deleting?
    ensures |s.victims| == w.puts[s.tid].n - Floor(cfg) >= 1
  {
  }

  /** In every interleaving a count eviction leaves at least nine tenths of the cap, rounded down,
      and deletes exactly as many rows as it asked for. */
  lemma EvictionLeavesTheFloor(cfg: Config, rows: Table, run: seq<Step>, tid: Tid, victims: set<string>, now: int)
    requires IsRun(cfg, rows, run + [Advance(tid, victims, now)])
    requires IsRun(cfg, rows, run) && tid in After(cfg, rows, run).puts && After(cfg, rows, run).puts[tid].Deleting?
    ensures var n := After(cfg, rows, run).puts[tid].n;
            && |victims| == n - Floor(cfg) >= 1
            && |After(cfg, rows, run + [Advance(tid, victims, now)]).rows| >= Floor(cfg)
            && 10 * Floor(cfg) <= 9 * cfg.maxEntries < 10 * (Floor(cfg) + 1)
  {
    var s := Advance(tid, victims, now);
    assert (run + [s])[..|run|] == run;
    EveryRunKeepsInv(cfg, rows, run);
    EvictionAsks(cfg, After(cfg, rows, run), s);
    RowsStep(cfg, After(cfg, rows, run), s);
  }

  // ---------- How far the table can overshoot ----------

  // A Put that has counted its row and not yet tried for the flag, or won it and not yet read the counter.
  function Unresolved(p: Stage): nat {
    if p.Claiming? || p.Loading? then 1 else 0
  }

  // What an evictor is going to subtract for the rows over the floor.
  function Owed(cfg: Config): Stage -> nat {
    (p: Stage) =>
      match p
      case Deleting(n) => if n >= Floor(cfg) then n - Floor(cfg) else 0
      case Subtracting(d) => d
      case _ => 0
  }

  // The step reads the counter for an eviction, or is a Put that finds the flag up.
  predicate Reads(w: World, s: Step) {
    s.Advance? && s.tid in w.puts && w.puts[s.tid].Loading?
  }

  predicate Loses(w: World, s: Step) {
    s.Advance? && s.tid in w.puts && w.puts[s.tid].Claiming? && w.evicting
  }

  // The Puts that found the flag up since the counter was last read for an eviction.
  ghost function Losers(cfg: Config, rows: Table, run: seq<Step>): nat
    requires IsRun(cfg, rows, run)
  {
    if run == [] then 0
    else
      var w, s := After(cfg, rows, run[..|run| - 1]), run[|run| - 1];
      if Reads(w, s) then 0 else Losers(cfg, rows, run[..|run| - 1]) + if Loses(w, s) then 1 else 0
  }

  // Before any eviction has read the counter, what was there to begin with counts too.
  ghost function Base(cfg: Config, rows: Table, run: seq<Step>): int
    requires IsRun(cfg, rows, run)
  {
    if run == [] then Max(cfg.maxEntries, |rows|)
    else if Reads(After(cfg, rows, run[..|run| - 1]), run[|run| - 1]) then cfg.maxEntries
    else Base(cfg, rows, run[..|run| - 1])
  }

  // Rows nobody is going to subtract are within the base, or unresolved, or left by a loser.
  ghost predicate Bounded(cfg: Config, w: World, base: int, losers: nat) {
    w.count - Total(Owed(cfg), w.puts) <= base + Total(Unresolved, w.puts) + losers
  }

  lemma NothingOwed(cfg: Config, w: World, tid: Tid)
    requires Exclusive(w) && tid in w.puts && w.puts[tid].Loading?
    ensures Total(Owed(cfg), w.puts) == 0
  {
    TotalZero(Owed(cfg), w.puts);
  }

  // Reading the counter settles everything that came before.
  lemma ReadSettles(cfg: Config, w: World, s: Step)
    requires Inv(cfg, w) && cfg.maxEntries > 0 && Enabled(cfg, w, s) && Reads(w, s)
    ensures Bounded(cfg, Next(cfg, w, s), cfg.maxEntries, 0)
  {
    NothingOwed(cfg, w, s.tid);
    hide Total, Exclusive, Conserved, EnoughRows, Expired;
    TotalUpdate(Owed(cfg), w.puts, s.tid, Next(cfg, w, s).puts[s.tid]);
  }

  // Otherwise counter, debts and unresolved Puts move together.
  lemma OtherStepsBalance(cfg: Config, w: World, s: Step)
    requires Inv(cfg, w) && Enabled(cfg, w, s) && !s.Touch? && !Reads(w, s)
    ensures var w' := Next(cfg, w, s);
            && s.tid in w'.puts
            && var q, p := if s.tid in w.puts then w.puts[s.tid] else Returned, w'.puts[s.tid];
               w'.count - w.count <= Owed(cfg)(p) - Owed(cfg)(q) + Unresolved(p) - Unresolved(q)
                                     + if Loses(w, s) then 1 else 0
  {
    hide InsertOrIgnore, Update, Expired, Floor, Conserved, Exclusive, Oldest, Excess;
    if s.Advance? && w.puts[s.tid].Deleting? {
      EvictionAsks(cfg, w, s);
    }
  }

  lemma BoundedStep(cfg: Config, w: World, s: Step, base: int, losers: nat)
    requires Inv(cfg, w) && cfg.maxEntries > 0 && Enabled(cfg, w, s) && Bounded(cfg, w, base, losers)
    ensures if Reads(w, s) then Bounded(cfg, Next(cfg, w, s), cfg.maxEntries, 0)
            else Bounded(cfg, Next(cfg, w, s), base, losers + if Loses(w, s) then 1 else 0)
  {
    hide Inv, Next, Owed, Unresolved, Total;
    OnePutMoves(cfg, w, s);
    if Reads(w, s) {
      ReadSettles(cfg, w, s);
    } else if !s.Touch? {
      var p := Next(cfg, w, s).puts[s.tid];
      OtherStepsBalance(cfg, w, s);
      TotalUpdate(Owed(cfg), w.puts, s.tid, p);
      TotalUpdate(Unresolved, w.puts, s.tid, p);
      IdleOwesNothing(cfg);
    }
  }

  lemma IdleOwesNothing(cfg: Config)
    ensures Owed(cfg)(Returned) == 0 && Unresolved(Returned) == 0
  {
  }

  lemma {:induction false} EveryRunIsBounded(cfg: Config, rows: Table, run: seq<Step>)
    requires IsRun(cfg, rows, run) && cfg.maxEntries > 0
    ensures Bounded(cfg, After(cfg, rows, run), Base(cfg, rows, run), Losers(cfg, rows, run))
  {
    if run != [] {
      hide Bounded, Next, Enabled, Inv;
      var front := run[..|run| - 1];
      EveryRunIsBounded(cfg, rows, front);
      EveryRunKeepsInv(cfg, rows, front);
      BoundedStep(cfg, After(cfg, rows, front), run[|run| - 1], Base(cfg, rows, front), Losers(cfg, rows, front));
    }
  }

  /** The overshoot is bounded: when no Put is running, the table exceeds the cap by no more rows than there
      were Puts that found the flag up since the last eviction read the counter. */
  lemma OvershootIsBounded(cfg: Config, rows: Table, run: seq<Step>)
    requires IsRun(cfg, rows, run) && cfg.maxEntries > 0 && Quiet(After(cfg, rows, run))
    ensures |After(cfg, rows, run).rows| <= Base(cfg, rows, run) + Losers(cfg, rows, run)
    ensures |rows| <= cfg.maxEntries ==> |After(cfg, rows, run).rows| <= cfg.maxEntries + Losers(cfg, rows, run)
  {
    hide IsRun, After, Owed, Unresolved, Quiet, Base, Losers;
    var w := After(cfg, rows, run);
    EveryRunIsBounded(cfg, rows, run);
    QuietCounterIsExact(cfg, rows, run);
    NothingUnresolved(cfg, w);
    BaseIsTheCap(cfg, rows, run);
  }

  lemma NothingUnresolved(cfg: Config, w: World)
    requires Quiet(w)
    ensures Total(Owed(cfg), w.puts) == 0 && Total(Unresolved, w.puts) == 0
  {
    TotalZero(Owed(cfg), w.puts);
    TotalZero(Unresolved, w.puts);
  }

  lemma {:induction false} BaseIsTheCap(cfg: Config, rows: Table, run: seq<Step>)
    requires IsRun(cfg, rows, run)
    ensures |rows| <= cfg.maxEntries ==> Base(cfg, rows, run) == cfg.maxEntries
  {
    if run != [] {
      BaseIsTheCap(cfg, rows, run[..|run| - 1]);
    }
  }

  // ---------- Puts one at a time ----------

  // The table after a lone Put's INSERT or UPDATE.
  function Written(t: Table, key: string, value: string, now: int): Table {
    t[key := Row(value, now, now)]
  }

  // What one lone Put from table t does: write, trim if over the cap, drop expired rows.
  ghost predicate LonePut(cfg: Config, t: Table, key: string, value: string, now: int,
                          victims: set<string>, later: int, t': Table) {
    var full := Written(t, key, value, now);
    var kept := full - victims;
    && (if OverFull(cfg, |full|) then Oldest(full, Excess(cfg, |full|), victims) else victims == {})
    && t' == Unexpired(cfg, kept, later)
  }

  lemma WrittenSize(t: Table, key: string, value: string, now: int)
    ensures |Written(t, key, value, now)| == |t| + if key in t then 0 else 1
  {
    InsertSize(t, key, value, now);
    assert Written(t, key, value, now) == if key in t then Update(t, key, value, now)
        else InsertOrIgnore(t, key, value, now);
  }

  /** From any quiet table, however over-full, one lone Put ends within the cap. */
  lemma LonePutRestoresCap(cfg: Config, t: Table, key: string, value: string, now: int,
                           victims: set<string>, later: int, t': Table)
    requires LonePut(cfg, t, key, value, now, victims, later, t') && cfg.maxEntries > 0
    ensures |t'| <= cfg.maxEntries
  {
    var full := Written(t, key, value, now);
    var kept := full - victims;
    DeleteSize(full, victims);
    assert |kept| <= cfg.maxEntries;
    if cfg.ttl > 0 {
      DeleteSize(kept, Expired(kept, later - cfg.ttl));
    }
  }

  /** A lone Put that evicts leaves exactly the floor, before expiry: no row at all if and only if the cap
      is 1, and then the row just written goes too. */
  lemma EvictingPutLeavesTheFloor(cfg: Config, t: Table, key: string, value: string, now: int,
                                  victims: set<string>, later: int, t': Table)
    requires LonePut(cfg, t, key, value, now, victims, later, t') && OverFull(cfg, |Written(t, key, value, now)|)
    ensures var kept := Written(t, key, value, now) - victims;
            && 10 * |kept| <= 9 * cfg.maxEntries < 10 * (|kept| + 1)
            && (kept == map[] <==> cfg.maxEntries == 1)
    ensures cfg.maxEntries == 1 ==> t' == map[]
  {
    var full := Written(t, key, value, now);
    DeleteSize(full, victims);
    if cfg.maxEntries == 1 {
      assert full - victims == map[];
    }
  }

  datatype PutCall = PutCall(key: string, value: string, now: int, victims: set<string>, later: int)

  // states[0] .. states[n] are the tables between n Puts run one at a time.
  ghost predicate Sequential(cfg: Config, states: seq<Table>, calls: seq<PutCall>) {
    && |states| == |calls| + 1
    && forall i :: 0 <= i < |calls| ==>
         LonePut(cfg, states[i], calls[i].key, calls[i].value, calls[i].now, calls[i].victims, calls[i].later,
             states[i + 1])
  }

  ghost function Inserts(states: seq<Table>, calls: seq<PutCall>): nat
    requires |states| == |calls| + 1
  {
    if calls == [] then 0
    else
      var n := |calls| - 1;
      Inserts(states[..n + 1], calls[..n]) + if calls[n].key in states[n] then 0 else 1
  }

  ghost function Evictions(calls: seq<PutCall>): nat {
    if calls == [] then 0
    else Evictions(calls[..|calls| - 1]) + if calls[|calls| - 1].victims == {} then 0 else 1
  }

  // The batch a count eviction deletes when Puts run one at a time.
  function Batch(cfg: Config): int {
    cfg.maxEntries + 1 - Floor(cfg)
  }

  // A lone Put from a table within the cap, expiry off: it deletes nothing, or exactly one batch.
  lemma LonePutBatch(cfg: Config, t: Table, c: PutCall, t': Table)
    requires LonePut(cfg, t, c.key, c.value, c.now, c.victims, c.later, t')
    requires cfg.maxEntries > 0 && cfg.ttl <= 0 && |t| <= cfg.maxEntries
    ensures |t'| <= cfg.maxEntries && Batch(cfg) >= 1
    ensures c.victims == {} || |c.victims| == Batch(cfg)
    ensures c.victims != {} <==> |t| == cfg.maxEntries && c.key !in t
    ensures |t'| + (if c.victims == {} then 0 else Batch(cfg)) == |t| + if c.key in t then 0 else 1
  {
    var full := Written(t, c.key, c.value, c.now);
    WrittenSize(t, c.key, c.value, c.now);
    DeleteSize(full, c.victims);
    assert t' == full - c.victims;
  }

  // The rows all those evictions have deleted.
  ghost function Deleted(cfg: Config, calls: seq<PutCall>): int {
    Evictions(calls) * Batch(cfg)
  }

  lemma DeletedStep(cfg: Config, calls: seq<PutCall>)
    requires calls != []
    ensures Deleted(cfg, calls) ==
            Deleted(cfg, calls[..|calls| - 1]) + if calls[|calls| - 1].victims == {} then 0 else Batch(cfg)
  {
    var e, b := Evictions(calls[..|calls| - 1]), Batch(cfg);
    assert (e + 1) * b == e * b + b;
  }

  lemma FrontIsSequential(cfg: Config, states: seq<Table>, calls: seq<PutCall>)
    requires Sequential(cfg, states, calls) && calls != []
    ensures var n := |calls| - 1;
            && Sequential(cfg, states[..n + 1], calls[..n])
            && LonePut(cfg, states[n], calls[n].key, calls[n].value, calls[n].now, calls[n].victims, calls[n].later,
                states[n + 1])
  {
    hide LonePut;
  }

  /** Run one at a time with expiry off, Puts keep the table within the cap, and rows plus deleted
      batches balance what was there plus what was inserted; so E evictions over N inserts from n0
      rows satisfy E * batch <= N + n0. */
  lemma {:induction false} SequentialPutsBalance(cfg: Config, states: seq<Table>, calls: seq<PutCall>)
    requires Sequential(cfg, states, calls) && cfg.maxEntries > 0 && cfg.ttl <= 0 && |states[0]| <= cfg.maxEntries
    ensures |states[|calls|]| <= cfg.maxEntries
    ensures calls != [] ==> calls[|calls| - 1].victims == {} || |calls[|calls| - 1].victims| == Batch(cfg)
    ensures |states[|calls|]| + Deleted(cfg, calls) == |states[0]| + Inserts(states, calls)
    ensures Evictions(calls) * Batch(cfg) <= Inserts(states, calls) + |states[0]|
  {
    if calls != [] {
      hide LonePut, Batch, Sequential, Deleted, Floor;
      var n := |calls| - 1;
      FrontIsSequential(cfg, states, calls);
      SequentialPutsBalance(cfg, states[..n + 1], calls[..n]);
      LonePutBatch(cfg, states[n], calls[n], states[n + 1]);
      DeletedStep(cfg, calls);
      assert Deleted(cfg, calls) == Evictions(calls) * Batch(cfg) by { DeletedIs(cfg, calls); }
    } else {
      DeletedIs(cfg, calls);
    }
  }

  lemma DeletedIs(cfg: Config, calls: seq<PutCall>)
    ensures Deleted(cfg, calls) == Evictions(calls) * Batch(cfg)
  {
  }

  // ---------- A lone Put in the concurrent machine ----------

  function Unexpired(cfg: Config, kept: Table, later: int): Table {
    if cfg.ttl > 0 then kept - Expired(kept, later - cfg.ttl) else kept
  }

  // The action that drops expired rows, and the one that subtracts them.
  lemma ExpiringActs(cfg: Config, l: Local, victims: set<string>, now: int)
    requires l.stage.Expiring? && cfg.ttl > 0
    ensures var left := Unexpired(cfg, l.rows, now);
            |left| <= |l.rows| &&
            Act(cfg, l, victims, now) == l.(rows := left, stage := SubtractingExpired(|l.rows| - |left|))
  {
    var gone := Expired(l.rows, now - cfg.ttl);
    hide Expired;
    DeleteSize(l.rows, gone);
  }

  lemma NothingExpires(cfg: Config, kept: Table, later: int)
    requires cfg.ttl <= 0
    ensures Unexpired(cfg, kept, later) == kept
  {
  }

  // The machine with one Put at work beside others that are not.
  function OnlyPut(others: map<Tid, Stage>, tid: Tid, l: Local): World {
    World(l.rows, l.count, l.evicting, others[tid := l.stage])
  }

  // A run of one Put with no other step; each step has its own victims and clock.
  ghost predicate IsLone(run: seq<Step>, tid: Tid, key: string, value: string, now: int) {
    && run != [] && run[0] == Begin(tid, key, value, now)
    && forall i :: 1 <= i < |run| ==> run[i].Advance? && run[i].tid == tid
  }

  ghost predicate CanAct(cfg: Config, l: Local, victims: set<string>) {
    !l.stage.Returned? && (l.stage.Deleting? ==> Oldest(l.rows, Excess(cfg, l.stage.n), victims))
  }

  // n actions of the Put c take it from l to l'.
  ghost predicate Takes(cfg: Config, c: PutCall, l: Local, n: nat, l': Local)
    decreases n
  {
    if n == 0 then l == l'
    else CanAct(cfg, l, c.victims) && Takes(cfg, c, Act(cfg, l, c.victims, c.later), n - 1, l')
  }

  lemma {:induction false} TakesBoth(cfg: Config, c: PutCall, l: Local, m: nat, mid: Local, n: nat, l': Local)
    requires Takes(cfg, c, l, m, mid) && Takes(cfg, c, mid, n, l')
    ensures Takes(cfg, c, l, m + n, l')
    decreases m
  {
    if m > 0 {
      TakesBoth(cfg, c, Act(cfg, l, c.victims, c.later), m - 1, mid, n, l');
    }
  }

  lemma TakesOne(cfg: Config, c: PutCall, l: Local, n: nat, l': Local)
    requires CanAct(cfg, l, c.victims) && Takes(cfg, c, Act(cfg, l, c.victims, c.later), n, l')
    ensures Takes(cfg, c, l, n + 1, l')
  {
  }

  // From the call to holding the flag, with the row written and counted.
  lemma LoneWrite(cfg: Config, t: Table, c: PutCall)
    ensures var full := Written(t, c.key, c.value, c.now);
            Takes(cfg, c, Local(t, |t|, false, Inserting(c.key, c.value, c.now)), 3, Local(full, |full|, true, Loading))
  {
    hide Oldest, Excess, Expired, Takes;
    var full := Written(t, c.key, c.value, c.now);
    WrittenSize(t, c.key, c.value, c.now);
    var end := Local(full, |full|, true, Loading);
    TakesNone(cfg, c, end);
    TakesOne(cfg, c, Local(full, |full|, false, Claiming), 0, end);
    if c.key in t {
      TakesOne(cfg, c, Local(t, |t|, false, Updating(c.key, c.value, c.now)), 1, end);
    } else {
      TakesOne(cfg, c, Local(full, |t|, false, Counting), 1, end);
    }
    TakesOne(cfg, c, Local(t, |t|, false, Inserting(c.key, c.value, c.now)), 2, end);
  }

  lemma TakesNone(cfg: Config, c: PutCall, l: Local)
    ensures Takes(cfg, c, l, 0, l)
  {
  }

  // From reading the counter to having trimmed the table.
  lemma LoneTrim(cfg: Config, full: Table, c: PutCall)
    requires OverFull(cfg, |full|) ==> Oldest(full, Excess(cfg, |full|), c.victims)
    ensures var kept := if OverFull(cfg, |full|) then full - c.victims else full;
            Takes(cfg, c, Local(full, |full|, true, Loading), if OverFull(cfg, |full|) then 3 else 1,
                  Local(kept, |kept|, true, AfterCountEviction(cfg)))
  {
    hide Excess, Expired, Takes;
    if OverFull(cfg, |full|) {
      var kept := full - c.victims;
      DeleteSize(full, c.victims);
      var end := Local(kept, |kept|, true, AfterCountEviction(cfg));
      TakesNone(cfg, c, end);
      TakesOne(cfg, c, Local(kept, |full|, true, Subtracting(|c.victims|)), 0, end);
      TakesOne(cfg, c, Local(full, |full|, true, Deleting(|full|)), 1, end);
      TakesOne(cfg, c, Local(full, |full|, true, Loading), 2, end);
    } else {
      var end := Local(full, |full|, true, AfterCountEviction(cfg));
      TakesNone(cfg, c, end);
      TakesOne(cfg, c, Local(full, |full|, true, Loading), 0, end);
    }
  }

  // From there to the end, dropping expired rows if a time-to-live is set.
  lemma LoneExpire(cfg: Config, kept: Table, c: PutCall)
    ensures var left := Unexpired(cfg, kept, c.later);
            Takes(cfg, c, Local(kept, |kept|, true, AfterCountEviction(cfg)), if cfg.ttl > 0 then 3 else 1,
                  Local(left, |left|, false, Returned))
  {
    hide Oldest, Excess, Expired, OverFull, Takes, Unexpired;
    var left := Unexpired(cfg, kept, c.later);
    var end := Local(left, |left|, false, Returned);
    TakesNone(cfg, c, end);
    TakesOne(cfg, c, Local(left, |left|, true, Releasing), 0, end);
    if cfg.ttl > 0 {
      ExpiringActs(cfg, Local(kept, |kept|, true, Expiring), c.victims, c.later);
      TakesOne(cfg, c, Local(left, |kept|, true, SubtractingExpired(|kept| - |left|)), 1, end);
      TakesOne(cfg, c, Local(kept, |kept|, true, Expiring), 2, end);
    } else {
      NothingExpires(cfg, kept, c.later);
    }
  }

  lemma RunStep(cfg: Config, rows: Table, run: seq<Step>, s: Step)
    requires IsRun(cfg, rows, run) && Enabled(cfg, After(cfg, rows, run), s)
    ensures IsRun(cfg, rows, run + [s]) && After(cfg, rows, run + [s]) == Next(cfg, After(cfg, rows, run), s)
  {
    assert (run + [s])[..|run|] == run;
  }

  // The actions of the Put are steps of the machine.
  lemma {:induction false} TakesIsRun(cfg: Config, rows: Table, run: seq<Step>, others: map<Tid, Stage>, tid: Tid,
                                      c: PutCall, l: Local, n: nat, l': Local)
    returns (more: seq<Step>)
    requires IsRun(cfg, rows, run) && After(cfg, rows, run) == OnlyPut(others, tid, l) && Takes(cfg, c, l, n, l')
    ensures IsRun(cfg, rows, run + more) && After(cfg, rows, run + more) == OnlyPut(others, tid, l')
    ensures forall i :: 0 <= i < |more| ==> more[i].Advance? && more[i].tid == tid
    decreases n
  {
    hide IsRun, After, Act, Oldest, Excess;
    if n == 0 {
      more := [];
      assert run + more == run;
    } else {
      var s, next := Advance(tid, c.victims, c.later), Act(cfg, l, c.victims, c.later);
      RunStep(cfg, rows, run, s);
      assert others[tid := l.stage][tid := next.stage] == others[tid := next.stage];
      var rest := TakesIsRun(cfg, rows, run + [s], others, tid, c, next, n - 1, l');
      more := [s] + rest;
      assert run + more == run + [s] + rest;
    }
  }

  lemma LoneTakes(cfg: Config, t: Table, c: PutCall, t': Table) returns (n: nat)
    requires LonePut(cfg, t, c.key, c.value, c.now, c.victims, c.later, t')
    ensures Takes(cfg, c, Local(t, |t|, false, Inserting(c.key, c.value, c.now)), n, Local(t', |t'|, false, Returned))
  {
    hide Takes, Oldest, Excess, Expired, Act, Written;
    var full := Written(t, c.key, c.value, c.now);
    var kept := full - c.victims;
    var start, held := Local(t, |t|, false, Inserting(c.key, c.value, c.now)), Local(full, |full|, true, Loading);
    var mid, end := Local(kept, |kept|, true, AfterCountEviction(cfg)), Local(t', |t'|, false, Returned);
    LoneWrite(cfg, t, c);
    LoneTrim(cfg, full, c);
    LoneExpire(cfg, kept, c);
    assert !OverFull(cfg, |full|) ==> kept == full;
    var trim, expire := if OverFull(cfg, |full|) then 3 else 1, if cfg.ttl > 0 then 3 else 1;
    TakesBoth(cfg, c, start, 3, held, trim, mid);
    TakesBoth(cfg, c, start, 3 + trim, mid, expire, end);
    n := 3 + trim + expire;
  }

  /** Whenever no Put is running, the machine can do with one Put alone whatever `LonePut` allows. */
  lemma LonePutIsAMachineRun(cfg: Config, rows: Table, before: seq<Step>, tid: Tid, c: PutCall, t': Table)
    returns (lone: seq<Step>)
    requires IsRun(cfg, rows, before) && Quiet(After(cfg, rows, before)) && tid !in After(cfg, rows, before).puts
    requires LonePut(cfg, After(cfg, rows, before).rows, c.key, c.value, c.now, c.victims, c.later, t')
    ensures IsRun(cfg, rows, before + lone) && IsLone(lone, tid, c.key, c.value, c.now)
    ensures After(cfg, rows, before + lone)
            == OnlyPut(After(cfg, rows, before).puts, tid, Local(t', |t'|, false, Returned))
  {
    hide IsRun, After, LonePut, Takes;
    var w, begin := After(cfg, rows, before), Begin(tid, c.key, c.value, c.now);
    QuietCounterIsExact(cfg, rows, before);
    var n := LoneTakes(cfg, w.rows, c, t');
    RunStep(cfg, rows, before, begin);
    var start := Local(w.rows, |w.rows|, false, Inserting(c.key, c.value, c.now));
    var more := TakesIsRun(cfg, rows, before + [begin], w.puts, tid, c, start, n, Local(t', |t'|, false, Returned));
    lone := [begin] + more;
    assert before + lone == before + [begin] + more;
  }

  // ---------- Every run of one Put alone ----------

  // The rows the count eviction deletes from the full table.
  ghost predicate Trims(cfg: Config, full: Table, victims: set<string>) {
    if OverFull(cfg, |full|) then Oldest(full, Excess(cfg, |full|), victims) else victims == {}
  }

  // The table after the Put's count eviction, and after its expiry.
  function Kept(t: Table, c: PutCall): Table {
    Written(t, c.key, c.value, c.now) - c.victims
  }

  function Left(cfg: Config, t: Table, c: PutCall): Table {
    Unexpired(cfg, Kept(t, c), c.later)
  }

  // Where the Put c stands: what it has done to table t, with the victims and the clock it met so far.
  ghost predicate LoneAt(cfg: Config, t: Table, c: PutCall, l: Local) {
    var full := Written(t, c.key, c.value, c.now);
    && (l.evicting <==> InSection(l.stage))
    && match l.stage
       case Inserting(k, v, n) => k == c.key && v == c.value && n == c.now && l.rows == t && l.count == |t|
           && c.victims == {}
       case Updating(k, v, n) =>
         k == c.key && v == c.value && n == c.now && k in t && l.rows == t && l.count == |t| && c.victims == {}
       case Counting => c.key !in t && l.rows == full && l.count == |t| && c.victims == {}
       case Claiming => l.rows == full && l.count == |full| && c.victims == {}
       case Loading => l.rows == full && l.count == |full| && c.victims == {}
       case Deleting(n) => n == |full| && OverFull(cfg, n) && l.rows == full && l.count == |full|
       case Subtracting(d) => Trims(cfg, full, c.victims) && l.rows == Kept(t, c) && l.count - d == |l.rows|
       case Expiring => Trims(cfg, full, c.victims) && cfg.ttl > 0 && l.rows == Kept(t, c) && l.count == |l.rows|
       case SubtractingExpired(d) => Trims(cfg, full, c.victims) && l.rows == Left(cfg, t, c) && l.count - d == |l.rows|
       case Releasing => Trims(cfg, full, c.victims) && l.rows == Left(cfg, t, c) && l.count == |l.rows|
       case Returned => Trims(cfg, full, c.victims) && l.rows == Left(cfg, t, c) && l.count == |l.rows|
  }

  // The call with what its next action lets it meet.
  function Met(l: Local, c: PutCall, victims: set<string>, now: int): PutCall {
    match l.stage
    case Deleting(_) => c.(victims := victims)
    case Expiring => c.(later := now)
    case _ => c
  }

  lemma LoneWrites(cfg: Config, t: Table, c: PutCall, l: Local, victims: set<string>, now: int)
    requires LoneAt(cfg, t, c, l) && (l.stage.Inserting? || l.stage.Updating? || l.stage.Counting? || l.stage.Claiming?)
    ensures LoneAt(cfg, t, c, Act(cfg, l, victims, now)) && Met(l, c, victims, now) == c
  {
    hide Expired, Trims, Kept, Left, OverFull;
    WrittenSize(t, c.key, c.value, c.now);
  }

  lemma LoneLoads(cfg: Config, t: Table, c: PutCall, l: Local, victims: set<string>, now: int)
    requires LoneAt(cfg, t, c, l) && (l.stage.Loading? || l.stage.Subtracting?)
    ensures LoneAt(cfg, t, c, Act(cfg, l, victims, now)) && Met(l, c, victims, now) == c
  {
    hide Excess, Floor, Expired, Written, Oldest, Kept, Unexpired, OverFull;
    NothingTrimmed(cfg, t, c);
  }

  lemma NothingTrimmed(cfg: Config, t: Table, c: PutCall)
    ensures c.victims == {} ==> Kept(t, c) == Written(t, c.key, c.value, c.now)
    ensures cfg.ttl <= 0 ==> Left(cfg, t, c) == Kept(t, c)
  {
    hide Expired;
  }

  lemma LoneDeletes(cfg: Config, t: Table, c: PutCall, l: Local, victims: set<string>, now: int)
    requires LoneAt(cfg, t, c, l) && CanAct(cfg, l, victims) && l.stage.Deleting?
    ensures LoneAt(cfg, t, c.(victims := victims), Act(cfg, l, victims, now))
  {
    hide Excess, Floor, Expired, Written, Unexpired;
    DeleteSize(l.rows, victims);
  }

  lemma SameKept(t: Table, c: PutCall, now: int)
    ensures Kept(t, c.(later := now)) == Kept(t, c)
  {
  }

  lemma LoneExpires(cfg: Config, t: Table, c: PutCall, l: Local, victims: set<string>, now: int)
    requires LoneAt(cfg, t, c, l) && l.stage.Expiring?
    ensures LoneAt(cfg, t, c.(later := now), Act(cfg, l, victims, now))
  {
    hide Act, Trims, Expired, Unexpired, Kept, Written, Oldest, Excess, OverFull;
    ExpiringActs(cfg, l, victims, now);
    SameKept(t, c, now);
  }

  lemma LoneReleases(cfg: Config, t: Table, c: PutCall, l: Local, victims: set<string>, now: int)
    requires LoneAt(cfg, t, c, l) && (l.stage.SubtractingExpired? || l.stage.Releasing?)
    ensures LoneAt(cfg, t, c, Act(cfg, l, victims, now)) && Met(l, c, victims, now) == c
  {
    hide Trims, Expired, Written, Kept, Left;
  }

  lemma LoneActs(cfg: Config, t: Table, c: PutCall, l: Local, victims: set<string>, now: int)
    requires LoneAt(cfg, t, c, l) && CanAct(cfg, l, victims)
    ensures LoneAt(cfg, t, Met(l, c, victims, now), Act(cfg, l, victims, now))
  {
    hide LoneAt, Act, Oldest;
    match l.stage
    case Loading => LoneLoads(cfg, t, c, l, victims, now);
    case Subtracting(_) => LoneLoads(cfg, t, c, l, victims, now);
    case Deleting(_) => LoneDeletes(cfg, t, c, l, victims, now);
    case Expiring => LoneExpires(cfg, t, c, l, victims, now);
    case SubtractingExpired(_) => LoneReleases(cfg, t, c, l, victims, now);
    case Releasing => LoneReleases(cfg, t, c, l, victims, now);
    case _ => LoneWrites(cfg, t, c, l, victims, now);
  }

  // With one Put at work in the machine, a step of it is an action.
  lemma OnlyPutActs(cfg: Config, others: map<Tid, Stage>, tid: Tid, l: Local, s: Step)
    requires s.Advance? && s.tid == tid && Enabled(cfg, OnlyPut(others, tid, l), s)
    ensures CanAct(cfg, l, s.victims)
    ensures Next(cfg, OnlyPut(others, tid, l), s) == OnlyPut(others, tid, Act(cfg, l, s.victims, s.now))
  {
    hide Act, Oldest;
    var next := Act(cfg, l, s.victims, s.now);
    assert others[tid := l.stage][tid := next.stage] == others[tid := next.stage];
  }

  lemma LastStep(cfg: Config, rows: Table, run: seq<Step>, s: Step)
    requires IsRun(cfg, rows, run + [s])
    ensures IsRun(cfg, rows, run) && Enabled(cfg, After(cfg, rows, run), s)
    ensures After(cfg, rows, run + [s]) == Next(cfg, After(cfg, rows, run), s)
  {
    assert (run + [s])[..|run|] == run;
  }

  // Past the expiry, `later` is the clock some step of the run met.
  ghost predicate Expiry(cfg: Config, lone: seq<Step>, c: PutCall, l: Local) {
    cfg.ttl > 0 && (l.stage.SubtractingExpired? || l.stage.Releasing? || l.stage.Returned?) ==>
      exists i :: 0 <= i < |lone| && lone[i].Advance? && lone[i].now == c.later
  }

  lemma NotExpired(cfg: Config, lone: seq<Step>, c: PutCall, l: Local)
    requires l.stage.Inserting?
    ensures Expiry(cfg, lone, c, l)
  {
  }

  lemma ExpiryStep(cfg: Config, t: Table, lone: seq<Step>, c: PutCall, l: Local)
    requires lone != [] && Expiry(cfg, lone[..|lone| - 1], c, l) && lone[|lone| - 1].Advance? && LoneAt(cfg, t, c, l)
    ensures var s := lone[|lone| - 1];
            Expiry(cfg, lone, Met(l, c, s.victims, s.now), Act(cfg, l, s.victims, s.now))
  {
    hide InsertOrIgnore, Update, Expired, OverFull, Trims, Kept, Left, Written;
  }

  lemma {:induction false} LoneRunKeeps(cfg: Config, rows: Table, before: seq<Step>, lone: seq<Step>, tid: Tid,
                                        key: string, value: string, now: int)
    returns (c: PutCall, l: Local)
    requires IsRun(cfg, rows, before) && Quiet(After(cfg, rows, before))
    requires IsRun(cfg, rows, before + lone) && IsLone(lone, tid, key, value, now)
    ensures c.key == key && c.value == value && c.now == now
    ensures After(cfg, rows, before + lone) == OnlyPut(After(cfg, rows, before).puts, tid, l)
    ensures LoneAt(cfg, After(cfg, rows, before).rows, c, l)
    ensures Expiry(cfg, lone, c, l)
    decreases |lone|
  {
    hide IsRun, After, Enabled, LoneAt, Act, Met, Quiet, Expiry;
    var w, front, s := After(cfg, rows, before), lone[..|lone| - 1], lone[|lone| - 1];
    assert before + lone == before + front + [s];
    LastStep(cfg, rows, before + front, s);
    if front == [] {
      assert before + front == before;
      QuietCounterIsExact(cfg, rows, before);
      c, l := PutCall(key, value, now, {}, 0), Local(w.rows, |w.rows|, false, Inserting(key, value, now));
      LoneStarts(cfg, w.rows, c, l);
      NotExpired(cfg, lone, c, l);
    } else {
      hide OnlyPut, Next;
      c, l := LoneRunKeeps(cfg, rows, before, front, tid, key, value, now);
      OnlyPutActs(cfg, w.puts, tid, l, s);
      LoneActs(cfg, w.rows, c, l, s.victims, s.now);
      MetKeepsCall(l, c, s.victims, s.now);
      ExpiryStep(cfg, w.rows, lone, c, l);
      c, l := Met(l, c, s.victims, s.now), Act(cfg, l, s.victims, s.now);
    }
  }

  lemma MetKeepsCall(l: Local, c: PutCall, victims: set<string>, now: int)
    ensures var m := Met(l, c, victims, now); m.key == c.key && m.value == c.value && m.now == c.now
  {
  }

  lemma LoneStarts(cfg: Config, t: Table, c: PutCall, l: Local)
    requires l == Local(t, |t|, false, Inserting(c.key, c.value, c.now)) && c.victims == {}
    ensures LoneAt(cfg, t, c, l)
  {
  }

  /** And the other way: from every quiet state of the machine, every run of one Put alone that returns has
      done what `LonePut` says for the victims and the clock it met, and leaves an exact counter and the
      flag down; so it ends within the cap, however over-full the table was. */
  lemma EveryLoneRunIsALonePut(cfg: Config, rows: Table, before: seq<Step>, lone: seq<Step>, tid: Tid,
                               key: string, value: string, now: int)
    returns (victims: set<string>, later: int)
    requires IsRun(cfg, rows, before) && Quiet(After(cfg, rows, before))
    requires IsRun(cfg, rows, before + lone) && IsLone(lone, tid, key, value, now)
    requires tid in After(cfg, rows, before + lone).puts && After(cfg, rows, before + lone).puts[tid].Returned?
    ensures cfg.ttl > 0 ==> exists i :: 0 <= i < |lone| && lone[i].Advance? && lone[i].now == later
    ensures LonePut(cfg, After(cfg, rows, before).rows, key, value, now, victims, later,
                    After(cfg, rows, before + lone).rows)
    ensures After(cfg, rows, before + lone).count == |After(cfg, rows, before + lone).rows|
    ensures !After(cfg, rows, before + lone).evicting
    ensures cfg.maxEntries > 0 ==> |After(cfg, rows, before + lone).rows| <= cfg.maxEntries
  {
    hide IsRun, After, Oldest, Excess, Expired, Unexpired, OverFull, Written, IsLone;
    var c, l := LoneRunKeeps(cfg, rows, before, lone, tid, key, value, now);
    var t, t' := After(cfg, rows, before).rows, After(cfg, rows, before + lone).rows;
    victims, later := c.victims, c.later;
    if cfg.maxEntries > 0 {
      LonePutRestoresCap(cfg, t, key, value, now, victims, later, t');
    }
  }

  // ---------- The object ----------

  lemma {:induction false} OldestExist(t: Table, del: nat) returns (victims: set<string>)
    ensures victims <= t.Keys && Oldest(t, del, victims)
    decreases del
  {
    if del == 0 || t == map[] {
      victims := {};
    } else {
      var rest := OldestExist(t, del - 1);
      if rest == t.Keys {
        victims := rest;
      } else {
        var left := t.Keys - rest;
        assert |left| == |t| - |rest|;
        var next := LeastAccessed(t, left);
        victims := rest + {next};
      }
    }
  }

  lemma {:induction false} LeastAccessed(t: Table, keys: set<string>) returns (k: string)
    requires keys <= t.Keys && keys != {}
    ensures k in keys && forall w :: w in keys ==> t[k].lastAccessed <= t[w].lastAccessed
    decreases |keys|
  {
    k :| k in keys;
    if x :| x in keys && x != k {
      assert x in keys - {k};
      var other := LeastAccessed(t, keys - {k});
      if t[other].lastAccessed < t[k].lastAccessed {
        k := other;
      }
    }
  }

  class SQLite {
    const maxEntries: int
    const ttl: int
    var rows: Table
    var count: int
    var evicting: bool

    function Cfg(): Config {
      Config(maxEntries, ttl)
    }

    // Between calls, when calls do not overlap: the counter is exact and the flag is down.
    ghost predicate Valid()
      reads this
    {
      count == |rows| && !evicting
    }

    constructor (rows: Table, maxEntries: int, ttl: int)
      ensures Valid() && this.rows == rows && Cfg() == Config(maxEntries, ttl)
    {
      this.maxEntries, this.ttl, this.rows := maxEntries, ttl, rows;
      count, evicting := |rows|, false;
    }

    method Get(key: string, now: int) returns (r: Option<string>)
      requires Valid()
      modifies this`rows
      ensures Valid() && rows == TouchAccess(old(rows), key, now)
      ensures r == if key in old(rows) then Some(old(rows)[key].description) else None
    {
      if key !in rows {
        return None;
      }
      r := Some(rows[key].description);
      TouchKeepsSize(rows, key, now);
      rows := TouchAccess(rows, key, now);
    }

    method Write(key: string, value: string, now: int)
      requires Valid()
      modifies this`rows, this`count
      ensures Valid() && rows == Written(old(rows), key, value, now)
    {
      WrittenSize(rows, key, value, now);
      var affected := key !in rows;
      rows := InsertOrIgnore(rows, key, value, now);
      if affected {
        count := count + 1;
      } else {
        rows := Update(rows, key, value, now);
      }
    }

    method Put(key: string, value: string, now: int, later: int) returns (ghost victims: set<string>)
      requires Valid()
      modifies this
      ensures Valid()
      ensures LonePut(Cfg(), old(rows), key, value, now, victims, later, rows)
    {
      hide Oldest, Written, Excess, OverFull, Expired;
      Write(key, value, now);
      victims := EvictIfNeeded(later);
    }

    // The count eviction.
    method TrimToCap() returns (ghost victims: set<string>)
      requires count == |rows|
      modifies this`rows, this`count
      ensures count == |rows| && rows == old(rows) - victims
      ensures Trims(Cfg(), old(rows), victims)
    {
      hide Oldest, OverFull;
      victims := {};
      if OverFull(Cfg(), count) {
        var del := Excess(Cfg(), count);
        ghost var some := OldestExist(rows, del);
        var gone :| gone <= rows.Keys && Oldest(rows, del, gone);
        victims := gone;
        DeleteSize(rows, gone);
        rows := rows - gone;
        count := count - |gone|;
      } else {
        assert rows - {} == rows;
      }
    }

    // The expiry.
    method DropExpired(now: int)
      requires count == |rows|
      modifies this`rows, this`count
      ensures count == |rows| && rows == Unexpired(Cfg(), old(rows), now)
    {
      hide Expired;
      if ttl > 0 {
        var gone := Expired(rows, now - ttl);
        DeleteSize(rows, gone);
        rows := rows - gone;
        count := count - |gone|;
      }
    }

    method EvictIfNeeded(now: int) returns (ghost victims: set<string>)
      requires Valid()
      modifies this
      ensures Valid()
      ensures Trims(Cfg(), old(rows), victims)
      ensures rows == Unexpired(Cfg(), old(rows) - victims, now)
    {
      hide Oldest, Unexpired, OverFull, Excess;
      evicting := true;
      victims := TrimToCap();
      DropExpired(now);
      evicting := false;
    }
  }
}
