/** The composite cache: a bounded in-memory LRU over the persistent table, calls one at a time. */
module TwoTiers {
  import opened Basics
  import opened LruOrder
  import opened Lru
  import Sqlite

  // The contents of the two layers, and the capacity of the hot one.
  datatype Tiers = Tiers(cap: nat, hot: seq<Pair>, cold: Sqlite.Table)

  function ColdLookup(t: Sqlite.Table, key: string): Option<string> {
    if key in t then Some(t[key].description) else None
  }

  function Answer(s: Tiers, key: string): Option<string> {
    if Lookup(s.hot, key).Some? then Lookup(s.hot, key) else ColdLookup(s.cold, key)
  }

  // A hit in the hot layer leaves the cold one alone; a miss touches the row and backfills the hot layer.
  function AfterGet(s: Tiers, key: string, now: int): Tiers {
    if Lookup(s.hot, key).Some? then s.(hot := Touched(s.hot, key))
    else
      match ColdLookup(s.cold, key)
      case None => s
      case Some(v) => s.(hot := Stored(s.hot, s.cap, key, v), cold := Sqlite.TouchAccess(s.cold, key, now))
  }

  // A Put with cold eviction off.
  function AfterPut(s: Tiers, key: string, value: string, now: int): Tiers {
    s.(hot := Stored(s.hot, s.cap, key, value), cold := Sqlite.Written(s.cold, key, value, now))
  }

  lemma NothingEvicted(cfg: Sqlite.Config, t: Sqlite.Table, key: string, value: string, now: int,
                       victims: set<string>, later: int, t': Sqlite.Table)
    requires cfg.maxEntries <= 0 && cfg.ttl <= 0 && Sqlite.LonePut(cfg, t, key, value, now, victims, later, t')
    ensures t' == Sqlite.Written(t, key, value, now)
  {
  }

  class TwoTier {
    const hot: LRU
    const cold: Sqlite.SQLite

    ghost predicate Valid()
      reads this, hot, hot.ll, hot.ll.ring, cold
    {
      hot.Valid() && cold.Valid()
    }

    ghost function View(): Tiers
      reads this, hot, cold
    {
      Tiers(hot.cap, hot.recency, cold.rows)
    }

    ghost predicate EvictionOff() {
      cold.maxEntries <= 0 && cold.ttl <= 0
    }

    constructor (lruCap: nat, cold: Sqlite.SQLite)
      requires cold.Valid()
      ensures Valid() && fresh(hot.Repr()) && this.cold == cold && View() == Tiers(lruCap, [], cold.rows)
    {
      hot := new LRU(lruCap);
      this.cold := cold;
    }

    method Get(key: string, now: int) returns (r: Option<string>)
      requires Valid()
      modifies hot.Repr(), cold
      ensures Valid() && fresh(hot.Repr() - old(hot.Repr()))
      ensures r == Answer(old(View()), key)
      ensures View() == AfterGet(old(View()), key, now)
    {
      r := hot.Get(key);
      if r.Some? {
        return r;
      }
      // The second look under the shard lock.
      r := hot.Get(key);
      if r.Some? {
        return r;
      }
      r := cold.Get(key, now);
      if r.Some? {
        hot.Put(key, r.value);
      }
    }

    method Put(key: string, value: string, now: int, later: int) returns (ghost victims: set<string>)
      requires Valid()
      modifies hot.Repr(), cold
      ensures Valid() && fresh(hot.Repr() - old(hot.Repr()))
      ensures hot.recency == Stored(old(hot.recency), hot.cap, key, value)
      ensures Sqlite.LonePut(cold.Cfg(), old(cold.rows), key, value, now, victims, later, cold.rows)
      ensures EvictionOff() ==> View() == AfterPut(old(View()), key, value, now)
    {
      hide Sqlite.LonePut, Stored;
      hot.Put(key, value);
      victims := cold.Put(key, value, now, later);
      if EvictionOff() {
        NothingEvicted(cold.Cfg(), old(cold.rows), key, value, now, victims, later, cold.rows);
      }
    }
  }

  // ---------- Whole runs, cold eviction off ----------

  datatype Op =
    | Get(key: string, now: int)
    | Put(key: string, value: string, now: int)
    | Restart(cap: nat)  // the hot layer is replaced by an empty one of any capacity

  function Apply(s: Tiers, op: Op): Tiers {
    match op
    case Get(key, now) => AfterGet(s, key, now)
    case Put(key, value, now) => AfterPut(s, key, value, now)
    case Restart(cap) => Tiers(cap, [], s.cold)
  }

  function Answers(s: Tiers, ops: seq<Op>): seq<Option<string>>
    decreases |ops|
  {
    if ops == [] then []
    else (if ops[0].Get? then [Answer(s, ops[0].key)] else []) + Answers(Apply(s, ops[0]), ops[1..])
  }

  // The reference: an unbounded map that knows neither layers nor restarts.
  function MapAnswers(m: map<string, string>, ops: seq<Op>): seq<Option<string>>
    decreases |ops|
  {
    if ops == [] then []
    else
      match ops[0]
      case Get(key, _) => [if key in m then Some(m[key]) else None] + MapAnswers(m, ops[1..])
      case Put(key, value, _) => MapAnswers(m[key := value], ops[1..])
      case Restart(_) => MapAnswers(m, ops[1..])
  }

  function Descriptions(t: Sqlite.Table): map<string, string> {
    map k | k in t :: t[k].description
  }

  // Whatever the hot layer holds, the cold layer holds with the same description.
  ghost predicate Coherent(s: Tiers) {
    forall p :: p in s.hot ==> ColdLookup(s.cold, p.key) == Some(p.value)
  }

  lemma CoherentAnswer(s: Tiers, key: string)
    requires Coherent(s)
    ensures Answer(s, key) == ColdLookup(s.cold, key)
  {
    LookupIsMembership(s.hot, key);
  }

  lemma {:induction false} WithoutMembers(s: seq<Pair>, key: string, p: Pair)
    requires p in Without(s, key)
    ensures p in s && p.key != key
  {
    if p in Without(s[1..], key) {
      WithoutMembers(s[1..], key, p);
    }
  }

  // What the hot layer holds after a store it held before under another key, or is the stored pair.
  lemma StoredMembers(s: seq<Pair>, cap: nat, key: string, value: string, p: Pair)
    requires p in Stored(s, cap, key, value)
    ensures p == Pair(key, value) || (p in s && p.key != key)
  {
    if Lookup(s, key).Some? {
      if p != Pair(key, value) {
        WithoutMembers(s, key, p);
      }
    } else {
      LookupIsMembership(s, key);
      if p in s {
        var i :| 0 <= i < |s| && s[i] == p;
        assert Keys(s)[i] == p.key;
      }
    }
  }

  lemma TouchedMembers(s: seq<Pair>, key: string, p: Pair)
    requires p in Touched(s, key)
    ensures p in s
  {
    LookupIsMembership(s, key);
    if Lookup(s, key).Some? && p != Pair(key, Lookup(s, key).value) {
      WithoutMembers(s, key, p);
    }
  }

  lemma ApplyKeepsCoherent(s: Tiers, op: Op)
    requires Coherent(s)
    ensures Coherent(Apply(s, op))
  {
    var s' := Apply(s, op);
    forall p | p in s'.hot ensures ColdLookup(s'.cold, p.key) == Some(p.value) {
      match op
      case Restart(_) =>
      case Put(key, value, now) =>
        StoredMembers(s.hot, s.cap, key, value, p);
      case Get(key, now) =>
        if Lookup(s.hot, key).Some? {
          TouchedMembers(s.hot, key, p);
        } else if key in s.cold {
          StoredMembers(s.hot, s.cap, key, s.cold[key].description, p);
        }
    }
  }

  // The descriptions in the cold layer follow the reference map.
  lemma ColdIsTheMap(s: Tiers, op: Op)
    ensures Descriptions(Apply(s, op).cold) ==
            if op.Put? then Descriptions(s.cold)[op.key := op.value] else Descriptions(s.cold)
  {
  }

  /** With cold eviction off, every sequence of Gets, Puts and restarts, at every hot capacity, answers
      like an unbounded map; in particular a restart changes no later answer. */
  lemma {:induction false} AnswersLikeAMap(s: Tiers, ops: seq<Op>)
    requires Coherent(s)
    ensures Answers(s, ops) == MapAnswers(Descriptions(s.cold), ops)
    decreases |ops|
  {
    if ops != [] {
      if ops[0].Get? {
        CoherentAnswer(s, ops[0].key);
      }
      ApplyKeepsCoherent(s, ops[0]);
      ColdIsTheMap(s, ops[0]);
      AnswersLikeAMap(Apply(s, ops[0]), ops[1..]);
    }
  }

  /** Opened on existing rows, two caches of different capacity give the same answers, whichever of
      them is restarted and wherever. */
  lemma CapacityAndRestartsDoNotShow(rows: Sqlite.Table, cap: nat, cap': nat, before: seq<Op>, restart: nat,
      after: seq<Op>)
    ensures Answers(Tiers(cap, [], rows), before + after) ==
            Answers(Tiers(cap', [], rows), before + [Restart(restart)] + after)
  {
    AnswersLikeAMap(Tiers(cap, [], rows), before + after);
    AnswersLikeAMap(Tiers(cap', [], rows), before + [Restart(restart)] + after);
    MapIgnoresRestart(Descriptions(rows), before, restart, after);
  }

  lemma {:induction false} MapIgnoresRestart(m: map<string, string>, before: seq<Op>, cap: nat, after: seq<Op>)
    ensures MapAnswers(m, before + after) == MapAnswers(m, before + [Restart(cap)] + after)
    decreases |before|
  {
    if before == [] {
      assert [] + after == after && ([Restart(cap)] + after)[1..] == after;
      assert [] + [Restart(cap)] + after == [Restart(cap)] + after;
    } else {
      var m' := if before[0].Put? then m[before[0].key := before[0].value] else m;
      MapIgnoresRestart(m', before[1..], cap, after);
      assert (before + after)[1..] == before[1..] + after;
      assert (before + [Restart(cap)] + after)[1..] == before[1..] + [Restart(cap)] + after;
    }
  }

  lemma {:induction false} StoredIsFound(s: seq<Pair>, cap: nat, key: string, value: string)
    requires cap > 0
    ensures Lookup(Stored(s, cap, key, value), key) == Some(value)
  {
  }

  /** Whatever was last answered or stored is in the hot layer, if it has room for one pair: a Get right after it
      answers the same and leaves the cold layer alone. A Get the cold layer answers stamps its row. */
  lemma TheHotLayerIsWarm(s: Tiers, op: Op, now: int)
    requires s.cap > 0 && !op.Restart? && (op.Get? ==> Answer(s, op.key).Some?)
    ensures var s' := Apply(s, op);
            && Lookup(s'.hot, op.key) == (if op.Get? then Answer(s, op.key) else Some(op.value))
            && Answer(s', op.key) == Lookup(s'.hot, op.key) && Apply(s', Get(op.key, now)).cold == s'.cold
    ensures op.Get? && Lookup(s.hot, op.key).None? ==>
              op.key in s.cold && Apply(s, op).cold == s.cold[op.key := s.cold[op.key].(lastAccessed := op.now)]
  {
    match op
    case Put(key, value, _) => StoredIsFound(s.hot, s.cap, key, value);
    case Get(key, _) =>
      if Lookup(s.hot, key).None? {
        StoredIsFound(s.hot, s.cap, key, s.cold[key].description);
      }
  }

  lemma {:induction false} WithoutIsShorter(s: seq<Pair>, key: string)
    ensures |Without(s, key)| <= |s| - if Lookup(s, key).Some? then 1 else 0
  {
    if s != [] {
      WithoutIsShorter(s[1..], key);
    }
  }

  /** The hot layer never holds more pairs than its capacity, a restart with a smaller one included. */
  lemma HotStaysWithinCap(s: Tiers, op: Op)
    requires |s.hot| <= s.cap
    ensures |Apply(s, op).hot| <= Apply(s, op).cap
  {
    if !op.Restart? {
      WithoutIsShorter(s.hot, op.key);
    }
  }
}
