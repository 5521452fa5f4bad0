/**
  Which rows go and which stay, told from what happened to each key: when it was last written, with what
  value, and when it was last used. A row's own columns are not looked at.
*/
module SqliteHistory {
  import opened Basics
  import opened Sqlite

  // The value a key was last given, when, and when it was last read or written.
  datatype Past = Past(value: string, written: int, used: int)

  // ---------- In every interleaving ----------

  function Found(rows: Table, key: string): Option<Past> {
    if key in rows then Some(Past(rows[key].description, rows[key].createdAt, rows[key].lastAccessed)) else None
  }

  // What a step adds to the past of a key: an INSERT that was not ignored, an UPDATE, or a Get.
  function PastStep(w: World, s: Step, key: string, past: Option<Past>): Option<Past>
    requires s.Advance? ==> s.tid in w.puts
  {
    match s
    case Touch(k, at) => if k == key && past.Some? then Some(past.value.(used := at)) else past
    case Begin(_, _, _, _) => past
    case Advance(tid, _, _) =>
      match w.puts[tid]
      case Inserting(k, v, now) => if k == key && key !in w.rows then Some(Past(v, now, now)) else past
      case Updating(k, v, now) => if k == key then Some(Past(v, now, now)) else past
      case _ => past
  }

  // The past of a key after a run; of a row found at the opening, what its columns said then.
  ghost function PastOf(cfg: Config, rows: Table, run: seq<Step>, key: string): Option<Past>
    requires IsRun(cfg, rows, run)
  {
    if run == [] then Found(rows, key)
    else
      var front := run[..|run| - 1];
      PastStep(After(cfg, rows, front), run[|run| - 1], key, PastOf(cfg, rows, front, key))
  }

  lemma RowStep(cfg: Config, w: World, s: Step, key: string, past: Option<Past>)
    requires Enabled(cfg, w, s) && (key in w.rows ==> Found(w.rows, key) == past)
    ensures var rows := Next(cfg, w, s).rows; key in rows ==> Found(rows, key) == PastStep(w, s, key, past)
  {
    hide Oldest, Excess;
  }

  /** In every interleaving of Puts and Gets each row holds what its key was last given, with the times of that
      and of its last use. */
  lemma {:induction false} RowsHoldTheirPast(cfg: Config, rows: Table, run: seq<Step>, key: string)
    requires IsRun(cfg, rows, run) && key in After(cfg, rows, run).rows
    ensures Found(After(cfg, rows, run).rows, key) == PastOf(cfg, rows, run, key)
  {
    if run != [] {
      hide Enabled, Next, Found, PastStep;
      var front := run[..|run| - 1];
      var w := After(cfg, rows, front);
      if key in w.rows {
        RowsHoldTheirPast(cfg, rows, front, key);
      }
      RowStep(cfg, w, run[|run| - 1], key, PastOf(cfg, rows, front, key));
    }
  }

  // Step s takes the key's row out of the table.
  ghost predicate Removes(cfg: Config, w: World, s: Step, key: string)
    requires Enabled(cfg, w, s)
  {
    key in w.rows && key !in Next(cfg, w, s).rows
  }

  lemma StepRemoves(cfg: Config, w: World, s: Step, key: string)
    requires Enabled(cfg, w, s) && Removes(cfg, w, s, key)
    ensures s.Advance? && (w.puts[s.tid].Deleting? || w.puts[s.tid].Expiring?)
    ensures w.puts[s.tid].Expiring? ==> w.rows[key].createdAt < s.now - cfg.ttl
    ensures w.puts[s.tid].Deleting? ==>
              forall kept :: kept in Next(cfg, w, s).rows ==> w.rows[key].lastAccessed <= w.rows[kept].lastAccessed
  {
    hide Excess;
  }

  lemma StepKeeps(cfg: Config, w: World, s: Step, key: string)
    requires Enabled(cfg, w, s) && s.Advance? && w.puts[s.tid].Expiring? && key in Next(cfg, w, s).rows
    ensures key in w.rows && w.rows[key].createdAt >= s.now - cfg.ttl
  {
  }

  /** In every interleaving: a row goes only by a count eviction or by expiry. By a count eviction it was last
      used no later than any row that stays. */
  lemma EvictionTakesTheLeastRecentlyUsed(cfg: Config, rows: Table, run: seq<Step>, s: Step, gone: string)
    requires IsRun(cfg, rows, run + [s]) && IsRun(cfg, rows, run) && Enabled(cfg, After(cfg, rows, run), s)
    requires Removes(cfg, After(cfg, rows, run), s, gone)
    ensures var w := After(cfg, rows, run);
            && s.Advance? && (w.puts[s.tid].Deleting? || w.puts[s.tid].Expiring?)
            && PastOf(cfg, rows, run, gone).Some?
            && (w.puts[s.tid].Deleting? ==>
                 forall kept :: kept in After(cfg, rows, run + [s]).rows ==>
                   && PastOf(cfg, rows, run, kept).Some?
                   && PastOf(cfg, rows, run, gone).value.used <= PastOf(cfg, rows, run, kept).value.used)
  {
    hide Next, PastOf;
    var w := After(cfg, rows, run);
    assert (run + [s])[..|run|] == run;
    StepRemoves(cfg, w, s, gone);
    RowsHoldTheirPast(cfg, rows, run, gone);
    if w.puts[s.tid].Deleting? {
      forall kept | kept in After(cfg, rows, run + [s]).rows
        ensures PastOf(cfg, rows, run, kept).Some?
        ensures PastOf(cfg, rows, run, gone).value.used <= PastOf(cfg, rows, run, kept).value.used
      {
        DeletingAddsNothing(cfg, w, s, kept);
        RowsHoldTheirPast(cfg, rows, run, kept);
      }
    }
  }

  lemma DeletingAddsNothing(cfg: Config, w: World, s: Step, key: string)
    requires Enabled(cfg, w, s) && s.Advance? && w.puts[s.tid].Deleting? && key in Next(cfg, w, s).rows
    ensures key in w.rows
  {
    hide Oldest;
  }

  /** In every interleaving an expiry takes exactly the rows last written before the cutoff. */
  lemma ExpiryTakesTheOld(cfg: Config, rows: Table, run: seq<Step>, s: Step, key: string)
    requires IsRun(cfg, rows, run) && Enabled(cfg, After(cfg, rows, run), s)
    requires s.Advance? && After(cfg, rows, run).puts[s.tid].Expiring? && key in After(cfg, rows, run).rows
    ensures PastOf(cfg, rows, run, key).Some?
    ensures key in Next(cfg, After(cfg, rows, run), s).rows
            <==> PastOf(cfg, rows, run, key).value.written >= s.now - cfg.ttl
  {
    hide Next, PastOf, IsRun, After;
    var w := After(cfg, rows, run);
    RowsHoldTheirPast(cfg, rows, run, key);
    if key in Next(cfg, w, s).rows {
      StepKeeps(cfg, w, s, key);
    } else {
      StepRemoves(cfg, w, s, key);
    }
  }

  // ---------- The row just written ----------

  // A lone Put's own row is the only one used as late as `now`.
  lemma NewestRowStays(cfg: Config, t: Table, c: PutCall, t': Table)
    requires LonePut(cfg, t, c.key, c.value, c.now, c.victims, c.later, t') && cfg.maxEntries != 1
    requires forall k :: k in t && k != c.key ==> t[k].lastAccessed < c.now
    ensures c.key !in c.victims
  {
    hide Expired;
    if c.key in c.victims {
      EvictingPutLeavesTheFloor(cfg, t, c.key, c.value, c.now, c.victims, c.later, t');
    }
  }

  lemma OwnRow(cfg: Config, t: Table, c: PutCall, t': Table)
    requires LonePut(cfg, t, c.key, c.value, c.now, c.victims, c.later, t') && c.key !in c.victims
    requires cfg.ttl > 0 ==> c.now >= c.later - cfg.ttl
    ensures c.key in t' && t'[c.key].description == c.value
  {
    hide Oldest, Excess;
  }

  /** From every quiet state of the machine, with a cap other than 1: if every other row was last used before the
      clock of the Put, then whatever the run of one Put alone deletes, its own row is there with its value when
      it returns, unless a step of it came later than the time to live. */
  lemma LonePutKeepsItsRow(cfg: Config, rows: Table, before: seq<Step>, lone: seq<Step>, tid: Tid,
                           key: string, value: string, now: int)
    requires IsRun(cfg, rows, before) && Quiet(After(cfg, rows, before)) && cfg.maxEntries != 1
    requires IsRun(cfg, rows, before + lone) && IsLone(lone, tid, key, value, now)
    requires tid in After(cfg, rows, before + lone).puts && After(cfg, rows, before + lone).puts[tid].Returned?
    requires forall k :: k in After(cfg, rows, before).rows && k != key ==>
               PastOf(cfg, rows, before, k).Some? && PastOf(cfg, rows, before, k).value.used < now
    requires forall i :: 0 <= i < |lone| && lone[i].Advance? && cfg.ttl > 0 ==> now >= lone[i].now - cfg.ttl
    ensures key in After(cfg, rows, before + lone).rows
    ensures After(cfg, rows, before + lone).rows[key].description == value
  {
    hide IsRun, After, Quiet, IsLone, LonePut, PastOf;
    var t, t' := After(cfg, rows, before).rows, After(cfg, rows, before + lone).rows;
    var victims, later := EveryLoneRunIsALonePut(cfg, rows, before, lone, tid, key, value, now);
    var c := PutCall(key, value, now, victims, later);
    forall k | k in t && k != key ensures t[k].lastAccessed < now {
      RowsHoldTheirPast(cfg, rows, before, k);
    }
    NewestRowStays(cfg, t, c, t');
    OwnRow(cfg, t, c, t');
  }

  // ---------- Calls one at a time ----------

  datatype Call = Got(key: string, now: int) | Did(put: PutCall)

  // states[0] .. states[n] are the tables between n calls run one at a time.
  ghost predicate IsTrace(cfg: Config, states: seq<Table>, calls: seq<Call>) {
    && |states| == |calls| + 1
    && forall i :: 0 <= i < |calls| ==> Does(cfg, states[i], calls[i], states[i + 1])
  }

  ghost predicate Does(cfg: Config, t: Table, call: Call, t': Table) {
    match call
    case Got(key, now) => t' == TouchAccess(t, key, now)
    case Did(c) => LonePut(cfg, t, c.key, c.value, c.now, c.victims, c.later, t')
  }

  function KeyOf(call: Call): string {
    match call
    case Got(key, _) => key
    case Did(c) => c.key
  }

  function ClockOf(call: Call): int {
    match call
    case Got(_, now) => now
    case Did(c) => c.now
  }

  // When the last call for the key was made, or None.
  function LastUse(calls: seq<Call>, key: string): Option<int> {
    if calls == [] then None
    else
      var last := calls[|calls| - 1];
      if KeyOf(last) == key then Some(ClockOf(last)) else LastUse(calls[..|calls| - 1], key)
  }

  // The last Put of the key, or None.
  function LastPut(calls: seq<Call>, key: string): Option<PutCall> {
    if calls == [] then None
    else
      var last := calls[|calls| - 1];
      if last.Did? && last.put.key == key then Some(last.put) else LastPut(calls[..|calls| - 1], key)
  }

  // What the calls tell about a key, given what was found at the opening.
  function PastOfCalls(rows: Table, calls: seq<Call>, key: string): Option<Past> {
    var found, put, use := Found(rows, key), LastPut(calls, key), LastUse(calls, key);
    if put.Some? && use.Some? then Some(Past(put.value.value, put.value.now, use.value))
    else if found.Some? && use.Some? then Some(found.value.(used := use.value))
    else found
  }

  lemma FrontIsTrace(cfg: Config, states: seq<Table>, calls: seq<Call>, n: nat)
    requires IsTrace(cfg, states, calls) && n < |calls|
    ensures IsTrace(cfg, states[..n + 1], calls[..n]) && Does(cfg, states[n], calls[n], states[n + 1])
  {
    hide Does;
  }

  // The table after a call holds no key but those before it and the call's, and no row but the old one or
  // the call's.
  lemma CallRow(cfg: Config, t: Table, call: Call, t': Table, key: string)
    requires Does(cfg, t, call, t') && key in t'
    ensures key in t || (call.Did? && key == call.put.key)
    ensures key != KeyOf(call) ==> Found(t', key) == Found(t, key)
    ensures key == KeyOf(call) ==>
              Found(t', key) == Some(if call.Did? then Past(call.put.value, call.put.now, call.put.now)
                                     else Found(t, key).value.(used := call.now))
  {
    hide Oldest, Excess;
  }

  lemma PastGrows(rows: Table, calls: seq<Call>, call: Call, key: string)
    ensures var past := PastOfCalls(rows, calls + [call], key);
            && (key != KeyOf(call) ==> past == PastOfCalls(rows, calls, key))
            && (key == KeyOf(call) && call.Did? ==> past == Some(Past(call.put.value, call.put.now, call.put.now)))
            && (key == KeyOf(call) && call.Got? && PastOfCalls(rows, calls, key).Some?
                ==> past == Some(PastOfCalls(rows, calls, key).value.(used := call.now)))
  {
    assert (calls + [call])[..|calls|] == calls;
    PutIsAUse(calls, key);
  }

  lemma {:induction false} PutIsAUse(calls: seq<Call>, key: string)
    ensures LastPut(calls, key).Some? ==> LastUse(calls, key).Some?
  {
    if calls != [] {
      PutIsAUse(calls[..|calls| - 1], key);
    }
  }

  /** After any calls one at a time each row holds what the last Put of its key gave it, with the clock of that
      Put and of the last call for the key. */
  lemma {:induction false} TraceHoldsThePast(cfg: Config, states: seq<Table>, calls: seq<Call>, key: string)
    requires IsTrace(cfg, states, calls) && key in states[|calls|]
    ensures Found(states[|calls|], key) == PastOfCalls(states[0], calls, key)
  {
    if calls != [] {
      hide IsTrace, Does, PastOfCalls, Found;
      var n := |calls| - 1;
      var front, call := calls[..n], calls[n];
      assert |states| == n + 2 by { TraceLength(cfg, states, calls); }
      FrontIsTrace(cfg, states, calls, n);
      CallRow(cfg, states[n], call, states[n + 1], key);
      assert front + [call] == calls;
      PastGrows(states[0], front, call, key);
      if key in states[n] {
        TraceHoldsThePast(cfg, states[..n + 1], front, key);
      }
      PresentIsFound(states[n], key);
    } else {
      assert LastPut(calls, key) == None && LastUse(calls, key) == None;
    }
  }

  lemma TraceLength(cfg: Config, states: seq<Table>, calls: seq<Call>)
    requires IsTrace(cfg, states, calls)
    ensures |states| == |calls| + 1
  {
  }

  lemma PresentIsFound(t: Table, key: string)
    ensures key in t <==> Found(t, key).Some?
  {
  }

  // The past of a key once the n-th call, a Put, has written its row.
  lemma WrittenPast(cfg: Config, states: seq<Table>, calls: seq<Call>, n: nat, key: string)
    requires IsTrace(cfg, states, calls) && n < |calls| && calls[n].Did?
    requires var c := calls[n].put; key in Written(states[n], c.key, c.value, c.now)
    ensures var c := calls[n].put;
            Found(Written(states[n], c.key, c.value, c.now), key) == PastOfCalls(states[0], calls[..n + 1], key)
  {
    hide IsTrace, PastOfCalls;
    var c := calls[n].put;
    assert |states| == |calls| + 1 by { TraceLength(cfg, states, calls); }
    FrontIsTrace(cfg, states, calls, n);
    assert calls[..n + 1] == calls[..n] + [calls[n]];
    PastGrows(states[0], calls[..n], calls[n], key);
    if key != c.key {
      TraceHoldsThePast(cfg, states[..n + 1], calls[..n], key);
    }
  }

  /** Among any calls one at a time: each row a Put's count eviction deletes was last used no later than each
      row it keeps. */
  lemma PutsEvictTheLeastRecentlyUsed(cfg: Config, states: seq<Table>, calls: seq<Call>, n: nat,
                                      gone: string, kept: string)
    requires IsTrace(cfg, states, calls) && n < |calls| && calls[n].Did?
    requires var c := calls[n].put;
             && gone in c.victims
             && kept in Written(states[n], c.key, c.value, c.now) && kept !in c.victims
    ensures var g, k := PastOfCalls(states[0], calls[..n + 1], gone), PastOfCalls(states[0], calls[..n + 1], kept);
            g.Some? && k.Some? && g.value.used <= k.value.used
  {
    hide PastOfCalls, Written;
    var c := calls[n].put;
    FrontIsTrace(cfg, states, calls, n);
    WrittenPast(cfg, states, calls, n, gone);
    WrittenPast(cfg, states, calls, n, kept);
  }

  lemma {:induction false} UseIsACall(calls: seq<Call>, key: string) returns (i: nat)
    requires LastUse(calls, key).Some?
    ensures i < |calls| && KeyOf(calls[i]) == key && LastUse(calls, key) == Some(ClockOf(calls[i]))
  {
    i := |calls| - 1;
    if KeyOf(calls[i]) != key {
      i := UseIsACall(calls[..|calls| - 1], key);
    }
  }

  /** With a cap other than 1: a Put whose clock is later than every earlier call for another key, and than the
      uses of the rows found at the opening, leaves its own row with its value, unless it took longer than the
      time to live; so a Get right after it hits. */
  lemma APutKeepsItsRow(cfg: Config, states: seq<Table>, calls: seq<Call>, n: nat)
    requires IsTrace(cfg, states, calls) && n < |calls| && calls[n].Did? && cfg.maxEntries != 1
    requires forall i :: 0 <= i < n && KeyOf(calls[i]) != calls[n].put.key ==> ClockOf(calls[i]) < calls[n].put.now
    requires forall k :: k in states[0] ==> states[0][k].lastAccessed < calls[n].put.now
    requires cfg.ttl > 0 ==> calls[n].put.now >= calls[n].put.later - cfg.ttl
    ensures calls[n].put.key in states[n + 1]
    ensures states[n + 1][calls[n].put.key].description == calls[n].put.value
  {
    hide LonePut;
    var c, t := calls[n].put, states[n];
    FrontIsTrace(cfg, states, calls, n);
    forall k | k in t && k != c.key ensures t[k].lastAccessed < c.now {
      TraceHoldsThePast(cfg, states[..n + 1], calls[..n], k);
      if LastUse(calls[..n], k).Some? {
        var i := UseIsACall(calls[..n], k);
      }
    }
    NewestRowStays(cfg, t, c, states[n + 1]);
    OwnRow(cfg, t, c, states[n + 1]);
  }
}
