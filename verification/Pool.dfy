/** Building a provider pool, and one call on it as the source runs it. */
module Pools {
  import opened Basics
  import CB = CircuitBreakers
  import opened PoolRuns

  type ProviderId = nat

  datatype PoolEntry = PoolEntry(name: string, provider: Option<ProviderId>, priority: int, cb: CB.CircuitBreaker?)

  datatype PoolError =
    | NoEntries
    | NameMissing(index: nat)
    | DuplicateName(index: nat, name: string)
    | ProviderMissing(index: nat, name: string)
    | AllFailed(entries: nat)

  // ---------- The stable sort by priority ----------

  function Insert(s: seq<PoolEntry>, x: PoolEntry): seq<PoolEntry> {
    if s == [] || s[|s| - 1].priority <= x.priority then s + [x]
    else Insert(s[..|s| - 1], x) + [s[|s| - 1]]
  }

  function StableSort(s: seq<PoolEntry>): seq<PoolEntry> {
    if s == [] then [] else Insert(StableSort(s[..|s| - 1]), s[|s| - 1])
  }

  ghost predicate Sorted(s: seq<PoolEntry>) {
    forall i, j :: 0 <= i < j < |s| ==> s[i].priority <= s[j].priority
  }

  // The entries of one priority, in the order they stand.
  function OfPriority(s: seq<PoolEntry>, p: int): seq<PoolEntry> {
    if s == [] then []
    else OfPriority(s[..|s| - 1], p) + if s[|s| - 1].priority == p then [s[|s| - 1]] else []
  }

  lemma {:induction false} InsertKeepsEntries(s: seq<PoolEntry>, x: PoolEntry)
    ensures multiset(Insert(s, x)) == multiset(s) + multiset{x}
  {
    if s != [] && s[|s| - 1].priority > x.priority {
      InsertKeepsEntries(s[..|s| - 1], x);
      assert s == s[..|s| - 1] + [s[|s| - 1]];
    }
  }

  predicate AtMost(s: seq<PoolEntry>, p: int) {
    forall i :: 0 <= i < |s| ==> s[i].priority <= p
  }

  lemma {:induction false} InsertAtMost(s: seq<PoolEntry>, x: PoolEntry, p: int)
    requires AtMost(s, p) && x.priority <= p
    ensures AtMost(Insert(s, x), p)
  {
    if s != [] && s[|s| - 1].priority > x.priority {
      InsertAtMost(s[..|s| - 1], x, p);
    }
  }

  lemma {:induction false} InsertKeepsSorted(s: seq<PoolEntry>, x: PoolEntry)
    requires Sorted(s)
    ensures Sorted(Insert(s, x))
  {
    if s != [] && s[|s| - 1].priority > x.priority {
      var front, last := s[..|s| - 1], s[|s| - 1];
      InsertKeepsSorted(front, x);
      InsertAtMost(front, x, last.priority);
    }
  }

  lemma ClassSnoc(s: seq<PoolEntry>, x: PoolEntry, p: int)
    ensures OfPriority(s + [x], p) == OfPriority(s, p) + if x.priority == p then [x] else []
  {
    assert (s + [x])[..|s|] == s;
  }

  lemma {:induction false} InsertKeepsClasses(s: seq<PoolEntry>, x: PoolEntry, p: int)
    ensures OfPriority(Insert(s, x), p) == OfPriority(s, p) + if x.priority == p then [x] else []
  {
    hide OfPriority;
    if s == [] || s[|s| - 1].priority <= x.priority {
      ClassSnoc(s, x, p);
    } else {
      var front, last := s[..|s| - 1], s[|s| - 1];
      InsertKeepsClasses(front, x, p);
      ClassSnoc(front, last, p);
      ClassSnoc(Insert(front, x), last, p);
      assert s == front + [last];
    }
  }

  /** The result is sorted, holds the same entries, and keeps entries of equal priority in their order. */
  lemma {:induction false} StableSortIsStable(s: seq<PoolEntry>, p: int)
    ensures Sorted(StableSort(s))
    ensures multiset(StableSort(s)) == multiset(s)
    ensures OfPriority(StableSort(s), p) == OfPriority(s, p)
  {
    if s != [] {
      var front, last := s[..|s| - 1], s[|s| - 1];
      assert s == front + [last];
      StableSortIsStable(front, p);
      InsertKeepsEntries(StableSort(front), last);
      InsertKeepsSorted(StableSort(front), last);
      InsertKeepsClasses(StableSort(front), last, p);
    }
  }

  lemma {:induction false} ClassHasEntry(s: seq<PoolEntry>, i: nat)
    requires i < |s|
    ensures OfPriority(s, s[i].priority) != []
  {
    if i < |s| - 1 {
      ClassHasEntry(s[..|s| - 1], i);
    }
  }

  lemma {:induction false} EntryOfClass(s: seq<PoolEntry>, p: int) returns (i: nat)
    requires OfPriority(s, p) != []
    ensures i < |s| && s[i].priority == p
  {
    i := |s| - 1;
    if s[i].priority != p {
      i := EntryOfClass(s[..i], p);
    }
  }

  lemma LastClass(a: seq<PoolEntry>, b: seq<PoolEntry>)
    requires Sorted(b) && a != [] && OfPriority(a, a[|a| - 1].priority) == OfPriority(b, a[|a| - 1].priority)
    ensures b != [] && b[|b| - 1].priority >= a[|a| - 1].priority
  {
    hide OfPriority;
    ClassHasEntry(a, |a| - 1);
    var i := EntryOfClass(b, a[|a| - 1].priority);
  }

  /** Sortedness and stability leave one possible result. */
  lemma {:induction false} StableOrderIsUnique(a: seq<PoolEntry>, b: seq<PoolEntry>)
    requires Sorted(a) && Sorted(b) && forall p :: OfPriority(a, p) == OfPriority(b, p)
    ensures a == b
  {
    if a == [] {
      if b != [] {
        LastClass(b, a);
      }
    } else {
      LastClass(a, b);
      LastClass(b, a);
      var a', b' := a[..|a| - 1], b[..|b| - 1];
      var p := a[|a| - 1].priority;
      assert OfPriority(a, p) == OfPriority(a', p) + [a[|a| - 1]];
      assert OfPriority(b, p) == OfPriority(b', p) + [b[|b| - 1]];
      assert a[|a| - 1] == OfPriority(a, p)[|OfPriority(a, p)| - 1] == b[|b| - 1];
      forall q ensures OfPriority(a', q) == OfPriority(b', q) {
        var m := |OfPriority(a, q)| - if q == p then 1 else 0;
        assert OfPriority(a', q) == OfPriority(a, q)[..m];
        assert OfPriority(b', q) == OfPriority(b, q)[..m];
      }
      StableOrderIsUnique(a', b');
      assert a == a' + [a[|a| - 1]] && b == b' + [b[|b| - 1]];
    }
  }

  // One exchange of the sift: x moves below y, and what remains to be inserted does not change.
  lemma SiftStep(s: seq<PoolEntry>, j: nat, i: nat, x: PoolEntry, t: seq<PoolEntry>)
    requires 0 < j <= i < |s| && s[j] == x && x.priority < s[j - 1].priority
    requires t == s[j := s[j - 1]][j - 1 := x]
    ensures Insert(s[..j], x) + s[j + 1..i + 1] == Insert(t[..j - 1], x) + t[j..i + 1]
  {
    assert s[..j][..j - 1] == t[..j - 1];
    assert t[j..i + 1] == [s[j - 1]] + s[j + 1..i + 1];
  }

  // The inner loop: entry i sinks to its place among the sorted entries before it.
  method SiftDown(a: array<PoolEntry>, i: nat)
    requires i < a.Length
    modifies a
    ensures a[..i + 1] == Insert(old(a[..i]), old(a[i]))
    ensures a[i + 1..] == old(a[i + 1..])
  {
    ghost var goal, rest := Insert(a[..i], a[i]), a[i + 1..];
    var x := a[i];
    var j := i;
    assert a[i + 1..i + 1] == [];
    while j > 0 && x.priority < a[j - 1].priority
      invariant 0 <= j <= i && a[j] == x
      invariant Insert(a[..j], x) + a[j + 1..i + 1] == goal
      invariant a[i + 1..] == rest
    {
      ghost var before := a[..];
      a[j], a[j - 1] := a[j - 1], a[j];
      SiftStep(before, j, i, x, a[..]);
      j := j - 1;
    }
    assert a[..i + 1] == a[..j] + [x] + a[j + 1..i + 1];
  }

  // The library's stable sort, in place: the insertion sort it runs on its blocks.
  method SortByPriority(a: array<PoolEntry>)
    modifies a
    ensures a[..] == StableSort(old(a[..]))
  {
    ghost var was := a[..];
    for i := 0 to a.Length
      invariant a[..i] == StableSort(was[..i])
      invariant a[i..] == was[i..]
    {
      assert a[i] == was[i] && was[..i + 1][..i] == was[..i];
      assert a[i + 1..] == was[i + 1..];
      SiftDown(a, i);
    }
    assert a[..a.Length] == a[..] && was[..a.Length] == was;
  }

  // ---------- NewPool ----------

  // What is wrong with entry i, given the entries before it; the checks in the source's order.
  function FaultAt(s: seq<PoolEntry>, i: nat): Option<PoolError>
    requires i < |s|
  {
    if s[i].name == "" then Some(NameMissing(i))
    else if exists k :: 0 <= k < i && s[k].name == s[i].name then Some(DuplicateName(i, s[i].name))
    else if s[i].provider.None? then Some(ProviderMissing(i, s[i].name))
    else None
  }

  // What the validation asks of the entries as a whole.
  ghost predicate Usable(s: seq<PoolEntry>) {
    s != [] && NamesDiffer(s) && forall i :: 0 <= i < |s| ==> s[i].name != "" && s[i].provider.Some?
  }

  lemma UsableIffFaultless(s: seq<PoolEntry>)
    ensures Usable(s) <==> s != [] && forall i :: 0 <= i < |s| ==> FaultAt(s, i).None?
  {
    if Usable(s) {
      forall i | 0 <= i < |s| ensures FaultAt(s, i).None? {
      }
    } else if s != [] {
      if i :| 0 <= i < |s| && (s[i].name == "" || s[i].provider.None?) {
        assert FaultAt(s, i).Some?;
      } else {
        var i, j :| 0 <= i < j < |s| && s[i].name == s[j].name;
        assert FaultAt(s, j).Some?;
      }
    }
  }

  // e' is e with a missing breaker filled in.
  ghost predicate Filled(e: PoolEntry, e': PoolEntry) {
    e'.cb != null && (e.cb != null ==> e' == e) && e'.(cb := e.cb) == e
  }

  ghost predicate NamesDiffer(s: seq<PoolEntry>) {
    forall i, j :: 0 <= i < j < |s| ==> s[i].name != s[j].name
  }

  ghost predicate HaveBreakers(s: seq<PoolEntry>) {
    forall e :: e in s ==> e.cb != null
  }

  ghost predicate OwnBreakers(s: seq<PoolEntry>) {
    forall i, j :: 0 <= i < j < |s| && s[i].cb != null ==> s[i].cb != s[j].cb
  }

  // Different places of the sorted sequence hold entries from different places of the input.
  lemma SortMovesEntries(s: seq<PoolEntry>, i: nat, j: nat) returns (k: nat, l: nat)
    requires NamesDiffer(s) && i < j < |StableSort(s)|
    ensures k < |s| && l < |s| && k != l && s[k] == StableSort(s)[i] && s[l] == StableSort(s)[j]
  {
    var t := StableSort(s);
    StableSortIsStable(s, 0);
    hide StableSort, Sorted;
    assert t[i] in multiset(t) && t[j] in multiset(t);
    k :| 0 <= k < |s| && s[k] == t[i];
    l :| 0 <= l < |s| && s[l] == t[j];
    if t[i] == t[j] {
      TwicePresent(t, i, j);
      OncePresent(s, k);
    }
  }

  lemma SortKeepsNames(s: seq<PoolEntry>)
    requires NamesDiffer(s)
    ensures NamesDiffer(StableSort(s))
    ensures OwnBreakers(s) ==> OwnBreakers(StableSort(s))
  {
    var t := StableSort(s);
    forall i, j | 0 <= i < j < |t|
      ensures t[i].name != t[j].name
      ensures OwnBreakers(s) && t[i].cb != null ==> t[i].cb != t[j].cb
    {
      var k, l := SortMovesEntries(s, i, j);
    }
  }

  lemma SortMembers(s: seq<PoolEntry>)
    ensures forall e :: e in StableSort(s) <==> e in s
  {
    StableSortIsStable(s, 0);
    hide StableSort, Sorted;
    forall e ensures e in StableSort(s) <==> e in s {
      assert e in s <==> e in multiset(s);
      assert e in StableSort(s) <==> e in multiset(StableSort(s));
    }
  }

  lemma TwoEntriesDiffer(t: seq<PoolEntry>, a: PoolEntry, b: PoolEntry)
    requires OwnBreakers(t) && a in t && b in t && a != b && a.cb != null
    ensures a.cb != b.cb
  {
    var k :| 0 <= k < |t| && t[k] == a;
    var l :| 0 <= l < |t| && t[l] == b;
  }

  // Sorting hides no shared breaker.
  lemma SortKeepsSharing(s: seq<PoolEntry>)
    requires NamesDiffer(s) && OwnBreakers(StableSort(s))
    ensures OwnBreakers(s)
  {
    SortMembers(s);
    hide StableSort;
    forall i, j | 0 <= i < j < |s| && s[i].cb != null ensures s[i].cb != s[j].cb {
      assert s[i].name != s[j].name;
      TwoEntriesDiffer(StableSort(s), s[i], s[j]);
    }
  }

  // Filling in fresh breakers does not undo sharing.
  lemma FilledKeepsSharing(s: seq<PoolEntry>, filled: seq<PoolEntry>)
    requires Checked(s, filled, |s|)
    ensures OwnBreakers(filled) ==> OwnBreakers(s)
    ensures HaveBreakers(filled)
  {
  }

  lemma SortedIsReady(s: seq<PoolEntry>)
    requires NamesDiffer(s) && HaveBreakers(s)
    ensures NamesDiffer(StableSort(s)) && HaveBreakers(StableSort(s))
    ensures OwnBreakers(StableSort(s)) <==> OwnBreakers(s)
  {
    SortMembers(s);
    SortKeepsNames(s);
    hide StableSort, NamesDiffer, OwnBreakers;
    if OwnBreakers(StableSort(s)) {
      SortKeepsSharing(s);
    }
  }

  lemma TwicePresent(t: seq<PoolEntry>, i: nat, j: nat)
    requires i < j < |t| && t[i] == t[j]
    ensures multiset(t)[t[i]] >= 2
  {
    assert t == t[..i] + [t[i]] + t[i + 1..j] + [t[j]] + t[j + 1..];
  }

  lemma OncePresent(s: seq<PoolEntry>, k: nat)
    requires k < |s| && NamesDiffer(s)
    ensures multiset(s)[s[k]] == 1
  {
    assert s == s[..k] + [s[k]] + s[k + 1..];
    assert s[k] !in s[..k] && s[k] !in s[k + 1..];
  }

  class Pool {
    const providers: array<PoolEntry>

    constructor (providers: array<PoolEntry>)
      ensures this.providers == providers
    {
      this.providers := providers;
    }

    // Every entry has a breaker, and no two entries share one.
    ghost predicate Valid()
      reads this, providers
    {
      && (forall i :: 0 <= i < providers.Length ==> providers[i].cb != null)
      && OwnBreakers(providers[..])
    }

    lemma ReadyIff()
      ensures Valid() <==> HaveBreakers(providers[..]) && OwnBreakers(providers[..])
    {
      if HaveBreakers(providers[..]) {
        forall i | 0 <= i < providers.Length ensures providers[i].cb != null {
          assert providers[i] in providers[..];
        }
      }
    }
  }

  // A breaker made for an entry that came without one.
  ghost predicate IsDefault(cb: CB.CircuitBreaker?)
    reads if cb == null then {} else {cb}
  {
    cb != null && cb.View() == CB.INITIAL && cb.Cfg() == CB.Config(CB.DEFAULT_THRESHOLD, CB.DEFAULT_RESET)
  }

  // The first n entries are without fault and have their breakers filled in; the others are as they were.
  ghost predicate Checked(was: seq<PoolEntry>, now: seq<PoolEntry>, n: nat) {
    && n <= |was| == |now| && now[n..] == was[n..]
    && forall k :: 0 <= k < n ==> FaultAt(was, k).None? && Filled(was[k], now[k])
  }

  // The breakers filled in are fresh default ones.
  twostate predicate MadeDefaults(was: seq<PoolEntry>, new now: seq<PoolEntry>, new n: nat)
    requires n <= |was| == |now|
    reads set k | 0 <= k < n && now[k].cb != null :: now[k].cb
  {
    forall k :: 0 <= k < n && was[k].cb == null ==> now[k].cb != null && fresh(now[k].cb) && IsDefault(now[k].cb)
  }

  // The validation loop: stops at the first fault, having filled the breakers before it.
  method CheckEntries(entries: array<PoolEntry>) returns (ghost n: nat, fault: Option<PoolError>)
    modifies entries
    ensures n <= entries.Length
    ensures Checked(old(entries[..]), entries[..], n) && MadeDefaults(old(entries[..]), entries[..], n)
    ensures OwnBreakers(old(entries[..])) ==> OwnBreakers(entries[..n])
    ensures fault.None? <==> n == entries.Length
    ensures n < entries.Length ==> fault == FaultAt(old(entries[..]), n)
  {
    hide Checked, OwnBreakers, FaultAt, Filled, IsDefault;
    ghost var was := entries[..];
    var names: set<string> := {};
    n, fault := 0, None;
    NothingChecked(was);
    for i := 0 to entries.Length
      invariant n == i
      invariant forall x :: x in names <==> exists k :: 0 <= k < i && was[k].name == x
      invariant Checked(was, entries[..], i) && MadeDefaults(was, entries[..], i)
      invariant OwnBreakers(was) ==> OwnBreakers(entries[..i])
    {
      var e := entries[i];
      ghost var before := entries[..];
      CheckedStep(was, before, i, names);
      if e.name == "" {
        return n, Some(NameMissing(i));
      }
      if e.name in names {
        return n, Some(DuplicateName(i, e.name));
      }
      names := names + {e.name};
      if e.provider.None? {
        return n, Some(ProviderMissing(i, e.name));
      }
      if e.cb == null {
        var cb := new CB.CircuitBreaker(CB.DEFAULT_THRESHOLD, CB.DEFAULT_RESET);
        NewIsDefault(cb);
        entries[i] := e.(cb := cb);
      }
      assert entries[..] == before[i := entries[i]];
      FilledStep(was, before, i, entries[i]);
      n := n + 1;
    }
  }

  lemma NothingChecked(was: seq<PoolEntry>)
    ensures Checked(was, was, 0) && OwnBreakers(was[..0])
  {
  }

  lemma NewIsDefault(cb: CB.CircuitBreaker)
    requires cb.View() == CB.INITIAL && cb.Cfg() == CB.Config(CB.DEFAULT_THRESHOLD, CB.DEFAULT_RESET)
    ensures IsDefault(cb)
  {
  }

  // The next entry is as it was, and the loop's checks find its fault.
  lemma CheckedStep(was: seq<PoolEntry>, now: seq<PoolEntry>, i: nat, names: set<string>)
    requires Checked(was, now, i) && i < |was|
    requires forall x :: x in names <==> exists k :: 0 <= k < i && was[k].name == x
    ensures now[i] == was[i]
    ensures FaultAt(was, i) ==
            if was[i].name == "" then Some(NameMissing(i))
            else if was[i].name in names then Some(DuplicateName(i, was[i].name))
            else if was[i].provider.None? then Some(ProviderMissing(i, was[i].name)) else None
  {
    assert now[i..][0] == was[i..][0];
  }

  // One more entry without fault, its breaker kept or filled in with one that no entry has.
  lemma FilledStep(was: seq<PoolEntry>, now: seq<PoolEntry>, i: nat, e: PoolEntry)
    requires Checked(was, now, i) && i < |was| && FaultAt(was, i).None?
    requires e.cb != null && e.(cb := was[i].cb) == was[i]
    requires was[i].cb != null ==> e == was[i]
    requires was[i].cb == null ==> forall k :: 0 <= k < |now| ==> now[k].cb != e.cb
    requires forall k :: 0 <= k < i && was[k].cb == null ==> now[k].cb != e.cb
    ensures Checked(was, now[i := e], i + 1)
    ensures OwnBreakers(was) && OwnBreakers(now[..i]) ==> OwnBreakers(now[i := e][..i + 1])
  {
    assert now[i := e][i + 1..] == now[i..][1..];
    assert was[i + 1..] == was[i..][1..];
    if OwnBreakers(was) && OwnBreakers(now[..i]) {
      forall k | 0 <= k < i ensures now[k].cb != e.cb {
        assert was[k].cb != null ==> now[k] == was[k];
      }
    }
  }

  lemma NoFaultsMeansNamesDiffer(s: seq<PoolEntry>, filled: seq<PoolEntry>)
    requires Checked(s, filled, |s|)
    ensures NamesDiffer(filled)
  {
    forall i, j | 0 <= i < j < |s| ensures filled[i].name != filled[j].name {
      assert FaultAt(s, j).None?;
    }
  }

  // Sorts the completed entries and makes them a pool.
  method SortedPool(entries: array<PoolEntry>) returns (pool: Pool)
    requires NamesDiffer(entries[..]) && HaveBreakers(entries[..])
    modifies entries
    ensures pool.providers == entries && entries[..] == StableSort(old(entries[..])) && NamesDiffer(entries[..])
    ensures OwnBreakers(old(entries[..])) <==> pool.Valid()
  {
    hide StableSort, OwnBreakers, NamesDiffer, HaveBreakers;
    SortedIsReady(entries[..]);
    SortByPriority(entries);
    pool := new Pool(entries);
    pool.ReadyIff();
  }

  lemma UsableIffCheckedThrough(was: seq<PoolEntry>, now: seq<PoolEntry>, n: nat)
    requires Checked(was, now, n) && (n < |was| ==> FaultAt(was, n).Some?)
    ensures n == |was| > 0 <==> Usable(was)
  {
    UsableIffFaultless(was);
  }

  /** Rejects at the first faulty entry; otherwise fills in missing breakers and sorts in place. The pool is
      ready for calls unless two entries came with the same breaker. */
  method NewPool(entries: array<PoolEntry>)
    returns (r: Result<Pool, PoolError>, ghost n: nat, ghost filled: seq<PoolEntry>)
    modifies entries
    ensures n <= entries.Length == |filled|
    ensures Checked(old(entries[..]), filled, n) && MadeDefaults(old(entries[..]), filled, n)
    ensures r.Success? <==> n == entries.Length > 0
    ensures r.Success? <==> Usable(old(entries[..]))
    ensures entries.Length == 0 ==> r == Failure(NoEntries)
    ensures n < entries.Length ==>
              && FaultAt(old(entries[..]), n) == Some(r.error) && entries[..] == filled
    ensures r.Success? ==>
              && r.value.providers == entries && entries[..] == StableSort(filled)
              && NamesDiffer(entries[..])
              && (OwnBreakers(old(entries[..])) <==> r.value.Valid())
  {
    hide StableSort, Checked, FaultAt, OwnBreakers, NamesDiffer, HaveBreakers, Pool.Valid;
    n := 0;
    filled := entries[..];
    NothingChecked(filled);
    if entries.Length == 0 {
      return Failure(NoEntries), n, filled;
    }
    var fault;
    n, fault := CheckEntries(entries);
    filled := entries[..];
    UsableIffCheckedThrough(old(entries[..]), filled, n);
    if fault.Some? {
      return Failure(fault.value), n, filled;
    }
    hide MadeDefaults, Usable;
    assert entries[..n] == filled;
    NoFaultsMeansNamesDiffer(old(entries[..]), filled);
    FilledKeepsSharing(old(entries[..]), filled);
    var pool := SortedPool(entries);
    r := Success(pool);
  }

  // ---------- One call, alone ----------

  // What one attempt meets: the clock at Allow, the provider's answer if it is called, the clock when it is recorded.
  datatype Attempt = Attempt(allowAt: int, answer: Option<string>, recordAt: int)

  function Judge(c: CB.Config, s: CB.State, t: Attempt): Verdict {
    if !CB.Admits(c, s, t.allowAt) then Skipped else if t.answer.Some? then Succeeded else Failed
  }

  // The breaker after the attempt: an Allow and, if it was admitted, the recorded outcome.
  function Attempted(c: CB.Config, s: CB.State, t: Attempt): CB.State {
    var asked := CB.Step(c, s, CB.Allow(t.allowAt));
    match Judge(c, s, t)
    case Skipped => asked
    case Failed => CB.Step(c, asked, CB.Fail(t.recordAt))
    case Succeeded => CB.Step(c, asked, CB.Success(t.recordAt))
  }

  // The breaker events of the attempt, if the breaker lets it through or not.
  function EventsOf(t: Attempt, admitted: bool): seq<CB.Event> {
    if !admitted then [CB.Allow(t.allowAt)]
    else [CB.Allow(t.allowAt), if t.answer.Some? then CB.Success(t.recordAt) else CB.Fail(t.recordAt)]
  }

  /** An attempt, told from the breaker's history: refused, it is skipped and only the asking is recorded; admitted,
      it succeeds with an answer, recorded as a success, and fails without one, recorded as a failure. */
  lemma AttemptExtendsTheHistory(c: CB.Config, h: seq<CB.Event>, t: Attempt)
    requires CB.Positive(c)
    ensures var admitted, v := CB.MayTry(c, h, t.allowAt), Judge(c, CB.After(c, h), t);
            && (v.Skipped? <==> !admitted)
            && (v.Succeeded? <==> admitted && t.answer.Some?)
            && (v.Failed? <==> admitted && t.answer.None?)
            && Attempted(c, CB.After(c, h), t) == CB.After(c, h + EventsOf(t, admitted))
  {
    hide CB.Step, CB.MayTry;
    CB.AdmittedIffMayTry(c, h, t.allowAt);
    var asked := h + [CB.Allow(t.allowAt)];
    assert asked[..|h|] == h;
    if CB.MayTry(c, h, t.allowAt) {
      var told := h + EventsOf(t, true);
      assert told[..|asked|] == asked;
    }
  }

  datatype Metrics = Metrics(skipped: nat, failed: nat, succeeded: nat, failovers: nat)

  ghost predicate Counts(m: Metrics, trail: seq<(nat, Verdict)>, n: nat) {
    && m.skipped == Tally(trail, Skipped)
    && m.failed == Tally(trail, Failed)
    && m.succeeded == Tally(trail, Succeeded)
    && m.failovers == m.failed - if |trail| == n && n > 0 && trail[n - 1].1.Failed? then 1 else 0
  }

  // One entry: ask the breaker, call the provider if admitted, record the outcome.
  method TryEntry(cb: CB.CircuitBreaker, t: Attempt) returns (v: Verdict)
    modifies cb
    ensures v == Judge(cb.Cfg(), old(cb.View()), t) && (v.Succeeded? ==> t.answer.Some?)
    ensures cb.View() == Attempted(cb.Cfg(), old(cb.View()), t)
  {
    var allowed := cb.TryAllow(t.allowAt);
    if !allowed {
      return Skipped;
    }
    if t.answer.Some? {
      cb.RecordSuccess(t.recordAt);
      return Succeeded;
    }
    cb.RecordFailure(t.recordAt);
    return Failed;
  }

  function Count(m: Metrics, v: Verdict, last: bool): Metrics {
    match v
    case Skipped => m.(skipped := m.skipped + 1)
    case Succeeded => m.(succeeded := m.succeeded + 1)
    case Failed => m.(failed := m.failed + 1, failovers := m.failovers + if last then 0 else 1)
  }

  lemma CountStep(m: Metrics, trail: seq<(nat, Verdict)>, v: Verdict, n: nat)
    requires Counts(m, trail, n) && |trail| < n
    ensures Counts(Count(m, v, |trail| == n - 1), trail + [(|trail|, v)], n)
  {
    assert (trail + [(|trail|, v)])[..|trail|] == trail;
  }

  lemma NoCounts(n: nat)
    ensures Counts(Metrics(0, 0, 0, 0), [], n)
  {
  }

  lemma CountsTotal(m: Metrics, trail: seq<(nat, Verdict)>, n: nat)
    requires Counts(m, trail, n)
    ensures m.skipped + m.failed + m.succeeded == |trail|
  {
    TallyTotals(trail);
  }

  // Entries below `done` have been attempted, the others are as they were.
  twostate predicate Progress(entries: seq<PoolEntry>, attempts: seq<Attempt>, trail: seq<(nat, Verdict)>)
    requires |attempts| == |entries| && |trail| <= |entries|
    requires forall i :: 0 <= i < |entries| ==> entries[i].cb != null
    reads set i | 0 <= i < |entries| :: entries[i].cb
  {
    forall i :: 0 <= i < |entries| ==>
      var cb := entries[i].cb;
      if i < |trail| then
        && trail[i].1 == Judge(cb.Cfg(), old(cb.View()), attempts[i])
        && cb.View() == Attempted(cb.Cfg(), old(cb.View()), attempts[i])
      else cb.View() == old(cb.View())
  }

  /** Walks the entries in priority order: skips refused ones, fails over past failed ones, returns the
      first success, and leaves the breakers after it as they were. */
  method DescribeImage(pool: Pool, attempts: seq<Attempt>)
    returns (r: Result<string, PoolError>, trail: seq<(nat, Verdict)>, metrics: Metrics)
    requires pool.Valid() && |attempts| == pool.providers.Length
    modifies set i | 0 <= i < pool.providers.Length :: pool.providers[i].cb
    ensures |trail| <= |attempts| && InOrder(trail)
    ensures Progress(pool.providers[..], attempts, trail)
    ensures r.Success? <==> LastSucceeded(trail)
    ensures r.Success? ==> attempts[|trail| - 1].answer == Some(r.value)
    ensures r.Failure? ==> |trail| == |attempts| && r.error == AllFailed(|trail|)
    ensures Counts(metrics, trail, |attempts|)
    ensures metrics.skipped + metrics.failed + metrics.succeeded == |trail|
  {
    hide Attempted, Judge, CB.Step, CB.Admits, Tally, Counts;
    var n := pool.providers.Length;
    assert Counts(Metrics(0, 0, 0, 0), [], n) by { NoCounts(n); }
    trail, metrics := [], Metrics(0, 0, 0, 0);
    for i := 0 to n
      invariant |trail| == i
      invariant forall k :: 0 <= k < i ==> trail[k].0 == k && !trail[k].1.Succeeded?
      invariant Progress(pool.providers[..], attempts, trail)
      invariant Counts(metrics, trail, n)
    {
      var v := TryEntry(pool.providers[i].cb, attempts[i]);
      CountStep(metrics, trail, v, n);
      trail := trail + [(i, v)];
      metrics := Count(metrics, v, i == n - 1);
      CountsTotal(metrics, trail, n);
      if v.Succeeded? {
        return Success(attempts[i].answer.value), trail, metrics;
      }
    }
    CountsTotal(metrics, trail, n);
    r := Failure(AllFailed(n));
  }
}
