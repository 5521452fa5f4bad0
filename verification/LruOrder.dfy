/**
  What an LRU cache means: a duplicate-free sequence of key/value pairs, most recent first.
  The theorems characterise a cache driven as the proxy drives it, a lookup and, on a miss, a store.
*/
module LruOrder {
  import opened Basics

  datatype Pair = Pair(key: string, value: string)

  function Keys(s: seq<Pair>): (ks: seq<string>)
    ensures |ks| == |s| && forall i :: 0 <= i < |s| ==> ks[i] == s[i].key
  {
    seq(|s|, i requires 0 <= i < |s| => s[i].key)
  }

  function Drop(ks: seq<string>, k: string): seq<string> {
    if ks == [] then [] else (if ks[0] == k then [] else [ks[0]]) + Drop(ks[1..], k)
  }

  function Without(s: seq<Pair>, k: string): seq<Pair> {
    if s == [] then [] else (if s[0].key == k then [] else [s[0]]) + Without(s[1..], k)
  }

  function Lookup(s: seq<Pair>, k: string): Option<string> {
    if s == [] then None else if s[0].key == k then Some(s[0].value) else Lookup(s[1..], k)
  }

  function Prefix<T>(s: seq<T>, n: nat): seq<T> {
    if n <= |s| then s[..n] else s
  }

  // Get: a hit moves the pair to the front, a miss changes nothing.
  function Touched(s: seq<Pair>, k: string): seq<Pair> {
    match Lookup(s, k)
    case None => s
    case Some(v) => [Pair(k, v)] + Without(s, k)
  }

  // Put: overwrite and move to the front, or push to the front and drop the oldest beyond cap.
  function Stored(s: seq<Pair>, cap: nat, k: string, v: string): seq<Pair> {
    if Lookup(s, k).Some? then [Pair(k, v)] + Without(s, k) else Prefix([Pair(k, v)] + s, cap)
  }

  lemma {:induction false} LookupIsMembership(s: seq<Pair>, k: string)
    ensures Lookup(s, k).Some? <==> k in Keys(s)
    ensures Lookup(s, k).Some? ==> Pair(k, Lookup(s, k).value) in s
  {
    if s != [] {
      LookupIsMembership(s[1..], k);
      assert Keys(s) == [s[0].key] + Keys(s[1..]);
    }
  }

  lemma {:induction false} WithoutKeys(s: seq<Pair>, k: string)
    ensures Keys(Without(s, k)) == Drop(Keys(s), k)
  {
    if s != [] {
      WithoutKeys(s[1..], k);
      assert Keys(s)[1..] == Keys(s[1..]);
    }
  }

  lemma {:induction false} DropFacts(ks: seq<string>, k: string)
    requires Distinct(ks)
    ensures Distinct(Drop(ks, k))
    ensures Elements(Drop(ks, k)) == Elements(ks) - {k}
    ensures |Drop(ks, k)| == |ks| - if k in ks then 1 else 0
  {
    if ks != [] {
      var head, rest := [ks[0]], ks[1..];
      DropFacts(rest, k);
      assert ks == head + rest;
      ElementsConcat(head, rest);
      ElementsConcat(head, Drop(rest, k));
      assert Elements(head) == {ks[0]};
      assert ks[0] !in Elements(rest);
      assert ks[0] !in Elements(Drop(rest, k));
    }
  }

  // ---------- A driven cache ----------

  // One access: get, and on a miss put the freshly obtained description.
  function Access(s: seq<Pair>, cap: nat, a: Pair): seq<Pair> {
    if Lookup(s, a.key).Some? then Touched(s, a.key) else Stored(s, cap, a.key, a.value)
  }

  function Driven(cap: nat, accesses: seq<Pair>): seq<Pair> {
    if accesses == [] then []
    else Access(Driven(cap, accesses[..|accesses| - 1]), cap, accesses[|accesses| - 1])
  }

  // Every key ever accessed, once, the most recently accessed first.
  function Recency(ks: seq<string>): seq<string> {
    if ks == [] then []
    else [ks[|ks| - 1]] + Drop(Recency(ks[..|ks| - 1]), ks[|ks| - 1])
  }

  lemma RecencySnoc(ks: seq<string>, k: string)
    ensures Recency(ks + [k]) == [k] + Drop(Recency(ks), k)
  {
    assert (ks + [k])[..|ks|] == ks;
  }

  lemma {:induction false} RecencyIsDistinct(ks: seq<string>)
    ensures Distinct(Recency(ks)) && Elements(Recency(ks)) == Elements(ks)
  {
    if ks != [] {
      var front, k := ks[..|ks| - 1], ks[|ks| - 1];
      RecencyIsDistinct(front);
      DropFacts(Recency(front), k);
      var rest := Drop(Recency(front), k);
      assert k !in Elements(rest);
      assert ks == front + [k];
      ElementsConcat(front, [k]);
      ElementsConcat([k], rest);
      assert Elements([k]) == {k};
    }
  }

  lemma {:induction false} DropAbsent(r: seq<string>, k: string)
    requires k !in r
    ensures Drop(r, k) == r
  {
    if r != [] {
      DropAbsent(r[1..], k);
    }
  }

  lemma {:induction false} DropAt(r: seq<string>, j: nat)
    requires Distinct(r) && j < |r|
    ensures Drop(r, r[j]) == r[..j] + r[j + 1..]
  {
    var t := r[1..];
    if j == 0 {
      DropAbsent(t, r[0]);
    } else {
      DropAt(t, j - 1);
      assert r[..j] == [r[0]] + t[..j - 1];
      assert t[j..] == r[j + 1..];
    }
  }

  // Moving a key to the front commutes with cutting off at cap, if the key lies within the cut ...
  lemma PrefixOfTouched(r: seq<string>, cap: nat, k: string)
    requires Distinct(r) && k in Prefix(r, cap)
    ensures Prefix([k] + Drop(r, k), cap) == [k] + Drop(Prefix(r, cap), k)
  {
    var p := Prefix(r, cap);
    var j :| 0 <= j < |p| && p[j] == k;
    DropAt(r, j);
    DropAt(p, j);
    hide Drop;
    if cap < |r| {
      assert p[..j] == r[..j] && p[j + 1..] == r[j + 1..cap];
      assert ([k] + (r[..j] + r[j + 1..]))[..cap] == [k] + (r[..j] + r[j + 1..cap]);
    }
  }

  // ... and otherwise the key displaces whatever falls off the end.
  lemma PrefixOfStored(r: seq<string>, cap: nat, k: string)
    requires Distinct(r) && k !in Prefix(r, cap)
    ensures Prefix([k] + Drop(r, k), cap) == Prefix([k] + Prefix(r, cap), cap)
  {
    if k in r {
      var j :| 0 <= j < |r| && r[j] == k;
      DropAt(r, j);
      assert forall i :: 0 <= i < |r| && i < cap ==> Prefix(r, cap)[i] == r[i];
      assert j >= cap;
    } else {
      DropAbsent(r, k);
    }
  }

  lemma AccessKeys(s: seq<Pair>, cap: nat, a: Pair)
    ensures Keys(Access(s, cap, a)) ==
            if a.key in Keys(s) then [a.key] + Drop(Keys(s), a.key) else Prefix([a.key] + Keys(s), cap)
  {
    LookupIsMembership(s, a.key);
    WithoutKeys(s, a.key);
  }

  lemma KeysSnoc(s: seq<Pair>)
    requires s != []
    ensures Keys(s) == Keys(s[..|s| - 1]) + [s[|s| - 1].key]
  {
  }

  lemma MostRecentStep(s: seq<Pair>, cap: nat, a: Pair, ks: seq<string>)
    requires Keys(s) == Prefix(Recency(ks), cap)
    ensures Keys(Access(s, cap, a)) == Prefix(Recency(ks + [a.key]), cap)
  {
    hide Access, Recency, Drop, Keys;
    AccessKeys(s, cap, a);
    RecencyIsDistinct(ks);
    RecencySnoc(ks, a.key);
    if a.key in Prefix(Recency(ks), cap) {
      PrefixOfTouched(Recency(ks), cap, a.key);
    } else {
      PrefixOfStored(Recency(ks), cap, a.key);
    }
  }

  /** The driven cache holds exactly the `cap` most recently accessed distinct keys, in that order. */
  lemma {:induction false} DrivenHoldsMostRecent(cap: nat, accesses: seq<Pair>)
    ensures Keys(Driven(cap, accesses)) == Prefix(Recency(Keys(accesses)), cap)
  {
    if accesses != [] {
      hide Access, Recency, Prefix, Keys;
      var front, a := accesses[..|accesses| - 1], accesses[|accesses| - 1];
      DrivenHoldsMostRecent(cap, front);
      MostRecentStep(Driven(cap, front), cap, a, Keys(front));
      KeysSnoc(accesses);
    }
  }

  // The keys accessed after position p.
  function Since(ks: seq<string>, p: nat): set<string>
    requires p < |ks|
  {
    Elements(ks[p + 1..])
  }

  ghost predicate LastAccess(ks: seq<string>, k: string, p: nat) {
    p < |ks| && ks[p] == k && k !in ks[p + 1..]
  }

  // Dropping x from ahead of position j leaves the key at j with x gone from ahead of it.
  lemma DropAhead(r: seq<string>, x: string, j: nat) returns (m: nat)
    requires Distinct(r) && j < |r| && x != r[j]
    ensures m < |Drop(r, x)| && Drop(r, x)[m] == r[j]
    ensures Elements(Drop(r, x)[..m]) == Elements(r[..j]) - {x}
  {
    hide Drop;
    var d := Drop(r, x);
    m := j;
    if x in r {
      var q :| 0 <= q < |r| && r[q] == x;
      DropAt(r, q);
      if q < j {
        m := j - 1;
        assert d[..m] == r[..q] + r[q + 1..j];
        assert r[..j] == r[..q] + [x] + r[q + 1..j];
        ElementsConcat(r[..q] + [x], r[q + 1..j]);
        ElementsConcat(r[..q], [x]);
        ElementsConcat(r[..q], r[q + 1..j]);
      } else {
        assert d[..m] == r[..j];
      }
    } else {
      DropAbsent(r, x);
    }
  }

  // One more access, to another key x, puts x ahead of the key at position j.
  lemma AheadStep(r: seq<string>, x: string, j: nat, since: set<string>) returns (i: nat)
    requires Distinct(r) && j < |r| && x != r[j] && Elements(r[..j]) == since
    ensures i < |[x] + Drop(r, x)| && ([x] + Drop(r, x))[i] == r[j]
    ensures Elements(([x] + Drop(r, x))[..i]) == since + {x}
  {
    var d := Drop(r, x);
    var m := DropAhead(r, x, j);
    i := m + 1;
    assert ([x] + d)[..i] == [x] + d[..m];
    ElementsConcat([x], d[..m]);
    assert Elements([x]) == {x};
  }

  lemma SinceStep(ks: seq<string>, p: nat)
    requires p + 1 < |ks|
    ensures Since(ks, p) == Since(ks[..|ks| - 1], p) + {ks[|ks| - 1]}
  {
    var n := |ks| - 1;
    assert ks[p + 1..] == ks[..n][p + 1..] + [ks[n]];
    ElementsConcat(ks[..n][p + 1..], [ks[n]]);
    assert Elements([ks[n]]) == {ks[n]};
  }

  lemma LastAccessStep(ks: seq<string>, k: string, p: nat)
    requires LastAccess(ks, k, p) && ks[|ks| - 1] != k
    ensures p + 1 < |ks| && LastAccess(ks[..|ks| - 1], k, p)
  {
    var n := |ks| - 1;
    assert ks[..n][p + 1..] == ks[p + 1..][..n - p - 1];
  }

  // In recency order, the keys ahead of k are those accessed since k was.
  lemma {:induction false} AheadOfKey(ks: seq<string>, k: string, p: nat) returns (i: nat)
    requires LastAccess(ks, k, p)
    ensures i < |Recency(ks)| && Recency(ks)[i] == k
    ensures Elements(Recency(ks)[..i]) == Since(ks, p)
  {
    var front, x := ks[..|ks| - 1], ks[|ks| - 1];
    if x == k {
      i := 0;
      LastAccessIsUnique(ks, k, p, |ks| - 1);
    } else {
      hide LastAccess, Since, Elements, Drop;
      LastAccessStep(ks, k, p);
      var j := AheadOfKey(front, k, p);
      RecencyIsDistinct(front);
      SinceStep(ks, p);
      i := AheadStep(Recency(front), x, j, Since(front, p));
    }
  }

  lemma LastAccessIsUnique(ks: seq<string>, k: string, p: nat, q: nat)
    requires LastAccess(ks, k, p) && LastAccess(ks, k, q) && p <= q
    ensures p == q
  {
    forall i | p < i < |ks| ensures ks[i] in ks[p + 1..] {
      assert ks[p + 1..][i - p - 1] == ks[i];
    }
  }

  /** A lookup hits if and only if the key was accessed before and fewer than `cap` other keys have been
      accessed since. */
  lemma HitIffFewKeysSince(cap: nat, accesses: seq<Pair>, k: string)
    ensures Lookup(Driven(cap, accesses), k).Some? <==>
            exists p: nat :: LastAccess(Keys(accesses), k, p) && |Since(Keys(accesses), p)| < cap
  {
    var ks := Keys(accesses);
    var r := Recency(ks);
    DrivenHoldsMostRecent(cap, accesses);
    LookupIsMembership(Driven(cap, accesses), k);
    RecencyIsDistinct(ks);
    assert k in ks <==> k in Elements(ks);
    assert k in r <==> k in Elements(r);
    if k in ks {
      var p := LastIndex(ks, k);
      var j := AheadOfKey(ks, k, p);
      DistinctSize(r[..j]);
      assert k in Prefix(r, cap) <==> j < cap by {
        assert j < cap ==> Prefix(r, cap)[j] == k;
      }
      forall q: nat | LastAccess(ks, k, q) ensures q == p {
        LastAccessIsUnique(ks, k, Min(p, q), Max(p, q));
      }
    }
  }

  lemma {:induction false} LastIndex(ks: seq<string>, k: string) returns (p: nat)
    requires k in ks
    ensures LastAccess(ks, k, p)
  {
    if ks[|ks| - 1] == k {
      p := |ks| - 1;
    } else {
      var front := ks[..|ks| - 1];
      assert ks == front + [ks[|ks| - 1]];
      p := LastIndex(front, k);
      assert ks[p + 1..] == front[p + 1..] + [ks[|ks| - 1]];
    }
  }

  /** A larger cache holds everything a smaller one does: no access that hits would miss with more room. */
  lemma LargerCacheNeverLosesAHit(cap: nat, larger: nat, accesses: seq<Pair>, k: string)
    requires cap <= larger
    ensures Keys(Driven(cap, accesses)) <= Keys(Driven(larger, accesses))
    ensures Lookup(Driven(cap, accesses), k).Some? ==> Lookup(Driven(larger, accesses), k).Some?
  {
    DrivenHoldsMostRecent(cap, accesses);
    DrivenHoldsMostRecent(larger, accesses);
    LookupIsMembership(Driven(cap, accesses), k);
    LookupIsMembership(Driven(larger, accesses), k);
  }

  // ---------- Any Gets and Puts ----------

  datatype Call = Got(key: string) | Did(pair: Pair)

  function Served(cap: nat, calls: seq<Call>): seq<Pair> {
    if calls == [] then []
    else
      var s := Served(cap, calls[..|calls| - 1]);
      match calls[|calls| - 1]
      case Got(k) => Touched(s, k)
      case Did(p) => Stored(s, cap, p.key, p.value)
  }

  // The keys used, in order: every Put uses its key, an overwrite too, and a Get if the key is among the cap most
  // recently used ones.
  function Uses(cap: nat, calls: seq<Call>): seq<string> {
    if calls == [] then []
    else
      var before := Uses(cap, calls[..|calls| - 1]);
      match calls[|calls| - 1]
      case Did(p) => before + [p.key]
      case Got(k) => if k in Prefix(Recency(before), cap) then before + [k] else before
  }

  lemma TouchedKeys(s: seq<Pair>, k: string)
    ensures Keys(Touched(s, k)) == if k in Keys(s) then [k] + Drop(Keys(s), k) else Keys(s)
  {
    hide Lookup, Without, Drop;
    LookupIsMembership(s, k);
    WithoutKeys(s, k);
  }

  lemma StoredKeys(s: seq<Pair>, cap: nat, k: string, v: string)
    ensures Keys(Stored(s, cap, k, v)) == if k in Keys(s) then [k] + Drop(Keys(s), k) else Prefix([k] + Keys(s), cap)
  {
    LookupIsMembership(s, k);
    WithoutKeys(s, k);
  }

  /** After any Gets and Puts the cache holds exactly the cap most recently used distinct keys, in that order. */
  lemma {:induction false} ServedHoldsMostRecent(cap: nat, calls: seq<Call>)
    ensures Keys(Served(cap, calls)) == Prefix(Recency(Uses(cap, calls)), cap)
  {
    if calls != [] {
      hide Touched, Stored, Drop, Recency, Keys;
      var front, call := calls[..|calls| - 1], calls[|calls| - 1];
      var s, uses := Served(cap, front), Uses(cap, front);
      var k := if call.Got? then call.key else call.pair.key;
      ServedHoldsMostRecent(cap, front);
      RecencyIsDistinct(uses);
      RecencySnoc(uses, k);
      TouchedKeys(s, k);
      if k in Prefix(Recency(uses), cap) {
        PrefixOfTouched(Recency(uses), cap, k);
      } else {
        PrefixOfStored(Recency(uses), cap, k);
      }
      if call.Did? {
        StoredKeys(s, cap, k, call.pair.value);
      }
    } else {
      assert Keys([]) == [] && Recency([]) == [];
    }
  }

  // The value the last Put of the key gave it, or None.
  function LastStored(calls: seq<Call>, k: string): Option<string> {
    if calls == [] then None
    else
      var last := calls[|calls| - 1];
      if last.Did? && last.pair.key == k then Some(last.pair.value) else LastStored(calls[..|calls| - 1], k)
  }

  lemma {:induction false} LookupWithout(s: seq<Pair>, k: string, j: string)
    requires j != k
    ensures Lookup(Without(s, k), j) == Lookup(s, j)
  {
    if s != [] {
      LookupWithout(s[1..], k, j);
      assert [] + Without(s[1..], k) == Without(s[1..], k);
      assert ([s[0]] + Without(s[1..], k))[1..] == Without(s[1..], k);
    }
  }

  lemma {:induction false} LookupPrefix(s: seq<Pair>, n: nat, j: string)
    ensures Lookup(Prefix(s, n), j).Some? ==> Lookup(Prefix(s, n), j) == Lookup(s, j)
  {
    if s != [] && n > 0 {
      LookupPrefix(s[1..], n - 1, j);
      assert Prefix(s, n)[1..] == Prefix(s[1..], n - 1);
    }
  }

  lemma LookupFirst(s: seq<Pair>, p: Pair, j: string)
    ensures Lookup([p] + s, j) == if p.key == j then Some(p.value) else Lookup(s, j)
  {
    assert ([p] + s)[1..] == s;
  }

  // A call leaves under each key what was there, or nothing, or what it stored.
  lemma CallLookup(s: seq<Pair>, cap: nat, call: Call, j: string)
    ensures var t := if call.Got? then Touched(s, call.key) else Stored(s, cap, call.pair.key, call.pair.value);
            var r := Lookup(t, j);
            r.Some? ==> r == if call.Did? && call.pair.key == j then Some(call.pair.value) else Lookup(s, j)
  {
    hide Lookup, Without;
    var k := if call.Got? then call.key else call.pair.key;
    var p := if call.Got? then Pair(k, if Lookup(s, k).Some? then Lookup(s, k).value else "") else call.pair;
    LookupFirst(Without(s, k), p, j);
    LookupFirst(s, p, j);
    LookupPrefix([p] + s, cap, j);
    if j != k {
      LookupWithout(s, k, j);
    }
  }

  /** A Get answers the value of the last Put of its key, or misses; it hits if and only if the key is among the
      cap most recently used ones. */
  lemma {:induction false} AnswersAreLastStored(cap: nat, calls: seq<Call>, k: string)
    ensures Lookup(Served(cap, calls), k).Some? ==> Lookup(Served(cap, calls), k) == LastStored(calls, k)
    ensures Lookup(Served(cap, calls), k).Some? <==> k in Prefix(Recency(Uses(cap, calls)), cap)
  {
    ServedHoldsMostRecent(cap, calls);
    LookupIsMembership(Served(cap, calls), k);
    if calls != [] {
      hide Lookup, Touched, Stored, Recency, Uses;
      AnswersAreLastStored(cap, calls[..|calls| - 1], k);
      CallLookup(Served(cap, calls[..|calls| - 1]), cap, calls[|calls| - 1], k);
    } else {
      assert Lookup([], k) == None;
    }
  }

  // The calls the proxy's accesses amount to: a Get, and after a miss a Put of what was obtained.
  function CallsOf(cap: nat, accesses: seq<Pair>): seq<Call> {
    if accesses == [] then []
    else
      var front, a := accesses[..|accesses| - 1], accesses[|accesses| - 1];
      CallsOf(cap, front) + if Lookup(Driven(cap, front), a.key).Some? then [Got(a.key)] else [Got(a.key), Did(a)]
  }

  lemma ServedSnoc(cap: nat, calls: seq<Call>, call: Call)
    ensures Served(cap, calls + [call]) ==
            if call.Got? then Touched(Served(cap, calls), call.key)
            else Stored(Served(cap, calls), cap, call.pair.key, call.pair.value)
  {
    assert (calls + [call])[..|calls|] == calls;
  }

  /** So the driven cache is the cache after these Gets and Puts, values included. */
  lemma {:induction false} DrivenIsServed(cap: nat, accesses: seq<Pair>)
    ensures Driven(cap, accesses) == Served(cap, CallsOf(cap, accesses))
  {
    if accesses != [] {
      hide Lookup, Stored, Served;
      var front, a := accesses[..|accesses| - 1], accesses[|accesses| - 1];
      var calls := CallsOf(cap, front);
      DrivenIsServed(cap, front);
      ServedSnoc(cap, calls, Got(a.key));
      ServedSnoc(cap, calls + [Got(a.key)], Did(a));
      assert calls + [Got(a.key), Did(a)] == calls + [Got(a.key)] + [Did(a)];
    } else {
      assert Served(cap, []) == [];
    }
  }
}
