/** Shared vocabulary: optional values, fallible results and a few facts about sequences. */
module Basics {
  datatype Option<+T> = None | Some(value: T)

  datatype Result<+T, +E> = Success(value: T) | Failure(error: E)

  function Min(a: int, b: int): (m: int)
    ensures m <= a && m <= b && (m == a || m == b)
  {
    if a <= b then a else b
  }

  function Max(a: int, b: int): (m: int)
    ensures m >= a && m >= b && (m == a || m == b)
  {
    if a >= b then a else b
  }

  ghost predicate Distinct<T>(s: seq<T>) {
    forall i, j :: 0 <= i < j < |s| ==> s[i] != s[j]
  }

  // The elements of a sequence, as a set.
  function Elements<T>(s: seq<T>): set<T> {
    set x | x in s
  }

  lemma ElementsConcat<T>(a: seq<T>, b: seq<T>)
    ensures Elements(a + b) == Elements(a) + Elements(b)
  {
  }

  /** A duplicate-free sequence has as many elements as its set. */
  lemma {:induction false} DistinctSize<T>(s: seq<T>)
    requires Distinct(s)
    ensures |Elements(s)| == |s|
  {
    if s != [] {
      var front, last := s[..|s| - 1], s[|s| - 1];
      DistinctSize(front);
      assert s == front + [last];
      assert last !in Elements(front);
      ElementsConcat(front, [last]);
      assert Elements([last]) == {last};
    }
  }

  // The sum of f over the values of a map.
  ghost function Total<K, V>(f: V -> nat, m: map<K, V>): nat {
    if m == map[] then 0
    else
      var k :| k in m;
      f(m[k]) + Total(f, m - {k})
  }

  lemma {:induction false} TotalWithout<K, V>(f: V -> nat, m: map<K, V>, k: K)
    requires k in m
    ensures Total(f, m) == f(m[k]) + Total(f, m - {k})
    decreases |m|
  {
    var j :| j in m && Total(f, m) == f(m[j]) + Total(f, m - {j});
    if j != k {
      TotalWithout(f, m - {j}, k);
      TotalWithout(f, m - {k}, j);
      assert m - {j} - {k} == m - {k} - {j};
      assert (m - {j})[k] == m[k] && (m - {k})[j] == m[j];
    }
  }

  lemma TotalUpdate<K, V>(f: V -> nat, m: map<K, V>, k: K, v: V)
    ensures Total(f, m[k := v]) == Total(f, m) + f(v) - if k in m then f(m[k]) else 0
  {
    var m' := m[k := v];
    TotalWithout(f, m', k);
    if k in m {
      TotalWithout(f, m, k);
    }
    assert m' - {k} == m - {k};
    assert k !in m ==> m - {k} == m;
  }

  lemma {:induction false} TotalZero<K, V>(f: V -> nat, m: map<K, V>)
    requires forall k :: k in m ==> f(m[k]) == 0
    ensures Total(f, m) == 0
    decreases |m|
  {
    if m != map[] {
      var k :| k in m && Total(f, m) == f(m[k]) + Total(f, m - {k});
      TotalZero(f, m - {k});
    }
  }
}
