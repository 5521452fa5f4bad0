/**
  The LRU cache as it is built: a circular doubly linked list with a sentinel, most recent element
  next to the sentinel, and a map from keys to list elements. Proved to refine `LruOrder`.
*/
module Lru {
  import opened Basics
  import opened LruOrder

  class Element {
    var prev: Element?
    var next: Element?
    const key: string
    var value: string

    constructor (key: string, value: string)
      ensures this.key == key && this.value == value
    {
      this.key, this.value := key, value;
      prev, next := null, null;
    }
  }

  // The elements form a ring in this order.
  ghost predicate Linked(ring: seq<Element>)
    reads ring`prev, ring`next
  {
    && (forall i {:trigger ring[i].next} :: 0 <= i < |ring| ==>
        ring[i].next == ring[if i + 1 < |ring| then i + 1 else 0])
    && (forall i {:trigger ring[i].prev} :: 0 <= i < |ring| ==>
        ring[i].prev == ring[if i > 0 then i - 1 else |ring| - 1])
  }

  // Takes element k out of the ring by joining its neighbours.
  method Unlink(ghost ring: seq<Element>, e: Element, ghost k: nat) returns (ghost rest: seq<Element>)
    requires Distinct(ring) && Linked(ring) && 1 <= k < |ring| && ring[k] == e
    requires e.prev != null && e.next != null
    modifies e.prev`next, e.next`prev
    ensures rest == ring[..k] + ring[k + 1..] && Linked(rest)
  {
    ghost var b, a := k - 1, if k + 1 < |ring| then k + 1 else 0;
    assert ring[b] == e.prev && ring[a] == e.next;
    e.prev.next := e.next;
    e.next.prev := e.prev;
    rest := ring[..k] + ring[k + 1..];
    forall i | 0 <= i < |rest| ensures rest[i].next == rest[if i + 1 < |rest| then i + 1 else 0] {
      assert rest[i] == ring[if i < k then i else i + 1];
    }
    forall i | 0 <= i < |rest| ensures rest[i].prev == rest[if i > 0 then i - 1 else |rest| - 1] {
      assert rest[i] == ring[if i < k then i else i + 1];
    }
  }

  // The ring after its k-th element moves next to the sentinel, and where each element came from.
  ghost function Moved(ring: seq<Element>, k: nat): (r: seq<Element>)
    requires 1 <= k < |ring|
    ensures |r| == |ring|
  {
    [ring[0], ring[k]] + ring[1..k] + ring[k + 1..]
  }

  lemma MovedFrom(ring: seq<Element>, k: nat, j: nat)
    requires 1 <= k < |ring| && j < |ring|
    ensures Moved(ring, k)[j] == ring[if j == 0 then 0 else if j == 1 then k else if j <= k then j - 1 else j]
  {
  }

  // The recency sequence after its i-th pair becomes the most recent.
  ghost function Rotated(s: seq<Pair>, i: nat): (r: seq<Pair>)
    requires i < |s|
    ensures |r| == |s|
  {
    [s[i]] + s[..i] + s[i + 1..]
  }

  lemma RotatedFrom(s: seq<Pair>, i: nat, j: nat)
    requires i < |s| && j < |s|
    ensures Rotated(s, i)[j] == s[if j == 0 then i else if j <= i then j - 1 else j]
  {
  }

  lemma MovedElements(ring: seq<Element>, k: nat, x: Element)
    requires 1 <= k < |ring|
    ensures x in Moved(ring, k) <==> x in ring
  {
    if x in ring {
      var j :| 0 <= j < |ring| && ring[j] == x;
      MovedFrom(ring, k, if j == 0 then 0 else if j < k then j + 1 else if j == k then 1 else j);
    }
    if x in Moved(ring, k) {
      var j :| 0 <= j < |ring| && Moved(ring, k)[j] == x;
      MovedFrom(ring, k, j);
    }
  }

  class List {
    const root: Element
    var len: nat
    ghost var ring: seq<Element>  // the sentinel, then the elements from front to back

    ghost predicate Valid()
      reads this, ring
    {
      && ring != [] && ring[0] == root
      && Distinct(ring) && Linked(ring)
      && len == |ring| - 1
    }

    constructor ()
      ensures Valid() && ring == [root] && fresh(root)
    {
      var sentinel := new Element("", "");
      sentinel.prev, sentinel.next := sentinel, sentinel;
      root, len, ring := sentinel, 0, [sentinel];
    }

    method PushFront(e: Element)
      requires Valid() && e !in ring
      modifies this, ring`prev, ring`next, e`prev, e`next
      ensures Valid() && ring == [root, e] + old(ring)[1..]
    {
      ghost var was, n := ring, |ring|;
      assert ring[if 1 < n then 1 else 0] == root.next && ring[n - 1] == root.prev;
      e.prev, e.next := root, root.next;
      e.prev.next := e;
      e.next.prev := e;
      len := len + 1;
      ring := [root, e] + was[1..];
      forall i | 0 <= i < |ring| ensures ring[i].next == ring[if i + 1 < |ring| then i + 1 else 0] {
        assert i > 1 ==> ring[i] == was[i - 1];
      }
      forall i | 0 <= i < |ring| ensures ring[i].prev == ring[if i > 0 then i - 1 else |ring| - 1] {
        assert i > 1 ==> ring[i] == was[i - 1];
      }
    }

    method Remove(e: Element, ghost k: nat)
      requires Valid() && 1 <= k < |ring| && ring[k] == e
      modifies this, ring`prev, ring`next
      ensures Valid() && ring == old(ring)[..k] + old(ring)[k + 1..] && e !in ring
    {
      assert ring[k - 1] == e.prev && ring[if k + 1 < |ring| then k + 1 else 0] == e.next;
      ghost var rest := Unlink(ring, e, k);
      assert e !in rest;
      e.prev, e.next := null, null;
      len := len - 1;
      ring := rest;
    }

    method MoveToFront(e: Element, ghost k: nat)
      requires Valid() && 1 <= k < |ring| && ring[k] == e
      modifies this, ring`prev, ring`next
      ensures Valid() && ring == Moved(old(ring), k)
    {
      assert ring[1] == root.next;
      if root.next == e {
        return;
      }
      Remove(e, k);
      PushFront(e);
    }

    method Back() returns (e: Element?)
      requires Valid()
      ensures len == 0 ==> e == null
      ensures len > 0 ==> e == ring[|ring| - 1]
    {
      return if len == 0 then null else root.prev;
    }
  }

  function PairOf(e: Element): Pair
    reads e`value
  {
    Pair(e.key, e.value)
  }

  ghost predicate KeysDiffer(s: seq<Pair>) {
    forall i, j :: 0 <= i < j < |s| ==> s[i].key != s[j].key
  }

  lemma {:induction false} WithoutAbsent(s: seq<Pair>, k: string)
    requires forall i :: 0 <= i < |s| ==> s[i].key != k
    ensures Without(s, k) == s && Lookup(s, k) == None
  {
    if s != [] {
      WithoutAbsent(s[1..], k);
    }
  }

  lemma KeysStillDiffer(s: seq<Pair>)
    requires KeysDiffer(s) && s != []
    ensures KeysDiffer(s[1..]) && forall i :: 0 <= i < |s| - 1 ==> s[1..][i].key != s[0].key
  {
  }

  lemma {:induction false} WithoutAt(s: seq<Pair>, j: nat)
    requires KeysDiffer(s) && j < |s|
    ensures Without(s, s[j].key) == s[..j] + s[j + 1..]
    ensures Lookup(s, s[j].key) == Some(s[j].value)
  {
    KeysStillDiffer(s);
    if j == 0 {
      WithoutAbsent(s[1..], s[0].key);
    } else {
      hide KeysDiffer;
      WithoutAt(s[1..], j - 1);
      assert s[..j] + s[j + 1..] == [s[0]] + (s[1..][..j - 1] + s[1..][j..]);
    }
  }

  lemma PresentAt(s: seq<Pair>, j: nat)
    requires KeysDiffer(s) && j < |s|
    ensures Rotated(s, j) == [s[j]] + Without(s, s[j].key)
    ensures Lookup(s, s[j].key) == Some(s[j].value)
  {
    hide Without, Lookup, KeysDiffer;
    WithoutAt(s, j);
    assert [s[j]] + s[..j] + s[j + 1..] == [s[j]] + (s[..j] + s[j + 1..]);
  }

  // Every element after the sentinel is filed under its key, and every filed element is one of them.
  ghost predicate Filed(ring: seq<Element>, items: map<string, Element>)
    requires ring != []
  {
    && (forall e :: e in ring && e != ring[0] ==> e.key in items && items[e.key] == e)
    && (forall k :: k in items ==> items[k].key == k && items[k] in ring && items[k] != ring[0])
  }

  lemma FiledWithoutLast(ring: seq<Element>, items: map<string, Element>)
    requires |ring| > 1 && Distinct(ring) && Filed(ring, items)
    ensures Filed(ring[..|ring| - 1], items - {ring[|ring| - 1].key})
  {
    var n := |ring| - 1;
    assert ring == ring[..n] + [ring[n]] && ring[n] in ring && ring[n] !in ring[..n];
  }

  lemma FiledWithNew(ring: seq<Element>, items: map<string, Element>, e: Element)
    requires ring != [] && Filed(ring, items) && e !in ring && e.key !in items
    ensures Filed([ring[0], e] + ring[1..], items[e.key := e])
  {
    var all := [ring[0], e] + ring[1..];
    forall x ensures x in all <==> x in ring || x == e {
      assert ring == [ring[0]] + ring[1..];
    }
  }

  class LRU {
    const cap: nat
    const ll: List
    var items: map<string, Element>
    ghost var recency: seq<Pair>  // what the cache holds, most recent first

    // List and map agree one to one: every element is filed under its key, every filed element is on
    // the list; and the list reads, from front to back, as the recency sequence.
    ghost predicate Agree()
      reads this, ll, ll.ring
    {
      && ll.Valid()
      && Filed(ll.ring, items)
      && |recency| == ll.len
      && (forall i {:trigger recency[i]} :: 0 <= i < |recency| ==> recency[i] == PairOf(ll.ring[i + 1]))
    }

    ghost predicate Valid()
      reads this, ll, ll.ring
    {
      Agree() && ll.len <= cap
    }

    ghost function Repr(): set<object>
      reads this, ll
    {
      {this, ll} + Elements(ll.ring)
    }

    constructor (capacity: nat)
      ensures Valid() && recency == [] && cap == capacity && fresh(Repr())
    {
      cap, items, recency := capacity, map[], [];
      ll := new List();
    }

    lemma KeysOnce()
      requires Agree()
      ensures KeysDiffer(recency)
    {
      forall i, j | 0 <= i < j < |recency| ensures recency[i].key != recency[j].key {
        assert ll.ring[i + 1] != ll.ring[j + 1];
      }
    }

    // Where a filed key stands in the recency order.
    lemma Position(k: string) returns (i: nat)
      requires Agree() && k in items
      ensures i < |recency| && ll.ring[i + 1] == items[k] && recency[i] == PairOf(items[k])
    {
      var j :| 0 <= j < |ll.ring| && ll.ring[j] == items[k];
      i := j - 1;
    }

    // The map answers as the recency sequence does.
    lemma MapIsLookup(k: string)
      requires Agree()
      ensures Lookup(recency, k) == if k in items then Some(items[k].value) else None
    {
      KeysOnce();
      if k in items {
        var i := Position(k);
        PresentAt(recency, i);
      } else {
        forall i | 0 <= i < |recency| ensures recency[i].key != k {
          assert ll.ring[i + 1] in ll.ring;
        }
        WithoutAbsent(recency, k);
      }
    }

    /** The map holds exactly as many entries as the list. */
    lemma SameSize()
      requires Agree()
      ensures |items| == ll.len == |recency|
    {
      KeysOnce();
      var ks := Keys(recency);
      DistinctSize(ks);
      forall k ensures k in items.Keys <==> k in Elements(ks) {
        MapIsLookup(k);
        LookupIsMembership(recency, k);
      }
      assert items.Keys == Elements(ks);
    }

    // Makes the element at position i the most recent.
    method Touch(e: Element, ghost i: nat)
      requires Agree() && i < |recency| && ll.ring[i + 1] == e
      modifies this`recency, ll, ll.ring`prev, ll.ring`next
      ensures Agree() && ll.len == old(ll.len) && Elements(ll.ring) == old(Elements(ll.ring))
      ensures recency == Rotated(old(recency), i)
      ensures ll.ring[1] == e
    {
      hide Linked, Moved, Rotated;
      ghost var ring, was := ll.ring, recency;
      ll.MoveToFront(e, i + 1);
      recency := Rotated(was, i);
      MovedFrom(ring, i + 1, 1);
      forall x ensures x in ll.ring <==> x in ring {
        MovedElements(ring, i + 1, x);
      }
      forall j | 0 <= j < |recency| ensures recency[j] == PairOf(ll.ring[j + 1]) {
        MovedFrom(ring, i + 1, j + 1);
        RotatedFrom(was, i, j);
      }
    }

    /** A hit returns the value and makes the key the most recent; a miss changes nothing. */
    method Get(key: string) returns (r: Option<string>)
      requires Valid()
      modifies Repr()
      ensures Valid() && Repr() == old(Repr())
      ensures r == Lookup(old(recency), key)
      ensures recency == Touched(old(recency), key)
    {
      MapIsLookup(key);
      if key in items {
        var e := items[key];
        ghost var i := Position(key);
        KeysOnce();
        PresentAt(recency, i);
        Touch(e, i);
        return Some(e.value);
      }
      return None;
    }

    method RemoveOldest()
      requires Agree() && ll.len > 0
      modifies this, ll, ll.ring`prev, ll.ring`next
      ensures Agree() && ll.len == old(ll.len) - 1 && Elements(ll.ring) <= old(Elements(ll.ring))
      ensures recency == old(recency)[..ll.len]
    {
      var e := ll.Back();
      if e == null {
        return;
      }
      hide Linked, Filed;
      ghost var ring := ll.ring;
      ll.Remove(e, |ll.ring| - 1);
      assert ll.ring == ring[..|ring| - 1];
      FiledWithoutLast(ring, items);
      items := items - {e.key};
      recency := recency[..|recency| - 1];
    }

    method PushNew(key: string, value: string)
      requires Agree() && key !in items
      modifies this, ll, ll.ring`prev, ll.ring`next
      ensures Agree() && ll.len == old(ll.len) + 1 && fresh(Elements(ll.ring) - old(Elements(ll.ring)))
      ensures recency == [Pair(key, value)] + old(recency)
    {
      var e := new Element(key, value);
      hide Linked, Filed;
      FiledWithNew(ll.ring, items, e);
      ll.PushFront(e);
      items := items[key := e];
      recency := [Pair(key, value)] + recency;
    }

    // The front element takes a new value.
    method SetFront(e: Element, value: string)
      requires Agree() && recency != [] && ll.ring[1] == e
      modifies this`recency, e`value
      ensures Agree() && recency == [Pair(e.key, value)] + old(recency[1..])
    {
      hide Linked;
      e.value := value;
      recency := [Pair(e.key, value)] + recency[1..];
    }

    method Overwrite(key: string, value: string)
      requires Agree() && key in items
      modifies Repr()
      ensures Agree() && ll.len == old(ll.len) && Repr() == old(Repr())
      ensures recency == [Pair(key, value)] + Without(old(recency), key)
    {
      hide Linked;
      var e := items[key];
      ghost var i := Position(key);
      KeysOnce();
      PresentAt(recency, i);
      Touch(e, i);
      SetFront(e, value);
    }

    /** An overwrite moves the key to the front; a new key is pushed to the front and the oldest beyond cap go. */
    method Put(key: string, value: string)
      requires Valid()
      modifies Repr()
      ensures Valid() && fresh(Repr() - old(Repr()))
      ensures recency == Stored(old(recency), cap, key, value)
    {
      MapIsLookup(key);
      if key in items {
        Overwrite(key, value);
        return;
      }
      PushNew(key, value);
      ghost var full := recency;
      while ll.len > cap
        invariant Agree() && fresh(Repr() - old(Repr()))
        invariant ll.len <= |full| && recency == full[..ll.len]
        invariant ll.len == |full| || ll.len >= cap
        decreases ll.len
      {
        RemoveOldest();
      }
    }
  }
}
