/**
 * The routing table object: 256 bucket slots updated in place, and the partial
 * selection sort that answers Closest. Each updating method is proved to change
 * its bucket as the functions of module Routing say and to leave the rest alone.
 */
module RoutingTable {
  import opened NodeId
  import opened Routing

  /** All contacts, bucket by bucket. */
  function Flatten(buckets: seq<Bucket>): seq<Contact> {
    if buckets == [] then [] else buckets[0] + Flatten(buckets[1..])
  }

  lemma {:induction false} FlattenHas(buckets: seq<Bucket>, c: Contact)
    ensures c in Flatten(buckets) <==> exists i :: 0 <= i < |buckets| && c in buckets[i]
  {
    if buckets != [] {
      FlattenHas(buckets[1..], c);
      if c in Flatten(buckets[1..]) {
        var i :| 0 <= i < |buckets[1..]| && c in buckets[1..][i];
        assert c in buckets[i + 1];
      }
      if exists i :: 0 < i < |buckets| && c in buckets[i] {
        var i :| 0 < i < |buckets| && c in buckets[i];
        assert buckets[1..][i - 1] == buckets[i];
      }
    }
  }

  predicate Closer(target: Id, a: Contact, b: Contact) {
    DistanceLess(target, a.id, b.id)
  }

  predicate SortedByDistance(target: Id, s: seq<Contact>) {
    forall i, j :: 0 <= i < j < |s| ==> !Closer(target, s[j], s[i])
  }

  /** `r` is the closest part of `all`: sorted, part of it, and nothing left out is closer. */
  ghost predicate IsClosest(all: seq<Contact>, target: Id, n: nat, r: seq<Contact>) {
    && |r| == (if n < |all| then n else |all|)
    && SortedByDistance(target, r)
    && multiset(r) <= multiset(all)
    && forall x, y :: x in r && y in multiset(all) - multiset(r) ==> !Closer(target, y, x)
  }

  lemma CloserOrder(target: Id, a: Contact, b: Contact, c: Contact)
    ensures !Closer(target, b, a) && !Closer(target, c, b) ==> !Closer(target, c, a)
    ensures Closer(target, a, b) ==> !Closer(target, b, a)
    ensures !Closer(target, a, a)
  {
    DistanceLessTotalOrder(target, a.id, b.id, c.id);
    DistanceLessTotalOrder(target, c.id, b.id, a.id);
    DistanceLessTotalOrder(target, b.id, a.id, a.id);
    DistanceLessTotalOrder(target, c.id, a.id, b.id);
  }

  /** Index of a closest contact in a[from..]. */
  method MinIndex(a: array<Contact>, target: Id, from: nat) returns (m: nat)
    requires from < a.Length
    ensures from <= m < a.Length
    ensures forall j :: from <= j < a.Length ==> !Closer(target, a[j], a[m])
  {
    m := from;
    CloserOrder(target, a[m], a[m], a[m]);
    for j := from + 1 to a.Length
      invariant from <= m < a.Length
      invariant forall i :: from <= i < j ==> !Closer(target, a[i], a[m])
    {
      if DistanceLess(target, a[j].id, a[m].id) {
        forall i | from <= i < j + 1
          ensures !Closer(target, a[i], a[j])
        {
          if i < j { CloserOrder(target, a[j], a[m], a[i]); } else { CloserOrder(target, a[j], a[j], a[j]); }
        }
        m := j;
      }
    }
  }

  /** The first `k` are in order and none that follows is closer. */
  predicate FrontSorted(target: Id, s: seq<Contact>, k: nat) {
    forall i, j :: 0 <= i < k && i < j < |s| ==> !Closer(target, s[j], s[i])
  }

  function Swapped<T>(s: seq<T>, i: nat, m: nat): seq<T>
    requires i < |s| && m < |s|
  {
    s[i := s[m]][m := s[i]]
  }

  lemma SwappedSameMultiset<T>(s: seq<T>, i: nat, m: nat)
    requires i < |s| && m < |s|
    ensures multiset(Swapped(s, i, m)) == multiset(s)
  {
  }

  lemma SwapExtendsFront(target: Id, s: seq<Contact>, i: nat, m: nat)
    requires i <= m < |s| && FrontSorted(target, s, i)
    requires forall j :: i <= j < |s| ==> !Closer(target, s[j], s[m])
    ensures FrontSorted(target, Swapped(s, i, m), i + 1)
  {
    var r := Swapped(s, i, m);
    forall x, y | 0 <= x < i + 1 && x < y < |r|
      ensures !Closer(target, r[y], r[x])
    {
      var y' := if y == i then m else if y == m then i else y;
      assert r[y] == s[y'];
      if x < i { assert r[x] == s[x]; } else { assert r[x] == s[m]; }
    }
  }

  /** Puts the `n` closest contacts, in order, at the front of the array. */
  method SelectClosest(a: array<Contact>, target: Id, n: nat)
    requires n <= a.Length
    modifies a
    ensures multiset(a[..]) == multiset(old(a[..]))
    ensures FrontSorted(target, a[..], n)
  {
    for i := 0 to n
      invariant multiset(a[..]) == multiset(old(a[..]))
      invariant FrontSorted(target, a[..], i)
    {
      var m := MinIndex(a, target, i);
      ghost var before := a[..];
      SwappedSameMultiset(before, i, m);
      SwapExtendsFront(target, before, i, m);
      a[i], a[m] := a[m], a[i];
      assert a[..] == Swapped(before, i, m);
    }
  }

  class RoutingTable {
    const self: Id
    const buckets: array<Bucket>

    constructor (id: Id)
      ensures self == id && fresh(buckets)
      ensures buckets[..] == NewTable(id).buckets
    {
      self := id;
      buckets := new Bucket[ID_BITS](_ => []);
    }

    ghost predicate Valid()
      reads this
    {
      buckets.Length == ID_BITS
    }

    /** Returns the eviction tail to be run later, if the bucket was full. */
    method Update(c: Contact, now: nat, pingSet: bool) returns (spawned: seq<Tail>)
      requires Valid()
      modifies buckets
      ensures c.id == self ==> buckets[..] == old(buckets[..]) && spawned == []
      ensures c.id != self ==>
        var i := Index(self, c.id);
        var b := old(buckets[..])[i];
        && buckets[..] == old(buckets[..])[i := UpdateBucket(b, c, now)]
        && spawned == if MustPing(b, c) && pingSet then [Tail(i, b[0], c.(lastSeen := now), false)] else []
    {
      if c.id == self { return []; }
      var idx := Index(self, c.id);
      var b := buckets[idx];
      var newer := c.(lastSeen := now);
      var i := FindIndex(b, c.id);
      if i < |b| {
        var merged := MergeAddresses(newer, b[i]);
        buckets[idx] := b[..i] + b[i + 1..];
        buckets[idx] := buckets[idx] + [merged];
        return [];
      }
      if |b| < K {
        buckets[idx] := b + [newer];
        return [];
      }
      if !pingSet { return []; }
      return [Tail(idx, b[0], newer, false)];
    }

    /** The scan of a bucket for an identifier. */
    method FindIndex(b: Bucket, id: Id) returns (i: nat)
      ensures i == Find(b, id)
    {
      i := 0;
      while i < |b| && b[i].id != id
        invariant i <= |b|
        invariant forall j :: 0 <= j < i ==> b[j].id != id
      {
        i := i + 1;
      }
    }

    method Hint(c: Contact)
      requires Valid()
      modifies buckets
      ensures c.id == self ==> buckets[..] == old(buckets[..])
      ensures c.id != self ==>
        var i := Index(self, c.id);
        buckets[..] == old(buckets[..])[i := HintBucket(old(buckets[..])[i], c)]
    {
      if c.id == self { return; }
      var idx := Index(self, c.id);
      var i := FindIndex(buckets[idx], c.id);
      if i == |buckets[idx]| && |buckets[idx]| < K {
        buckets[idx] := [c.(lastSeen := 0)] + buckets[idx];
      }
    }

    /** The source indexes its buckets before looking at the identifier, so removing the local one is out of range. */
    method Remove(id: Id) returns (outOfRange: bool)
      requires Valid()
      modifies buckets
      ensures outOfRange <==> id == self
      ensures id == self ==> buckets[..] == old(buckets[..])
      ensures id != self ==>
        var i := Index(self, id);
        buckets[..] == old(buckets[..])[i := RemoveFrom(old(buckets[..])[i], id)]
    {
      var idx := Index(self, id);
      if idx >= buckets.Length { return true; }
      var i := FindIndex(buckets[idx], id);
      if i < |buckets[idx]| {
        buckets[idx] := buckets[idx][..i] + buckets[idx][i + 1..];
      }
      return false;
    }

    /** Second half of maybeEvictHead. */
    method FinishEviction(tail: Tail, alive: bool, now: nat)
      requires Valid() && tail.idx < ID_BITS
      modifies buckets
      ensures var b := old(buckets[..])[tail.idx];
              buckets[..] == old(buckets[..])[tail.idx :=
                if alive then RefreshHead(b, tail.head, now) else ReplaceHead(b, tail.head, tail.candidate, now)]
    {
      var b := buckets[tail.idx];
      if alive {
        if |b| > 0 && b[0].id == tail.head.id {
          buckets[tail.idx] := b[1..] + [b[0].(lastSeen := now)];
        }
        return;
      }
      var i := FindIndex(b, tail.head.id);
      if i < |b| { buckets[tail.idx] := b[..i] + b[i + 1..]; }
      if |buckets[tail.idx]| < K {
        buckets[tail.idx] := buckets[tail.idx] + [tail.candidate.(lastSeen := now)];
      }
    }

    method Gather() returns (all: seq<Contact>)
      ensures all == Flatten(buckets[..])
    {
      all := [];
      for i := 0 to buckets.Length
        invariant all + Flatten(buckets[i..]) == Flatten(buckets[..])
      {
        assert buckets[i..][1..] == buckets[i + 1..];
        all := all + buckets[i];
      }
    }

    method Closest(target: Id, n: nat) returns (r: seq<Contact>)
      ensures IsClosest(Flatten(buckets[..]), target, n, r)
    {
      var all := Gather();
      var a := new Contact[|all|](i requires 0 <= i < |all| => all[i]);
      assert a[..] == all;
      var k := if n > |all| then |all| else n;
      SelectClosest(a, target, k);
      r := a[..k];
      FrontIsClosest(all, a[..], target, k);
    }
  }

  lemma SplitMultiset(all: seq<Contact>, s: seq<Contact>, k: nat)
    requires multiset(s) == multiset(all) && k <= |s|
    ensures |s| == |all|
    ensures multiset(all) == multiset(s[..k]) + multiset(s[k..])
  {
    assert |multiset(s)| == |s| && |multiset(all)| == |all|;
    assert s == s[..k] + s[k..];
  }

  lemma BackNoCloser(s: seq<Contact>, target: Id, k: nat, x: Contact, y: Contact)
    requires k <= |s| && FrontSorted(target, s, k) && x in s[..k] && y in s[k..]
    ensures !Closer(target, y, x)
  {
    var i :| 0 <= i < k && s[i] == x;
    var j :| 0 <= j < |s[k..]| && s[k..][j] == y;
    assert s[k + j] == y;
  }

  /** A rearrangement whose first `k` are in order and no farther than the rest has the closest in front. */
  lemma FrontIsClosest(all: seq<Contact>, s: seq<Contact>, target: Id, k: nat)
    requires multiset(s) == multiset(all) && k <= |s| && FrontSorted(target, s, k)
    ensures |s| == |all| && IsClosest(all, target, k, s[..k])
  {
    SplitMultiset(all, s, k);
    var front, back := s[..k], s[k..];
    assert multiset(all) - multiset(front) == multiset(back);
    forall x, y | x in front && y in multiset(back)
      ensures !Closer(target, y, x)
    {
      assert y in back;
      BackNoCloser(s, target, k, x, y);
    }
  }
}
