/**
 * The iterative lookup (core/dht/dht.go, Lookup and closestHex) against arbitrary
 * peers. What happens in a round is an input: which queried contacts answered,
 * every contact their replies carried, and the updates and hints that other
 * handlers of the node made to the table in the meantime, in any order.
 */
module Lookup {
  import opened NodeId
  import opened Options
  import opened Routing
  import opened RoutingTable

  const ALPHA: nat := 3

  /** A change to the table during a round: a queried contact answered, or another handler met or heard of one. */
  datatype Arrival = Answered(c: Contact, now: nat) | Met(c: Contact, now: nat) | HeardOf(c: Contact)

  /** `arrivals` come before the learned contacts are hinted, `gaps(i)` just before the i-th hint or after the last. */
  datatype Round = Round(arrivals: seq<Arrival>, learned: seq<Contact>, gaps: nat -> seq<Arrival>)

  // ----- the table seen as a set of identifiers -----

  /** Well placed, without the local identifier: what Routing proves of every reachable table. */
  ghost predicate GoodTable(self: Id, bs: seq<Bucket>) {
    && |bs| == ID_BITS
    && (forall i, j :: 0 <= i < |bs| && 0 <= j < |bs[i]| ==> bs[i][j].id != self && Index(self, bs[i][j].id) == i)
  }

  /** No identifier is listed twice: what Routing proves of every table no late duplicate has reached. */
  ghost predicate OncePerId(bs: seq<Bucket>) {
    forall i :: 0 <= i < |bs| ==> UniqueIds(bs[i])
  }

  ghost predicate Knows(bs: seq<Bucket>, id: Id) {
    exists i :: 0 <= i < |bs| && Has(bs[i], id)
  }

  /** No identifier is lost and no bucket shrinks. */
  ghost predicate Grows(bs: seq<Bucket>, cs: seq<Bucket>) {
    && |bs| == |cs|
    && forall i :: 0 <= i < |bs| ==> |bs[i]| <= |cs[i]| && forall id: Id :: Has(bs[i], id) ==> Has(cs[i], id)
  }

  lemma GrowsTrans(a: seq<Bucket>, b: seq<Bucket>, c: seq<Bucket>)
    requires Grows(a, b) && Grows(b, c)
    ensures Grows(a, c)
  {
  }

  /** The table grows, and lists nobody twice if it did not before. */
  ghost predicate Extends(bs: seq<Bucket>, cs: seq<Bucket>) {
    Grows(bs, cs) && (OncePerId(bs) ==> OncePerId(cs))
  }

  lemma ExtendsTrans(a: seq<Bucket>, b: seq<Bucket>, c: seq<Bucket>)
    requires Extends(a, b) && Extends(b, c)
    ensures Extends(a, c)
  {
    GrowsTrans(a, b, c);
  }

  lemma GrowsKnows(a: seq<Bucket>, b: seq<Bucket>, id: Id)
    requires Grows(a, b) && Knows(a, id)
    ensures Knows(b, id)
  {
    var i :| 0 <= i < |a| && Has(a[i], id);
    assert Has(b[i], id);
  }

  /** The contact is known, or its bucket has no room for it. */
  ghost predicate KnownOrFull(self: Id, bs: seq<Bucket>, id: Id)
    requires |bs| == ID_BITS
  {
    id == self || Knows(bs, id) || |bs[Index(self, id)]| >= K
  }

  lemma HintHas(b: Bucket, c: Contact)
    ensures forall id: Id :: Has(b, id) ==> Has(HintBucket(b, c), id)
    ensures |b| <= |HintBucket(b, c)|
    ensures Has(HintBucket(b, c), c.id) || |b| >= K
  {
    var r := HintBucket(b, c);
    if Find(b, c.id) == |b| && |b| < K {
      assert r[0].id == c.id;
      forall id: Id | Has(b, id) ensures Has(r, id) {
        var i :| 0 <= i < |b| && b[i].id == id;
        assert r[i + 1].id == id;
      }
    }
  }

  lemma HintStep(self: Id, bs: seq<Bucket>, c: Contact)
    requires GoodTable(self, bs) && c.id != self
    ensures var i := Index(self, c.id);
            var cs := bs[i := HintBucket(bs[i], c)];
            GoodTable(self, cs) && Extends(bs, cs) && KnownOrFull(self, cs, c.id)
  {
    var i := Index(self, c.id);
    var cs := bs[i := HintBucket(bs[i], c)];
    HintHas(bs[i], c);
    if OncePerId(bs) { HintUnique(bs[i], c); }
    if Has(cs[i], c.id) { assert Knows(cs, c.id); }
  }

  lemma UpdateHas(b: Bucket, c: Contact, now: nat)
    ensures forall id: Id :: Has(b, id) ==> Has(UpdateBucket(b, c, now), id)
    ensures |b| <= |UpdateBucket(b, c, now)|
  {
    var r, k := UpdateBucket(b, c, now), Find(b, c.id);
    forall id: Id | Has(b, id) ensures Has(r, id) {
      var i :| 0 <= i < |b| && b[i].id == id;
      if k < |b| {
        assert r[if i < k then i else if i == k then |b| - 1 else i - 1].id == id;
      } else {
        assert r[i].id == id;
      }
    }
  }

  lemma UpdateStep(self: Id, bs: seq<Bucket>, c: Contact, now: nat)
    requires GoodTable(self, bs) && c.id != self
    ensures var i := Index(self, c.id);
            var cs := bs[i := UpdateBucket(bs[i], c, now)];
            GoodTable(self, cs) && Extends(bs, cs)
  {
    var i := Index(self, c.id);
    UpdateHas(bs[i], c, now);
    if OncePerId(bs) { UpdateUnique(bs[i], c, now); }
  }

  // ----- the closest contacts of a table -----

  predicate DistinctIds(s: seq<Contact>) {
    forall i, j :: 0 <= i < j < |s| ==> s[i].id != s[j].id
  }

  /** Unique buckets at their own indices make all identifiers of the table distinct. */
  lemma {:induction false} FlattenDistinct(self: Id, bs: seq<Bucket>, from: nat)
    requires from <= |bs|
    requires forall i :: from <= i < |bs| ==> UniqueIds(bs[i])
    requires forall i, j :: from <= i < |bs| && 0 <= j < |bs[i]| ==> Index(self, bs[i][j].id) == i
    ensures DistinctIds(Flatten(bs[from..]))
    ensures forall c :: c in Flatten(bs[from..]) ==> from <= Index(self, c.id)
    decreases |bs| - from
  {
    if from < |bs| {
      FlattenDistinct(self, bs, from + 1);
      assert bs[from..][1..] == bs[from + 1..];
      var front, back := bs[from], Flatten(bs[from + 1..]);
      forall i, j | 0 <= i < |front| && 0 <= j < |back|
        ensures front[i].id != back[j].id
      {
        assert back[j] in back;
      }
    }
  }

  lemma KnowsIffListed(bs: seq<Bucket>, id: Id)
    ensures Knows(bs, id) <==> exists c :: c in Flatten(bs) && c.id == id
  {
    if Knows(bs, id) {
      var i :| 0 <= i < |bs| && Has(bs[i], id);
      var j :| 0 <= j < |bs[i]| && bs[i][j].id == id;
      FlattenHas(bs, bs[i][j]);
    }
    if c :| c in Flatten(bs) && c.id == id {
      FlattenHas(bs, c);
      var i :| 0 <= i < |bs| && c in bs[i];
      assert Has(bs[i], id);
    }
  }

  /** The first of a non-empty selection is the closest of everything. */
  lemma ClosestFirst(all: seq<Contact>, target: Id, n: nat, r: seq<Contact>, c: Contact)
    requires IsClosest(all, target, n, r) && n > 0 && c in all
    ensures r != [] && !Closer(target, c, r[0])
  {
    assert all != [];
    if c in r {
      var i :| 0 <= i < |r| && r[i] == c;
      if i == 0 { CloserOrder(target, c, c, c); }
    } else {
      assert c in multiset(all) && c !in multiset(r);
      assert c in multiset(all) - multiset(r);
    }
  }

  lemma ListedOnce(all: seq<Contact>, c: Contact)
    requires DistinctIds(all)
    ensures multiset(all)[c] <= 1
    decreases |all|
  {
    if all != [] {
      var rest := all[1..];
      assert all == [all[0]] + rest;
      ListedOnce(rest, c);
      assert forall i :: 0 <= i < |rest| ==> rest[i].id != all[0].id;
    }
  }

  lemma TwiceListed(r: seq<Contact>, i: nat, j: nat)
    requires i < j < |r| && r[i] == r[j]
    ensures multiset(r)[r[i]] >= 2
  {
    assert r == r[..j] + r[j..];
    assert r[i] in r[..j] && r[j] in r[j..];
  }

  /** A selection from distinct contacts is distinct and lists only contacts of the table. */
  lemma SelectionDistinct(all: seq<Contact>, target: Id, n: nat, r: seq<Contact>)
    requires IsClosest(all, target, n, r) && DistinctIds(all)
    ensures DistinctIds(r)
    ensures forall c :: c in r ==> c in all
  {
    forall c | c in r ensures c in all { assert c in multiset(r); }
    forall i, j | 0 <= i < j < |r|
      ensures r[i].id != r[j].id
    {
      if r[i].id == r[j].id {
        SameIdSameContact(all, r[i], r[j]);
        TwiceListed(r, i, j);
        ListedOnce(all, r[i]);
        assert false;
      }
    }
  }

  lemma SameIdSameContact(all: seq<Contact>, a: Contact, b: Contact)
    requires DistinctIds(all) && a in all && b in all && a.id == b.id
    ensures a == b
  {
    var i :| 0 <= i < |all| && all[i] == a;
    var j :| 0 <= j < |all| && all[j] == b;
    assert i == j;
  }

  // ----- closestHex -----

  /** Fold keeping the closest identifier seen so far. */
  function ClosestFrom(target: Id, best: Id, cs: seq<Contact>): Id
    decreases |cs|
  {
    if cs == [] then best
    else ClosestFrom(target, if DistanceLess(target, cs[0].id, best) then cs[0].id else best, cs[1..])
  }

  function ClosestId(target: Id, cs: seq<Contact>): Option<Id> {
    if cs == [] then None else Some(ClosestFrom(target, cs[0].id, cs[1..]))
  }

  lemma {:induction false} ClosestFromIsMin(target: Id, best: Id, cs: seq<Contact>)
    ensures var m := ClosestFrom(target, best, cs);
            && (m == best || exists c :: c in cs && c.id == m)
            && Distance(target, m) <= Distance(target, best)
            && forall c :: c in cs ==> Distance(target, m) <= Distance(target, c.id)
    decreases |cs|
  {
    if cs != [] {
      DistanceLessIsIntegerOrder(target, cs[0].id, best);
      ClosestFromIsMin(target, if DistanceLess(target, cs[0].id, best) then cs[0].id else best, cs[1..]);
      assert forall c :: c in cs <==> c == cs[0] || c in cs[1..];
    }
  }

  /** closestHex names a listed contact that none is closer than; of a selection, its first. */
  lemma ClosestIdIsMin(target: Id, cs: seq<Contact>)
    requires cs != []
    ensures exists c :: c in cs && c.id == ClosestId(target, cs).value
    ensures forall c :: c in cs ==> Distance(target, ClosestId(target, cs).value) <= Distance(target, c.id)
  {
    ClosestFromIsMin(target, cs[0].id, cs[1..]);
    assert forall c :: c in cs <==> c == cs[0] || c in cs[1..];
  }

  lemma ClosestIdOfTable(bs: seq<Bucket>, target: Id, r: seq<Contact>, id: Id)
    requires IsClosest(Flatten(bs), target, K, r) && Knows(bs, id)
    ensures r != [] && Knows(bs, ClosestId(target, r).value)
    ensures Distance(target, ClosestId(target, r).value) <= Distance(target, id)
  {
    KnowsIffListed(bs, id);
    var c :| c in Flatten(bs) && c.id == id;
    ClosestFirst(Flatten(bs), target, K, r, c);
    DistanceLessIsIntegerOrder(target, c.id, r[0].id);
    ClosestIdIsMin(target, r);
    assert r[0] in r;
    var d :| d in r && d.id == ClosestId(target, r).value;
    assert d in multiset(r) && d in multiset(Flatten(bs));
    KnowsIffListed(bs, d.id);
  }

  /** When the table only grows, the closest identifier either stays or gets strictly closer. */
  lemma RoundProgress(bs: seq<Bucket>, cs: seq<Bucket>, target: Id, before: seq<Contact>, after: seq<Contact>)
    requires Grows(bs, cs) && before != []
    requires IsClosest(Flatten(bs), target, K, before) && IsClosest(Flatten(cs), target, K, after)
    ensures after != []
    ensures ClosestId(target, before) == ClosestId(target, after)
            || Distance(target, ClosestId(target, after).value) < Distance(target, ClosestId(target, before).value)
  {
    assert before[0] in multiset(before) && before[0] in multiset(Flatten(bs));
    KnowsIffListed(bs, before[0].id);
    ClosestIdOfTable(bs, target, before, before[0].id);
    var m := ClosestId(target, before).value;
    GrowsKnows(bs, cs, m);
    ClosestIdOfTable(cs, target, after, m);
    DistanceInjective(target, m, ClosestId(target, after).value);
  }

  // ----- one round -----

  /** The first `limit` contacts not yet queried. */
  function Unqueried(shortlist: seq<Contact>, queried: set<Id>, limit: nat): seq<Contact>
    decreases |shortlist|
  {
    if shortlist == [] || limit == 0 then []
    else if shortlist[0].id in queried then Unqueried(shortlist[1..], queried, limit)
    else [shortlist[0]] + Unqueried(shortlist[1..], queried, limit - 1)
  }

  lemma {:induction false} UnqueriedMembers(shortlist: seq<Contact>, queried: set<Id>, limit: nat)
    ensures forall c :: c in Unqueried(shortlist, queried, limit) ==> c in shortlist && c.id !in queried
    ensures Unqueried(shortlist, queried, limit) == [] && limit > 0 ==> forall c :: c in shortlist ==> c.id in queried
    ensures |Unqueried(shortlist, queried, limit)| <= limit
    decreases |shortlist|
  {
    if shortlist != [] && limit > 0 {
      UnqueriedMembers(shortlist[1..], queried, if shortlist[0].id in queried then limit else limit - 1);
      assert forall x :: x in shortlist <==> x == shortlist[0] || x in shortlist[1..];
    }
  }

  lemma {:induction false} UnqueriedDistinct(shortlist: seq<Contact>, queried: set<Id>, limit: nat)
    requires DistinctIds(shortlist)
    ensures DistinctIds(Unqueried(shortlist, queried, limit))
    decreases |shortlist|
  {
    if shortlist != [] && limit > 0 {
      var c, rest := shortlist[0], shortlist[1..];
      UnqueriedDistinct(rest, queried, if c.id in queried then limit else limit - 1);
      if c.id !in queried {
        var more := Unqueried(rest, queried, limit - 1);
        UnqueriedMembers(rest, queried, limit - 1);
        forall i | 0 <= i < |more| ensures more[i].id != c.id {
          assert more[i] in rest;
          var j :| 0 <= j < |rest| && rest[j] == more[i];
          assert rest[j] == shortlist[j + 1];
        }
      }
    }
  }

  /** The batch is the front of what is left: no unqueried contact is passed over, and it is cut short by the limit alone. */
  lemma {:induction false} UnqueriedIsFront(shortlist: seq<Contact>, queried: set<Id>, limit: nat) returns (n: nat)
    ensures n <= |shortlist| && (n < |shortlist| ==> |Unqueried(shortlist, queried, limit)| == limit)
    ensures forall c :: c in Unqueried(shortlist, queried, limit) <==> c in shortlist[..n] && c.id !in queried
    decreases |shortlist|
  {
    n := 0;
    if shortlist != [] && limit > 0 {
      var c, rest := shortlist[0], shortlist[1..];
      var m := UnqueriedIsFront(rest, queried, if c.id in queried then limit else limit - 1);
      n := m + 1;
      assert shortlist[..n] == [c] + rest[..m];
    }
  }

  method PickBatch(shortlist: seq<Contact>, queried: set<Id>) returns (batch: seq<Contact>)
    ensures batch == Unqueried(shortlist, queried, ALPHA)
  {
    batch := [];
    var i := 0;
    while i < |shortlist| && |batch| < ALPHA
      invariant i <= |shortlist| && |batch| <= ALPHA
      invariant batch + Unqueried(shortlist[i..], queried, ALPHA - |batch|) == Unqueried(shortlist, queried, ALPHA)
    {
      assert shortlist[i..][1..] == shortlist[i + 1..];
      if shortlist[i].id !in queried { batch := batch + [shortlist[i]]; }
      i := i + 1;
    }
  }

  /** The table after one change: an answer of a queried contact and a contact met update it, one heard of is hinted. */
  function AfterArrival(self: Id, bs: seq<Bucket>, batch: seq<Contact>, a: Arrival): (cs: seq<Bucket>)
    requires |bs| == ID_BITS
    ensures |cs| == ID_BITS
  {
    if a.c.id == self || (a.Answered? && a.c !in batch) then bs
    else
      var i := Index(self, a.c.id);
      bs[i := if a.HeardOf? then HintBucket(bs[i], a.c) else UpdateBucket(bs[i], a.c, a.now)]
  }

  function AfterArrivals(self: Id, bs: seq<Bucket>, batch: seq<Contact>, arrivals: seq<Arrival>): (cs: seq<Bucket>)
    requires |bs| == ID_BITS
    ensures |cs| == ID_BITS
    decreases |arrivals|
  {
    if arrivals == [] then bs else AfterArrivals(self, AfterArrival(self, bs, batch, arrivals[0]), batch, arrivals[1..])
  }

  /** A contact that answered stands last in its bucket, seen at that time, with the address that answered. */
  lemma AnsweredIsLast(self: Id, bs: seq<Bucket>, batch: seq<Contact>, c: Contact, now: nat)
    requires GoodTable(self, bs) && c in batch && c.id != self && Knows(bs, c.id)
    ensures var i := Index(self, c.id);
            var cs := AfterArrival(self, bs, batch, Answered(c, now));
            && |cs[i]| == |bs[i]| > 0
            && var last := cs[i][|cs[i]| - 1]; last.id == c.id && last.address == c.address && last.lastSeen == now
  {
    var i := Index(self, c.id);
    KnownNeedsNoPing(self, bs, c);
    var k := Find(bs[i], c.id);
    assert k < |bs[i]| by {
      var x :| 0 <= x < |bs| && Has(bs[x], c.id);
      var y :| 0 <= y < |bs[x]| && bs[x][y].id == c.id;
      assert Index(self, bs[x][y].id) == x;
    }
    UpdateKnown(bs[i], c, now, k);
  }

  /** One change; a contact that is known when it answers never queues an eviction. */
  method Arrive(rt: RoutingTable, batch: seq<Contact>, a: Arrival, pingSet: bool)
    requires rt.Valid() && GoodTable(rt.self, rt.buckets[..])
    requires forall c :: c in batch ==> c.id != rt.self && Knows(rt.buckets[..], c.id)
    modifies rt.buckets
    ensures rt.buckets[..] == AfterArrival(rt.self, old(rt.buckets[..]), batch, a)
    ensures GoodTable(rt.self, rt.buckets[..]) && Extends(old(rt.buckets[..]), rt.buckets[..])
  {
    ghost var bs := rt.buckets[..];
    if a.c.id != rt.self {
      match a {
        case HeardOf(c) =>
          HintStep(rt.self, bs, c);
          rt.Hint(c);
        case Met(c, now) =>
          UpdateStep(rt.self, bs, c, now);
          var spawned := rt.Update(c, now, pingSet);
        case Answered(c, now) =>
          if c in batch {
            UpdateStep(rt.self, bs, c, now);
            KnownNeedsNoPing(rt.self, bs, c);
            var spawned := rt.Update(c, now, pingSet);
            assert spawned == [];
          }
      }
    }
  }

  /** The changes of a round, in their order; the table only grows. */
  method TakeArrivals(rt: RoutingTable, batch: seq<Contact>, arrivals: seq<Arrival>, pingSet: bool)
    requires rt.Valid() && GoodTable(rt.self, rt.buckets[..])
    requires forall c :: c in batch ==> c.id != rt.self && Knows(rt.buckets[..], c.id)
    modifies rt.buckets
    ensures rt.buckets[..] == AfterArrivals(rt.self, old(rt.buckets[..]), batch, arrivals)
    ensures GoodTable(rt.self, rt.buckets[..]) && Extends(old(rt.buckets[..]), rt.buckets[..])
  {
    for i := 0 to |arrivals|
      invariant AfterArrivals(rt.self, rt.buckets[..], batch, arrivals[i..]) == AfterArrivals(rt.self, old(rt.buckets[..]), batch, arrivals)
      invariant GoodTable(rt.self, rt.buckets[..]) && Extends(old(rt.buckets[..]), rt.buckets[..])
    {
      ghost var bs := rt.buckets[..];
      forall c | c in batch ensures Knows(bs, c.id) { GrowsKnows(old(rt.buckets[..]), bs, c.id); }
      assert arrivals[i..][1..] == arrivals[i + 1..];
      Arrive(rt, batch, arrivals[i], pingSet);
      ExtendsTrans(old(rt.buckets[..]), bs, rt.buckets[..]);
    }
  }

  lemma KnownNeedsNoPing(self: Id, bs: seq<Bucket>, c: Contact)
    requires GoodTable(self, bs) && c.id != self && Knows(bs, c.id)
    ensures !MustPing(bs[Index(self, c.id)], c)
  {
    var i :| 0 <= i < |bs| && Has(bs[i], c.id);
    var j :| 0 <= j < |bs[i]| && bs[i][j].id == c.id;
    assert Index(self, bs[i][j].id) == i;
  }

  /** What reaches the table once the replies are in: every learned contact is heard of, other changes in between. */
  function Hearsay(learned: seq<Contact>, gaps: nat -> seq<Arrival>, i: nat): seq<Arrival>
    requires i <= |learned|
    decreases |learned| - i
  {
    if i == |learned| then gaps(i) else gaps(i) + [HeardOf(learned[i])] + Hearsay(learned, gaps, i + 1)
  }

  lemma {:induction false} ArrivalsAppend(self: Id, bs: seq<Bucket>, batch: seq<Contact>, x: seq<Arrival>, y: seq<Arrival>)
    requires |bs| == ID_BITS
    ensures AfterArrivals(self, bs, batch, x + y) == AfterArrivals(self, AfterArrivals(self, bs, batch, x), batch, y)
    decreases |x|
  {
    if x == [] {
      assert x + y == y;
    } else {
      assert (x + y)[1..] == x[1..] + y;
      ArrivalsAppend(self, AfterArrival(self, bs, batch, x[0]), batch, x[1..], y);
    }
  }

  /** The changes up to and with the i-th hint are done: what is left leads to the same table. */
  lemma HearsayStep(self: Id, bs: seq<Bucket>, learned: seq<Contact>, gaps: nat -> seq<Arrival>, i: nat)
    requires |bs| == ID_BITS && i < |learned|
    ensures var cs := AfterArrival(self, AfterArrivals(self, bs, [], gaps(i)), [], HeardOf(learned[i]));
            AfterArrivals(self, bs, [], Hearsay(learned, gaps, i)) == AfterArrivals(self, cs, [], Hearsay(learned, gaps, i + 1))
  {
    var hint, rest := [HeardOf(learned[i])], Hearsay(learned, gaps, i + 1);
    assert Hearsay(learned, gaps, i) == gaps(i) + (hint + rest);
    ArrivalsAppend(self, bs, [], gaps(i), hint + rest);
    assert (hint + rest)[1..] == rest;
  }

  /** The first `i` learned contacts have been hinted since `start`, and what is left leads to the table all hints lead to. */
  ghost predicate Hinted(self: Id, start: seq<Bucket>, bs: seq<Bucket>, learned: seq<Contact>, gaps: nat -> seq<Arrival>, i: nat) {
    && |start| == |bs| == ID_BITS && i <= |learned| && GoodTable(self, bs) && Extends(start, bs)
    && AfterArrivals(self, bs, [], Hearsay(learned, gaps, i)) == AfterArrivals(self, start, [], Hearsay(learned, gaps, 0))
    && forall j :: 0 <= j < i ==> KnownOrFull(self, bs, learned[j].id)
  }

  lemma HintedStep(self: Id, start: seq<Bucket>, bs: seq<Bucket>, cs: seq<Bucket>, learned: seq<Contact>, gaps: nat -> seq<Arrival>, i: nat)
    requires Hinted(self, start, bs, learned, gaps, i) && i < |learned|
    requires cs == AfterArrival(self, AfterArrivals(self, bs, [], gaps(i)), [], HeardOf(learned[i]))
    requires GoodTable(self, cs) && Extends(bs, cs) && KnownOrFull(self, cs, learned[i].id)
    ensures Hinted(self, start, cs, learned, gaps, i + 1)
  {
    HearsayStep(self, bs, learned, gaps, i);
    ExtendsTrans(start, bs, cs);
    forall j | 0 <= j < i ensures KnownOrFull(self, cs, learned[j].id) { KnownOrFullGrows(self, bs, cs, learned[j].id); }
  }

  lemma HintedEnds(self: Id, start: seq<Bucket>, bs: seq<Bucket>, cs: seq<Bucket>, learned: seq<Contact>, gaps: nat -> seq<Arrival>)
    requires Hinted(self, start, bs, learned, gaps, |learned|)
    requires cs == AfterArrivals(self, bs, [], gaps(|learned|)) && Extends(bs, cs)
    ensures cs == AfterArrivals(self, start, [], Hearsay(learned, gaps, 0)) && Extends(start, cs)
    ensures forall c :: c in learned ==> KnownOrFull(self, cs, c.id)
  {
    ExtendsTrans(start, bs, cs);
    forall c | c in learned ensures KnownOrFull(self, cs, c.id) { KnownOrFullGrows(self, bs, cs, c.id); }
  }

  /** Every learned contact is hinted, other changes in between: afterwards it is known, or its bucket is full. */
  method HintLearned(rt: RoutingTable, learned: seq<Contact>, gaps: nat -> seq<Arrival>, pingSet: bool)
    requires rt.Valid() && GoodTable(rt.self, rt.buckets[..])
    modifies rt.buckets
    ensures rt.buckets[..] == AfterArrivals(rt.self, old(rt.buckets[..]), [], Hearsay(learned, gaps, 0))
    ensures GoodTable(rt.self, rt.buckets[..]) && Extends(old(rt.buckets[..]), rt.buckets[..])
    ensures forall c :: c in learned ==> KnownOrFull(rt.self, rt.buckets[..], c.id)
  {
    ghost var start := rt.buckets[..];
    for i := 0 to |learned|
      invariant Hinted(rt.self, start, rt.buckets[..], learned, gaps, i)
    {
      ghost var bs := rt.buckets[..];
      HintOne(rt, learned[i], gaps(i), pingSet);
      HintedStep(rt.self, start, bs, rt.buckets[..], learned, gaps, i);
    }
    ghost var bs := rt.buckets[..];
    TakeArrivals(rt, [], gaps(|learned|), pingSet);
    HintedEnds(rt.self, start, bs, rt.buckets[..], learned, gaps);
  }

  /** Changes by others, then a hint, except for the node itself. */
  method HintOne(rt: RoutingTable, c: Contact, gap: seq<Arrival>, pingSet: bool)
    requires rt.Valid() && GoodTable(rt.self, rt.buckets[..])
    modifies rt.buckets
    ensures rt.buckets[..] == AfterArrival(rt.self, AfterArrivals(rt.self, old(rt.buckets[..]), [], gap), [], HeardOf(c))
    ensures GoodTable(rt.self, rt.buckets[..]) && Extends(old(rt.buckets[..]), rt.buckets[..])
    ensures KnownOrFull(rt.self, rt.buckets[..], c.id)
  {
    TakeArrivals(rt, [], gap, pingSet);
    ghost var bs := rt.buckets[..];
    if c.id != rt.self {
      HintStep(rt.self, bs, c);
      rt.Hint(c);
      ExtendsTrans(old(rt.buckets[..]), bs, rt.buckets[..]);
    }
  }

  /** The step brings the contact itself, not hearsay about it. */
  predicate Direct(batch: seq<Contact>, a: Arrival, id: Id) {
    a.c.id == id && (a.Met? || (a.Answered? && a.c in batch))
  }

  lemma ArrivalNeverSeen(self: Id, bs: seq<Bucket>, batch: seq<Contact>, a: Arrival, id: Id, i: nat)
    requires |bs| == ID_BITS && i < ID_BITS && NeverSeen(bs[i], id) && !Direct(batch, a, id)
    ensures NeverSeen(AfterArrival(self, bs, batch, a)[i], id)
  {
    if a.c.id != self && (a.Met? || (a.Answered? && a.c in batch)) && Index(self, a.c.id) == i {
      BucketNeverSeen(self, i, bs[i], Update(a.c, a.now), id);
    }
  }

  /** Whatever the replies claim: a contact nobody met or got an answer from is not taken for seen. */
  lemma {:induction false} HearsayStaysUnseen(self: Id, bs: seq<Bucket>, batch: seq<Contact>, arrivals: seq<Arrival>, id: Id, i: nat)
    requires |bs| == ID_BITS && i < ID_BITS && NeverSeen(bs[i], id)
    requires forall k :: 0 <= k < |arrivals| ==> !Direct(batch, arrivals[k], id)
    ensures NeverSeen(AfterArrivals(self, bs, batch, arrivals)[i], id)
    decreases |arrivals|
  {
    if arrivals != [] {
      ArrivalNeverSeen(self, bs, batch, arrivals[0], id, i);
      HearsayStaysUnseen(self, AfterArrival(self, bs, batch, arrivals[0]), batch, arrivals[1..], id, i);
    }
  }

  lemma KnownOrFullGrows(self: Id, bs: seq<Bucket>, cs: seq<Bucket>, id: Id)
    requires |bs| == ID_BITS && Grows(bs, cs) && KnownOrFull(self, bs, id)
    ensures KnownOrFull(self, cs, id)
  {
    if Knows(bs, id) { GrowsKnows(bs, cs, id); }
  }

  // ----- the final stable sort -----

  function InsertByDistance(target: Id, c: Contact, s: seq<Contact>): seq<Contact>
    decreases |s|
  {
    if s == [] || !Closer(target, s[0], c) then [c] + s else [s[0]] + InsertByDistance(target, c, s[1..])
  }

  function StableSort(target: Id, s: seq<Contact>): seq<Contact>
    decreases |s|
  {
    if s == [] then [] else InsertByDistance(target, s[0], StableSort(target, s[1..]))
  }

  /** Sorting what Closest returned changes nothing. */
  lemma {:induction false} StableSortOfSorted(target: Id, s: seq<Contact>)
    requires SortedByDistance(target, s)
    ensures StableSort(target, s) == s
    decreases |s|
  {
    if s != [] { StableSortOfSorted(target, s[1..]); }
  }

  // ----- the lookup -----

  /** Distances of the closest contact, round by round, strictly fall. */
  predicate Falling(target: Id, trail: seq<Id>) {
    forall i, j :: 0 <= i < j < |trail| ==> Distance(target, trail[j]) < Distance(target, trail[i])
  }

  ghost predicate AllLearned(self: Id, bs: seq<Bucket>, net: nat -> Round, rounds: nat)
    requires |bs| == ID_BITS
  {
    forall k: nat, c :: k < rounds && c in net(k).learned ==> KnownOrFull(self, bs, c.id)
  }

  lemma AllLearnedStep(self: Id, bs: seq<Bucket>, cs: seq<Bucket>, net: nat -> Round, rounds: nat)
    requires |bs| == ID_BITS && Grows(bs, cs) && AllLearned(self, bs, net, rounds)
    requires forall c :: c in net(rounds).learned ==> KnownOrFull(self, cs, c.id)
    ensures AllLearned(self, cs, net, rounds + 1)
  {
    forall k: nat, c | k < rounds + 1 && c in net(k).learned
      ensures KnownOrFull(self, cs, c.id)
    {
      if k < rounds { KnownOrFullGrows(self, bs, cs, c.id); }
    }
  }

  function IdsOf(cs: seq<Contact>): seq<Id> {
    seq(|cs|, i requires 0 <= i < |cs| => cs[i].id)
  }

  lemma AskedAfter(asked: seq<Id>, batch: seq<Contact>)
    requires Distinct(asked) && DistinctIds(batch)
    requires forall c :: c in batch ==> c.id !in asked
    ensures Distinct(asked + IdsOf(batch))
  {
    forall i | 0 <= i < |batch| ensures IdsOf(batch)[i] !in asked { assert batch[i] in batch; }
  }

  lemma BatchIds(batch: seq<Contact>)
    ensures forall id :: id in IdsOf(batch) <==> id in (set c | c in batch :: c.id)
  {
    forall id | id in (set c | c in batch :: c.id)
      ensures id in IdsOf(batch)
    {
      var c :| c in batch && c.id == id;
      var i :| 0 <= i < |batch| && batch[i] == c;
      assert IdsOf(batch)[i] == id;
    }
  }

  /** The next batch, its contacts marked as queried. */
  method NextBatch(shortlist: seq<Contact>, queried: set<Id>, ghost asked: seq<Id>) returns (batch: seq<Contact>, marked: set<Id>)
    requires forall id :: id in queried <==> id in asked
    ensures batch == Unqueried(shortlist, queried, ALPHA) && (DistinctIds(shortlist) ==> DistinctIds(batch))
    ensures forall c :: c in batch ==> c in shortlist && c.id !in asked
    ensures batch == [] ==> forall c :: c in shortlist ==> c.id in asked
    ensures forall id :: id in marked <==> id in asked + IdsOf(batch)
  {
    batch := PickBatch(shortlist, queried);
    UnqueriedMembers(shortlist, queried, ALPHA);
    if DistinctIds(shortlist) { UnqueriedDistinct(shortlist, queried, ALPHA); }
    marked := queried + set c | c in batch :: c.id;
    BatchIds(batch);
  }

  /** What holds of the shortlist taken from a good table. */
  lemma ShortlistFacts(self: Id, bs: seq<Bucket>, target: Id, r: seq<Contact>)
    requires GoodTable(self, bs) && IsClosest(Flatten(bs), target, K, r)
    ensures OncePerId(bs) ==> DistinctIds(r)
    ensures forall c :: c in r ==> c.id != self && Knows(bs, c.id)
  {
    if OncePerId(bs) {
      FlattenDistinct(self, bs, 0);
      assert bs[0..] == bs;
      SelectionDistinct(Flatten(bs), target, K, r);
    }
    forall c | c in r
      ensures c.id != self && Knows(bs, c.id)
    {
      assert c in multiset(r) && c in multiset(Flatten(bs));
      KnowsIffListed(bs, c.id);
      var i :| 0 <= i < |bs| && Has(bs[i], c.id);
      var j :| 0 <= j < |bs[i]| && bs[i][j].id == c.id;
      assert bs[i][j].id != self;
    }
  }

  // ----- who can be asked twice -----

  lemma {:induction false} InsertKeepsContacts(target: Id, c: Contact, s: seq<Contact>)
    ensures multiset(InsertByDistance(target, c, s)) == multiset(s) + multiset{c}
    decreases |s|
  {
    if s != [] && Closer(target, s[0], c) {
      assert s == [s[0]] + s[1..];
      InsertKeepsContacts(target, c, s[1..]);
    }
  }

  lemma {:induction false} InsertKeepsOrder(target: Id, c: Contact, s: seq<Contact>)
    requires SortedByDistance(target, s)
    ensures SortedByDistance(target, InsertByDistance(target, c, s))
    decreases |s|
  {
    if s == [] {
    } else if Closer(target, s[0], c) {
      InsertKeepsOrder(target, c, s[1..]);
      var r := InsertByDistance(target, c, s[1..]);
      forall j | 0 <= j < |r| ensures !Closer(target, r[j], s[0]) { InsertedNoCloser(target, c, s, j); }
    } else {
      forall j | 0 <= j < |s| ensures !Closer(target, s[j], c) { CloserOrder(target, c, s[0], s[j]); }
    }
  }

  lemma InsertedNoCloser(target: Id, c: Contact, s: seq<Contact>, j: nat)
    requires s != [] && SortedByDistance(target, s) && Closer(target, s[0], c)
    requires j < |InsertByDistance(target, c, s[1..])|
    ensures !Closer(target, InsertByDistance(target, c, s[1..])[j], s[0])
  {
    var r := InsertByDistance(target, c, s[1..]);
    InsertKeepsContacts(target, c, s[1..]);
    assert r[j] in multiset(r);
    if r[j] == c {
      CloserOrder(target, s[0], c, c);
    } else {
      var k :| 0 <= k < |s[1..]| && s[1..][k] == r[j];
      assert s[k + 1] == r[j];
    }
  }

  lemma {:induction false} StableSortFacts(target: Id, s: seq<Contact>)
    ensures multiset(StableSort(target, s)) == multiset(s) && SortedByDistance(target, StableSort(target, s))
    decreases |s|
  {
    if s != [] {
      assert s == [s[0]] + s[1..];
      StableSortFacts(target, s[1..]);
      InsertKeepsContacts(target, s[0], StableSort(target, s[1..]));
      InsertKeepsOrder(target, s[0], StableSort(target, s[1..]));
    }
  }

  /** Every table has a closest part. */
  lemma ClosestExists(all: seq<Contact>, target: Id, n: nat) returns (r: seq<Contact>)
    ensures IsClosest(all, target, n, r)
  {
    var s := StableSort(target, all);
    StableSortFacts(target, all);
    assert |multiset(s)| == |s| && |multiset(all)| == |all|;
    var k := if n < |s| then n else |s|;
    FrontIsClosest(all, s, target, k);
    r := s[..k];
  }

  lemma CloserThanOthers(id: Id, c: Contact, d: Contact)
    requires c.id == id && d.id != id
    ensures Closer(id, c, d)
  {
    DistanceLessTotalOrder(id, c.id, d.id, id);
    DistanceLessIsIntegerOrder(id, d.id, c.id);
    Metric(id, id, id);
  }

  /** Of two entries with the target's identifier, a selection that lists it once leaves one out. */
  lemma SecondCopyLeftOut(all: seq<Contact>, id: Id, r: seq<Contact>, a: nat, b: nat) returns (x: Contact)
    requires a < b < |all| && all[a].id == all[b].id == id && r != []
    requires forall i :: 0 < i < |r| ==> r[i].id != id
    ensures x.id == id && x in multiset(all) - multiset(r)
  {
    var rest := r[1..];
    assert r == [r[0]] + rest;
    assert all[a] !in rest && all[b] !in rest;
    if all[a] == all[b] {
      TwiceListed(all, a, b);
      x := all[a];
    } else {
      x := if r[0] == all[a] then all[b] else all[a];
      assert x in multiset(all);
    }
  }

  /** A lookup for an identifier that is listed twice finds it first and second. */
  lemma DuplicateComesFirst(all: seq<Contact>, id: Id, n: nat, r: seq<Contact>, a: nat, b: nat)
    requires IsClosest(all, id, n, r) && n >= 2 && a < b < |all| && all[a].id == all[b].id == id
    ensures |r| >= 2 && r[0].id == id && r[1].id == id
  {
    ClosestFirst(all, id, n, r, all[a]);
    if r[0].id != id { CloserThanOthers(id, all[a], r[0]); }
    if r[1].id != id {
      forall i | 0 < i < |r| ensures r[i].id != id {
        if r[i].id == id { CloserThanOthers(id, r[i], r[1]); }
      }
      assert r[1] in r;
      var x := SecondCopyLeftOut(all, id, r, a, b);
      CloserThanOthers(id, x, r[1]);
    }
  }

  lemma FirstTwoAreAsked(r: seq<Contact>)
    requires |r| >= 2 && r[0].id == r[1].id
    ensures !DistinctIds(Unqueried(r, {}, ALPHA))
  {
    var batch, rest := Unqueried(r, {}, ALPHA), r[1..];
    assert rest[0] == r[1] && r[0].id !in {} && rest[0].id !in {};
    assert Unqueried(rest, {}, 2) == [rest[0]] + Unqueried(rest[1..], {}, 1);
    assert batch == [r[0]] + Unqueried(rest, {}, 2);
    assert batch[0].id == batch[1].id;
  }

  /** Entries of one bucket are entries of the table, in their order. */
  lemma {:induction false} FlattenPositions(bs: seq<Bucket>, i: nat, j: nat, k: nat) returns (a: nat, b: nat)
    requires i < |bs| && j < k < |bs[i]|
    ensures a < b < |Flatten(bs)| && Flatten(bs)[a] == bs[i][j] && Flatten(bs)[b] == bs[i][k]
  {
    if i == 0 {
      a, b := j, k;
    } else {
      a, b := FlattenPositions(bs[1..], i - 1, j, k);
      a, b := a + |bs[0]|, b + |bs[0]|;
    }
  }

  /** The first batch of every lookup in this table asks distinct contacts. */
  ghost predicate FirstBatchesDistinct(bs: seq<Bucket>) {
    forall target: Id, r :: IsClosest(Flatten(bs), target, K, r) ==> DistinctIds(Unqueried(r, {}, ALPHA))
  }

  lemma DuplicateShows(bs: seq<Bucket>, i: nat, j: nat, k: nat)
    requires i < |bs| && j < k < |bs[i]| && bs[i][j].id == bs[i][k].id
    ensures !FirstBatchesDistinct(bs)
  {
    var id, all := bs[i][j].id, Flatten(bs);
    var a, b := FlattenPositions(bs, i, j, k);
    var r := ClosestExists(all, id, K);
    DuplicateComesFirst(all, id, K, r, a, b);
    FirstTwoAreAsked(r);
  }

  /**
   * Exactly when nobody is asked twice: the first batches of all lookups in a table
   * are free of duplicates if and only if the table lists nobody twice; a lookup for
   * an identifier listed twice asks it twice.
   */
  lemma AskedTwiceIff(self: Id, bs: seq<Bucket>)
    requires GoodTable(self, bs)
    ensures FirstBatchesDistinct(bs) <==> OncePerId(bs)
  {
    if OncePerId(bs) {
      forall target: Id, r | IsClosest(Flatten(bs), target, K, r) ensures DistinctIds(Unqueried(r, {}, ALPHA)) {
        ShortlistFacts(self, bs, target, r);
        UnqueriedDistinct(r, {}, ALPHA);
      }
    } else {
      var i :| 0 <= i < |bs| && !UniqueIds(bs[i]);
      var j, k :| 0 <= j < k < |bs[i]| && bs[i][j].id == bs[i][k].id;
      DuplicateShows(bs, i, j, k);
    }
  }

  lemma ValidIsGoodTable(t: Table)
    requires Valid(t)
    ensures GoodTable(t.self, t.buckets)
    ensures OncePerId(t.buckets) <==> Unique(t)
  {
    forall i, j | 0 <= i < |t.buckets| && 0 <= j < |t.buckets[i]|
      ensures t.buckets[i][j].id != t.self && Index(t.self, t.buckets[i][j].id) == i
    {
      assert t.buckets[i][j] in t.buckets[i];
    }
  }

  /** Some run from this table leads to one in which a lookup asks somebody twice. */
  ghost predicate CanAskTwice(t: Table)
    requires Valid(t)
  {
    exists es :: Run(t, es) && !FirstBatchesDistinct(Final(t, es).buckets)
  }

  /** And such tables are reached from the empty one. */
  lemma AskedTwiceIsReachable()
    ensures Valid(NewTable(PeerId(0))) && CanAskTwice(NewTable(PeerId(0)))
  {
    UniquenessFailsFromEmpty();
    var t := NewTable(PeerId(0));
    var es :| Run(t, es) && !Unique(Final(t, es));
    ValidIsGoodTable(Final(t, es));
    AskedTwiceIff(Final(t, es).self, Final(t, es).buckets);
  }

  /** The next batch from the shortlist of a table. */
  method PlanBatch(rt: RoutingTable, target: Id, shortlist: seq<Contact>, queried: set<Id>, ghost asked: seq<Id>)
    returns (batch: seq<Contact>, marked: set<Id>)
    requires rt.Valid() && GoodTable(rt.self, rt.buckets[..]) && IsClosest(Flatten(rt.buckets[..]), target, K, shortlist)
    requires forall id :: id in queried <==> id in asked
    ensures forall c :: c in batch ==> c in shortlist && c.id !in asked
    ensures OncePerId(rt.buckets[..]) ==> DistinctIds(batch)
    ensures batch == [] ==> forall c :: c in shortlist ==> c.id in asked
    ensures forall id :: id in marked <==> id in asked + IdsOf(batch)
  {
    ShortlistFacts(rt.self, rt.buckets[..], target, shortlist);
    batch, marked := NextBatch(shortlist, queried, asked);
  }

  /** The table after a round: the answers and what others did meanwhile, then the hints. */
  function AfterRound(self: Id, bs: seq<Bucket>, batch: seq<Contact>, round: Round): (cs: seq<Bucket>)
    requires |bs| == ID_BITS
    ensures |cs| == ID_BITS
  {
    AfterArrivals(self, AfterArrivals(self, bs, batch, round.arrivals), [], Hearsay(round.learned, round.gaps, 0))
  }

  /** Query one batch, take in the replies, and select again. */
  method OneRound(rt: RoutingTable, target: Id, shortlist: seq<Contact>, batch: seq<Contact>, round: Round, pingSet: bool)
    returns (next: seq<Contact>)
    requires rt.Valid() && GoodTable(rt.self, rt.buckets[..])
    requires shortlist != [] && IsClosest(Flatten(rt.buckets[..]), target, K, shortlist)
    requires forall c :: c in batch ==> c in shortlist
    modifies rt.buckets
    ensures rt.buckets[..] == AfterRound(rt.self, old(rt.buckets[..]), batch, round)
    ensures GoodTable(rt.self, rt.buckets[..]) && Extends(old(rt.buckets[..]), rt.buckets[..])
    ensures forall c :: c in round.learned ==> KnownOrFull(rt.self, rt.buckets[..], c.id)
    ensures next != [] && IsClosest(Flatten(rt.buckets[..]), target, K, next)
    ensures ClosestId(target, shortlist) == ClosestId(target, next)
            || Distance(target, ClosestId(target, next).value) < Distance(target, ClosestId(target, shortlist).value)
  {
    ghost var bs := rt.buckets[..];
    ShortlistFacts(rt.self, bs, target, shortlist);
    TakeArrivals(rt, batch, round.arrivals, pingSet);
    ghost var mid := rt.buckets[..];
    HintLearned(rt, round.learned, round.gaps, pingSet);
    ExtendsTrans(bs, mid, rt.buckets[..]);
    next := rt.Closest(target, K);
    RoundProgress(bs, rt.buckets[..], target, shortlist, next);
  }

  /** What the lookup loop keeps, round after round. */
  ghost predicate Searching(self: Id, bs: seq<Bucket>, target: Id, net: nat -> Round, rounds: nat,
                            shortlist: seq<Contact>, once: bool, asked: seq<Id>, trail: seq<Id>)
  {
    && GoodTable(self, bs) && IsClosest(Flatten(bs), target, K, shortlist)
    && AllLearned(self, bs, net, rounds)
    && (once ==> OncePerId(bs) && Distinct(asked)) && |asked| >= rounds
    && Falling(target, trail)
    && if shortlist == [] then trail == [] && rounds == 0
       else |trail| == rounds + 1 && trail[rounds] == ClosestId(target, shortlist).value
  }

  /** The closest contact did not change in the last round. */
  predicate Stalled(target: Id, trail: seq<Id>) {
    |trail| >= 2 && trail[|trail| - 1] == trail[|trail| - 2] && Falling(target, trail[..|trail| - 1])
  }

  lemma TrailGrows(target: Id, trail: seq<Id>, id: Id)
    requires trail != [] && Falling(target, trail)
    ensures Distance(target, id) < Distance(target, trail[|trail| - 1]) ==> Falling(target, trail + [id])
    ensures id == trail[|trail| - 1] ==> Stalled(target, trail + [id])
  {
    assert (trail + [id])[..|trail|] == trail;
  }

  /** Why the loop ended: all of the closest contacts had been asked, or a round brought nobody closer. */
  ghost predicate Ended(target: Id, shortlist: seq<Contact>, asked: seq<Id>, trail: seq<Id>) {
    && |trail| - 1 <= |asked|
    && (if shortlist == [] then trail == [] else trail != [] && trail[|trail| - 1] == ClosestId(target, shortlist).value)
    && ((Falling(target, trail) && forall c :: c in shortlist ==> c.id in asked) || Stalled(target, trail))
  }

  lemma AllAskedEnds(self: Id, bs: seq<Bucket>, target: Id, net: nat -> Round, rounds: nat,
                     shortlist: seq<Contact>, once: bool, asked: seq<Id>, trail: seq<Id>)
    requires Searching(self, bs, target, net, rounds, shortlist, once, asked, trail)
    requires forall c :: c in shortlist ==> c.id in asked
    ensures Ended(target, shortlist, asked, trail)
  {
  }

  /** A round that brought someone closer. */
  lemma SearchGoesOn(self: Id, bs: seq<Bucket>, target: Id, net: nat -> Round, rounds: nat,
                     next: seq<Contact>, once: bool, asked: seq<Id>, trail: seq<Id>)
    requires GoodTable(self, bs) && next != [] && IsClosest(Flatten(bs), target, K, next)
    requires AllLearned(self, bs, net, rounds + 1) && (once ==> OncePerId(bs) && Distinct(asked)) && |asked| > rounds
    requires |trail| == rounds + 1 && Falling(target, trail)
    requires Distance(target, ClosestId(target, next).value) < Distance(target, trail[rounds])
    ensures Searching(self, bs, target, net, rounds + 1, next, once, asked, trail + [ClosestId(target, next).value])
  {
    TrailGrows(target, trail, ClosestId(target, next).value);
  }

  /** A round that did not. */
  lemma SearchEnds(target: Id, next: seq<Contact>, asked: seq<Id>, trail: seq<Id>)
    requires next != [] && trail != [] && |trail| <= |asked| && Falling(target, trail)
    requires ClosestId(target, next).value == trail[|trail| - 1]
    ensures Ended(target, next, asked, trail + [ClosestId(target, next).value])
  {
    TrailGrows(target, trail, ClosestId(target, next).value);
  }

  /** After a round the search goes on with someone closer, or it has ended. */
  lemma RoundConcludes(self: Id, bs: seq<Bucket>, target: Id, net: nat -> Round, rounds: nat, best: Id,
                       next: seq<Contact>, once: bool, asked: seq<Id>, trail: seq<Id>)
    requires GoodTable(self, bs) && next != [] && IsClosest(Flatten(bs), target, K, next)
    requires AllLearned(self, bs, net, rounds + 1) && (once ==> OncePerId(bs) && Distinct(asked)) && |asked| > rounds
    requires |trail| == rounds + 1 && Falling(target, trail) && trail[rounds] == best
    requires ClosestId(target, next).value == best || Distance(target, ClosestId(target, next).value) < Distance(target, best)
    ensures var trail' := trail + [ClosestId(target, next).value];
            if ClosestId(target, next).value != best then Searching(self, bs, target, net, rounds + 1, next, once, asked, trail')
            else Ended(target, next, asked, trail')
  {
    if ClosestId(target, next).value != best {
      SearchGoesOn(self, bs, target, net, rounds, next, once, asked, trail);
    } else {
      SearchEnds(target, next, asked, trail);
    }
  }

  /** One turn of the loop: `closer` is false when it ends with the closest contact unchanged. */
  method Turn(rt: RoutingTable, target: Id, net: nat -> Round, rounds: nat, pingSet: bool, shortlist: seq<Contact>,
              batch: seq<Contact>, ghost once: bool, ghost asked: seq<Id>, ghost trail: seq<Id>)
    returns (next: seq<Contact>, closer: bool, ghost asked': seq<Id>, ghost trail': seq<Id>)
    requires rt.Valid() && Searching(rt.self, rt.buckets[..], target, net, rounds, shortlist, once, asked, trail)
    requires batch != [] && forall c :: c in batch ==> c in shortlist && c.id !in asked
    requires once ==> DistinctIds(batch)
    modifies rt.buckets
    ensures GoodTable(rt.self, rt.buckets[..]) && Extends(old(rt.buckets[..]), rt.buckets[..])
    ensures AllLearned(rt.self, rt.buckets[..], net, rounds + 1)
    ensures asked' == asked + IdsOf(batch)
    ensures once ==> Distinct(asked')
    ensures next != [] && IsClosest(Flatten(rt.buckets[..]), target, K, next)
    ensures trail' == trail + [ClosestId(target, next).value]
    ensures closer ==>
      && Searching(rt.self, rt.buckets[..], target, net, rounds + 1, next, once, asked', trail')
      && Distance(target, ClosestId(target, next).value) < Distance(target, ClosestId(target, shortlist).value)
    ensures !closer ==> Ended(target, next, asked', trail')
  {
    ghost var bs := rt.buckets[..];
    assert batch[0] in batch && batch[0] in shortlist;
    if once { AskedAfter(asked, batch); }
    asked' := asked + IdsOf(batch);
    next := OneRound(rt, target, shortlist, batch, net(rounds), pingSet);
    AllLearnedStep(rt.self, bs, rt.buckets[..], net, rounds);
    closer := ClosestId(target, shortlist) != ClosestId(target, next);
    trail' := trail + [ClosestId(target, next).value];
    RoundConcludes(rt.self, rt.buckets[..], target, net, rounds, ClosestId(target, shortlist).value, next, once, asked', trail);
  }

  /** The loop of the lookup. */
  method Iterate(rt: RoutingTable, target: Id, net: nat -> Round, pingSet: bool)
    returns (shortlist: seq<Contact>, ghost asked: seq<Id>, ghost trail: seq<Id>)
    requires rt.Valid() && GoodTable(rt.self, rt.buckets[..])
    modifies rt.buckets
    ensures GoodTable(rt.self, rt.buckets[..]) && Extends(old(rt.buckets[..]), rt.buckets[..])
    ensures trail != [] ==> AllLearned(rt.self, rt.buckets[..], net, |trail| - 1)
    ensures IsClosest(Flatten(rt.buckets[..]), target, K, shortlist)
    ensures OncePerId(old(rt.buckets[..])) ==> Distinct(asked)
    ensures Ended(target, shortlist, asked, trail)
  {
    ghost var once := OncePerId(rt.buckets[..]);
    var queried: set<Id> := {};
    shortlist := rt.Closest(target, K);
    var rounds := 0;
    asked, trail := [], if shortlist == [] then [] else [ClosestId(target, shortlist).value];
    while true
      invariant Extends(old(rt.buckets[..]), rt.buckets[..])
      invariant Searching(rt.self, rt.buckets[..], target, net, rounds, shortlist, once, asked, trail)
      invariant forall id :: id in queried <==> id in asked
      decreases if shortlist == [] then 0 else Distance(target, ClosestId(target, shortlist).value)
    {
      ghost var bs := rt.buckets[..];
      var batch, closer;
      batch, queried := PlanBatch(rt, target, shortlist, queried, asked);
      if batch == [] {
        AllAskedEnds(rt.self, bs, target, net, rounds, shortlist, once, asked, trail);
        return;
      }
      shortlist, closer, asked, trail := Turn(rt, target, net, rounds, pingSet, shortlist, batch, once, asked, trail);
      ExtendsTrans(old(rt.buckets[..]), bs, rt.buckets[..]);
      rounds := rounds + 1;
      if !closer { return; }
    }
  }

  /**
   * Lookup, for every target, every good table and every behaviour of the peers.
   * `asked` lists the queried identifiers in order and `trail` the closest
   * identifier before the first and after each round.
   */
  method Lookup(rt: RoutingTable, target: Id, net: nat -> Round, pingSet: bool)
    returns (r: seq<Contact>, ghost asked: seq<Id>, ghost trail: seq<Id>)
    requires rt.Valid() && GoodTable(rt.self, rt.buckets[..])
    modifies rt.buckets
    // the table stays good, forgets nobody and took in what the rounds taught
    ensures GoodTable(rt.self, rt.buckets[..]) && Extends(old(rt.buckets[..]), rt.buckets[..])
    ensures trail != [] ==> AllLearned(rt.self, rt.buckets[..], net, |trail| - 1)
    // the answer is the sorted K closest of the final table, without this node
    ensures IsClosest(Flatten(rt.buckets[..]), target, K, r)
    ensures forall c :: c in r ==> c.id != rt.self
    // nobody is asked twice, unless the table listed somebody twice
    ensures OncePerId(old(rt.buckets[..])) ==> Distinct(asked)
    // every round asked somebody and brought someone strictly closer, until all of the answer had been asked or a round did not
    ensures Ended(target, r, asked, trail)
  {
    var shortlist;
    shortlist, asked, trail := Iterate(rt, target, net, pingSet);
    StableSortOfSorted(target, shortlist);
    r := StableSort(target, shortlist);
    ShortlistFacts(rt.self, rt.buckets[..], target, r);
  }
}
