/**
 * The k-bucket routing table (core/dht/routing.go) under all interleavings.
 *
 * A bucket is a sequence from least to most recently seen. Each operation of the
 * source that runs under the table lock is one function on a bucket; the
 * asynchronous eviction tail of a full-bucket Update is two separate steps with
 * an arbitrary delay and ping result between them.
 */
module Routing {
  import opened NodeId

  const K: nat := 20

  /** lastSeen 0 is Go's zero time, before every clock reading. */
  datatype Contact = Contact(id: Id, address: string, alt: seq<string>, lastSeen: nat)

  type Bucket = seq<Contact>

  // ----- mergeAddresses -----

  /** Appends to `acc` the addresses of `xs` that are non-empty, not `primary` and not yet listed. */
  function AddNew(acc: seq<string>, primary: string, xs: seq<string>): seq<string>
    decreases |xs|
  {
    if xs == [] then acc
    else if xs[0] == "" || xs[0] == primary || xs[0] in acc then AddNew(acc, primary, xs[1..])
    else AddNew(acc + [xs[0]], primary, xs[1..])
  }

  function MergeAddresses(newer: Contact, prior: Contact): Contact {
    var p := newer.address;
    newer.(alt := AddNew(AddNew(AddNew([], p, newer.alt), p, [prior.address]), p, prior.alt))
  }

  predicate Distinct<T(==)>(s: seq<T>) {
    forall i, j :: 0 <= i < j < |s| ==> s[i] != s[j]
  }

  lemma {:induction false} AddNewIsUnion(acc: seq<string>, primary: string, xs: seq<string>)
    requires Distinct(acc)
    ensures Distinct(AddNew(acc, primary, xs))
    ensures forall a :: a in AddNew(acc, primary, xs) <==> a in acc || (a in xs && a != "" && a != primary)
    decreases |xs|
  {
    if xs != [] {
      assert forall a :: a in xs <==> a == xs[0] || a in xs[1..];
      if xs[0] == "" || xs[0] == primary || xs[0] in acc {
        AddNewIsUnion(acc, primary, xs[1..]);
      } else {
        AddNewIsUnion(acc + [xs[0]], primary, xs[1..]);
      }
    }
  }

  function AllAddresses(c: Contact): seq<string> {
    (if c.address != "" then [c.address] else []) + c.alt
  }

  /** Merging loses no address of either side, adds none, and lists each alternate once. */
  lemma MergeKeepsEveryAddress(newer: Contact, prior: Contact)
    ensures var m := MergeAddresses(newer, prior);
            && m.id == newer.id && m.address == newer.address && m.lastSeen == newer.lastSeen
            && Distinct(m.alt) && m.address !in m.alt && "" !in m.alt
            && forall a :: a != "" ==> (a in AllAddresses(m) <==> a in AllAddresses(newer) || a in AllAddresses(prior))
  {
    var p := newer.address;
    var one := AddNew([], p, newer.alt);
    var two := AddNew(one, p, [prior.address]);
    AddNewIsUnion([], p, newer.alt);
    AddNewIsUnion(one, p, [prior.address]);
    AddNewIsUnion(two, p, prior.alt);
  }

  // ----- bucket operations -----

  /** Position of the first contact with this identifier; the length if there is none. */
  function Find(b: Bucket, id: Id): (i: nat)
    ensures i <= |b|
    ensures i < |b| ==> b[i].id == id
    ensures forall j :: 0 <= j < i ==> b[j].id != id
  {
    if b == [] then 0 else if b[0].id == id then 0 else 1 + Find(b[1..], id)
  }

  predicate Has(b: Bucket, id: Id) {
    exists i :: 0 <= i < |b| && b[i].id == id
  }

  function Without(b: Bucket, i: nat): Bucket
    requires i < |b|
  {
    b[..i] + b[i + 1..]
  }

  function RemoveFrom(b: Bucket, id: Id): Bucket {
    var i := Find(b, id);
    if i < |b| then Without(b, i) else b
  }

  function UpdateBucket(b: Bucket, c: Contact, now: nat): Bucket {
    var newer := c.(lastSeen := now);
    var i := Find(b, c.id);
    if i < |b| then Without(b, i) + [MergeAddresses(newer, b[i])]
    else if |b| < K then b + [newer]
    else b
  }

  /** Update has to ask the head: the bucket is full and the contact unknown. */
  predicate MustPing(b: Bucket, c: Contact) {
    Find(b, c.id) == |b| && |b| >= K
  }

  function HintBucket(b: Bucket, c: Contact): Bucket {
    if Find(b, c.id) == |b| && |b| < K then [c.(lastSeen := 0)] + b else b
  }

  /** Second half of maybeEvictHead after a successful ping. */
  function RefreshHead(b: Bucket, head: Contact, now: nat): Bucket {
    if |b| > 0 && b[0].id == head.id then b[1..] + [b[0].(lastSeen := now)] else b
  }

  /** Second half of maybeEvictHead after a failed ping. */
  function ReplaceHead(b: Bucket, head: Contact, candidate: Contact, now: nat): Bucket {
    var e := RemoveFrom(b, head.id);
    if |e| < K then e + [candidate.(lastSeen := now)] else e
  }

  // ----- what the bucket operations do, without their helpers -----

  /** Some entry of this identifier lists the address. */
  predicate HasAddress(b: Bucket, id: Id, a: string) {
    exists j :: 0 <= j < |b| && b[j].id == id && a in AllAddresses(b[j])
  }

  /**
   * Update of a contact whose identifier is first listed at `i`: the other entries stay
   * as and where they are, and at the tail stands the contact as it was given, seen now,
   * with exactly the non-empty addresses of both.
   */
  lemma UpdateKnown(b: Bucket, c: Contact, now: nat, i: nat)
    requires i < |b| && b[i].id == c.id && forall j :: 0 <= j < i ==> b[j].id != c.id
    ensures var r := UpdateBucket(b, c, now);
            && !MustPing(b, c) && |r| == |b| && r[..|b| - 1] == b[..i] + b[i + 1..]
            && var tail := r[|b| - 1];
               && tail.id == c.id && tail.address == c.address && tail.lastSeen == now
               && Distinct(tail.alt) && tail.address !in tail.alt && "" !in tail.alt
               && forall a :: a != "" ==> (a in AllAddresses(tail) <==> a in AllAddresses(c) || a in AllAddresses(b[i]))
  {
    assert Find(b, c.id) == i;
    MergeKeepsEveryAddress(c.(lastSeen := now), b[i]);
    assert AllAddresses(c.(lastSeen := now)) == AllAddresses(c);
  }

  /** Update of an unknown contact: appended, seen now, if there is room; otherwise nothing, and the head is to be asked. */
  lemma UpdateUnknown(b: Bucket, c: Contact, now: nat)
    requires !Has(b, c.id)
    ensures UpdateBucket(b, c, now) == if |b| < K then b + [Contact(c.id, c.address, c.alt, now)] else b
    ensures MustPing(b, c) <==> |b| >= K
  {
  }

  /** Hint changes nothing for a known contact or a full bucket, and otherwise puts the contact first, never seen. */
  lemma HintEffect(b: Bucket, c: Contact)
    ensures Has(b, c.id) || |b| >= K ==> HintBucket(b, c) == b
    ensures !Has(b, c.id) && |b| < K ==> HintBucket(b, c) == [Contact(c.id, c.address, c.alt, 0)] + b
  {
  }

  /** Removing takes out the first entry of the identifier and no other. */
  lemma RemoveEffect(b: Bucket, id: Id, i: nat)
    requires i <= |b| && (i < |b| ==> b[i].id == id) && forall j :: 0 <= j < i ==> b[j].id != id
    ensures RemoveFrom(b, id) == if i < |b| then b[..i] + b[i + 1..] else b
  {
    assert Find(b, id) == i;
  }

  /** A head that answered moves to the tail, seen now; if it is no longer the head, nothing happens. */
  lemma RefreshEffect(b: Bucket, head: Contact, now: nat)
    ensures var r := RefreshHead(b, head, now);
            if b != [] && b[0].id == head.id
            then |r| == |b| && r[..|b| - 1] == b[1..] && r[|b| - 1] == Contact(b[0].id, b[0].address, b[0].alt, now)
            else r == b
  {
  }

  /** A dead head's entry goes, wherever it stands by now, and the candidate comes last, seen now, if there is room. */
  lemma ReplaceEffect(b: Bucket, head: Contact, candidate: Contact, now: nat, i: nat)
    requires i <= |b| && (i < |b| ==> b[i].id == head.id) && forall j :: 0 <= j < i ==> b[j].id != head.id
    ensures var rest := if i < |b| then b[..i] + b[i + 1..] else b;
            ReplaceHead(b, head, candidate, now) ==
            if |rest| < K then rest + [Contact(candidate.id, candidate.address, candidate.alt, now)] else rest
  {
    RemoveEffect(b, head.id, i);
  }

  // ----- the table as a state machine -----

  datatype Tail = Tail(idx: nat, head: Contact, candidate: Contact, pinging: bool)

  datatype Table = Table(self: Id, buckets: seq<Bucket>, tails: multiset<Tail>, pingSet: bool, clock: nat)

  datatype Event =
    | Update(c: Contact, now: nat)
    | Hint(c: Contact)
    | Remove(id: Id)
    | SetEvictionPing(on: bool)
    | TailStart(tail: Tail)
    | TailEnd(tail: Tail, alive: bool, now: nat)

  function NewTable(self: Id): Table {
    Table(self, seq(ID_BITS, _ => []), multiset{}, false, 0)
  }

  /** The bucket an identifier belongs to; 256, past the last bucket, for the local identifier itself. */
  function Index(self: Id, id: Id): (i: nat)
    ensures i <= ID_BITS
    ensures i == ID_BITS <==> id == self
  {
    FullPrefixIffEqual(self, id);
    CommonPrefixLen(self, id)
  }

  /** Clock readings do not decrease, tails that run are pending, and Remove is not given the local identifier. */
  predicate Possible(t: Table, e: Event) {
    match e
    case Update(_, now) => now >= t.clock
    case Remove(id) => id != t.self
    case TailStart(tail) => tail in t.tails && !tail.pinging
    case TailEnd(tail, _, now) => tail in t.tails && tail.pinging && now >= t.clock
    case _ => true
  }

  function SetBucket(t: Table, i: nat, b: Bucket): Table
    requires i < |t.buckets|
  {
    t.(buckets := t.buckets[i := b])
  }

  function Apply(t: Table, e: Event): (r: Table)
    requires |t.buckets| == ID_BITS
    requires Possible(t, e) && (e.TailEnd? ==> e.tail.idx < ID_BITS)
    ensures |r.buckets| == ID_BITS
  {
    match e
    case Update(c, now) =>
      if c.id == t.self then t
      else
        var i := Index(t.self, c.id);
        var b := t.buckets[i];
        var u := SetBucket(t, i, UpdateBucket(b, c, now)).(clock := now);
        if MustPing(b, c) && t.pingSet
        then u.(tails := t.tails + multiset{Tail(i, b[0], c.(lastSeen := now), false)})
        else u
    case Hint(c) =>
      if c.id == t.self then t
      else
        var i := Index(t.self, c.id);
        SetBucket(t, i, HintBucket(t.buckets[i], c))
    case Remove(id) =>
      var i := Index(t.self, id);
      SetBucket(t, i, RemoveFrom(t.buckets[i], id))
    case SetEvictionPing(on) => t.(pingSet := on)
    case TailStart(tail) =>
      t.(tails := t.tails - multiset{tail} + if t.pingSet then multiset{tail.(pinging := true)} else multiset{})
    case TailEnd(tail, alive, now) =>
      var b := t.buckets[tail.idx];
      var b' := if alive then RefreshHead(b, tail.head, now) else ReplaceHead(b, tail.head, tail.candidate, now);
      SetBucket(t, tail.idx, b').(tails := t.tails - multiset{tail}, clock := now)
  }

  // ----- the invariant -----

  predicate GoodContact(self: Id, i: nat, clock: nat, c: Contact) {
    c.id != self && Index(self, c.id) == i && c.lastSeen <= clock
  }

  predicate Sorted(b: Bucket) {
    forall i, j :: 0 <= i < j < |b| ==> b[i].lastSeen <= b[j].lastSeen
  }

  predicate GoodBucket(self: Id, i: nat, clock: nat, b: Bucket) {
    |b| <= K && Sorted(b) && forall c :: c in b ==> GoodContact(self, i, clock, c)
  }

  predicate GoodTail(self: Id, tail: Tail) {
    && tail.idx < ID_BITS
    && tail.candidate.id != self && Index(self, tail.candidate.id) == tail.idx
    && tail.head.id != tail.candidate.id
  }

  ghost predicate Valid(t: Table) {
    && |t.buckets| == ID_BITS
    && (forall i :: 0 <= i < ID_BITS ==> GoodBucket(t.self, i, t.clock, t.buckets[i]))
    && (forall tail :: tail in t.tails ==> GoodTail(t.self, tail))
  }

  lemma WithoutIsGood(self: Id, i: nat, clock: nat, b: Bucket, k: nat)
    requires GoodBucket(self, i, clock, b) && k < |b|
    ensures GoodBucket(self, i, clock, Without(b, k)) && |Without(b, k)| < K
  {
  }

  lemma LaterClock(self: Id, i: nat, clock: nat, now: nat, b: Bucket)
    requires GoodBucket(self, i, clock, b) && clock <= now
    ensures GoodBucket(self, i, now, b)
  {
  }

  /** A contact stamped with the current time keeps the bucket sorted at its tail. */
  lemma AppendIsGood(self: Id, i: nat, clock: nat, b: Bucket, c: Contact)
    requires GoodBucket(self, i, clock, b) && |b| < K
    requires GoodContact(self, i, clock, c) && c.lastSeen == clock
    ensures GoodBucket(self, i, clock, b + [c])
  {
    forall j | 0 <= j < |b|
      ensures b[j].lastSeen <= clock
    {
      assert b[j] in b;
    }
  }

  lemma UpdateIsGood(self: Id, i: nat, clock: nat, b: Bucket, c: Contact)
    requires GoodBucket(self, i, clock, b) && c.id != self && Index(self, c.id) == i
    ensures GoodBucket(self, i, clock, UpdateBucket(b, c, clock))
  {
    var k, newer := Find(b, c.id), c.(lastSeen := clock);
    if k < |b| {
      WithoutIsGood(self, i, clock, b, k);
      AppendIsGood(self, i, clock, Without(b, k), MergeAddresses(newer, b[k]));
    } else if |b| < K {
      AppendIsGood(self, i, clock, b, newer);
    }
  }

  lemma RemoveIsGood(self: Id, i: nat, clock: nat, b: Bucket, id: Id)
    requires GoodBucket(self, i, clock, b)
    ensures GoodBucket(self, i, clock, RemoveFrom(b, id))
  {
    var k := Find(b, id);
    if k < |b| { WithoutIsGood(self, i, clock, b, k); }
  }

  lemma HintIsGood(self: Id, i: nat, clock: nat, b: Bucket, c: Contact)
    requires GoodBucket(self, i, clock, b) && c.id != self && Index(self, c.id) == i
    ensures GoodBucket(self, i, clock, HintBucket(b, c))
  {
  }

  lemma RefreshIsGood(self: Id, i: nat, clock: nat, b: Bucket, head: Contact)
    requires GoodBucket(self, i, clock, b)
    ensures GoodBucket(self, i, clock, RefreshHead(b, head, clock))
  {
    if |b| > 0 && b[0].id == head.id {
      WithoutIsGood(self, i, clock, b, 0);
      assert Without(b, 0) == b[1..];
      assert b[0] in b;
      AppendIsGood(self, i, clock, b[1..], b[0].(lastSeen := clock));
    }
  }

  lemma ReplaceIsGood(self: Id, i: nat, clock: nat, b: Bucket, head: Contact, candidate: Contact)
    requires GoodBucket(self, i, clock, b)
    requires candidate.id != self && Index(self, candidate.id) == i
    ensures GoodBucket(self, i, clock, ReplaceHead(b, head, candidate, clock))
  {
    RemoveIsGood(self, i, clock, b, head.id);
    var e := RemoveFrom(b, head.id);
    if |e| < K { AppendIsGood(self, i, clock, e, candidate.(lastSeen := clock)); }
  }

  /** The buckets of a valid table stay good when the clock moves. */
  lemma ClockAdvances(t: Table, now: nat)
    requires Valid(t) && t.clock <= now
    ensures Valid(t.(clock := now))
  {
    forall i | 0 <= i < ID_BITS
      ensures GoodBucket(t.self, i, now, t.buckets[i])
    {
      LaterClock(t.self, i, t.clock, now, t.buckets[i]);
    }
  }

  lemma SetBucketValid(t: Table, i: nat, b: Bucket)
    requires Valid(t) && i < ID_BITS && GoodBucket(t.self, i, t.clock, b)
    ensures Valid(SetBucket(t, i, b))
  {
  }

  lemma UpdateKeepsValid(t: Table, e: Event)
    requires Valid(t) && e.Update? && Possible(t, e)
    ensures Valid(Apply(t, e))
  {
    var c, now := e.c, e.now;
    if c.id != t.self {
      var i := Index(t.self, c.id);
      var b, later := t.buckets[i], t.(clock := now);
      ClockAdvances(t, now);
      UpdateIsGood(t.self, i, now, b, c);
      SetBucketValid(later, i, UpdateBucket(b, c, now));
      assert SetBucket(t, i, UpdateBucket(b, c, now)).(clock := now) == SetBucket(later, i, UpdateBucket(b, c, now));
      if MustPing(b, c) { assert b[0].id != c.id; }
    }
  }

  lemma TailEndKeepsValid(t: Table, e: Event)
    requires Valid(t) && e.TailEnd? && Possible(t, e)
    ensures Valid(Apply(t, e))
  {
    var i, now := e.tail.idx, e.now;
    var b, later := t.buckets[i], t.(clock := now);
    ClockAdvances(t, now);
    RefreshIsGood(t.self, i, now, b, e.tail.head);
    ReplaceIsGood(t.self, i, now, b, e.tail.head, e.tail.candidate);
    var b' := if e.alive then RefreshHead(b, e.tail.head, now) else ReplaceHead(b, e.tail.head, e.tail.candidate, now);
    SetBucketValid(later, i, b');
    assert SetBucket(t, i, b').(clock := now) == SetBucket(later, i, b');
  }

  /** Every step of every interleaving keeps the table valid. */
  lemma StepKeepsValid(t: Table, e: Event)
    requires Valid(t) && Possible(t, e)
    ensures Valid(Apply(t, e))
  {
    match e {
      case Update(_, _) => UpdateKeepsValid(t, e);
      case Hint(c) =>
        if c.id != t.self {
          var i := Index(t.self, c.id);
          HintIsGood(t.self, i, t.clock, t.buckets[i], c);
          SetBucketValid(t, i, HintBucket(t.buckets[i], c));
        }
      case Remove(id) =>
        var i := Index(t.self, id);
        RemoveIsGood(t.self, i, t.clock, t.buckets[i], id);
        SetBucketValid(t, i, RemoveFrom(t.buckets[i], id));
      case SetEvictionPing(_) =>
      case TailStart(_) =>
      case TailEnd(_, _, _) => TailEndKeepsValid(t, e);
    }
  }

  // ----- unique identifiers -----

  predicate UniqueIds(b: Bucket) {
    forall i, j :: 0 <= i < j < |b| ==> b[i].id != b[j].id
  }

  ghost predicate Unique(t: Table) {
    forall i :: 0 <= i < |t.buckets| ==> UniqueIds(t.buckets[i])
  }

  /** A dead-head tail that finds its candidate already present, and room to append it. */
  predicate LateDuplicate(t: Table, e: Event)
    requires |t.buckets| == ID_BITS && (e.TailEnd? ==> e.tail.idx < ID_BITS)
  {
    && e.TailEnd? && !e.alive
    && Has(t.buckets[e.tail.idx], e.tail.candidate.id)
    && (Has(t.buckets[e.tail.idx], e.tail.head.id) || |t.buckets[e.tail.idx]| < K)
  }

  lemma WithoutUnique(b: Bucket, k: nat)
    requires UniqueIds(b) && k < |b|
    ensures UniqueIds(Without(b, k)) && !Has(Without(b, k), b[k].id)
  {
  }

  lemma AppendUniqueIff(b: Bucket, c: Contact)
    requires UniqueIds(b)
    ensures UniqueIds(b + [c]) <==> !Has(b, c.id)
  {
    var r := b + [c];
    if Has(b, c.id) {
      var i :| 0 <= i < |b| && b[i].id == c.id;
      assert r[i].id == r[|b|].id;
    }
  }

  lemma UpdateUnique(b: Bucket, c: Contact, now: nat)
    requires UniqueIds(b)
    ensures UniqueIds(UpdateBucket(b, c, now))
  {
    var k := Find(b, c.id);
    var newer := c.(lastSeen := now);
    if k < |b| {
      WithoutUnique(b, k);
      AppendUniqueIff(Without(b, k), MergeAddresses(newer, b[k]));
    } else {
      AppendUniqueIff(b, newer);
    }
  }

  lemma RemoveUnique(b: Bucket, id: Id)
    requires UniqueIds(b)
    ensures UniqueIds(RemoveFrom(b, id))
    ensures |RemoveFrom(b, id)| == |b| - if Has(b, id) then 1 else 0
    ensures forall x: Id :: x != id ==> (Has(RemoveFrom(b, id), x) <==> Has(b, x))
  {
    var k := Find(b, id);
    if k < |b| {
      WithoutUnique(b, k);
      forall x: Id | x != id && Has(b, x)
        ensures Has(Without(b, k), x)
      {
        var i :| 0 <= i < |b| && b[i].id == x;
        assert Without(b, k)[if i < k then i else i - 1].id == x;
      }
    }
  }

  lemma HintUnique(b: Bucket, c: Contact)
    requires UniqueIds(b)
    ensures UniqueIds(HintBucket(b, c))
  {
  }

  lemma RefreshUnique(b: Bucket, head: Contact, now: nat)
    requires UniqueIds(b)
    ensures UniqueIds(RefreshHead(b, head, now))
  {
  }

  lemma ReplaceUniqueIff(b: Bucket, head: Contact, candidate: Contact, now: nat)
    requires UniqueIds(b) && |b| <= K && head.id != candidate.id
    ensures UniqueIds(ReplaceHead(b, head, candidate, now)) <==>
            !(Has(b, candidate.id) && (Has(b, head.id) || |b| < K))
  {
    RemoveUnique(b, head.id);
    AppendUniqueIff(RemoveFrom(b, head.id), candidate.(lastSeen := now));
  }

  lemma SetBucketUniqueIff(t: Table, i: nat, b: Bucket)
    requires Unique(t) && i < |t.buckets|
    ensures Unique(SetBucket(t, i, b)) <==> UniqueIds(b)
  {
    assert SetBucket(t, i, b).buckets[i] == b;
  }

  /** A step keeps identifiers unique exactly when it is not a late duplicate. */
  lemma StepUniqueIff(t: Table, e: Event)
    requires Valid(t) && Unique(t) && Possible(t, e)
    ensures Unique(Apply(t, e)) <==> !LateDuplicate(t, e)
  {
    match e {
      case Update(c, now) =>
        if c.id != t.self {
          var i := Index(t.self, c.id);
          UpdateUnique(t.buckets[i], c, now);
          SetBucketUniqueIff(t, i, UpdateBucket(t.buckets[i], c, now));
        }
      case Hint(c) =>
        if c.id != t.self {
          var i := Index(t.self, c.id);
          HintUnique(t.buckets[i], c);
          SetBucketUniqueIff(t, i, HintBucket(t.buckets[i], c));
        }
      case Remove(id) =>
        var i := Index(t.self, id);
        RemoveUnique(t.buckets[i], id);
        SetBucketUniqueIff(t, i, RemoveFrom(t.buckets[i], id));
      case SetEvictionPing(_) =>
      case TailStart(_) =>
      case TailEnd(tail, alive, now) => TailEndUniqueIff(t, e);
    }
  }

  lemma TailEndUniqueIff(t: Table, e: Event)
    requires Valid(t) && Unique(t) && Possible(t, e) && e.TailEnd?
    ensures Unique(Apply(t, e)) <==> !LateDuplicate(t, e)
  {
    var tail, i := e.tail, e.tail.idx;
    var b := t.buckets[i];
    if e.alive {
      RefreshUnique(b, tail.head, e.now);
      SetBucketUniqueIff(t, i, RefreshHead(b, tail.head, e.now));
    } else {
      ReplaceUniqueIff(b, tail.head, tail.candidate, e.now);
      SetBucketUniqueIff(t, i, ReplaceHead(b, tail.head, tail.candidate, e.now));
    }
  }

  // ----- whole runs -----

  ghost predicate Run(t: Table, es: seq<Event>)
    requires Valid(t)
    decreases |es|
  {
    es == [] || (Possible(t, es[0]) && (StepKeepsValid(t, es[0]); Run(Apply(t, es[0]), es[1..])))
  }

  ghost function Final(t: Table, es: seq<Event>): (r: Table)
    requires Valid(t) && Run(t, es)
    ensures Valid(r)
    decreases |es|
  {
    if es == [] then t else (StepKeepsValid(t, es[0]); Final(Apply(t, es[0]), es[1..]))
  }

  /** No step of the run is a late duplicate. */
  ghost predicate NoLateDuplicate(t: Table, es: seq<Event>)
    requires Valid(t) && Run(t, es)
    decreases |es|
  {
    es == [] || (!LateDuplicate(t, es[0]) && (StepKeepsValid(t, es[0]); NoLateDuplicate(Apply(t, es[0]), es[1..])))
  }

  lemma NewTableValid(self: Id)
    ensures Valid(NewTable(self)) && Unique(NewTable(self))
  {
  }

  /** In any interleaving without a late duplicate identifiers stay unique. */
  lemma {:induction false} RunKeepsUnique(t: Table, es: seq<Event>)
    requires Valid(t) && Unique(t) && Run(t, es) && NoLateDuplicate(t, es)
    ensures Unique(Final(t, es))
    decreases |es|
  {
    if es != [] {
      StepKeepsValid(t, es[0]);
      StepUniqueIff(t, es[0]);
      RunKeepsUnique(Apply(t, es[0]), es[1..]);
    }
  }

  /** A run that starts with the empty table. */
  ghost predicate RunsFromNew(self: Id, es: seq<Event>) {
    NewTableValid(self);
    Run(NewTable(self), es)
  }

  /** What every reachable table looks like, spelled out. */
  lemma ReachableTable(self: Id, es: seq<Event>, i: nat)
    requires RunsFromNew(self, es) && i < ID_BITS
    ensures Valid(NewTable(self))
    ensures var t := Final(NewTable(self), es);
            && |t.buckets| == ID_BITS && |t.buckets[i]| <= K && Sorted(t.buckets[i])
            && !Has(t.buckets[i], t.self)
            && forall j :: 0 <= j < |t.buckets[i]| ==> CommonPrefixLen(t.self, t.buckets[i][j].id) == i
    ensures NoLateDuplicate(NewTable(self), es) ==> UniqueIds(Final(NewTable(self), es).buckets[i])
  {
    NewTableValid(self);
    var t := Final(NewTable(self), es);
    assert GoodBucket(t.self, i, t.clock, t.buckets[i]);
    forall j | 0 <= j < |t.buckets[i]|
      ensures GoodContact(t.self, i, t.clock, t.buckets[i][j])
    {
      assert t.buckets[i][j] in t.buckets[i];
    }
    if NoLateDuplicate(NewTable(self), es) { RunKeepsUnique(NewTable(self), es); }
  }

  // ----- no address is lost or made up -----

  lemma EntryHasAddress(b: Bucket, j: nat, id: Id, a: string)
    requires j < |b| && b[j].id == id && a in AllAddresses(b[j])
    ensures HasAddress(b, id, a)
  {
  }

  lemma WithoutKeepsOthers(b: Bucket, i: nat, id: Id, a: string, rest: Bucket)
    requires i < |b| && rest == b[..i] + b[i + 1..] && HasAddress(b, id, a) && !(b[i].id == id && a in AllAddresses(b[i]))
    ensures HasAddress(rest, id, a)
  {
    var j :| 0 <= j < |b| && b[j].id == id && a in AllAddresses(b[j]);
    EntryHasAddress(rest, if j < i then j else j - 1, id, a);
  }

  lemma SuffixKeeps(b: Bucket, r: Bucket, id: Id, a: string)
    requires HasAddress(b, id, a) && |b| <= |r| && (r[..|b|] == b || r[|r| - |b|..] == b)
    ensures HasAddress(r, id, a)
  {
    var j :| 0 <= j < |b| && b[j].id == id && a in AllAddresses(b[j]);
    if r[..|b|] == b {
      EntryHasAddress(r, j, id, a);
    } else {
      assert r[|r| - |b|..][j] == r[|r| - |b| + j];
      EntryHasAddress(r, |r| - |b| + j, id, a);
    }
  }

  lemma UpdateKeepsAddress(b: Bucket, c: Contact, now: nat, id: Id, a: string)
    requires HasAddress(b, id, a) && a != ""
    ensures HasAddress(UpdateBucket(b, c, now), id, a)
  {
    var i, r := Find(b, c.id), UpdateBucket(b, c, now);
    if i < |b| {
      UpdateKnown(b, c, now, i);
      if b[i].id == id && a in AllAddresses(b[i]) {
        EntryHasAddress(r, |b| - 1, id, a);
      } else {
        WithoutKeepsOthers(b, i, id, a, r[..|b| - 1]);
        SuffixKeeps(r[..|b| - 1], r, id, a);
      }
    } else {
      UpdateUnknown(b, c, now);
      SuffixKeeps(b, r, id, a);
    }
  }

  lemma HintKeepsAddress(b: Bucket, c: Contact, id: Id, a: string)
    requires HasAddress(b, id, a)
    ensures HasAddress(HintBucket(b, c), id, a)
  {
    HintEffect(b, c);
    SuffixKeeps(b, HintBucket(b, c), id, a);
  }

  lemma RemoveKeepsAddress(b: Bucket, gone: Id, id: Id, a: string)
    requires HasAddress(b, id, a) && gone != id
    ensures HasAddress(RemoveFrom(b, gone), id, a)
  {
    var i := Find(b, gone);
    RemoveEffect(b, gone, i);
    if i < |b| { WithoutKeepsOthers(b, i, id, a, b[..i] + b[i + 1..]); }
  }

  lemma RefreshKeepsAddress(b: Bucket, head: Contact, now: nat, id: Id, a: string)
    requires HasAddress(b, id, a)
    ensures HasAddress(RefreshHead(b, head, now), id, a)
  {
    RefreshEffect(b, head, now);
    var r := RefreshHead(b, head, now);
    if b[0].id == head.id {
      if b[0].id == id && a in AllAddresses(b[0]) {
        EntryHasAddress(r, |b| - 1, id, a);
      } else {
        assert b[1..] == b[..0] + b[1..];
        WithoutKeepsOthers(b, 0, id, a, b[1..]);
        SuffixKeeps(b[1..], r, id, a);
      }
    }
  }

  lemma ReplaceKeepsAddress(b: Bucket, head: Contact, candidate: Contact, now: nat, id: Id, a: string)
    requires HasAddress(b, id, a) && head.id != id
    ensures HasAddress(ReplaceHead(b, head, candidate, now), id, a)
  {
    RemoveKeepsAddress(b, head.id, id, a);
    SuffixKeeps(RemoveFrom(b, head.id), ReplaceHead(b, head, candidate, now), id, a);
  }

  /** What a step makes of bucket `i`. */
  function BucketStep(self: Id, i: nat, b: Bucket, e: Event): Bucket {
    match e
    case Update(c, now) => if c.id != self && Index(self, c.id) == i then UpdateBucket(b, c, now) else b
    case Hint(c) => if c.id != self && Index(self, c.id) == i then HintBucket(b, c) else b
    case Remove(id) => if Index(self, id) == i then RemoveFrom(b, id) else b
    case TailEnd(tail, alive, now) =>
      if tail.idx != i then b
      else if alive then RefreshHead(b, tail.head, now) else ReplaceHead(b, tail.head, tail.candidate, now)
    case _ => b
  }

  lemma UpdateByBucket(t: Table, e: Event, i: nat)
    requires |t.buckets| == ID_BITS && Possible(t, e) && i < ID_BITS && e.Update?
    ensures Apply(t, e).buckets[i] == BucketStep(t.self, i, t.buckets[i], e)
  {
  }

  lemma StepByBucket(t: Table, e: Event, i: nat)
    requires Valid(t) && Possible(t, e) && i < ID_BITS
    ensures Apply(t, e).buckets[i] == BucketStep(t.self, i, t.buckets[i], e)
  {
    if e.Update? { UpdateByBucket(t, e, i); }
  }

  /** The table lists the address for the identifier. */
  ghost predicate Lists(t: Table, id: Id, a: string) {
    exists i :: 0 <= i < |t.buckets| && HasAddress(t.buckets[i], id, a)
  }

  /** The step takes an entry of the identifier out: a removal, or the end of a tail whose head it was and did not answer. */
  predicate Drops(e: Event, id: Id) {
    (e.Remove? && e.id == id) || (e.TailEnd? && !e.alive && e.tail.head.id == id)
  }

  lemma BucketKeepsAddress(self: Id, i: nat, b: Bucket, e: Event, id: Id, a: string)
    requires !Drops(e, id) && a != "" && HasAddress(b, id, a)
    ensures HasAddress(BucketStep(self, i, b, e), id, a)
  {
    match e
    case Update(c, now) => UpdateKeepsAddress(b, c, now, id, a);
    case Hint(c) => HintKeepsAddress(b, c, id, a);
    case Remove(gone) => RemoveKeepsAddress(b, gone, id, a);
    case TailEnd(tail, alive, now) =>
      if alive { RefreshKeepsAddress(b, tail.head, now, id, a); }
      else { ReplaceKeepsAddress(b, tail.head, tail.candidate, now, id, a); }
    case _ =>
  }

  lemma StepKeepsAddress(t: Table, e: Event, id: Id, a: string)
    requires Valid(t) && Possible(t, e) && !Drops(e, id) && a != "" && Lists(t, id, a)
    ensures Lists(Apply(t, e), id, a)
  {
    var i :| 0 <= i < |t.buckets| && HasAddress(t.buckets[i], id, a);
    BucketKeepsAddress(t.self, i, t.buckets[i], e, id, a);
    StepByBucket(t, e, i);
  }

  /** Over any interleaving that never drops the identifier, none of its addresses is ever lost. */
  lemma {:induction false} AddressesStay(t: Table, es: seq<Event>, id: Id, a: string)
    requires Valid(t) && Run(t, es) && a != "" && Lists(t, id, a)
    requires forall i :: 0 <= i < |es| ==> !Drops(es[i], id)
    ensures Lists(Final(t, es), id, a)
    decreases |es|
  {
    if es != [] {
      StepKeepsValid(t, es[0]);
      StepKeepsAddress(t, es[0], id, a);
      AddressesStay(Apply(t, es[0]), es[1..], id, a);
    }
  }

  /** And an Update brings them in: all of the contact's addresses, if it is known or there is room. */
  lemma UpdateLists(t: Table, e: Event, a: string)
    requires Valid(t) && Possible(t, e) && e.Update? && e.c.id != t.self && a != "" && a in AllAddresses(e.c)
    requires !MustPing(t.buckets[Index(t.self, e.c.id)], e.c)
    ensures Lists(Apply(t, e), e.c.id, a)
  {
    var i, c := Index(t.self, e.c.id), e.c;
    var b := t.buckets[i];
    var k, r := Find(b, c.id), UpdateBucket(b, c, e.now);
    StepByBucket(t, e, i);
    if k < |b| { UpdateKnown(b, c, e.now, k); } else { UpdateUnknown(b, c, e.now); }
    EntryHasAddress(r, |r| - 1, c.id, a);
  }

  /** The step brings news of the identifier with this address. */
  predicate Tells(e: Event, id: Id, a: string) {
    (e.Update? || e.Hint?) && e.c.id == id && a in AllAddresses(e.c)
  }

  /** Neither the table nor a contact waiting for a head lists the address. */
  ghost predicate Unheard(t: Table, id: Id, a: string) {
    && (forall i :: 0 <= i < |t.buckets| ==> !HasAddress(t.buckets[i], id, a))
    && (forall tail :: tail in t.tails ==> !(tail.candidate.id == id && a in AllAddresses(tail.candidate)))
  }

  lemma WithoutHasNoMore(b: Bucket, i: nat, id: Id, a: string, rest: Bucket)
    requires i < |b| && rest == b[..i] + b[i + 1..] && HasAddress(rest, id, a)
    ensures HasAddress(b, id, a)
  {
    var j :| 0 <= j < |rest| && rest[j].id == id && a in AllAddresses(rest[j]);
    EntryHasAddress(b, if j < i then j else j + 1, id, a);
  }

  lemma AppendedHasAddress(b: Bucket, c: Contact, id: Id, a: string)
    requires HasAddress(b + [c], id, a)
    ensures HasAddress(b, id, a) || (c.id == id && a in AllAddresses(c))
  {
    var j :| 0 <= j < |b + [c]| && (b + [c])[j].id == id && a in AllAddresses((b + [c])[j]);
    if j < |b| { EntryHasAddress(b, j, id, a); }
  }

  lemma UpdateAddsNone(b: Bucket, c: Contact, now: nat, id: Id, a: string)
    requires HasAddress(UpdateBucket(b, c, now), id, a) && a != ""
    ensures HasAddress(b, id, a) || (c.id == id && a in AllAddresses(c))
  {
    var i, r := Find(b, c.id), UpdateBucket(b, c, now);
    if i < |b| {
      UpdateKnown(b, c, now, i);
      var rest, tail := r[..|b| - 1], r[|b| - 1];
      assert r == rest + [tail];
      AppendedHasAddress(rest, tail, id, a);
      if HasAddress(rest, id, a) {
        WithoutHasNoMore(b, i, id, a, rest);
      } else if a in AllAddresses(b[i]) {
        EntryHasAddress(b, i, id, a);
      }
    } else if |b| < K {
      UpdateUnknown(b, c, now);
      AppendedHasAddress(b, c.(lastSeen := now), id, a);
    }
  }

  lemma HintAddsNone(b: Bucket, c: Contact, id: Id, a: string)
    requires HasAddress(HintBucket(b, c), id, a)
    ensures HasAddress(b, id, a) || (c.id == id && a in AllAddresses(c))
  {
    var r := HintBucket(b, c);
    HintEffect(b, c);
    var j :| 0 <= j < |r| && r[j].id == id && a in AllAddresses(r[j]);
    if r != b && j > 0 { EntryHasAddress(b, j - 1, id, a); }
  }

  lemma RemoveAddsNone(b: Bucket, gone: Id, id: Id, a: string)
    requires HasAddress(RemoveFrom(b, gone), id, a)
    ensures HasAddress(b, id, a)
  {
    var i := Find(b, gone);
    RemoveEffect(b, gone, i);
    if i < |b| { WithoutHasNoMore(b, i, id, a, RemoveFrom(b, gone)); }
  }

  lemma RefreshAddsNone(b: Bucket, head: Contact, now: nat, id: Id, a: string)
    requires HasAddress(RefreshHead(b, head, now), id, a)
    ensures HasAddress(b, id, a)
  {
    if b != [] && b[0].id == head.id {
      AppendedHasAddress(b[1..], b[0].(lastSeen := now), id, a);
      if HasAddress(b[1..], id, a) {
        assert b[1..] == b[..0] + b[1..];
        WithoutHasNoMore(b, 0, id, a, b[1..]);
      } else {
        EntryHasAddress(b, 0, id, a);
      }
    }
  }

  lemma ReplaceAddsNone(b: Bucket, head: Contact, candidate: Contact, now: nat, id: Id, a: string)
    requires HasAddress(ReplaceHead(b, head, candidate, now), id, a)
    ensures HasAddress(b, id, a) || (candidate.id == id && a in AllAddresses(candidate))
  {
    var rest := RemoveFrom(b, head.id);
    if |rest| < K { AppendedHasAddress(rest, candidate.(lastSeen := now), id, a); }
    if HasAddress(rest, id, a) { RemoveAddsNone(b, head.id, id, a); }
  }

  lemma BucketAddsNone(self: Id, i: nat, b: Bucket, e: Event, id: Id, a: string)
    requires a != "" && HasAddress(BucketStep(self, i, b, e), id, a) && !HasAddress(b, id, a)
    ensures Tells(e, id, a) || (e.TailEnd? && e.tail.candidate.id == id && a in AllAddresses(e.tail.candidate))
  {
    match e
    case Update(c, now) => UpdateAddsNone(b, c, now, id, a);
    case Hint(c) => HintAddsNone(b, c, id, a);
    case Remove(gone) => RemoveAddsNone(b, gone, id, a);
    case TailEnd(tail, alive, now) =>
      if alive { RefreshAddsNone(b, tail.head, now, id, a); }
      else { ReplaceAddsNone(b, tail.head, tail.candidate, now, id, a); }
    case _ =>
  }

  lemma TailsAddNone(t: Table, e: Event, id: Id, a: string, tail: Tail)
    requires Valid(t) && Possible(t, e) && Unheard(t, id, a) && !Tells(e, id, a) && tail in Apply(t, e).tails
    ensures !(tail.candidate.id == id && a in AllAddresses(tail.candidate))
  {
    if e.TailStart? && tail !in t.tails { assert tail == e.tail.(pinging := true); }
  }

  lemma StepStaysUnheard(t: Table, e: Event, id: Id, a: string)
    requires Valid(t) && Possible(t, e) && a != "" && Unheard(t, id, a) && !Tells(e, id, a)
    ensures Unheard(Apply(t, e), id, a)
  {
    forall i | 0 <= i < ID_BITS ensures !HasAddress(Apply(t, e).buckets[i], id, a) {
      StepByBucket(t, e, i);
      if HasAddress(BucketStep(t.self, i, t.buckets[i], e), id, a) { BucketAddsNone(t.self, i, t.buckets[i], e, id, a); }
    }
    forall tail | tail in Apply(t, e).tails { TailsAddNone(t, e, id, a, tail); }
  }

  lemma {:induction false} RunStaysUnheard(t: Table, es: seq<Event>, id: Id, a: string)
    requires Valid(t) && Run(t, es) && a != "" && Unheard(t, id, a)
    requires forall i :: 0 <= i < |es| ==> !Tells(es[i], id, a)
    ensures Unheard(Final(t, es), id, a)
    decreases |es|
  {
    if es != [] {
      StepKeepsValid(t, es[0]);
      StepStaysUnheard(t, es[0], id, a);
      RunStaysUnheard(Apply(t, es[0]), es[1..], id, a);
    }
  }

  /** Every address in a reachable table was told by some Update or Hint of that very contact. */
  lemma AddressesWereTold(self: Id, es: seq<Event>, id: Id, a: string)
    requires RunsFromNew(self, es) && a != ""
    ensures Valid(NewTable(self))
    ensures Lists(Final(NewTable(self), es), id, a) ==> exists i :: 0 <= i < |es| && Tells(es[i], id, a)
  {
    NewTableValid(self);
    if forall i :: 0 <= i < |es| ==> !Tells(es[i], id, a) { RunStaysUnheard(NewTable(self), es, id, a); }
  }

  // ----- hearsay stays unseen -----

  /** Every entry of the identifier carries the zero time. */
  predicate NeverSeen(b: Bucket, id: Id) {
    forall j :: 0 <= j < |b| && b[j].id == id ==> b[j].lastSeen == 0
  }

  /** The step is a direct sign of life: an Update of the contact, or its answer to an eviction ping. */
  predicate Meets(e: Event, id: Id) {
    (e.Update? && e.c.id == id) || (e.TailEnd? && e.alive && e.tail.head.id == id)
  }

  ghost predicate OnlyHeardOf(t: Table, id: Id) {
    && (forall i :: 0 <= i < |t.buckets| ==> NeverSeen(t.buckets[i], id))
    && (forall tail :: tail in t.tails ==> tail.candidate.id != id)
  }

  lemma WithoutNeverSeen(b: Bucket, i: nat, id: Id)
    requires i < |b| && NeverSeen(b, id)
    ensures NeverSeen(b[..i] + b[i + 1..], id)
  {
  }

  lemma RemoveNeverSeen(b: Bucket, gone: Id, id: Id)
    requires NeverSeen(b, id)
    ensures NeverSeen(RemoveFrom(b, gone), id)
  {
    var i := Find(b, gone);
    RemoveEffect(b, gone, i);
    if i < |b| { WithoutNeverSeen(b, i, id); }
  }

  lemma BucketNeverSeen(self: Id, i: nat, b: Bucket, e: Event, id: Id)
    requires NeverSeen(b, id) && !Meets(e, id) && (e.TailEnd? ==> e.tail.candidate.id != id)
    ensures NeverSeen(BucketStep(self, i, b, e), id)
  {
    match e
    case Update(c, now) =>
      var k := Find(b, c.id);
      if k < |b| {
        UpdateKnown(b, c, now, k);
        WithoutNeverSeen(b, k, id);
      }
    case Remove(gone) => RemoveNeverSeen(b, gone, id);
    case TailEnd(tail, alive, now) => if !alive { RemoveNeverSeen(b, tail.head.id, id); }
    case _ =>
  }

  lemma TailsStayHeardOf(t: Table, e: Event, id: Id, tail: Tail)
    requires Valid(t) && Possible(t, e) && OnlyHeardOf(t, id) && !Meets(e, id) && tail in Apply(t, e).tails
    ensures tail.candidate.id != id
  {
    if e.TailStart? && tail !in t.tails { assert tail == e.tail.(pinging := true); }
  }

  lemma StepStaysHeardOf(t: Table, e: Event, id: Id)
    requires Valid(t) && Possible(t, e) && OnlyHeardOf(t, id) && !Meets(e, id)
    ensures OnlyHeardOf(Apply(t, e), id)
  {
    forall i | 0 <= i < ID_BITS ensures NeverSeen(Apply(t, e).buckets[i], id) {
      StepByBucket(t, e, i);
      BucketNeverSeen(t.self, i, t.buckets[i], e, id);
    }
    forall tail | tail in Apply(t, e).tails { TailsStayHeardOf(t, e, id, tail); }
  }

  lemma {:induction false} RunStaysHeardOf(t: Table, es: seq<Event>, id: Id)
    requires Valid(t) && Run(t, es) && OnlyHeardOf(t, id) && forall i :: 0 <= i < |es| ==> !Meets(es[i], id)
    ensures OnlyHeardOf(Final(t, es), id)
    decreases |es|
  {
    if es != [] {
      StepKeepsValid(t, es[0]);
      StepStaysHeardOf(t, es[0], id);
      RunStaysHeardOf(Apply(t, es[0]), es[1..], id);
    }
  }

  /**
   * The defence against poisoned tables: whatever others claim, an entry of a reachable
   * table is stamped with a time only if the node itself met that contact.
   */
  lemma SeenWasMet(self: Id, es: seq<Event>, i: nat, j: nat)
    requires RunsFromNew(self, es)
    ensures Valid(NewTable(self))
    ensures var t := Final(NewTable(self), es);
            i < ID_BITS && j < |t.buckets[i]| && t.buckets[i][j].lastSeen > 0 ==>
            exists k :: 0 <= k < |es| && Meets(es[k], t.buckets[i][j].id)
  {
    NewTableValid(self);
    var t := Final(NewTable(self), es);
    if i < ID_BITS && j < |t.buckets[i]| && t.buckets[i][j].lastSeen > 0 {
      var id := t.buckets[i][j].id;
      if forall k :: 0 <= k < |es| ==> !Meets(es[k], id) { RunStaysHeardOf(NewTable(self), es, id); }
    }
  }

  // ----- every eviction tail is accounted for -----

  /** The step is an Update of an unknown contact into a full bucket while a ping is installed. */
  predicate Queues(t: Table, e: Event)
    requires |t.buckets| == ID_BITS
  {
    && e.Update? && e.c.id != t.self && t.pingSet
    && var b := t.buckets[Index(t.self, e.c.id)]; |b| >= K && !Has(b, e.c.id)
  }

  /** The step ends a tail: its ping came back, or it found none installed. */
  predicate Settles(t: Table, e: Event) {
    e.TailEnd? || (e.TailStart? && !t.pingSet)
  }

  ghost function Queued(t: Table, es: seq<Event>): nat
    requires Valid(t) && Run(t, es)
    decreases |es|
  {
    if es == [] then 0 else (StepKeepsValid(t, es[0]); (if Queues(t, es[0]) then 1 else 0) + Queued(Apply(t, es[0]), es[1..]))
  }

  ghost function Settled(t: Table, es: seq<Event>): nat
    requires Valid(t) && Run(t, es)
    decreases |es|
  {
    if es == [] then 0 else (StepKeepsValid(t, es[0]); (if Settles(t, es[0]) then 1 else 0) + Settled(Apply(t, es[0]), es[1..]))
  }

  lemma StepCountsTails(t: Table, e: Event)
    requires Valid(t) && Possible(t, e)
    ensures |Apply(t, e).tails| + (if Settles(t, e) then 1 else 0) == |t.tails| + if Queues(t, e) then 1 else 0
  {
    if e.Update? && e.c.id != t.self {
      var b := t.buckets[Index(t.self, e.c.id)];
      assert MustPing(b, e.c) <==> |b| >= K && !Has(b, e.c.id);
    }
  }

  /** Over any run, tails settled and still pending are exactly those that were pending or have been queued. */
  lemma {:induction false} TailsConserved(t: Table, es: seq<Event>)
    requires Valid(t) && Run(t, es)
    ensures Settled(t, es) + |Final(t, es).tails| == |t.tails| + Queued(t, es)
    decreases |es|
  {
    if es != [] {
      StepKeepsValid(t, es[0]);
      StepCountsTails(t, es[0]);
      TailsConserved(Apply(t, es[0]), es[1..]);
    }
  }

  // ----- late duplicates do happen -----

  /** Some run from here ends with one identifier listed twice. */
  ghost predicate CanDuplicate(t: Table)
    requires Valid(t)
  {
    exists es :: Run(t, es) && !Unique(Final(t, es))
  }

  lemma CanDuplicateBefore(t: Table, e: Event)
    requires Valid(t) && Possible(t, e) && Valid(Apply(t, e)) && CanDuplicate(Apply(t, e))
    ensures CanDuplicate(t)
  {
    var es :| Run(Apply(t, e), es) && !Unique(Final(Apply(t, e), es));
    assert ([e] + es)[1..] == es;
    assert Run(t, [e] + es);
  }

  lemma LateDuplicateDuplicates(t: Table, e: Event)
    requires Valid(t) && Unique(t) && Possible(t, e) && LateDuplicate(t, e)
    ensures CanDuplicate(t)
  {
    StepKeepsValid(t, e);
    StepUniqueIff(t, e);
    assert Run(Apply(t, e), []) && !Unique(Final(Apply(t, e), []));
    CanDuplicateBefore(t, e);
  }

  /** A pending tail whose head and candidate both sit in its bucket. */
  lemma PendingTailDuplicates(t: Table, tail: Tail)
    requires Valid(t) && Unique(t) && t.pingSet && tail in t.tails && !tail.pinging
    requires tail.idx < ID_BITS
    requires Has(t.buckets[tail.idx], tail.head.id) && Has(t.buckets[tail.idx], tail.candidate.id)
    ensures CanDuplicate(t)
  {
    var start := TailStart(tail);
    var u := Apply(t, start);
    StepKeepsValid(t, start);
    LateDuplicateDuplicates(u, TailEnd(tail.(pinging := true), false, u.clock));
    CanDuplicateBefore(t, start);
  }

  /** The candidate is updated into a gap while its tail is pending. */
  lemma UpdateIntoGapDuplicates(t: Table, tail: Tail)
    requires Valid(t) && Unique(t) && t.pingSet && tail in t.tails && !tail.pinging
    requires tail.idx < ID_BITS && |t.buckets[tail.idx]| < K
    requires Has(t.buckets[tail.idx], tail.head.id) && !Has(t.buckets[tail.idx], tail.candidate.id)
    ensures CanDuplicate(t)
  {
    var e := Update(tail.candidate, t.clock);
    var b := t.buckets[tail.idx];
    var u := Apply(t, e);
    StepKeepsValid(t, e);
    StepUniqueIff(t, e);
    var x := tail.candidate.(lastSeen := t.clock);
    assert u.buckets[tail.idx] == b + [x];
    assert (b + [x])[|b|].id == tail.candidate.id;
    var i :| 0 <= i < |b| && b[i].id == tail.head.id;
    assert (b + [x])[i].id == tail.head.id;
    PendingTailDuplicates(u, tail);
    CanDuplicateBefore(t, e);
  }

  /**
   * From every valid table with unique identifiers, a full bucket, an eviction
   * ping installed and an unknown contact for that bucket, identifiers can become
   * duplicated: the update queues a tail, another contact leaves, the contact is
   * updated into the gap, and the tail then appends it again.
   */
  lemma FullBucketCanDuplicate(t: Table, c: Contact)
    requires Valid(t) && Unique(t) && t.pingSet && c.id != t.self
    requires MustPing(t.buckets[Index(t.self, c.id)], c)
    ensures CanDuplicate(t)
  {
    var i := Index(t.self, c.id);
    var b := t.buckets[i];
    assert GoodBucket(t.self, i, t.clock, b);
    assert b[0].id != b[1].id;
    var tail := Tail(i, b[0], c.(lastSeen := t.clock), false);
    var queue := Update(c, t.clock);
    var t1 := Apply(t, queue);
    StepKeepsValid(t, queue);
    StepUniqueIff(t, queue);
    assert t1.buckets[i] == b && tail in t1.tails;

    var gap := Remove(b[1].id);
    assert GoodContact(t.self, i, t.clock, b[1]) by { assert b[1] in b; }
    var t2 := Apply(t1, gap);
    StepKeepsValid(t1, gap);
    StepUniqueIff(t1, gap);
    RemoveUnique(b, b[1].id);
    assert b[1].id == gap.id && Has(b, b[1].id) && Has(b, b[0].id);
    assert t2.buckets[i] == RemoveFrom(b, b[1].id);
    assert !Has(b, c.id);
    UpdateIntoGapDuplicates(t2, tail);
    CanDuplicateBefore(t1, gap);
    CanDuplicateBefore(t, queue);
  }

  function PeerId(k: Byte): Id {
    [k] + seq(ID_SIZE - 1, _ => 0)
  }

  lemma {:induction false} XorWithZero(x: nat, n: nat)
    requires x < Pow2(n)
    ensures XorBits(0, x, n) == x
  {
    if n > 0 { XorWithZero(x / 2, n - 1); }
  }

  /** Identifiers whose first bit is set all belong to bucket 0 of the all-zero node. */
  lemma PeersShareBucket(k: Byte)
    requires k >= 128
    ensures Index(PeerId(0), PeerId(k)) == 0
  {
    SmallPowers();
    XorWithZero(k, 8);
    assert PeerId(0)[0] == 0 && PeerId(k)[0] == k;
    assert BitSet(k, 0);
  }

  /** A bucket 0 holding the peers 128 to 128 + n - 1. */
  predicate Filled(t: Table, n: nat)
    requires |t.buckets| == ID_BITS
  {
    && t.self == PeerId(0) && t.pingSet && |t.buckets[0]| == n <= K
    && forall c :: c in t.buckets[0] ==> 128 <= c.id[0] < 128 + n
  }

  lemma {:induction false} FilledCanDuplicate(t: Table, n: nat)
    requires Valid(t) && Unique(t) && Filled(t, n)
    ensures CanDuplicate(t)
    decreases K - n
  {
    var c := Contact(PeerId(128 + n), "", [], 0);
    assert c.id[0] == 128 + n && t.self[0] == 0;
    PeersShareBucket(128 + n);
    var b := t.buckets[0];
    assert Find(b, c.id) == n by {
      forall j | 0 <= j < |b| ensures b[j].id != c.id { assert b[j] in b; }
    }
    if n == K {
      FullBucketCanDuplicate(t, c);
    } else {
      var e := Hint(c);
      StepKeepsValid(t, e);
      StepUniqueIff(t, e);
      assert Apply(t, e).buckets[0] == [c] + b;
      FilledCanDuplicate(Apply(t, e), n + 1);
      CanDuplicateBefore(t, e);
    }
  }

  /** So uniqueness is not an invariant: a run from the empty table breaks it. */
  lemma UniquenessFailsFromEmpty()
    ensures Valid(NewTable(PeerId(0))) && CanDuplicate(NewTable(PeerId(0)))
  {
    var t, e := NewTable(PeerId(0)), SetEvictionPing(true);
    NewTableValid(PeerId(0));
    StepKeepsValid(t, e);
    StepUniqueIff(t, e);
    FilledCanDuplicate(Apply(t, e), 0);
    CanDuplicateBefore(t, e);
  }
}
