/**
 * getInner (core/dht/dht.go): the walk behind Get, over a routing table, a local
 * store and a set of blocked keys. What happens in a round is an input: which
 * queried contacts answered, every value or list of contacts they delivered, in the
 * order in which the replies were taken in, and what other handlers added to the
 * table in the meantime.
 */
module Fetch {
  import opened NodeId
  import opened Options
  import opened Routing
  import opened RoutingTable
  import opened Lookup
  import L = LocalStore
  import G = Gates
  import S = Storage
  import SR = StoreRuns

  datatype Delivery = Served(value: Bytes) | Nodes(contacts: seq<Contact>)

  datatype Answers = Answers(arrivals: seq<Arrival>, deliveries: seq<Delivery>, gaps: nat -> seq<Arrival>)

  datatype Result = Value(bytes: Bytes) | NotFound | NoPeers

  /** A value this Get may return. */
  predicate Genuine(hash: Bytes -> Id, key: Id, verify: bool, value: Bytes) {
    verify ==> hash(value) == key
  }

  /** No reply so far carried a value this Get may return. */
  predicate NothingGenuine(hash: Bytes -> Id, key: Id, verify: bool, ds: seq<Delivery>) {
    forall i :: 0 <= i < |ds| && ds[i].Served? ==> !Genuine(hash, key, verify, ds[i].value)
  }

  /** Takes in the replies of one batch: the first genuine value, and the contacts of the replies without one. */
  method Collect(hash: Bytes -> Id, key: Id, verify: bool, ds: seq<Delivery>)
    returns (found: Option<Bytes>, learned: seq<Contact>)
    ensures found.None? <==> NothingGenuine(hash, key, verify, ds)
    ensures found.Some? ==>
              exists i :: 0 <= i < |ds| && ds[i] == Served(found.value) && Genuine(hash, key, verify, found.value)
                          && NothingGenuine(hash, key, verify, ds[..i])
    ensures forall c :: c in learned <==> exists i :: 0 <= i < |ds| && ds[i].Nodes? && c in ds[i].contacts
  {
    found, learned := None, [];
    ghost var first := 0;
    for n := 0 to |ds|
      invariant found.None? <==> NothingGenuine(hash, key, verify, ds[..n])
      invariant found.Some? ==> first < n && ds[first] == Served(found.value) && Genuine(hash, key, verify, found.value)
                                && NothingGenuine(hash, key, verify, ds[..first])
      invariant forall c :: c in learned <==> exists i :: 0 <= i < n && ds[i].Nodes? && c in ds[i].contacts
    {
      match ds[n] {
        case Served(value) =>
          if Genuine(hash, key, verify, value) && found.None? { found, first := Some(value), n; }
        case Nodes(contacts) =>
          learned := learned + contacts;
      }
      assert ds[..n + 1] == ds[..n] + [ds[n]];
    }
    assert ds[..|ds|] == ds;
  }

  ghost predicate NothingGenuineIn(hash: Bytes -> Id, key: Id, verify: bool, net: nat -> Answers, rounds: nat) {
    forall k: nat :: k < rounds ==> NothingGenuine(hash, key, verify, net(k).deliveries)
  }

  /** Every contact the replies of a round carried is known, or its bucket is full. */
  ghost predicate TookIn(self: Id, bs: seq<Bucket>, ds: seq<Delivery>)
    requires |bs| == ID_BITS
  {
    forall i, c :: 0 <= i < |ds| && ds[i].Nodes? && c in ds[i].contacts ==> KnownOrFull(self, bs, c.id)
  }

  ghost predicate Taught(self: Id, bs: seq<Bucket>, net: nat -> Answers, rounds: nat)
    requires |bs| == ID_BITS
  {
    forall k: nat :: k < rounds ==> TookIn(self, bs, net(k).deliveries)
  }

  lemma TookInGrows(self: Id, bs: seq<Bucket>, cs: seq<Bucket>, ds: seq<Delivery>)
    requires |bs| == ID_BITS && Grows(bs, cs) && TookIn(self, bs, ds)
    ensures TookIn(self, cs, ds)
  {
    forall i, c | 0 <= i < |ds| && ds[i].Nodes? && c in ds[i].contacts ensures KnownOrFull(self, cs, c.id) {
      KnownOrFullGrows(self, bs, cs, c.id);
    }
  }

  lemma TaughtGrows(self: Id, bs: seq<Bucket>, cs: seq<Bucket>, net: nat -> Answers, rounds: nat)
    requires |bs| == ID_BITS && Grows(bs, cs) && Taught(self, bs, net, rounds)
    ensures Taught(self, cs, net, rounds)
  {
    forall k: nat | k < rounds ensures TookIn(self, cs, net(k).deliveries) { TookInGrows(self, bs, cs, net(k).deliveries); }
  }

  /** Hints what a round taught and selects again; the closest contact stays or gets strictly closer. */
  method TakeIn(rt: RoutingTable, key: Id, shortlist: seq<Contact>, learned: seq<Contact>, gaps: nat -> seq<Arrival>, pingSet: bool,
                ghost before: seq<Bucket>)
    returns (next: seq<Contact>)
    requires rt.Valid() && GoodTable(rt.self, rt.buckets[..]) && Extends(before, rt.buckets[..])
    requires |before| == ID_BITS && shortlist != [] && IsClosest(Flatten(before), key, K, shortlist)
    modifies rt.buckets
    ensures rt.buckets[..] == AfterArrivals(rt.self, old(rt.buckets[..]), [], Hearsay(learned, gaps, 0))
    ensures GoodTable(rt.self, rt.buckets[..]) && Extends(before, rt.buckets[..])
    ensures forall c :: c in learned ==> KnownOrFull(rt.self, rt.buckets[..], c.id)
    ensures next != [] && IsClosest(Flatten(rt.buckets[..]), key, K, next)
    ensures ClosestId(key, shortlist) == ClosestId(key, next)
            || Distance(key, ClosestId(key, next).value) < Distance(key, ClosestId(key, shortlist).value)
  {
    ghost var mid := rt.buckets[..];
    HintLearned(rt, learned, gaps, pingSet);
    ExtendsTrans(before, mid, rt.buckets[..]);
    next := rt.Closest(key, K);
    RoundProgress(before, rt.buckets[..], key, shortlist, next);
  }

  /** What the walk keeps, round after round. */
  ghost predicate Walking(self: Id, bs: seq<Bucket>, hash: Bytes -> Id, key: Id, verify: bool, net: nat -> Answers,
                          rounds: nat, shortlist: seq<Contact>, once: bool, asked: seq<Id>)
  {
    && GoodTable(self, bs) && shortlist != [] && IsClosest(Flatten(bs), key, K, shortlist)
    && (once ==> OncePerId(bs) && Distinct(asked)) && NothingGenuineIn(hash, key, verify, net, rounds)
    && Taught(self, bs, net, rounds)
  }

  /**
   * One round of the walk: query a batch and take in the replies. It ends with a
   * value, or with the next shortlist and whether the closest contact changed.
   */
  method WalkRound(rt: RoutingTable, hash: Bytes -> Id, key: Id, verify: bool, net: nat -> Answers, rounds: nat,
                   pingSet: bool, shortlist: seq<Contact>, batch: seq<Contact>, ghost once: bool, ghost asked: seq<Id>)
    returns (found: Option<Bytes>, next: seq<Contact>, closer: bool)
    requires rt.Valid() && Walking(rt.self, rt.buckets[..], hash, key, verify, net, rounds, shortlist, once, asked)
    requires once ==> DistinctIds(batch)
    requires forall c :: c in batch ==> c in shortlist && c.id !in asked
    modifies rt.buckets
    ensures GoodTable(rt.self, rt.buckets[..]) && Extends(old(rt.buckets[..]), rt.buckets[..])
    ensures found.None? <==> NothingGenuine(hash, key, verify, net(rounds).deliveries)
    ensures found.Some? ==> Served(found.value) in net(rounds).deliveries && Genuine(hash, key, verify, found.value)
    ensures once ==> Distinct(asked + IdsOf(batch))
    ensures found.None? ==>
              Walking(rt.self, rt.buckets[..], hash, key, verify, net, rounds + 1, next, once, asked + IdsOf(batch))
    ensures found.None? ==>
              if closer then Distance(key, ClosestId(key, next).value) < Distance(key, ClosestId(key, shortlist).value)
              else ClosestId(key, next) == ClosestId(key, shortlist)
  {
    ghost var bs := rt.buckets[..];
    ShortlistFacts(rt.self, bs, key, shortlist);
    if once { AskedAfter(asked, batch); }
    var learned;
    found, learned := Collect(hash, key, verify, net(rounds).deliveries);
    TakeArrivals(rt, batch, net(rounds).arrivals, pingSet);
    next, closer := [], false;
    if found.None? {
      next := TakeIn(rt, key, shortlist, learned, net(rounds).gaps, pingSet, bs);
      TaughtGrows(rt.self, bs, rt.buckets[..], net, rounds);
      assert TookIn(rt.self, rt.buckets[..], net(rounds).deliveries);
      closer := ClosestId(key, shortlist) != ClosestId(key, next);
    }
  }

  /** A fetched value was served in the last round; no earlier round, and without one no round at all, served a genuine one. */
  ghost predicate WalkOutcome(hash: Bytes -> Id, key: Id, verify: bool, net: nat -> Answers, fetched: Option<Bytes>, rounds: nat) {
    match fetched
    case None => NothingGenuineIn(hash, key, verify, net, rounds)
    case Some(value) =>
      && rounds > 0 && Served(value) in net(rounds - 1).deliveries && Genuine(hash, key, verify, value)
      && NothingGenuineIn(hash, key, verify, net, rounds - 1)
  }

  /** `trail` lists the closest identifier before the first round and after each; `last` is the final shortlist. */
  ghost predicate Trailing(key: Id, trail: seq<Id>, rounds: nat, last: seq<Contact>) {
    last != [] && |trail| == rounds + 1 && trail[rounds] == ClosestId(key, last).value
  }

  /**
   * The walk gave up for a reason: every round brought someone closer and all of
   * the closest contacts now known have been asked, or the last round did not.
   */
  ghost predicate GaveUp(bs: seq<Bucket>, key: Id, asked: seq<Id>, rounds: nat, trail: seq<Id>, last: seq<Contact>) {
    && IsClosest(Flatten(bs), key, K, last) && Trailing(key, trail, rounds, last)
    && ((Falling(key, trail) && forall c :: c in last ==> c.id in asked) || Stalled(key, trail))
  }

  /** So far every round brought someone closer. */
  ghost predicate OnTrail(key: Id, trail: seq<Id>, rounds: nat, last: seq<Contact>) {
    Trailing(key, trail, rounds, last) && Falling(key, trail)
  }

  lemma CloserStaysOnTrail(key: Id, trail: seq<Id>, rounds: nat, last: seq<Contact>, next: seq<Contact>)
    requires OnTrail(key, trail, rounds, last) && next != []
    requires Distance(key, ClosestId(key, next).value) < Distance(key, ClosestId(key, last).value)
    ensures OnTrail(key, trail + [ClosestId(key, next).value], rounds + 1, next)
  {
    TrailGrows(key, trail, ClosestId(key, next).value);
  }

  lemma StalledGivesUp(bs: seq<Bucket>, key: Id, asked: seq<Id>, trail: seq<Id>, rounds: nat, last: seq<Contact>, next: seq<Contact>)
    requires OnTrail(key, trail, rounds, last) && next != [] && IsClosest(Flatten(bs), key, K, next)
    requires ClosestId(key, next) == ClosestId(key, last)
    ensures GaveUp(bs, key, asked, rounds + 1, trail + [ClosestId(key, next).value], next)
  {
    TrailGrows(key, trail, ClosestId(key, next).value);
  }

  /** The walk, for every behaviour of the peers; every round asks somebody new. */
  method Walk(rt: RoutingTable, hash: Bytes -> Id, key: Id, verify: bool, net: nat -> Answers, pingSet: bool,
              start: seq<Contact>)
    returns (found: Option<Bytes>, ghost asked: seq<Id>, ghost rounds: nat, ghost trail: seq<Id>, ghost last: seq<Contact>)
    requires rt.Valid() && GoodTable(rt.self, rt.buckets[..]) && start != [] && IsClosest(Flatten(rt.buckets[..]), key, K, start)
    modifies rt.buckets
    ensures GoodTable(rt.self, rt.buckets[..]) && Extends(old(rt.buckets[..]), rt.buckets[..])
    ensures OncePerId(old(rt.buckets[..])) ==> Distinct(asked)
    ensures rounds <= |asked| && WalkOutcome(hash, key, verify, net, found, rounds)
    ensures found.None? ==> GaveUp(rt.buckets[..], key, asked, rounds, trail, last) && Taught(rt.self, rt.buckets[..], net, rounds)
  {
    ghost var once := OncePerId(rt.buckets[..]);
    asked, rounds, last := [], 0, start;
    trail := [ClosestId(key, start).value];
    var shortlist, queried: set<Id>, round := start, {}, 0;
    while true
      invariant rounds == round <= |asked| && Extends(old(rt.buckets[..]), rt.buckets[..])
      invariant Walking(rt.self, rt.buckets[..], hash, key, verify, net, round, shortlist, once, asked)
      invariant forall id :: id in queried <==> id in asked
      invariant last == shortlist && OnTrail(key, trail, rounds, last)
      decreases Distance(key, ClosestId(key, shortlist).value)
    {
      ghost var bs := rt.buckets[..];
      var batch;
      batch, queried := PlanBatch(rt, key, shortlist, queried, asked);
      if batch == [] { return None, asked, rounds, trail, last; }
      var next, closer;
      found, next, closer := WalkRound(rt, hash, key, verify, net, round, pingSet, shortlist, batch, once, asked);
      asked := asked + IdsOf(batch);
      ExtendsTrans(old(rt.buckets[..]), bs, rt.buckets[..]);
      round, rounds := round + 1, rounds + 1;
      if found.Some? { return; }
      if closer {
        CloserStaysOnTrail(key, trail, rounds - 1, last, next);
      } else {
        StalledGivesUp(rt.buckets[..], key, asked, trail, rounds - 1, last, next);
      }
      shortlist, last, trail := next, next, trail + [ClosestId(key, next).value];
      if !closer { return; }
    }
  }

  /** The network part of Get; without a single known contact there is nobody to ask. */
  method Search(rt: RoutingTable, hash: Bytes -> Id, key: Id, verify: bool, net: nat -> Answers, pingSet: bool)
    returns (noPeers: bool, found: Option<Bytes>, ghost asked: seq<Id>, ghost rounds: nat, ghost trail: seq<Id>, ghost last: seq<Contact>)
    requires rt.Valid() && GoodTable(rt.self, rt.buckets[..])
    modifies rt.buckets
    ensures GoodTable(rt.self, rt.buckets[..]) && Extends(old(rt.buckets[..]), rt.buckets[..])
    ensures OncePerId(old(rt.buckets[..])) ==> Distinct(asked)
    ensures rounds <= |asked| && WalkOutcome(hash, key, verify, net, found, rounds)
    ensures noPeers <==> Flatten(old(rt.buckets[..])) == []
    ensures noPeers ==> found == None && asked == [] && rt.buckets[..] == old(rt.buckets[..])
    ensures !noPeers && found.None? ==>
              GaveUp(rt.buckets[..], key, asked, rounds, trail, last) && Taught(rt.self, rt.buckets[..], net, rounds)
  {
    var shortlist := rt.Closest(key, K);
    noPeers := shortlist == [];
    if noPeers { return true, None, [], 0, [], []; }
    found, asked, rounds, trail, last := Walk(rt, hash, key, verify, net, pingSet, shortlist);
  }

  /** What the caller of Get sees, in the terms of module Gates. */
  function ReplyOf(r: Result): G.Reply {
    match r case Value(bytes) => G.Value(bytes) case NotFound => G.NotFound case NoPeers => G.NotFound
  }

  /** What other handlers do to the store while the walk runs. */
  method Meanwhile(store: L.LocalStore, ops: seq<SR.Op>)
    modifies store
    ensures store.View() == SR.Final(old(store.View()), ops)
  {
    for i := 0 to |ops|
      invariant SR.Final(store.View(), ops[i..]) == SR.Final(old(store.View()), ops)
    {
      assert ops[i..][1..] == ops[i + 1..];
      match ops[i] {
        case PutOp(k, v, peer, now, order) => var accepted := store.Put(k, v, peer, now, order);
        case GetOp(k, now) => var found, value := store.Get(k, now);
        case DeleteOp(k) => store.Delete(k);
      }
    }
  }

  /** The end of a walk: what it fetched, kept if it was verified. */
  function AfterWalk(s: S.Store, k: Id, verify: bool, fetched: Option<Bytes>, now: int, order: seq<Id>): (S.Store, G.Reply) {
    match fetched
    case None => (s, G.NotFound)
    case Some(v) => (if verify then S.Put(s, k, v, "", now, order) else s, G.Value(v))
  }

  method EndWalk(store: L.LocalStore, key: Id, verify: bool, found: Option<Bytes>, now: int, order: seq<Id>, meanwhile: seq<SR.Op>)
    returns (r: Result)
    modifies store
    ensures (store.View(), ReplyOf(r)) == AfterWalk(SR.Final(old(store.View()), meanwhile), key, verify, found, now, order)
    ensures r == if found.None? then NotFound else Value(found.value)
  {
    Meanwhile(store, meanwhile);
    match found {
      case None => r := NotFound;
      case Some(value) =>
        if verify { var accepted := store.Put(key, value, "", now, order); }
        r := Value(value);
    }
  }

  /** A Get whose walk lets other handlers change the store: `blocked` is what the gate saw. */
  function GetAround(hash: Bytes -> Id, blocked: set<Id>, s: S.Store, k: Id, verify: bool, fetched: Option<Bytes>, now: int,
                     order: seq<Id>, ops: seq<SR.Op>)
    : (S.Store, G.Reply)
  {
    if k in blocked then (s, G.NotFound)
    else
      var touched := S.Touch(s, k, now);
      if k in s.data && Genuine(hash, k, verify, s.data[k]) then (touched, G.Value(s.data[k]))
      else AfterWalk(SR.Final(touched, ops), k, verify, fetched, now, order)
  }

  /** With nothing happening meanwhile it is the Get step of module Gates. */
  lemma AroundNothing(hash: Bytes -> Id, blocked: set<Id>, s: S.Store, k: Id, verify: bool, fetched: Option<Bytes>, now: int, order: seq<Id>)
    requires fetched.Some? ==> Genuine(hash, k, verify, fetched.value)
    ensures GetAround(hash, blocked, s, k, verify, fetched, now, order, []) == G.GetStep(hash, blocked, s, k, verify, fetched, now, order)
  {
  }

  /**
   * The walk behind Get, for every table, store, behaviour of the peers and changes other
   * handlers make meanwhile. It returns and stores the first genuine value a round
   * delivered, and gives up only after `rounds` rounds without one.
   */
  method GetInner(rt: RoutingTable, store: L.LocalStore, blocked: set<Id>, hash: Bytes -> Id, key: Id, verify: bool,
                  net: nat -> Answers, pingSet: bool, now: int, order: seq<Id>, meanwhile: seq<SR.Op>)
    returns (r: Result, ghost fetched: Option<Bytes>, ghost asked: seq<Id>, ghost rounds: nat, ghost trail: seq<Id>, ghost last: seq<Contact>)
    requires rt.Valid() && GoodTable(rt.self, rt.buckets[..])
    modifies store, rt.buckets
    // the table stays good and forgets nobody; nobody is asked twice, unless the table listed somebody twice
    ensures GoodTable(rt.self, rt.buckets[..]) && Extends(old(rt.buckets[..]), rt.buckets[..])
    ensures OncePerId(old(rt.buckets[..])) ==> Distinct(asked)
    // store and answer
    ensures GetAround(hash, blocked, old(store.View()), key, verify, fetched, now, order, if r == NoPeers then [] else meanwhile)
            == (store.View(), ReplyOf(r))
    // a blocked key touches nothing
    ensures key in blocked ==> r == NotFound && asked == [] && rt.buckets[..] == old(rt.buckets[..])
    // a fetched value is the first genuine one that was served; giving up means none was
    ensures WalkOutcome(hash, key, verify, net, fetched, rounds)
    ensures key !in blocked && r == NotFound ==>
              GaveUp(rt.buckets[..], key, asked, rounds, trail, last) && Taught(rt.self, rt.buckets[..], net, rounds)
    ensures r == NoPeers ==> Flatten(old(rt.buckets[..])) == []
  {
    if key in blocked { return NotFound, None, [], 0, [], []; }
    var hit, local := store.Get(key, now);
    if hit && (!verify || hash(local) == key) { return Value(local), None, [], 0, [], []; }
    var noPeers, found;
    noPeers, found, asked, rounds, trail, last := Search(rt, hash, key, verify, net, pingSet);
    fetched := found;
    if noPeers { return NoPeers, None, asked, rounds, trail, last; }
    r := EndWalk(store, key, verify, found, now, order, meanwhile);
  }
}
