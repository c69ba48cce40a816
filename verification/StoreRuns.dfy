/**
 * Whole runs of the local store. When each key is always stored with the same
 * value, as content addressing intends, the counters, the byte budget and the
 * per-peer quota hold in every reachable state; without that hypothesis a short
 * run already breaks the total.
 */
module StoreRuns {
  import opened NodeId
  import opened MapSum
  import opened Storage

  datatype Op =
    | PutOp(key: Id, value: Bytes, peer: string, now: int, order: seq<Id>)
    | GetOp(key: Id, now: int)
    | DeleteOp(key: Id)

  function Apply(s: Store, op: Op): Store {
    match op
    case PutOp(k, v, p, now, order) => Put(s, k, v, p, now, order)
    case GetOp(k, now) => Touch(s, k, now)
    case DeleteOp(k) => Delete(s, k)
  }

  function Final(s: Store, ops: seq<Op>): Store
    decreases |ops|
  {
    if ops == [] then s else Final(Apply(s, ops[0]), ops[1..])
  }

  /** The eviction order of a put is one its state allows. */
  ghost predicate Possible(s: Store, op: Op) {
    op.PutOp? ==> LruOrder(Refund(s, op.key), op.order)
  }

  ghost predicate Run(s: Store, ops: seq<Op>)
    decreases |ops|
  {
    ops == [] || (Possible(s, ops[0]) && Run(Apply(s, ops[0]), ops[1..]))
  }

  /** Every put of a key stores the value that belongs to it. */
  predicate ContentAddressed(ops: seq<Op>, content: Id -> Bytes) {
    forall i :: 0 <= i < |ops| && ops[i].PutOp? ==> ops[i].value == content(ops[i].key)
  }

  /** The total respects the budget, or is one single value. */
  ghost predicate WithinBudget(s: Store) {
    s.maxBytes <= 0 || s.total <= s.maxBytes || exists k :: k in s.data && s.total == |s.data[k]|
  }

  ghost predicate WithinQuota(s: Store) {
    s.perPeerMax > 0 ==> forall p :: Usage(s.perPeer, p) <= s.perPeerMax
  }

  ghost predicate Holds(s: Store, content: Id -> Bytes) {
    forall k :: k in s.data ==> s.data[k] == content(k)
  }

  ghost predicate Good(s: Store, content: Id -> Bytes) {
    Exact(s) && Holds(s, content) && WithinBudget(s) && WithinQuota(s)
  }

  // ----- one step -----

  /** If one value makes up the whole total, every other value is empty. */
  lemma OthersEmpty(s: Store, j: Id, k: Id)
    requires Exact(s) && j in s.data && k in s.data && j != k && s.total == |s.data[j]|
    ensures s.data[k] == []
  {
    TotalPair(Sizes(s), j, k);
  }

  /** Overwriting a key with its own value never evicts that key while it is non-empty. */
  lemma SpareOwnKey(s: Store, k: Id, v: Bytes, order: seq<Id>)
    requires Exact(s) && WithinBudget(s) && LruOrder(Refund(s, k), order)
    requires k in s.data && s.data[k] == v
    ensures EvictsOwnKey(s, k, |v|, order) ==> v == []
    ensures v != [] ==> EvictToFit(Refund(s, k), order, |v|) == Refund(s, k)
  {
    if s.maxBytes > 0 && s.total > s.maxBytes {
      var j :| j in s.data && s.total == |s.data[j]|;
      if j != k { OthersEmpty(s, j, k); }
    }
  }

  lemma PutKeepsExact(s: Store, k: Id, v: Bytes, peer: string, now: int, order: seq<Id>)
    requires Exact(s) && WithinBudget(s) && LruOrder(Refund(s, k), order)
    requires k in s.data ==> s.data[k] == v
    ensures Exact(Put(s, k, v, peer, now, order))
  {
    if Admits(s, k, |v|, peer) {
      PutExactIff(s, k, v, peer, now, order);
      if k in s.data { SpareOwnKey(s, k, v, order); }
    }
  }

  /** An exhausted pass has removed everything, so nothing is left to count. */
  lemma PassFits(s: Store, order: seq<Id>, cap: nat, n: nat, a: string)
    requires Lags(s, n, a) && LruOrder(s, order)
    ensures EvictPass(s, order, cap).total <= cap
  {
    var m := EvictPassIsPrefix(s, order, cap);
    if m == |order| {
      var r := EvictPass(s, order, cap);
      assert order[..m] == order;
      EvictPassKeepsLag(s, order, cap, n, a);
      assert Sizes(r) == map[];
    }
  }

  lemma RefundLagsAny(s: Store, k: Id) returns (n: nat, a: string)
    requires Exact(s)
    ensures Lags(Refund(s, k), n, a)
  {
    if k in s.data {
      RefundLags(s, k);
      n, a := |s.data[k]|, Owner(s, k);
    } else {
      ExactIsNoLag(s, "");
      n, a := 0, "";
    }
  }

  lemma PutWithinBudget(s: Store, k: Id, v: Bytes, peer: string, now: int, order: seq<Id>)
    requires Exact(s) && LruOrder(Refund(s, k), order) && Admits(s, k, |v|, peer)
    requires !EvictsOwnKey(s, k, |v|, order) || s.data[k] == []
    ensures WithinBudget(Put(s, k, v, peer, now, order))
  {
    PutExactIff(s, k, v, peer, now, order);
    ExactPutFits(s, k, v, peer, now, order);
  }

  lemma ExactPutFits(s: Store, k: Id, v: Bytes, peer: string, now: int, order: seq<Id>)
    requires Exact(s) && LruOrder(Refund(s, k), order) && Admits(s, k, |v|, peer)
    requires Exact(Put(s, k, v, peer, now, order))
    ensures WithinBudget(Put(s, k, v, peer, now, order))
  {
    var r := Refund(s, k);
    var t := Put(s, k, v, peer, now, order);
    if s.maxBytes > 0 {
      var n, a := RefundLagsAny(s, k);
      PassFits(r, order, Room(r, |v|), n, a);
      MaxBytesFixed(r, order, Room(r, |v|));
      if s.maxBytes < |v| { TotalAtLeast(Sizes(t), k); }
    } else {
      assert t.maxBytes <= 0;
    }
  }

  lemma {:induction false} MaxBytesFixed(s: Store, order: seq<Id>, cap: int)
    ensures EvictPass(s, order, cap).maxBytes == s.maxBytes
    ensures EvictPass(s, order, cap).perPeerMax == s.perPeerMax
    decreases |order|
  {
    if order != [] && s.total > cap { MaxBytesFixed(Delete(s, order[0]), order[1..], cap); }
  }

  /** Removals never raise a non-negative counter. */
  lemma DeleteLowersUsage(s: Store, k: Id, p: string)
    requires Usage(s.perPeer, p) >= 0
    ensures 0 <= Usage(Delete(s, k).perPeer, p) <= Usage(s.perPeer, p)
  {
    if k in s.data { DebitUsage(s.perPeer, Owner(s, k), |s.data[k]|, p); }
  }

  lemma {:induction false} PassLowersUsage(s: Store, order: seq<Id>, cap: int, p: string)
    requires Usage(s.perPeer, p) >= 0
    ensures 0 <= Usage(EvictPass(s, order, cap).perPeer, p) <= Usage(s.perPeer, p)
    decreases |order|
  {
    if order != [] && s.total > cap {
      DeleteLowersUsage(s, order[0], p);
      PassLowersUsage(Delete(s, order[0]), order[1..], cap, p);
    }
  }

  lemma PutUsage(s: Store, k: Id, v: Bytes, peer: string, now: int, order: seq<Id>, p: string)
    requires Exact(s) && WithinQuota(s) && Admits(s, k, |v|, peer) && s.perPeerMax > 0
    ensures Usage(Put(s, k, v, peer, now, order).perPeer, p) <= s.perPeerMax
  {
    var r := Refund(s, k);
    assert 0 <= Usage(s.perPeer, p) == Total(Owned(s, p)) <= s.perPeerMax;
    if k in s.data {
      DebitUsage(s.perPeer, Owner(s, k), |s.data[k]|, p);
      if k in s.attribution && s.attribution[k] == p { TotalAtLeast(Owned(s, p), k); }
    }
    if s.maxBytes > 0 { PassLowersUsage(r, order, Room(r, |v|), p); }
  }

  lemma PutWithinQuota(s: Store, k: Id, v: Bytes, peer: string, now: int, order: seq<Id>)
    requires Exact(s) && WithinQuota(s) && Admits(s, k, |v|, peer)
    ensures WithinQuota(Put(s, k, v, peer, now, order))
  {
    var r := Refund(s, k);
    if s.maxBytes > 0 { MaxBytesFixed(r, order, Room(r, |v|)); }
    if s.perPeerMax > 0 {
      forall p { PutUsage(s, k, v, peer, now, order, p); }
    }
  }

  lemma PutHolds(s: Store, k: Id, v: Bytes, peer: string, now: int, order: seq<Id>, content: Id -> Bytes)
    requires Holds(s, content) && v == content(k)
    ensures Holds(Put(s, k, v, peer, now, order), content)
  {
    var r := Refund(s, k);
    forall j | j in Put(s, k, v, peer, now, order).data
      ensures Put(s, k, v, peer, now, order).data[j] == content(j)
    {
      if s.maxBytes > 0 { EvictPassKeepsEntry(r, order, Room(r, |v|), j); }
    }
  }

  lemma PutKeepsGood(s: Store, op: Op, content: Id -> Bytes)
    requires op.PutOp? && Good(s, content) && Possible(s, op) && op.value == content(op.key)
    ensures Good(Apply(s, op), content)
  {
    PutKeepsExact(s, op.key, op.value, op.peer, op.now, op.order);
    if Admits(s, op.key, |op.value|, op.peer) {
      ExactPutFits(s, op.key, op.value, op.peer, op.now, op.order);
      PutWithinQuota(s, op.key, op.value, op.peer, op.now, op.order);
      PutHolds(s, op.key, op.value, op.peer, op.now, op.order, content);
    }
  }

  lemma DeleteKeepsGood(s: Store, k: Id, content: Id -> Bytes)
    requires Good(s, content)
    ensures Good(Delete(s, k), content)
  {
    var r := Delete(s, k);
    OthersKeepExact(s, k, 0, [], 0);
    forall p ensures Usage(r.perPeer, p) <= Usage(s.perPeer, p) {
      assert Usage(s.perPeer, p) == Total(Owned(s, p));
      DeleteLowersUsage(s, k, p);
    }
    if k in s.data && s.maxBytes > 0 && s.total > s.maxBytes {
      var j :| j in s.data && s.total == |s.data[j]|;
      if j != k {
        OthersEmpty(s, j, k);
        assert j in r.data && r.total == |r.data[j]|;
      }
    }
  }

  lemma TouchKeepsGood(s: Store, k: Id, now: int, content: Id -> Bytes)
    requires Good(s, content)
    ensures Good(Touch(s, k, now), content)
  {
    OthersKeepExact(s, k, now, [], 0);
    if s.maxBytes > 0 && s.total > s.maxBytes {
      var j :| j in s.data && s.total == |s.data[j]|;
      assert j in Touch(s, k, now).data;
    }
  }

  // ----- every run -----

  lemma {:induction false} RunKeepsGood(s: Store, ops: seq<Op>, content: Id -> Bytes)
    requires Good(s, content) && Run(s, ops) && ContentAddressed(ops, content)
    ensures Good(Final(s, ops), content)
    decreases |ops|
  {
    if ops != [] {
      match ops[0] {
        case PutOp(_, _, _, _, _) => PutKeepsGood(s, ops[0], content);
        case GetOp(k, now) => TouchKeepsGood(s, k, now, content);
        case DeleteOp(k) => DeleteKeepsGood(s, k, content);
      }
      RunKeepsGood(Apply(s, ops[0]), ops[1..], content);
    }
  }

  /** Every reachable state of a content-addressed store is good. */
  lemma ContentAddressedRuns(maxBytes: int, perPeerMax: int, ops: seq<Op>, content: Id -> Bytes)
    requires Run(Empty(maxBytes, perPeerMax), ops) && ContentAddressed(ops, content)
    ensures Good(Final(Empty(maxBytes, perPeerMax), ops), content)
  {
    var s := Empty(maxBytes, perPeerMax);
    assert Sizes(s) == map[];
    forall p ensures Usage(s.perPeer, p) == Total(Owned(s, p)) { assert Owned(s, p) == map[]; }
    RunKeepsGood(s, ops, content);
  }

  // ----- the failing overwrite, reached from an empty store -----

  function Zeros(n: nat): Bytes {
    seq(n, _ => 0)
  }

  /** Nothing is evicted for a value there is room for. */
  lemma PutThatFits(s: Store, k: Id, v: Bytes, now: int, order: seq<Id>)
    requires s.maxBytes > 0 && s.total - (if k in s.data then |s.data[k]| else 0) <= Room(s, |v|)
    ensures Put(s, k, v, "", now, order) == Insert(Refund(s, k), k, v, "", now)
  {
  }

  lemma FirstPut(a: Id)
    ensures Apply(Empty(10, 0), PutOp(a, Zeros(6), "", 1, [])) ==
            Store(map[a := Zeros(6)], map[a := 1], 6, 10, map[], map[], 0)
  {
  }

  lemma SecondPut(a: Id, b: Id)
    requires a != b
    ensures Apply(Store(map[a := Zeros(6)], map[a := 1], 6, 10, map[], map[], 0), PutOp(b, Zeros(4), "", 2, [a])) ==
            Store(map[a := Zeros(6), b := Zeros(4)], map[a := 1, b := 2], 10, 10, map[], map[], 0)
  {
  }

  lemma ThirdPut(a: Id, b: Id)
    requires a != b
    ensures var s := Store(map[a := Zeros(6), b := Zeros(4)], map[a := 1, b := 2], 10, 10, map[], map[], 0);
            Apply(s, PutOp(a, Zeros(8), "", 3, [a, b])) ==
            Store(map[a := Zeros(8), b := Zeros(4)], map[a := 3, b := 2], 6, 10, map[], map[], 0)
  {
    var s := Store(map[a := Zeros(6), b := Zeros(4)], map[a := 1, b := 2], 10, 10, map[], map[], 0);
    var r := Refund(s, a);
    var d := Delete(r, a);
    assert r.total == 4 && d.total == -2 && [a, b][1..] == [b];
    assert EvictPass(r, [a, b], 2) == EvictPass(d, [b], 2) == d;
  }

  lemma TwoEntries(s: Store, a: Id, b: Id)
    requires a != b && s.data.Keys == {a, b}
    ensures Total(Sizes(s)) == |s.data[a]| + |s.data[b]|
  {
    TotalRemove(Sizes(s), a);
    TotalRemove(Sizes(s) - {a}, b);
    assert Sizes(s) - {a} - {b} == map[];
  }

  lemma ThreeStepRun(s: Store, p1: Op, p2: Op, p3: Op)
    ensures Final(s, [p1, p2, p3]) == Apply(Apply(Apply(s, p1), p2), p3)
    ensures Run(s, [p1, p2, p3]) <==>
            Possible(s, p1) && Possible(Apply(s, p1), p2) && Possible(Apply(Apply(s, p1), p2), p3)
  {
    var s1 := Apply(s, p1);
    var s2 := Apply(s1, p2);
    assert [p1, p2, p3][1..] == [p2, p3] && [p2, p3][1..] == [p3] && [p3][1..] == [];
    assert Final(s2, [p3]) == Apply(s2, p3) && Final(s1, [p2, p3]) == Final(s2, [p3]);
    assert Run(s2, [p3]) <==> Possible(s2, p3);
    assert Run(s1, [p2, p3]) <==> Possible(s1, p2) && Run(s2, [p3]);
  }

  /**
   * Budget 10. Store 6 bytes at one key and 4 at another, then 8 bytes at the
   * first: 12 bytes are stored and the total says 6.
   */
  lemma DoubleRefundRun(a: Id, b: Id)
    requires a != b
    ensures var ops := [PutOp(a, Zeros(6), "", 1, []), PutOp(b, Zeros(4), "", 2, [a]), PutOp(a, Zeros(8), "", 3, [a, b])];
            var s := Final(Empty(10, 0), ops);
            Run(Empty(10, 0), ops) && s.total == 6 && Total(Sizes(s)) == 12
  {
    FirstPut(a);
    SecondPut(a, b);
    ThirdPut(a, b);
    ThreeStepRun(Empty(10, 0), PutOp(a, Zeros(6), "", 1, []), PutOp(b, Zeros(4), "", 2, [a]), PutOp(a, Zeros(8), "", 3, [a, b]));
    TwoEntries(Store(map[a := Zeros(8), b := Zeros(4)], map[a := 3, b := 2], 6, 10, map[], map[], 0), a, b);
  }

  // ----- the drift in every run -----

  /** The total is `d` bytes less than what is stored. */
  ghost predicate Behind(s: Store, d: nat) {
    s.total + d == Total(Sizes(s))
  }

  lemma DeleteStaysBehind(s: Store, k: Id, d: nat)
    requires Behind(s, d)
    ensures Behind(Delete(s, k), d)
  {
    if k in s.data { SizesAfterDelete(s, k); }
  }

  lemma {:induction false} PassStaysBehind(s: Store, order: seq<Id>, cap: int, d: nat)
    requires Behind(s, d)
    ensures Behind(EvictPass(s, order, cap), d)
    decreases |order|
  {
    if order != [] && s.total > cap {
      DeleteStaysBehind(s, order[0], d);
      PassStaysBehind(Delete(s, order[0]), order[1..], cap, d);
    }
  }

  /** Bytes refunded twice by a put. */
  function TwiceRefunded(s: Store, k: Id, size: nat, order: seq<Id>): nat {
    if EvictsOwnKey(s, k, size, order) then |s.data[k]| else 0
  }

  lemma RefundBehind(s: Store, k: Id, d: nat)
    requires Behind(s, d)
    ensures Behind(Refund(s, k), d + if k in s.data then |s.data[k]| else 0)
  {
    assert Sizes(Refund(s, k)) == Sizes(s);
  }

  /** Every put, from every state: the shortfall grows by exactly what it refunds twice. */
  lemma PutDrifts(s: Store, k: Id, v: Bytes, peer: string, now: int, order: seq<Id>, d: nat)
    requires Behind(s, d) && Admits(s, k, |v|, peer)
    ensures Behind(Put(s, k, v, peer, now, order), d + TwiceRefunded(s, k, |v|, order))
  {
    var r := Refund(s, k);
    var old_ := if k in s.data then |s.data[k]| else 0;
    RefundBehind(s, k, d);
    var m := EvictToFit(r, order, |v|);
    if s.maxBytes > 0 {
      PassStaysBehind(r, order, Room(r, |v|), d + old_);
      EvictPassKeepsEntry(r, order, Room(r, |v|), k);
    }
    SizesAfterInsert(m, k, v, peer, now);
  }

  /** The total after a put is at most the budget or the new value, drifted or not. */
  lemma PutTotalBound(s: Store, k: Id, v: Bytes, peer: string, now: int, order: seq<Id>, d: nat)
    requires Behind(s, d) && LruOrder(Refund(s, k), order) && Admits(s, k, |v|, peer) && s.maxBytes > 0
    ensures Put(s, k, v, peer, now, order).total <= if |v| <= s.maxBytes then s.maxBytes else |v|
  {
    var r := Refund(s, k);
    RefundBehind(s, k, d);
    BehindFits(r, order, Room(r, |v|), d + if k in s.data then |s.data[k]| else 0);
  }

  lemma BehindFits(s: Store, order: seq<Id>, cap: nat, d: nat)
    requires Behind(s, d) && LruOrder(s, order)
    ensures EvictPass(s, order, cap).total <= cap
  {
    var m := EvictPassIsPrefix(s, order, cap);
    if m == |order| {
      assert order[..m] == order;
      PassStaysBehind(s, order, cap, d);
      assert Sizes(EvictPass(s, order, cap)) == map[];
    }
  }

  ghost function Shortfall(s: Store): int {
    Total(Sizes(s)) - s.total
  }

  lemma ApplyDrifts(s: Store, op: Op)
    requires Shortfall(s) >= 0
    ensures Shortfall(s) <= Shortfall(Apply(s, op))
  {
    var d := Shortfall(s);
    match op
    case PutOp(k, v, peer, now, order) => if Admits(s, k, |v|, peer) { PutDrifts(s, k, v, peer, now, order, d); }
    case GetOp(k, now) => assert Sizes(Touch(s, k, now)) == Sizes(s);
    case DeleteOp(k) => DeleteStaysBehind(s, k, d);
  }

  /** Nothing ever heals it: over any run at all the shortfall only grows. */
  lemma {:induction false} DriftNeverHeals(s: Store, ops: seq<Op>)
    requires Shortfall(s) >= 0
    ensures Shortfall(s) <= Shortfall(Final(s, ops))
    decreases |ops|
  {
    if ops != [] {
      ApplyDrifts(s, ops[0]);
      DriftNeverHeals(Apply(s, ops[0]), ops[1..]);
    }
  }

  // ----- and it has no limit -----

  /** Budget 10; `big` bytes at a, 5 at b, b the older one, and a total of 10. */
  function TwoKeys(a: Id, b: Id, big: nat, t: int): Store {
    Store(map[a := Zeros(big), b := Zeros(5)], map[a := t, b := t - 1], 10, 10, map[], map[], 0)
  }

  /** Overwrite b by 10 bytes, which refunds its 5 twice; shrink it again; and put the 5 bytes won at a. */
  function Round(a: Id, b: Id, big: nat, t: int): seq<Op> {
    [PutOp(b, Zeros(10), "", t + 1, [b, a]), PutOp(b, Zeros(5), "", t + 2, [a, b]), PutOp(a, Zeros(big + 5), "", t + 3, [a, b])]
  }

  function Grown(a: Id, b: Id, big: nat, t: int): Store {
    Store(map[a := Zeros(big), b := Zeros(10)], map[a := t, b := t + 1], 10, 10, map[], map[], 0)
  }

  function Shrunk(a: Id, b: Id, big: nat, t: int): Store {
    Store(map[a := Zeros(big), b := Zeros(5)], map[a := t, b := t + 2], 5, 10, map[], map[], 0)
  }

  /** The run is possible and leads from the one state to the other. */
  ghost predicate Leads(s: Store, ops: seq<Op>, t: Store) {
    Run(s, ops) && Final(s, ops) == t
  }

  lemma OneLeads(s: Store, op: Op, t: Store)
    requires Possible(s, op) && t == Apply(s, op)
    ensures Leads(s, [op], t)
  {
    assert [op][1..] == [];
  }

  lemma ThreeLead(s: Store, p1: Op, s1: Store, p2: Op, s2: Store, p3: Op, s3: Store)
    requires Leads(s, [p1], s1) && Leads(s1, [p2], s2) && Leads(s2, [p3], s3)
    ensures Leads(s, [p1, p2, p3], s3)
  {
    LeadsOn(s1, [p2], s2, [p3], s3, [p2, p3]);
    LeadsOn(s, [p1], s1, [p2, p3], s3, [p1, p2, p3]);
  }

  lemma OlderFirst(s: Store, a: Id, b: Id, k: Id, v: Bytes, now: int)
    requires a != b && s.data.Keys == {a, b} && s.access.Keys == {a, b} && s.access[a] <= s.access[b]
    ensures Possible(s, PutOp(k, v, "", now, [a, b]))
  {
  }

  lemma GrowOwnKey(a: Id, b: Id, big: nat, t: int)
    requires a != b
    ensures Leads(TwoKeys(a, b, big, t), [PutOp(b, Zeros(10), "", t + 1, [b, a])], Grown(a, b, big, t))
  {
    var s, op := TwoKeys(a, b, big, t), PutOp(b, Zeros(10), "", t + 1, [b, a]);
    var r := Refund(s, b);
    var d := Delete(r, b);
    assert r.total == 5 && d.total == 0 && [b, a][1..] == [a];
    assert EvictPass(r, [b, a], 0) == EvictPass(d, [a], 0) == d;
    OlderFirst(s, b, a, b, Zeros(10), t + 1);
    OneLeads(s, op, Grown(a, b, big, t));
  }

  lemma ShrinkAgainPut(a: Id, b: Id, big: nat, t: int)
    requires a != b
    ensures Apply(Grown(a, b, big, t), PutOp(b, Zeros(5), "", t + 2, [a, b])) == Shrunk(a, b, big, t)
  {
  }

  lemma ShrinkAgain(a: Id, b: Id, big: nat, t: int)
    requires a != b
    ensures Leads(Grown(a, b, big, t), [PutOp(b, Zeros(5), "", t + 2, [a, b])], Shrunk(a, b, big, t))
  {
    var s := Grown(a, b, big, t);
    ShrinkAgainPut(a, b, big, t);
    OlderFirst(s, a, b, b, Zeros(5), t + 2);
    OneLeads(s, PutOp(b, Zeros(5), "", t + 2, [a, b]), Shrunk(a, b, big, t));
  }

  lemma FillUpPut(a: Id, b: Id, big: nat, t: int)
    requires a != b && big >= 5
    ensures Apply(Shrunk(a, b, big, t), PutOp(a, Zeros(big + 5), "", t + 3, [a, b])) == TwoKeys(a, b, big + 5, t + 3)
  {
    PutThatFits(Shrunk(a, b, big, t), a, Zeros(big + 5), t + 3, [a, b]);
  }

  lemma FillUp(a: Id, b: Id, big: nat, t: int)
    requires a != b && big >= 5
    ensures Leads(Shrunk(a, b, big, t), [PutOp(a, Zeros(big + 5), "", t + 3, [a, b])], TwoKeys(a, b, big + 5, t + 3))
  {
    var s := Shrunk(a, b, big, t);
    FillUpPut(a, b, big, t);
    OlderFirst(s, a, b, a, Zeros(big + 5), t + 3);
    OneLeads(s, PutOp(a, Zeros(big + 5), "", t + 3, [a, b]), TwoKeys(a, b, big + 5, t + 3));
  }

  lemma RoundLeads(a: Id, b: Id, big: nat, t: int)
    requires a != b && big >= 5
    ensures Leads(TwoKeys(a, b, big, t), Round(a, b, big, t), TwoKeys(a, b, big + 5, t + 3))
  {
    GrowOwnKey(a, b, big, t);
    ShrinkAgain(a, b, big, t);
    FillUp(a, b, big, t);
    ThreeLead(TwoKeys(a, b, big, t), PutOp(b, Zeros(10), "", t + 1, [b, a]), Grown(a, b, big, t),
              PutOp(b, Zeros(5), "", t + 2, [a, b]), Shrunk(a, b, big, t),
              PutOp(a, Zeros(big + 5), "", t + 3, [a, b]), TwoKeys(a, b, big + 5, t + 3));
  }

  lemma {:induction false} LeadsOn(s: Store, x: seq<Op>, t: Store, y: seq<Op>, u: Store, z: seq<Op>)
    requires Leads(s, x, t) && Leads(t, y, u) && z == x + y
    ensures Leads(s, z, u)
    decreases |x|
  {
    if x == [] {
      assert z == y;
    } else {
      assert z[1..] == x[1..] + y;
      LeadsOn(Apply(s, x[0]), x[1..], t, y, u, z[1..]);
    }
  }

  ghost predicate CanReach(s: Store, u: Store) {
    exists ops :: Leads(s, ops, u)
  }

  lemma CanReachOn(s: Store, m: Store, u: Store)
    requires CanReach(s, m) && CanReach(m, u)
    ensures CanReach(s, u)
  {
    var x :| Leads(s, x, m);
    var y :| Leads(m, y, u);
    LeadsOn(s, x, m, y, u, x + y);
  }

  lemma CanStay(s: Store)
    ensures CanReach(s, s)
  {
    assert Leads(s, [], s);
  }

  lemma RoundReaches(a: Id, b: Id, big: nat, t: int, s: Store, u: Store)
    requires a != b && big >= 5 && s == TwoKeys(a, b, big, t) && u == TwoKeys(a, b, big + 5, t + 3)
    ensures CanReach(s, u)
  {
    RoundLeads(a, b, big, t);
  }

  lemma {:induction false} RoundsGain(a: Id, b: Id, big: nat, t: int, n: nat)
    requires a != b && big >= 5
    ensures CanReach(TwoKeys(a, b, big, t), TwoKeys(a, b, big + 5 * n, t + 3 * n))
    decreases n
  {
    var s, u := TwoKeys(a, b, big, t), TwoKeys(a, b, big + 5 * n, t + 3 * n);
    if n == 0 {
      CanStay(s);
    } else {
      var m := TwoKeys(a, b, big + 5, t + 3);
      RoundReaches(a, b, big, t, s, m);
      RoundsGain(a, b, big + 5, t + 3, n - 1);
      assert big + 5 + 5 * (n - 1) == big + 5 * n && t + 3 + 3 * (n - 1) == t + 3 * n;
      CanReachOn(s, m, u);
    }
  }

  function FirstTwo(a: Id, b: Id): seq<Op> {
    [PutOp(b, Zeros(5), "", 1, []), PutOp(a, Zeros(5), "", 2, [b])]
  }

  lemma FirstTwoPuts(a: Id, b: Id, s: Store, s1: Store, u: Store)
    requires a != b && s == Empty(10, 0) && u == TwoKeys(a, b, 5, 2)
    requires s1 == Store(map[b := Zeros(5)], map[b := 1], 5, 10, map[], map[], 0)
    ensures Put(s, b, Zeros(5), "", 1, []) == s1 && Put(s1, a, Zeros(5), "", 2, [b]) == u
  {
  }

  lemma FirstTwoLead(a: Id, b: Id, s: Store, u: Store)
    requires a != b && s == Empty(10, 0) && u == TwoKeys(a, b, 5, 2)
    ensures Leads(s, FirstTwo(a, b), u)
  {
    var p1, p2 := PutOp(b, Zeros(5), "", 1, []), PutOp(a, Zeros(5), "", 2, [b]);
    var s1 := Store(map[b := Zeros(5)], map[b := 1], 5, 10, map[], map[], 0);
    FirstTwoPuts(a, b, s, s1, u);
    OneLeads(s, p1, s1);
    OneLeads(s1, p2, u);
    LeadsOn(s, [p1], s1, [p2], u, FirstTwo(a, b));
  }

  /** With a budget of 10, for every n some run from the empty store ends with a total of 10 and 10 + 5 n bytes stored. */
  lemma DriftIsUnbounded(a: Id, b: Id, n: nat) returns (ops: seq<Op>)
    requires a != b
    ensures Run(Empty(10, 0), ops) && var t := Final(Empty(10, 0), ops);
            t.maxBytes == 10 && t.total == 10 && Total(Sizes(t)) == 10 + 5 * n
  {
    var s, m, u := Empty(10, 0), TwoKeys(a, b, 5, 2), TwoKeys(a, b, 5 + 5 * n, 2 + 3 * n);
    FirstTwoLead(a, b, s, m);
    RoundsGain(a, b, 5, 2, n);
    CanReachOn(s, m, u);
    ops :| Leads(s, ops, u);
    TwoEntries(u, a, b);
  }
}
