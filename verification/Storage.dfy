/**
 * The local store (core/dht/store.go): a bounded LRU cache that keeps a byte
 * total and per-peer quota counters incrementally beside the data.
 *
 * Each operation is a function on a value, `Store`; the class of module LocalStore
 * does the same work in place and is proved equal to those functions.
 * Time is an input. Go iterates its map in random order and sorts with an
 * unstable sort, so an eviction pass receives its visiting order as an input
 * that may be any least-recently-accessed order of the stored keys.
 */
module Storage {
  import opened NodeId
  import opened MapSum

  datatype Store = Store(
    data: map<Id, Bytes>,
    access: map<Id, int>,
    total: int,
    maxBytes: int,
    attribution: map<Id, string>,
    perPeer: map<string, int>,
    perPeerMax: int)

  function Empty(maxBytes: int, perPeerMax: int): Store {
    Store(map[], map[], 0, maxBytes, map[], map[], perPeerMax)
  }

  /** Reading a missing counter of a Go map yields zero. */
  function Usage(perPeer: map<string, int>, p: string): int {
    if p in perPeer then perPeer[p] else 0
  }

  /** perPeer[p] -= n, dropping the counter once it is not positive. */
  function Debit(perPeer: map<string, int>, p: string, n: nat): map<string, int> {
    var v := Usage(perPeer, p) - n;
    if v <= 0 then perPeer - {p} else perPeer[p := v]
  }

  function Credit(perPeer: map<string, int>, p: string, n: nat): map<string, int> {
    perPeer[p := Usage(perPeer, p) + n]
  }

  function Owner(s: Store, k: Id): string {
    if k in s.attribution then s.attribution[k] else ""
  }

  /** The counter part of dropping the entry at `k`: total and attribution counters. */
  function Refund(s: Store, k: Id): (r: Store) {
    if k !in s.data then s
    else
      var n := |s.data[k]|;
      s.(total := s.total - n,
         perPeer := if Owner(s, k) != "" then Debit(s.perPeer, Owner(s, k), n) else s.perPeer)
  }

  /** Removing the entry at `k` with all its bookkeeping; nothing if it is absent. */
  function Delete(s: Store, k: Id): (r: Store) {
    if k !in s.data then s
    else Refund(s, k).(data := s.data - {k}, access := s.access - {k}, attribution := s.attribution - {k})
  }

  function Touch(s: Store, k: Id, now: int): (r: Store) {
    if k in s.data then s.(access := s.access[k := now]) else s
  }

  /** Removes entries in the given order until the total fits under `cap`. */
  function EvictPass(s: Store, order: seq<Id>, cap: int): (r: Store)
    decreases |order|
  {
    if order == [] || s.total <= cap then s
    else EvictPass(Delete(s, order[0]), order[1..], cap)
  }

  function EvictUntilUnder(s: Store, order: seq<Id>, cap: int): (r: Store) {
    if cap <= 0 && s.maxBytes <= 0 then s else EvictPass(s, order, cap)
  }

  function Room(s: Store, needed: nat): int {
    if s.maxBytes < needed then 0 else s.maxBytes - needed
  }

  function EvictToFit(s: Store, order: seq<Id>, needed: nat): (r: Store) {
    if s.maxBytes <= 0 then s else EvictUntilUnder(s, order, Room(s, needed))
  }

  /** The per-peer admission check. */
  predicate Admits(s: Store, k: Id, size: nat, peer: string) {
    peer != "" && s.perPeerMax > 0 ==>
      Usage(s.perPeer, peer) - (if k in s.data && k in s.attribution && s.attribution[k] == peer then |s.data[k]| else 0)
      + size <= s.perPeerMax
  }

  function Insert(s: Store, k: Id, value: Bytes, peer: string, now: int): (r: Store) {
    s.(data := s.data[k := value],
       access := s.access[k := now],
       total := s.total + |value|,
       attribution := if peer != "" then s.attribution[k := peer] else s.attribution - {k},
       perPeer := if peer != "" then Credit(s.perPeer, peer, |value|) else s.perPeer)
  }

  /** put: the stored state after the call; unchanged when the peer is over quota. */
  function Put(s: Store, k: Id, value: Bytes, peer: string, now: int, order: seq<Id>): (r: Store) {
    if !Admits(s, k, |value|, peer) then s
    else Insert(EvictToFit(Refund(s, k), order, |value|), k, value, peer, now)
  }

  // ----- what the counters should be -----

  ghost function Sizes(s: Store): map<Id, nat> {
    map k | k in s.data :: |s.data[k]|
  }

  /** The entries attributed to peer `p`. */
  ghost function Owned(s: Store, p: string): map<Id, nat> {
    map k | k in s.data && k in s.attribution && s.attribution[k] == p :: |s.data[k]|
  }

  ghost predicate Shaped(s: Store) {
    && s.access.Keys == s.data.Keys
    && s.attribution.Keys <= s.data.Keys
    && (forall k :: k in s.attribution ==> s.attribution[k] != "")
  }

  /** Truncated subtraction. */
  function Minus(a: nat, b: nat): nat {
    if a <= b then 0 else a - b
  }

  ghost predicate CountersLag(s: Store, n: nat, a: string) {
    forall p :: Usage(s.perPeer, p) == Minus(Total(Owned(s, p)), if p == a then n else 0)
  }

  /** All counters are exact, except that `n` bytes of the total and of peer `a` are missing. */
  ghost predicate Lags(s: Store, n: nat, a: string) {
    Shaped(s) && s.total == Total(Sizes(s)) - n && CountersLag(s, n, a)
  }

  /** Every counter equals the sum it stands for. */
  ghost predicate Exact(s: Store) {
    && Shaped(s)
    && s.total == Total(Sizes(s))
    && forall p :: Usage(s.perPeer, p) == Total(Owned(s, p))
  }

  lemma ExactIsNoLag(s: Store, a: string)
    ensures Exact(s) <==> Lags(s, 0, a)
  {
  }

  // ----- the effect of one removal on the sums -----

  lemma SizesAfterDelete(s: Store, k: Id)
    requires k in s.data
    ensures Total(Sizes(s)) == |s.data[k]| + Total(Sizes(Delete(s, k)))
  {
    TotalRemove(Sizes(s), k);
    assert Sizes(Delete(s, k)) == Sizes(s) - {k};
  }

  lemma OwnedAfterDelete(s: Store, k: Id, p: string)
    requires k in s.data && Shaped(s)
    ensures Total(Owned(s, p)) == Total(Owned(Delete(s, k), p)) + if p == Owner(s, k) && p != "" then |s.data[k]| else 0
  {
    if p == Owner(s, k) && p != "" {
      TotalRemove(Owned(s, p), k);
      assert Owned(Delete(s, k), p) == Owned(s, p) - {k};
    } else {
      assert Owned(Delete(s, k), p) == Owned(s, p);
    }
  }

  lemma DebitUsage(perPeer: map<string, int>, p: string, n: nat, q: string)
    ensures Usage(Debit(perPeer, p, n), q) ==
            if q != p then Usage(perPeer, q) else if Usage(perPeer, p) <= n then 0 else Usage(perPeer, p) - n
  {
  }

  /** A removal keeps whatever lag the counters had. */
  lemma DeleteKeepsLag(s: Store, k: Id, n: nat, a: string)
    requires Lags(s, n, a)
    ensures Lags(Delete(s, k), n, a)
  {
    if k in s.data {
      var r := Delete(s, k);
      SizesAfterDelete(s, k);
      forall p
        ensures Usage(r.perPeer, p) == Minus(Total(Owned(r, p)), if p == a then n else 0)
      {
        OwnedAfterDelete(s, k, p);
        DebitUsage(s.perPeer, Owner(s, k), |s.data[k]|, p);
        assert Usage(s.perPeer, p) == Minus(Total(Owned(s, p)), if p == a then n else 0);
      }
    }
  }

  lemma {:induction false} EvictPassKeepsLag(s: Store, order: seq<Id>, cap: int, n: nat, a: string)
    requires Lags(s, n, a)
    ensures Lags(EvictPass(s, order, cap), n, a)
    decreases |order|
  {
    if order != [] && s.total > cap {
      DeleteKeepsLag(s, order[0], n, a);
      EvictPassKeepsLag(Delete(s, order[0]), order[1..], cap, n, a);
    }
  }

  /** A refund without removal leaves the counters short by the entry still stored. */
  lemma RefundLags(s: Store, k: Id)
    requires Exact(s) && k in s.data
    ensures Lags(Refund(s, k), |s.data[k]|, Owner(s, k))
  {
    var r, n, a := Refund(s, k), |s.data[k]|, Owner(s, k);
    assert Sizes(r) == Sizes(s);
    forall p
      ensures Usage(r.perPeer, p) == Minus(Total(Owned(r, p)), if p == a then n else 0)
    {
      assert Owned(r, p) == Owned(s, p);
      DebitUsage(s.perPeer, a, n, p);
      if p == "" { assert Owned(s, p) == map[]; }
    }
  }

  // ----- put -----

  lemma SizesAfterInsert(s: Store, k: Id, v: Bytes, peer: string, now: int)
    ensures Total(Sizes(Insert(s, k, v, peer, now))) ==
            Total(Sizes(s)) + |v| - if k in s.data then |s.data[k]| else 0
  {
    var r := Insert(s, k, v, peer, now);
    assert Sizes(r) - {k} == Sizes(s) - {k};
    TotalDiffer(Sizes(r), Sizes(s), k);
  }

  lemma OwnedElsewhere(s: Store, k: Id, v: Bytes, peer: string, now: int, p: string)
    ensures Owned(Insert(s, k, v, peer, now), p) - {k} == Owned(s, p) - {k}
  {
  }

  lemma OwnedAfterInsert(s: Store, k: Id, v: Bytes, peer: string, now: int, p: string)
    requires Shaped(s)
    ensures Total(Owned(Insert(s, k, v, peer, now), p)) ==
            Total(Owned(s, p)) + (if p == peer && p != "" then |v| else 0)
            - if k in s.data && p == Owner(s, k) && p != "" then |s.data[k]| else 0
  {
    OwnedElsewhere(s, k, v, peer, now, p);
    TotalDiffer(Owned(Insert(s, k, v, peer, now), p), Owned(s, p), k);
  }

  lemma InsertShaped(s: Store, k: Id, v: Bytes, peer: string, now: int)
    requires Shaped(s)
    ensures Shaped(Insert(s, k, v, peer, now))
  {
  }

  lemma UsageSettles(s: Store, k: Id, n: nat, a: string, v: Bytes, peer: string, now: int, p: string)
    requires Lags(s, n, a)
    requires if k in s.data then n == |s.data[k]| && a == Owner(s, k) else n == 0
    ensures Usage(Insert(s, k, v, peer, now).perPeer, p) == Total(Owned(Insert(s, k, v, peer, now), p))
  {
    OwnedAfterInsert(s, k, v, peer, now, p);
    assert Usage(s.perPeer, p) == Minus(Total(Owned(s, p)), if p == a then n else 0);
    if p == "" {
      assert Owned(s, p) == map[];
    } else if k in s.data && p == a {
      TotalAtLeast(Owned(s, p), k);
    }
  }

  /** The old entry survived its own eviction pass: the insert settles the lag. */
  lemma InsertSettles(s: Store, k: Id, n: nat, a: string, v: Bytes, peer: string, now: int)
    requires Lags(s, n, a)
    requires if k in s.data then n == |s.data[k]| && a == Owner(s, k) else n == 0
    ensures Exact(Insert(s, k, v, peer, now))
  {
    InsertShaped(s, k, v, peer, now);
    SizesAfterInsert(s, k, v, peer, now);
    forall p { UsageSettles(s, k, n, a, v, peer, now, p); }
  }

  lemma UsageAfterLoss(s: Store, k: Id, n: nat, a: string, v: Bytes, peer: string, now: int, p: string)
    requires Lags(s, n, a) && k !in s.data
    ensures var r := Insert(s, k, v, peer, now);
            Usage(r.perPeer, p) + Missing(r, p, n, a, |v|, peer) == Total(Owned(r, p))
  {
    OwnedAfterInsert(s, k, v, peer, now, p);
    assert Usage(s.perPeer, p) == Minus(Total(Owned(s, p)), if p == a then n else 0);
  }

  /** Insertion at a key that is not stored keeps the lag of everything else. */
  lemma InsertAfterLoss(s: Store, k: Id, n: nat, a: string, v: Bytes, peer: string, now: int)
    requires Lags(s, n, a) && k !in s.data
    ensures Short(Insert(s, k, v, peer, now), n, a, |v|, peer)
  {
    InsertShaped(s, k, v, peer, now);
    SizesAfterInsert(s, k, v, peer, now);
    forall p { UsageAfterLoss(s, k, n, a, v, peer, now, p); }
  }

  /** Bytes missing from the counter of `p`: the twice-refunded old entry, as far as the counter reached. */
  ghost function Missing(s: Store, p: string, n: nat, a: string, size: nat, peer: string): nat {
    var others := Minus(Total(Owned(s, p)), if p == peer && p != "" then size else 0);
    if p != a then 0 else if others <= n then others else n
  }

  /** The counters after an overwrite that evicted the old entry: short by its `n` bytes. */
  ghost predicate Short(s: Store, n: nat, a: string, size: nat, peer: string) {
    && Shaped(s)
    && s.total == Total(Sizes(s)) - n
    && forall p :: Usage(s.perPeer, p) + Missing(s, p, n, a, size, peer) == Total(Owned(s, p))
  }

  /** The eviction pass of a put at `k` picks the entry being overwritten. */
  predicate EvictsOwnKey(s: Store, k: Id, size: nat, order: seq<Id>) {
    k in s.data && k !in EvictToFit(Refund(s, k), order, size).data
  }

  lemma EvictToFitKeepsLag(s: Store, order: seq<Id>, needed: nat, n: nat, a: string)
    requires Lags(s, n, a)
    ensures Lags(EvictToFit(s, order, needed), n, a)
  {
    if s.maxBytes > 0 { EvictPassKeepsLag(s, order, Room(s, needed), n, a); }
  }

  /** The entry at `k` is the same in both: value, access time and owner. */
  ghost predicate SameEntry(s: Store, t: Store, k: Id) {
    && k in s.data && k in t.data && s.data[k] == t.data[k] && Owner(s, k) == Owner(t, k)
    && (k in s.access <==> k in t.access) && (k in s.access ==> s.access[k] == t.access[k])
  }

  /** Removals leave the entries they do not remove as they were. */
  lemma {:induction false} EvictPassKeepsEntry(s: Store, order: seq<Id>, cap: int, k: Id)
    ensures k in EvictPass(s, order, cap).data ==> SameEntry(s, EvictPass(s, order, cap), k)
    ensures k !in s.data ==> k !in EvictPass(s, order, cap).data
    decreases |order|
  {
    if order != [] && s.total > cap { EvictPassKeepsEntry(Delete(s, order[0]), order[1..], cap, k); }
  }

  /**
   * Bookkeeping of put, for every state, key, value, peer and eviction order: from
   * exact counters a put gives exact counters, except when its eviction pass picks
   * the very key it overwrites; then the old length has been refunded twice.
   */
  lemma PutBookkeeping(s: Store, k: Id, v: Bytes, peer: string, now: int, order: seq<Id>)
    requires Exact(s)
    ensures !Admits(s, k, |v|, peer) ==> Put(s, k, v, peer, now, order) == s
    ensures !EvictsOwnKey(s, k, |v|, order) ==> Exact(Put(s, k, v, peer, now, order))
    ensures Admits(s, k, |v|, peer) && EvictsOwnKey(s, k, |v|, order) ==>
            Short(Put(s, k, v, peer, now, order), |s.data[k]|, Owner(s, k), |v|, peer)
  {
    var n := if k in s.data then |s.data[k]| else 0;
    var a := Owner(s, k);
    var refunded := Refund(s, k);
    var room := EvictToFit(refunded, order, |v|);
    assert Lags(refunded, n, a) by {
      if k in s.data { RefundLags(s, k); } else { ExactIsNoLag(s, a); }
    }
    EvictToFitKeepsLag(refunded, order, |v|, n, a);
    if s.maxBytes > 0 { EvictPassKeepsEntry(refunded, order, Room(refunded, |v|), k); }
    if EvictsOwnKey(s, k, |v|, order) {
      InsertAfterLoss(room, k, n, a, v, peer, now);
    } else {
      InsertSettles(room, k, n, a, v, peer, now);
    }
  }

  /** So the counters stay exact if and only if the pass spares the old entry or that entry is empty. */
  lemma PutExactIff(s: Store, k: Id, v: Bytes, peer: string, now: int, order: seq<Id>)
    requires Exact(s) && Admits(s, k, |v|, peer)
    ensures Exact(Put(s, k, v, peer, now, order)) <==>
            !EvictsOwnKey(s, k, |v|, order) || s.data[k] == []
  {
    PutBookkeeping(s, k, v, peer, now, order);
  }

  /** Delete and Get always keep the counters exact; so does every eviction on its own. */
  lemma OthersKeepExact(s: Store, k: Id, now: int, order: seq<Id>, cap: int)
    requires Exact(s)
    ensures Exact(Delete(s, k))
    ensures Exact(Touch(s, k, now))
    ensures Exact(EvictUntilUnder(s, order, cap))
  {
    ExactIsNoLag(s, "");
    DeleteKeepsLag(s, k, 0, "");
    ExactIsNoLag(Delete(s, k), "");
    EvictPassKeepsLag(s, order, cap, 0, "");
    ExactIsNoLag(EvictPass(s, order, cap), "");
    var t := Touch(s, k, now);
    assert Sizes(t) == Sizes(s);
    forall p ensures Usage(t.perPeer, p) == Total(Owned(t, p)) { assert Owned(t, p) == Owned(s, p); }
  }

  // ----- eviction removes a least-recently-accessed prefix -----

  /** `order` lists every stored key once, least recently accessed first. */
  ghost predicate LruOrder(s: Store, order: seq<Id>) {
    && (forall k :: k in order <==> k in s.data)
    && (forall i, j :: 0 <= i < j < |order| ==> order[i] != order[j])
    && s.data.Keys <= s.access.Keys
    && (forall i, j :: 0 <= i < j < |order| ==> s.access[order[i]] <= s.access[order[j]])
  }

  /** Bytes stored under a list of keys. */
  function BytesOf(s: Store, ks: seq<Id>): nat
    requires forall k :: k in ks ==> k in s.data
  {
    if ks == [] then 0 else |s.data[ks[0]]| + BytesOf(s, ks[1..])
  }

  lemma {:induction false} BytesOfSame(s: Store, t: Store, ks: seq<Id>)
    requires forall k :: k in ks ==> k in s.data && k in t.data && s.data[k] == t.data[k]
    ensures BytesOf(s, ks) == BytesOf(t, ks)
  {
    if ks != [] { BytesOfSame(s, t, ks[1..]); }
  }

  lemma {:induction false} BytesOfPrefix(s: Store, ks: seq<Id>, i: nat, j: nat)
    requires forall k :: k in ks ==> k in s.data
    requires i <= j <= |ks|
    ensures BytesOf(s, ks[..i]) <= BytesOf(s, ks[..j])
  {
    if i > 0 {
      assert ks[..i][1..] == ks[1..][..i - 1] && ks[..j][1..] == ks[1..][..j - 1];
      BytesOfPrefix(s, ks[1..], i - 1, j - 1);
    }
  }

  predicate DistinctStored(s: Store, order: seq<Id>) {
    && (forall i, j :: 0 <= i < j < |order| ==> order[i] != order[j])
    && (forall k :: k in order ==> k in s.data)
  }

  /** The pass stops after `m` keys: all earlier totals were too big, and this one fits or nothing is left. */
  predicate StopsAt(s: Store, order: seq<Id>, cap: int, m: nat)
    requires DistinctStored(s, order) && m <= |order|
  {
    && (forall i :: 0 <= i < m ==> s.total - BytesOf(s, order[..i]) > cap)
    && (m < |order| ==> s.total - BytesOf(s, order[..m]) <= cap)
  }

  /** Taking the first key out moves every running total by its length. */
  lemma BytesOfStep(s: Store, order: seq<Id>, i: nat)
    requires DistinctStored(s, order) && 0 < i <= |order|
    ensures DistinctStored(Delete(s, order[0]), order[1..])
    ensures BytesOf(s, order[..i]) == |s.data[order[0]]| + BytesOf(Delete(s, order[0]), order[1..][..i - 1])
  {
    var d := Delete(s, order[0]);
    assert forall j :: 0 <= j < |order[1..]| ==> order[1..][j] == order[j + 1];
    assert order[..i][1..] == order[1..][..i - 1];
    BytesOfSame(s, d, order[1..][..i - 1]);
  }

  lemma StopsAtStep(s: Store, order: seq<Id>, cap: int, n: nat)
    requires DistinctStored(s, order) && n < |order| && s.total > cap
    requires DistinctStored(Delete(s, order[0]), order[1..])
    requires StopsAt(Delete(s, order[0]), order[1..], cap, n)
    ensures StopsAt(s, order, cap, n + 1)
  {
    forall i | 0 <= i < n + 1
      ensures s.total - BytesOf(s, order[..i]) > cap
    {
      if i > 0 { BytesOfStep(s, order, i); }
    }
    if n + 1 < |order| { BytesOfStep(s, order, n + 1); }
  }

  function KeySet(ks: seq<Id>): set<Id> {
    set k | k in ks
  }

  lemma KeySetStep(order: seq<Id>, n: nat)
    requires n < |order|
    ensures KeySet(order[..n + 1]) == {order[0]} + KeySet(order[1..][..n])
  {
    assert order[..n + 1] == [order[0]] + order[1..][..n];
  }

  /** The pass deletes a prefix of its order and stops as soon as the total fits. */
  lemma {:induction false} EvictPassIsPrefix(s: Store, order: seq<Id>, cap: int) returns (m: nat)
    requires DistinctStored(s, order)
    ensures m <= |order| && StopsAt(s, order, cap, m)
    ensures EvictPass(s, order, cap).data == s.data - KeySet(order[..m])
    ensures EvictPass(s, order, cap).total == s.total - BytesOf(s, order[..m])
    decreases |order|
  {
    m := 0;
    if order != [] && s.total > cap {
      BytesOfStep(s, order, 1);
      var n := EvictPassIsPrefix(Delete(s, order[0]), order[1..], cap);
      m := n + 1;
      StopsAtStep(s, order, cap, n);
      BytesOfStep(s, order, m);
      KeySetStep(order, n);
    }
  }

  /** What an eviction takes is never more recently accessed than what it keeps. */
  lemma EvictionIsLeastRecent(s: Store, order: seq<Id>, cap: int, gone: Id, kept: Id)
    requires LruOrder(s, order)
    requires gone in s.data && gone !in EvictPass(s, order, cap).data
    requires kept in EvictPass(s, order, cap).data
    ensures kept in s.data && s.access[gone] <= s.access[kept]
  {
    var m := EvictPassIsPrefix(s, order, cap);
    var i :| 0 <= i < m && order[i] == gone;
    var j :| 0 <= j < |order| && order[j] == kept;
    assert forall x :: 0 <= x < m ==> order[x] in order[..m];
  }

  /** The failing overwrites, in terms a caller can check: the running total is still too big at `k`'s turn. */
  lemma EvictsOwnKeyIff(s: Store, k: Id, size: nat, order: seq<Id>, i: nat)
    requires LruOrder(Refund(s, k), order) && i < |order| && order[i] == k
    ensures EvictsOwnKey(s, k, size, order) <==>
            s.maxBytes > 0 && s.total - |s.data[k]| - BytesOf(s, order[..i]) > Room(s, size)
  {
    var r := Refund(s, k);
    BytesOfSame(s, r, order[..i]);
    if s.maxBytes > 0 {
      var m := EvictPassIsPrefix(r, order, Room(r, size));
      assert i < m <==> k in KeySet(order[..m]);
      if m <= i { BytesOfPrefix(r, order, m, i); }
    }
  }

  /** There is always an order for a pass to follow. */
  lemma {:induction false} LruOrderExists(s: Store, left: set<Id>) returns (order: seq<Id>)
    requires left <= s.data.Keys <= s.access.Keys
    ensures forall k :: k in order <==> k in left
    ensures forall i, j :: 0 <= i < j < |order| ==> order[i] != order[j]
    ensures forall i, j :: 0 <= i < j < |order| ==> s.access[order[i]] <= s.access[order[j]]
    decreases left
  {
    if left == {} {
      order := [];
    } else {
      var k := Oldest(s, left);
      var rest := LruOrderExists(s, left - {k});
      order := [k] + rest;
    }
  }

  lemma {:induction false} Oldest(s: Store, left: set<Id>) returns (k: Id)
    requires left != {} && left <= s.access.Keys
    ensures k in left && forall j :: j in left ==> s.access[k] <= s.access[j]
    decreases left
  {
    k :| k in left;
    if left != {k} {
      var j := Oldest(s, left - {k});
      if s.access[j] < s.access[k] { k := j; }
    }
  }

  // ----- what a put does, without its own helpers -----

  /**
   * An accepted put leaves its value at its key, accessed now and owned by its peer;
   * whatever else is stored afterwards was stored before, and is as it was.
   */
  lemma PutEffect(s: Store, k: Id, v: Bytes, peer: string, now: int, order: seq<Id>, j: Id)
    requires Admits(s, k, |v|, peer)
    ensures var t := Put(s, k, v, peer, now, order);
            && k in t.data && t.data[k] == v && k in t.access && t.access[k] == now && Owner(t, k) == peer
            && (j != k && j in t.data ==> SameEntry(s, t, j))
  {
    var r := Refund(s, k);
    if s.maxBytes > 0 { EvictPassKeepsEntry(r, order, Room(r, |v|), j); }
  }

  /**
   * Which keys a put takes out: without a budget none, and with one the first `m` of
   * its order, where `m` is as small as the budget allows.
   */
  lemma PutEvictsFirst(s: Store, k: Id, v: Bytes, peer: string, now: int, order: seq<Id>) returns (m: nat)
    requires LruOrder(Refund(s, k), order) && Admits(s, k, |v|, peer)
    ensures m <= |order| && (s.maxBytes <= 0 ==> m == 0)
    ensures forall j :: j in s.data && j != k ==> (j in Put(s, k, v, peer, now, order).data <==> j !in order[..m])
    ensures var before := s.total - if k in s.data then |s.data[k]| else 0;
            var room := if s.maxBytes > |v| then s.maxBytes - |v| else 0;
            && (forall i :: 0 <= i < m ==> before - BytesOf(s, order[..i]) > room)
            && (s.maxBytes > 0 && m < |order| ==> before - BytesOf(s, order[..m]) <= room)
  {
    var r := Refund(s, k);
    m := 0;
    if s.maxBytes > 0 {
      m := EvictPassIsPrefix(r, order, Room(r, |v|));
      forall i | 0 <= i <= m ensures BytesOf(s, order[..i]) == BytesOf(r, order[..i]) { BytesOfSame(s, r, order[..i]); }
    }
  }

  /** From exact counters a peer is admitted exactly if what it would then own is within its quota. */
  lemma AdmitsIff(s: Store, k: Id, size: nat, peer: string)
    requires Exact(s)
    ensures Admits(s, k, size, peer) <==>
            peer == "" || s.perPeerMax <= 0 || Total(Owned(s, peer) - {k}) + size <= s.perPeerMax
  {
    if k in Owned(s, peer) {
      TotalRemove(Owned(s, peer), k);
    } else {
      assert Owned(s, peer) - {k} == Owned(s, peer);
    }
  }
}
