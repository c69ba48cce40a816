/**
 * What a node answers and keeps (core/dht/dht.go: StoreLocal, handleStore,
 * handleFindValue, getInner, GetAllUnverified), one request at a time, and that a
 * blocked key stays gone. What the network returned to a Get is an input.
 */
module Gates {
  import opened NodeId
  import opened Options
  import opened Storage
  import opened Revoke

  const MAX_VALUE_SIZE: nat := 64 * 1024

  datatype Op =
    | StoreLocal(key: Id, value: Bytes, now: int, order: seq<Id>)
    | HandleStore(key: Id, value: Bytes, from: string, now: int, order: seq<Id>)
    | FindValue(key: Id, now: int)
    | Get(key: Id, verify: bool, fetched: Option<Bytes>, now: int, order: seq<Id>)
    | GetAll(key: Id, collected: seq<Bytes>, now: int)
    | Receive(call: Call)

  datatype Reply = Silence | Ack | Refused | Value(bytes: Bytes) | Values(all: seq<Bytes>) | ClosestPeers | NotFound

  /** A Get: gate, local copy, then what the walk fetched, which is kept if it was verified. */
  function GetStep(hash: Bytes -> Id, blocked: set<Id>, s: Store, k: Id, verify: bool, fetched: Option<Bytes>, now: int, order: seq<Id>)
    : (Store, Reply)
  {
    if k in blocked then (s, NotFound)
    else
      var touched := Touch(s, k, now);
      if k in s.data && (!verify || hash(s.data[k]) == k) then (touched, Value(s.data[k]))
      else if fetched.None? || (verify && hash(fetched.value) != k) then (touched, NotFound)
      else if verify then (Put(touched, k, fetched.value, "", now, order), Value(fetched.value))
      else (touched, Value(fetched.value))
  }

  /** The node after the request, and what the requester sees. */
  function Perform(c: Crypto, hash: Bytes -> Id, n: Node, op: Op): (Node, Reply) {
    match op
    case StoreLocal(k, v, now, order) =>
      if |v| > MAX_VALUE_SIZE then (n, Refused)
      else if k in n.blocked then (n, Ack)
      else (n.(store := Put(n.store, k, v, "", now, order)), Ack)
    case HandleStore(k, v, from, now, order) =>
      if |v| > MAX_VALUE_SIZE then (n, Silence)
      else if k in n.blocked then (n, Ack)
      else if !Admits(n.store, k, |v|, from) then (n, Silence)
      else (n.(store := Put(n.store, k, v, from, now, order)), Ack)
    case FindValue(k, now) =>
      if k in n.blocked then (n, ClosestPeers)
      else if k in n.store.data then (n.(store := Touch(n.store, k, now)), Value(n.store.data[k]))
      else (n, ClosestPeers)
    case Get(k, verify, fetched, now, order) =>
      var (store, reply) := GetStep(hash, n.blocked, n.store, k, verify, fetched, now, order);
      (n.(store := store), reply)
    case GetAll(k, collected, now) =>
      var all := (if k in n.store.data then [n.store.data[k]] else []) + collected;
      (n.(store := Touch(n.store, k, now)), if all == [] then NotFound else Values(all))
    case Receive(call) => (Handle(c, n, call), Silence)
  }

  /** The key is blocked and not stored. */
  predicate Gone(n: Node, k: Id) {
    k in n.blocked && k !in n.store.data
  }

  predicate About(op: Op, k: Id) {
    !op.Receive? && op.key == k
  }

  /** The reply hands out a stored or fetched value. */
  predicate Serves(r: Reply) {
    r.Value? || r.Values?
  }

  lemma PutElsewhere(s: Store, k: Id, v: Bytes, peer: string, now: int, order: seq<Id>, x: Id)
    requires x != k && x !in s.data
    ensures x !in Put(s, k, v, peer, now, order).data
  {
    var r := Refund(s, k);
    if s.maxBytes > 0 { EvictPassKeepsEntry(r, order, Room(r, |v|), x); }
  }

  lemma HandleKeepsGone(c: Crypto, n: Node, call: Call, k: Id)
    requires Gone(n, k)
    ensures Gone(Handle(c, n, call), k)
  {
    if Applies(c, n, call) {
      var m := n.(seen := Prune(n.seen[RevokeId(c, call.p) := call.insert], call.cut));
      ApplyRevokeBlocks(m, call.p.chunks, k);
    }
  }

  /** No request, about whatever key, brings a gone key back. */
  lemma PerformKeepsGone(c: Crypto, hash: Bytes -> Id, n: Node, op: Op, k: Id)
    requires Gone(n, k)
    ensures Gone(Perform(c, hash, n, op).0, k)
  {
    match op
    case StoreLocal(x, v, now, order) => if x != k { PutElsewhere(n.store, x, v, "", now, order, k); }
    case HandleStore(x, v, from, now, order) => if x != k { PutElsewhere(n.store, x, v, from, now, order, k); }
    case Get(x, verify, fetched, now, order) =>
      if x != k && fetched.Some? { PutElsewhere(Touch(n.store, x, now), x, fetched.value, "", now, order, k); }
    case Receive(call) => HandleKeepsGone(c, n, call, k);
    case FindValue(_, _) =>
    case GetAll(_, _, _) =>
  }

  /** A blocked key is handed out by nothing but GetAllUnverified, which has no gate. */
  lemma BlockedIsNotServed(c: Crypto, hash: Bytes -> Id, n: Node, op: Op, k: Id)
    requires k in n.blocked && About(op, k)
    ensures Serves(Perform(c, hash, n, op).1) <==> op.GetAll? && (op.collected != [] || k in n.store.data)
  {
  }

  /** A verified Get returns, and caches, only a value whose hash is the key, whatever peers replied. */
  lemma VerifiedGetIsAuthentic(c: Crypto, hash: Bytes -> Id, n: Node, op: Op)
    requires op.Get? && op.verify
    ensures var (r, reply) := Perform(c, hash, n, op);
            && (reply.Value? ==> hash(reply.bytes) == op.key)
            && (forall x: Id :: x in r.store.data ==>
                  (x in n.store.data && r.store.data[x] == n.store.data[x]) || (x == op.key && hash(r.store.data[x]) == x))
  {
    if op.key !in n.blocked && op.fetched.Some? {
      var touched := Touch(n.store, op.key, op.now);
      var refunded := Refund(touched, op.key);
      forall x: Id { EvictPassKeepsEntry(refunded, op.order, Room(refunded, |op.fetched.value|), x); }
    }
  }

  // ----- what each request does, key by key -----

  /** find_value replies with what is stored at a key that is not blocked, and refreshes it; otherwise with the closest peers. */
  lemma FindValueServes(c: Crypto, hash: Bytes -> Id, n: Node, k: Id, now: int)
    ensures var (r, reply) := Perform(c, hash, n, FindValue(k, now));
            && (forall v :: reply == Value(v) <==> k !in n.blocked && k in n.store.data && n.store.data[k] == v)
            && (reply.Value? ==> r == n.(store := n.store.(access := n.store.access[k := now])))
            && (!reply.Value? ==> reply == ClosestPeers && r == n)
  {
  }

  /** The store keeps everything but the entry at `k`, apart from what was evicted. */
  ghost predicate OthersKept(s: Store, t: Store, k: Id) {
    forall j: Id :: j != k && j in t.data ==> SameEntry(s, t, j)
  }

  /** Whose bytes a store request counts as: nobody's for the node's own. */
  function Sender(op: Op): string
    requires op.StoreLocal? || op.HandleStore?
  {
    if op.StoreLocal? then "" else op.from
  }

  /**
   * Store requests. A value over the limit is refused, by silence to a peer. A blocked
   * key is acknowledged and not stored. A peer over its quota gets silence. Nothing
   * changes then. Every other value is acknowledged and stored under its sender.
   */
  lemma StoreReplies(c: Crypto, hash: Bytes -> Id, n: Node, op: Op)
    requires op.StoreLocal? || op.HandleStore?
    ensures var (r, reply) := Perform(c, hash, n, op);
            var k, v := op.key, op.value;
            if |v| > 65536 then reply == (if op.StoreLocal? then Refused else Silence) && r == n
            else if k in n.blocked then reply == Ack && r == n
            else if !Admits(n.store, k, |v|, Sender(op)) then reply == Silence && r == n
            else && reply == Ack && r == n.(store := r.store) && OthersKept(n.store, r.store, k)
                 && k in r.store.data && r.store.data[k] == v && Owner(r.store, k) == Sender(op)
                 && k in r.store.access && r.store.access[k] == op.now
  {
    if |op.value| <= 65536 && op.key !in n.blocked && Admits(n.store, op.key, |op.value|, Sender(op)) {
      forall j { PutEffect(n.store, op.key, op.value, Sender(op), op.now, op.order, j); }
    }
  }

  /** The request is taken: within the limit, not blocked and within the sender's quota. */
  predicate Takes(n: Node, op: Op)
    requires op.StoreLocal? || op.HandleStore?
  {
    |op.value| <= MAX_VALUE_SIZE && op.key !in n.blocked && Admits(n.store, op.key, |op.value|, Sender(op))
  }

  /** Store, then find: what was taken is what the next find_value and Get of its key return. */
  lemma StoreThenFind(c: Crypto, hash: Bytes -> Id, n: Node, op: Op, now: int, verify: bool, fetched: Option<Bytes>, order: seq<Id>)
    requires (op.StoreLocal? || op.HandleStore?) && Takes(n, op)
    ensures var r := Perform(c, hash, n, op).0;
            && Perform(c, hash, r, FindValue(op.key, now)).1 == Value(op.value)
            && (!verify || hash(op.value) == op.key ==>
                  Perform(c, hash, r, Get(op.key, verify, fetched, now, order)).1 == Value(op.value))
  {
    StoreReplies(c, hash, n, op);
  }

  /**
   * Get. A blocked key is not found. A stored copy that may be returned is, and is
   * refreshed. Otherwise the answer is what the walk fetched, if it may be returned;
   * it is stored, under nobody, exactly if it was verified.
   */
  lemma GetReplies(c: Crypto, hash: Bytes -> Id, n: Node, op: Op)
    requires op.Get?
    ensures var (r, reply) := Perform(c, hash, n, op);
            var k, s := op.key, n.store;
            && r == n.(store := r.store)
            && if k in n.blocked then reply == NotFound && r == n
               else if k in s.data && (op.verify ==> hash(s.data[k]) == k)
               then reply == Value(s.data[k]) && r.store == s.(access := s.access[k := op.now])
               else if op.fetched.Some? && (op.verify ==> hash(op.fetched.value) == k)
               then && reply == Value(op.fetched.value) && OthersKept(s, r.store, k)
                    && if op.verify
                       then k in r.store.data && r.store.data[k] == op.fetched.value && Owner(r.store, k) == ""
                       else r.store.data == s.data
               else reply == NotFound && r.store.data == s.data
  {
    var touched := Touch(n.store, op.key, op.now);
    if op.fetched.Some? {
      forall j { PutEffect(touched, op.key, op.fetched.value, "", op.now, op.order, j); }
    }
  }

  /** GetAllUnverified hands out the local copy first, then what was collected. */
  lemma GetAllReplies(c: Crypto, hash: Bytes -> Id, n: Node, op: Op)
    requires op.GetAll?
    ensures var (r, reply) := Perform(c, hash, n, op);
            && r.store.data == n.store.data && r == n.(store := r.store)
            && (reply == NotFound <==> op.key !in n.store.data && op.collected == [])
            && (reply != NotFound ==>
                  reply == Values(if op.key in n.store.data then [n.store.data[op.key]] + op.collected else op.collected))
  {
  }

  // ----- runs after a revoke -----

  function After(c: Crypto, hash: Bytes -> Id, n: Node, ops: seq<Op>): Node
    decreases |ops|
  {
    if ops == [] then n else After(c, hash, Perform(c, hash, n, ops[0]).0, ops[1..])
  }

  lemma {:induction false} RunKeepsGone(c: Crypto, hash: Bytes -> Id, n: Node, ops: seq<Op>, k: Id)
    requires Gone(n, k)
    ensures Gone(After(c, hash, n, ops), k)
    decreases |ops|
  {
    if ops != [] {
      PerformKeepsGone(c, hash, n, ops[0], k);
      RunKeepsGone(c, hash, Perform(c, hash, n, ops[0]).0, ops[1..], k);
    }
  }

  /**
   * After a revoke of a list of chunks, whatever requests follow: no named key is
   * stored, and no store, find_value or Get request about one hands out a value.
   */
  lemma RevokedStaysGone(c: Crypto, hash: Bytes -> Id, n: Node, chunks: seq<string>, ops: seq<Op>, op: Op, k: Id)
    requires Names(chunks, k) && About(op, k) && !op.GetAll?
    ensures var r := After(c, hash, ApplyRevoke(n, chunks), ops);
            Gone(r, k) && !Serves(Perform(c, hash, r, op).1)
  {
    ApplyRevokeBlocks(n, chunks, k);
    RunKeepsGone(c, hash, ApplyRevoke(n, chunks), ops, k);
    BlockedIsNotServed(c, hash, After(c, hash, ApplyRevoke(n, chunks), ops), op, k);
  }

  // ----- where a served value came from -----

  /** The request leaves `v` at `k`: a store request that is taken, or a verified Get that had to fetch. */
  predicate Keeps(hash: Bytes -> Id, n: Node, op: Op, k: Id, v: Bytes) {
    match op
    case StoreLocal(x, value, _, _) => x == k && value == v && Takes(n, op)
    case HandleStore(x, value, _, _, _) => x == k && value == v && Takes(n, op)
    case Get(x, verify, fetched, _, _) =>
      && x == k && verify && fetched == Some(v) && hash(v) == k && k !in n.blocked
      && !(k in n.store.data && hash(n.store.data[k]) == k)
    case _ => false
  }

  lemma HandleKeepsData(c: Crypto, n: Node, call: Call, k: Id)
    requires k in Handle(c, n, call).store.data
    ensures k in n.store.data && Handle(c, n, call).store.data[k] == n.store.data[k]
  {
    if Applies(c, n, call) {
      var m := n.(seen := Prune(n.seen[RevokeId(c, call.p) := call.insert], call.cut));
      ApplyRevokeBlocks(m, call.p.chunks, k);
    }
  }

  /** What is stored after a request was left by it, or was there before and it left nothing. */
  lemma DataAfter(c: Crypto, hash: Bytes -> Id, n: Node, op: Op, k: Id)
    requires k in Perform(c, hash, n, op).0.store.data
    ensures var v := Perform(c, hash, n, op).0.store.data[k];
            Keeps(hash, n, op, k, v) || (k in n.store.data && n.store.data[k] == v && forall w :: !Keeps(hash, n, op, k, w))
  {
    match op
    case StoreLocal(_, _, _, _) => StoreReplies(c, hash, n, op);
    case HandleStore(_, _, _, _, _) => StoreReplies(c, hash, n, op);
    case Get(_, _, _, _, _) => GetReplies(c, hash, n, op);
    case Receive(call) => HandleKeepsData(c, n, call, k);
    case FindValue(_, _) =>
    case GetAll(_, _, _) =>
  }

  lemma {:induction false} AfterSnoc(c: Crypto, hash: Bytes -> Id, n: Node, ops: seq<Op>, op: Op)
    ensures After(c, hash, n, ops + [op]) == Perform(c, hash, After(c, hash, n, ops), op).0
    decreases |ops|
  {
    if ops == [] {
      assert ([] + [op])[1..] == [];
    } else {
      assert (ops + [op])[1..] == ops[1..] + [op];
      AfterSnoc(c, hash, Perform(c, hash, n, ops[0]).0, ops[1..], op);
    }
  }

  /** Request `i` leaves `v` at `k`. */
  predicate KeepsAt(c: Crypto, hash: Bytes -> Id, n: Node, ops: seq<Op>, i: nat, k: Id, v: Bytes) {
    i < |ops| && Keeps(hash, After(c, hash, n, ops[..i]), ops[i], k, v)
  }

  /** And no later request leaves anything there. */
  ghost predicate LastKept(c: Crypto, hash: Bytes -> Id, n: Node, ops: seq<Op>, i: nat, k: Id, v: Bytes) {
    KeepsAt(c, hash, n, ops, i, k, v) && forall j, w :: i < j < |ops| ==> !KeepsAt(c, hash, n, ops, j, k, w)
  }

  lemma StillLastKept(c: Crypto, hash: Bytes -> Id, n: Node, ops: seq<Op>, op: Op, i: nat, k: Id, v: Bytes)
    requires LastKept(c, hash, n, ops, i, k, v) && forall w :: !Keeps(hash, After(c, hash, n, ops), op, k, w)
    ensures LastKept(c, hash, n, ops + [op], i, k, v)
  {
    assert (ops + [op])[..i] == ops[..i];
    forall j, w | i < j < |ops + [op]| ensures !KeepsAt(c, hash, n, ops + [op], j, k, w) {
      assert (ops + [op])[..j] == ops[..j];
      assert j < |ops| ==> !KeepsAt(c, hash, n, ops, j, k, w);
    }
  }

  lemma {:induction false} HeldFromHistory(c: Crypto, hash: Bytes -> Id, n: Node, ops: seq<Op>, k: Id) returns (i: nat)
    requires n.store.data == map[] && k in After(c, hash, n, ops).store.data
    ensures LastKept(c, hash, n, ops, i, k, After(c, hash, n, ops).store.data[k])
    decreases |ops|
  {
    assert ops != [];
    i := |ops| - 1;
    var before, op := ops[..i], ops[i];
    assert ops == before + [op];
    var m := After(c, hash, n, before);
    AfterSnoc(c, hash, n, before, op);
    DataAfter(c, hash, m, op, k);
    var v := After(c, hash, n, ops).store.data[k];
    if !Keeps(hash, m, op, k, v) {
      i := HeldFromHistory(c, hash, n, before, k);
      StillLastKept(c, hash, n, before, op, i, k, v);
    }
  }

  /**
   * Whatever requests and revokes came before: the value a find_value hands out is the
   * one that the last store request taken, or the last verified Get that had to fetch,
   * left at that key, and the key is not blocked.
   */
  lemma ServedFromHistory(c: Crypto, hash: Bytes -> Id, n: Node, ops: seq<Op>, k: Id, now: int, v: Bytes) returns (i: nat)
    requires n.store.data == map[] && Perform(c, hash, After(c, hash, n, ops), FindValue(k, now)).1 == Value(v)
    ensures LastKept(c, hash, n, ops, i, k, v) && k !in After(c, hash, n, ops).blocked
  {
    FindValueServes(c, hash, After(c, hash, n, ops), k, now);
    i := HeldFromHistory(c, hash, n, ops, k);
  }
}
