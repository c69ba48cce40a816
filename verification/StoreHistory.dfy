/**
 * What the history of a store's operations says about its contents: every entry is
 * that of the last accepted put of its key, its access time is that of its last use,
 * and evictions follow those uses.
 */
module StoreHistory {
  import opened NodeId
  import opened Storage
  import opened StoreRuns

  /** Operation `i` is a put of `k` that was accepted. */
  predicate Stores(s: Store, ops: seq<Op>, i: nat, k: Id) {
    && i < |ops| && ops[i].PutOp? && ops[i].key == k
    && Admits(Final(s, ops[..i]), k, |ops[i].value|, ops[i].peer)
  }

  /** Operation `i` uses `k`: an accepted put, or a Get. */
  predicate Uses(s: Store, ops: seq<Op>, i: nat, k: Id) {
    Stores(s, ops, i, k) || (i < |ops| && ops[i].GetOp? && ops[i].key == k)
  }

  ghost predicate LastStore(s: Store, ops: seq<Op>, i: nat, k: Id) {
    Stores(s, ops, i, k) && forall j :: i < j < |ops| ==> !Stores(s, ops, j, k)
  }

  ghost predicate LastUse(s: Store, ops: seq<Op>, i: nat, k: Id) {
    Uses(s, ops, i, k) && forall j :: i < j < |ops| ==> !Uses(s, ops, j, k)
  }

  lemma {:induction false} FinalSnoc(s: Store, ops: seq<Op>, op: Op)
    ensures Final(s, ops + [op]) == Apply(Final(s, ops), op)
    decreases |ops|
  {
    if ops == [] {
      assert ([] + [op])[1..] == [];
    } else {
      assert (ops + [op])[1..] == ops[1..] + [op];
      FinalSnoc(Apply(s, ops[0]), ops[1..], op);
    }
  }

  /** What one operation does to the entry at `k`. */
  lemma EntryAfter(s: Store, op: Op, k: Id)
    requires k in Apply(s, op).data
    ensures var t := Apply(s, op);
            if op.PutOp? && op.key == k && Admits(s, k, |op.value|, op.peer)
            then t.data[k] == op.value && Owner(t, k) == op.peer && k in t.access && t.access[k] == op.now
            else if op.GetOp? && op.key == k
            then k in s.data && t.data[k] == s.data[k] && Owner(t, k) == Owner(s, k) && k in t.access && t.access[k] == op.now
            else SameEntry(s, t, k)
  {
    if op.PutOp? && Admits(s, op.key, |op.value|, op.peer) {
      PutEffect(s, op.key, op.value, op.peer, op.now, op.order, k);
    }
  }

  /** Which keys are stored afterwards; a put that is accepted takes out those of PutEvictsFirst. */
  lemma StoredAfter(s: Store, op: Op, k: Id)
    ensures op.GetOp? ==> (k in Apply(s, op).data <==> k in s.data)
    ensures op.DeleteOp? ==> (k in Apply(s, op).data <==> k in s.data && k != op.key)
    ensures op.PutOp? && !Admits(s, op.key, |op.value|, op.peer) ==> Apply(s, op) == s
  {
  }

  /** Earlier operations are the same in a longer history. */
  lemma EarlierSame(s: Store, ops: seq<Op>, op: Op, i: nat, k: Id)
    requires i < |ops|
    ensures Stores(s, ops + [op], i, k) <==> Stores(s, ops, i, k)
    ensures Uses(s, ops + [op], i, k) <==> Uses(s, ops, i, k)
  {
    assert (ops + [op])[..i] == ops[..i];
  }

  lemma LatestSame(s: Store, ops: seq<Op>, op: Op, k: Id)
    ensures Stores(s, ops + [op], |ops|, k) <==>
            op.PutOp? && op.key == k && Admits(Final(s, ops), k, |op.value|, op.peer)
  {
    assert (ops + [op])[..|ops|] == ops;
  }

  lemma StillLastStore(s: Store, ops: seq<Op>, op: Op, i: nat, k: Id)
    requires LastStore(s, ops, i, k) && !Stores(s, ops + [op], |ops|, k)
    ensures LastStore(s, ops + [op], i, k)
  {
    forall j | i <= j < |ops| { EarlierSame(s, ops, op, j, k); }
  }

  lemma StillLastUse(s: Store, ops: seq<Op>, op: Op, i: nat, k: Id)
    requires LastUse(s, ops, i, k) && !Uses(s, ops + [op], |ops|, k)
    ensures LastUse(s, ops + [op], i, k)
  {
    forall j | i <= j < |ops| { EarlierSame(s, ops, op, j, k); }
  }

  /** The entry at `k` is what operations `i` and `j` left: the one stored it, the other used it last. */
  ghost predicate Left(s: Store, k: Id, put: Op, use: Op)
    requires put.PutOp? && !use.DeleteOp?
  {
    && k in s.data && s.data[k] == put.value && Owner(s, k) == put.peer
    && k in s.access && s.access[k] == use.now
  }

  /**
   * In every reachable state every stored key has the value and the owner of its last
   * accepted put, and the access time of its last use.
   */
  lemma {:induction false} EntryFromHistory(s: Store, ops: seq<Op>, k: Id) returns (i: nat, j: nat)
    requires s.data == map[] && k in Final(s, ops).data
    ensures LastStore(s, ops, i, k) && LastUse(s, ops, j, k) && i <= j
    ensures Left(Final(s, ops), k, ops[i], ops[j])
    decreases |ops|
  {
    assert ops != [];
    var n := |ops| - 1;
    var before, op := ops[..n], ops[n];
    assert ops == before + [op];
    var m := Final(s, before);
    FinalSnoc(s, before, op);
    EntryAfter(m, op, k);
    LatestSame(s, before, op, k);
    if op.PutOp? && op.key == k && Admits(m, k, |op.value|, op.peer) {
      i, j := n, n;
    } else {
      i, j := EntryFromHistory(s, before, k);
      StillLastStore(s, before, op, i, k);
      if op.GetOp? && op.key == k { j := n; } else { StillLastUse(s, before, op, j, k); }
    }
  }

  lemma LastUseUnique(s: Store, ops: seq<Op>, i: nat, j: nat, k: Id)
    requires LastUse(s, ops, i, k) && LastUse(s, ops, j, k)
    ensures i == j
  {
  }

  /** Clock readings do not decrease. */
  predicate InTime(ops: seq<Op>) {
    forall i, j :: 0 <= i < j < |ops| && !ops[i].DeleteOp? && !ops[j].DeleteOp? ==> ops[i].now <= ops[j].now
  }

  lemma PutEvictsOlder(s: Store, op: Op, gone: Id, kept: Id)
    requires op.PutOp? && Possible(s, op) && gone in s.data && gone !in Apply(s, op).data
    requires kept in Apply(s, op).data && kept != op.key
    ensures kept in s.access && gone in s.access && s.access[gone] <= s.access[kept]
  {
    var r := Refund(s, op.key);
    if Admits(s, op.key, |op.value|, op.peer) && s.maxBytes > 0 {
      EvictionIsLeastRecent(r, op.order, Room(r, |op.value|), gone, kept);
    }
  }

  /**
   * Eviction follows the history: of a key that a put takes out and one that it keeps,
   * the first was not used later than the second, unless their last uses were at the
   * same time.
   */
  lemma EvictionFollowsUse(s: Store, ops: seq<Op>, op: Op, gone: Id, kept: Id, i: nat, j: nat)
    requires s.data == map[] && op.PutOp? && Possible(Final(s, ops), op) && InTime(ops)
    requires gone in Final(s, ops).data && gone !in Final(s, ops + [op]).data
    requires kept in Final(s, ops + [op]).data && kept != op.key
    requires LastUse(s, ops, i, gone) && LastUse(s, ops, j, kept)
    ensures i < j || ops[i].now == ops[j].now
  {
    var m := Final(s, ops);
    FinalSnoc(s, ops, op);
    EntryAfter(m, op, kept);
    PutEvictsOlder(m, op, gone, kept);
    var a, b := EntryFromHistory(s, ops, gone);
    var c, d := EntryFromHistory(s, ops, kept);
    LastUseUnique(s, ops, i, b, gone);
    LastUseUnique(s, ops, j, d, kept);
  }
}
