/**
 * The revocation flood over a network (core/dht/revoke.go with Broadcast of
 * core/peer/peer.go). Every node runs the handler of module Revoke. A message on the
 * wire is a payload with its destination; a node that takes a payload as new sends
 * that very payload on. Anywhere in between any node may handle any other payload
 * that comes from outside the flood: other revokes, and payloads that share this
 * one's signed bytes and so its identifier, from whatever signer.
 *
 * `links[n]` lists the destinations of one Broadcast of node n, one entry for
 * each address alias, as the source sends once per alias.
 */
module Flood {
  import opened NodeId
  import opened MapSum
  import opened Text
  import opened Revoke
  import opened Storage
  import SignedBytes

  type Peer = nat

  type Wire = multiset<(Peer, Payload)>

  datatype World = World(crypto: Crypto, p: Payload, links: map<Peer, seq<Peer>>, origin: Peer)

  /** `taken[n]` is the payload under this identifier that node n took as new, and sent on. */
  datatype Net = Net(nodes: map<Peer, Node>, wire: Wire, taken: map<Peer, Payload>, sent: nat, delivered: nat)

  datatype Event =
    | Deliver(to: Peer, call: Call)
    | Other(at: Peer, call: Call)

  function Where(e: Event): Peer {
    match e case Deliver(to, _) => to case Other(at, _) => at
  }

  function Rid(w: World): string {
    RevokeId(w.crypto, w.p)
  }

  /** A payload under the identifier of this revoke. */
  predicate SameId(w: World, q: Payload) {
    RevokeId(w.crypto, q) == Rid(w)
  }

  predicate Signed(w: World, q: Payload) {
    w.crypto.keyValid(q.pubkey) && w.crypto.verify(q.pubkey, Canonical(q), q.signature)
  }

  /** The signature is good, the origin is a node, and links lead to nodes. */
  predicate WellFormed(w: World, net: Net) {
    && Signed(w, w.p)
    && w.origin in net.nodes && net.nodes.Keys == w.links.Keys
    && (forall n :: n in w.links ==> forall m :: m in w.links[n] ==> m in w.links)
  }

  /** A clock reading inside the window in which the revoke is accepted. */
  predicate InWindow(w: World, t: int) {
    Unix(t) - MAX_AGE <= w.p.timestamp <= Unix(t) + MAX_SKEW
  }

  /** Delivery of what is on the wire, or anything else anywhere; clocks inside the window. */
  predicate Possible(w: World, net: Net, e: Event) {
    && InWindow(w, e.call.check) && InWindow(w, e.call.insert) && InWindow(w, e.call.cut)
    && e.call.insert <= e.call.cut
    && Where(e) in net.nodes && Where(e) in w.links && (e.Deliver? ==> (e.to, e.call.p) in net.wire)
  }

  function Addressed(links: seq<Peer>, q: Payload): seq<(Peer, Payload)> {
    seq(|links|, i requires 0 <= i < |links| => (links[i], q))
  }

  /** BroadcastRevoke at the origin: apply locally and send, without marking the revoke as seen. */
  function Start(w: World, net: Net): Net
    requires WellFormed(w, net)
  {
    Net(net.nodes[w.origin := ApplyRevoke(net.nodes[w.origin], w.p.chunks)],
        multiset(Addressed(w.links[w.origin], w.p)), map[], |w.links[w.origin]|, 0)
  }

  /** The node that takes a payload under this identifier as new, if the event makes one do so. */
  function Joins(w: World, net: Net, e: Event): set<Peer>
    requires Possible(w, net, e)
  {
    if SameId(w, e.call.p) && Applies(w.crypto, net.nodes[Where(e)], e.call) then {Where(e)} else {}
  }

  /** The node handles the message; one that takes it as new sends the same payload on. */
  function Step(w: World, net: Net, e: Event): Net
    requires Possible(w, net, e)
  {
    var at := Where(e);
    var sends := if Joins(w, net, e) != {} then w.links[at] else [];
    Net(net.nodes[at := Handle(w.crypto, net.nodes[at], e.call)],
        (if e.Deliver? then net.wire - multiset{(at, e.call.p)} else net.wire) + multiset(Addressed(sends, e.call.p)),
        if Joins(w, net, e) != {} then net.taken[at := e.call.p] else net.taken,
        net.sent + |sends|,
        net.delivered + if e.Deliver? then 1 else 0)
  }

  // ----- who takes what -----

  /** A node with these trusted keys takes the payload whenever it arrives, if it has not seen the identifier. */
  predicate Welcomes(w: World, trusted: set<string>, q: Payload) {
    SameId(w, q) && Signed(w, q) && Norm(q.pubkey) in trusted && q.timestamp == w.p.timestamp
  }

  /** It may take it, depending on its clock. */
  predicate MayTake(w: World, trusted: set<string>, q: Payload) {
    SameId(w, q) && Signed(w, q) && Norm(q.pubkey) in trusted
  }

  lemma AtSecond(k: int)
    ensures Unix(k * SECOND) == k
  {
  }

  /** To be welcome is to be accepted at every clock reading of the window. */
  lemma WelcomesIff(w: World, trusted: set<string>, q: Payload)
    requires SameId(w, q)
    ensures Welcomes(w, trusted, q) <==> forall t: int :: InWindow(w, t) ==> Accepts(w.crypto, trusted, q, t)
  {
    if forall t: int :: InWindow(w, t) ==> Accepts(w.crypto, trusted, q, t) {
      var early, late := (w.p.timestamp - MAX_SKEW) * SECOND, (w.p.timestamp + MAX_AGE) * SECOND;
      AtSecond(w.p.timestamp - MAX_SKEW);
      AtSecond(w.p.timestamp + MAX_AGE);
      assert InWindow(w, early) && InWindow(w, late);
    }
  }

  /** A copy of the revoke: same identifier, signer and time, validly signed. */
  predicate Copy(w: World, q: Payload) {
    SameId(w, q) && Signed(w, q) && Norm(q.pubkey) == Norm(w.p.pubkey) && q.timestamp == w.p.timestamp
  }

  /** A relayed copy whose chunks were reordered or changed case is a copy that names the same keys. */
  lemma RecasedIsCopy(w: World, net: Net, q: Payload)
    requires WellFormed(w, net) && q == w.p.(chunks := q.chunks)
    requires multiset(Map(Lower, q.chunks)) == multiset(Map(Lower, w.p.chunks))
    ensures Copy(w, q) && SameNames(q.chunks, w.p.chunks)
  {
    SignedBytes.RecasedSameNorms(q.chunks, w.p.chunks);
    SignedBytes.CanonicalIgnoresOrderAndCase(w.crypto, q, w.p);
    SignedBytes.SameChunksSameBlocks(q.chunks, w.p.chunks);
  }

  /** And payloads of single, trimmed lines under one identifier name the same keys, if the hash does not collide on them. */
  lemma TrimmedNameTheSame(w: World, q: Payload)
    requires SameId(w, q) && (w.crypto.hash(Canonical(q)) == w.crypto.hash(Canonical(w.p)) ==> Canonical(q) == Canonical(w.p))
    requires SignedBytes.Plain(q) && SignedBytes.Plain(w.p)
    requires forall i :: 0 <= i < |q.chunks| ==> TrimSpace(q.chunks[i]) == q.chunks[i]
    requires forall i :: 0 <= i < |w.p.chunks| ==> TrimSpace(w.p.chunks[i]) == w.p.chunks[i]
    ensures SameNames(q.chunks, w.p.chunks)
  {
    SignedBytes.TrimmedCopiesAgree(q, w.p);
  }

  // ----- one node -----

  /** Inside the window an entry for the revoke is never old enough to be pruned. */
  lemma NotPruned(w: World, t: int, cut: int)
    requires w.p.timestamp <= Unix(t) + MAX_SKEW && InWindow(w, cut)
    ensures t >= cut - 2 * MAX_AGE * SECOND
  {
    assert Unix(t + 2 * MAX_AGE * SECOND) == Unix(t) + 2 * MAX_AGE;
    if t < cut - 2 * MAX_AGE * SECOND { UnixMonotone(t + 2 * MAX_AGE * SECOND, cut); }
  }

  /** The stamp under which a node remembers the identifier lies inside the window. */
  predicate Fresh(w: World, n: Node) {
    Rid(w) in n.seen ==> w.p.timestamp <= Unix(n.seen[Rid(w)]) + MAX_SKEW
  }

  lemma HandleRemembers(w: World, n: Node, call: Call)
    requires Fresh(w, n) && InWindow(w, call.insert) && InWindow(w, call.cut) && call.insert <= call.cut
    ensures Fresh(w, Handle(w.crypto, n, call))
    ensures Rid(w) in Handle(w.crypto, n, call).seen <==>
            Rid(w) in n.seen || (Applies(w.crypto, n, call) && SameId(w, call.p))
    ensures Handle(w.crypto, n, call).trusted == n.trusted
    ensures Handle(w.crypto, n, call).blocked >= n.blocked
  {
    if Applies(w.crypto, n, call) {
      var seen := n.seen[RevokeId(w.crypto, call.p) := call.insert];
      ApplyRevokeFrame(n.(seen := Prune(seen, call.cut)), call.p.chunks);
      if Rid(w) in seen { NotPruned(w, seen[Rid(w)], call.cut); }
    }
  }

  /** All keys a list of chunks names are blocked. */
  ghost predicate Blocks(n: Node, chunks: seq<string>) {
    forall id: Id :: Names(chunks, id) ==> id in n.blocked
  }

  lemma HandleBlocks(c: Crypto, n: Node, call: Call)
    requires Applies(c, n, call)
    ensures forall id: Id :: id in Handle(c, n, call).blocked <==> id in n.blocked || Names(call.p.chunks, id)
  {
    forall id: Id ensures id in Handle(c, n, call).blocked <==> id in n.blocked || Names(call.p.chunks, id) {
      ApplyRevokeBlocks(n.(seen := Prune(n.seen[RevokeId(c, call.p) := call.insert], call.cut)), call.p.chunks, id);
    }
  }

  /**
   * A node that takes a payload under this identifier as new ends up blocking every
   * chunk of the revoke if and only if each is named by that payload or was blocked
   * before; and the revoke itself then does nothing there any more.
   */
  lemma CopyBlocksIff(w: World, n: Node, call: Call)
    requires Fresh(w, n) && InWindow(w, call.insert) && InWindow(w, call.cut) && call.insert <= call.cut
    requires SameId(w, call.p) && Applies(w.crypto, n, call)
    ensures var m := Handle(w.crypto, n, call);
            && (Blocks(m, w.p.chunks) <==> forall id: Id :: Names(w.p.chunks, id) ==> id in n.blocked || Names(call.p.chunks, id))
            && forall later: Call :: later.p == w.p ==> Handle(w.crypto, m, later) == m
  {
    HandleRemembers(w, n, call);
    HandleBlocks(w.crypto, n, call);
  }

  // ----- the network as sets -----

  /** The nodes that trust the signer of the revoke. */
  ghost function Trusting(w: World, net: Net): set<Peer> {
    set n | n in net.nodes && Norm(w.p.pubkey) in net.nodes[n].trusted
  }

  ghost function SeenBy(w: World, net: Net): set<Peer> {
    set n | n in net.nodes && Rid(w) in net.nodes[n].seen
  }

  /** Nodes that have taken part: those that saw the identifier, and the origin. */
  ghost function Done(w: World, net: Net): set<Peer> {
    SeenBy(w, net) + {w.origin}
  }

  lemma SetsAfterUpdate(w: World, net: Net, r: Net, at: Peer, n: Node)
    requires at in net.nodes && r.nodes == net.nodes[at := n] && n.trusted == net.nodes[at].trusted
    requires Rid(w) in net.nodes[at].seen ==> Rid(w) in n.seen
    ensures Trusting(w, r) == Trusting(w, net)
    ensures SeenBy(w, r) == SeenBy(w, net) + if Rid(w) in n.seen then {at} else {}
  {
    assert r.nodes.Keys == net.nodes.Keys;
    forall x | x in net.nodes
      ensures r.nodes[x].trusted == net.nodes[x].trusted
      ensures Rid(w) in r.nodes[x].seen <==> Rid(w) in net.nodes[x].seen || (x == at && Rid(w) in n.seen)
    {
    }
  }

  ghost predicate AllFresh(w: World, net: Net) {
    forall n :: n in net.nodes ==> Fresh(w, net.nodes[n])
  }

  /** No step changes whom anyone trusts; only a joining node newly sees the identifier. */
  lemma StepSets(w: World, net: Net, e: Event)
    requires WellFormed(w, net) && AllFresh(w, net) && Possible(w, net, e)
    ensures WellFormed(w, Step(w, net, e)) && AllFresh(w, Step(w, net, e))
    ensures Trusting(w, Step(w, net, e)) == Trusting(w, net)
    ensures SeenBy(w, Step(w, net, e)) == SeenBy(w, net) + Joins(w, net, e)
    ensures forall n :: n in net.nodes ==> Step(w, net, e).nodes[n].trusted == net.nodes[n].trusted
    ensures Joins(w, net, e) * SeenBy(w, net) == {}
  {
    var at := Where(e);
    HandleRemembers(w, net.nodes[at], e.call);
    SetsAfterUpdate(w, net, Step(w, net, e), at, Handle(w.crypto, net.nodes[at], e.call));
    assert Rid(w) in net.nodes[at].seen <==> at in SeenBy(w, net);
  }

  /** An arriving payload that is welcome makes a node join that had not seen the identifier, and only one it may take does. */
  lemma ArrivalJoins(w: World, net: Net, e: Event)
    requires Possible(w, net, e)
    ensures Welcomes(w, net.nodes[Where(e)].trusted, e.call.p) && Where(e) !in SeenBy(w, net) ==> Joins(w, net, e) == {Where(e)}
    ensures Joins(w, net, e) != {} ==> MayTake(w, net.nodes[Where(e)].trusted, e.call.p)
  {
    assert Rid(w) in net.nodes[Where(e)].seen ==> Where(e) in SeenBy(w, net);
  }

  // ----- the invariant of the flood -----

  predicate Linked(links: map<Peer, seq<Peer>>, n: Peer, m: Peer) {
    n in links && m in links[n]
  }

  /** Node n has broadcast payload q: it took it, or it is the origin with the revoke. */
  predicate Forwarded(w: World, net: Net, n: Peer, q: Payload) {
    (n in net.taken && net.taken[n] == q) || (n == w.origin && q == w.p)
  }

  /** A payload that m welcomes is on its way to it. */
  ghost predicate Awaits(w: World, net: Net, m: Peer)
    requires m in net.nodes
  {
    exists x :: x in net.wire && x.0 == m && Welcomes(w, net.nodes[m].trusted, x.1)
  }

  /** A neighbour that welcomes what a node has broadcast has taken part, or a payload it welcomes is on its way. */
  ghost predicate Covered(w: World, net: Net) {
    forall n, m, q :: Forwarded(w, net, n, q) && Linked(w.links, n, m) && m in net.nodes ==>
      (Welcomes(w, net.nodes[m].trusted, q) ==> m in net.taken || Awaits(w, net, m))
  }

  /** Whoever has broadcast a payload blocks the keys it names. */
  ghost predicate DoneBlocks(w: World, net: Net) {
    forall n, q :: Forwarded(w, net, n, q) && n in net.nodes ==> Blocks(net.nodes[n], q.chunks)
  }

  ghost function SendsOf(w: World, nodes: set<Peer>): map<Peer, nat> {
    map n | n in nodes && n in w.links :: |w.links[n]|
  }

  /** Sends: one broadcast of the origin, one of every node that saw the identifier; each is delivered or on the wire. */
  ghost predicate Counted(w: World, net: Net)
    requires w.origin in w.links
  {
    && net.sent == |w.links[w.origin]| + Total(SendsOf(w, net.taken.Keys))
    && net.sent == net.delivered + |net.wire|
  }

  ghost predicate Flooding(w: World, net: Net) {
    && WellFormed(w, net) && AllFresh(w, net) && net.taken.Keys == SeenBy(w, net)
    && DoneBlocks(w, net) && Covered(w, net) && Counted(w, net)
  }

  /** Nobody has heard of the revoke yet. */
  ghost predicate Quiet(w: World, net: Net) {
    WellFormed(w, net) && SeenBy(w, net) == {}
  }

  lemma AddressedHas(links: seq<Peer>, q: Payload, m: Peer)
    ensures (m, q) in multiset(Addressed(links, q)) <==> m in links
    ensures forall x :: x in multiset(Addressed(links, q)) ==> x.1 == q && x.0 in links
    ensures |multiset(Addressed(links, q))| == |links|
  {
    var s := Addressed(links, q);
    if m in links {
      var i :| 0 <= i < |links| && links[i] == m;
      assert s[i] == (m, q);
    }
    forall x | x in multiset(s) ensures x.1 == q && x.0 in links {
      var i :| 0 <= i < |s| && s[i] == x;
    }
  }

  lemma StartSets(w: World, net: Net)
    requires Quiet(w, net)
    ensures WellFormed(w, Start(w, net)) && AllFresh(w, Start(w, net))
    ensures Trusting(w, Start(w, net)) == Trusting(w, net) && SeenBy(w, Start(w, net)) == {}
    ensures forall n :: n in net.nodes ==> Start(w, net).nodes[n].trusted == net.nodes[n].trusted
  {
    ApplyRevokeFrame(net.nodes[w.origin], w.p.chunks);
    assert w.origin !in SeenBy(w, net);
    SetsAfterUpdate(w, net, Start(w, net), w.origin, ApplyRevoke(net.nodes[w.origin], w.p.chunks));
    forall n | n in Start(w, net).nodes ensures Fresh(w, Start(w, net).nodes[n]) {
      assert n !in SeenBy(w, Start(w, net));
    }
  }

  lemma StartCovers(w: World, net: Net)
    requires Quiet(w, net)
    ensures Covered(w, Start(w, net))
  {
    var r := Start(w, net);
    forall n, m, q | Forwarded(w, r, n, q) && Linked(w.links, n, m) && m in r.nodes && Welcomes(w, r.nodes[m].trusted, q)
      ensures Awaits(w, r, m)
    {
      AddressedHas(w.links[w.origin], w.p, m);
      assert (m, w.p) in r.wire;
    }
  }

  lemma StartFloods(w: World, net: Net)
    requires Quiet(w, net)
    ensures Flooding(w, Start(w, net))
  {
    StartSets(w, net);
    StartCovers(w, net);
    forall id: Id | Names(w.p.chunks, id) ensures id in Start(w, net).nodes[w.origin].blocked {
      ApplyRevokeBlocks(net.nodes[w.origin], w.p.chunks, id);
    }
    assert SendsOf(w, {}) == map[];
    AddressedHas(w.links[w.origin], w.p, w.origin);
  }

  /** A message stays on the wire unless it is the one delivered. */
  lemma WireKeeps(w: World, net: Net, e: Event, x: (Peer, Payload))
    requires Possible(w, net, e) && x in net.wire
    ensures x in Step(w, net, e).wire || (e.Deliver? && x == (e.to, e.call.p))
  {
  }

  /** What a joining node sends is on the wire. */
  lemma WireGains(w: World, net: Net, e: Event, m: Peer)
    requires Possible(w, net, e) && Joins(w, net, e) != {} && Linked(w.links, Where(e), m)
    ensures (m, e.call.p) in Step(w, net, e).wire
  {
    AddressedHas(w.links[Where(e)], e.call.p, m);
  }

  lemma CoverStep(w: World, net: Net, e: Event, n: Peer, m: Peer, q: Payload)
    requires WellFormed(w, net) && AllFresh(w, net) && Possible(w, net, e) && net.taken.Keys == SeenBy(w, net)
    requires Forwarded(w, Step(w, net, e), n, q) && Linked(w.links, n, m) && m in net.nodes
    requires Welcomes(w, net.nodes[m].trusted, q)
    requires Forwarded(w, net, n, q) ==> m in net.taken || Awaits(w, net, m)
    ensures m in Step(w, net, e).taken || Awaits(w, Step(w, net, e), m)
  {
    StepSets(w, net, e);
    var r := Step(w, net, e);
    if m !in r.taken {
      if Forwarded(w, net, n, q) {
        var x :| x in net.wire && x.0 == m && Welcomes(w, net.nodes[m].trusted, x.1);
        WireKeeps(w, net, e, x);
        if x !in r.wire { ArrivalJoins(w, net, e); }
        assert x in r.wire;
      } else {
        WireGains(w, net, e, m);
        assert (m, q) in r.wire;
      }
    }
  }

  lemma StepCovers(w: World, net: Net, e: Event)
    requires Flooding(w, net) && Possible(w, net, e)
    ensures Covered(w, Step(w, net, e))
  {
    StepSets(w, net, e);
    var r := Step(w, net, e);
    forall n, m, q | Forwarded(w, r, n, q) && Linked(w.links, n, m) && m in r.nodes && Welcomes(w, r.nodes[m].trusted, q)
      ensures m in r.taken || Awaits(w, r, m)
    {
      CoverStep(w, net, e, n, m, q);
    }
  }

  lemma StepBlocks(w: World, net: Net, e: Event)
    requires Flooding(w, net) && Possible(w, net, e)
    ensures DoneBlocks(w, Step(w, net, e))
  {
    var r, at := Step(w, net, e), Where(e);
    HandleRemembers(w, net.nodes[at], e.call);
    if Applies(w.crypto, net.nodes[at], e.call) { HandleBlocks(w.crypto, net.nodes[at], e.call); }
    forall n, q | Forwarded(w, r, n, q) && n in r.nodes ensures Blocks(r.nodes[n], q.chunks) {
      if Forwarded(w, net, n, q) { assert Blocks(net.nodes[n], q.chunks); }
    }
  }

  lemma JoinAddsSends(w: World, seen: set<Peer>, at: Peer)
    requires at !in seen && at in w.links
    ensures Total(SendsOf(w, seen + {at})) == Total(SendsOf(w, seen)) + |w.links[at]|
  {
    assert SendsOf(w, seen + {at}) == SendsOf(w, seen)[at := |w.links[at]|];
    TotalAdd(SendsOf(w, seen), at, |w.links[at]|);
  }

  lemma WireSize(w: World, net: Net, e: Event)
    requires Possible(w, net, e)
    ensures |Step(w, net, e).wire| ==
            |net.wire| - (if e.Deliver? then 1 else 0) + if Joins(w, net, e) != {} then |w.links[Where(e)]| else 0
  {
    var x := (Where(e), e.call.p);
    var sends := if Joins(w, net, e) != {} then w.links[Where(e)] else [];
    AddressedHas(sends, e.call.p, Where(e));
    if e.Deliver? { assert net.wire == net.wire - multiset{x} + multiset{x}; }
  }

  lemma StepCounts(w: World, net: Net, e: Event)
    requires WellFormed(w, net) && Counted(w, net) && Possible(w, net, e)
    requires Joins(w, net, e) * net.taken.Keys == {}
    ensures Counted(w, Step(w, net, e))
  {
    WireSize(w, net, e);
    StepTakes(w, net, e);
    if Joins(w, net, e) != {} { JoinAddsSends(w, net.taken.Keys, Where(e)); }
  }

  lemma StepTakes(w: World, net: Net, e: Event)
    requires Possible(w, net, e)
    ensures Step(w, net, e).taken.Keys == net.taken.Keys + Joins(w, net, e)
  {
  }

  /** Every step keeps the invariant: deliveries, and whatever comes from outside, of this identifier or another. */
  lemma StepKeeps(w: World, net: Net, e: Event)
    requires Flooding(w, net) && Possible(w, net, e)
    ensures Flooding(w, Step(w, net, e))
  {
    StepSets(w, net, e);
    StepTakes(w, net, e);
    StepCovers(w, net, e);
    StepBlocks(w, net, e);
    StepCounts(w, net, e);
  }

  // ----- termination and the number of messages -----

  lemma LeftShrinks(all: set<Peer>, seen: set<Peer>, joins: set<Peer>, at: Peer)
    requires joins <= all && joins * seen == {} && (joins == {} || joins == {at})
    ensures if joins == {} then all - (seen + joins) == all - seen else |all - (seen + joins)| < |all - seen|
  {
    var left := all - seen;
    if joins == {} {
      assert seen + joins == seen;
    } else {
      assert at in joins && at !in joins * seen;
      assert all - (seen + joins) == left - {at};
      assert left == (left - {at}) + {at};
    }
  }

  /** A delivery takes a message off the wire, unless the node joins. */
  lemma DeliveryShrinks(w: World, net: Net, e: Event, all: set<Peer>)
    requires WellFormed(w, net) && Possible(w, net, e) && e.Deliver?
    requires Joins(w, net, e) <= all && Joins(w, net, e) * SeenBy(w, net) == {}
    ensures var left, left' := all - SeenBy(w, net), all - (SeenBy(w, net) + Joins(w, net, e));
            |left'| < |left| || (left' == left && |Step(w, net, e).wire| < |net.wire|)
  {
    WireSize(w, net, e);
    LeftShrinks(all, SeenBy(w, net), Joins(w, net, e), e.to);
  }

  /** Every delivery shrinks (nodes that have not seen the identifier, messages on the wire) lexicographically. */
  lemma DeliveryDecreases(w: World, net: Net, e: Event)
    requires Flooding(w, net) && Possible(w, net, e) && e.Deliver?
    ensures var r := Step(w, net, e);
            var left, left' := net.nodes.Keys - SeenBy(w, net), r.nodes.Keys - SeenBy(w, r);
            |left'| < |left| || (left' == left && |r.wire| < |net.wire|)
  {
    StepSets(w, net, e);
    assert Step(w, net, e).nodes.Keys == net.nodes.Keys;
    DeliveryShrinks(w, net, e, net.nodes.Keys);
  }

  /** Counting the trusting nodes alone, every delivery of a payload of the revoke's own signer does. */
  lemma OwnDeliveryDecreases(w: World, net: Net, e: Event)
    requires Flooding(w, net) && Possible(w, net, e) && e.Deliver? && Norm(e.call.p.pubkey) == Norm(w.p.pubkey)
    ensures var r := Step(w, net, e);
            var left, left' := Trusting(w, net) - SeenBy(w, net), Trusting(w, r) - SeenBy(w, r);
            |left'| < |left| || (left' == left && |r.wire| < |net.wire|)
  {
    StepSets(w, net, e);
    ArrivalJoins(w, net, e);
    DeliveryShrinks(w, net, e, Trusting(w, net));
  }

  /** Sends of some nodes are at most the sends of all. */
  lemma {:induction false} TotalOfSubset(small: map<Peer, nat>, large: map<Peer, nat>)
    requires small.Keys <= large.Keys && forall n :: n in small ==> small[n] == large[n]
    ensures Total(small) <= Total(large)
    decreases |small|
  {
    if small != map[] {
      var n :| n in small;
      ShrinkSize(small, n);
      TotalRemove(small, n);
      TotalRemove(large, n);
      TotalOfSubset(small - {n}, large - {n});
    }
  }

  /** All sends together: at most one broadcast per node, plus the origin's first. */
  lemma SendsBounded(w: World, net: Net)
    requires Flooding(w, net)
    ensures net.delivered <= net.sent <= |w.links[w.origin]| + Total(SendsOf(w, w.links.Keys))
  {
    TotalOfSubset(SendsOf(w, net.taken.Keys), SendsOf(w, w.links.Keys));
  }

  // ----- runs -----

  predicate Run(w: World, net: Net, es: seq<Event>)
    decreases |es|
  {
    es == [] || (Possible(w, net, es[0]) && Run(w, Step(w, net, es[0]), es[1..]))
  }

  function Final(w: World, net: Net, es: seq<Event>): Net
    requires Run(w, net, es)
    decreases |es|
  {
    if es == [] then net else Final(w, Step(w, net, es[0]), es[1..])
  }

  lemma {:induction false} RunKeeps(w: World, net: Net, es: seq<Event>)
    requires Flooding(w, net) && Run(w, net, es)
    ensures Flooding(w, Final(w, net, es))
    decreases |es|
  {
    if es != [] {
      StepKeeps(w, net, es[0]);
      RunKeeps(w, Step(w, net, es[0]), es[1..]);
    }
  }

  function Deliveries(es: seq<Event>): nat {
    if es == [] then 0 else (if es[0].Deliver? then 1 else 0) + Deliveries(es[1..])
  }

  lemma {:induction false} DeliveriesCounted(w: World, net: Net, es: seq<Event>)
    requires Run(w, net, es)
    ensures Final(w, net, es).delivered == net.delivered + Deliveries(es)
    decreases |es|
  {
    if es != [] {
      DeliveriesCounted(w, Step(w, net, es[0]), es[1..]);
    }
  }

  /** No run delivers more messages than two broadcasts of the origin and one of every other node. */
  lemma FloodTerminates(w: World, net: Net, es: seq<Event>)
    requires Quiet(w, net) && Run(w, Start(w, net), es)
    ensures Deliveries(es) <= |w.links[w.origin]| + Total(SendsOf(w, w.links.Keys))
  {
    StartFloods(w, net);
    RunKeeps(w, Start(w, net), es);
    DeliveriesCounted(w, Start(w, net), es);
    SendsBounded(w, Final(w, Start(w, net), es));
  }

  // ----- who is reached -----

  /** A hop along which a payload went that the next node welcomes, or at least may take. */
  ghost predicate Hop(w: World, net: Net, may: bool, n: Peer, m: Peer) {
    && Linked(w.links, n, m) && m in net.nodes
    && exists q :: Forwarded(w, net, n, q)
                   && if may then MayTake(w, net.nodes[m].trusted, q) else Welcomes(w, net.nodes[m].trusted, q)
  }

  ghost predicate HopPath(w: World, net: Net, may: bool, sources: set<Peer>, path: seq<Peer>) {
    path != [] &&
    if |path| == 1 then path[0] in sources
    else
      var k := |path| - 1;
      HopPath(w, net, may, sources, path[..k]) && Hop(w, net, may, path[k - 1], path[k])
  }

  /** A chain of hops leads from a source to the node. */
  ghost predicate Reached(w: World, net: Net, may: bool, sources: set<Peer>, n: Peer) {
    exists path :: HopPath(w, net, may, sources, path) && path[|path| - 1] == n
  }

  lemma SourceReached(w: World, net: Net, may: bool, sources: set<Peer>, n: Peer)
    requires n in sources
    ensures Reached(w, net, may, sources, n)
  {
    assert HopPath(w, net, may, sources, [n]);
  }

  lemma HopReached(w: World, net: Net, may: bool, sources: set<Peer>, n: Peer, m: Peer)
    requires Reached(w, net, may, sources, n) && Hop(w, net, may, n, m)
    ensures Reached(w, net, may, sources, m)
  {
    var path :| HopPath(w, net, may, sources, path) && path[|path| - 1] == n;
    var longer := path + [m];
    assert longer[..|path|] == path;
    assert HopPath(w, net, may, sources, longer);
  }

  /** Payloads stay broadcast and nodes keep whom they trust. */
  ghost predicate Grows(w: World, net: Net, r: Net) {
    && (forall n, q :: Forwarded(w, net, n, q) ==> Forwarded(w, r, n, q))
    && (forall n :: n in net.nodes ==> n in r.nodes && r.nodes[n].trusted == net.nodes[n].trusted)
  }

  lemma StepGrows(w: World, net: Net, e: Event)
    requires Flooding(w, net) && Possible(w, net, e)
    ensures Grows(w, net, Step(w, net, e))
  {
    StepSets(w, net, e);
    if Joins(w, net, e) != {} { assert Where(e) !in SeenBy(w, net); }
  }

  lemma HopGrows(w: World, net: Net, r: Net, may: bool, n: Peer, m: Peer)
    requires Grows(w, net, r) && Hop(w, net, may, n, m)
    ensures Hop(w, r, may, n, m)
  {
    var q :| Forwarded(w, net, n, q)
             && if may then MayTake(w, net.nodes[m].trusted, q) else Welcomes(w, net.nodes[m].trusted, q);
    assert Forwarded(w, r, n, q);
  }

  lemma {:induction false} PathGrows(w: World, net: Net, r: Net, may: bool, sources: set<Peer>, path: seq<Peer>)
    requires Grows(w, net, r) && HopPath(w, net, may, sources, path)
    ensures HopPath(w, r, may, sources, path)
    decreases |path|
  {
    if |path| > 1 {
      var k := |path| - 1;
      PathGrows(w, net, r, may, sources, path[..k]);
      HopGrows(w, net, r, may, path[k - 1], path[k]);
    }
  }

  lemma ReachedGrows(w: World, net: Net, r: Net, may: bool, sources: set<Peer>, n: Peer)
    requires Grows(w, net, r) && Reached(w, net, may, sources, n)
    ensures Reached(w, r, may, sources, n)
  {
    var path :| HopPath(w, net, may, sources, path) && path[|path| - 1] == n;
    PathGrows(w, net, r, may, sources, path);
  }

  /** Once nothing is on the wire, every node a chain of welcome payloads leads to has taken part. */
  lemma {:induction false} PathIsDone(w: World, net: Net, sources: set<Peer>, path: seq<Peer>)
    requires Flooding(w, net) && net.wire == multiset{} && sources <= Done(w, net)
    requires HopPath(w, net, false, sources, path)
    ensures path[|path| - 1] in Done(w, net)
    decreases |path|
  {
    if |path| > 1 {
      var n, m := path[|path| - 2], path[|path| - 1];
      PathIsDone(w, net, sources, path[..|path| - 1]);
      var q :| Forwarded(w, net, n, q) && Welcomes(w, net.nodes[m].trusted, q);
      assert Linked(w.links, n, m);
      assert m in net.taken || Awaits(w, net, m);
    }
  }

  /** The nodes that took a payload under this identifier as new from outside the flood. */
  function Entries(w: World, net: Net, es: seq<Event>): set<Peer>
    requires Run(w, net, es)
    decreases |es|
  {
    if es == [] then {}
    else
      (if es[0].Other? then Joins(w, net, es[0]) else {}) + Entries(w, Step(w, net, es[0]), es[1..])
  }

  /** Participants are reached, and so is whoever may take a message on the wire. */
  ghost predicate OnlyReached(w: World, net: Net, sources: set<Peer>) {
    && (forall n :: n in net.taken ==> Reached(w, net, true, sources, n))
    && (forall x :: x in net.wire && x.0 in net.nodes && MayTake(w, net.nodes[x.0].trusted, x.1) ==>
                      Reached(w, net, true, sources, x.0))
  }

  /** A message on the wire after a step was there before, or the joining node sent it. */
  lemma WireFrom(w: World, net: Net, e: Event, x: (Peer, Payload))
    requires Possible(w, net, e) && x in Step(w, net, e).wire
    ensures x in net.wire || (Joins(w, net, e) != {} && x.1 == e.call.p && Linked(w.links, Where(e), x.0))
  {
    var sends := if Joins(w, net, e) != {} then w.links[Where(e)] else [];
    AddressedHas(sends, e.call.p, x.0);
  }

  lemma JoinReached(w: World, net: Net, e: Event, sources: set<Peer>)
    requires Flooding(w, net) && Possible(w, net, e) && OnlyReached(w, net, sources) && Joins(w, net, e) != {}
    requires e.Other? ==> Joins(w, net, e) <= sources
    ensures Reached(w, net, true, sources, Where(e))
  {
    if e.Other? {
      SourceReached(w, net, true, sources, Where(e));
    } else {
      ArrivalJoins(w, net, e);
      assert (e.to, e.call.p) in net.wire;
    }
  }

  lemma StepOnlyReached(w: World, net: Net, e: Event, sources: set<Peer>)
    requires Flooding(w, net) && Possible(w, net, e) && OnlyReached(w, net, sources)
    requires e.Other? ==> Joins(w, net, e) <= sources
    ensures OnlyReached(w, Step(w, net, e), sources)
  {
    var r := Step(w, net, e);
    StepGrows(w, net, e);
    if Joins(w, net, e) != {} {
      JoinReached(w, net, e, sources);
      ReachedGrows(w, net, r, true, sources, Where(e));
    }
    forall n | n in r.taken ensures Reached(w, r, true, sources, n) {
      if n in net.taken { ReachedGrows(w, net, r, true, sources, n); }
    }
    forall x | x in r.wire && x.0 in r.nodes && MayTake(w, r.nodes[x.0].trusted, x.1)
      ensures Reached(w, r, true, sources, x.0)
    {
      WireFrom(w, net, e, x);
      if x in net.wire {
        ReachedGrows(w, net, r, true, sources, x.0);
      } else {
        assert Forwarded(w, r, Where(e), x.1);
        HopReached(w, r, true, sources, Where(e), x.0);
      }
    }
  }

  lemma StartOnlyReached(w: World, net: Net, sources: set<Peer>)
    requires Quiet(w, net) && w.origin in sources
    ensures OnlyReached(w, Start(w, net), sources)
  {
    var r := Start(w, net);
    SourceReached(w, r, true, sources, w.origin);
    forall x | x in r.wire && x.0 in r.nodes && MayTake(w, r.nodes[x.0].trusted, x.1)
      ensures Reached(w, r, true, sources, x.0)
    {
      AddressedHas(w.links[w.origin], w.p, x.0);
      assert Forwarded(w, r, w.origin, x.1);
      HopReached(w, r, true, sources, w.origin, x.0);
    }
  }

  lemma {:induction false} RunOnlyReached(w: World, net: Net, es: seq<Event>, sources: set<Peer>)
    requires Flooding(w, net) && OnlyReached(w, net, sources) && Run(w, net, es) && Entries(w, net, es) <= sources
    ensures OnlyReached(w, Final(w, net, es), sources)
    decreases |es|
  {
    if es != [] {
      StepKeeps(w, net, es[0]);
      StepOnlyReached(w, net, es[0], sources);
      RunOnlyReached(w, Step(w, net, es[0]), es[1..], sources);
    }
  }

  /** Whoever entered from outside has taken part, and nobody's trust has changed. */
  lemma {:induction false} RunFacts(w: World, net: Net, es: seq<Event>)
    requires Flooding(w, net) && Run(w, net, es)
    ensures SeenBy(w, net) + Entries(w, net, es) <= SeenBy(w, Final(w, net, es))
    ensures Trusting(w, Final(w, net, es)) == Trusting(w, net)
    decreases |es|
  {
    if es != [] {
      StepKeeps(w, net, es[0]);
      StepSets(w, net, es[0]);
      RunFacts(w, Step(w, net, es[0]), es[1..]);
    }
  }

  /** The origin and the nodes that got a payload under this identifier from outside. */
  function Sources(w: World, net: Net, es: seq<Event>): set<Peer>
    requires WellFormed(w, net) && Run(w, Start(w, net), es)
  {
    {w.origin} + Entries(w, Start(w, net), es)
  }

  /**
   * What every run settles to, whatever payloads come from outside: once nothing is on
   * the wire, every node a chain of welcome payloads leads to from a source has taken
   * part; every participant is led to by payloads that the nodes on the way may take; and
   * each blocks the keys of what it broadcast. The two kinds of chain differ only for
   * payloads of another timestamp.
   */
  lemma SettledCoverage(w: World, net: Net, es: seq<Event>, n: Peer)
    requires Quiet(w, net) && Run(w, Start(w, net), es) && Final(w, Start(w, net), es).wire == multiset{}
    ensures var r, sources := Final(w, Start(w, net), es), Sources(w, net, es);
            && (Reached(w, r, false, sources, n) ==> n in Done(w, r))
            && (n in Done(w, r) ==> Reached(w, r, true, sources, n))
            && (forall q :: Forwarded(w, r, n, q) && n in r.nodes ==> Blocks(r.nodes[n], q.chunks))
  {
    StartFloods(w, net);
    RunKeeps(w, Start(w, net), es);
    var r, sources := Final(w, Start(w, net), es), Sources(w, net, es);
    StartOnlyReached(w, net, sources);
    RunOnlyReached(w, Start(w, net), es, sources);
    RunFacts(w, Start(w, net), es);
    if Reached(w, r, false, sources, n) {
      var path :| HopPath(w, r, false, sources, path) && path[|path| - 1] == n;
      PathIsDone(w, r, sources, path);
    }
    if n == w.origin { SourceReached(w, r, true, sources, n); }
  }

  // ----- when everything under this identifier is a copy -----

  /** The payload is a copy of the revoke and names the same keys. */
  ghost predicate Faithful(w: World, q: Payload) {
    Copy(w, q) && SameNames(q.chunks, w.p.chunks)
  }

  /** What comes from outside under this identifier is faithful. */
  ghost predicate OutsideFaithful(w: World, es: seq<Event>) {
    forall i :: 0 <= i < |es| && es[i].Other? && SameId(w, es[i].call.p) ==> Faithful(w, es[i].call.p)
  }

  ghost predicate AllFaithful(w: World, net: Net) {
    && (forall n, q :: Forwarded(w, net, n, q) ==> Faithful(w, q))
    && (forall x :: x in net.wire ==> Faithful(w, x.1))
  }

  lemma StepFaithful(w: World, net: Net, e: Event)
    requires Possible(w, net, e) && AllFaithful(w, net)
    requires e.Other? && SameId(w, e.call.p) ==> Faithful(w, e.call.p)
    ensures AllFaithful(w, Step(w, net, e))
  {
    var r := Step(w, net, e);
    if e.Deliver? { assert (e.to, e.call.p) in net.wire; }
    forall n, q | Forwarded(w, r, n, q) ensures Faithful(w, q) {
      if !Forwarded(w, net, n, q) { assert q == e.call.p; }
    }
    forall x | x in r.wire ensures Faithful(w, x.1) { WireFrom(w, net, e, x); }
  }

  lemma {:induction false} RunFaithful(w: World, net: Net, es: seq<Event>)
    requires Run(w, net, es) && AllFaithful(w, net) && OutsideFaithful(w, es)
    ensures AllFaithful(w, Final(w, net, es))
    decreases |es|
  {
    if es != [] {
      StepFaithful(w, net, es[0]);
      RunFaithful(w, Step(w, net, es[0]), es[1..]);
    }
  }

  lemma StartFaithful(w: World, net: Net)
    requires Quiet(w, net)
    ensures AllFaithful(w, Start(w, net))
  {
    forall x | x in Start(w, net).wire ensures Faithful(w, x.1) { AddressedHas(w.links[w.origin], w.p, x.0); }
  }

  /** A path from a source whose every hop is a link to a node that trusts the signer. */
  predicate TrustingPath(w: World, sources: set<Peer>, trusting: set<Peer>, path: seq<Peer>) {
    path != [] &&
    if |path| == 1 then path[0] in sources
    else
      var k := |path| - 1;
      TrustingPath(w, sources, trusting, path[..k]) && Linked(w.links, path[k - 1], path[k]) && path[k] in trusting
  }

  ghost predicate Reachable(w: World, sources: set<Peer>, trusting: set<Peer>, n: Peer) {
    exists path :: TrustingPath(w, sources, trusting, path) && path[|path| - 1] == n
  }

  lemma {:induction false} HopsAreTrusting(w: World, net: Net, sources: set<Peer>, path: seq<Peer>)
    requires AllFaithful(w, net) && HopPath(w, net, true, sources, path)
    ensures TrustingPath(w, sources, Trusting(w, net), path)
    decreases |path|
  {
    if |path| > 1 {
      var n, m := path[|path| - 2], path[|path| - 1];
      HopsAreTrusting(w, net, sources, path[..|path| - 1]);
      var q :| Forwarded(w, net, n, q) && MayTake(w, net.nodes[m].trusted, q);
      assert Faithful(w, q);
    }
  }

  /** Once nothing is on the wire, every node at the end of a trusting path has taken part. */
  lemma {:induction false} TrustingIsDone(w: World, net: Net, sources: set<Peer>, path: seq<Peer>)
    requires Flooding(w, net) && net.wire == multiset{} && sources <= Done(w, net) && AllFaithful(w, net)
    requires TrustingPath(w, sources, Trusting(w, net), path)
    ensures path[|path| - 1] in Done(w, net)
    decreases |path|
  {
    if |path| > 1 {
      var n, m := path[|path| - 2], path[|path| - 1];
      TrustingIsDone(w, net, sources, path[..|path| - 1]);
      var q := if n in net.taken then net.taken[n] else w.p;
      assert Forwarded(w, net, n, q);
      assert Faithful(w, q);
      assert Welcomes(w, net.nodes[m].trusted, q);
      assert m in net.taken || Awaits(w, net, m);
    }
  }

  /**
   * Flood coverage: when payloads from outside under this identifier are copies that name
   * the same keys, and nothing is on the wire any more, the nodes that took part are
   * exactly those a path of trusting nodes leads to from the origin or from a node that
   * got such a copy, and each of them blocks every chunk.
   */
  lemma FloodCoverage(w: World, net: Net, es: seq<Event>, n: Peer)
    requires Quiet(w, net) && Run(w, Start(w, net), es) && OutsideFaithful(w, es)
    requires Final(w, Start(w, net), es).wire == multiset{} && n in net.nodes
    ensures var r, sources := Final(w, Start(w, net), es), Sources(w, net, es);
            && (n in Done(w, r) <==> Reachable(w, sources, Trusting(w, net), n))
            && (n in Done(w, r) ==> n in r.nodes && Blocks(r.nodes[n], w.p.chunks))
  {
    StartFloods(w, net);
    StartSets(w, net);
    RunKeeps(w, Start(w, net), es);
    var r, sources := Final(w, Start(w, net), es), Sources(w, net, es);
    StartFaithful(w, net);
    RunFaithful(w, Start(w, net), es);
    RunFacts(w, Start(w, net), es);
    SettledCoverage(w, net, es, n);
    if Reachable(w, sources, Trusting(w, net), n) {
      var path :| TrustingPath(w, sources, Trusting(w, net), path) && path[|path| - 1] == n;
      TrustingIsDone(w, r, sources, path);
    }
    if n in Done(w, r) {
      var path :| HopPath(w, r, true, sources, path) && path[|path| - 1] == n;
      HopsAreTrusting(w, r, sources, path);
      DoneBlockAll(w, r, n);
    }
  }

  lemma DoneBlockAll(w: World, net: Net, n: Peer)
    requires Flooding(w, net) && AllFaithful(w, net) && n in Done(w, net)
    ensures n in net.nodes && Blocks(net.nodes[n], w.p.chunks)
  {
    var q := if n in net.taken then net.taken[n] else w.p;
    assert Forwarded(w, net, n, q);
    assert Blocks(net.nodes[n], q.chunks) && Faithful(w, q);
  }

  // ----- and when it is not -----

  /** A neighbour of a participant that trusts the signer has taken part, or a payload it welcomes is on its way. */
  ghost predicate TrustCovered(w: World, net: Net) {
    forall n, m :: n in Done(w, net) && m in Trusting(w, net) && Linked(w.links, n, m) ==> m in SeenBy(w, net) || Awaits(w, net, m)
  }

  /** Node m is looked after if n joins with q: it has seen the identifier, a payload it welcomes is on its way, or it welcomes q. */
  ghost predicate LookedAfter(w: World, net: Net, n: Peer, q: Payload, m: Peer)
    requires m in net.nodes
  {
    m == n || m in SeenBy(w, net) || Awaits(w, net, m) || Welcomes(w, net.nodes[m].trusted, q)
  }

  lemma OutsideKeepsWire(w: World, net: Net, e: Event, m: Peer)
    requires Flooding(w, net) && Possible(w, net, e) && e.Other? && Joins(w, net, e) != {} && m in net.nodes
    ensures Awaits(w, Step(w, net, e), m) <==>
            Awaits(w, net, m) || (Linked(w.links, e.at, m) && Welcomes(w, net.nodes[m].trusted, e.call.p))
  {
    StepSets(w, net, e);
    var r := Step(w, net, e);
    if x :| x in net.wire && x.0 == m && Welcomes(w, net.nodes[m].trusted, x.1) {
      WireKeeps(w, net, e, x);
    }
    if Linked(w.links, e.at, m) { WireGains(w, net, e, m); }
    if x :| x in r.wire && x.0 == m && Welcomes(w, r.nodes[m].trusted, x.1) {
      WireFrom(w, net, e, x);
    }
  }

  /**
   * Exactly when a join from outside keeps the trusting neighbours covered: each of those
   * of the joining node has seen the identifier, has a payload it welcomes on its way, or
   * welcomes the payload itself.
   */
  lemma OutsideJoinCoversIff(w: World, net: Net, e: Event)
    requires Flooding(w, net) && TrustCovered(w, net) && Possible(w, net, e) && e.Other? && Joins(w, net, e) != {}
    ensures TrustCovered(w, Step(w, net, e)) <==>
            forall m :: m in Trusting(w, net) && Linked(w.links, e.at, m) ==> LookedAfter(w, net, e.at, e.call.p, m)
  {
    StepSets(w, net, e);
    var r := Step(w, net, e);
    forall m | m in net.nodes
      ensures Awaits(w, r, m) <==>
              Awaits(w, net, m) || (Linked(w.links, e.at, m) && Welcomes(w, net.nodes[m].trusted, e.call.p))
    {
      OutsideKeepsWire(w, net, e, m);
    }
    if TrustCovered(w, r) {
      forall m | m in Trusting(w, net) && Linked(w.links, e.at, m) ensures LookedAfter(w, net, e.at, e.call.p, m) {
        assert e.at in Done(w, r) && m in Trusting(w, r);
      }
    }
  }

  /** A message that the node does not take leaves the nodes as they are. */
  lemma IgnoredStep(w: World, net: Net, e: Event)
    requires Possible(w, net, e) && e.Deliver? && !Applies(w.crypto, net.nodes[e.to], e.call)
    ensures Step(w, net, e).nodes == net.nodes && Step(w, net, e).wire == net.wire - multiset{(e.to, e.call.p)}
  {
    assert Addressed([], e.call.p) == [];
  }

  /** Links 0 to 1 to 2: node 1 trusts both signers, node 2 only the one of the revoke. */
  function Chain(c: Crypto, p: Payload): World {
    World(c, p, map[0 := [1], 1 := [2], 2 := []], 0)
  }

  function ChainNet(p: Payload, q: Payload, store: Store): Net {
    Net(map[0 := Node({}, map[], {}, store), 1 := Node({Norm(p.pubkey), Norm(q.pubkey)}, map[], {}, store),
            2 := Node({Norm(p.pubkey)}, map[], {}, store)], multiset{}, map[], 0, 0)
  }

  /** The co-signed payload reaches node 1 first. */
  function ChainRun(p: Payload, q: Payload): seq<Event> {
    var t := p.timestamp * SECOND;
    [Other(1, Call(q, t, t, t)), Deliver(1, Call(p, t, t, t)), Deliver(2, Call(q, t, t, t))]
  }

  /** The same revoke, validly signed by somebody else: the key is not part of the signed bytes. */
  predicate Cosigned(c: Crypto, p: Payload, q: Payload) {
    && q == p.(pubkey := q.pubkey, signature := q.signature) && Norm(q.pubkey) != Norm(p.pubkey)
    && c.keyValid(p.pubkey) && c.verify(p.pubkey, Canonical(p), p.signature)
    && c.keyValid(q.pubkey) && c.verify(q.pubkey, Canonical(q), q.signature)
  }

  lemma ChainQuiet(c: Crypto, p: Payload, q: Payload, store: Store)
    requires Cosigned(c, p, q)
    ensures Quiet(Chain(c, p), ChainNet(p, q, store))
  {
  }

  /** The first step: node 1 takes the co-signed payload and sends it on. */
  lemma ChainFirst(c: Crypto, p: Payload, q: Payload, store: Store)
    requires Cosigned(c, p, q)
    ensures var w, e := Chain(c, p), ChainRun(p, q)[0];
            && Quiet(w, ChainNet(p, q, store)) && Possible(w, Start(w, ChainNet(p, q, store)), e)
            && var s0 := Start(w, ChainNet(p, q, store)); var s1 := Step(w, s0, e);
               && s1.wire == multiset{(1, p), (2, q)} && 1 in s1.nodes && Rid(w) in s1.nodes[1].seen
               && 2 in s1.nodes && s1.nodes[2] == Node({Norm(p.pubkey)}, map[], {}, store)
  {
    var w, net, e := Chain(c, p), ChainNet(p, q, store), ChainRun(p, q)[0];
    ChainQuiet(c, p, q, store);
    AtSecond(p.timestamp);
    var s0 := Start(w, net);
    assert Canonical(q) == Canonical(p);
    assert Addressed([1], p) == [(1, p)] && Addressed([2], q) == [(2, q)];
    assert s0.nodes[1] == net.nodes[1];
    assert Applies(c, s0.nodes[1], e.call);
    HandleRemembers(w, s0.nodes[1], e.call);
  }

  /** The rest: node 1 has seen the identifier, and node 2 does not trust the other signer. */
  lemma ChainRest(w: World, s1: Net, p: Payload, q: Payload, store: Store) returns (s2: Net, s3: Net)
    requires w.p == p && SameId(w, p) && Norm(q.pubkey) != Norm(p.pubkey) && 1 in w.links && 2 in w.links
    requires s1.wire == multiset{(1, p), (2, q)} && 1 in s1.nodes && Rid(w) in s1.nodes[1].seen
    requires 2 in s1.nodes && s1.nodes[2] == Node({Norm(p.pubkey)}, map[], {}, store)
    ensures Possible(w, s1, ChainRun(p, q)[1]) && s2 == Step(w, s1, ChainRun(p, q)[1])
    ensures Possible(w, s2, ChainRun(p, q)[2]) && s3 == Step(w, s2, ChainRun(p, q)[2])
    ensures s3.wire == multiset{} && s3.nodes == s1.nodes
  {
    AtSecond(p.timestamp);
    IgnoredStep(w, s1, ChainRun(p, q)[1]);
    s2 := Step(w, s1, ChainRun(p, q)[1]);
    assert s2.wire == multiset{(2, q)};
    IgnoredStep(w, s2, ChainRun(p, q)[2]);
    s3 := Step(w, s2, ChainRun(p, q)[2]);
  }

  lemma ThreeSteps(w: World, s0: Net, es: seq<Event>, s1: Net, s2: Net, s3: Net)
    requires |es| == 3 && Possible(w, s0, es[0]) && s1 == Step(w, s0, es[0])
    requires Possible(w, s1, es[1]) && s2 == Step(w, s1, es[1]) && Possible(w, s2, es[2]) && s3 == Step(w, s2, es[2])
    ensures Run(w, s0, es) && Final(w, s0, es) == s3
  {
    var es1, es2 := es[1..], es[1..][1..];
    assert es1[0] == es[1] && es2[0] == es[2] && es2[1..] == [];
    RunFrom(w, s2, es2, s3, s3);
    RunFrom(w, s1, es1, s2, s3);
    RunFrom(w, s0, es, s1, s3);
  }

  lemma RunFrom(w: World, s: Net, es: seq<Event>, t: Net, end: Net)
    requires es != [] && Possible(w, s, es[0]) && t == Step(w, s, es[0])
    requires Run(w, t, es[1..]) && Final(w, t, es[1..]) == end
    ensures Run(w, s, es) && Final(w, s, es) == end
  {
  }

  /**
   * The co-signed run: node 1 takes the payload of the other signer and sends that one on,
   * ignores the genuine one, and node 2 ignores what it gets. It ends without the block,
   * although it trusts the signer of the revoke and a path of trusting nodes leads to it.
   */
  lemma CosignedRun(c: Crypto, p: Payload, q: Payload, store: Store, id: Id)
    requires Cosigned(c, p, q)
    ensures var w, net := Chain(c, p), ChainNet(p, q, store);
            && Quiet(w, net) && Run(w, Start(w, net), ChainRun(p, q))
            && var r := Final(w, Start(w, net), ChainRun(p, q));
               && r.wire == multiset{} && Reachable(w, {w.origin}, Trusting(w, net), 2)
               && 2 !in Done(w, r) && 2 in r.nodes && id !in r.nodes[2].blocked
  {
    var w, net := Chain(c, p), ChainNet(p, q, store);
    ChainFirst(c, p, q, store);
    ChainTail(w, Start(w, net), p, q, store);
    TwoHops(w, Trusting(w, net), 1, 2);
  }

  lemma ChainTail(w: World, s0: Net, p: Payload, q: Payload, store: Store)
    requires w.p == p && SameId(w, p) && Norm(q.pubkey) != Norm(p.pubkey) && 1 in w.links && 2 in w.links
    requires Possible(w, s0, ChainRun(p, q)[0])
    requires var s1 := Step(w, s0, ChainRun(p, q)[0]);
             && s1.wire == multiset{(1, p), (2, q)} && 1 in s1.nodes && Rid(w) in s1.nodes[1].seen
             && 2 in s1.nodes && s1.nodes[2] == Node({Norm(p.pubkey)}, map[], {}, store)
    ensures Run(w, s0, ChainRun(p, q)) && var r := Final(w, s0, ChainRun(p, q));
            && r.wire == multiset{} && 2 in r.nodes && r.nodes[2] == Node({Norm(p.pubkey)}, map[], {}, store)
  {
    var s1 := Step(w, s0, ChainRun(p, q)[0]);
    var s2, s3 := ChainRest(w, s1, p, q, store);
    ThreeSteps(w, s0, ChainRun(p, q), s1, s2, s3);
  }

  lemma TwoHops(w: World, trusting: set<Peer>, n: Peer, m: Peer)
    requires Linked(w.links, w.origin, n) && n in trusting && Linked(w.links, n, m) && m in trusting
    ensures Reachable(w, {w.origin}, trusting, m)
  {
    var path := [w.origin, n, m];
    assert path[..2] == [w.origin, n] && [w.origin, n][..1] == [w.origin];
    assert TrustingPath(w, {w.origin}, trusting, [w.origin]);
    assert TrustingPath(w, {w.origin}, trusting, [w.origin, n]);
    assert TrustingPath(w, {w.origin}, trusting, path);
  }
}
