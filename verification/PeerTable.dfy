/**
 * The connection tables of core/peer/peer.go: address aliases and the canonical
 * connection of each peer identity, kept consistent under any sequence of
 * registerConn, AddPeerAddress and removeConn. Sockets are left out; a connection
 * is its verified identity and the addresses registered for it.
 */
module PeerTable {

  class PeerConn {
    const remoteID: string
    var addresses: seq<string>

    constructor (id: string)
      ensures remoteID == id && addresses == []
    {
      remoteID, addresses := id, [];
    }
  }

  function AppendUnique(s: seq<string>, x: string): (r: seq<string>)
    ensures s <= r && x in r && |r| == |s| + (if x in s then 0 else 1)
    ensures (forall i, j :: 0 <= i < j < |s| ==> s[i] != s[j]) ==> forall i, j :: 0 <= i < j < |r| ==> r[i] != r[j]
    ensures forall y :: y in r ==> y in s || y == x
  {
    if x in s then s else s + [x]
  }

  class Peers {
    var peers: map<string, PeerConn>
    var peersByID: map<string, PeerConn>

    constructor ()
      ensures Valid() && peers == map[] && peersByID == map[]
    {
      peers, peersByID := map[], map[];
    }

    /** Connections filed under their own identity; none under the empty one. */
    ghost predicate Filed()
      reads this
    {
      forall id :: id in peersByID ==> id != "" && peersByID[id].remoteID == id
    }

    /** An identified connection that has an alias is the canonical one of its identity. */
    ghost predicate Canonical()
      reads this
    {
      forall a :: a in peers && peers[a].remoteID != "" ==>
        peers[a].remoteID in peersByID && peersByID[peers[a].remoteID] == peers[a]
    }

    /** Every alias appears in the address list of the connection it leads to. */
    ghost predicate Known()
      reads this, peers.Values
    {
      forall a :: a in peers ==> a in peers[a].addresses
    }

    ghost predicate Valid()
      reads this, peers.Values
    {
      Filed() && Canonical() && Known()
    }

    /** Returns the existing connection to the same peer, if there is another one. */
    method RegisterConn(pc: PeerConn, addr: string) returns (existing: PeerConn?)
      requires Valid()
      modifies this, pc, peersByID.Values
      ensures Valid()
      ensures var dup := pc.remoteID in old(peersByID) && old(peersByID[pc.remoteID]) != pc;
              var kept := if dup then old(peersByID[pc.remoteID]) else pc;
              && existing == (if dup then kept else null)
              && peers == old(peers)[addr := kept]
              && peersByID == (if pc.remoteID == "" then old(peersByID) else old(peersByID)[pc.remoteID := kept])
              && kept.addresses == AppendUnique(old(kept.addresses), addr)
              && forall c: PeerConn :: c in old(peersByID).Values + {pc} && c != kept ==> c.addresses == old(c.addresses)
    {
      if pc.remoteID != "" {
        if pc.remoteID in peersByID && peersByID[pc.remoteID] != pc {
          var cur := peersByID[pc.remoteID];
          peers := peers[addr := cur];
          cur.addresses := AppendUnique(cur.addresses, addr);
          return cur;
        }
        peersByID := peersByID[pc.remoteID := pc];
      }
      peers := peers[addr := pc];
      pc.addresses := AppendUnique(pc.addresses, addr);
      return null;
    }

    /** Drops the connection: afterwards nothing leads to it, and nothing else has changed. */
    method RemoveConn(pc: PeerConn)
      requires Valid()
      modifies this
      ensures Valid()
      ensures peers == map a | a in old(peers) && old(peers)[a] != pc :: old(peers)[a]
      ensures peersByID == map id | id in old(peersByID) && old(peersByID)[id] != pc :: old(peersByID)[id]
      ensures pc !in peers.Values && pc !in peersByID.Values
    {
      if pc.remoteID != "" {
        if pc.remoteID in peersByID && peersByID[pc.remoteID] == pc {
          peersByID := peersByID - {pc.remoteID};
        }
      }
      for i := 0 to |pc.addresses|
        invariant peersByID == map id | id in old(peersByID) && old(peersByID)[id] != pc :: old(peersByID)[id]
        invariant peers.Keys <= old(peers).Keys
        invariant forall a :: a in peers ==> peers[a] == old(peers)[a]
        invariant forall a :: a in old(peers) && old(peers)[a] != pc ==> a in peers
        invariant forall a :: a in peers && peers[a] == pc ==> a in pc.addresses[i..]
      {
        var a := pc.addresses[i];
        if a in peers && peers[a] == pc { peers := peers - {a}; }
      }
    }

    method AddPeerAddress(peerID: string, addr: string) returns (added: bool)
      requires Valid()
      modifies this, peersByID.Values
      ensures Valid() && peersByID == old(peersByID)
      ensures added <==> peerID in peersByID && !(addr in old(peers) && old(peers)[addr] == peersByID[peerID])
      ensures added ==> peers == old(peers)[addr := peersByID[peerID]]
                        && peersByID[peerID].addresses == AppendUnique(old(peersByID[peerID].addresses), addr)
      ensures !added ==> peers == old(peers)
      ensures forall c :: c in peersByID.Values && !(added && c == peersByID[peerID]) ==> c.addresses == old(c.addresses)
    {
      if peerID !in peersByID { return false; }
      var pc := peersByID[peerID];
      if addr in peers && peers[addr] == pc { return false; }
      peers := peers[addr := pc];
      pc.addresses := AppendUnique(pc.addresses, addr);
      return true;
    }

    /** Broadcast sends once for every alias: a peer known under several addresses gets several copies. */
    method Broadcast() returns (sends: seq<PeerConn>)
      ensures forall c: PeerConn :: multiset(sends)[c] == |Aliases(peers, c)|
      ensures |sends| == |peers|
    {
      sends := [];
      var left := peers.Keys;
      forall c: PeerConn ensures |Aliases(peers, c) - left| == 0 { assert Aliases(peers, c) - left == {}; }
      while left != {}
        invariant left <= peers.Keys && |sends| + |left| == |peers.Keys|
        invariant forall c: PeerConn :: multiset(sends)[c] == |Aliases(peers, c) - left|
        decreases left
      {
        var a :| a in left;
        forall c: PeerConn
          ensures multiset(sends + [peers[a]])[c] == |Aliases(peers, c) - (left - {a})|
        {
          AliasStep(peers, left, a, c);
        }
        sends := sends + [peers[a]];
        left := left - {a};
      }
      forall c: PeerConn ensures multiset(sends)[c] == |Aliases(peers, c)| {
        assert Aliases(peers, c) - {} == Aliases(peers, c);
      }
    }
  }

  /** The addresses that lead to a connection. */
  function Aliases<T(==)>(m: map<string, T>, c: T): set<string> {
    set a | a in m && m[a] == c
  }

  lemma AliasStep<T>(m: map<string, T>, left: set<string>, a: string, c: T)
    requires a in left && left <= m.Keys
    ensures |Aliases(m, c) - (left - {a})| == |Aliases(m, c) - left| + if m[a] == c then 1 else 0
  {
    if m[a] == c {
      assert Aliases(m, c) - (left - {a}) == (Aliases(m, c) - left) + {a};
    } else {
      assert Aliases(m, c) - (left - {a}) == Aliases(m, c) - left;
    }
  }
}
