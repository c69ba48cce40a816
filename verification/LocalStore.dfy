/**
 * The store as the source runs it: one object whose fields are updated in place.
 * Every method is proved to take the object's value through the corresponding
 * function of module Storage.
 */
module LocalStore {
  import opened NodeId
  import opened Storage

  class LocalStore {
    var data: map<Id, Bytes>
    var access: map<Id, int>
    var total: int
    var maxBytes: int
    var attribution: map<Id, string>
    var perPeer: map<string, int>
    var perPeerMax: int

    constructor (maxBytes: int, perPeerMax: int)
      ensures View() == Empty(maxBytes, perPeerMax)
    {
      data, access, attribution, perPeer := map[], map[], map[], map[];
      total := 0;
      this.maxBytes, this.perPeerMax := maxBytes, perPeerMax;
    }

    ghost function View(): Store
      reads this
    {
      Store(data, access, total, maxBytes, attribution, perPeer, perPeerMax)
    }

    /** Counter updates shared by every path that gives bytes back. */
    method GiveBack(k: Id, size: nat)
      requires k in data && size == |data[k]|
      modifies `total, `perPeer
      ensures View() == Refund(old(View()), k)
    {
      total := total - size;
      if k in attribution && attribution[k] != "" {
        var p := attribution[k];
        var left := (if p in perPeer then perPeer[p] else 0) - size;
        perPeer := perPeer[p := left];
        if left <= 0 {
          perPeer := perPeer - {p};
          assert perPeer == old(perPeer) - {p};
        }
      }
    }

    method Delete(k: Id)
      modifies this
      ensures View() == Storage.Delete(old(View()), k)
    {
      if k !in data { return; }
      GiveBack(k, |data[k]|);
      data := data - {k};
      access := access - {k};
      attribution := attribution - {k};
    }

    method Get(k: Id, now: int) returns (found: bool, value: Bytes)
      modifies `access
      ensures View() == Touch(old(View()), k, now)
      ensures found <==> k in data
      ensures found ==> value == data[k] && access == old(access)[k := now]
      ensures !found ==> access == old(access)
    {
      if k !in data { return false, []; }
      access := access[k := now];
      return true, data[k];
    }

    /** `order`: the keys as the source's sort by access time left them. */
    method EvictUntilUnder(order: seq<Id>, cap: int)
      modifies this
      ensures View() == Storage.EvictUntilUnder(old(View()), order, cap)
    {
      if cap <= 0 && maxBytes <= 0 { return; }
      var i := 0;
      while i < |order|
        invariant 0 <= i <= |order|
        invariant EvictPass(View(), order[i..], cap) == EvictPass(old(View()), order, cap)
      {
        if total <= cap { break; }
        Delete(order[i]);
        assert order[i..][1..] == order[i + 1..];
        i := i + 1;
      }
    }

    method EvictToFit(order: seq<Id>, needed: nat)
      modifies this
      ensures View() == Storage.EvictToFit(old(View()), order, needed)
    {
      if maxBytes <= 0 { return; }
      var target := maxBytes - needed;
      if target < 0 { target := 0; }
      EvictUntilUnder(order, target);
    }

    /** The admission check that opens put. */
    method Admit(k: Id, size: nat, peer: string) returns (ok: bool)
      ensures ok <==> Admits(View(), k, size, peer)
    {
      if peer != "" && perPeerMax > 0 {
        var current := if peer in perPeer then perPeer[peer] else 0;
        if k in attribution && attribution[k] == peer && k in data {
          current := current - |data[k]|;
        }
        return current + size <= perPeerMax;
      }
      return true;
    }

    /** The writes that close put. */
    method Install(k: Id, value: Bytes, peer: string, now: int)
      modifies this
      ensures View() == Insert(old(View()), k, value, peer, now)
    {
      data := data[k := value];
      access := access[k := now];
      total := total + |value|;
      if peer != "" {
        attribution := attribution[k := peer];
        perPeer := perPeer[peer := (if peer in perPeer then perPeer[peer] else 0) + |value|];
      } else {
        attribution := attribution - {k};
      }
    }

    method Put(k: Id, value: Bytes, peer: string, now: int, order: seq<Id>) returns (accepted: bool)
      modifies this
      ensures accepted <==> Admits(old(View()), k, |value|, peer)
      ensures View() == Storage.Put(old(View()), k, value, peer, now, order)
    {
      accepted := Admit(k, |value|, peer);
      if !accepted { return; }
      if k in data { GiveBack(k, |data[k]|); }
      EvictToFit(order, |value|);
      Install(k, value, peer, now);
    }
  }
}
