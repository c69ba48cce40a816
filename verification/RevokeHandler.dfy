/**
 * The revoke handler as the source runs it, updating the replay table, the
 * blocklist and the store in place; proved to follow module Revoke step by step.
 */
module RevokeHandler {
  import opened NodeId
  import opened Options
  import opened Text
  import opened Storage
  import opened LocalStore
  import opened Revoke

  class RevokeHandler {
    var trusted: set<string>
    var seen: map<string, int>
    var blocked: set<Id>
    const store: LocalStore

    constructor (trusted: set<string>, store: LocalStore)
      ensures View() == Node(trusted, map[], {}, store.View()) && this.store == store
    {
      this.trusted, this.seen, this.blocked, this.store := trusted, map[], {}, store;
    }

    ghost function View(): Node
      reads this, store
    {
      Node(trusted, seen, blocked, store.View())
    }

    /** Deletes every entry stamped before the cutoff, once the table is large. */
    method PruneSeen(cut: int)
      modifies `seen
      ensures seen == Prune(old(seen), cut)
    {
      if |seen| <= SEEN_LIMIT { return; }
      var cutoff := cut - 2 * MAX_AGE * SECOND;
      var left := seen.Keys;
      while left != {}
        invariant left <= seen.Keys <= old(seen).Keys
        invariant forall r :: r in seen ==> seen[r] == old(seen)[r]
        invariant forall r :: r in old(seen) && r !in left ==> (r in seen <==> old(seen)[r] >= cutoff)
        decreases left
      {
        var r :| r in left;
        if seen[r] < cutoff { seen := seen - {r}; }
        left := left - {r};
      }
    }

    method ApplyRevoke(chunks: seq<string>)
      modifies this, store
      ensures View() == Revoke.ApplyRevoke(old(View()), chunks)
    {
      var i := 0;
      while i < |chunks|
        invariant 0 <= i <= |chunks|
        invariant Revoke.ApplyRevoke(View(), chunks[i..]) == Revoke.ApplyRevoke(old(View()), chunks)
      {
        assert chunks[i..][1..] == chunks[i + 1..];
        var id := IdFromHex(chunks[i]);
        if id.Some? {
          blocked := blocked + {id.value};
          store.Delete(id.value);
        }
        i := i + 1;
      }
    }

    /** Returns whether the message is applied and so forwarded to every live connection. */
    method HandleRevoke(c: Crypto, call: Call) returns (forward: bool)
      modifies this, store
      ensures forward <==> Applies(c, old(View()), call)
      ensures View() == Handle(c, old(View()), call)
    {
      var p := call.p;
      if Norm(p.pubkey) !in trusted { return false; }
      var now := Unix(call.check);
      if p.timestamp < now - MAX_AGE { return false; }
      if p.timestamp > now + MAX_SKEW { return false; }
      if !c.keyValid(p.pubkey) { return false; }
      if !c.verify(p.pubkey, Canonical(p), p.signature) { return false; }
      var rid := RevokeId(c, p);
      if rid in seen { return false; }
      seen := seen[rid := call.insert];
      PruneSeen(call.cut);
      ApplyRevoke(p.chunks);
      return true;
    }
  }
}
