/**
 * Signed takedowns (core/dht/revoke.go): the canonical signed bytes, the
 * deduplication identifier, and the handler with its age window, replay table
 * and lazy pruning. What the signed bytes determine is in module SignedBytes, how
 * often a revoke is applied in module Replay.
 *
 * Times are nanoseconds on one non-decreasing clock. The hash and the signature
 * check are uninterpreted functions; nothing is assumed of them except where a
 * lemma says so.
 */
module Revoke {
  import opened NodeId
  import opened Options
  import opened Text
  import opened Storage

  const SECOND: int := 1_000_000_000
  const MAX_AGE: int := 24 * 3600
  const MAX_SKEW: int := 5 * 60
  const SEEN_LIMIT: nat := 1024

  datatype Payload = Payload(
    name: string, chunks: seq<string>, timestamp: int, nonce: string, pubkey: string, signature: string)

  /** SHA-256 in hex, PublicKeyFromHex succeeding, and Ed25519 verification. */
  datatype Crypto = Crypto(
    hash: string -> string, keyValid: string -> bool, verify: (string, string, string) -> bool)

  // ----- the canonical bytes and the deduplication identifier -----

  function Heading(name: string, chunks: seq<string>): string {
    "revoke\n" + Norm(name) + "\n" + JoinLines(SortStrings(Map(Norm, chunks)))
  }

  function Canonical(p: Payload): string {
    Heading(p.name, p.chunks) + "\n" + Decimal(p.timestamp) + "\n" + p.nonce
  }

  function RevokeId(c: Crypto, p: Payload): string {
    c.hash(Canonical(p))
  }

  // ----- applying a revoke -----

  datatype Node = Node(trusted: set<string>, seen: map<string, int>, blocked: set<Id>, store: Store)

  /** applyRevoke: block and delete every chunk that parses as an identifier. */
  function ApplyRevoke(n: Node, chunks: seq<string>): (r: Node)
    decreases |chunks|
  {
    if chunks == [] then n
    else match IdFromHex(chunks[0])
         case None => ApplyRevoke(n, chunks[1..])
         case Some(id) => ApplyRevoke(n.(blocked := n.blocked + {id}, store := Delete(n.store, id)), chunks[1..])
  }

  predicate Names(chunks: seq<string>, id: Id) {
    exists i :: 0 <= i < |chunks| && IdFromHex(chunks[i]) == Some(id)
  }

  /** Two lists of chunks that block the same keys. */
  ghost predicate SameNames(a: seq<string>, b: seq<string>) {
    forall id: Id :: Names(a, id) <==> Names(b, id)
  }

  lemma NamesStep(chunks: seq<string>, id: Id)
    requires chunks != []
    ensures Names(chunks, id) <==> IdFromHex(chunks[0]) == Some(id) || Names(chunks[1..], id)
  {
    if Names(chunks[1..], id) {
      var i :| 0 <= i < |chunks[1..]| && IdFromHex(chunks[1..][i]) == Some(id);
      assert IdFromHex(chunks[i + 1]) == Some(id);
    }
    if i :| 0 < i < |chunks| && IdFromHex(chunks[i]) == Some(id) {
      assert IdFromHex(chunks[1..][i - 1]) == Some(id);
    }
  }

  /** Exactly the named chunks become blocked and leave the store; everything else stays as it was. */
  lemma {:induction false} ApplyRevokeBlocks(n: Node, chunks: seq<string>, id: Id)
    ensures var r := ApplyRevoke(n, chunks);
            && (id in r.blocked <==> id in n.blocked || Names(chunks, id))
            && (id in r.store.data <==> id in n.store.data && !Names(chunks, id))
            && (id in r.store.data ==> r.store.data[id] == n.store.data[id])
            && r.seen == n.seen && r.trusted == n.trusted
    decreases |chunks|
  {
    if chunks != [] {
      NamesStep(chunks, id);
      match IdFromHex(chunks[0])
      case None => ApplyRevokeBlocks(n, chunks[1..], id);
      case Some(x) => ApplyRevokeBlocks(n.(blocked := n.blocked + {x}, store := Delete(n.store, x)), chunks[1..], id);
    }
  }

  /** Applying a revoke keeps the store's counters exact. */
  lemma {:induction false} ApplyRevokeKeepsExact(n: Node, chunks: seq<string>)
    requires Exact(n.store)
    ensures Exact(ApplyRevoke(n, chunks).store)
    decreases |chunks|
  {
    if chunks != [] {
      match IdFromHex(chunks[0])
      case None => ApplyRevokeKeepsExact(n, chunks[1..]);
      case Some(x) =>
        OthersKeepExact(n.store, x, 0, [], 0);
        ApplyRevokeKeepsExact(n.(blocked := n.blocked + {x}, store := Delete(n.store, x)), chunks[1..]);
    }
  }

  // ----- the handler -----

  /** Time in whole seconds, as time.Unix reports it. */
  function Unix(t: int): int {
    t / SECOND
  }

  lemma UnixMonotone(a: int, b: int)
    requires a <= b
    ensures Unix(a) <= Unix(b)
  {
  }

  /** Trust, age window, key and signature, in the order of the source. */
  predicate Accepts(c: Crypto, trusted: set<string>, p: Payload, check: int) {
    && Norm(p.pubkey) in trusted
    && Unix(check) - MAX_AGE <= p.timestamp <= Unix(check) + MAX_SKEW
    && c.keyValid(p.pubkey)
    && c.verify(p.pubkey, Canonical(p), p.signature)
  }

  function Prune(seen: map<string, int>, cut: int): map<string, int> {
    if |seen| > SEEN_LIMIT then map r | r in seen && seen[r] >= cut - 2 * MAX_AGE * SECOND :: seen[r] else seen
  }

  /** One received message; `check`, `insert` and `cut` are the three clock readings of the source. */
  datatype Call = Call(p: Payload, check: int, insert: int, cut: int)

  predicate Applies(c: Crypto, n: Node, call: Call) {
    Accepts(c, n.trusted, call.p, call.check) && RevokeId(c, call.p) !in n.seen
  }

  function Handle(c: Crypto, n: Node, call: Call): Node {
    if !Applies(c, n, call) then n
    else ApplyRevoke(n.(seen := Prune(n.seen[RevokeId(c, call.p) := call.insert], call.cut)), call.p.chunks)
  }

  lemma {:induction false} ApplyRevokeFrame(n: Node, chunks: seq<string>)
    ensures ApplyRevoke(n, chunks).seen == n.seen && ApplyRevoke(n, chunks).trusted == n.trusted
    ensures ApplyRevoke(n, chunks).blocked >= n.blocked
    decreases |chunks|
  {
    if chunks != [] {
      match IdFromHex(chunks[0])
      case None => ApplyRevokeFrame(n, chunks[1..]);
      case Some(x) => ApplyRevokeFrame(n.(blocked := n.blocked + {x}, store := Delete(n.store, x)), chunks[1..]);
    }
  }
}
