/**
 * How often one node applies a takedown (core/dht/revoke.go, handleRevoke): the
 * replay table remembers an identifier for 48 hours, the age check accepts a
 * timestamp for 24 hours and 5 minutes. The result is exact: two payloads with the
 * same identifier can both be applied if and only if their timestamps are far enough
 * apart for the longest delay a call may take.
 */
module Replay {
  import opened Text
  import opened Storage
  import opened Revoke
  import opened SignedBytes

  function After(c: Crypto, n: Node, calls: seq<Call>): Node
    decreases |calls|
  {
    if calls == [] then n else After(c, Handle(c, n, calls[0]), calls[1..])
  }

  /** Whether call `i` of the run applied its revoke. */
  predicate AppliedAt(c: Crypto, n: Node, calls: seq<Call>, i: nat)
    requires i < |calls|
  {
    Applies(c, After(c, n, calls[..i]), calls[i])
  }

  /**
   * The calls in the order they enter the locked section. Clock readings inside a
   * call are ordered, locked sections do not overlap, and no call takes longer
   * than `stall` from its age check to the end of its locked section.
   */
  predicate Timed(calls: seq<Call>, stall: int) {
    && (forall i :: 0 <= i < |calls| ==>
          calls[i].check <= calls[i].insert <= calls[i].cut && calls[i].cut - calls[i].check <= stall)
    && (forall i, j :: 0 <= i < j < |calls| ==> calls[i].cut <= calls[j].insert)
  }

  /** The table keeps an entry this long, in nanoseconds. */
  const KEEP: int := 2 * MAX_AGE * SECOND

  /**
   * Seconds by which the second timestamp must exceed the first for both payloads to
   * be applied: 23 h 55 min when no call is delayed, less with longer delays.
   */
  function Gap(stall: int): int {
    MAX_AGE - MAX_SKEW + Unix(1 - stall)
  }

  // ----- at most once, despite pruning -----

  /** The identifier is remembered with a stamp from `stamp` on, or `stamp` is past the pruning horizon. */
  predicate Remembered(n: Node, rid: string, stamp: int, now: int) {
    (rid in n.seen && n.seen[rid] >= stamp) || stamp < now - KEEP
  }

  lemma HandleRemembers(c: Crypto, n: Node, call: Call, rid: string, stamp: int, now: int)
    requires Remembered(n, rid, stamp, now) && stamp <= now <= call.insert <= call.cut
    ensures Remembered(Handle(c, n, call), rid, stamp, call.cut)
  {
    if Applies(c, n, call) {
      var seen := n.seen[RevokeId(c, call.p) := call.insert];
      ApplyRevokeFrame(n.(seen := Prune(seen, call.cut)), call.p.chunks);
    }
  }

  lemma AppliedIsRemembered(c: Crypto, n: Node, call: Call)
    requires Applies(c, n, call)
    ensures Remembered(Handle(c, n, call), RevokeId(c, call.p), call.insert, call.cut)
  {
    var seen := n.seen[RevokeId(c, call.p) := call.insert];
    ApplyRevokeFrame(n.(seen := Prune(seen, call.cut)), call.p.chunks);
  }

  lemma {:induction false} AfterAppend(c: Crypto, n: Node, a: seq<Call>, b: seq<Call>)
    ensures After(c, n, a + b) == After(c, After(c, n, a), b)
    decreases |a|
  {
    if a == [] {
      assert a + b == b;
    } else {
      assert (a + b)[1..] == a[1..] + b;
      AfterAppend(c, Handle(c, n, a[0]), a[1..], b);
    }
  }

  lemma AfterOneMore(c: Crypto, n: Node, calls: seq<Call>, j: nat)
    requires j < |calls|
    ensures After(c, n, calls[..j + 1]) == Handle(c, After(c, n, calls[..j]), calls[j])
  {
    assert calls[..j + 1] == calls[..j] + [calls[j]];
    AfterAppend(c, n, calls[..j], [calls[j]]);
    assert [calls[j]][1..] == [];
  }

  lemma AppliedThenRemembered(c: Crypto, n: Node, calls: seq<Call>, stall: int, i: nat, j: nat)
    requires Timed(calls, stall) && i < j <= |calls| && AppliedAt(c, n, calls, i)
    ensures Remembered(After(c, n, calls[..j]), RevokeId(c, calls[i].p), calls[i].insert, calls[j - 1].cut)
    decreases j
  {
    AfterOneMore(c, n, calls, j - 1);
    var m := After(c, n, calls[..j - 1]);
    if i == j - 1 {
      AppliedIsRemembered(c, m, calls[i]);
    } else {
      AppliedThenRemembered(c, n, calls, stall, i, j - 1);
      HandleRemembers(c, m, calls[j - 1], RevokeId(c, calls[i].p), calls[i].insert, calls[j - 2].cut);
    }
  }

  lemma WholeSeconds(k: int, x: int)
    ensures Unix(k * SECOND + x) == k + Unix(x)
  {
  }

  /** A call that comes after the table forgot, and is still accepted, carries a timestamp at least the gap later. */
  lemma ForgottenIsLate(earlier: int, later: int, first: int, check: int, insert: int, cut: int, stall: int)
    requires earlier <= Unix(first) + MAX_SKEW
    requires first < insert - KEEP && insert <= cut && cut - check <= stall
    requires Unix(check) - MAX_AGE <= later
    ensures later - earlier >= Gap(stall)
  {
    var whole := earlier - MAX_SKEW + 2 * MAX_AGE;
    assert first >= (earlier - MAX_SKEW) * SECOND;
    assert check >= whole * SECOND + (1 - stall);
    UnixMonotone(whole * SECOND + (1 - stall), check);
    WholeSeconds(whole, 1 - stall);
  }

  /**
   * At most once: in any run whose calls are delayed by at most `stall`, two payloads
   * with the same identifier are not both applied, however often the table was pruned
   * in between, as long as the second timestamp is less than the gap after the first.
   */
  lemma AtMostOnce(c: Crypto, n: Node, calls: seq<Call>, stall: int, i: nat, j: nat)
    requires Timed(calls, stall) && i < j < |calls|
    requires RevokeId(c, calls[i].p) == RevokeId(c, calls[j].p)
    requires calls[j].p.timestamp - calls[i].p.timestamp < Gap(stall)
    ensures !(AppliedAt(c, n, calls, i) && AppliedAt(c, n, calls, j))
  {
    if AppliedAt(c, n, calls, i) && AppliedAt(c, n, calls, j) {
      AppliedThenRemembered(c, n, calls, stall, i, j);
      var a, b := calls[i], calls[j];
      UnixMonotone(a.check, a.insert);
      ForgottenIsLate(a.p.timestamp, b.p.timestamp, a.insert, b.check, b.insert, b.cut, stall);
    }
  }

  /** 23 h 54 min 59 s and one nanosecond: the largest delay under which one timestamp is not accepted twice. */
  const MAX_STALL: int := (MAX_AGE - MAX_SKEW - 1) * SECOND + 1

  lemma GapPositiveIff(stall: int)
    ensures Gap(stall) > 0 <==> stall <= MAX_STALL
  {
  }

  /** With one-line nonces and no hash collision between the two, the identifier alone decides. */
  lemma AtMostOncePerId(c: Crypto, n: Node, calls: seq<Call>, i: nat, j: nat)
    requires Timed(calls, MAX_STALL) && i < j < |calls|
    requires OneLine(calls[i].p.nonce) && OneLine(calls[j].p.nonce)
    requires c.hash(Canonical(calls[i].p)) == c.hash(Canonical(calls[j].p)) ==>
             Canonical(calls[i].p) == Canonical(calls[j].p)
    requires RevokeId(c, calls[i].p) == RevokeId(c, calls[j].p)
    ensures !(AppliedAt(c, n, calls, i) && AppliedAt(c, n, calls, j))
  {
    CanonicalSplits(calls[i].p, calls[j].p);
    GapPositiveIff(MAX_STALL);
    AtMostOnce(c, n, calls, MAX_STALL, i, j);
  }

  // ----- and from the gap on, a run that applies both -----

  /** Trusting functions: every signature verifies and the hash keeps its input. */
  const OPEN: Crypto := Crypto(s => s, _ => true, (_, _, _) => true)

  /** Other revokes that fill the table: their nonces make them longer than `rid`. */
  function Filler(rid: string, pubkey: string, at: int, k: nat): Payload {
    Payload("x", [], Unix(at), rid + DecimalNat(k), pubkey, "")
  }

  function FillerCalls(rid: string, pubkey: string, at: int, k: nat): seq<Call>
    requires k <= SEEN_LIMIT
  {
    seq(SEEN_LIMIT - k, i requires 0 <= i => Call(Filler(rid, pubkey, at, k + i), at, at, at))
  }

  lemma SameFront(front: string, x: string, y: string)
    requires front + x == front + y
    ensures x == y
  {
    assert x == (front + x)[|front|..] && y == (front + y)[|front|..];
  }

  lemma FillersDiffer(rid: string, pubkey: string, at: int, j: nat, k: nat)
    requires Canonical(Filler(rid, pubkey, at, j)) == Canonical(Filler(rid, pubkey, at, k))
    ensures j == k
  {
    var front := Heading("x", []) + "\n" + Decimal(Unix(at)) + "\n";
    SameFront(front, rid + DecimalNat(j), rid + DecimalNat(k));
    SameFront(rid, DecimalNat(j), DecimalNat(k));
    DecimalNatInjective(j, k);
  }

  lemma FillerIsLonger(rid: string, pubkey: string, at: int, k: nat)
    ensures Canonical(Filler(rid, pubkey, at, k)) != rid
  {
    assert |Canonical(Filler(rid, pubkey, at, k))| > |rid|;
  }

  /** The table holds `rid`, stamped too long ago for time `at`, and `k` fillers. */
  ghost predicate Packed(n: Node, rid: string, pubkey: string, at: int, k: nat) {
    && Norm(pubkey) in n.trusted
    && rid in n.seen && n.seen[rid] < at - KEEP
    && |n.seen| == k + 1
    && forall j: nat :: j >= k ==> Canonical(Filler(rid, pubkey, at, j)) !in n.seen
  }

  lemma FillerStep(n: Node, rid: string, pubkey: string, at: int, k: nat)
    requires Packed(n, rid, pubkey, at, k) && k < SEEN_LIMIT
    ensures var r := Handle(OPEN, n, Call(Filler(rid, pubkey, at, k), at, at, at));
            r.trusted == n.trusted && if k + 1 < SEEN_LIMIT then Packed(r, rid, pubkey, at, k + 1) else rid !in r.seen
  {
    var id := Canonical(Filler(rid, pubkey, at, k));
    var call := Call(Filler(rid, pubkey, at, k), at, at, at);
    assert Applies(OPEN, n, call);
    var seen := n.seen[id := at];
    assert seen.Keys == n.seen.Keys + {id};
    ApplyRevokeFrame(n.(seen := Prune(seen, at)), []);
    FillerIsLonger(rid, pubkey, at, k);
    if k + 1 < SEEN_LIMIT {
      forall j: nat | j >= k + 1 ensures Canonical(Filler(rid, pubkey, at, j)) !in seen {
        if Canonical(Filler(rid, pubkey, at, j)) == id { FillersDiffer(rid, pubkey, at, j, k); }
      }
    }
  }

  lemma {:induction false} FillUp(n: Node, rid: string, pubkey: string, at: int, k: nat)
    requires Packed(n, rid, pubkey, at, k) && k < SEEN_LIMIT
    ensures var r := After(OPEN, n, FillerCalls(rid, pubkey, at, k)); r.trusted == n.trusted && rid !in r.seen
    decreases SEEN_LIMIT - k
  {
    FillerStep(n, rid, pubkey, at, k);
    var calls := FillerCalls(rid, pubkey, at, k);
    assert calls[0] == Call(Filler(rid, pubkey, at, k), at, at, at);
    assert calls[1..] == FillerCalls(rid, pubkey, at, k + 1);
    if k + 1 < SEEN_LIMIT { FillUp(Handle(OPEN, n, calls[0]), rid, pubkey, at, k + 1); }
  }

  /** The first payload as early as it is accepted. */
  function FirstCall(p: Payload): Call {
    var t := (p.timestamp - MAX_SKEW) * SECOND;
    Call(p, t, t, t)
  }

  /** The second one checked as early as the table may have forgotten the first, and delayed as long as allowed. */
  function LastCheck(p: Payload, q: Payload, stall: int): int {
    var early, own := FirstCall(p).insert + KEEP + 1 - stall, (q.timestamp - MAX_SKEW) * SECOND;
    if early < own then own else early
  }

  function LastCall(p: Payload, q: Payload, stall: int): Call {
    var check := LastCheck(p, q, stall);
    Call(q, check, check + stall, check + stall)
  }

  function LateRun(p: Payload, q: Payload, stall: int): seq<Call> {
    [FirstCall(p)] + FillerCalls(Canonical(p), p.pubkey, LastCall(p, q, stall).cut, 0) + [LastCall(p, q, stall)]
  }

  lemma LateRunAt(p: Payload, q: Payload, stall: int, i: nat)
    requires i < |LateRun(p, q, stall)|
    ensures var call, at := LateRun(p, q, stall)[i], LastCall(p, q, stall).cut;
            && (i == 0 ==> call == FirstCall(p))
            && (0 < i < |LateRun(p, q, stall)| - 1 ==> call.check == call.insert == call.cut == at)
            && (i == |LateRun(p, q, stall)| - 1 ==> call == LastCall(p, q, stall))
  {
    var fillers := FillerCalls(Canonical(p), p.pubkey, LastCall(p, q, stall).cut, 0);
    if 0 < i < |LateRun(p, q, stall)| - 1 { assert LateRun(p, q, stall)[i] == fillers[i - 1]; }
  }

  lemma LateRunTimed(p: Payload, q: Payload, stall: nat)
    ensures Timed(LateRun(p, q, stall), stall)
  {
    var calls := LateRun(p, q, stall);
    forall i | 0 <= i < |calls|
      ensures calls[i].check <= calls[i].insert <= calls[i].cut && calls[i].cut - calls[i].check <= stall
    {
      LateRunAt(p, q, stall, i);
    }
    forall i, j | 0 <= i < j < |calls| ensures calls[i].cut <= calls[j].insert {
      LateRunAt(p, q, stall, i);
      LateRunAt(p, q, stall, j);
    }
  }

  /** The node that trusts both signers and has seen nothing. */
  function Listening(p: Payload, q: Payload): Node {
    Node({Norm(p.pubkey), Norm(q.pubkey)}, map[], {}, Empty(0, 0))
  }

  lemma FirstApplies(p: Payload, q: Payload, stall: nat)
    ensures Applies(OPEN, Listening(p, q), FirstCall(p))
    ensures var r := Handle(OPEN, Listening(p, q), FirstCall(p));
            r.trusted == Listening(p, q).trusted && Packed(r, Canonical(p), p.pubkey, LastCall(p, q, stall).cut, 0)
  {
    var n, call, rid, at := Listening(p, q), FirstCall(p), Canonical(p), LastCall(p, q, stall).cut;
    WholeSeconds(p.timestamp - MAX_SKEW, 0);
    assert Unix(call.check) == p.timestamp - MAX_SKEW;
    var seen := n.seen[rid := call.insert];
    assert seen.Keys == {rid};
    ApplyRevokeFrame(n.(seen := Prune(seen, call.cut)), p.chunks);
    forall j: nat ensures Canonical(Filler(rid, p.pubkey, at, j)) !in seen { FillerIsLonger(rid, p.pubkey, at, j); }
  }

  lemma LastIsAccepted(p: Payload, q: Payload, stall: nat)
    requires q.timestamp - p.timestamp >= Gap(stall)
    ensures var t := Unix(LastCall(p, q, stall).check); t - MAX_AGE <= q.timestamp <= t + MAX_SKEW
  {
    var whole := p.timestamp - MAX_SKEW + 2 * MAX_AGE;
    assert FirstCall(p).insert + KEEP + 1 - stall == whole * SECOND + (1 - stall);
    WholeSeconds(whole, 1 - stall);
    WholeSeconds(q.timestamp - MAX_SKEW, 0);
    UnixMonotone((q.timestamp - MAX_SKEW) * SECOND, LastCheck(p, q, stall));
  }

  /** Both calls are applied, the first before the second. */
  ghost predicate BothApplied(n: Node, calls: seq<Call>, i: nat, j: nat, p: Payload, q: Payload, stall: int) {
    && Timed(calls, stall) && i < j < |calls| && calls[i].p == p && calls[j].p == q
    && AppliedAt(OPEN, n, calls, i) && AppliedAt(OPEN, n, calls, j)
  }

  /** After the first call and the fillers the table has forgotten the identifier. */
  lemma Forgotten(p: Payload, q: Payload, stall: nat)
    ensures var fillers := FillerCalls(Canonical(p), p.pubkey, LastCall(p, q, stall).cut, 0);
            var m := After(OPEN, Listening(p, q), [FirstCall(p)] + fillers);
            m.trusted == Listening(p, q).trusted && Canonical(p) !in m.seen
  {
    var n, fillers := Listening(p, q), FillerCalls(Canonical(p), p.pubkey, LastCall(p, q, stall).cut, 0);
    FirstApplies(p, q, stall);
    FillUp(Handle(OPEN, n, FirstCall(p)), Canonical(p), p.pubkey, LastCall(p, q, stall).cut, 0);
    assert ([FirstCall(p)] + fillers)[1..] == fillers;
  }

  lemma FrontOf(front: seq<Call>, last: Call)
    ensures (front + [last])[..|front|] == front
  {
  }

  lemma LateRunAppliesBoth(p: Payload, q: Payload, stall: nat)
    requires Canonical(p) == Canonical(q) && q.timestamp - p.timestamp >= Gap(stall)
    ensures var calls := LateRun(p, q, stall);
            BothApplied(Listening(p, q), calls, 0, |calls| - 1, p, q, stall)
  {
    var calls := LateRun(p, q, stall);
    var last, fillers := |calls| - 1, FillerCalls(Canonical(p), p.pubkey, LastCall(p, q, stall).cut, 0);
    LateRunTimed(p, q, stall);
    LateRunAt(p, q, stall, 0);
    LateRunAt(p, q, stall, last);
    FirstApplies(p, q, stall);
    assert calls[..0] == [];
    FrontOf([FirstCall(p)] + fillers, LastCall(p, q, stall));
    Forgotten(p, q, stall);
    LastIsAccepted(p, q, stall);
  }

  ghost predicate CanApplyBoth(p: Payload, q: Payload, stall: int) {
    exists n, calls, i, j :: BothApplied(n, calls, i, j, p, q, stall)
  }

  /**
   * Exactly when one identifier is applied twice: two payloads with the same signed
   * bytes, all signatures good and no call delayed by more than `stall`, can both be
   * applied, in this order, if and only if the timestamps are the gap apart.
   */
  lemma AppliedTwiceIff(p: Payload, q: Payload, stall: nat)
    requires Canonical(p) == Canonical(q)
    ensures CanApplyBoth(p, q, stall) <==> q.timestamp - p.timestamp >= Gap(stall)
  {
    if q.timestamp - p.timestamp >= Gap(stall) {
      LateRunAppliesBoth(p, q, stall);
    } else if CanApplyBoth(p, q, stall) {
      var n, calls, i, j :| BothApplied(n, calls, i, j, p, q, stall);
      AtMostOnce(OPEN, n, calls, stall, i, j);
    }
  }

  /** So one and the same payload is applied twice in some run if and only if calls may be delayed by more than MAX_STALL. */
  lemma StallLimitIsExact(p: Payload, stall: nat)
    ensures CanApplyBoth(p, p, stall) <==> stall > MAX_STALL
  {
    AppliedTwiceIff(p, p, stall);
    GapPositiveIff(stall);
  }

  /** And a nonce of two lines lets one identifier be applied twice without any delay, for all timestamps 23 h 55 min apart. */
  lemma NewlineNonceAppliesTwice(p: Payload, q: Payload, rest: string)
    requires p.chunks == [] && p.nonce == Decimal(q.timestamp) + "\n" + rest
    requires q.name == p.name && q.chunks == ["", Decimal(p.timestamp)] && q.nonce == rest
    requires q.timestamp - p.timestamp >= MAX_AGE - MAX_SKEW
    ensures Canonical(p) == Canonical(q) && CanApplyBoth(p, q, 0)
  {
    NewlineNonceIsAmbiguous(p, q, rest);
    AppliedTwiceIff(p, q, 0);
  }
}
