/**
 * The connection object of core/secure/secure.go, its key schedule, and the HKDF
 * loop. The two ends of a direction share a wire; each end updates its own
 * counter. Methods are proved to follow the functions of module Secure.
 */
module SecureConn {
  import opened NodeId
  import opened Options
  import opened Secure

  class Wire {
    var bytes: Bytes

    constructor ()
      ensures bytes == []
    {
      bytes := [];
    }
  }

  class Conn {
    const aead: Aead
    const sendKey: Bytes
    const recvKey: Bytes
    var sendCount: nat
    var recvCount: nat
    var readBuf: Bytes

    constructor (aead: Aead, sendKey: Bytes, recvKey: Bytes)
      ensures this.aead == aead && this.sendKey == sendKey && this.recvKey == recvKey
      ensures sendCount == 0 && recvCount == 0 && readBuf == []
    {
      this.aead, this.sendKey, this.recvKey := aead, sendKey, recvKey;
      sendCount, recvCount, readBuf := 0, 0, [];
    }

    /** This end's view of the wire it writes to, or of the one it reads from. */
    ghost function View(wire: Wire): Pipe
      reads this, wire
    {
      Pipe(sendCount, recvCount, wire.bytes, readBuf)
    }

    method Write(wire: Wire, p: Bytes) returns (ok: bool)
      modifies `sendCount, wire
      ensures (View(wire), ok) == Secure.Write(aead, sendKey, old(View(wire)), p)
    {
      var nonce := NonceFor(sendCount);
      sendCount := (sendCount + 1) % WRAP;
      var ct := aead.seal(sendKey, nonce, p);
      if |ct| > MAX_FRAME { return false; }
      wire.bytes := wire.bytes + (Encode(|ct|, 4) + ct);
      return true;
    }

    method ReadNextFrame(wire: Wire) returns (status: Status)
      modifies `recvCount, `readBuf, wire
      ensures (View(wire), status) == NextFrame(aead, recvKey, old(View(wire)))
    {
      if |wire.bytes| < 4 { return Blocked; }
      var size := Decode(wire.bytes[..4]);
      if size == 0 || size > MAX_FRAME {
        wire.bytes := wire.bytes[4..];
        return InvalidSize;
      }
      if |wire.bytes| < 4 + size { return Blocked; }
      var ct := wire.bytes[4..4 + size];
      wire.bytes := wire.bytes[4 + size..];
      var nonce := NonceFor(recvCount);
      recvCount := (recvCount + 1) % WRAP;
      var pt := aead.open(recvKey, nonce, ct);
      if pt.None? { return DecryptFailed; }
      readBuf := readBuf + pt.value;
      return Data;
    }

    method Read(wire: Wire, n: nat) returns (data: Bytes, status: Status)
      modifies `recvCount, `readBuf, wire
      ensures (View(wire), data, status) == Secure.Read(aead, recvKey, old(View(wire)), n)
    {
      if readBuf == [] {
        var got := ReadNextFrame(wire);
        if got != Data { return [], got; }
      }
      if readBuf == [] { return [], if n == 0 then Data else Eof; }
      var k := if n < |readBuf| then n else |readBuf|;
      data := readBuf[..k];
      readBuf := readBuf[k..];
      return data, Data;
    }
  }

  // ----- one direction, from one end to the other -----

  /** The pipe of a direction: the counter of the end that writes, the counter and buffer of the end that reads. */
  ghost function Between(from: Conn, to: Conn, wire: Wire): Pipe
    reads from, to, wire
  {
    Pipe(from.sendCount, to.recvCount, wire.bytes, to.readBuf)
  }

  lemma AcceptedIffFits(a: Aead, key: Bytes, s: Pipe, p: Bytes)
    requires Correct(a)
    ensures Secure.Write(a, key, s, p).1 <==> Fits(p)
  {
  }

  /** One operation at the end it belongs to: the bytes a write put in, the bytes a read got. */
  method Operate(from: Conn, to: Conn, wire: Wire, op: Op, ghost h: History) returns (added: Bytes, got: Bytes, ghost g: History)
    requires from.aead == to.aead && from.sendKey == to.recvKey && Correct(from.aead)
    modifies from`sendCount, to`recvCount, to`readBuf, wire
    ensures Between(from, to, wire) == Do(from.aead, from.sendKey, old(Between(from, to, wire)), op)
    ensures g == Record(from.aead, from.sendKey, old(Between(from, to, wire)), h, op)
    ensures g.written == h.written + added && g.read == h.read + got
  {
    added, got := [], [];
    g := Record(from.aead, from.sendKey, Between(from, to, wire), h, op);
    match op {
      case WriteOp(p) =>
        AcceptedIffFits(from.aead, from.sendKey, Between(from, to, wire), p);
        var ok := from.Write(wire, p);
        if ok { added := p; }
      case ReadOp(n) =>
        var status;
        got, status := to.Read(wire, n);
    }
  }

  /** The operations done so far, as a run of the pipe. */
  ghost predicate Ran(a: Aead, key: Bytes, ops: seq<Op>, s: Pipe, h: History) {
    Run(a, key, NEW_PIPE, NO_HISTORY, ops) == (s, h)
  }

  lemma RanOneMore(a: Aead, key: Bytes, ops: seq<Op>, i: nat, s: Pipe, h: History)
    requires i < |ops| && Ran(a, key, ops[..i], s, h)
    ensures Ran(a, key, ops[..i + 1], Do(a, key, s, ops[i]), Record(a, key, s, h, ops[i]))
  {
    RunSnoc(a, key, NEW_PIPE, NO_HISTORY, ops[..i], ops[i]);
    assert ops[..i + 1] == ops[..i] + [ops[i]];
  }

  /**
   * Any operations on a new direction between two ends: what the one end read is a
   * prefix of what the other had accepted, and all of it once nothing is under way,
   * if no write was over the limit.
   */
  method Exchange(from: Conn, to: Conn, wire: Wire, ops: seq<Op>) returns (written: Bytes, read: Bytes)
    requires from.aead == to.aead && from.sendKey == to.recvKey && Correct(from.aead) && Authentic(from.aead)
    requires Between(from, to, wire) == NEW_PIPE && |ops| < WRAP
    modifies from`sendCount, to`recvCount, to`readBuf, wire
    ensures read <= written
    ensures (forall i :: 0 <= i < |ops| ==> Ordered(ops[i])) && wire.bytes == [] && to.readBuf == [] ==> read == written
  {
    written, read := [], [];
    ghost var h := NO_HISTORY;
    for i := 0 to |ops|
      invariant Ran(from.aead, from.sendKey, ops[..i], Between(from, to, wire), h)
      invariant h.written == written && h.read == read
    {
      RanOneMore(from.aead, from.sendKey, ops, i, Between(from, to, wire), h);
      var added, got;
      added, got, h := Operate(from, to, wire, ops[i], h);
      written, read := written + added, read + got;
    }
    assert ops[..|ops|] == ops;
    RunMeans(from.aead, from.sendKey, ops, Between(from, to, wire), h);
  }

  lemma RunMeans(a: Aead, key: Bytes, ops: seq<Op>, s: Pipe, h: History)
    requires Correct(a) && Authentic(a) && |ops| < WRAP && Ran(a, key, ops, s, h)
    ensures h.read <= h.written
    ensures (forall i :: 0 <= i < |ops| ==> Ordered(ops[i])) ==> StreamOk(s, h)
  {
    AlwaysPrefix(a, key, ops);
    if forall i :: 0 <= i < |ops| ==> Ordered(ops[i]) { StreamIsPrefix(a, key, ops); }
  }

  // ----- HKDF over HMAC-SHA256 -----

  const HASH_SIZE: nat := 32

  type Hmac = (Bytes, Bytes) -> Bytes

  ghost predicate HashSized(hmac: Hmac) {
    forall k, m :: |hmac(k, m)| == HASH_SIZE
  }

  /** T(i) of section 2.3 of RFC 5869: T(0) is empty, T(i) = HMAC(PRK, T(i-1) | info | i). */
  function T(hmac: Hmac, prk: Bytes, info: Bytes, i: nat): Bytes
    requires i < 256
  {
    if i == 0 then [] else hmac(prk, T(hmac, prk, info, i - 1) + info + [i])
  }

  /** T(1) | T(2) | ... | T(n). */
  function Output(hmac: Hmac, prk: Bytes, info: Bytes, n: nat): Bytes
    requires n < 256
  {
    if n == 0 then [] else Output(hmac, prk, info, n - 1) + T(hmac, prk, info, n)
  }

  lemma {:induction false} OutputLength(hmac: Hmac, prk: Bytes, info: Bytes, n: nat)
    requires HashSized(hmac) && n < 256
    ensures |Output(hmac, prk, info, n)| == HASH_SIZE * n
  {
    if n > 0 { OutputLength(hmac, prk, info, n - 1); }
  }

  /** N = ceil(L / HashLen), as the RFC has it. */
  function Blocks(outLen: nat): nat {
    (outLen + HASH_SIZE - 1) / HASH_SIZE
  }

  /** Extract with the salt, or with HashLen zeros when none is given. */
  function Extract(hmac: Hmac, ikm: Bytes, salt: Option<Bytes>): Bytes {
    hmac(if salt.None? then seq(HASH_SIZE, _ => 0) else salt.value, ikm)
  }

  /** OKM: the first L octets of T(1) | ... | T(N), for L up to 255 blocks. */
  function Rfc5869(hmac: Hmac, ikm: Bytes, salt: Option<Bytes>, info: Bytes, outLen: nat): (okm: Bytes)
    requires HashSized(hmac) && outLen <= 255 * HASH_SIZE
    ensures |okm| == outLen
  {
    var prk := Extract(hmac, ikm, salt);
    OutputLength(hmac, prk, info, Blocks(outLen));
    Output(hmac, prk, info, Blocks(outLen))[..outLen]
  }

  /** The loop of the source, with its counter byte, computes the RFC's output. */
  method Hkdf(hmac: Hmac, ikm: Bytes, salt: Option<Bytes>, info: Bytes, outLen: nat) returns (okm: Bytes)
    requires HashSized(hmac) && outLen <= 255 * HASH_SIZE
    ensures okm == Rfc5869(hmac, ikm, salt, info, outLen)
  {
    var prk := Extract(hmac, ikm, salt);
    var out: Bytes, prev: Bytes, i: Byte := [], [], 1;
    ghost var n := 0;
    while |out| < outLen
      invariant n < 256 && i == (n + 1) % 256 && |out| == HASH_SIZE * n && n <= Blocks(outLen)
      invariant out == Output(hmac, prk, info, n) && prev == T(hmac, prk, info, n)
      decreases outLen - |out|
    {
      n := n + 1;
      prev := hmac(prk, prev + info + [i]);
      out := out + prev;
      i := (i + 1) % 256;
    }
    assert n == Blocks(outLen);
    okm := out[..outLen];
  }

  // ----- the keys both ends derive -----

  /** X25519: public keys from private ones, and the shared secret. */
  datatype Curve = Curve(public: Bytes -> Bytes, shared: (Bytes, Bytes) -> Option<Bytes>)

  ghost predicate Agrees(c: Curve) {
    forall a, b :: c.shared(a, c.public(b)) == c.shared(b, c.public(a))
  }

  datatype Keys = Keys(send: Bytes, recv: Bytes)

  const LABEL: Bytes := [97, 108, 116, 110, 101, 116, 45, 97, 101, 97, 100, 45, 118, 49] // "altnet-aead-v1"

  /** finishHandshake: ephemeral private key, the remote's ephemeral public key, and our role. */
  function FinishHandshake(c: Curve, hmac: Hmac, mine: Bytes, theirs: Bytes, initiator: bool): Option<Keys>
    requires HashSized(hmac)
  {
    match c.shared(mine, theirs)
    case None => None
    case Some(secret) =>
      var my := c.public(mine);
      var transcript := if initiator then my + theirs else theirs + my;
      var keys := Rfc5869(hmac, secret, Some(transcript), LABEL, 64);
      if initiator then Some(Keys(keys[..32], keys[32..64])) else Some(Keys(keys[32..64], keys[..32]))
  }

  /** After a handshake each end sends with the key the other receives with; both succeed or both fail. */
  lemma HandshakeAgrees(c: Curve, hmac: Hmac, a: Bytes, b: Bytes)
    requires HashSized(hmac) && Agrees(c)
    ensures var i := FinishHandshake(c, hmac, a, c.public(b), true);
            var r := FinishHandshake(c, hmac, b, c.public(a), false);
            if i.None? then r.None? else r.Some? && i.value.send == r.value.recv && i.value.recv == r.value.send
  {
    assert c.shared(a, c.public(b)) == c.shared(b, c.public(a));
  }

  /**
   * The keys themselves: with the RFC's 64 octets for the shared secret, the two public
   * keys initiator first as salt, and the label, the first half is the key from the
   * initiator to the responder and the second half the one back, at both ends.
   */
  lemma HandshakeKeys(c: Curve, hmac: Hmac, a: Bytes, b: Bytes, secret: Bytes)
    requires HashSized(hmac) && Agrees(c) && c.shared(a, c.public(b)) == Some(secret)
    ensures var okm := Rfc5869(hmac, secret, Some(c.public(a) + c.public(b)), LABEL, 64);
            var i := FinishHandshake(c, hmac, a, c.public(b), true);
            var r := FinishHandshake(c, hmac, b, c.public(a), false);
            && i.Some? && r.Some?
            && i.value.send + i.value.recv == okm && r.value.recv + r.value.send == okm
            && |i.value.send| == |i.value.recv| == |r.value.send| == |r.value.recv| == 32
  {
    assert c.shared(b, c.public(a)) == Some(secret);
    var okm := Rfc5869(hmac, secret, Some(c.public(a) + c.public(b)), LABEL, 64);
    assert okm[..32] + okm[32..64] == okm;
  }

  /** A write of a session: which end made it, and how many it had made before. */
  datatype Nth = Nth(byInitiator: bool, serial: nat)

  /** Two writes are sealed under the same key and nonce. */
  predicate ShareKeyAndNonce(i: Keys, r: Keys, x: Nth, y: Nth) {
    && (if x.byInitiator then i else r).send == (if y.byInitiator then i else r).send
    && NonceFor(Counter(x.serial)) == NonceFor(Counter(y.serial))
  }

  /** No two of the first 2^64 writes of each end share key and nonce. */
  ghost predicate NeverShare(i: Keys, r: Keys) {
    forall x: Nth, y: Nth :: x.serial < WRAP && y.serial < WRAP && ShareKeyAndNonce(i, r, x, y) ==> x == y
  }

  lemma ShareIsSame(i: Keys, r: Keys, x: Nth, y: Nth)
    requires i.send != r.send && x.serial < WRAP && y.serial < WRAP && ShareKeyAndNonce(i, r, x, y)
    ensures x == y
  {
    assert Counter(x.serial) == x.serial && Counter(y.serial) == y.serial;
    NonceInjective(x.serial, y.serial);
  }

  lemma NeverShareIff(i: Keys, r: Keys)
    ensures NeverShare(i, r) <==> i.send != r.send
  {
    if i.send != r.send {
      forall x: Nth, y: Nth | x.serial < WRAP && y.serial < WRAP && ShareKeyAndNonce(i, r, x, y) ensures x == y {
        ShareIsSame(i, r, x, y);
      }
    } else {
      assert ShareKeyAndNonce(i, r, Nth(true, 0), Nth(false, 0));
    }
  }

  lemma Halves(x: Bytes, y: Bytes, okm: Bytes)
    requires x + y == okm && |x| == 32
    ensures okm[..32] == x && okm[32..] == y
  {
  }

  /** Key and nonce never repeat in a session if and only if the two halves of the derived octets differ. */
  lemma KeyAndNonceOnceIff(c: Curve, hmac: Hmac, a: Bytes, b: Bytes, secret: Bytes)
    requires HashSized(hmac) && Agrees(c) && c.shared(a, c.public(b)) == Some(secret)
    ensures var okm := Rfc5869(hmac, secret, Some(c.public(a) + c.public(b)), LABEL, 64);
            var i := FinishHandshake(c, hmac, a, c.public(b), true);
            var r := FinishHandshake(c, hmac, b, c.public(a), false);
            i.Some? && r.Some? && (NeverShare(i.value, r.value) <==> okm[..32] != okm[32..])
  {
    HandshakeKeys(c, hmac, a, b, secret);
    var okm := Rfc5869(hmac, secret, Some(c.public(a) + c.public(b)), LABEL, 64);
    var i := FinishHandshake(c, hmac, a, c.public(b), true).value;
    var r := FinishHandshake(c, hmac, b, c.public(a), false).value;
    Halves(i.send, i.recv, okm);
    Halves(r.recv, r.send, okm);
    NeverShareIff(i, r);
  }
}
