/**
 * The encrypted stream (core/secure/secure.go): length-prefixed AEAD frames with
 * one counter nonce per frame, over a reliable byte wire.
 *
 * AES-GCM is a pair of uninterpreted functions; a lemma names the law it needs.
 * Counters are uint64 and wrap. A read that finds no complete frame on the wire
 * blocks, which the model reports as such without changing anything.
 */
module Secure {
  import opened NodeId
  import opened Options

  const WRAP: nat := 0x1_0000_0000_0000_0000
  const MAX_FRAME: nat := 0x10_0000 + 64
  const TAG: nat := 16
  const NONCE: nat := 12

  datatype Aead = Aead(seal: (Bytes, Bytes, Bytes) -> Bytes, open: (Bytes, Bytes, Bytes) -> Option<Bytes>)

  /** Opening under the sealing key and nonce returns the text; a frame is a tag longer than its text. */
  ghost predicate Correct(a: Aead) {
    forall k, n, p :: |a.seal(k, n, p)| == |p| + TAG && a.open(k, n, a.seal(k, n, p)) == Some(p)
  }

  /** A frame sealed under one nonce does not open under another. */
  ghost predicate Authentic(a: Aead) {
    forall k, n, m, p :: |n| == NONCE && |m| == NONCE && n != m ==> a.open(k, m, a.seal(k, n, p)) == None
  }

  /** The two laws can hold together: a tag that spells out the nonce satisfies them. */
  lemma LawsAreConsistent()
    ensures exists a :: Correct(a) && Authentic(a)
  {
    var tag := (n: Bytes) => if |n| == NONCE then n + [0, 0, 0, 0] else seq(TAG, _ => 0);
    var a := Aead(
      (k, n, p) => p + tag(n),
      (k, n, c) => if |c| >= TAG && c[|c| - TAG..] == tag(n) then Some(c[..|c| - TAG]) else None);
    forall k, n, p ensures |a.seal(k, n, p)| == |p| + TAG && a.open(k, n, a.seal(k, n, p)) == Some(p) {
      var c := p + tag(n);
      assert c[|c| - TAG..] == tag(n) && c[..|c| - TAG] == p;
    }
    forall k, n, m, p | |n| == NONCE && |m| == NONCE && n != m ensures a.open(k, m, a.seal(k, n, p)) == None {
      var c := p + tag(n);
      assert c[|c| - TAG..] == tag(n);
      assert tag(n)[..NONCE] == n && tag(m)[..NONCE] == m;
    }
    assert Correct(a);
    assert Authentic(a);
  }

  // ----- binary.BigEndian -----

  function Encode(v: nat, n: nat): (s: Bytes)
    ensures |s| == n
  {
    if n == 0 then [] else Encode(v / 256, n - 1) + [v % 256]
  }

  function Decode(s: Bytes): nat {
    if s == [] then 0 else 256 * Decode(s[..|s| - 1]) + s[|s| - 1]
  }

  function Power(n: nat): nat {
    if n == 0 then 1 else 256 * Power(n - 1)
  }

  lemma {:induction false} DecodeEncode(v: nat, n: nat)
    requires v < Power(n)
    ensures Decode(Encode(v, n)) == v
  {
    if n > 0 {
      DecodeEncode(v / 256, n - 1);
      assert Encode(v, n)[..n - 1] == Encode(v / 256, n - 1);
    }
  }

  lemma Powers()
    ensures Power(4) == 0x1_0000_0000 && Power(8) == WRAP
  {
    assert Power(4) == 0x1_0000_0000;
    assert Power(8) == 256 * Power(7) == 65536 * Power(6) == 16777216 * Power(5) == 0x1_0000_0000 * Power(4);
  }

  /** nonceFor: four zero bytes and the counter. */
  function NonceFor(counter: nat): (n: Bytes)
    ensures |n| == NONCE
  {
    [0, 0, 0, 0] + Encode(counter, 8)
  }

  /** Different counters give different nonces. */
  lemma NonceInjective(c: nat, d: nat)
    requires c < WRAP && d < WRAP
    ensures NonceFor(c) == NonceFor(d) <==> c == d
  {
    Powers();
    DecodeEncode(c, 8);
    DecodeEncode(d, 8);
    assert NonceFor(c)[4..] == Encode(c, 8) && NonceFor(d)[4..] == Encode(d, 8);
  }

  // ----- frames -----

  function Frame(ct: Bytes): Bytes {
    Encode(|ct|, 4) + ct
  }

  datatype Parsed = Short | BadSize(rest: Bytes) | Got(ct: Bytes, rest: Bytes)

  /** The reads of readNextFrame: four length bytes, then that many more. */
  function ParseFrame(wire: Bytes): Parsed {
    if |wire| < 4 then Short
    else
      var size := Decode(wire[..4]);
      if size == 0 || size > MAX_FRAME then BadSize(wire[4..])
      else if |wire| < 4 + size then Short
      else Got(wire[4..4 + size], wire[4 + size..])
  }

  lemma ParseOfFrame(ct: Bytes, rest: Bytes)
    requires 0 < |ct| <= MAX_FRAME
    ensures ParseFrame(Frame(ct) + rest) == Got(ct, rest)
  {
    var wire := Frame(ct) + rest;
    Powers();
    DecodeEncode(|ct|, 4);
    assert wire[..4] == Encode(|ct|, 4);
    assert wire[4..4 + |ct|] == ct;
    assert wire[4 + |ct|..] == rest;
  }

  /**
   * Any wire at all: four bytes for a size and whatever follows. A size of zero or over
   * the limit is refused before anything else is read; otherwise the frame is taken
   * exactly if all of it is there.
   */
  lemma ParseAnyWire(size: nat, body: Bytes)
    requires size < 0x1_0000_0000
    ensures ParseFrame(Encode(size, 4) + body) ==
            if size == 0 || size > 0x10_0040 then BadSize(body)
            else if |body| < size then Short
            else Got(body[..size], body[size..])
  {
    var wire := Encode(size, 4) + body;
    Powers();
    DecodeEncode(size, 4);
    assert wire[..4] == Encode(size, 4) && wire[4..] == body;
    if size <= |body| { assert wire[4..4 + size] == body[..size] && wire[4 + size..] == body[size..]; }
  }

  // ----- one direction of a connection -----

  /** Sender counter, receiver counter, bytes on the wire, decrypted bytes not yet read. */
  datatype Pipe = Pipe(sendCount: nat, recvCount: nat, wire: Bytes, buf: Bytes)

  function Next(c: nat): nat {
    (c + 1) % WRAP
  }

  /** Write: the counter moves even when the frame turns out too large to send. */
  function Write(a: Aead, key: Bytes, s: Pipe, p: Bytes): (Pipe, bool) {
    var ct := a.seal(key, NonceFor(s.sendCount), p);
    var counted := s.(sendCount := Next(s.sendCount));
    if |ct| > MAX_FRAME then (counted, false) else (counted.(wire := s.wire + Frame(ct)), true)
  }

  datatype Status = Data | Blocked | InvalidSize | DecryptFailed | Eof

  /** Refill: one frame from the wire into the buffer. */
  function NextFrame(a: Aead, key: Bytes, s: Pipe): (Pipe, Status) {
    match ParseFrame(s.wire)
    case Short => (s, Blocked)
    case BadSize(rest) => (s.(wire := rest), InvalidSize)
    case Got(ct, rest) =>
      var counted := s.(wire := rest, recvCount := Next(s.recvCount));
      match a.open(key, NonceFor(s.recvCount), ct)
      case None => (counted, DecryptFailed)
      case Some(pt) => (counted.(buf := s.buf + pt), Data)
  }

  /** bytes.Buffer.Read: an empty buffer gives EOF unless nothing was asked for. */
  function Drain(s: Pipe, n: nat): (Pipe, Bytes, Status) {
    if s.buf == [] then (s, [], if n == 0 then Data else Eof)
    else
      var k := if n < |s.buf| then n else |s.buf|;
      (s.(buf := s.buf[k..]), s.buf[..k], Data)
  }

  /** Read of up to `n` bytes. */
  function Read(a: Aead, key: Bytes, s: Pipe, n: nat): (Pipe, Bytes, Status) {
    if s.buf != [] then Drain(s, n)
    else
      var (t, status) := NextFrame(a, key, s);
      if status != Data then (t, [], status) else Drain(t, n)
  }

  // ----- what is in flight -----

  /** A frame on the wire: which write of the connection it is, its text, and how many writes had been rejected before it. */
  datatype Sent = Sent(serial: nat, text: Bytes, rejectedBefore: nat)

  /** The uint64 counter of the write with this serial number. */
  function Counter(serial: nat): (c: nat)
    ensures c < WRAP
  {
    serial % WRAP
  }

  function Sealed(a: Aead, key: Bytes, x: Sent): Bytes {
    a.seal(key, NonceFor(Counter(x.serial)), x.text)
  }

  function WireOf(a: Aead, key: Bytes, pending: seq<Sent>): Bytes {
    if pending == [] then [] else Frame(Sealed(a, key, pending[0])) + WireOf(a, key, pending[1..])
  }

  function TextOf(pending: seq<Sent>): Bytes {
    if pending == [] then [] else pending[0].text + TextOf(pending[1..])
  }

  /** History of a run: frames in flight, frames received, writes rejected, bytes accepted by Write and returned by Read. */
  datatype History = History(pending: seq<Sent>, received: nat, rejected: nat, written: Bytes, read: Bytes)

  predicate Fits(p: Bytes) {
    |p| + TAG <= MAX_FRAME
  }

  /** The i-th frame in flight is the write the receiver will expect then, shifted by the writes rejected before it. */
  predicate SentOk(h: History, i: nat)
    requires i < |h.pending|
  {
    var x := h.pending[i];
    Fits(x.text) && x.rejectedBefore <= h.rejected && x.serial == h.received + i + x.rejectedBefore
  }

  /** Counters and wire are what the history says. */
  ghost predicate Tracks(a: Aead, key: Bytes, s: Pipe, h: History) {
    && s.recvCount == Counter(h.received)
    && s.sendCount == Counter(h.received + |h.pending| + h.rejected)
    && s.wire == WireOf(a, key, h.pending)
    && forall i :: 0 <= i < |h.pending| ==> SentOk(h, i)
  }

  lemma {:induction false} WireOfAppend(a: Aead, key: Bytes, pending: seq<Sent>, x: Sent)
    ensures WireOf(a, key, pending + [x]) == WireOf(a, key, pending) + Frame(Sealed(a, key, x))
    ensures TextOf(pending + [x]) == TextOf(pending) + x.text
  {
    if pending == [] {
      assert pending + [x] == [x] && [x][1..] == [];
    } else {
      assert (pending + [x])[1..] == pending[1..] + [x];
      WireOfAppend(a, key, pending[1..], x);
    }
  }

  function AfterWrite(h: History, p: Bytes): History {
    if Fits(p)
    then h.(pending := h.pending + [Sent(h.received + |h.pending| + h.rejected, p, h.rejected)], written := h.written + p)
    else h.(rejected := h.rejected + 1)
  }

  lemma CounterNext(serial: nat)
    ensures Next(Counter(serial)) == Counter(serial + 1)
  {
  }

  /** Every write, sent or rejected, keeps track. */
  lemma WriteTracks(a: Aead, key: Bytes, s: Pipe, h: History, p: Bytes)
    requires Correct(a) && Tracks(a, key, s, h)
    ensures Tracks(a, key, Write(a, key, s, p).0, AfterWrite(h, p))
    ensures Write(a, key, s, p).1 <==> Fits(p)
    ensures Write(a, key, s, p).0.buf == s.buf
  {
    var serial := h.received + |h.pending| + h.rejected;
    var g := AfterWrite(h, p);
    CounterNext(serial);
    if Fits(p) { WireOfAppend(a, key, h.pending, Sent(serial, p, h.rejected)); }
    forall i | 0 <= i < |g.pending| ensures SentOk(g, i) {
      if i < |h.pending| { assert SentOk(h, i); }
    }
  }

  // ----- reading one frame -----

  /** Serial numbers share a counter exactly when 2^64 divides their difference. */
  lemma CounterSame(serial: nat, d: nat)
    ensures Counter(serial + d) == Counter(serial) <==> d % WRAP == 0
  {
    var q, r := serial / WRAP, serial % WRAP;
    var e, f := d / WRAP, d % WRAP;
    assert serial + d == WRAP * (q + e) + (r + f);
    assert (serial + d) % WRAP == (r + f) % WRAP;
  }

  lemma FrontFrame(a: Aead, key: Bytes, pending: seq<Sent>)
    requires Correct(a) && pending != [] && Fits(pending[0].text)
    ensures ParseFrame(WireOf(a, key, pending)) == Got(Sealed(a, key, pending[0]), WireOf(a, key, pending[1..]))
  {
    ParseOfFrame(Sealed(a, key, pending[0]), WireOf(a, key, pending[1..]));
  }

  function Popped(h: History): History
    requires h.pending != []
  {
    h.(pending := h.pending[1..], received := h.received + 1)
  }

  lemma PopTracks(a: Aead, key: Bytes, s: Pipe, h: History, t: Pipe)
    requires Tracks(a, key, s, h) && h.pending != []
    requires t.wire == WireOf(a, key, h.pending[1..]) && t.recvCount == Next(s.recvCount) && t.sendCount == s.sendCount
    ensures Tracks(a, key, t, Popped(h))
  {
    CounterNext(h.received);
    forall i | 0 <= i < |h.pending| - 1 ensures SentOk(Popped(h), i) { assert SentOk(h, i + 1); }
  }

  /** Opening the front frame gives its text exactly when the counters agree. */
  lemma OpensIff(a: Aead, key: Bytes, x: Sent, received: nat)
    requires Correct(a) && Authentic(a) && x.serial == received + x.rejectedBefore
    ensures a.open(key, NonceFor(Counter(received)), Sealed(a, key, x)) ==
            if x.rejectedBefore % WRAP == 0 then Some(x.text) else None
  {
    CounterSame(received, x.rejectedBefore);
    NonceInjective(Counter(x.serial), Counter(received));
  }

  /**
   * The next frame opens exactly when the writes rejected before it are a multiple
   * of 2^64; its text then joins the buffer. Either way the receiver moves on.
   */
  lemma NextFrameOutcome(a: Aead, key: Bytes, s: Pipe, h: History)
    requires Correct(a) && Authentic(a) && Tracks(a, key, s, h) && h.pending != []
    ensures var (t, status) := NextFrame(a, key, s);
            var first := h.pending[0];
            && Tracks(a, key, t, Popped(h))
            && status == (if first.rejectedBefore % WRAP == 0 then Data else DecryptFailed)
            && t.buf == s.buf + (if status == Data then first.text else [])
  {
    assert SentOk(h, 0);
    FrontFrame(a, key, h.pending);
    OpensIff(a, key, h.pending[0], h.received);
    PopTracks(a, key, s, h, NextFrame(a, key, s).0);
  }

  lemma EmptyWireBlocks(a: Aead, key: Bytes, s: Pipe, h: History)
    requires Tracks(a, key, s, h) && h.pending == []
    ensures NextFrame(a, key, s) == (s, Blocked)
  {
  }

  // ----- runs -----

  datatype Op = WriteOp(p: Bytes) | ReadOp(n: nat)

  function Do(a: Aead, key: Bytes, s: Pipe, op: Op): Pipe {
    match op
    case WriteOp(p) => Write(a, key, s, p).0
    case ReadOp(n) => Read(a, key, s, n).0
  }

  /** A read takes the front frame when the buffer is empty, and its bytes count as read. */
  function Record(a: Aead, key: Bytes, s: Pipe, h: History, op: Op): History {
    match op
    case WriteOp(p) => AfterWrite(h, p)
    case ReadOp(n) =>
      var g := if s.buf == [] && h.pending != [] then Popped(h) else h;
      g.(read := h.read + Read(a, key, s, n).1)
  }

  /** Tracking looks only at the counters, the wire and the frames in flight. */
  lemma TracksSame(a: Aead, key: Bytes, s: Pipe, h: History, t: Pipe, g: History)
    requires Tracks(a, key, s, h)
    requires t.sendCount == s.sendCount && t.recvCount == s.recvCount && t.wire == s.wire
    requires g.pending == h.pending && g.received == h.received && g.rejected == h.rejected
    ensures Tracks(a, key, t, g)
  {
    forall i | 0 <= i < |g.pending| ensures SentOk(g, i) { assert SentOk(h, i); }
  }

  /** What a read does, by cases: serve the buffer, block on an empty wire, or take the next frame. */
  lemma ReadCases(a: Aead, key: Bytes, s: Pipe, h: History, n: nat)
    requires Correct(a) && Authentic(a) && Tracks(a, key, s, h)
    ensures s.buf != [] ==> Read(a, key, s, n) == Drain(s, n)
    ensures s.buf == [] && h.pending == [] ==> Read(a, key, s, n) == (s, [], Blocked)
    ensures s.buf == [] && h.pending != [] ==>
              var t := NextFrame(a, key, s).0;
              && Tracks(a, key, t, Popped(h))
              && if h.pending[0].rejectedBefore % WRAP == 0
                 then t.buf == h.pending[0].text && Read(a, key, s, n) == Drain(t, n)
                 else t.buf == [] && Read(a, key, s, n) == (t, [], DecryptFailed)
  {
    if s.buf == [] {
      if h.pending == [] { EmptyWireBlocks(a, key, s, h); } else { NextFrameOutcome(a, key, s, h); }
    }
  }

  lemma DrainSplits(s: Pipe, n: nat)
    ensures var (t, data, status) := Drain(s, n);
            && data + t.buf == s.buf && t == s.(buf := t.buf)
            && (status == Eof <==> s.buf == [] && n > 0) && (status == Eof || status == Data)
            && (s.buf != [] && n > 0 ==> data != [])
  {
  }

  lemma ReadTracks(a: Aead, key: Bytes, s: Pipe, h: History, n: nat)
    requires Correct(a) && Authentic(a) && Tracks(a, key, s, h)
    ensures Tracks(a, key, Read(a, key, s, n).0, Record(a, key, s, h, ReadOp(n)))
  {
    ReadCases(a, key, s, h, n);
    var t, g := Read(a, key, s, n).0, Record(a, key, s, h, ReadOp(n));
    if s.buf == [] && h.pending != [] {
      var m := NextFrame(a, key, s).0;
      DrainSplits(m, n);
      TracksSame(a, key, m, Popped(h), t, g);
    } else {
      DrainSplits(s, n);
      TracksSame(a, key, s, h, t, g);
    }
  }

  /** No write was rejected: every accepted byte is read, buffered or in flight, in order. */
  ghost predicate InOrder(a: Aead, key: Bytes, s: Pipe, h: History) {
    && Tracks(a, key, s, h) && h.rejected == 0
    && h.written == h.read + s.buf + TextOf(h.pending)
  }

  lemma AppendRegroup(written: Bytes, front: Bytes, t: Bytes, p: Bytes)
    requires written == front + t
    ensures written + p == front + (t + p)
  {
  }

  lemma WriteInOrder(a: Aead, key: Bytes, s: Pipe, h: History, p: Bytes)
    requires Correct(a) && InOrder(a, key, s, h) && Fits(p)
    ensures InOrder(a, key, Write(a, key, s, p).0, AfterWrite(h, p))
  {
    WriteTracks(a, key, s, h, p);
    WireOfAppend(a, key, h.pending, Sent(h.received + |h.pending| + h.rejected, p, h.rejected));
    AppendRegroup(h.written, h.read + s.buf, TextOf(h.pending), p);
  }

  lemma TextOfFront(pending: seq<Sent>)
    requires pending != []
    ensures TextOf(pending) == pending[0].text + TextOf(pending[1..])
  {
  }

  lemma Regroup(written: Bytes, r: Bytes, d: Bytes, b: Bytes, t: Bytes)
    requires written == r + (d + b) + t
    ensures written == r + d + b + t
  {
  }

  /** Bytes move from the buffer to the reader without loss or reordering. */
  lemma MoveFromBuffer(h: History, s: Pipe, n: nat)
    requires h.written == h.read + s.buf + TextOf(h.pending)
    ensures var (t, data, _) := Drain(s, n); h.written == h.read + data + t.buf + TextOf(h.pending)
  {
    var (t, data, _) := Drain(s, n);
    DrainSplits(s, n);
    Regroup(h.written, h.read, data, t.buf, TextOf(h.pending));
  }

  /** And so do the bytes of the front frame, by way of an empty buffer. */
  lemma MoveFromFrame(h: History, m: Pipe, n: nat)
    requires h.pending != [] && h.written == h.read + TextOf(h.pending) && m.buf == h.pending[0].text
    ensures var (t, data, _) := Drain(m, n); h.written == h.read + data + t.buf + TextOf(h.pending[1..])
  {
    var (t, data, _) := Drain(m, n);
    DrainSplits(m, n);
    TextOfFront(h.pending);
    assert h.written == h.read + (data + t.buf) + TextOf(h.pending[1..]);
    Regroup(h.written, h.read, data, t.buf, TextOf(h.pending[1..]));
  }

  /** The front frame of a stream in order opens, and the read drains it. */
  lemma FrameIsDrained(a: Aead, key: Bytes, s: Pipe, h: History, n: nat)
    requires Correct(a) && Authentic(a) && InOrder(a, key, s, h) && s.buf == [] && h.pending != []
    ensures var m := NextFrame(a, key, s).0; m.buf == h.pending[0].text && Read(a, key, s, n) == Drain(m, n)
  {
    ReadCases(a, key, s, h, n);
    assert SentOk(h, 0);
  }

  lemma ReadMovesBytes(a: Aead, key: Bytes, s: Pipe, h: History, n: nat)
    requires Correct(a) && Authentic(a) && InOrder(a, key, s, h)
    ensures var (t, data, _) := Read(a, key, s, n);
            h.written == h.read + data + t.buf + TextOf(Record(a, key, s, h, ReadOp(n)).pending)
  {
    if s.buf != [] {
      MoveFromBuffer(h, s, n);
    } else if h.pending != [] {
      FrameIsDrained(a, key, s, h, n);
      assert h.read + s.buf == h.read;
      MoveFromFrame(h, NextFrame(a, key, s).0, n);
    } else {
      EmptyWireBlocks(a, key, s, h);
      assert h.read + [] == h.read;
    }
  }

  /** What a read in order reports: blocked with nothing there, the end at an empty frame, bytes otherwise. */
  lemma ReadStatus(a: Aead, key: Bytes, s: Pipe, h: History, n: nat)
    requires Correct(a) && Authentic(a) && InOrder(a, key, s, h)
    ensures var (_, data, status) := Read(a, key, s, n);
            if s.buf == [] && h.pending == [] then status == Blocked
            else if s.buf == [] && h.pending[0].text == [] && n > 0 then status == Eof
            else status == Data && (n > 0 ==> data != [])
  {
    if s.buf != [] {
      DrainSplits(s, n);
    } else if h.pending == [] {
      EmptyWireBlocks(a, key, s, h);
    } else {
      FrameIsDrained(a, key, s, h, n);
      DrainSplits(NextFrame(a, key, s).0, n);
    }
  }

  /** A read of a stream in order keeps it so: the next bytes move to the reader. */
  lemma ReadInOrder(a: Aead, key: Bytes, s: Pipe, h: History, n: nat)
    requires Correct(a) && Authentic(a) && InOrder(a, key, s, h)
    ensures InOrder(a, key, Read(a, key, s, n).0, Record(a, key, s, h, ReadOp(n)))
  {
    ReadTracks(a, key, s, h, n);
    ReadMovesBytes(a, key, s, h, n);
  }

  /** The write is within the frame limit. */
  predicate Ordered(op: Op) {
    op.WriteOp? ==> Fits(op.p)
  }

  lemma StepInOrder(a: Aead, key: Bytes, s: Pipe, h: History, op: Op)
    requires Correct(a) && Authentic(a) && InOrder(a, key, s, h) && Ordered(op)
    ensures InOrder(a, key, Do(a, key, s, op), Record(a, key, s, h, op))
  {
    match op
    case WriteOp(p) => WriteInOrder(a, key, s, h, p);
    case ReadOp(n) => ReadInOrder(a, key, s, h, n);
  }

  function Run(a: Aead, key: Bytes, s: Pipe, h: History, ops: seq<Op>): (Pipe, History)
    decreases |ops|
  {
    if ops == [] then (s, h) else Run(a, key, Do(a, key, s, ops[0]), Record(a, key, s, h, ops[0]), ops[1..])
  }

  const NEW_PIPE: Pipe := Pipe(0, 0, [], [])
  const NO_HISTORY: History := History([], 0, 0, [], [])

  lemma {:induction false} RunInOrder(a: Aead, key: Bytes, s: Pipe, h: History, ops: seq<Op>)
    requires Correct(a) && Authentic(a) && InOrder(a, key, s, h)
    requires forall i :: 0 <= i < |ops| ==> Ordered(ops[i])
    ensures var (t, g) := Run(a, key, s, h, ops); InOrder(a, key, t, g)
    decreases |ops|
  {
    if ops != [] {
      StepInOrder(a, key, s, h, ops[0]);
      RunInOrder(a, key, Do(a, key, s, ops[0]), Record(a, key, s, h, ops[0]), ops[1..]);
    }
  }

  lemma EmptyWireMeansNoFrames(a: Aead, key: Bytes, pending: seq<Sent>)
    requires WireOf(a, key, pending) == []
    ensures pending == []
  {
  }

  /**
   * What was read is a prefix of what was written, all of it once nothing is in flight
   * or buffered, and the frames in flight carry exactly the counters from recvCount to
   * sendCount - 1, each once and in order.
   */
  predicate StreamOk(s: Pipe, h: History) {
    && h.read <= h.written
    && (s.wire == [] && s.buf == [] ==> h.read == h.written)
    && (forall i :: 0 <= i < |h.pending| ==> h.pending[i].serial == h.received + i)
    && s.recvCount == Counter(h.received) && s.sendCount == Counter(h.received + |h.pending|)
  }

  lemma InOrderMeansPrefix(a: Aead, key: Bytes, s: Pipe, h: History)
    requires InOrder(a, key, s, h)
    ensures StreamOk(s, h)
  {
    assert h.written == h.read + (s.buf + TextOf(h.pending));
    if s.wire == [] { EmptyWireMeansNoFrames(a, key, h.pending); }
    forall i | 0 <= i < |h.pending| ensures h.pending[i].serial == h.received + i { assert SentOk(h, i); }
  }

  lemma StartInOrder(a: Aead, key: Bytes)
    ensures InOrder(a, key, NEW_PIPE, NO_HISTORY)
  {
  }

  lemma RunIsOk(a: Aead, key: Bytes, s: Pipe, h: History, ops: seq<Op>)
    requires Correct(a) && Authentic(a) && InOrder(a, key, s, h)
    requires forall i :: 0 <= i < |ops| ==> Ordered(ops[i])
    ensures StreamOk(Run(a, key, s, h, ops).0, Run(a, key, s, h, ops).1)
  {
    RunInOrder(a, key, s, h, ops);
    InOrderMeansPrefix(a, key, Run(a, key, s, h, ops).0, Run(a, key, s, h, ops).1);
  }

  /**
   * The secure stream: over any run of writes within the frame limit, empty ones
   * included, and reads of any sizes, what was read is a prefix of what was written,
   * it is all of it once nothing is in flight or buffered, and the frames in flight
   * carry exactly the counters from recvCount to sendCount - 1, each once and in order.
   */
  lemma StreamIsPrefix(a: Aead, key: Bytes, ops: seq<Op>)
    requires Correct(a) && Authentic(a) && forall i :: 0 <= i < |ops| ==> Ordered(ops[i])
    ensures var (s, h) := Run(a, key, NEW_PIPE, NO_HISTORY, ops); StreamOk(s, h)
  {
    StartInOrder(a, key);
    RunIsOk(a, key, NEW_PIPE, NO_HISTORY, ops);
  }

  // ----- where the stream departs from a byte pipe -----

  /** An empty write makes the read that meets it report the end of the stream, and only that does. */
  lemma EndOnlyForEmptyFrame(a: Aead, key: Bytes, s: Pipe, h: History, n: nat)
    requires Correct(a) && Authentic(a) && Tracks(a, key, s, h)
    ensures Read(a, key, s, n).2 == Eof <==>
            && s.buf == [] && n > 0 && h.pending != []
            && h.pending[0].text == [] && h.pending[0].rejectedBefore % WRAP == 0
  {
    ReadCases(a, key, s, h, n);
    DrainSplits(s, n);
    DrainSplits(NextFrame(a, key, s).0, n);
  }

  /** Text of the frames in flight that were sent before any write was rejected. */
  function CleanText(pending: seq<Sent>): Bytes {
    if pending == [] || pending[0].rejectedBefore > 0 then [] else pending[0].text + CleanText(pending[1..])
  }

  /** Once a frame comes after a rejected write, so do all behind it. */
  predicate CleanFirst(pending: seq<Sent>) {
    forall i, j :: 0 <= i < j < |pending| && pending[i].rejectedBefore > 0 ==> pending[j].rejectedBefore > 0
  }

  /** The stream is cut after the bytes `w`: they are read, buffered or in flight, and nothing else can be delivered. */
  ghost predicate CutAfter(a: Aead, key: Bytes, s: Pipe, h: History, w: Bytes) {
    && Tracks(a, key, s, h) && 0 < h.rejected && CleanFirst(h.pending)
    && w == h.read + s.buf + CleanText(h.pending)
  }

  lemma {:induction false} CleanTextAppend(pending: seq<Sent>, x: Sent)
    requires x.rejectedBefore > 0
    ensures CleanText(pending + [x]) == CleanText(pending)
  {
    if pending == [] {
      assert pending + [x] == [x];
    } else {
      assert (pending + [x])[1..] == pending[1..] + [x];
      CleanTextAppend(pending[1..], x);
    }
  }

  lemma {:induction false} AllClean(pending: seq<Sent>)
    requires forall i :: 0 <= i < |pending| ==> pending[i].rejectedBefore == 0
    ensures CleanText(pending) == TextOf(pending) && CleanFirst(pending)
  {
    if pending != [] { AllClean(pending[1..]); }
  }

  lemma NoneClean(pending: seq<Sent>)
    requires pending != [] && CleanFirst(pending) && pending[0].rejectedBefore > 0
    ensures CleanText(pending[1..]) == []
  {
    if |pending| > 1 { assert pending[1].rejectedBefore > 0; }
  }

  lemma SmallNotMultiple(x: nat)
    requires x < WRAP
    ensures x % WRAP == 0 <==> x == 0
  {
  }

  lemma WriteKeepsCut(a: Aead, key: Bytes, s: Pipe, h: History, p: Bytes, w: Bytes)
    requires Correct(a) && CutAfter(a, key, s, h, w)
    ensures CutAfter(a, key, Write(a, key, s, p).0, AfterWrite(h, p), w)
  {
    WriteTracks(a, key, s, h, p);
    CleanTextAppend(h.pending, Sent(h.received + |h.pending| + h.rejected, p, h.rejected));
  }

  /** Bytes before the cut move on towards the reader; the frames behind it yield nothing. */
  lemma ReadMovesCleanBytes(a: Aead, key: Bytes, s: Pipe, h: History, n: nat, w: Bytes)
    requires Correct(a) && Authentic(a) && CutAfter(a, key, s, h, w) && h.rejected < WRAP
    ensures var (t, data, _) := Read(a, key, s, n);
            w == h.read + data + t.buf + CleanText(Record(a, key, s, h, ReadOp(n)).pending)
  {
    ReadCases(a, key, s, h, n);
    if s.buf != [] {
      DrainSplits(s, n);
      Regroup(w, h.read, Drain(s, n).1, Drain(s, n).0.buf, CleanText(h.pending));
    } else if h.pending == [] {
      assert h.read + [] + [] == h.read;
    } else {
      assert SentOk(h, 0);
      SmallNotMultiple(h.pending[0].rejectedBefore);
      FrontMoves(h, NextFrame(a, key, s).0, n, w);
    }
  }

  /** The front frame in an empty buffer: its text if it is clean, nothing if it is not. */
  lemma FrontMoves(h: History, m: Pipe, n: nat, w: Bytes)
    requires h.pending != [] && CleanFirst(h.pending) && w == h.read + [] + CleanText(h.pending)
    ensures h.pending[0].rejectedBefore > 0 ==> w == h.read + [] + [] + CleanText(h.pending[1..])
    ensures h.pending[0].rejectedBefore == 0 && m.buf == h.pending[0].text ==>
              var (t, data, _) := Drain(m, n); w == h.read + data + t.buf + CleanText(h.pending[1..])
  {
    if h.pending[0].rejectedBefore > 0 {
      NoneClean(h.pending);
    } else if m.buf == h.pending[0].text {
      var (t, data, _) := Drain(m, n);
      DrainSplits(m, n);
      assert w == h.read + (data + t.buf) + CleanText(h.pending[1..]);
      Regroup(w, h.read, data, t.buf, CleanText(h.pending[1..]));
    }
  }

  lemma ReadKeepsCut(a: Aead, key: Bytes, s: Pipe, h: History, n: nat, w: Bytes)
    requires Correct(a) && Authentic(a) && CutAfter(a, key, s, h, w) && h.rejected < WRAP
    ensures CutAfter(a, key, Read(a, key, s, n).0, Record(a, key, s, h, ReadOp(n)), w)
  {
    ReadTracks(a, key, s, h, n);
    ReadMovesCleanBytes(a, key, s, h, n, w);
  }

  lemma StepKeepsCut(a: Aead, key: Bytes, s: Pipe, h: History, op: Op, w: Bytes)
    requires Correct(a) && Authentic(a) && CutAfter(a, key, s, h, w) && h.rejected < WRAP
    ensures CutAfter(a, key, Do(a, key, s, op), Record(a, key, s, h, op), w)
    ensures Record(a, key, s, h, op).rejected <= h.rejected + 1
  {
    match op
    case WriteOp(p) => WriteKeepsCut(a, key, s, h, p, w);
    case ReadOp(n) => ReadKeepsCut(a, key, s, h, n, w);
  }

  lemma CutMeansPrefix(a: Aead, key: Bytes, s: Pipe, h: History, w: Bytes)
    requires CutAfter(a, key, s, h, w)
    ensures h.read <= w
  {
    assert w == h.read + (s.buf + CleanText(h.pending));
  }

  /** Whatever is written or read afterwards, only the bytes before the cut arrive. */
  lemma {:induction false} CutForGood(a: Aead, key: Bytes, s: Pipe, h: History, ops: seq<Op>, w: Bytes)
    requires Correct(a) && Authentic(a) && CutAfter(a, key, s, h, w) && h.rejected + |ops| < WRAP
    ensures Run(a, key, s, h, ops).1.read <= w
    decreases |ops|
  {
    if ops == [] {
      CutMeansPrefix(a, key, s, h, w);
    } else {
      StepKeepsCut(a, key, s, h, ops[0], w);
      CutForGood(a, key, Do(a, key, s, ops[0]), Record(a, key, s, h, ops[0]), ops[1..], w);
    }
  }

  /**
   * One rejected write ends the stream for the reader: from any state of a stream
   * that had none before, whatever is written and read afterwards (short of 2^64
   * operations), the bytes read stay a prefix of those written before it.
   */
  lemma OversizeWriteCutsStream(a: Aead, key: Bytes, s: Pipe, h: History, p: Bytes, ops: seq<Op>)
    requires Correct(a) && Authentic(a) && Tracks(a, key, s, h) && h.rejected == 0
    requires h.written == h.read + s.buf + TextOf(h.pending)
    requires !Fits(p) && 1 + |ops| < WRAP
    ensures Run(a, key, s, h, [WriteOp(p)] + ops).1.read <= h.written
  {
    WriteTracks(a, key, s, h, p);
    forall i | 0 <= i < |h.pending| ensures h.pending[i].rejectedBefore == 0 { assert SentOk(h, i); }
    AllClean(h.pending);
    assert ([WriteOp(p)] + ops)[1..] == ops;
    CutForGood(a, key, Write(a, key, s, p).0, AfterWrite(h, p), ops, h.written);
  }

  lemma {:induction false} WrittenGrows(a: Aead, key: Bytes, s: Pipe, h: History, ops: seq<Op>)
    ensures h.written <= Run(a, key, s, h, ops).1.written
    decreases |ops|
  {
    if ops != [] { WrittenGrows(a, key, Do(a, key, s, ops[0]), Record(a, key, s, h, ops[0]), ops[1..]); }
  }

  lemma {:induction false} PrefixFrom(a: Aead, key: Bytes, s: Pipe, h: History, ops: seq<Op>)
    requires Correct(a) && Authentic(a) && InOrder(a, key, s, h) && |ops| < WRAP
    ensures Run(a, key, s, h, ops).1.read <= Run(a, key, s, h, ops).1.written
    decreases |ops|
  {
    if ops == [] {
      InOrderMeansPrefix(a, key, s, h);
    } else if Ordered(ops[0]) {
      StepInOrder(a, key, s, h, ops[0]);
      PrefixFrom(a, key, Do(a, key, s, ops[0]), Record(a, key, s, h, ops[0]), ops[1..]);
    } else {
      assert ops == [ops[0]] + ops[1..];
      OversizeWriteCutsStream(a, key, s, h, ops[0].p, ops[1..]);
      WrittenGrows(a, key, s, h, ops);
    }
  }

  /** For every run at all, rejected and empty writes included: what was read is a prefix of what was accepted. */
  lemma AlwaysPrefix(a: Aead, key: Bytes, ops: seq<Op>)
    requires Correct(a) && Authentic(a) && |ops| < WRAP
    ensures var h := Run(a, key, NEW_PIPE, NO_HISTORY, ops).1; h.read <= h.written
  {
    StartInOrder(a, key);
    PrefixFrom(a, key, NEW_PIPE, NO_HISTORY, ops);
  }

  lemma {:induction false} RunSnoc(a: Aead, key: Bytes, s: Pipe, h: History, ops: seq<Op>, op: Op)
    ensures var (t, g) := Run(a, key, s, h, ops);
            Run(a, key, s, h, ops + [op]) == (Do(a, key, t, op), Record(a, key, t, g, op))
    decreases |ops|
  {
    if ops == [] {
      assert [] + [op] == [op] && [op][1..] == [];
    } else {
      assert (ops + [op])[1..] == ops[1..] + [op];
      RunSnoc(a, key, Do(a, key, s, ops[0]), Record(a, key, s, h, ops[0]), ops[1..], op);
    }
  }

  /** Two writes of a connection, rejected ones included, share a nonce if and only if 2^64 divides their distance. */
  lemma NonceRepeatsIff(i: nat, j: nat)
    requires i <= j
    ensures NonceFor(Counter(i)) == NonceFor(Counter(j)) <==> (j - i) % WRAP == 0
  {
    CounterSame(i, j - i);
    NonceInjective(Counter(i), Counter(j));
  }
}
