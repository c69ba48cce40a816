/**
 * The DNS wire format of apps/dns/dns.go: reading a query and building the reply
 * for a captured name, against the encodings of section 4.1 of RFC 1035.
 */
module Dns {
  import opened NodeId
  import opened Options

  // ----- names -----

  /** Length byte and label, for each label, without the closing zero. */
  function EncodeLabels(labels: seq<Bytes>): Bytes {
    if labels == [] then [] else [|labels[0]| % 256] + labels[0] + EncodeLabels(labels[1..])
  }

  predicate LegalLabel(l: Bytes) {
    1 <= |l| <= 63
  }

  /** What the source accepts: labels of 1 to 63 octets, at most 255 octets of them with their lengths. */
  predicate Acceptable(labels: seq<Bytes>) {
    (forall l :: l in labels ==> LegalLabel(l)) && |EncodeLabels(labels)| <= 255
  }

  function EncodeName(labels: seq<Bytes>): Bytes {
    EncodeLabels(labels) + [0]
  }

  datatype NameError = NameTruncated | Compressed | LabelTruncated | NameTooLong

  datatype Name = Labels(labels: seq<Bytes>, next: nat) | BadName(error: NameError)

  datatype Step = Stop(name: Name) | More(size: nat)

  /** What the byte at `at` decides, in a name that began at `start`: the name ends or fails here, or a label follows. */
  function StepAt(p: Bytes, at: nat, start: nat): (s: Step)
    requires start <= at
    ensures s.More? ==> 0 < s.size < 64 && at + 1 + s.size <= |p|
    ensures s.Stop? && s.name.Labels? ==> s.name == Labels([], at + 1) && at < |p|
  {
    if at >= |p| then Stop(BadName(NameTruncated))
    else if p[at] == 0 then Stop(Labels([], at + 1))
    else if p[at] / 64 != 0 then Stop(BadName(Compressed))
    else if at + 1 + p[at] > |p| then Stop(BadName(LabelTruncated))
    else if at + 1 + p[at] - start > 255 then Stop(BadName(NameTooLong))
    else More(p[at])
  }

  /** Labels already collected, in front of what is still to be read. */
  function After(labels: seq<Bytes>, rest: Name): Name {
    match rest case BadName(e) => BadName(e) case Labels(more, next) => Labels(labels + more, next)
  }

  /** readName from `at`, for a name that began at `start`; `next` is the offset after the name. */
  function ReadFrom(p: Bytes, at: nat, start: nat): (r: Name)
    requires start <= at
    ensures r.Labels? ==> at < r.next <= |p|
    decreases |p| - at
  {
    match StepAt(p, at, start)
    case Stop(name) => name
    case More(size) => After([p[at + 1..at + 1 + size]], ReadFrom(p, at + 1 + size, start))
  }

  /** A label in front moves from what is to be read to what is collected. */
  lemma TakeLabel(labels: seq<Bytes>, p: Bytes, at: nat, start: nat)
    requires start <= at && StepAt(p, at, start).More?
    ensures var size := StepAt(p, at, start).size;
            After(labels, ReadFrom(p, at, start)) ==
            After(labels + [p[at + 1..at + 1 + size]], ReadFrom(p, at + 1 + size, start))
  {
    var size := StepAt(p, at, start).size;
    var first, rest := p[at + 1..at + 1 + size], ReadFrom(p, at + 1 + size, start);
    if rest.Labels? { assert labels + ([first] + rest.labels) == labels + [first] + rest.labels; }
  }

  lemma StopsHere(p: Bytes, at: nat, start: nat)
    requires start <= at && StepAt(p, at, start).Stop?
    ensures ReadFrom(p, at, start) == StepAt(p, at, start).name
  {
  }

  lemma AfterNone(rest: Name)
    ensures After([], rest) == rest
  {
  }

  /** The loop of the source. */
  method ReadName(p: Bytes, off: nat) returns (r: Name)
    ensures r == ReadFrom(p, off, off)
  {
    var labels: seq<Bytes>, at := [], off;
    ghost var whole := ReadFrom(p, off, off);
    AfterNone(whole);
    while true
      invariant off <= at && After(labels, ReadFrom(p, at, off)) == whole
      decreases |p| - at
    {
      var step := StepAt(p, at, off);
      if step.Stop? {
        StopsHere(p, at, off);
        return After(labels, step.name);
      }
      TakeLabel(labels, p, at, off);
      labels, at := labels + [p[at + 1..at + 1 + step.size]], at + 1 + step.size;
    }
  }

  lemma EncodeLabelsStep(labels: seq<Bytes>)
    requires labels != [] && |labels[0]| < 256
    ensures EncodeLabels(labels) == [|labels[0]|] + labels[0] + EncodeLabels(labels[1..])
    ensures |EncodeLabels(labels)| == 1 + |labels[0]| + |EncodeLabels(labels[1..])|
  {
  }

  /** Bytes that spell a name are read as that name. */
  lemma {:induction false} ReadOfEncoded(before: Bytes, labels: seq<Bytes>, after: Bytes, start: nat)
    requires start <= |before| && (forall l :: l in labels ==> LegalLabel(l))
    requires |before| - start + |EncodeLabels(labels)| <= 255
    ensures ReadFrom(before + EncodeName(labels) + after, |before|, start) ==
            Labels(labels, |before| + |EncodeName(labels)|)
    decreases |labels|
  {
    var p, off := before + EncodeName(labels) + after, |before|;
    if labels == [] {
      assert p[off] == 0;
    } else {
      assert labels[0] in labels;
      EncodeLabelsStep(labels);
      var l := labels[0];
      var front := before + [|l|] + l;
      assert p == front + EncodeName(labels[1..]) + after;
      assert p[off] == |l| && p[off + 1..off + 1 + |l|] == l;
      ReadOfEncoded(front, labels[1..], after, start);
    }
  }

  /** And whatever is read as a name was spelled there, legal and within the limit. */
  lemma {:induction false} ReadIsSpelled(p: Bytes, off: nat, start: nat)
    requires start <= off && ReadFrom(p, off, start).Labels?
    ensures var r := ReadFrom(p, off, start);
            && (forall l :: l in r.labels ==> LegalLabel(l))
            && r.next == off + |EncodeLabels(r.labels)| + 1 <= |p|
            && (r.labels != [] ==> off - start + |EncodeLabels(r.labels)| <= 255)
            && p[off..r.next] == EncodeLabels(r.labels) + [0]
    decreases |p| - off
  {
    var l := p[off];
    if l == 0 {
      assert p[off..off + 1] == [0];
    } else {
      ReadIsSpelled(p, off + 1 + l, start);
      var r := ReadFrom(p, off, start);
      assert |r.labels[0]| == l;
      EncodeLabelsStep(r.labels);
      assert p[off..r.next] == [l] + p[off + 1..off + 1 + l] + p[off + 1 + l..r.next];
    }
  }

  /** The bytes from `off` to `next` spell an acceptable name. */
  predicate Spells(p: Bytes, off: nat, labels: seq<Bytes>, next: nat) {
    Acceptable(labels) && next == off + |EncodeName(labels)| <= |p| && p[off..next] == EncodeName(labels)
  }

  lemma ReadOfSpelled(p: Bytes, off: nat, labels: seq<Bytes>, next: nat)
    requires Spells(p, off, labels, next)
    ensures ReadFrom(p, off, off) == Labels(labels, next)
  {
    assert p == p[..off] + p[off..next] + p[next..];
    ReadOfEncoded(p[..off], labels, p[next..], off);
  }

  /**
   * Reading a name, exactly: it succeeds with these labels if and only if the bytes
   * there spell them, each label has 1 to 63 octets, and labels and lengths take at
   * most 255 octets.
   */
  lemma ReadNameIff(p: Bytes, off: nat, labels: seq<Bytes>, next: nat)
    ensures ReadFrom(p, off, off) == Labels(labels, next) <==> Spells(p, off, labels, next)
  {
    if ReadFrom(p, off, off) == Labels(labels, next) {
      ReadIsSpelled(p, off, off);
    } else if Spells(p, off, labels, next) {
      ReadOfSpelled(p, off, labels, next);
    }
  }

  function Filled(n: nat): Bytes {
    seq(n, _ => 97)
  }

  /** Section 2.3.4 of RFC 1035 counts the closing zero; the source does not, and takes a name of 256 octets. */
  lemma OneOctetBeyondRfc()
    ensures var labels := [Filled(63), Filled(63), Filled(63), Filled(62)];
            Acceptable(labels) && |EncodeName(labels)| == 256
  {
    var a: Bytes, b: Bytes := Filled(63), Filled(62);
    assert [a, a, a, b][1..] == [a, a, b] && [a, a, b][1..] == [a, b] && [a, b][1..] == [b];
    assert |EncodeLabels([b])| == 63;
    assert |EncodeLabels([a, b])| == 127;
    assert |EncodeLabels([a, a, b])| == 191;
  }

  // ----- queries -----

  function U16(p: Bytes, off: nat): nat
    requires off + 2 <= |p|
  {
    var hi: int, lo: int := p[off], p[off + 1];
    256 * hi + lo
  }

  function Put16(v: nat): (s: Bytes)
    requires v < 65536
    ensures |s| == 2 && U16(s, 0) == v
  {
    [v / 256, v % 256]
  }

  /** strings.Join(labels, "."). */
  function Dotted(labels: seq<Bytes>): Bytes {
    if labels == [] then [] else if |labels| == 1 then labels[0] else labels[0] + [46] + Dotted(labels[1..])
  }

  datatype Query = Query(id: nat, flags: nat, qdcount: nat, name: Bytes, qtype: nat, class_: nat)

  datatype Parsed = Ok(q: Query) | ShortHeader | NoQuestion | Bad(error: NameError) | TruncatedQuestion

  function ParseQuery(p: Bytes): Parsed {
    if |p| < 12 then ShortHeader
    else if U16(p, 4) < 1 then NoQuestion
    else match ReadFrom(p, 12, 12)
         case BadName(e) => Bad(e)
         case Labels(labels, next) =>
           if next + 4 > |p| then TruncatedQuestion
           else Ok(Query(U16(p, 0), U16(p, 2), U16(p, 4), Dotted(labels), U16(p, next), U16(p, next + 2)))
  }

  /** The question after the header: a spelled name, and after it the type and the class. */
  predicate Asks(p: Bytes, labels: seq<Bytes>, next: nat, qtype: nat, class_: nat) {
    Spells(p, 12, labels, next) && next + 4 <= |p| && U16(p, next) == qtype && U16(p, next + 2) == class_
  }

  /**
   * Parsing, exactly: what makes a packet a query, for every packet, and which of the
   * other outcomes it has when it is none.
   */
  lemma ParseIff(p: Bytes)
    ensures ParseQuery(p) == ShortHeader <==> |p| < 12
    ensures ParseQuery(p) == NoQuestion <==> |p| >= 12 && p[4] == 0 && p[5] == 0
    ensures ParseQuery(p) == TruncatedQuestion <==>
            |p| >= 12 && (p[4] != 0 || p[5] != 0) && exists labels, next: nat :: Spells(p, 12, labels, next) && next + 4 > |p|
    ensures forall labels, next, qtype, class_ :: |p| >= 12 && (p[4] != 0 || p[5] != 0) && Asks(p, labels, next, qtype, class_) ==>
            ParseQuery(p) == Ok(Query(U16(p, 0), U16(p, 2), U16(p, 4), Dotted(labels), qtype, class_))
    ensures ParseQuery(p).Ok? ==>
            |p| >= 12 && (p[4] != 0 || p[5] != 0) && exists labels, next :: Asks(p, labels, next, ParseQuery(p).q.qtype, ParseQuery(p).q.class_)
  {
    forall labels, next { ReadNameIff(p, 12, labels, next); }
    match ReadFrom(p, 12, 12)
    case BadName(_) =>
    case Labels(labels, next) =>
      assert Spells(p, 12, labels, next);
      if ParseQuery(p).Ok? { assert Asks(p, labels, next, ParseQuery(p).q.qtype, ParseQuery(p).q.class_); }
  }

  predicate Word(v: int) {
    0 <= v < 65536
  }

  /** A standard query with one question: section 4.1.1 and 4.1.2 of RFC 1035. */
  function EncodeQuery(id: nat, flags: nat, labels: seq<Bytes>, qtype: nat, class_: nat): Bytes
    requires Word(id) && Word(flags) && Word(qtype) && Word(class_)
  {
    Put16(id) + Put16(flags) + Put16(1) + Put16(0) + Put16(0) + Put16(0)
    + EncodeName(labels) + Put16(qtype) + Put16(class_)
  }

  lemma U16Inside(before: Bytes, v: nat, after: Bytes)
    requires Word(v)
    ensures U16(before + Put16(v) + after, |before|) == v
  {
  }

  /** A name, a type and a class after twelve bytes of header read back, whatever follows. */
  lemma QuestionReads(header: Bytes, labels: seq<Bytes>, qtype: nat, class_: nat, after: Bytes)
    requires |header| == 12 && Acceptable(labels) && Word(qtype) && Word(class_)
    ensures var p, next := header + (EncodeName(labels) + (Put16(qtype) + Put16(class_))) + after, 12 + |EncodeName(labels)|;
            && ReadFrom(p, 12, 12) == Labels(labels, next)
            && next + 4 <= |p| && U16(p, next) == qtype && U16(p, next + 2) == class_
  {
    var name, a, b := EncodeName(labels), Put16(qtype), Put16(class_);
    var p := header + (name + (a + b)) + after;
    assert p == header + name + (a + b + after);
    ReadOfEncoded(header, labels, a + b + after, 12);
    assert p == (header + name) + a + (b + after);
    U16Inside(header + name, qtype, b + after);
    assert p == (header + name + a) + b + after;
    U16Inside(header + name + a, class_, after);
  }

  lemma HeaderKept(header: Bytes, rest: Bytes, off: nat)
    requires off + 2 <= |header|
    ensures U16(header + rest, off) == U16(header, off)
  {
  }

  /** Parsing an encoded query, with anything after it, recovers identifier, flags, name, type and class. */
  lemma ParseOfEncoded(id: nat, flags: nat, labels: seq<Bytes>, qtype: nat, class_: nat, more: Bytes)
    requires Word(id) && Word(flags) && Word(qtype) && Word(class_) && Acceptable(labels)
    ensures ParseQuery(EncodeQuery(id, flags, labels, qtype, class_) + more) ==
            Ok(Query(id, flags, 1, Dotted(labels), qtype, class_))
  {
    var header := Put16(id) + Put16(flags) + Put16(1) + Put16(0) + Put16(0) + Put16(0);
    assert U16(header, 0) == id && U16(header, 2) == flags && U16(header, 4) == 1;
    assert EncodeQuery(id, flags, labels, qtype, class_) ==
           header + (EncodeName(labels) + (Put16(qtype) + Put16(class_)));
    ParseOfHeaded(header, id, flags, labels, qtype, class_, more);
  }

  lemma ParseOfHeaded(header: Bytes, id: nat, flags: nat, labels: seq<Bytes>, qtype: nat, class_: nat, more: Bytes)
    requires |header| == 12 && U16(header, 0) == id && U16(header, 2) == flags && U16(header, 4) == 1
    requires Word(qtype) && Word(class_) && Acceptable(labels)
    ensures ParseQuery(header + (EncodeName(labels) + (Put16(qtype) + Put16(class_))) + more) ==
            Ok(Query(id, flags, 1, Dotted(labels), qtype, class_))
  {
    var question := EncodeName(labels) + (Put16(qtype) + Put16(class_));
    QuestionReads(header, labels, qtype, class_, more);
    assert header + question + more == header + (question + more);
    HeaderKept(header, question + more, 0);
    HeaderKept(header, question + more, 2);
    HeaderKept(header, question + more, 4);
  }

  predicate DotFree(labels: seq<Bytes>) {
    forall i :: 0 <= i < |labels| ==> labels[i] != [] && 46 !in labels[i]
  }

  /** What stands before the first dot. */
  function BeforeDot(s: Bytes): Bytes {
    if s == [] || s[0] == 46 then [] else [s[0]] + BeforeDot(s[1..])
  }

  lemma {:induction false} BeforeDotOf(l: Bytes, rest: Bytes)
    requires 46 !in l && (rest == [] || rest[0] == 46)
    ensures BeforeDot(l + rest) == l
    decreases |l|
  {
    if l == [] {
      assert l + rest == rest;
    } else {
      assert (l + rest)[1..] == l[1..] + rest;
      BeforeDotOf(l[1..], rest);
    }
  }

  /** The rest of a dotted name after its first label. */
  function DottedTail(labels: seq<Bytes>): Bytes
    requires labels != []
  {
    if |labels| == 1 then [] else [46] + Dotted(labels[1..])
  }

  lemma FirstLabel(labels: seq<Bytes>)
    requires labels != [] && DotFree(labels)
    ensures Dotted(labels) == labels[0] + DottedTail(labels) && BeforeDot(Dotted(labels)) == labels[0]
  {
    var l, tail := labels[0], DottedTail(labels);
    if |labels| == 1 {
      assert l + tail == l;
    } else {
      assert l + [46] + Dotted(labels[1..]) == l + tail;
    }
    BeforeDotOf(l, tail);
  }

  /** Equal dotted names start with the same label and have equal rests. */
  lemma SameFirstLabel(a: seq<Bytes>, b: seq<Bytes>)
    requires a != [] && b != [] && DotFree(a) && DotFree(b) && Dotted(a) == Dotted(b)
    ensures a[0] == b[0] && DottedTail(a) == DottedTail(b)
  {
    FirstLabel(a);
    FirstLabel(b);
    assert DottedTail(a) == Dotted(a)[|a[0]|..] && DottedTail(b) == Dotted(b)[|b[0]|..];
  }

  lemma SameTail(a: seq<Bytes>, b: seq<Bytes>)
    requires a != [] && b != [] && DottedTail(a) == DottedTail(b)
    ensures (|a| == 1 <==> |b| == 1) && Dotted(a[1..]) == Dotted(b[1..])
  {
    if |a| > 1 && |b| > 1 {
      assert DottedTail(a)[1..] == Dotted(a[1..]) && DottedTail(b)[1..] == Dotted(b[1..]);
    }
  }

  lemma DottedEmpty(a: seq<Bytes>)
    requires DotFree(a) && Dotted(a) == []
    ensures a == []
  {
    if a != [] { FirstLabel(a); }
  }

  /** Labels without dots can be told from the dotted name. */
  lemma {:induction false} DottedInjective(a: seq<Bytes>, b: seq<Bytes>)
    requires DotFree(a) && DotFree(b) && Dotted(a) == Dotted(b)
    ensures a == b
    decreases |a|
  {
    if a == [] {
      DottedEmpty(b);
    } else if b == [] {
      DottedEmpty(a);
    } else {
      SameFirstLabel(a, b);
      SameTail(a, b);
      DottedInjective(a[1..], b[1..]);
      assert a == [a[0]] + a[1..] && b == [b[0]] + b[1..];
    }
  }

  // ----- the reply for a captured name -----

  const QR: nat := 32768
  const AA: nat := 1024
  const RD: nat := 256
  const RA: nat := 128

  /** Response, authoritative, recursion available; recursion desired is copied. */
  function ReplyFlags(flags: nat): (f: nat)
    ensures Word(f)
  {
    QR + AA + RA + if (flags / RD) % 2 == 1 then RD else 0
  }

  /** The A record the source appends: a pointer to the question's name, type A, class IN, 60 seconds, four octets. */
  function AnswerBytes(ip: Bytes): Bytes {
    [0xC0, 0x0C, 0, 1, 0, 1, 0, 0, 0, 60, 0, 4] + ip
  }

  function ReplyHeader(q: Query, answers: nat): Bytes
    requires Word(q.id) && answers < 2
  {
    Put16(q.id) + Put16(ReplyFlags(q.flags)) + Put16(1) + Put16(answers) + Put16(0) + Put16(0)
  }

  /** Writes a 16-bit value over the two bytes that follow `front`. */
  method Store16(out: array<Byte>, off: nat, v: nat, ghost front: Bytes, ghost rest: Bytes)
    requires Word(v) && out[..] == front + rest && |front| == off && |rest| >= 2
    modifies out
    ensures out[..] == front + Put16(v) + rest[2..]
  {
    assert out.Length == |front + rest|;
    assert forall i :: 0 <= i < out.Length ==> out[i] == (front + rest)[i];
    out[off], out[off + 1] := v / 256, v % 256;
    assert forall i :: 0 <= i < out.Length ==> out[i] == (front + Put16(v) + rest[2..])[i];
  }

  /** The question ends after the name, type and class. */
  function QuestionEnd(req: Bytes): (n: nat)
    ensures n >= 12
  {
    match ReadFrom(req, 12, 12) case BadName(_) => 12 case Labels(_, next) => next + 4
  }

  /** Six header words over the first twelve bytes; the rest is the question, copied as it came. */
  method WriteHeader(out: array<Byte>, q: Query, answers: nat, ghost was: Bytes)
    requires out[..] == was && |was| >= 12 && Word(q.id) && answers < 2
    modifies out
    ensures out[..] == ReplyHeader(q, answers) + was[12..]
  {
    ghost var f := Put16(q.id);
    assert [] + was == was && [] + f == f;
    Store16(out, 0, q.id, [], was);
    Store16(out, 2, ReplyFlags(q.flags), f, was[2..]);
    f := f + Put16(ReplyFlags(q.flags));
    Store16(out, 4, 1, f, was[4..]);
    f := f + Put16(1);
    Store16(out, 6, answers, f, was[6..]);
    f := f + Put16(answers);
    Store16(out, 8, 0, f, was[8..]);
    f := f + Put16(0);
    Store16(out, 10, 0, f, was[10..]);
  }

  // ----- a reader for replies, straight from section 4.1 of RFC 1035 -----

  datatype Answer = Answer(owner: seq<Bytes>, rtype: nat, class_: nat, ttl: nat, rdata: Bytes)

  datatype Message = Message(
    id: nat, flags: nat, labels: seq<Bytes>, qtype: nat, class_: nat, answers: seq<Answer>)

  /** A name in a record: spelled out, or a pointer (section 4.1.4) to one spelled out earlier. */
  function RecordName(p: Bytes, off: nat): Name {
    if off + 2 <= |p| && p[off] >= 192 then
      var target := U16(p, off) - 0xC000;
      match ReadFrom(p, target, target) case BadName(e) => BadName(e) case Labels(labels, _) => Labels(labels, off + 2)
    else ReadFrom(p, off, off)
  }

  /** A resource record (section 4.1.3) and the offset after it. */
  function ReadRecord(p: Bytes, off: nat): Option<(Answer, nat)> {
    match RecordName(p, off)
    case BadName(_) => None
    case Labels(owner, at) =>
      if at + 10 > |p| then None
      else
        var size := U16(p, at + 8);
        if at + 10 + size > |p| then None
        else Some((Answer(owner, U16(p, at), U16(p, at + 2), 65536 * U16(p, at + 4) + U16(p, at + 6), p[at + 10..at + 10 + size]),
                   at + 10 + size))
  }

  function ReadRecords(p: Bytes, off: nat, count: nat): Option<(seq<Answer>, nat)>
    decreases count
  {
    if count == 0 then Some(([], off))
    else match ReadRecord(p, off)
         case None => None
         case Some((a, next)) =>
           match ReadRecords(p, next, count - 1) case None => None case Some((more, end)) => Some(([a] + more, end))
  }

  /** A message with one question, some answers and nothing else, to the last byte. */
  function ReadMessage(p: Bytes): Option<Message> {
    if |p| < 12 || U16(p, 4) != 1 || U16(p, 8) != 0 || U16(p, 10) != 0 then None
    else match ReadFrom(p, 12, 12)
         case BadName(_) => None
         case Labels(labels, next) =>
           if next + 4 > |p| then None
           else match ReadRecords(p, next + 4, U16(p, 6))
                case None => None
                case Some((answers, end)) =>
                  if end != |p| then None
                  else Some(Message(U16(p, 0), U16(p, 2), labels, U16(p, next), U16(p, next + 2), answers))
  }

  lemma WordsAt(p: Bytes, off: nat)
    requires off + 4 <= |p|
    ensures Word(U16(p, off)) && Word(U16(p, off + 2))
    ensures p[off..off + 4] == Put16(U16(p, off)) + Put16(U16(p, off + 2))
  {
    assert p[off..off + 4] == [p[off], p[off + 1], p[off + 2], p[off + 3]];
  }

  /** The question of a parsed query is the encoded name with type and class. */
  lemma QuestionBytes(req: Bytes, labels: seq<Bytes>, next: nat)
    requires Spells(req, 12, labels, next) && next + 4 <= |req|
    ensures Word(U16(req, next)) && Word(U16(req, next + 2))
    ensures req[12..next + 4] == EncodeName(labels) + (Put16(U16(req, next)) + Put16(U16(req, next + 2)))
  {
    WordsAt(req, next);
    assert req[12..next + 4] == req[12..next] + req[next..next + 4];
  }

  /** The bytes of the answer read back as one A record for the question's name. */
  lemma AnswerReads(before: Bytes, labels: seq<Bytes>, ip: Bytes)
    requires |ip| == 4 && |before| >= 12 && ReadFrom(before + AnswerBytes(ip), 12, 12).Labels?
    requires ReadFrom(before + AnswerBytes(ip), 12, 12).labels == labels
    ensures var p := before + AnswerBytes(ip);
            ReadRecord(p, |before|) == Some((Answer(labels, 1, 1, 60, ip), |p|))
  {
    var p, off := before + AnswerBytes(ip), |before|;
    assert p[off] == 0xC0 && p[off + 1] == 0x0C;
    assert U16(p, off) == 0xC00C;
    assert p[off + 2] == 0 && p[off + 3] == 1 && p[off + 4] == 0 && p[off + 5] == 1;
    assert p[off + 6] == 0 && p[off + 7] == 0 && p[off + 8] == 0 && p[off + 9] == 60;
    assert p[off + 10] == 0 && p[off + 11] == 4;
    assert p[off + 12..off + 16] == ip;
  }

  /** The answers a captured reply carries: the address for type A, none for any other type. */
  function CapturedAnswers(labels: seq<Bytes>, qtype: nat, ip: Bytes): seq<Answer> {
    if qtype == 1 then [Answer(labels, 1, 1, 60, ip)] else []
  }

  function CapturedBytes(qtype: nat, ip: Bytes): Bytes {
    if qtype == 1 then AnswerBytes(ip) else []
  }

  lemma AnswersRead(before: Bytes, labels: seq<Bytes>, qtype: nat, ip: Bytes)
    requires |ip| == 4 && |before| >= 12
    requires var name := ReadFrom(before + CapturedBytes(qtype, ip), 12, 12); name.Labels? && name.labels == labels
    ensures var p := before + CapturedBytes(qtype, ip);
            ReadRecords(p, |before|, if qtype == 1 then 1 else 0) == Some((CapturedAnswers(labels, qtype, ip), |p|))
  {
    if qtype == 1 {
      AnswerReads(before, labels, ip);
      var p, a := before + AnswerBytes(ip), Answer(labels, 1, 1, 60, ip);
      assert ReadRecords(p, |p|, 0) == Some(([], |p|)) && [a] + [] == [a];
    }
  }

  lemma ReplyReads(req: Bytes, q: Query, ip: Bytes, labels: seq<Bytes>, next: nat)
    requires ParseQuery(req) == Ok(q) && |ip| == 4 && ReadFrom(req, 12, 12) == Labels(labels, next)
    ensures next + 4 <= |req| && Word(q.id)
    ensures ReadMessage(ReplyHeader(q, if q.qtype == 1 then 1 else 0) + req[12..next + 4] + CapturedBytes(q.qtype, ip)) ==
            Some(Message(q.id, ReplyFlags(q.flags), labels, q.qtype, q.class_, CapturedAnswers(labels, q.qtype, ip)))
  {
    ReadNameIff(req, 12, labels, next);
    QuestionBytes(req, labels, next);
    var n := if q.qtype == 1 then 1 else 0;
    HeaderWords(q, n);
    MessageReads(ReplyHeader(q, n), q.id, ReplyFlags(q.flags), q.qtype, q.class_, labels, ip);
  }

  /** Bit by bit: a response, standard query, authoritative, not truncated, recursion desired as asked and available, no error. */
  lemma ReplyFlagBits(flags: nat)
    ensures var f := ReplyFlags(flags);
            && f / 32768 == 1 && (f / 2048) % 16 == 0 && (f / 1024) % 2 == 1 && (f / 512) % 2 == 0
            && (f / 256) % 2 == (flags / 256) % 2 && (f / 128) % 2 == 1 && f % 128 == 0
            && f == 0x8480 + 256 * ((flags / 256) % 2)
  {
  }

  /**
   * The captured reply reads back as the same question under the same identifier, with
   * the flags of an authoritative answer and exactly one answer, the address for sixty
   * seconds, to a question of type A, and none to any other.
   */
  lemma ReplyReadsBack(req: Bytes, q: Query, ip: Bytes, labels: seq<Bytes>, next: nat)
    requires ParseQuery(req) == Ok(q) && |ip| == 4 && ReadFrom(req, 12, 12) == Labels(labels, next)
    ensures next + 4 <= |req| && Word(q.id)
    ensures ReadMessage(ReplyHeader(q, if q.qtype == 1 then 1 else 0) + req[12..next + 4] + CapturedBytes(q.qtype, ip)) ==
            Some(Message(q.id, 0x8480 + 256 * ((q.flags / 256) % 2), labels, q.qtype, q.class_,
                         if q.qtype == 1 then [Answer(labels, 1, 1, 60, ip)] else []))
  {
    ReplyReads(req, q, ip, labels, next);
    ReplyFlagBits(q.flags);
  }

  lemma HeaderWords(q: Query, answers: nat)
    requires Word(q.id) && answers < 2
    ensures var p := ReplyHeader(q, answers);
            && |p| == 12 && U16(p, 0) == q.id && U16(p, 2) == ReplyFlags(q.flags)
            && U16(p, 4) == 1 && U16(p, 6) == answers && U16(p, 8) == 0 && U16(p, 10) == 0
  {
  }

  lemma HeaderOf(p: Bytes, header: Bytes, question: Bytes, answer: Bytes)
    requires p == header + question + answer && |header| == 12
    ensures forall off: nat :: off + 2 <= 12 ==> U16(p, off) == U16(header, off)
  {
    forall off: nat | off + 2 <= 12
      ensures U16(p, off) == U16(header, off)
    {
      assert p == header + (question + answer);
      HeaderKept(header, question + answer, off);
    }
  }

  lemma MessageReads(header: Bytes, id: nat, flags: nat, qtype: nat, class_: nat, labels: seq<Bytes>, ip: Bytes)
    requires |header| == 12 && U16(header, 0) == id && U16(header, 2) == flags && U16(header, 4) == 1
    requires U16(header, 6) == (if qtype == 1 then 1 else 0) && U16(header, 8) == 0 && U16(header, 10) == 0
    requires Word(qtype) && Word(class_) && Acceptable(labels) && |ip| == 4
    ensures ReadMessage(header + (EncodeName(labels) + (Put16(qtype) + Put16(class_))) + CapturedBytes(qtype, ip)) ==
            Some(Message(id, flags, labels, qtype, class_, CapturedAnswers(labels, qtype, ip)))
  {
    var question := EncodeName(labels) + (Put16(qtype) + Put16(class_));
    var answer := CapturedBytes(qtype, ip);
    QuestionReads(header, labels, qtype, class_, answer);
    AnswersRead(header + question, labels, qtype, ip);
    var p := header + question + answer;
    HeaderOf(p, header, question, answer);
    MessageOfParts(p, labels, 12 + |EncodeName(labels)|, CapturedAnswers(labels, qtype, ip));
  }

  lemma MessageOfParts(p: Bytes, labels: seq<Bytes>, next: nat, answers: seq<Answer>)
    requires |p| >= 12 && U16(p, 4) == 1 && U16(p, 8) == 0 && U16(p, 10) == 0
    requires ReadFrom(p, 12, 12) == Labels(labels, next) && next + 4 <= |p|
    requires ReadRecords(p, next + 4, U16(p, 6)) == Some((answers, |p|))
    ensures ReadMessage(p) == Some(Message(U16(p, 0), U16(p, 2), labels, U16(p, next), U16(p, next + 2), answers))
  {
  }

  /** The bytes of the reply: header over the copied question, then the answer. */
  method AssembleReply(req: Bytes, q: Query, ip: Bytes) returns (reply: Bytes)
    requires ParseQuery(req) == Ok(q) && |ip| == 4
    ensures QuestionEnd(req) <= |req| && Word(q.id)
    ensures reply == ReplyHeader(q, if q.qtype == 1 then 1 else 0) + req[12..QuestionEnd(req)] + CapturedBytes(q.qtype, ip)
  {
    var name := ReadName(req, 12);
    var qEnd := name.next + 4;
    var out := new Byte[qEnd](i requires 0 <= i < qEnd <= |req| => req[i]);
    assert out[..] == req[..qEnd];
    WriteHeader(out, q, if q.qtype == 1 then 1 else 0, req[..qEnd]);
    assert req[..qEnd][12..] == req[12..qEnd];
    reply := out[..];
    if q.qtype == 1 { reply := reply + AnswerBytes(ip); } else { assert reply == reply + []; }
  }

  /** Builds the reply; read back, it says what ReplyReadsBack says. */
  method BuildCapturedReply(req: Bytes, q: Query, ip: Bytes) returns (reply: Bytes)
    requires ParseQuery(req) == Ok(q) && |ip| == 4
    ensures QuestionEnd(req) <= |req| && Word(q.id)
    ensures reply == ReplyHeader(q, if q.qtype == 1 then 1 else 0) + req[12..QuestionEnd(req)] + CapturedBytes(q.qtype, ip)
    ensures ReadFrom(req, 12, 12).Labels?
    ensures var labels := ReadFrom(req, 12, 12).labels;
            ReadMessage(reply) ==
            Some(Message(q.id, 0x8480 + 256 * ((q.flags / 256) % 2), labels, q.qtype, q.class_,
                         if q.qtype == 1 then [Answer(labels, 1, 1, 60, ip)] else []))
  {
    reply := AssembleReply(req, q, ip);
    ReplyReadsBack(req, q, ip, ReadFrom(req, 12, 12).labels, ReadFrom(req, 12, 12).next);
  }
}
