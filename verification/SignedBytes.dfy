/**
 * What the signed bytes of a takedown (core/dht/revoke.go, RevokeCanonical and
 * revokeID) say about it. They are built from trimmed, lower-cased lines, while
 * applyRevoke parses the chunks as they came; so two payloads with the same signed
 * bytes, hence the same identifier, can block different keys. This module says
 * exactly when they do not.
 */
module SignedBytes {
  import opened NodeId
  import opened Options
  import opened Text
  import opened Revoke

  // ----- what the signed bytes determine -----

  /** With one-line nonces they determine nonce, timestamp and what stands above, whatever names and chunks contain. */
  lemma CanonicalSplits(p: Payload, q: Payload)
    requires OneLine(p.nonce) && OneLine(q.nonce) && Canonical(p) == Canonical(q)
    ensures p.timestamp == q.timestamp && p.nonce == q.nonce && Heading(p.name, p.chunks) == Heading(q.name, q.chunks)
  {
    var hp, hq := Heading(p.name, p.chunks), Heading(q.name, q.chunks);
    LastLine(hp + "\n" + Decimal(p.timestamp), p.nonce, hq + "\n" + Decimal(q.timestamp), q.nonce);
    DecimalOneLine(p.timestamp);
    DecimalOneLine(q.timestamp);
    LastLine(hp, Decimal(p.timestamp), hq, Decimal(q.timestamp));
    DecimalInjective(p.timestamp, q.timestamp);
  }

  /** The normalised chunks in signing order. */
  function Lines(chunks: seq<string>): seq<string> {
    SortStrings(Map(Norm, chunks))
  }

  /** No chunks and one blank chunk are signed alike. */
  predicate Blank(chunks: seq<string>) {
    Lines(chunks) == [] || Lines(chunks) == [""]
  }

  /** Equal up to order, case and surrounding spaces; or both blank. */
  predicate SameLines(a: seq<string>, b: seq<string>) {
    Lines(a) == Lines(b) || (Blank(a) && Blank(b))
  }

  /** Name, chunks and nonce are single lines, spaces around name and chunks aside. */
  predicate Plain(p: Payload) {
    OneLine(Norm(p.name)) && OneLine(p.nonce) && OneLiners(Map(Norm, p.chunks))
  }

  lemma LinesMembers(chunks: seq<string>)
    ensures |Lines(chunks)| == |chunks|
    ensures forall x :: x in Lines(chunks) <==> x in Map(Norm, chunks)
  {
    var m := Map(Norm, chunks);
    SortStringsFacts(m);
    SameLength(SortStrings(m), m);
    forall x ensures x in Lines(chunks) <==> x in m {
      assert x in Lines(chunks) <==> x in multiset(Lines(chunks));
      assert x in m <==> x in multiset(m);
    }
  }

  lemma LinesOneLine(chunks: seq<string>)
    requires OneLiners(Map(Norm, chunks))
    ensures OneLiners(Lines(chunks))
  {
    LinesMembers(chunks);
    forall i | 0 <= i < |Lines(chunks)| ensures OneLine(Lines(chunks)[i]) {
      assert Lines(chunks)[i] in Map(Norm, chunks);
    }
  }

  /** Joined lines determine the list, up to the blank ones. */
  lemma JoinedIff(a: seq<string>, b: seq<string>)
    requires OneLiners(Map(Norm, a)) && OneLiners(Map(Norm, b))
    ensures JoinLines(Lines(a)) == JoinLines(Lines(b)) <==> SameLines(a, b)
  {
    LinesOneLine(a);
    LinesOneLine(b);
    if JoinLines(Lines(a)) == JoinLines(Lines(b)) {
      var x, y := if Lines(a) == [] then [""] else Lines(a), if Lines(b) == [] then [""] else Lines(b);
      JoinLinesInjective(x, y);
    }
  }

  lemma HeadingIff(p: Payload, q: Payload)
    requires Plain(p) && Plain(q)
    ensures Heading(p.name, p.chunks) == Heading(q.name, q.chunks) <==>
            Norm(p.name) == Norm(q.name) && SameLines(p.chunks, q.chunks)
  {
    var x, y := JoinLines(Lines(p.chunks)), JoinLines(Lines(q.chunks));
    JoinedIff(p.chunks, q.chunks);
    var u, v := Norm(p.name) + "\n" + x, Norm(q.name) + "\n" + y;
    assert Heading(p.name, p.chunks) == "revoke\n" + u && Heading(q.name, q.chunks) == "revoke\n" + v;
    if "revoke\n" + u == "revoke\n" + v {
      assert u == ("revoke\n" + u)[7..] == ("revoke\n" + v)[7..] == v;
      FirstLine(Norm(p.name), x, Norm(q.name), y);
    }
  }

  /**
   * The signed bytes of plain payloads, exactly: they are equal if and only if
   * timestamp and nonce are equal, the names are up to case and surrounding spaces,
   * and so are the chunks, up to their order.
   */
  lemma CanonicalIff(p: Payload, q: Payload)
    requires Plain(p) && Plain(q)
    ensures Canonical(p) == Canonical(q) <==>
            && p.timestamp == q.timestamp && p.nonce == q.nonce
            && Norm(p.name) == Norm(q.name) && SameLines(p.chunks, q.chunks)
  {
    HeadingIff(p, q);
    if Canonical(p) == Canonical(q) { CanonicalSplits(p, q); }
  }

  /** For all payloads: reordering the chunks, changing case and adding or dropping surrounding spaces change nothing. */
  lemma CanonicalIgnoresOrderAndCase(c: Crypto, p: Payload, q: Payload)
    requires multiset(Map(Norm, p.chunks)) == multiset(Map(Norm, q.chunks))
    requires Norm(p.name) == Norm(q.name) && p.timestamp == q.timestamp && p.nonce == q.nonce
    ensures Canonical(p) == Canonical(q) && RevokeId(c, p) == RevokeId(c, q)
  {
    SortForgetsOrder(Map(Norm, p.chunks), Map(Norm, q.chunks));
  }

  lemma RecasedSameNorms(a: seq<string>, b: seq<string>)
    requires multiset(Map(Lower, a)) == multiset(Map(Lower, b))
    ensures multiset(Map(Norm, a)) == multiset(Map(Norm, b))
  {
    MapForgetsOrder(Norm, Map(Lower, a), Map(Lower, b));
    NormOfLower(a);
    NormOfLower(b);
  }

  lemma NormOfLower(s: seq<string>)
    ensures Map(Norm, Map(Lower, s)) == Map(Norm, s)
  {
    forall i | 0 <= i < |s| ensures Norm(Lower(s[i])) == Norm(s[i]) {
      assert Lower(Lower(s[i])) == Lower(s[i]);
      NormIgnoresCase(Lower(s[i]), s[i]);
    }
  }

  // ----- the keys the signed bytes speak of, and the keys that get blocked -----

  /** Some chunk is this key, spaces around it aside. */
  predicate Promises(chunks: seq<string>, id: Id) {
    exists i :: 0 <= i < |chunks| && IdFromHex(TrimSpace(chunks[i])) == Some(id)
  }

  lemma IdOfNorm(s: string)
    ensures IdFromHex(Norm(s)) == IdFromHex(TrimSpace(s))
  {
    FromHexIgnoresCase(TrimSpace(s));
  }

  lemma PromisedIffLine(chunks: seq<string>, id: Id)
    ensures Promises(chunks, id) <==> exists x :: x in Lines(chunks) && IdFromHex(x) == Some(id)
  {
    LinesMembers(chunks);
    if i :| 0 <= i < |chunks| && IdFromHex(TrimSpace(chunks[i])) == Some(id) {
      IdOfNorm(chunks[i]);
      assert Map(Norm, chunks)[i] in Lines(chunks);
    }
    if x :| x in Lines(chunks) && IdFromHex(x) == Some(id) {
      var i :| 0 <= i < |chunks| && Map(Norm, chunks)[i] == x;
      IdOfNorm(chunks[i]);
    }
  }

  lemma SameLinesSamePromises(a: seq<string>, b: seq<string>, id: Id)
    requires SameLines(a, b)
    ensures Promises(a, id) <==> Promises(b, id)
  {
    PromisedIffLine(a, id);
    PromisedIffLine(b, id);
    assert IdFromHex("") != Some(id);
  }

  /** A padded chunk does not parse, so what is blocked was promised. */
  lemma NamedIsPromised(chunks: seq<string>, id: Id)
    requires Names(chunks, id)
    ensures Promises(chunks, id)
  {
    var i :| 0 <= i < |chunks| && IdFromHex(chunks[i]) == Some(id);
    HexIsTrimmed(chunks[i]);
  }

  /** No key is lost to the spaces around it: whatever parses once trimmed is also there without them. */
  predicate LosesNone(chunks: seq<string>) {
    forall i :: 0 <= i < |chunks| && IdFromHex(TrimSpace(chunks[i])).Some? ==>
                  Names(chunks, IdFromHex(TrimSpace(chunks[i])).value)
  }

  lemma TrimmedLosesNone(chunks: seq<string>)
    requires forall i :: 0 <= i < |chunks| ==> TrimSpace(chunks[i]) == chunks[i]
    ensures LosesNone(chunks)
  {
  }

  lemma LosesNoneIff(chunks: seq<string>)
    ensures LosesNone(chunks) <==> forall id: Id :: Promises(chunks, id) ==> Names(chunks, id)
  {
    if LosesNone(chunks) {
      forall id: Id | Promises(chunks, id) ensures Names(chunks, id) {
        var i :| 0 <= i < |chunks| && IdFromHex(TrimSpace(chunks[i])) == Some(id);
      }
    } else {
      var i :| 0 <= i < |chunks| && IdFromHex(TrimSpace(chunks[i])).Some?
               && !Names(chunks, IdFromHex(TrimSpace(chunks[i])).value);
      assert Promises(chunks, IdFromHex(TrimSpace(chunks[i])).value);
    }
  }

  /**
   * Plain payloads with the same signed bytes: if one loses no key to padding, they
   * block the same keys if and only if the other loses none either.
   */
  lemma SameBytesSameNamesIff(p: Payload, q: Payload)
    requires Plain(p) && Plain(q) && Canonical(p) == Canonical(q) && LosesNone(p.chunks)
    ensures SameNames(p.chunks, q.chunks) <==> LosesNone(q.chunks)
  {
    CanonicalIff(p, q);
    LosesNoneIff(p.chunks);
    LosesNoneIff(q.chunks);
    forall id: Id
      ensures Promises(p.chunks, id) <==> Promises(q.chunks, id)
      ensures Names(p.chunks, id) <==> Promises(p.chunks, id)
      ensures Names(q.chunks, id) ==> Promises(q.chunks, id)
    {
      SameLinesSamePromises(p.chunks, q.chunks, id);
      if Names(p.chunks, id) { NamedIsPromised(p.chunks, id); }
      if Names(q.chunks, id) { NamedIsPromised(q.chunks, id); }
    }
  }

  /** In particular when every chunk is equal to its TrimSpace. */
  lemma TrimmedCopiesAgree(p: Payload, q: Payload)
    requires Plain(p) && Plain(q) && Canonical(p) == Canonical(q)
    requires forall i :: 0 <= i < |p.chunks| ==> TrimSpace(p.chunks[i]) == p.chunks[i]
    requires forall i :: 0 <= i < |q.chunks| ==> TrimSpace(q.chunks[i]) == q.chunks[i]
    ensures SameNames(p.chunks, q.chunks)
  {
    TrimmedLosesNone(p.chunks);
    TrimmedLosesNone(q.chunks);
    SameBytesSameNamesIff(p, q);
  }

  /** A copy with its chunks only reordered or in another case blocks the same keys, whatever they contain. */
  lemma SameChunksSameBlocks(a: seq<string>, b: seq<string>)
    requires multiset(Map(Lower, a)) == multiset(Map(Lower, b))
    ensures SameNames(a, b)
  {
    forall id: Id ensures Names(a, id) <==> Names(b, id) {
      if Names(a, id) { NamesCarriesOver(a, b, id); }
      if Names(b, id) { NamesCarriesOver(b, a, id); }
    }
  }

  lemma NamesCarriesOver(a: seq<string>, b: seq<string>, id: Id)
    requires multiset(Map(Lower, a)) == multiset(Map(Lower, b)) && Names(a, id)
    ensures Names(b, id)
  {
    var i :| 0 <= i < |a| && IdFromHex(a[i]) == Some(id);
    assert Map(Lower, a)[i] in multiset(Map(Lower, b));
    var j :| 0 <= j < |b| && Map(Lower, b)[j] == Lower(a[i]);
    FromHexIgnoresCase(a[i]);
    FromHexIgnoresCase(b[j]);
  }

  // ----- each hypothesis is needed -----

  lemma NamesNothing(s: string, i: nat)
    requires i < |s| && HexValue(s[i]).None?
    ensures forall id: Id :: !Names([s], id)
  {
    if FromHex(s).Some? { HexChars(s, i); }
  }

  lemma PaddedNorm(x: string)
    requires TrimSpace(x) == x
    ensures Norm(" " + x) == Norm(x)
  {
    assert (" " + x)[1..] == x;
    assert TrimLeft(" " + x) == TrimLeft(x);
  }

  /** A space in front of a chunk is not signed, yet the chunk no longer parses. */
  lemma PaddedCopyNamesNothing(p: Payload, q: Payload, id: Id)
    requires p.chunks == [Hex(id)] && q == p.(chunks := [" " + Hex(id)])
    ensures Canonical(p) == Canonical(q) && Names(p.chunks, id) && forall k: Id :: !Names(q.chunks, k)
  {
    FromHexOfHex(id);
    HexIsTrimmed(Hex(id));
    PaddedNorm(Hex(id));
    assert Map(Norm, p.chunks) == Map(Norm, q.chunks);
    NamesNothing(" " + Hex(id), 0);
    assert IdFromHex(p.chunks[0]) == Some(id);
  }

  /** Lines that are normal and in order are signed as they are. */
  lemma NormalLines(s: seq<string>)
    requires SortedStrings(s) && forall i :: 0 <= i < |s| ==> Norm(s[i]) == s[i]
    ensures Lines(s) == s
  {
    assert Map(Norm, s) == s;
    SortOfSorted(s);
  }

  lemma NormalOne(x: string)
    requires Norm(x) == x
    ensures Lines([x]) == [x] && JoinLines([x]) == x
  {
    NormalLines([x]);
  }

  lemma NormalTwo(x: string, y: string)
    requires Norm(x) == x && Norm(y) == y && Leq(x, y)
    ensures Lines([x, y]) == [x, y] && JoinLines([x, y]) == x + "\n" + y
  {
    NormalLines([x, y]);
    assert [x, y][1..] == [y];
  }

  lemma NormalThree(x: string, y: string, z: string)
    requires Norm(x) == x && Norm(y) == y && Norm(z) == z && Leq(x, y) && Leq(y, z) && Leq(x, z)
    ensures Lines([x, y, z]) == [x, y, z] && JoinLines([x, y, z]) == x + "\n" + (y + "\n" + z)
  {
    NormalLines([x, y, z]);
    NormalTwo(y, z);
    assert [x, y, z][1..] == [y, z];
  }

  lemma TwoKeys(a: Id, b: Id)
    requires Leq(Hex(a), Hex(b))
    ensures Lines([Hex(a), Hex(b)]) == [Hex(a), Hex(b)] && Lines([Hex(b)]) == [Hex(b)]
    ensures JoinLines([Hex(a), Hex(b)]) == Hex(a) + "\n" + Hex(b) && JoinLines([Hex(b)]) == Hex(b)
    ensures Names([Hex(a), Hex(b)], a) && (a != b ==> !Names([Hex(b)], a))
  {
    NormOfHex(a);
    NormOfHex(b);
    FromHexOfHex(a);
    FromHexOfHex(b);
    NormalTwo(Hex(a), Hex(b));
    NormalOne(Hex(b));
    assert IdFromHex([Hex(a), Hex(b)][0]) == Some(a);
  }

  lemma WithHexEnd(front: string, id: Id)
    requires front != [] && !IsSpace(front[0]) && Lower(front) == front
    ensures Norm(front + Hex(id)) == front + Hex(id)
  {
    var s := front + Hex(id);
    FromHexOfHex(id);
    HexChars(Hex(id), |Hex(id)| - 1);
    assert s[|s| - 1] == Hex(id)[|Hex(id)| - 1];
    TrimmedEnds(s);
    HexIsLower(id);
    assert Lower(s) == Lower(front) + Lower(Hex(id));
  }

  /** A name of two lines can swallow the first chunk. */
  lemma NameSwallowsChunk(p: Payload, q: Payload, a: Id, b: Id)
    requires Leq(Hex(a), Hex(b)) && a != b
    requires p.name == "n" && p.chunks == [Hex(a), Hex(b)]
    requires q == p.(name := "n\n" + Hex(a), chunks := [Hex(b)])
    ensures Canonical(p) == Canonical(q) && Names(p.chunks, a) && !Names(q.chunks, a)
  {
    TwoKeys(a, b);
    assert Norm("n") == "n" by { TrimmedEnds("n"); }
    assert Norm("n\n" + Hex(a)) == "n\n" + Hex(a) by { WithHexEnd("n\n", a); }
    LineMoves(Hex(a), Hex(b));
  }

  lemma LineMoves(x: string, y: string)
    ensures "revoke\n" + "n" + "\n" + (x + "\n" + y) == "revoke\n" + ("n\n" + x) + "\n" + y
  {
    assert "n\n" == "n" + "\n";
  }

  /** A chunk of two lines is signed like two chunks, and names neither. */
  lemma ChunkOfTwoLines(p: Payload, q: Payload, a: Id, b: Id)
    requires Leq(Hex(a), Hex(b)) && p.chunks == [Hex(a), Hex(b)] && q == p.(chunks := [Hex(a) + "\n" + Hex(b)])
    ensures Canonical(p) == Canonical(q) && Names(p.chunks, a) && forall k: Id :: !Names(q.chunks, k)
  {
    TwoKeys(a, b);
    var s := Hex(a) + "\n" + Hex(b);
    FromHexOfHex(a);
    HexChars(Hex(a), 0);
    HexIsLower(a);
    WithHexEnd(Hex(a) + "\n", b);
    NormalOne(s);
    assert s[|Hex(a)|] == '\n';
    NamesNothing(s, |Hex(a)|);
  }

  lemma DecimalIsNormal(t: int)
    ensures Norm(Decimal(t)) == Decimal(t)
  {
    TrimmedEnds(Decimal(t));
    assert Lower(Decimal(t)) == Decimal(t);
  }

  lemma BlankIsNormal()
    ensures Norm("") == ""
  {
  }

  /** A nonce of two lines can be read as a later timestamp: for all names, timestamps and rests of the nonce. */
  lemma NewlineNonceIsAmbiguous(p: Payload, q: Payload, rest: string)
    requires p.chunks == [] && p.nonce == Decimal(q.timestamp) + "\n" + rest
    requires q.name == p.name && q.chunks == ["", Decimal(p.timestamp)] && q.nonce == rest
    ensures Canonical(p) == Canonical(q)
  {
    var front, t, u := "revoke\n" + Norm(p.name) + "\n", Decimal(p.timestamp), Decimal(q.timestamp);
    DecimalIsNormal(p.timestamp);
    BlankIsNormal();
    NormalTwo("", t);
    assert Lines(p.chunks) == [];
    TimeMoves(front, t, u, rest);
  }

  lemma TimeMoves(front: string, t: string, u: string, rest: string)
    ensures front + "" + "\n" + t + "\n" + (u + "\n" + rest) == front + ("" + "\n" + t) + "\n" + u + "\n" + rest
  {
  }

  /** A nonce of several lines can hold a key that another reading of the bytes blocks. */
  lemma NonceHoldsChunk(p: Payload, q: Payload, id: Id, rest: string)
    requires Leq(Decimal(p.timestamp), Hex(id))
    requires p.chunks == [] && p.nonce == Hex(id) + "\n" + Decimal(q.timestamp) + "\n" + rest
    requires q.name == p.name && q.chunks == ["", Decimal(p.timestamp), Hex(id)] && q.nonce == rest
    ensures Canonical(p) == Canonical(q) && !Names(p.chunks, id) && Names(q.chunks, id)
  {
    DecimalIsNormal(p.timestamp);
    BlankIsNormal();
    NormOfHex(id);
    FromHexOfHex(id);
    NormalThree("", Decimal(p.timestamp), Hex(id));
    assert Lines(p.chunks) == [];
    NonceMoves("revoke\n" + Norm(p.name) + "\n", Decimal(p.timestamp), Hex(id), Decimal(q.timestamp), rest);
    assert IdFromHex(q.chunks[2]) == Some(id);
  }

  lemma NonceMoves(front: string, t: string, x: string, u: string, rest: string)
    ensures front + "" + "\n" + t + "\n" + (x + "\n" + u + "\n" + rest) ==
            front + ("" + "\n" + (t + "\n" + x)) + "\n" + u + "\n" + rest
  {
  }

  // ----- what a node does with two copies -----

  /**
   * The first copy decides: once a node has applied a payload, one with the same
   * identifier is a duplicate, and of the keys it names exactly those are blocked
   * that were blocked before or that the first copy names too.
   */
  lemma FirstCopyDecides(c: Crypto, n: Node, first: Call, second: Call, id: Id)
    requires Applies(c, n, first) && RevokeId(c, second.p) == RevokeId(c, first.p)
    requires first.cut - first.insert <= 2 * MAX_AGE * SECOND
    ensures var m := Handle(c, n, first);
            && !Applies(c, m, second) && Handle(c, m, second) == m
            && (id in m.blocked <==> id in n.blocked || Names(first.p.chunks, id))
  {
    var rid := RevokeId(c, first.p);
    ApplyRevokeBlocks(n.(seen := Prune(n.seen[rid := first.insert], first.cut)), first.p.chunks, id);
  }

  /** So a padded copy that comes first keeps the genuine one from blocking anything. */
  lemma PaddedCopySuppresses(c: Crypto, n: Node, first: Call, second: Call, id: Id)
    requires Applies(c, n, first) && first.cut - first.insert <= 2 * MAX_AGE * SECOND
    requires second.p.chunks == [Hex(id)] && first.p == second.p.(chunks := [" " + Hex(id)])
    ensures Names(second.p.chunks, id)
    ensures var m := Handle(c, Handle(c, n, first), second); id in m.blocked <==> id in n.blocked
  {
    PaddedCopyNamesNothing(second.p, first.p, id);
    FirstCopyDecides(c, n, first, second, id);
  }
}
