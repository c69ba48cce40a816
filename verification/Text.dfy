/**
 * The string operations the protocol relies on: normalisation, sorting, joining,
 * decimal printing and hexadecimal identifiers, with the laws about them.
 */
module Text {
  import opened NodeId
  import opened Options

  // ----- strings.ToLower and strings.TrimSpace -----

  function LowerChar(c: char): char {
    if 'A' <= c <= 'Z' then c - 'A' + 'a' else c
  }

  function Lower(s: string): (r: string)
    ensures |r| == |s|
    ensures forall i :: 0 <= i < |s| ==> r[i] == LowerChar(s[i])
  {
    seq(|s|, i requires 0 <= i < |s| => LowerChar(s[i]))
  }

  predicate IsSpace(c: char) {
    c == ' ' || '\t' <= c <= '\r' || c == '\U{85}' || c == '\U{A0}'
  }

  function TrimLeft(s: string): string {
    if s != [] && IsSpace(s[0]) then TrimLeft(s[1..]) else s
  }

  function TrimRight(s: string): string {
    if s != [] && IsSpace(s[|s| - 1]) then TrimRight(s[..|s| - 1]) else s
  }

  function TrimSpace(s: string): string {
    TrimRight(TrimLeft(s))
  }

  /** strings.ToLower(strings.TrimSpace(s)). */
  function Norm(s: string): string {
    Lower(TrimSpace(s))
  }

  lemma {:induction false} LowerTrimLeft(s: string)
    ensures Lower(TrimLeft(s)) == TrimLeft(Lower(s))
  {
    if s != [] && IsSpace(s[0]) {
      LowerTrimLeft(s[1..]);
      assert Lower(s)[1..] == Lower(s[1..]);
    }
  }

  lemma {:induction false} LowerTrimRight(s: string)
    ensures Lower(TrimRight(s)) == TrimRight(Lower(s))
  {
    if s != [] && IsSpace(s[|s| - 1]) {
      LowerTrimRight(s[..|s| - 1]);
      assert Lower(s)[..|s| - 1] == Lower(s[..|s| - 1]);
    }
  }

  predicate AllSpaces(s: string) {
    forall i :: 0 <= i < |s| ==> IsSpace(s[i])
  }

  lemma {:induction false} TrimLeftIs(s: string) returns (a: string)
    ensures s == a + TrimLeft(s) && AllSpaces(a) && (TrimLeft(s) != [] ==> !IsSpace(TrimLeft(s)[0]))
  {
    a := [];
    if s != [] && IsSpace(s[0]) {
      var rest := TrimLeftIs(s[1..]);
      a := [s[0]] + rest;
      assert s == [s[0]] + s[1..];
    }
  }

  lemma {:induction false} TrimRightIs(s: string) returns (b: string)
    ensures s == TrimRight(s) + b && AllSpaces(b)
    ensures TrimRight(s) != [] ==> !IsSpace(TrimRight(s)[|TrimRight(s)| - 1])
  {
    b := [];
    if s != [] && IsSpace(s[|s| - 1]) {
      var rest := TrimRightIs(s[..|s| - 1]);
      b := rest + [s[|s| - 1]];
      assert s == s[..|s| - 1] + [s[|s| - 1]];
    }
  }

  /** Trimming takes off spaces at both ends, all of them and nothing else. */
  lemma TrimIs(s: string) returns (a: string, b: string)
    ensures var t := TrimSpace(s);
            && s == a + t + b && AllSpaces(a) && AllSpaces(b)
            && (t != [] ==> !IsSpace(t[0]) && !IsSpace(t[|t| - 1]))
  {
    a := TrimLeftIs(s);
    b := TrimRightIs(TrimLeft(s));
  }

  /** Normalisation does not see the case of letters. */
  lemma NormIgnoresCase(a: string, b: string)
    requires Lower(a) == Lower(b)
    ensures Norm(a) == Norm(b)
  {
    LowerTrimLeft(a);
    LowerTrimLeft(b);
    LowerTrimRight(TrimLeft(a));
    LowerTrimRight(TrimLeft(b));
  }

  // ----- sort.Strings -----

  /** Lexicographic order by code point, which is Go's order on UTF-8 bytes. */
  predicate Leq(a: string, b: string) {
    a == [] || (b != [] && (a[0] < b[0] || (a[0] == b[0] && Leq(a[1..], b[1..]))))
  }

  lemma {:induction false} LeqTotal(a: string, b: string)
    ensures Leq(a, b) || Leq(b, a)
    ensures Leq(a, b) && Leq(b, a) ==> a == b
  {
    if a != [] && b != [] && a[0] == b[0] {
      LeqTotal(a[1..], b[1..]);
      assert a == [a[0]] + a[1..] && b == [b[0]] + b[1..];
    }
  }

  lemma {:induction false} LeqTrans(a: string, b: string, c: string)
    requires Leq(a, b) && Leq(b, c)
    ensures Leq(a, c)
  {
    if a != [] && a[0] == b[0] && b[0] == c[0] { LeqTrans(a[1..], b[1..], c[1..]); }
  }

  function InsertString(x: string, s: seq<string>): seq<string> {
    if s == [] || Leq(x, s[0]) then [x] + s else [s[0]] + InsertString(x, s[1..])
  }

  function SortStrings(s: seq<string>): seq<string> {
    if s == [] then [] else InsertString(s[0], SortStrings(s[1..]))
  }

  predicate SortedStrings(s: seq<string>) {
    forall i, j :: 0 <= i < j < |s| ==> Leq(s[i], s[j])
  }

  lemma {:induction false} InsertStringMultiset(x: string, s: seq<string>)
    ensures multiset(InsertString(x, s)) == multiset(s) + multiset{x}
  {
    if s != [] && !Leq(x, s[0]) {
      InsertStringMultiset(x, s[1..]);
      assert s == [s[0]] + s[1..];
    }
  }

  lemma {:induction false} InsertStringSorted(x: string, s: seq<string>)
    requires SortedStrings(s)
    ensures SortedStrings(InsertString(x, s))
  {
    if s == [] {
    } else if Leq(x, s[0]) {
      forall i | 0 < i < |s| ensures Leq(x, s[i]) { LeqTrans(x, s[0], s[i]); }
    } else {
      LeqTotal(x, s[0]);
      InsertStringSorted(x, s[1..]);
      InsertStringMultiset(x, s[1..]);
      var r := InsertString(x, s[1..]);
      forall i | 0 <= i < |r| ensures Leq(s[0], r[i]) {
        assert r[i] in multiset(r);
        assert r[i] == x || r[i] in s[1..];
      }
    }
  }

  lemma {:induction false} SortStringsFacts(s: seq<string>)
    ensures SortedStrings(SortStrings(s))
    ensures multiset(SortStrings(s)) == multiset(s)
  {
    if s != [] {
      SortStringsFacts(s[1..]);
      InsertStringMultiset(s[0], SortStrings(s[1..]));
      InsertStringSorted(s[0], SortStrings(s[1..]));
      assert s == [s[0]] + s[1..];
    }
  }

  lemma SortedHeadLeast(a: seq<string>, b: seq<string>)
    requires SortedStrings(a) && SortedStrings(b) && multiset(a) == multiset(b) && a != [] && b != []
    ensures Leq(a[0], b[0])
  {
    assert b[0] in multiset(a);
    var i :| 0 <= i < |a| && a[i] == b[0];
    if i == 0 { LeqTotal(a[0], a[0]); }
  }

  lemma Cancel(x: multiset<string>, y: multiset<string>, e: string)
    requires x + multiset{e} == y + multiset{e}
    ensures x == y
  {
    assert x == x + multiset{e} - multiset{e};
    assert y == y + multiset{e} - multiset{e};
  }

  function DropAt(b: seq<string>, i: nat): (r: seq<string>)
    requires i < |b|
    ensures |r| == |b| - 1
  {
    b[..i] + b[i + 1..]
  }

  lemma TakeOut(b: seq<string>, i: nat)
    requires i < |b|
    ensures multiset(b) == multiset(DropAt(b, i)) + multiset{b[i]}
  {
    assert b == b[..i] + [b[i]] + b[i + 1..];
  }

  /** Taking the same element out of two rearrangements leaves rearrangements. */
  lemma TailsAgree(a: seq<string>, b: seq<string>, i: nat)
    requires multiset(a) == multiset(b) && a != [] && i < |b| && b[i] == a[0]
    ensures multiset(a[1..]) == multiset(DropAt(b, i))
  {
    TakeOut(a, 0);
    TakeOut(b, i);
    assert DropAt(a, 0) == a[1..];
    Cancel(multiset(a[1..]), multiset(DropAt(b, i)), a[0]);
  }

  lemma SameLength(a: seq<string>, b: seq<string>)
    requires multiset(a) == multiset(b)
    ensures |a| == |b|
  {
    assert |multiset(a)| == |a| && |multiset(b)| == |b|;
  }

  lemma SameHead(a: seq<string>, b: seq<string>)
    requires SortedStrings(a) && SortedStrings(b) && multiset(a) == multiset(b) && a != [] && b != []
    ensures a[0] == b[0]
  {
    SortedHeadLeast(a, b);
    SortedHeadLeast(b, a);
    LeqTotal(a[0], b[0]);
  }

  /** A list has one sorted rearrangement. */
  lemma {:induction false} SortedUnique(a: seq<string>, b: seq<string>)
    requires SortedStrings(a) && SortedStrings(b) && multiset(a) == multiset(b)
    ensures a == b
    decreases |a|
  {
    SameLength(a, b);
    if a != [] {
      SameHead(a, b);
      TailsAgree(a, b, 0);
      assert DropAt(b, 0) == b[1..];
      SortedUnique(a[1..], b[1..]);
      assert a == [a[0]] + a[1..] && b == [b[0]] + b[1..];
    }
  }

  /** Sorting forgets the order of its input. */
  lemma SortForgetsOrder(a: seq<string>, b: seq<string>)
    requires multiset(a) == multiset(b)
    ensures SortStrings(a) == SortStrings(b)
  {
    SortStringsFacts(a);
    SortStringsFacts(b);
    SortedUnique(SortStrings(a), SortStrings(b));
  }

  lemma SortOfSorted(s: seq<string>)
    requires SortedStrings(s)
    ensures SortStrings(s) == s
  {
    SortStringsFacts(s);
    SortedUnique(SortStrings(s), s);
  }

  // ----- mapping over a list -----

  function Map(f: string -> string, s: seq<string>): (r: seq<string>)
    ensures |r| == |s|
    ensures forall i :: 0 <= i < |s| ==> r[i] == f(s[i])
  {
    seq(|s|, i requires 0 <= i < |s| => f(s[i]))
  }

  lemma MapTakeOut(f: string -> string, b: seq<string>, i: nat)
    requires i < |b|
    ensures multiset(Map(f, b)) == multiset(Map(f, DropAt(b, i))) + multiset{f(b[i])}
  {
    TakeOut(Map(f, b), i);
    assert DropAt(Map(f, b), i) == Map(f, DropAt(b, i));
  }

  /** Rearranged lists have rearranged images. */
  lemma {:induction false} MapForgetsOrder(f: string -> string, a: seq<string>, b: seq<string>)
    requires multiset(a) == multiset(b)
    ensures multiset(Map(f, a)) == multiset(Map(f, b))
    decreases |a|
  {
    SameLength(a, b);
    if a != [] {
      assert a[0] in multiset(b);
      var i :| 0 <= i < |b| && b[i] == a[0];
      TailsAgree(a, b, i);
      MapForgetsOrder(f, a[1..], DropAt(b, i));
      assert DropAt(a, 0) == a[1..];
      MapTakeOut(f, a, 0);
      MapTakeOut(f, b, i);
    }
  }

  // ----- strings.Join and %d -----

  function JoinLines(s: seq<string>): string {
    if s == [] then "" else if |s| == 1 then s[0] else s[0] + "\n" + JoinLines(s[1..])
  }

  function Digit(d: nat): char
    requires d < 10
  {
    '0' + d as char
  }

  function DecimalNat(n: nat): (s: string)
    ensures s != [] && forall i :: 0 <= i < |s| ==> '0' <= s[i] <= '9'
  {
    if n < 10 then [Digit(n)] else DecimalNat(n / 10) + [Digit(n % 10)]
  }

  function Decimal(n: int): string {
    if n < 0 then "-" + DecimalNat(-n) else DecimalNat(n)
  }

  /** The number a string of digits stands for. */
  function DigitsValue(s: string): nat
    requires forall i :: 0 <= i < |s| ==> '0' <= s[i] <= '9'
  {
    if s == [] then 0 else 10 * DigitsValue(s[..|s| - 1]) + (s[|s| - 1] as int - '0' as int)
  }

  /** Decimal notation stands for its number, and has no leading zero. */
  lemma {:induction false} DecimalReads(n: nat)
    ensures DigitsValue(DecimalNat(n)) == n && (n > 0 ==> DecimalNat(n)[0] != '0')
  {
    var s := DecimalNat(n);
    if n >= 10 {
      DecimalReads(n / 10);
      assert s[..|s| - 1] == DecimalNat(n / 10);
    } else {
      assert s[..|s| - 1] == [];
    }
  }

  lemma {:induction false} DecimalNatInjective(m: nat, n: nat)
    requires DecimalNat(m) == DecimalNat(n)
    ensures m == n
  {
    var a, b := DecimalNat(m), DecimalNat(n);
    assert a[|a| - 1] == Digit(m % 10) && b[|b| - 1] == Digit(n % 10);
    if m >= 10 && n >= 10 {
      assert a[..|a| - 1] == DecimalNat(m / 10) && b[..|b| - 1] == DecimalNat(n / 10);
      DecimalNatInjective(m / 10, n / 10);
    }
  }

  lemma DecimalInjective(m: int, n: int)
    requires Decimal(m) == Decimal(n)
    ensures m == n
  {
    assert Decimal(m)[0] == '-' <==> m < 0;
    assert Decimal(n)[0] == '-' <==> n < 0;
    if m < 0 {
      assert Decimal(m)[1..] == DecimalNat(-m) && Decimal(n)[1..] == DecimalNat(-n);
      DecimalNatInjective(-m, -n);
    } else {
      DecimalNatInjective(m, n);
    }
  }

  predicate OneLine(s: string) {
    '\n' !in s
  }

  lemma DecimalOneLine(n: int)
    ensures OneLine(Decimal(n))
  {
  }

  /** What follows the last newline can be read back. */
  lemma LastLine(u: string, v: string, u': string, v': string)
    requires OneLine(v) && OneLine(v')
    requires u + "\n" + v == u' + "\n" + v'
    ensures u == u' && v == v'
  {
    var s := u + "\n" + v;
    assert s[|u|] == '\n' && s[|u'|] == '\n';
    assert |u| == |u'|;
    assert s[..|u|] == u && s[..|u'|] == u';
    assert s[|u| + 1..] == v && s[|u'| + 1..] == v';
  }

  /** And so can what stands before the first. */
  lemma FirstLine(u: string, v: string, u': string, v': string)
    requires OneLine(u) && OneLine(u')
    requires u + "\n" + v == u' + "\n" + v'
    ensures u == u' && v == v'
  {
    var s := u + "\n" + v;
    assert s[|u|] == '\n' && s[|u'|] == '\n';
    assert |u| == |u'|;
    assert s[..|u|] == u && s[..|u'|] == u';
    assert s[|u| + 1..] == v && s[|u'| + 1..] == v';
  }

  predicate OneLiners(s: seq<string>) {
    forall i :: 0 <= i < |s| ==> OneLine(s[i])
  }

  lemma JoinedHasBreak(s: seq<string>)
    requires |s| > 1
    ensures '\n' in JoinLines(s)
  {
    assert JoinLines(s)[|s[0]|] == '\n';
  }

  /** Lines that are joined can be told apart again. */
  lemma {:induction false} JoinLinesInjective(a: seq<string>, b: seq<string>)
    requires a != [] && b != [] && OneLiners(a) && OneLiners(b) && JoinLines(a) == JoinLines(b)
    ensures a == b
    decreases |a|
  {
    if |a| > 1 { JoinedHasBreak(a); }
    if |b| > 1 { JoinedHasBreak(b); }
    if |a| == 1 {
      assert a == [a[0]] && b == [b[0]];
    } else {
      FirstLine(a[0], JoinLines(a[1..]), b[0], JoinLines(b[1..]));
      JoinLinesInjective(a[1..], b[1..]);
      assert a == [a[0]] + a[1..] && b == [b[0]] + b[1..];
    }
  }

  // ----- hexadecimal identifiers -----

  function HexDigit(d: nat): char
    requires d < 16
  {
    if d < 10 then '0' + d as char else 'a' + (d - 10) as char
  }

  /** The value of a hexadecimal digit in either case. */
  function HexValue(c: char): (v: Option<nat>)
    ensures v.Some? ==> v.value < 16
  {
    if '0' <= c <= '9' then Some(c as int - '0' as int)
    else if 'a' <= c <= 'f' then Some(c as int - 'a' as int + 10)
    else if 'A' <= c <= 'F' then Some(c as int - 'A' as int + 10)
    else None
  }

  /** hex.EncodeToString. */
  function Hex(bs: Bytes): (s: string)
    ensures |s| == 2 * |bs|
  {
    if bs == [] then "" else [HexDigit(bs[0] / 16), HexDigit(bs[0] % 16)] + Hex(bs[1..])
  }

  /** hex.DecodeString. */
  function FromHex(s: string): (r: Option<Bytes>)
    ensures r.Some? ==> |s| == 2 * |r.value|
  {
    if s == [] then Some([])
    else if |s| == 1 then None
    else if HexValue(s[0]).None? || HexValue(s[1]).None? then None
    else match FromHex(s[2..])
         case None => None
         case Some(rest) => Some([16 * HexValue(s[0]).value + HexValue(s[1]).value] + rest)
  }

  /** IDFromHex: 64 hexadecimal digits in either case. */
  function IdFromHex(s: string): Option<Id> {
    match FromHex(s)
    case Some(bs) => if |bs| == ID_SIZE then Some(bs) else None
    case None => None
  }

  lemma HexDigitValue(d: nat)
    requires d < 16
    ensures HexValue(HexDigit(d)) == Some(d)
  {
  }

  lemma {:induction false} FromHexOfHex(bs: Bytes)
    ensures FromHex(Hex(bs)) == Some(bs)
  {
    if bs != [] {
      var h, l := bs[0] / 16, bs[0] % 16;
      FromHexOfHex(bs[1..]);
      HexDigitValue(h);
      HexDigitValue(l);
      var s := Hex(bs);
      assert s[0] == HexDigit(h) && s[1] == HexDigit(l) && s[2..] == Hex(bs[1..]);
      assert FromHex(s) == Some([16 * h + l] + bs[1..]);
      assert bs == [bs[0]] + bs[1..];
    }
  }

  lemma {:induction false} FromHexIgnoresCase(s: string)
    ensures FromHex(Lower(s)) == FromHex(s)
  {
    if |s| >= 2 {
      assert Lower(s)[2..] == Lower(s[2..]);
      FromHexIgnoresCase(s[2..]);
    }
  }

  lemma SameDigit(a: char, b: char)
    requires HexValue(a).Some? && HexValue(a) == HexValue(b)
    ensures LowerChar(a) == LowerChar(b)
  {
  }

  /** Two spellings of the same bytes differ in case only. */
  lemma {:induction false} FromHexDetermines(a: string, b: string)
    requires FromHex(a).Some? && FromHex(a) == FromHex(b)
    ensures Lower(a) == Lower(b)
    decreases |a|
  {
    if |a| >= 2 {
      TwoDigitsApart(a, b);
      FromHexDetermines(a[2..], b[2..]);
      SameDigit(a[0], b[0]);
      SameDigit(a[1], b[1]);
      assert forall i :: 2 <= i < |a| ==> Lower(a)[i] == Lower(a[2..])[i - 2] && Lower(b)[i] == Lower(b[2..])[i - 2];
    }
  }

  /** The first two digits and the rest, as values. */
  lemma FromHexStep(s: string) returns (h: nat, l: nat, rest: Bytes)
    requires |s| >= 2 && FromHex(s).Some?
    ensures h < 16 && l < 16 && HexValue(s[0]) == Some(h) && HexValue(s[1]) == Some(l) && FromHex(s[2..]) == Some(rest)
    ensures FromHex(s) == Some([16 * h + l] + rest)
  {
    h, l, rest := HexValue(s[0]).value, HexValue(s[1]).value, FromHex(s[2..]).value;
  }

  lemma DigitsApart(h: nat, l: nat, h': nat, l': nat)
    requires h < 16 && l < 16 && h' < 16 && l' < 16 && 16 * h + l == 16 * h' + l'
    ensures h == h' && l == l'
  {
  }

  lemma HeadAndTail(x: Byte, xs: Bytes, y: Byte, ys: Bytes)
    requires [x] + xs == [y] + ys
    ensures x == y && xs == ys
  {
    assert ([x] + xs)[0] == x && ([y] + ys)[0] == y;
    assert ([x] + xs)[1..] == xs && ([y] + ys)[1..] == ys;
  }

  lemma TwoDigitsApart(a: string, b: string)
    requires |a| >= 2 && FromHex(a).Some? && FromHex(a) == FromHex(b)
    ensures |b| == |a| && HexValue(a[0]).Some? && HexValue(a[0]) == HexValue(b[0])
    ensures HexValue(a[1]).Some? && HexValue(a[1]) == HexValue(b[1])
    ensures FromHex(a[2..]).Some? && FromHex(a[2..]) == FromHex(b[2..])
  {
    var h, l, rest := FromHexStep(a);
    var h', l', rest' := FromHexStep(b);
    HeadAndTail(16 * h + l, rest, 16 * h' + l', rest');
    DigitsApart(h, l, h', l');
  }

  /** Spellings of one key are those that differ in case only. */
  lemma SameKeyIff(s: string, t: string)
    requires IdFromHex(s).Some?
    ensures IdFromHex(s) == IdFromHex(t) <==> Lower(s) == Lower(t)
  {
    if IdFromHex(s) == IdFromHex(t) {
      FromHexDetermines(s, t);
    } else if Lower(s) == Lower(t) {
      FromHexIgnoresCase(s);
      FromHexIgnoresCase(t);
    }
  }

  /** Writing an identifier and reading it back, in either case, returns it. */
  lemma HexRoundTrip(id: Id, s: string)
    requires Lower(s) == Lower(Hex(id))
    ensures IdFromHex(s) == Some(id)
  {
    FromHexOfHex(id);
    FromHexIgnoresCase(s);
    FromHexIgnoresCase(Hex(id));
  }

  /** Only hexadecimal digits parse. */
  lemma {:induction false} HexChars(s: string, i: nat)
    requires FromHex(s).Some? && i < |s|
    ensures HexValue(s[i]).Some?
  {
    if i >= 2 { HexChars(s[2..], i - 2); }
  }

  lemma TrimmedEnds(s: string)
    requires s != [] && !IsSpace(s[0]) && !IsSpace(s[|s| - 1])
    ensures TrimSpace(s) == s
  {
  }

  /** What parses has no spaces around it. */
  lemma HexIsTrimmed(s: string)
    requires FromHex(s).Some?
    ensures TrimSpace(s) == s
  {
    if s != [] {
      HexChars(s, 0);
      HexChars(s, |s| - 1);
      TrimmedEnds(s);
    }
  }

  lemma {:induction false} HexIsLower(bs: Bytes)
    ensures Lower(Hex(bs)) == Hex(bs)
  {
    if bs != [] {
      HexIsLower(bs[1..]);
      var s := Hex(bs);
      assert forall i :: 2 <= i < |s| ==> s[i] == Hex(bs[1..])[i - 2] && Lower(Hex(bs[1..]))[i - 2] == LowerChar(s[i]);
    }
  }

  lemma NormOfHex(id: Id)
    ensures Norm(Hex(id)) == Hex(id) && OneLine(Hex(id))
  {
    FromHexOfHex(id);
    HexIsTrimmed(Hex(id));
    HexIsLower(id);
    forall i | 0 <= i < |Hex(id)| ensures Hex(id)[i] != '\n' { HexChars(Hex(id), i); }
  }
}
