/**
 * Node identifiers and the XOR metric (core/dht/id.go).
 *
 * An identifier is 32 bytes. The scanning loops of the source become recursive
 * functions over byte strings of equal length, so the laws are proved for every
 * length by following the bytes and used at length 32.
 */
module NodeId {

  const ID_SIZE: nat := 32
  const ID_BITS: nat := 256

  type Byte = x: int | 0 <= x < 256

  type Bytes = seq<Byte>

  type Id = s: Bytes | |s| == ID_SIZE witness seq(ID_SIZE, _ => 0)

  /** Exclusive or of the `n` low bits of `x` and `y`. */
  function XorBits(x: nat, y: nat, n: nat): (z: nat)
    ensures z < Pow2(n)
  {
    if n == 0 then 0
    else (if x % 2 == y % 2 then 0 else 1) + 2 * XorBits(x / 2, y / 2, n - 1)
  }

  function XorByte(x: Byte, y: Byte): (z: Byte) {
    SmallPowers();
    XorBits(x, y, 8)
  }

  function Xor(a: Bytes, b: Bytes): (x: Bytes)
    requires |a| == |b|
    ensures |x| == |a|
  {
    if a == [] then [] else [XorByte(a[0], b[0])] + Xor(a[1..], b[1..])
  }

  /** Whether bit `7 - j` of `x` is set: x & (1 << (7 - j)) != 0. */
  predicate BitSet(x: nat, j: nat)
    requires j < 8
  {
    (x / Pow2(7 - j)) % 2 == 1
  }

  /** Index of the first set bit of `x`, scanning from bit `j` on the left; 8 if there is none. */
  function LeadingZeros(x: nat, j: nat): (n: nat)
    requires j <= 8
    ensures j <= n <= 8
    decreases 8 - j
  {
    if j == 8 then 8 else if BitSet(x, j) then j else LeadingZeros(x, j + 1)
  }

  /** Number of leading bits that `a` and `b` share. */
  function CommonPrefixLen(a: Bytes, b: Bytes): (n: nat)
    requires |a| == |b|
    ensures n <= 8 * |a|
  {
    if a == [] then 0
    else
      var x := XorByte(a[0], b[0]);
      if x == 0 then 8 + CommonPrefixLen(a[1..], b[1..]) else LeadingZeros(x, 0)
  }

  /** Bytewise comparison of the distances from `self` to `a` and to `b`. */
  predicate DistanceLess(self: Bytes, a: Bytes, b: Bytes)
    requires |self| == |a| == |b|
  {
    if self == [] then false
    else
      var da := XorByte(self[0], a[0]);
      var db := XorByte(self[0], b[0]);
      if da != db then da < db else DistanceLess(self[1..], a[1..], b[1..])
  }

  // ----- the reference: distances as integers -----

  function Pow2(n: nat): (p: nat)
    ensures p > 0
  {
    if n == 0 then 1 else 2 * Pow2(n - 1)
  }

  /** `v` moved `k` bytes to the left. */
  function Shift(v: nat, k: nat): nat {
    if k == 0 then v else 256 * Shift(v, k - 1)
  }

  /** A byte string read as a big-endian unsigned integer (big.Int.SetBytes). */
  function BigEndian(s: Bytes): nat {
    if s == [] then 0 else Shift(s[0], |s| - 1) + BigEndian(s[1..])
  }

  /** distanceBigInt: the XOR distance as an integer. */
  function Distance(a: Bytes, b: Bytes): nat
    requires |a| == |b|
  {
    BigEndian(Xor(a, b))
  }

  // ----- bytes -----

  lemma SmallPowers()
    ensures Pow2(0) == 1 && Pow2(1) == 2 && Pow2(2) == 4 && Pow2(3) == 8 && Pow2(4) == 16
    ensures Pow2(5) == 32 && Pow2(6) == 64 && Pow2(7) == 128 && Pow2(8) == 256
  {
    assert Pow2(4) == 16;
    assert Pow2(8) == 256;
  }

  lemma {:induction false} XorBitsSymmetric(x: nat, y: nat, n: nat)
    ensures XorBits(x, y, n) == XorBits(y, x, n)
  {
    if n > 0 { XorBitsSymmetric(x / 2, y / 2, n - 1); }
  }

  lemma {:induction false} XorBitsTriangle(x: nat, y: nat, z: nat, n: nat)
    ensures XorBits(x, z, n) <= XorBits(x, y, n) + XorBits(y, z, n)
  {
    if n > 0 { XorBitsTriangle(x / 2, y / 2, z / 2, n - 1); }
  }

  /** Seen from a fixed value, the exclusive or tells values apart. */
  lemma {:induction false} XorBitsCancels(s: nat, x: nat, y: nat, n: nat)
    requires x < Pow2(n) && y < Pow2(n)
    ensures XorBits(s, x, n) == XorBits(s, y, n) <==> x == y
  {
    if n > 0 { XorBitsCancels(s / 2, x / 2, y / 2, n - 1); }
  }

  lemma {:induction false} XorBitsSelf(x: nat, n: nat)
    ensures XorBits(x, x, n) == 0
  {
    if n > 0 { XorBitsSelf(x / 2, n - 1); }
  }

  lemma XorCancels(s: Byte, x: Byte, y: Byte)
    ensures XorByte(s, x) == XorByte(s, y) <==> x == y
  {
    SmallPowers();
    XorBitsCancels(s, x, y, 8);
  }

  lemma XorZero(x: Byte, y: Byte)
    ensures XorByte(x, y) == 0 <==> x == y
  {
    XorBitsSelf(x, 8);
    XorCancels(x, x, y);
  }

  /** A non-zero byte whose first set bit from `j` on is at z lies in [2^(7-z), 2^(8-z)). */
  lemma {:induction false} ScanMagnitude(x: nat, j: nat)
    requires j < 8 && 0 < x < Pow2(8 - j)
    ensures LeadingZeros(x, j) < 8
    ensures Pow2(7 - LeadingZeros(x, j)) <= x < Pow2(8 - LeadingZeros(x, j))
    decreases 8 - j
  {
    var p := Pow2(7 - j);
    assert x < 2 * p;
    TopBit(x, p);
    if x < p && j < 7 { ScanMagnitude(x, j + 1); }
  }

  lemma TopBit(x: nat, p: nat)
    requires 0 < p && x < 2 * p
    ensures (x / p) % 2 == 1 <==> p <= x
  {
    if p <= x {
      assert x == 1 * p + (x - p);
      assert x / p == 1;
    } else {
      assert x / p == 0;
    }
  }

  // ----- shifts and powers -----

  lemma {:induction false} ShiftAdd(u: nat, v: nat, k: nat)
    ensures Shift(u + v, k) == Shift(u, k) + Shift(v, k)
  {
    if k > 0 { ShiftAdd(u, v, k - 1); }
  }

  lemma ShiftMonotone(u: nat, v: nat, k: nat)
    requires u <= v
    ensures Shift(u, k) <= Shift(v, k)
  {
    ShiftAdd(u, v - u, k);
  }

  lemma ShiftStrict(u: nat, v: nat, k: nat)
    requires u < v
    ensures Shift(u, k) + Shift(1, k) <= Shift(v, k)
  {
    ShiftAdd(u, 1, k);
    ShiftMonotone(u + 1, v, k);
  }

  lemma {:induction false} ShiftOnce(v: nat, k: nat)
    ensures Shift(256 * v, k) == Shift(v, k + 1)
  {
    if k > 0 { ShiftOnce(v, k - 1); }
  }

  lemma {:induction false} ShiftPow2(n: nat, k: nat)
    ensures Shift(Pow2(n), k) == Pow2(n + 8 * k)
  {
    if k > 0 {
      ShiftPow2(n, k - 1);
      EightDoublings(n + 8 * (k - 1));
    }
  }

  lemma EightDoublings(m: nat)
    ensures Pow2(m + 8) == 256 * Pow2(m)
  {
    assert Pow2(m + 8) == 2 * Pow2(m + 7) == 4 * Pow2(m + 6) == 8 * Pow2(m + 5) == 16 * Pow2(m + 4);
    assert Pow2(m + 4) == 2 * Pow2(m + 3) == 4 * Pow2(m + 2) == 8 * Pow2(m + 1) == 16 * Pow2(m);
  }

  lemma {:induction false} Pow2Monotone(a: nat, b: nat)
    requires a <= b
    ensures Pow2(a) <= Pow2(b)
    decreases b - a
  {
    if a < b { Pow2Monotone(a + 1, b); }
  }

  lemma {:induction false} BigEndianBound(s: Bytes)
    ensures BigEndian(s) < Shift(1, |s|)
  {
    if s != [] {
      BigEndianBound(s[1..]);
      ShiftStrict(s[0], 256, |s| - 1);
      ShiftOnce(1, |s| - 1);
    }
  }

  /** Two-digit numbers compare by their first digit, then by their second. */
  lemma TwoDigits(x: nat, y: nat, k: nat, u: nat, v: nat)
    requires u < Shift(1, k) && v < Shift(1, k)
    ensures Shift(x, k) + u < Shift(y, k) + v <==> x < y || (x == y && u < v)
    ensures Shift(x, k) + u == Shift(y, k) + v <==> x == y && u == v
  {
    if x < y { ShiftStrict(x, y, k); }
    if y < x { ShiftStrict(y, x, k); }
  }

  // ----- the metric -----

  /** The distance splits into its first byte and the distance of the rest. */
  lemma DistanceStep(a: Bytes, b: Bytes)
    requires |a| == |b| > 0
    ensures Distance(a, b) == Shift(XorByte(a[0], b[0]), |a| - 1) + Distance(a[1..], b[1..])
    ensures Distance(a[1..], b[1..]) < Shift(1, |a| - 1)
  {
    var x, rest := Xor(a, b), Xor(a[1..], b[1..]);
    assert x[0] == XorByte(a[0], b[0]) && x[1..] == rest;
    assert BigEndian(x) == Shift(x[0], |x| - 1) + BigEndian(x[1..]);
    BigEndianBound(rest);
  }

  /** Bytewise comparison is comparison of the distances as integers. */
  lemma {:induction false} DistanceLessIsIntegerOrder(self: Bytes, a: Bytes, b: Bytes)
    requires |self| == |a| == |b|
    ensures DistanceLess(self, a, b) <==> Distance(self, a) < Distance(self, b)
  {
    if self != [] {
      var x, y := XorByte(self[0], a[0]), XorByte(self[0], b[0]);
      DistanceStep(self, a);
      DistanceStep(self, b);
      TwoDigits(x, y, |self| - 1, Distance(self[1..], a[1..]), Distance(self[1..], b[1..]));
      DistanceLessIsIntegerOrder(self[1..], a[1..], b[1..]);
    }
  }

  /** From a fixed point the distance names the identifier. */
  lemma {:induction false} DistanceInjective(self: Bytes, a: Bytes, b: Bytes)
    requires |self| == |a| == |b|
    ensures Distance(self, a) == Distance(self, b) <==> a == b
  {
    if self != [] {
      var x, y := XorByte(self[0], a[0]), XorByte(self[0], b[0]);
      DistanceStep(self, a);
      DistanceStep(self, b);
      XorCancels(self[0], a[0], b[0]);
      TwoDigits(x, y, |self| - 1, Distance(self[1..], a[1..]), Distance(self[1..], b[1..]));
      DistanceInjective(self[1..], a[1..], b[1..]);
      assert a == [a[0]] + a[1..] && b == [b[0]] + b[1..];
    }
  }

  /** DistanceLess is a strict total order on identifiers, for every viewpoint. */
  lemma DistanceLessTotalOrder(self: Bytes, a: Bytes, b: Bytes, c: Bytes)
    requires |self| == |a| == |b| == |c|
    ensures !DistanceLess(self, a, a)
    ensures DistanceLess(self, a, b) && DistanceLess(self, b, c) ==> DistanceLess(self, a, c)
    ensures a == b || DistanceLess(self, a, b) || DistanceLess(self, b, a)
    ensures !(DistanceLess(self, a, b) && DistanceLess(self, b, a))
  {
    DistanceLessIsIntegerOrder(self, a, a);
    DistanceLessIsIntegerOrder(self, a, b);
    DistanceLessIsIntegerOrder(self, b, c);
    DistanceLessIsIntegerOrder(self, a, c);
    DistanceLessIsIntegerOrder(self, b, a);
    DistanceInjective(self, a, b);
  }

  lemma {:induction false} XorSelf(a: Bytes)
    ensures Distance(a, a) == 0
  {
    if a != [] {
      DistanceStep(a, a);
      XorZero(a[0], a[0]);
      ShiftZero(|a| - 1);
      XorSelf(a[1..]);
    }
  }

  lemma {:induction false} XorSymmetric(a: Bytes, b: Bytes)
    requires |a| == |b|
    ensures Xor(a, b) == Xor(b, a)
  {
    if a != [] {
      XorBitsSymmetric(a[0], b[0], 8);
      XorSymmetric(a[1..], b[1..]);
    }
  }

  lemma {:induction false} Triangle(a: Bytes, b: Bytes, c: Bytes)
    requires |a| == |b| == |c|
    ensures Distance(a, c) <= Distance(a, b) + Distance(b, c)
  {
    if a != [] {
      DistanceStep(a, b);
      DistanceStep(b, c);
      DistanceStep(a, c);
      XorBitsTriangle(a[0], b[0], c[0], 8);
      Triangle(a[1..], b[1..], c[1..]);
      ShiftMonotone(XorByte(a[0], c[0]), XorByte(a[0], b[0]) + XorByte(b[0], c[0]), |a| - 1);
      ShiftAdd(XorByte(a[0], b[0]), XorByte(b[0], c[0]), |a| - 1);
    }
  }

  /** The metric laws the source claims for XOR. */
  lemma Metric(a: Bytes, b: Bytes, c: Bytes)
    requires |a| == |b| == |c|
    ensures Distance(a, b) == Distance(b, a)
    ensures Distance(a, b) == 0 <==> a == b
    ensures Distance(a, c) <= Distance(a, b) + Distance(b, c)
  {
    XorSymmetric(a, b);
    XorSelf(a);
    DistanceInjective(a, a, b);
    Triangle(a, b, c);
  }

  /** The prefix length is the whole length exactly for equal identifiers. */
  lemma {:induction false} FullPrefixIffEqual(a: Bytes, b: Bytes)
    requires |a| == |b|
    ensures CommonPrefixLen(a, b) == 8 * |a| <==> a == b
  {
    if a != [] {
      XorZero(a[0], b[0]);
      if a[0] == b[0] {
        FullPrefixIffEqual(a[1..], b[1..]);
        assert a == [a[0]] + a[1..] && b == [b[0]] + b[1..];
      } else {
        FirstByteBounds(a, b, LeadingZeros(XorByte(a[0], b[0]), 0));
      }
    }
  }

  lemma {:induction false} ShiftZero(k: nat)
    ensures Shift(0, k) == 0
  {
    if k > 0 { ShiftZero(k - 1); }
  }

  /** The first byte that differs fixes the order of magnitude of the distance. */
  lemma FirstByteBounds(a: Bytes, b: Bytes, z: nat)
    requires |a| == |b| > 0 && a[0] != b[0]
    requires z == LeadingZeros(XorByte(a[0], b[0]), 0)
    ensures z < 8
    ensures Pow2(8 * |a| - 1 - z) <= Distance(a, b) < Pow2(8 * |a| - z)
  {
    var k := |a| - 1;
    XorZero(a[0], b[0]);
    DistanceStep(a, b);
    SmallPowers();
    ScanMagnitude(XorByte(a[0], b[0]), 0);
    ShiftMonotone(Pow2(7 - z), XorByte(a[0], b[0]), k);
    ShiftStrict(XorByte(a[0], b[0]), Pow2(8 - z), k);
    ShiftPow2(7 - z, k);
    ShiftPow2(8 - z, k);
  }

  /** Bucket i covers exactly the distances in [2^(bits-1-i), 2^(bits-i)). */
  lemma {:induction false} PrefixBoundsDistance(a: Bytes, b: Bytes)
    requires |a| == |b| && a != b
    ensures var bits, i := 8 * |a|, CommonPrefixLen(a, b);
            i < bits && Pow2(bits - 1 - i) <= Distance(a, b) < Pow2(bits - i)
  {
    XorZero(a[0], b[0]);
    if a[0] == b[0] {
      DistanceStep(a, b);
      ShiftZero(|a| - 1);
      assert a == [a[0]] + a[1..] && b == [b[0]] + b[1..];
      PrefixBoundsDistance(a[1..], b[1..]);
    } else {
      FirstByteBounds(a, b, LeadingZeros(XorByte(a[0], b[0]), 0));
    }
  }

  /** Conversely, a distance in that range puts the identifier in bucket i. */
  lemma BucketIsDistanceRange(self: Bytes, a: Bytes, i: nat)
    requires |self| == |a| && i < 8 * |self|
    ensures CommonPrefixLen(self, a) == i <==>
            Pow2(8 * |self| - 1 - i) <= Distance(self, a) < Pow2(8 * |self| - i)
  {
    var bits := 8 * |self|;
    if self == a {
      XorSelf(self);
      FullPrefixIffEqual(self, a);
    } else {
      PrefixBoundsDistance(self, a);
      var n := CommonPrefixLen(self, a);
      if n < i { Pow2Monotone(bits - i, bits - 1 - n); }
      if i < n { Pow2Monotone(bits - n, bits - 1 - i); }
    }
  }

  lemma PrefixAtLeast(self: Bytes, a: Bytes, k: nat)
    requires |self| == |a| && k <= CommonPrefixLen(self, a)
    ensures Distance(self, a) < Pow2(8 * |self| - k)
  {
    if self == a {
      XorSelf(self);
    } else {
      PrefixBoundsDistance(self, a);
      Pow2Monotone(8 * |self| - CommonPrefixLen(self, a), 8 * |self| - k);
    }
  }

  lemma PrefixBelow(self: Bytes, b: Bytes, k: nat)
    requires |self| == |b| && CommonPrefixLen(self, b) < k <= 8 * |self|
    ensures Pow2(8 * |self| - k) <= Distance(self, b)
  {
    FullPrefixIffEqual(self, b);
    PrefixBoundsDistance(self, b);
    Pow2Monotone(8 * |self| - k, 8 * |self| - 1 - CommonPrefixLen(self, b));
  }

  /** A longer shared prefix means a strictly smaller distance. */
  lemma LongerPrefixIsCloser(self: Bytes, a: Bytes, b: Bytes)
    requires |self| == |a| == |b|
    requires CommonPrefixLen(self, a) > CommonPrefixLen(self, b)
    ensures DistanceLess(self, a, b)
  {
    var k := CommonPrefixLen(self, a);
    PrefixAtLeast(self, a, k);
    PrefixBelow(self, b, k);
    DistanceLessIsIntegerOrder(self, a, b);
  }
}
