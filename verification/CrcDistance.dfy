// Two flipped bits: the register returns to a single one only after 32767 shifts, so the code has
// distance 4 on every frame the protocol can carry.

module CrcDistance {
  import opened Bytes
  import opened Crc
  import opened CrcBursts

  // ---- How long the register takes to return -----------------------------------------------

  /** A single one after n further shifts. */
  function Power(n: nat): bv16 {
    Iterate(Shift, 1, n)
  }

  function Take(u: bv16, acc: bv16, b: bool): bv16 {
    Shift(if b then Xor(acc, u) else acc)
  }

  /** Shift in the low n bits of v, each adding u: multiplication in the ring of the register. */
  function Mul(u: bv16, v: bv16, n: nat, acc: bv16): bv16
    decreases n
  {
    if n == 0 then acc else Mul(u, Half(v), n - 1, Take(u, acc, LowBit(v)))
  }

  lemma {:induction false} MulOne(v: bv16, n: nat, acc: bv16)
    ensures Mul(1, v, n, acc) == Fold(Feed, acc, LowBits(v, n))
    decreases n
  {
    hide LowBit, Half, Shift, Xor;
    if n > 0 {
      MulOne(Half(v), n - 1, Feed(acc, LowBit(v)));
      assert LowBits(v, n)[1..] == LowBits(Half(v), n - 1);
    }
  }

  lemma {:induction false} MulShift(u: bv16, v: bv16, n: nat, acc: bv16)
    ensures Mul(Shift(u), v, n, Shift(acc)) == Shift(Mul(u, v, n, acc))
    decreases n
  {
    hide LowBit, Half, Shift, Xor;
    if n > 0 {
      ShiftXor(acc, u);
      MulShift(u, Half(v), n - 1, Take(u, acc, LowBit(v)));
    }
  }

  lemma {:induction false} MulPower(a: nat, v: bv16)
    ensures Mul(Power(a), v, 16, 0) == Iterate(Shift, v, a + 16)
    decreases a
  {
    hide LowBit, Half, Shift, Xor, Mul;
    if a == 0 {
      MulOne(v, 16, 0);
      IteratePeel(0, v, 16);
      IterateFront(Half, v, 15);
      AllShiftedOut(v);
      XorUnit(v, 0);
      XorUnit(Fold(Feed, 0, LowBits(v, 16)), 0);
    } else {
      MulPower(a - 1, v);
      MulShift(Power(a - 1), v, 16, 0);
      ShiftZero(0);
    }
  }

  lemma AllShiftedOut(v: bv16)
    ensures Iterate(Half, v, 16) == 0
  {
    IterateAdd(Half, v, 8, 8);
    IterateEight(Half, v);
    IterateEight(Half, Iterate(Half, v, 8));
    FifteenHalves(Half(v));
  }

  lemma PowerStep(n: nat, v: bv16, w: bv16)
    requires Power(n) == v && Shift(v) == w
    ensures Power(n + 1) == w
  {}

  function Four(u: bv16, v: bv16, acc: bv16): bv16 {
    Take(u, Take(u, Take(u, Take(u, acc, v & 1 != 0), v & 2 != 0), v & 4 != 0), v & 8 != 0)
  }

  /** Eight steps of Mul without recursion, for evaluating constants. */
  function Eight(u: bv16, v: bv16, acc: bv16): bv16 {
    Four(u, v >> 4, Four(u, v, acc))
  }

  lemma MulFour(u: bv16, v: bv16, n: nat, acc: bv16)
    ensures Mul(u, v, n + 4, acc) == Mul(u, v >> 4, n, Four(u, v, acc))
  {
    BitsOfHalves(v);
    hide Take, LowBit, Half;
    var v1, a1 := Half(v), Take(u, acc, LowBit(v));
    var v2, a2 := Half(v1), Take(u, a1, LowBit(v1));
    var v3, a3 := Half(v2), Take(u, a2, LowBit(v2));
    assert Mul(u, v, n + 4, acc) == Mul(u, v1, n + 3, a1);
    assert Mul(u, v1, n + 3, a1) == Mul(u, v2, n + 2, a2);
    assert Mul(u, v2, n + 2, a2) == Mul(u, v3, n + 1, a3);
  }

  lemma MulEight(u: bv16, v: bv16, n: nat, acc: bv16)
    ensures Mul(u, v, n + 8, acc) == Mul(u, v >> 8, n, Eight(u, v, acc))
  {
    hide Take, LowBit, Half;
    MulFour(u, v, n + 4, acc);
    MulFour(u, v >> 4, n, Four(u, v, acc));
    assert (v >> 4) >> 4 == v >> 8;
  }

  lemma PowerDouble(n: nat, v: bv16, w: bv16)
    requires Power(n) == v && Eight(v, v >> 8, Eight(v, v, 0)) == w
    ensures Power(2 * n + 16) == w
  {
    hide Eight, Shift, Half;
    MulEight(v, v, 8, 0);
    MulEight(v, v >> 8, 0, Eight(v, v, 0));
    hide Mul;
    MulPower(n, v);
    IterateAdd(Shift, 1, n, n + 16);
  }

  lemma EarlyPowers()
    ensures Power(0) == 1 && Power(2) == 0xF001 && Power(13) == 0xC007
  {
    PowerStep(0, 0x0001, 0xA001);
    PowerStep(1, 0xA001, 0xF001);
    PowerStep(2, 0xF001, 0xD801);
    PowerStep(3, 0xD801, 0xCC01);
    PowerStep(4, 0xCC01, 0xC601);
    PowerStep(5, 0xC601, 0xC301);
    PowerStep(6, 0xC301, 0xC181);
    PowerStep(7, 0xC181, 0xC0C1);
    PowerStep(8, 0xC0C1, 0xC061);
    PowerStep(9, 0xC061, 0xC031);
    PowerStep(10, 0xC031, 0xC019);
    PowerStep(11, 0xC019, 0xC00D);
    PowerStep(12, 0xC00D, 0xC007);
  }

  lemma At217()
    ensures Power(217) == 0x417F
  {
    hide Power;
    EarlyPowers();
    PowerDouble(13, 0xC007, 0xC00E);
    PowerDouble(42, 0xC00E, 0x903E);
    PowerDouble(100, 0x903E, 0x82FE);
    PowerStep(216, 0x82FE, 0x417F);
  }

  lemma At1057()
    ensures Power(1057) == 0xC961
  {
    hide Power;
    EarlyPowers();
    PowerDouble(0, 0x0001, 0x9001);
    PowerStep(16, 0x9001, 0xE801);
    PowerDouble(17, 0xE801, 0xC441);
    PowerStep(50, 0xC441, 0xC221);
    PowerDouble(51, 0xC221, 0x0304);
    PowerDouble(118, 0x0304, 0xC008);
    PowerDouble(252, 0xC008, 0x9031);
    PowerDouble(520, 0x9031, 0xD2C1);
    PowerStep(1056, 0xD2C1, 0xC961);
  }

  lemma At4681()
    ensures Power(4681) == 0xAA5D
  {
    hide Power;
    EarlyPowers();
    PowerDouble(2, 0xF001, 0xC501);
    PowerDouble(20, 0xC501, 0xC010);
    PowerStep(56, 0xC010, 0x6008);
    PowerDouble(57, 0x6008, 0xD431);
    PowerDouble(130, 0xD431, 0xC2D1);
    PowerStep(276, 0xC2D1, 0xC169);
    PowerDouble(277, 0xC169, 0x0F31);
    PowerStep(570, 0x0F31, 0xA799);
    PowerDouble(571, 0xA799, 0x24E5);
    PowerDouble(1158, 0x24E5, 0xAB1D);
    PowerDouble(2332, 0xAB1D, 0x14B9);
    PowerStep(4680, 0x14B9, 0xAA5D);
  }

  lemma At32767()
    ensures Power(32767) == 0x1
  {
    hide Power;
    EarlyPowers();
    PowerDouble(0, 0x0001, 0x9001);
    PowerDouble(16, 0x9001, 0xD101);
    PowerDouble(48, 0xD101, 0xC100);
    PowerDouble(112, 0xC100, 0x5001);
    PowerDouble(240, 0x5001, 0x8101);
    PowerDouble(496, 0x8101, 0xD000);
    PowerDouble(1008, 0xD000, 0x5100);
    PowerDouble(2032, 0x5100, 0x1101);
    PowerStep(4080, 0x1101, 0xA881);
    PowerDouble(4081, 0xA881, 0x2440);
    PowerStep(8178, 0x2440, 0x1220);
    PowerDouble(8179, 0x1220, 0xC205);
    PowerStep(16374, 0xC205, 0xC103);
    PowerDouble(16375, 0xC103, 0x0002);
    PowerStep(32766, 0x0002, 0x0001);
  }

  // 32767 = 7 * 31 * 151, so a return time below 32767 would divide 4681, 1057 or 217.

  /** Return times are closed under remainders, hence under greatest common divisors. */
  lemma ReturnDifference(a: nat, b: nat)
    requires a <= b && Power(a) == 1 && Power(b) == 1
    ensures Power(b - a) == 1
  {
    hide Shift, Xor;
    IterateAdd(Shift, 1, b - a, a);
    IterateXor(Power(b - a), 1, a);
    XorEqual(1, 1);
    IterateZero(Xor(Power(b - a), 1), a);
    XorEqual(Power(b - a), 1);
  }

  lemma ReturnMultiple(a: nat, m: nat)
    requires Power(a) == 1
    ensures Power(a * m) == 1
  {
    hide Shift;
    if m > 0 {
      ReturnMultiple(a, m - 1);
      IterateAdd(Shift, 1, a, a * (m - 1));
      assert a * m == a + a * (m - 1);
    }
  }

  lemma {:induction false} ReturnGcd(a: nat, b: nat) returns (g: nat, x: nat, y: nat)
    requires 0 < a && 0 < b && Power(a) == 1 && Power(b) == 1
    ensures 0 < g && a == g * x && b == g * y && Power(g) == 1
    decreases a + b
  {
    hide Power;
    if a == b {
      g, x, y := a, 1, 1;
    } else if a < b {
      ReturnDifference(a, b);
      g, x, y := ReturnGcd(a, b - a);
      assert b == g * y + g * x == g * (y + x);
      y := y + x;
    } else {
      ReturnDifference(b, a);
      g, x, y := ReturnGcd(a - b, b);
      assert a == g * x + g * y == g * (x + y);
      x := x + y;
    }
  }

  // ---- Two flips ---------------------------------------------------------------------------

  lemma {:induction false} Bezout(a: nat, b: nat) returns (g: nat, x: nat, y: nat, s: int, t: int)
    requires 0 < a && 0 < b
    ensures 0 < g && a == g * x && b == g * y && s * a + t * b == g
    decreases a + b
  {
    if a == b {
      g, x, y, s, t := a, 1, 1, 1, 0;
    } else if a < b {
      g, x, y, s, t := Bezout(a, b - a);
      assert s * a + t * (b - a) == (s - t) * a + t * b;
      assert b == g * y + g * x == g * (y + x);
      s, y := s - t, y + x;
    } else {
      g, x, y, s, t := Bezout(a - b, b);
      assert s * (a - b) + t * b == s * a + (t - s) * b;
      assert a == g * x + g * y == g * (x + y);
      t, x := t - s, x + y;
    }
  }

  lemma FactorsSmall(g: nat, x: nat, n: nat)
    requires 0 < g * x < (n + 1) * (n + 1)
    ensures 0 < g && 0 < x && (g <= n || x <= n)
  {}

  /** 7, 31 and 151 have no divisor between 1 and themselves. */
  lemma SmallPrimes(p: nat, g: nat, x: nat)
    requires p in {7, 31, 151} && p == g * x
    ensures g == 1 || x == 1
  {
    if g != 1 && x != 1 {
      FactorsSmall(g, x, 12);
      var d, e := if g <= 12 then g else x, if g <= 12 then x else g;
      assert d * e == p && 2 <= d <= 12;
      NoSmallFactor(p, d, e);
    }
  }

  lemma NoSmallFactor(p: nat, d: nat, e: nat)
    requires p in {7, 31, 151} && 2 <= d <= 12 && 2 <= e
    ensures d * e != p
  {
    if d == 2 {} else if d == 3 {} else if d == 4 {} else if d == 5 {} else if d == 6 {} else if d == 7 {
    } else if d == 8 {} else if d == 9 {} else if d == 10 {} else if d == 11 {} else {}
  }

  lemma PositiveFactor(p: nat, r: int)
    requires 0 < p * r
    ensures 0 < r
  {}

  /** A prime among 7, 31, 151 that divides a product divides one of its factors. */
  lemma PrimeDivides(p: nat, g: nat, q: nat, n: nat) returns (r: nat)
    requires p in {7, 31, 151} && 0 < g && 0 < q && g * q == p * n
    ensures g == p * r || q == p * r
  {
    var d, x, y, s, t := Bezout(p, q);
    SmallPrimes(p, d, x);
    if d == 1 {
      assert g == g * (s * p + t * q) == p * (g * s) + t * (g * q);
      assert t * (g * q) == p * (t * n);
      assert g == p * (g * s + t * n) by {
        assert p * (g * s) + p * (t * n) == p * (g * s + t * n);
      }
      PositiveFactor(p, g * s + t * n);
      r := g * s + t * n;
    } else {
      assert d == p;
      r := y;
    }
  }

  /** The register returns to a single one after 32767 shifts and not before. */
  lemma ReturnsLate(k: nat)
    requires 0 < k < 32767
    ensures Power(k) != 1
  {
    hide Power;
    At217(); At1057(); At4681(); At32767();
    if Power(k) == 1 {
      var g, x, q := ReturnGcd(k, 32767);
      assert g <= k by { assert g * x >= g; }
      ProperDivisor(g, q);
    }
  }

  lemma ProperDivisor(g: nat, q: nat)
    requires 0 < g < 32767 && g * q == 32767
    requires Power(g) == 1
    ensures Power(4681) == 1 || Power(1057) == 1 || Power(217) == 1
  {
    hide Power;
    var g1 := PrimeDivides(7, g, q, 4681);
    if q == 7 * g1 {
      assert g * g1 == 4681;
      ReturnMultiple(g, g1);
      return;
    }
    assert g1 * q == 4681 == 31 * 151;
    var g2 := PrimeDivides(31, g1, q, 151);
    if q == 31 * g2 {
      assert g1 * g2 == 151;
      assert g * g2 == 7 * (g1 * g2) == 1057;
      ReturnMultiple(g, g2);
      return;
    }
    assert g2 * q == 151;
    SmallPrimes(151, g2, q);
    assert g == 217 * g2;
  }

  lemma PairMarks(d: seq<bool>, i: nat, j: nat)
    requires i < j < |d| && j - i < 32767
    requires forall k :: 0 <= k < |d| ==> d[k] == (k == i || k == j)
    ensures Fold(Feed, 0, d) != 0
  {
    var b := d[i + 1..j];
    var pair := [true] + b + [true];
    assert d == d[..i] + pair + d[j + 1..];
    hide Feed;
    MarkStays(d[..i], pair, d[j + 1..]);
    TwoOnes(b);
  }

  lemma TwoOnes(b: seq<bool>)
    requires |b| < 32766
    requires forall k :: 0 <= k < |b| ==> !b[k]
    ensures Fold(Feed, 0, [true] + b + [true]) != 0
  {
    hide Feed, Shift, Xor;
    FoldAppend(Feed, 0, [true] + b, [true]);
    FoldAppend(Feed, 0, [true], b);
    FeedOne(0);
    XorUnit(1, 0);
    FoldQuiet(Shift(1), b);
    IterateFront(Shift, 1, |b|);
    var r := Power(|b| + 1);
    ReturnsLate(|b| + 1);
    FeedOne(r);
    XorEqual(r, 1);
    ShiftZero(Xor(r, 1));
  }

  lemma FeedOne(c: bv16)
    ensures Fold(Feed, c, [true]) == Feed(c, true) == Shift(Xor(c, 1))
  {
    hide Shift, Xor;
    assert [true][1..] == [];
  }

  lemma {:induction false} CountPositions(d: seq<bool>) returns (i: nat, j: nat)
    requires Count(d) == 2
    ensures i < j < |d| && forall k :: 0 <= k < |d| ==> d[k] == (k == i || k == j)
    decreases |d|
  {
    if d[0] {
      var k := CountOne(d[1..]);
      i, j := 0, k + 1;
      assert forall k :: 0 < k < |d| ==> d[k] == d[1..][k - 1];
    } else {
      i, j := CountPositions(d[1..]);
      i, j := i + 1, j + 1;
      assert forall k :: 0 < k < |d| ==> d[k] == d[1..][k - 1];
    }
  }

  lemma {:induction false} CountOne(d: seq<bool>) returns (i: nat)
    requires Count(d) == 1
    ensures i < |d| && forall k :: 0 <= k < |d| ==> d[k] == (k == i)
    decreases |d|
  {
    if d[0] {
      i := 0;
      CountNone(d[1..]);
      assert forall k :: 0 < k < |d| ==> d[k] == d[1..][k - 1];
    } else {
      i := CountOne(d[1..]);
      i := i + 1;
      assert forall k :: 0 < k < |d| ==> d[k] == d[1..][k - 1];
    }
  }

  lemma {:induction false} CountNone(d: seq<bool>)
    requires Count(d) == 0
    ensures forall k :: 0 <= k < |d| ==> !d[k]
    decreases |d|
  {
    if d != [] {
      CountNone(d[1..]);
      assert forall k :: 0 < k < |d| ==> d[k] == d[1..][k - 1];
    }
  }

  /**
   * One, two or three flipped bits, anywhere in a frame of at most 4095 octets, are always
   * rejected: frames of the protocol have at most 264.
   */
  lemma FewFlipsRejected(f: seq<byte>, g: seq<byte>)
    requires Passes(f) && |g| == |f| <= 4095
    requires 1 <= Count(Diff(Bits(f), Bits(g))) <= 3
    ensures !Passes(g)
  {
    hide Passes, Feed, Bits, Count;
    if Count(Diff(Bits(f), Bits(g))) == 2 {
      var i, j := CountPositions(Diff(Bits(f), Bits(g)));
      PairMarks(Diff(Bits(f), Bits(g)), i, j);
      if Passes(g) {
        DifferenceClears(f, g);
      }
    } else {
      OddFlipsRejected(f, g);
    }
  }
}
