// What the CRC of a frame detects: bursts of up to 16 bits, and every odd number of flipped bits.

module CrcBursts {
  import opened Bytes
  import opened Crc

  // ---- Bursts ------------------------------------------------------------------------------

  /** Where two bit strings of one length differ. */
  function Diff(s: seq<bool>, t: seq<bool>): (d: seq<bool>)
    requires |s| == |t|
    ensures |d| == |s| && forall i :: 0 <= i < |s| ==> d[i] == (s[i] != t[i])
  {
    if s == [] then [] else [s[0] != t[0]] + Diff(s[1..], t[1..])
  }

  lemma FeedXor(c: bv16, d: bv16, a: bool, b: bool)
    ensures Feed(Xor(c, d), a != b) == Xor(Feed(c, a), Feed(d, b))
  {
    hide Shift, Xor;
    var c' := if a then Xor(c, 1) else c;
    var d' := if b then Xor(d, 1) else d;
    ShiftXor(c', d');
    XorAssociative(c, d, 1);
    XorUnit(d, 1);
    XorAssociative(c, 1, d);
    XorInterchange(c, 1, d, 1);
    XorEqual(1, 1);
    XorUnit(Xor(c, d), 0);
  }

  lemma {:induction false} FoldXor(c: bv16, d: bv16, s: seq<bool>, t: seq<bool>)
    requires |s| == |t|
    ensures Fold(Feed, Xor(c, d), Diff(s, t)) == Xor(Fold(Feed, c, s), Fold(Feed, d, t))
    decreases |s|
  {
    hide Feed, Xor;
    if s != [] {
      FeedXor(c, d, s[0], t[0]);
      FoldXor(Feed(c, s[0]), Feed(d, t[0]), s[1..], t[1..]);
      assert Diff(s, t)[1..] == Diff(s[1..], t[1..]);
    }
  }

  /** Without incoming ones the register only shifts. */
  lemma {:induction false} FoldQuiet(c: bv16, s: seq<bool>)
    requires forall i :: 0 <= i < |s| ==> !s[i]
    ensures Fold(Feed, c, s) == Iterate(Shift, c, |s|)
    decreases |s|
  {
    hide Shift, Xor;
    if s != [] {
      IterateFront(Shift, c, |s| - 1);
      FoldQuiet(Shift(c), s[1..]);
    }
  }

  /** The bit difference of two passing frames runs the register from zero back to zero. */
  lemma DifferenceClears(f: seq<byte>, g: seq<byte>)
    requires |f| == |g| && Passes(f) && Passes(g)
    ensures Fold(Feed, 0, Diff(Bits(f), Bits(g))) == 0
  {
    hide Feed, Word, Checksum;
    PassesIffZero(f);
    PassesIffZero(g);
    ChecksumIsBitSerial(f);
    ChecksumIsBitSerial(g);
    FoldXor(INIT, INIT, Bits(f), Bits(g));
    XorEqual(INIT, INIT);
    XorEqual(0, 0);
  }

  /** A string of at most 16 bits is the low bits of a register value with nothing above them. */
  lemma {:induction false} Pack(s: seq<bool>) returns (v: bv16)
    requires |s| <= 16
    ensures LowBits(v, |s|) == s && Iterate(Half, v, |s|) == 0
    decreases |s|
  {
    hide Half, LowBit, Push;
    if s == [] {
      v := 0;
    } else {
      var w := Pack(s[1..]);
      v := Push(s[0], w);
      TopClear(w, |s| - 1);
      PushPops(s[0], w);
      IterateFront(Half, v, |s| - 1);
    }
  }

  function Push(b: bool, w: bv16): bv16 {
    if b then (w << 1) | 1 else w << 1
  }

  lemma PushPops(b: bool, w: bv16)
    requires w & 0x8000 == 0
    ensures LowBit(Push(b, w)) == b && Half(Push(b, w)) == w
  {}

  lemma TopClear(w: bv16, n: nat)
    requires n <= 15 && Iterate(Half, w, n) == 0
    ensures w & 0x8000 == 0
  {
    IterateAdd(Half, w, n, 15 - n);
    HalfOfZero(15 - n);
    IterateAdd(Half, w, 8, 7);
    IterateEight(Half, w);
    IterateFront(Half, Iterate(Half, w, 8), 7);
    IterateEight(Half, Iterate(Half, w, 8));
    FifteenHalves(w);
  }

  lemma {:induction false} HalfOfZero(n: nat)
    ensures Iterate(Half, 0, n) == 0
  {
    if n > 0 {
      HalfOfZero(n - 1);
    }
  }

  lemma FifteenHalves(w: bv16)
    ensures Half(Half(Half(Half(Half(Half(Half(Half(Half(Half(Half(Half(Half(Half(Half(w))))))))))))))) == w >> 15
    ensures w >> 15 == 0 <==> w & 0x8000 == 0
  {}

  lemma {:induction false} LowBitsOfZero(n: nat)
    ensures forall i :: 0 <= i < n ==> !LowBits(0, n)[i]
  {
    if n > 0 {
      LowBitsOfZero(n - 1);
    }
  }

  /** At most 16 bits, not all zero, never bring the zero register back to zero. */
  lemma BurstMarks(s: seq<bool>)
    requires |s| <= 16 && exists i :: 0 <= i < |s| && s[i]
    ensures Fold(Feed, 0, s) != 0
  {
    hide Half, LowBit, Shift, Xor;
    var v := Pack(s);
    LowBitsOfZero(|s|);
    IteratePeel(0, v, |s|);
    XorUnit(v, 0);
    XorUnit(Fold(Feed, 0, s), 0);
    IterateZero(v, |s|);
  }

  lemma FirstMark(d: seq<bool>) returns (p: nat)
    requires exists i :: 0 <= i < |d| && d[i]
    ensures p < |d| && d[p] && forall i :: 0 <= i < p ==> !d[i]
  {
    p := 0;
    while !d[p]
      invariant p < |d| && forall i :: 0 <= i < p ==> !d[i]
      decreases |d| - p
    {
      p := p + 1;
    }
  }

  /** A register in which a burst has left a mark keeps it, whatever zeros come before and after. */
  lemma MarkStays(before: seq<bool>, burst: seq<bool>, after: seq<bool>)
    requires forall i :: 0 <= i < |before| ==> !before[i]
    requires forall i :: 0 <= i < |after| ==> !after[i]
    ensures Fold(Feed, 0, before + burst + after) == 0 <==> Fold(Feed, 0, burst) == 0
  {
    hide Feed, Shift;
    FoldAppend(Feed, 0, before + burst, after);
    FoldAppend(Feed, 0, before, burst);
    FoldQuiet(0, before);
    IterateZero(0, |before|);
    FoldQuiet(Fold(Feed, 0, burst), after);
    IterateZero(Fold(Feed, 0, burst), |after|);
  }

  /** Bits that are all zero outside a window of 16, and not all zero, leave a nonzero register. */
  lemma WindowMarks(d: seq<bool>, p: nat)
    requires exists i :: 0 <= i < |d| && d[i]
    requires forall i :: 0 <= i < |d| && d[i] ==> p <= i < p + 16
    ensures Fold(Feed, 0, d) != 0
  {
    var q := if p + 16 <= |d| then p + 16 else |d|;
    var burst := d[p..q];
    var i :| 0 <= i < |d| && d[i];
    assert burst[i - p];
    var before, after := d[..p], d[q..];
    forall k | 0 <= k < |after|
      ensures !after[k]
    {
      assert after[k] == d[q + k];
    }
    assert forall k :: 0 <= k < |before| ==> before[k] == d[k];
    assert d == before + burst + after;
    hide *;
    BurstMarks(burst);
    MarkStays(before, burst, after);
  }

  lemma {:induction false} BitsInjective(f: seq<byte>, g: seq<byte>)
    requires |f| == |g| && Bits(f) == Bits(g)
    ensures f == g
    decreases |f|
  {
    hide LowBits;
    if f != [] {
      assert LowBits(f[0] as bv16, 8) == Bits(f)[..8] == LowBits(g[0] as bv16, 8);
      assert Bits(f[1..]) == Bits(f)[8..] == Bits(g[1..]);
      LowBitsInjective(f[0], g[0]);
      BitsInjective(f[1..], g[1..]);
      assert f == [f[0]] + f[1..] && g == [g[0]] + g[1..];
    }
  }

  lemma LowBitsInjective(x: byte, y: byte)
    requires LowBits(x as bv16, 8) == LowBits(y as bv16, 8)
    ensures x == y
  {
    hide Octet, LowBits, Feed;
    OctetIsEightBits(0, x);
    OctetIsEightBits(0, y);
    OctetInjective(x, y);
  }

  lemma OctetInjective(x: byte, y: byte)
    requires Octet(0, x) == Octet(0, y)
    ensures x == y
  {
    var v, w := x as bv16, y as bv16;
    XorUnit(v, 0);
    XorUnit(w, 0);
    hide Shift, Xor;
    IterateXor(v, w, 8);
    XorEqual(Iterate(Shift, v, 8), Iterate(Shift, w, 8));
    IterateZero(Xor(v, w), 8);
    XorEqual(v, w);
  }

  /**
   * Damage confined to 16 consecutive bits of the line order, checksum octets included and
   * aligned to octets or not, never yields another passing frame.
   */
  lemma BurstRejected(f: seq<byte>, g: seq<byte>, p: nat)
    requires Passes(f) && |g| == |f| && g != f
    requires forall i :: 0 <= i < 8 * |f| && Bits(f)[i] != Bits(g)[i] ==> p <= i < p + 16
    ensures !Passes(g)
  {
    hide Feed, Word, Checksum, LowBits;
    if Passes(g) {
      DifferenceClears(f, g);
      if Bits(f) == Bits(g) {
        BitsInjective(f, g);
      }
      var i :| 0 <= i < 8 * |f| && Bits(f)[i] != Bits(g)[i];
      assert Diff(Bits(f), Bits(g))[i];
      WindowMarks(Diff(Bits(f), Bits(g)), p);
    }
  }

  // ---- Parity ------------------------------------------------------------------------------

  function Count(s: seq<bool>): nat {
    if s == [] then 0 else (if s[0] then 1 else 0) + Count(s[1..])
  }

  /** Whether the low n bits of c hold an odd number of ones. */
  predicate OddBits(c: bv16, n: nat) {
    n > 0 && LowBit(c) != OddBits(Half(c), n - 1)
  }

  predicate Odd(c: bv16) {
    OddBits(c, 16)
  }

  lemma {:induction false} OddXor(c: bv16, d: bv16, n: nat)
    ensures OddBits(Xor(c, d), n) == (OddBits(c, n) != OddBits(d, n))
    decreases n
  {
    hide LowBit, Half, Xor;
    if n > 0 {
      XorBits(c, d);
      OddXor(Half(c), Half(d), n - 1);
    }
  }

  lemma {:induction false} OddTop(c: bv16, n: nat)
    ensures OddBits(c, n + 1) == (OddBits(c, n) != LowBit(Iterate(Half, c, n)))
    decreases n
  {
    hide LowBit, Half;
    if n > 0 {
      OddTop(Half(c), n - 1);
      IterateFront(Half, c, n - 1);
    }
  }

  lemma NothingAbove(c: bv16)
    ensures !LowBit(Iterate(Half, Half(c), 15))
  {
    var w := Half(c);
    IterateAdd(Half, w, 8, 7);
    IterateEight(Half, w);
    IterateFront(Half, Iterate(Half, w, 8), 7);
    IterateEight(Half, Iterate(Half, w, 8));
    FifteenHalves(w);
  }

  predicate Odd4(c: bv16) {
    (c & 1 != 0) != ((c & 2 != 0) != ((c & 4 != 0) != (c & 8 != 0)))
  }

  lemma OddFour(c: bv16, r: bv16, n: nat)
    requires r == c >> 4
    ensures OddBits(c, n + 4) == (Odd4(c) != OddBits(r, n))
  {
    BitsOfHalves(c);
    hide LowBit, Half;
    var h := Half(c);
    assert OddBits(c, n + 4) == (LowBit(c) != OddBits(h, n + 3));
    assert OddBits(h, n + 3) == (LowBit(h) != OddBits(Half(h), n + 2));
    assert OddBits(Half(h), n + 2) == (LowBit(Half(h)) != OddBits(Half(Half(h)), n + 1));
  }

  lemma OddOf(c: bv16, a: bv16, b: bv16, d: bv16)
    requires a == c >> 4 && b == a >> 4 && d == b >> 4 && 0 == d >> 4
    ensures OddBits(c, 16) == (Odd4(c) != (Odd4(a) != (Odd4(b) != Odd4(d))))
  {
    hide Odd4, LowBit, Half;
    OddFour(c, a, 12);
    OddFour(a, b, 8);
    OddFour(b, d, 4);
    OddFour(d, 0, 0);
  }

  lemma OddOfPolynomial()
    ensures OddBits(0xA001, 16) && OddBits(1, 16) && !OddBits(0, 16) && !OddBits(INIT, 16)
  {
    OddOf(0xA001, 0xA00, 0xA0, 0xA);
    OddOf(1, 0, 0, 0);
    OddOf(0, 0, 0, 0);
    OddOf(0xFFFF, 0xFFF, 0xFF, 0xF);
    hide OddBits;
  }

  /** The polynomial has x + 1 as a factor, so a shift keeps the parity of the register. */
  lemma ShiftKeepsParity(c: bv16)
    ensures Odd(Shift(c)) == Odd(c)
  {
    ShiftCases(c);
    OddOfPolynomial();
    hide Shift, LowBit, Half, Xor;
    OddTop(Half(c), 15);
    NothingAbove(c);
    OddXor(Half(c), 0xA001, 16);
  }

  lemma FlipParity(c: bv16)
    ensures Odd(Xor(c, 1)) == !Odd(c)
  {
    OddOfPolynomial();
    hide OddBits, Xor;
    OddXor(c, 1, 16);
  }

  lemma {:induction false} FoldParity(c: bv16, s: seq<bool>)
    ensures Odd(Fold(Feed, c, s)) == (Odd(c) != (Count(s) % 2 == 1))
    decreases |s|
  {
    hide Shift, Xor, Odd;
    if s != [] {
      var m := if s[0] then Xor(c, 1) else c;
      FlipParity(c);
      ShiftKeepsParity(m);
      FoldParity(Feed(c, s[0]), s[1..]);
    }
  }

  /** Every passing frame carries an even number of ones. */
  lemma PassingIsEven(f: seq<byte>)
    requires Passes(f)
    ensures Count(Bits(f)) % 2 == 0
  {
    PassesIffZero(f);
    ChecksumIsBitSerial(f);
    OddOfPolynomial();
    hide Feed, Checksum, OddBits;
    FoldParity(INIT, Bits(f));
  }

  lemma {:induction false} CountDiff(s: seq<bool>, t: seq<bool>)
    requires |s| == |t|
    ensures Count(Diff(s, t)) % 2 == (Count(s) + Count(t)) % 2
    decreases |s|
  {
    if s != [] {
      CountDiff(s[1..], t[1..]);
      assert Diff(s, t)[1..] == Diff(s[1..], t[1..]);
    }
  }

  /** Any odd number of flipped bits is rejected. */
  lemma OddFlipsRejected(f: seq<byte>, g: seq<byte>)
    requires Passes(f) && |g| == |f|
    requires Count(Diff(Bits(f), Bits(g))) % 2 == 1
    ensures !Passes(g)
  {
    hide Passes, Count, Diff, Bits;
    if Passes(g) {
      PassingIsEven(f);
      PassingIsEven(g);
      CountDiff(Bits(f), Bits(g));
    }
  }
}
