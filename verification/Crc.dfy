// The CRC-16 of internal/protocol, read as a bit-serial shift register.
//
// Polynomial 0xA001 (0x8005 reflected), initial value 0xFFFF, low bit first: section 6.2.2 of
// the MODBUS over Serial Line Specification and Implementation Guide V1.02.

module Crc {
  import opened Bytes

  const INIT: bv16 := 0xFFFF

  /** One turn of the inner loop. */
  function Shift(crc: bv16): bv16 {
    if crc & 1 != 0 then (crc >> 1) ^ 0xA001 else crc >> 1
  }

  function Iterate<S>(f: S -> S, s: S, n: nat): S {
    if n == 0 then s else f(Iterate(f, s, n - 1))
  }

  /** One turn of the outer loop: mix in an octet, then shift eight times. */
  function Octet(crc: bv16, x: byte): bv16 {
    Iterate(Shift, Xor(crc, x as bv16), 8)
  }

  function Checksum(b: seq<byte>): bv16 {
    Fold(Octet, INIT, b)
  }

  method CRC16(b: seq<byte>) returns (crc: bv16)
    ensures crc == Checksum(b)
  {
    crc := INIT;
    for k := 0 to |b|
      invariant Fold(Octet, crc, b[k..]) == Checksum(b)
    {
      ghost var before := crc;
      crc := crc ^ (b[k] as bv16);
      ghost var mixed := crc;
      for i := 0 to 8
        invariant crc == Iterate(Shift, mixed, i)
      {
        if crc & 1 != 0 {
          crc := (crc >> 1) ^ 0xA001;
        } else {
          crc := crc >> 1;
        }
      }
      assert crc == Octet(before, b[k]);
      assert b[k..][1..] == b[k + 1..];
    }
  }

  // ---- The bit-level reading --------------------------------------------------------------

  function Xor(a: bv16, b: bv16): bv16 {
    a ^ b
  }

  /** The shift register of the CRC taking in a single bit. */
  function Feed(crc: bv16, b: bool): bv16 {
    Shift(if b then Xor(crc, 1) else crc)
  }

  predicate LowBit(v: bv16) {
    v & 1 != 0
  }

  function Half(v: bv16): bv16 {
    v >> 1
  }

  /** The low n bits of v, lowest first: the order in which they travel on the line. */
  function LowBits(v: bv16, n: nat): (s: seq<bool>)
    ensures |s| == n
  {
    if n == 0 then [] else [LowBit(v)] + LowBits(Half(v), n - 1)
  }

  function Bits(b: seq<byte>): (s: seq<bool>)
    ensures |s| == 8 * |b|
  {
    if b == [] then [] else LowBits(b[0] as bv16, 8) + Bits(b[1..])
  }

  lemma ShiftMixed(c: bv16, v: bv16)
    ensures v & 1 != 0 ==> Shift(c ^ v) == Shift(c ^ 1) ^ (v >> 1)
    ensures v & 1 == 0 ==> Shift(c ^ v) == Shift(c) ^ (v >> 1)
  {}

  /** ShiftMixed on named operands: naming them first keeps the solver from expanding Shift. */
  lemma ShiftMixedAt(c: bv16, v: bv16, x: bv16, x1: bv16, h: bv16)
    requires x == c ^ v && x1 == c ^ 1 && h == v >> 1
    ensures v & 1 != 0 ==> Shift(x) == Shift(x1) ^ h
    ensures v & 1 == 0 ==> Shift(x) == Shift(c) ^ h
  {
    hide *;
    ShiftMixed(c, v);
  }

  /** Only the low bit decides the feedback, so the rest of v can be mixed in after the shift. */
  lemma Peel(c: bv16, v: bv16)
    ensures Shift(Xor(c, v)) == Xor(Feed(c, LowBit(v)), Half(v))
  {
    hide Shift;
    ShiftMixedAt(c, v, Xor(c, v), Xor(c, 1), Half(v));
  }

  lemma {:induction false} IterateFront<S>(f: S -> S, s: S, n: nat)
    ensures Iterate(f, s, n + 1) == Iterate(f, f(s), n)
  {
    if n > 0 {
      IterateFront(f, s, n - 1);
    }
  }

  lemma PeelFront(c: bv16, v: bv16, n: nat)
    ensures Iterate(Shift, Xor(c, v), n + 1) == Iterate(Shift, Xor(Feed(c, LowBit(v)), Half(v)), n)
  {
    IterateFront(Shift, Xor(c, v), n);
    Peel(c, v);
  }

  lemma {:induction false} IteratePeel(c: bv16, v: bv16, n: nat)
    ensures Iterate(Shift, Xor(c, v), n) == Xor(Fold(Feed, c, LowBits(v, n)), Iterate(Half, v, n))
    decreases n
  {
    hide Xor, Shift, Feed, Half, LowBit;
    if n > 0 {
      PeelFront(c, v, n - 1);
      IteratePeel(Feed(c, LowBit(v)), Half(v), n - 1);
      IterateFront(Half, v, n - 1);
      assert LowBits(v, n)[1..] == LowBits(Half(v), n - 1);
    }
  }

  lemma OctetShiftsOut(v: bv16)
    requires v < 256
    ensures Iterate(Half, v, 8) == 0
  {
    var v2 := Half(Half(v));
    var v4 := Half(Half(v2));
    var v6 := Half(Half(v4));
    assert Iterate(Half, v, 2) == v2;
    assert Iterate(Half, v, 4) == v4;
    assert Iterate(Half, v, 6) == v6;
  }

  /** Eight shifts after mixing in a whole octet equal eight single-bit steps. */
  lemma OctetIsEightBits(crc: bv16, x: byte)
    ensures Octet(crc, x) == Fold(Feed, crc, LowBits(x as bv16, 8))
  {
    hide Shift, Feed, Half, LowBit, LowBits;
    IteratePeel(crc, x as bv16, 8);
    OctetShiftsOut(x as bv16);
    XorZero(Fold(Feed, crc, LowBits(x as bv16, 8)));
  }

  lemma XorZero(v: bv16)
    ensures v ^ 0 == v
  {}

  lemma {:induction false} FoldIsBitSerial(crc: bv16, b: seq<byte>)
    ensures Fold(Octet, crc, b) == Fold(Feed, crc, Bits(b))
    decreases |b|
  {
    if b != [] {
      OctetIsEightBits(crc, b[0]);
      FoldAppend(Feed, crc, LowBits(b[0] as bv16, 8), Bits(b[1..]));
      FoldIsBitSerial(Octet(crc, b[0]), b[1..]);
    }
  }

  // ---- The register is linear, and only zero leads to zero ---------------------------------

  lemma XorUnit(a: bv16, b: bv16)
    ensures Xor(a, 0) == a && Xor(0, a) == a
    ensures Xor(a, b) == Xor(b, a)
  {}

  lemma XorEqual(a: bv16, b: bv16)
    ensures Xor(a, b) == 0 <==> a == b
  {
    assert a ^ b == 0 <==> a == b;
  }

  lemma XorAssociative(a: bv16, b: bv16, c: bv16)
    ensures Xor(Xor(a, b), c) == Xor(a, Xor(b, c))
  {
    assert (a ^ b) ^ c == a ^ (b ^ c);
  }

  lemma XorInterchange(a: bv16, b: bv16, c: bv16, d: bv16)
    ensures Xor(Xor(a, b), Xor(c, d)) == Xor(Xor(a, c), Xor(b, d))
  {
    hide Xor;
    XorAssociative(a, b, Xor(c, d));
    XorAssociative(b, c, d);
    XorUnit(b, c);
    XorAssociative(c, b, d);
    XorAssociative(a, c, Xor(b, d));
  }

  lemma XorBits(c: bv16, d: bv16)
    ensures LowBit(Xor(c, d)) == (LowBit(c) != LowBit(d))
    ensures Half(Xor(c, d)) == Xor(Half(c), Half(d))
  {}

  lemma ShiftCases(c: bv16)
    ensures Shift(c) == if LowBit(c) then Xor(Half(c), 0xA001) else Half(c)
  {}

  lemma ShiftXor(c: bv16, d: bv16)
    ensures Shift(Xor(c, d)) == Xor(Shift(c), Shift(d))
  {
    ShiftCases(c);
    ShiftCases(d);
    ShiftCases(Xor(c, d));
    XorBits(c, d);
    hide *;
    var x, y, p := Half(c), Half(d), 0xA001;
    XorInterchange(x, p, y, p);
    XorEqual(p, p);
    XorUnit(Xor(x, y), p);
    XorAssociative(x, y, p);
    XorAssociative(x, p, y);
    XorUnit(y, p);
  }

  lemma BitsOfHalves(v: bv16)
    ensures LowBit(v) == (v & 1 != 0) && LowBit(Half(v)) == (v & 2 != 0)
    ensures LowBit(Half(Half(v))) == (v & 4 != 0) && LowBit(Half(Half(Half(v)))) == (v & 8 != 0)
    ensures Half(Half(Half(Half(v)))) == v >> 4
  {}

  lemma ShiftZero(c: bv16)
    ensures Shift(c) == 0 <==> c == 0
  {}

  lemma {:induction false} IterateXor(c: bv16, d: bv16, n: nat)
    ensures Iterate(Shift, Xor(c, d), n) == Xor(Iterate(Shift, c, n), Iterate(Shift, d, n))
  {
    hide Shift, Xor;
    if n > 0 {
      IterateXor(c, d, n - 1);
      ShiftXor(Iterate(Shift, c, n - 1), Iterate(Shift, d, n - 1));
    }
  }

  lemma {:induction false} IterateZero(c: bv16, n: nat)
    ensures Iterate(Shift, c, n) == 0 <==> c == 0
  {
    hide Shift;
    if n > 0 {
      IterateZero(c, n - 1);
      ShiftZero(Iterate(Shift, c, n - 1));
    }
  }

  lemma {:induction false} IterateAdd<S>(f: S -> S, s: S, m: nat, n: nat)
    ensures Iterate(f, s, m + n) == Iterate(f, Iterate(f, s, m), n)
    decreases n
  {
    if n > 0 {
      IterateAdd(f, s, m, n - 1);
    }
  }

  // ---- The check: the trailer makes the register run to zero -------------------------------

  lemma IterateEight<S>(f: S -> S, s: S)
    ensures Iterate(f, s, 8) == f(f(f(f(f(f(f(f(s))))))))
  {
    assert Iterate(f, s, 4) == f(f(f(f(s))));
    IterateAdd(f, s, 4, 4);
  }

  lemma EightShifts(h: bv16)
    requires h < 256
    ensures Shift(Shift(Shift(Shift(Shift(Shift(Shift(Shift(h << 8)))))))) == h
  {}

  function High(hi: byte): bv16 {
    (hi as bv16) << 8
  }

  lemma HighOctetShifts(hi: byte)
    ensures Iterate(Shift, High(hi), 8) == hi as bv16
  {
    hide Shift;
    EightShifts(hi as bv16);
    IterateEight(Shift, High(hi));
  }

  /** The two trailing octets of a frame, low octet first: binary.LittleEndian.Uint16. */
  function Word(lo: byte, hi: byte): bv16 {
    Xor(lo as bv16, High(hi))
  }

  /** Reading lo and then hi ends in zero exactly when the register held the word they form. */
  lemma TrailerClears(c: bv16, lo: byte, hi: byte)
    ensures Octet(Octet(c, lo), hi) == 0 <==> c == Word(lo, hi)
  {
    hide Shift, Xor, High;
    HighOctetShifts(hi);
    var l, h := lo as bv16, High(hi);
    IterateXor(Xor(c, l), h, 8);
    IterateZero(Xor(Xor(c, l), h), 16);
    IterateAdd(Shift, Xor(Xor(c, l), h), 8, 8);
    XorAssociative(c, l, h);
    XorEqual(c, Xor(l, h));
  }

  /** The test of validateResponse: the last two octets are the checksum of the others. */
  predicate Passes(f: seq<byte>) {
    |f| >= 2 && Word(f[|f| - 2], f[|f| - 1]) == Checksum(f[..|f| - 2])
  }

  lemma FoldPair<S, E>(f: (S, E) -> S, s: S, x: E, y: E)
    ensures Fold(f, s, [x, y]) == f(f(s, x), y)
  {
    assert [x, y][1..] == [y];
    assert Fold(f, f(s, x), [y]) == f(f(s, x), y);
  }

  lemma ChecksumOfFramed(body: seq<byte>, lo: byte, hi: byte)
    ensures Checksum(body + [lo, hi]) == Octet(Octet(Checksum(body), lo), hi)
  {
    hide Octet;
    FoldAppend(Octet, INIT, body, [lo, hi]);
    FoldPair(Octet, Checksum(body), lo, hi);
  }

  /** A frame of at least two octets passes exactly when the checksum of all of it is zero. */
  lemma PassesIffZero(f: seq<byte>)
    requires |f| >= 2
    ensures Passes(f) <==> Checksum(f) == 0
  {
    hide Octet, Word, Checksum;
    var body, lo, hi := f[..|f| - 2], f[|f| - 2], f[|f| - 1];
    assert f == body + [lo, hi];
    ChecksumOfFramed(body, lo, hi);
    TrailerClears(Checksum(body), lo, hi);
  }

  lemma ChecksumIsBitSerial(f: seq<byte>)
    ensures Checksum(f) == Fold(Feed, INIT, Bits(f))
  {
    hide Octet, Feed;
    FoldIsBitSerial(INIT, f);
  }

  lemma OctetValue(c: bv16, x: byte, r: bv16)
    requires Shift(Shift(Shift(Shift(Shift(Shift(Shift(Shift(c ^ (x as bv16))))))))) == r
    ensures Octet(c, x) == r
  {
    hide Shift;
    IterateEight(Shift, Xor(c, x as bv16));
  }

  /** The published check value of this CRC: the digits 1 to 9 give 0x4B37. */
  lemma CheckValue()
    ensures Checksum([0x31, 0x32, 0x33, 0x34, 0x35, 0x36, 0x37, 0x38, 0x39]) == 0x4B37
  {
    OctetValue(0xFFFF, 0x31, 0x947E);
    OctetValue(0x947E, 0x32, 0xF595);
    OctetValue(0xF595, 0x33, 0x7A75);
    OctetValue(0x7A75, 0x34, 0x30BA);
    OctetValue(0x30BA, 0x35, 0xA471);
    OctetValue(0xA471, 0x36, 0x32E4);
    OctetValue(0x32E4, 0x37, 0x9D73);
    OctetValue(0x9D73, 0x38, 0x37DD);
    OctetValue(0x37DD, 0x39, 0x4B37);
    hide Octet;
    var b: seq<byte> := [0x31, 0x32, 0x33, 0x34, 0x35, 0x36, 0x37, 0x38, 0x39];
    assert b == [0x31, 0x32] + ([0x33, 0x34] + ([0x35, 0x36] + ([0x37, 0x38] + [0x39])));
    FoldAppend(Octet, INIT, [0x31, 0x32], [0x33, 0x34] + ([0x35, 0x36] + ([0x37, 0x38] + [0x39])));
    FoldPair(Octet, INIT, 0x31, 0x32);
    FoldAppend(Octet, 0xF595, [0x33, 0x34], [0x35, 0x36] + ([0x37, 0x38] + [0x39]));
    FoldPair(Octet, 0xF595, 0x33, 0x34);
    FoldAppend(Octet, 0x30BA, [0x35, 0x36], [0x37, 0x38] + [0x39]);
    FoldPair(Octet, 0x30BA, 0x35, 0x36);
    FoldAppend(Octet, 0x32E4, [0x37, 0x38], [0x39]);
    FoldPair(Octet, 0x32E4, 0x37, 0x38);
    assert [0x39 as byte][1..] == [];
  }
}
