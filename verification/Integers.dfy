// Little-endian integers of any width, unsigned and two's complement.

module Integers {
  import opened Bytes

  function Pow256(k: nat): (p: nat)
    ensures p >= 1
  {
    if k == 0 then 1 else 256 * Pow256(k - 1)
  }

  function Unsigned(b: seq<byte>): (n: nat)
    ensures n < Pow256(|b|)
  {
    if b == [] then 0 else Value(b[0]) + 256 * Unsigned(b[1..])
  }

  /** The low k octets of x, lowest first; two's complement for a negative x. */
  function Octets(k: nat, x: int): (b: seq<byte>)
    ensures |b| == k
  {
    if k == 0 then [] else [Low(x)] + Octets(k - 1, x / 256)
  }

  lemma {:induction false} UnsignedInverse(k: nat, n: nat)
    requires n < Pow256(k)
    ensures Unsigned(Octets(k, n)) == n
    decreases k
  {
    if k > 0 {
      hide Low, Value;
      UnsignedInverse(k - 1, n / 256);
      assert Octets(k, n)[1..] == Octets(k - 1, n / 256);
      assert n == n % 256 + 256 * (n / 256);
    }
  }

  lemma Rotate(a: int, b: int, c: int)
    ensures a * (b * c) == b * (a * c)
  {}

  lemma {:induction false} UnsignedAppend(b: seq<byte>, x: byte)
    ensures Unsigned(b + [x]) == Unsigned(b) + Value(x) * Pow256(|b|)
    decreases |b|
  {
    hide Value;
    if b == [] {
      assert b + [x] == [x] && [x][1..] == [];
    } else {
      assert (b + [x])[1..] == b[1..] + [x];
      UnsignedAppend(b[1..], x);
      Rotate(256, Value(x), Pow256(|b| - 1));
    }
  }

  // ---- Two's complement --------------------------------------------------------------------

  predicate Negative(b: seq<byte>)
    requires b != []
  {
    Value(b[|b| - 1]) >= 128
  }

  /** The two's complement reading: the last octet carries the sign. */
  function Signed(b: seq<byte>): int
    requires b != []
  {
    if |b| == 1 then (if Negative(b) then Value(b[0]) - 256 else Value(b[0]))
    else Value(b[0]) + 256 * Signed(b[1..])
  }

  predicate Fits(k: nat, x: int)
    requires k > 0
  {
    -128 * Pow256(k - 1) <= x < 128 * Pow256(k - 1)
  }

  lemma {:induction false} SignedFits(b: seq<byte>)
    requires b != []
    ensures Fits(|b|, Signed(b)) && (Signed(b) < 0 <==> Negative(b))
    ensures Signed(b) == Unsigned(b) - (if Negative(b) then Pow256(|b|) else 0)
    decreases |b|
  {
    if |b| == 1 {
      assert b[1..] == [];
    } else {
      SignedFits(b[1..]);
    }
  }

  /** Encoding and then decoding gives back every number of the width. */
  lemma {:induction false} SignedInverse(k: nat, x: int)
    requires k > 0 && Fits(k, x)
    ensures Signed(Octets(k, x)) == x
    decreases k
  {
    hide Low, Value;
    var b := Octets(k, x);
    assert b[1..] == Octets(k - 1, x / 256) && Value(b[0]) == x % 256;
    if k > 1 {
      SignedInverse(k - 1, x / 256);
    }
  }

  /** Decoding and then encoding gives back every octet string. */
  lemma {:induction false} OctetsInverse(b: seq<byte>)
    requires b != []
    ensures Octets(|b|, Signed(b)) == b
    decreases |b|
  {
    hide ByteOf, Value;
    var x := Signed(b);
    if |b| == 1 {
      assert b[1..] == [];
      LowMod(b[0], x, if Negative(b) then -1 else 0);
    } else {
      var rest := Signed(b[1..]);
      assert x == Value(b[0]) + 256 * rest;
      OctetsInverse(b[1..]);
      LowMod(b[0], x, rest);
      assert x / 256 == rest;
    }
  }

  lemma LowMod(b: byte, x: int, q: int)
    requires x == Value(b) + 256 * q
    ensures Low(x) == b
  {
    hide ByteOf, Value;
    assert x % 256 == Value(b);
    SameOctet(Low(x), b);
  }

  /** The octet that continues the sign of b. */
  function SignOctet(b: seq<byte>): byte
    requires b != []
  {
    if Negative(b) then 0xFF else 0
  }

  /** Widening by the sign octet does not change the value. */
  lemma {:induction false} SignExtension(b: seq<byte>)
    requires b != []
    ensures Signed(b + [SignOctet(b)]) == Signed(b)
    decreases |b|
  {
    var w := b + [SignOctet(b)];
    if |b| == 1 {
      assert w[1..] == [SignOctet(b)];
    } else {
      assert w[1..] == b[1..] + [SignOctet(b[1..])];
      SignExtension(b[1..]);
    }
  }

  // ---- 64-bit patterns ---------------------------------------------------------------------

  function Pow2(k: nat): (p: nat)
    ensures p >= 1
  {
    if k == 0 then 1 else 2 * Pow2(k - 1)
  }

  const TWO_64 := 0x1_0000_0000_0000_0000
  const ALL_ONES := TWO_64 - 1

  /** x << k on 64 bits. */
  function ShiftLeft(x: nat, k: nat): nat {
    x * Pow2(k) % TWO_64
  }

  /** x | y, bit by bit. */
  function Or(x: nat, y: nat): nat
    decreases x + y
  {
    if x == 0 && y == 0 then 0
    else (if x % 2 == 1 || y % 2 == 1 then 1 else 0) + 2 * Or(x / 2, y / 2)
  }

  /** The int64 with the 64-bit pattern n. */
  function AsInt64(n: nat): int {
    if n >= TWO_64 / 2 then n - TWO_64 else n
  }

  lemma {:induction false} OrNothing(w: nat)
    ensures Or(0, w) == w
    decreases w
  {
    if w > 0 {
      OrNothing(w / 2);
    }
  }

  /** Bits above those of u are added by the or. */
  lemma {:induction false} OrAbove(u: nat, w: nat, k: nat)
    requires u < Pow2(k)
    ensures Or(u, w * Pow2(k)) == u + w * Pow2(k)
    decreases k
  {
    if k == 0 {
      OrNothing(w);
    } else {
      hide Or;
      OrAbove(u / 2, w, k - 1);
      Rotate(w, 2, Pow2(k - 1));
      OrTwice(u, w * Pow2(k - 1));
    }
  }

  lemma OrTwice(u: nat, half: nat)
    requires Or(u / 2, half) == u / 2 + half
    ensures Or(u, 2 * half) == u + 2 * half
  {
    assert u == 2 * (u / 2) + u % 2 && 2 * half / 2 == half && 2 * half % 2 == 0;
  }

  lemma {:induction false} OctetsOfBits(k: nat)
    ensures Pow2(8 * k) == Pow256(k)
  {
    if k > 0 {
      OctetsOfBits(k - 1);
      var n := 8 * (k - 1);
      assert Pow2(n + 8) == 2 * Pow2(n + 7) == 4 * Pow2(n + 6) == 8 * Pow2(n + 5) == 16 * Pow2(n + 4);
      assert Pow2(n + 4) == 2 * Pow2(n + 3) == 4 * Pow2(n + 2) == 8 * Pow2(n + 1) == 16 * Pow2(n);
    }
  }

  lemma PowersOf256()
    ensures Pow256(0) == 1 && Pow256(1) == 0x100 && Pow256(2) == 0x1_0000 && Pow256(3) == 0x100_0000
    ensures Pow256(4) == 0x1_0000_0000 && Pow256(5) == 0x100_0000_0000 && Pow256(6) == 0x1_0000_0000_0000
    ensures Pow256(7) == 0x100_0000_0000_0000 && Pow256(8) == TWO_64
  {}

  /** An octet shifted above the ones before it. */
  lemma OctetAbove(i: nat, u: nat, v: nat)
    requires i < 8 && u < Pow256(i) && v < 256
    ensures Or(u, ShiftLeft(v, 8 * i)) == u + v * Pow256(i)
  {
    OctetsOfBits(i);
    hide Or, Pow2;
    OrAbove(u, v, 8 * i);
    PowersOf256();
    if i == 0 {} else if i == 1 {} else if i == 2 {} else if i == 3 {
    } else if i == 4 {} else if i == 5 {} else if i == 6 {} else {}
  }

  /** The shifted mask has all bits from the k-th octet on. */
  lemma MaskAbove(k: nat)
    requires 1 <= k < 8
    ensures ShiftLeft(ALL_ONES, 8 * k) == TWO_64 - Pow256(k) == (Pow256(8 - k) - 1) * Pow256(k)
  {
    OctetsOfBits(k);
    hide Pow2;
    PowersOf256();
    if k == 1 {} else if k == 2 {} else if k == 3 {} else if k == 4 {} else if k == 5 {} else if k == 6 {} else {}
  }

  /** With the mask, if it is due, the pattern of k octets stands for the number of theirs. */
  lemma SignAbove(k: nat, u: nat, x: int)
    requires 1 <= k <= 8 && u < Pow256(k) && Fits(k, x) && (x == u || x == u - Pow256(k))
    ensures AsInt64(if k < 8 && x < 0 then Or(u, ShiftLeft(ALL_ONES, 8 * k)) else u) == x
  {
    hide Or, ShiftLeft;
    if k < 8 && x < 0 {
      OctetsOfBits(k);
      hide Pow2;
      MaskAbove(k);
      OrAbove(u, Pow256(8 - k) - 1, 8 * k);
    }
    PowersOf256();
    if k == 1 {} else if k == 2 {} else if k == 3 {} else if k == 4 {
    } else if k == 5 {} else if k == 6 {} else if k == 7 {} else {}
  }
}
