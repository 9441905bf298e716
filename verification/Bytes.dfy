// Octets and the little-endian integers that the VKT-7 protocol is written in.

module Bytes {

  type byte = bv8

  datatype Option<+T> = None | Some(value: T) {
    function GetOr(default: T): T {
      if None? then default else value
    }
  }

  datatype Result<+T, +E> = Ok(value: T) | Err(error: E)

  /** The number an octet stands for. */
  function Value(b: byte): (v: nat)
    ensures v < 256
  {
    b as int
  }

  /** The octet with value n; counting up keeps the conversion out of the solver's hands. */
  function ByteOf(n: nat): (b: byte)
    requires n < 256
    ensures Value(b) == n
  {
    if n == 0 then 0 else ByteOf(n - 1) + 1
  }

  /** The low octet of n, as Go's byte(n) keeps it. */
  function Low(n: int): (b: byte)
    ensures Value(b) == n % 256
  {
    ByteOf(n % 256)
  }

  lemma SameOctet(a: byte, b: byte)
    requires Value(a) == Value(b)
    ensures a == b
  {}

  lemma LowIs(b: byte, n: nat)
    requires n == Value(b)
    ensures Low(n) == b
  {
    hide ByteOf, Value;
    assert n % 256 == n;
    SameOctet(ByteOf(n), b);
  }

  function Concat<T>(parts: seq<seq<T>>): (r: seq<T>)
  {
    if parts == [] then [] else parts[0] + Concat(parts[1..])
  }

  lemma ConcatAppend<T>(a: seq<seq<T>>, b: seq<seq<T>>)
    ensures Concat(a + b) == Concat(a) + Concat(b)
  {
    if a == [] {
      assert a + b == b;
    } else {
      assert (a + b)[1..] == a[1..] + b;
      ConcatAppend(a[1..], b);
    }
  }

  lemma ConcatLast<T>(parts: seq<seq<T>>, last: seq<T>)
    ensures Concat(parts + [last]) == Concat(parts) + last
  {
    ConcatAppend(parts, [last]);
    assert [last][1..] == [];
    assert Concat([last]) == last;
  }

  function Fold<S, E>(f: (S, E) -> S, s: S, xs: seq<E>): S
    decreases |xs|
  {
    if xs == [] then s else Fold(f, f(s, xs[0]), xs[1..])
  }

  lemma {:induction false} FoldAppend<S, E>(f: (S, E) -> S, s: S, xs: seq<E>, ys: seq<E>)
    ensures Fold(f, s, xs + ys) == Fold(f, Fold(f, s, xs), ys)
    decreases |xs|
  {
    if xs == [] {
      assert xs + ys == ys;
    } else {
      assert (xs + ys)[1..] == xs[1..] + ys;
      FoldAppend(f, f(s, xs[0]), xs[1..], ys);
    }
  }
}
