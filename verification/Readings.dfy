// What a parsed record says of the octets it came from: where each reading lies, what its value is,
// and which data are refused.

module Readings {
  import opened Bytes
  import opened Integers
  import opened Elements
  import RL = ReadLists

  // ---- One value ---------------------------------------------------------------------------

  /** Counters are five numbers of two octets, one after the other. */
  predicate CountersIn(values: seq<nat>, raw: seq<byte>) {
    |raw| == 10 && |values| == 5 && Concat(seq(5, i requires 0 <= i < 5 => Octets(2, values[i]))) == raw
  }

  /** A number is the one that is written with these octets, in two's complement. */
  predicate IntegerIn(x: int, raw: seq<byte>) {
    1 <= |raw| <= 8 && Fits(|raw|, x) && Octets(|raw|, x) == raw
  }

  /** The elements that are not ordinary numbers, by address. */
  const UNITS: set<nat> := {44, 45, 46, 47, 48, 49, 50, 51, 52, 53, 54, 55, 56}
  const SITUATIONS: set<nat> := {77, 78}
  const DURATIONS: set<nat> := {79, 80}
  const FLOWS: set<nat> := {19, 20, 21, 41, 42, 43}
  const INPUT: nat := 81
  const DIGITS: set<nat> :=
    {57, 58, 59, 60, 61, 62, 63, 64, 65, 66, 67, 68, 69, 70, 71, 72, 73, 74, 75, 76}

  predicate Textual(a: nat) {
    a in UNITS || a in SITUATIONS
  }

  predicate Floating(a: nat) {
    a in FLOWS || a == INPUT
  }

  lemma KindsAre(a: nat)
    ensures IsText(a) <==> Textual(a)
    ensures IsCounters(a) <==> a in DURATIONS
    ensures IsFloat(a) <==> Floating(a)
    ensures IsDigit(a) <==> a in DIGITS
  {}

  /** What these octets say for an element with this address; at most one value, and for a wrong size none. */
  predicate Says(a: nat, raw: seq<byte>, v: Decoded) {
    if Textual(a) then v == Text(raw)
    else if a in DURATIONS then v.Counters? && CountersIn(v.values, raw)
    else if Floating(a) then v == FloatBits(raw) && |raw| == 4
    else if a in DIGITS then v.Digit? && v.digit < 256 && Octets(1, v.digit) == raw
    else v.Integer? && IntegerIn(v.integer, raw)
  }

  predicate SizeFits(a: nat, size: nat) {
    if Textual(a) then true
    else if a in DURATIONS then size == 10
    else if Floating(a) then size == 4
    else if a in DIGITS then size == 1
    else 1 <= size <= 8
  }

  lemma OneOctet(raw: seq<byte>)
    requires |raw| == 1
    ensures Octets(1, Value(raw[0])) == raw
  {
    hide ByteOf, Value;
    LowIs(raw[0], Value(raw[0]));
    assert Octets(1, Value(raw[0])) == [Low(Value(raw[0]))] + [];
  }

  lemma TwoOctets(raw: seq<byte>)
    requires |raw| == 2
    ensures Unsigned(raw) < 0x1_0000 && Octets(2, Unsigned(raw)) == raw
  {
    hide ByteOf, Value;
    var x, y := Value(raw[0]), Value(raw[1]);
    assert raw[1..] == [raw[1]] && raw[1..][1..] == [];
    assert Unsigned(raw) == x + 256 * y;
    LowIs(raw[1], y);
    LowMod(raw[0], x + 256 * y, y);
    assert (x + 256 * y) / 256 == y;
    assert Octets(2, x + 256 * y) == [raw[0]] + ([raw[1]] + []);
  }

  lemma CountersSay(raw: seq<byte>, values: seq<nat>)
    requires |raw| == 10 && |values| == 5
    requires forall i :: 0 <= i < 5 ==> values[i] == Unsigned(raw[i * 2..i * 2 + 2])
    ensures CountersIn(values, raw)
  {
    hide Unsigned, Octets;
    forall i | 0 <= i < 5
      ensures Octets(2, values[i]) == raw[i * 2..i * 2 + 2]
    {
      TwoOctets(raw[i * 2..i * 2 + 2]);
    }
    var p := seq(5, i requires 0 <= i < 5 => Octets(2, values[i]));
    assert p == [raw[0..2], raw[2..4], raw[4..6], raw[6..8], raw[8..10]];
    ConcatFive(raw[0..2], raw[2..4], raw[4..6], raw[6..8], raw[8..10]);
  }

  lemma ConcatFive<T>(a: seq<T>, b: seq<T>, c: seq<T>, d: seq<T>, e: seq<T>)
    ensures Concat([a, b, c, d, e]) == a + b + c + d + e
  {
    assert [a] + [b, c, d, e] == [a, b, c, d, e] && [b] + [c, d, e] == [b, c, d, e];
    assert [c] + [d, e] == [c, d, e] && [d] + [e] == [d, e] && [e] + [] == [e];
    ConcatTwo(a, [b, c, d, e]);
    ConcatTwo(b, [c, d, e]);
    ConcatTwo(c, [d, e]);
    ConcatTwo(d, [e]);
    ConcatTwo(e, []);
  }

  lemma ConcatTwo<T>(a: seq<T>, rest: seq<seq<T>>)
    ensures Concat([a] + rest) == a + Concat(rest)
  {
    assert ([a] + rest)[1..] == rest;
  }

  /** A decoded value is what its octets say, and a size that the kind does not have is refused. */
  lemma DecodedSays(a: nat, raw: seq<byte>)
    ensures DecodeValue(a, raw).Some? <==> SizeFits(a, |raw|)
    ensures DecodeValue(a, raw).Some? ==> Says(a, raw, DecodeValue(a, raw).value)
  {
    KindsAre(a);
    hide Octets, Unsigned, Signed, Fits, CountersIn, IsText, IsCounters, IsFloat, IsDigit, Textual, Floating;
    var v := DecodeValue(a, raw);
    if v.Some? {
      match v.value {
        case Counters(values) => CountersSay(raw, values);
        case Digit(_) => OneOctet(raw);
        case Integer(_) =>
          SignedFits(raw);
          OctetsInverse(raw);
        case _ =>
      }
    }
  }

  /** No other number is written with these octets. */
  lemma IntegerUnique(x: int, y: int, raw: seq<byte>)
    requires IntegerIn(x, raw) && IntegerIn(y, raw)
    ensures x == y
  {
    SignedInverse(|raw|, x);
    SignedInverse(|raw|, y);
    hide Octets, Signed, Fits;
  }

  /** A number sent wider, with its sign octet repeated, decodes to the same value. */
  lemma WiderIsSame(a: nat, raw: seq<byte>)
    requires !Textual(a) && a !in DURATIONS && !Floating(a) && a !in DIGITS && 1 <= |raw| < 8
    ensures DecodeValue(a, raw + [SignOctet(raw)]) == DecodeValue(a, raw) != None
  {
    KindsAre(a);
    SignExtension(raw);
    hide Signed;
  }

  // ---- A record ----------------------------------------------------------------------------

  /** The octets before the k-th element. */
  function Offset(es: seq<Element>, k: nat): nat
    requires k <= |es|
  {
    Elements.Total(es[..k])
  }

  /** What lies at this offset, for this element. */
  predicate Lies(e: Element, d: seq<byte>, off: nat, r: Reading) {
    && off + e.size + 2 <= |d| && r.raw == d[off..off + e.size]
    && r.quality == d[off + e.size] && r.ns == d[off + e.size + 1]
    && Says(e.address, r.raw, r.value)
  }

  /** No later element of the list has the address of the k-th. */
  predicate LastOfAddress(es: seq<Element>, k: nat)
    requires k < |es|
  {
    forall j :: k < j < |es| ==> es[j].address != es[k].address
  }

  lemma OffsetNext(es: seq<Element>, k: nat)
    requires 0 < k <= |es|
    ensures Offset(es, k) == es[0].size + 2 + Offset(es[1..], k - 1)
  {
    assert es[..k][1..] == es[1..][..k - 1];
  }

  /** A parsed record has a reading for each address of the list, and keeps the others it began with. */
  lemma {:induction false} ParsedKeys(es: seq<Element>, d: seq<byte>, out: Record)
    requires ParseFrom(es, d, out).Ok?
    ensures
      var m := ParseFrom(es, d, out).value;
      && (forall a :: a in m <==> a in out || exists e :: e in es && e.address == a)
      && (forall a :: a in out && (forall e :: e in es ==> e.address != a) ==> m[a] == out[a])
    decreases |es|
  {
    hide DecodeValue;
    if es != [] {
      var e := es[0];
      var raw := d[..e.size];
      var r := Reading(DecodeValue(e.address, raw).value, d[e.size], d[e.size + 1], raw);
      ParsedKeys(es[1..], d[e.size + 2..], out[e.address := r]);
      assert es == [e] + es[1..];
    }
  }

  /** The reading of an address lies where its last element stands. */
  lemma {:induction false} ParsedLies(es: seq<Element>, d: seq<byte>, out: Record, k: nat)
    requires ParseFrom(es, d, out).Ok? && k < |es| && LastOfAddress(es, k)
    ensures
      var m := ParseFrom(es, d, out).value;
      es[k].address in m && Lies(es[k], d, Offset(es, k), m[es[k].address])
    decreases |es|
  {
    hide DecodeValue, Says, Lies, Offset;
    var e := es[0];
    var raw := d[..e.size];
    var r := Reading(DecodeValue(e.address, raw).value, d[e.size], d[e.size + 1], raw);
    if k > 0 {
      ParsedLies(es[1..], d[e.size + 2..], out[e.address := r], k - 1);
      OffsetNext(es, k);
      LiesFurther(es[k], d, e.size + 2, Offset(es[1..], k - 1), ParseFrom(es, d, out).value[es[k].address]);
    } else {
      LiesFirst(es, d, r);
      ParsedKeys(es[1..], d[e.size + 2..], out[e.address := r]);
      forall f | f in es[1..]
        ensures f.address != e.address
      {
        var j :| 0 <= j < |es[1..]| && es[1..][j] == f;
        assert es[j + 1] == f;
      }
    }
  }

  lemma LiesFirst(es: seq<Element>, d: seq<byte>, r: Reading)
    requires es != [] && es[0].size + 2 <= |d| && DecodeValue(es[0].address, d[..es[0].size]) == Some(r.value)
    requires r.raw == d[..es[0].size] && r.quality == d[es[0].size] && r.ns == d[es[0].size + 1]
    ensures Lies(es[0], d, Offset(es, 0), r)
  {
    hide DecodeValue, Says;
    DecodedSays(es[0].address, r.raw);
    assert es[..0] == [];
  }

  lemma LiesFurther(e: Element, d: seq<byte>, skip: nat, off: nat, r: Reading)
    requires skip <= |d| && Lies(e, d[skip..], off, r)
    ensures Lies(e, d, skip + off, r)
  {
    hide Says;
    assert d[skip..][off..off + e.size] == d[skip + off..skip + off + e.size];
  }

  /** A parsed record, told from the octets: its addresses are those of the list, its readings what they say. */
  lemma RecordSays(es: seq<Element>, d: seq<byte>)
    requires Parse(es, d).Ok?
    ensures
      var m := Parse(es, d).value;
      && (forall a :: a in m <==> exists e :: e in es && e.address == a)
      && (forall k :: 0 <= k < |es| && LastOfAddress(es, k) ==>
            es[k].address in m && Lies(es[k], d, Offset(es, k), m[es[k].address]))
  {
    hide Lies, ParseFrom;
    ParsedKeys(es, d, map[]);
    forall k | 0 <= k < |es| && LastOfAddress(es, k)
      ensures es[k].address in Parse(es, d).value
      ensures Lies(es[k], d, Offset(es, k), Parse(es, d).value[es[k].address])
    {
      ParsedLies(es, d, map[], k);
    }
  }

  // ---- What is refused ---------------------------------------------------------------------

  /** The elements before the k-th are all there, in sizes that fit. */
  predicate GoodBefore(es: seq<Element>, d: seq<byte>, k: nat)
    requires k <= |es|
  {
    Offset(es, k) <= |d| && forall j :: 0 <= j < k ==> SizeFits(es[j].address, es[j].size)
  }

  lemma {:induction false} ParseEnds(es: seq<Element>, d: seq<byte>, out: Record) returns (k: nat)
    ensures k <= |es| && GoodBefore(es, d, k)
    ensures
      var r := ParseFrom(es, d, out);
      if k == |es| then r.Ok?
      else if Offset(es, k + 1) > |d| then r == Err(ShortData(es[k].address))
      else r == Err(BadSize(es[k].address)) && !SizeFits(es[k].address, es[k].size)
    decreases |es|
  {
    hide DecodeValue, SizeFits, Says;
    assert Offset(es, 0) == 0;
    k := 0;
    if es != [] {
      var e := es[0];
      OffsetNext(es, 1);
      assert Offset(es[1..], 0) == 0;
      if e.size + 2 <= |d| {
        var raw := d[..e.size];
        DecodedSays(e.address, raw);
        if DecodeValue(e.address, raw).Some? {
          var r := Reading(DecodeValue(e.address, raw).value, d[e.size], d[e.size + 1], raw);
          var i := ParseEnds(es[1..], d[e.size + 2..], out[e.address := r]);
          k := i + 1;
          OffsetNext(es, k);
          if k < |es| {
            OffsetNext(es, k + 1);
          }
        }
      }
    }
  }

  lemma {:induction false} OffsetGrows(es: seq<Element>, j: nat, k: nat)
    requires j < k <= |es|
    ensures Offset(es, j + 1) == Offset(es, j) + es[j].size + 2 <= Offset(es, k)
    decreases k
  {
    assert es[..k] == es[..k - 1] + [es[k - 1]];
    RL.TotalAppend(es[..k - 1], [es[k - 1]]);
    assert [es[k - 1]][1..] == [];
    if j < k - 1 {
      OffsetGrows(es, j, k - 1);
    }
  }

  /** Data are parsed exactly if they are long enough and every size fits its kind. */
  lemma ParsedExactly(es: seq<Element>, d: seq<byte>)
    ensures Parse(es, d).Ok? <==>
            Elements.Total(es) <= |d| && forall k :: 0 <= k < |es| ==> SizeFits(es[k].address, es[k].size)
  {
    hide SizeFits, ParseFrom;
    var k := ParseEnds(es, d, map[]);
    assert es[..|es|] == es;
    if k < |es| {
      OffsetGrows(es, k, |es|);
    }
  }

  /** Otherwise the first element that does not fit is named, with what is wrong with it. */
  lemma RefusedExactly(es: seq<Element>, d: seq<byte>, a: nat)
    ensures Parse(es, d) == Err(ShortData(a)) <==>
            exists k: nat :: k < |es| && GoodBefore(es, d, k) && Offset(es, k + 1) > |d| && es[k].address == a
    ensures Parse(es, d) == Err(BadSize(a)) <==>
            exists k: nat :: k < |es| && GoodBefore(es, d, k) && Offset(es, k + 1) <= |d| && es[k].address == a &&
                             !SizeFits(a, es[k].size)
  {
    hide SizeFits, ParseFrom;
    var i := ParseEnds(es, d, map[]);
    forall k: nat | k < |es| && GoodBefore(es, d, k) &&
                    (Offset(es, k + 1) > |d| || !SizeFits(es[k].address, es[k].size))
      ensures k == i
    {
      if i < k {
        OffsetGrows(es, i, k);
      } else if k < i {
        OffsetGrows(es, k, i);
      }
    }
  }
}
