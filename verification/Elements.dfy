// Logical elements of the meter: decoding their values, the read list, and the active list.

module Elements {
  import opened Bytes
  import opened Integers

  /** A logical element: its address, which also determines its name, and the width of its value. */
  datatype Element = Element(address: nat, size: nat)

  datatype ElementError =
    | ShortData(address: nat)
    | BadSize(address: nat)
    | ReadListTooLarge
    | BadActiveLength
    | NoActiveElements

  // ---- One value ---------------------------------------------------------------------------

  datatype Decoded =
    | Text(raw: seq<byte>)
    | Counters(values: seq<nat>)
    | FloatBits(raw: seq<byte>)
    | Digit(digit: nat)
    | Integer(integer: int)

  datatype Reading = Reading(value: Decoded, quality: byte, ns: byte, raw: seq<byte>)

  /** decodeSignedInt, on the 64-bit patterns that the shifts and the ors of the source work on. */
  method DecodeSignedInt(b: seq<byte>) returns (r: Option<int>)
    ensures r == if 1 <= |b| <= 8 then Some(Signed(b)) else None
  {
    if |b| == 0 || |b| > 8 {
      return None;
    }
    hide Value, Signed, AsInt64, Unsigned, Or, ShiftLeft;
    NothingYet();
    var x := 0;
    for i := 0 to |b|
      invariant x == Unsigned(b[..i])
    {
      OneOctetMore(b, i);
      x := Or(x, ShiftLeft(Value(b[i]), 8 * i));
    }
    assert b[..|b|] == b;
    PatternIsSigned(b);
    if |b| < 8 && Value(b[|b| - 1]) >= 128 {
      x := Or(x, ShiftLeft(ALL_ONES, 8 * |b|));
    }
    r := Some(AsInt64(x));
  }

  lemma OneOctetMore(b: seq<byte>, i: nat)
    requires i < |b| <= 8
    ensures Or(Unsigned(b[..i]), ShiftLeft(Value(b[i]), 8 * i)) == Unsigned(b[..i + 1])
  {
    hide Value, Unsigned, Or, ShiftLeft, Pow256;
    UnsignedAppend(b[..i], b[i]);
    assert b[..i + 1] == b[..i] + [b[i]];
    OctetAbove(i, Unsigned(b[..i]), Value(b[i]));
  }

  lemma NothingYet()
    ensures Unsigned([]) == 0
  {}

  /** The sign mask turns the pattern of the octets into that of their two's complement value. */
  lemma PatternIsSigned(b: seq<byte>)
    requires 1 <= |b| <= 8
    ensures AsInt64(if |b| < 8 && Value(b[|b| - 1]) >= 128 then Or(Unsigned(b), ShiftLeft(ALL_ONES, 8 * |b|))
                    else Unsigned(b)) == Signed(b)
  {
    SignedFits(b);
    hide Value, Unsigned, Or, ShiftLeft, Signed, Pow256;
    SignAbove(|b|, Unsigned(b), Signed(b));
  }

  predicate IsText(a: nat) {
    a == 77 || a == 78 || 44 <= a <= 56
  }

  predicate IsCounters(a: nat) {
    a == 79 || a == 80
  }

  predicate IsFloat(a: nat) {
    19 <= a <= 21 || 41 <= a <= 43 || a == 81
  }

  predicate IsDigit(a: nat) {
    57 <= a <= 76
  }

  /** decodeElementValue: None is a size that the kind of element does not have. */
  function DecodeValue(a: nat, raw: seq<byte>): Option<Decoded> {
    if IsText(a) then Some(Text(raw))
    else if IsCounters(a) then
      if |raw| != 10 then None
      else Some(Counters(seq(5, i requires 0 <= i < 5 => Unsigned(raw[i * 2..i * 2 + 2]))))
    else if IsFloat(a) then if |raw| != 4 then None else Some(FloatBits(raw))
    else if IsDigit(a) then if |raw| != 1 then None else Some(Digit(Value(raw[0])))
    else if 1 <= |raw| <= 8 then Some(Integer(Signed(raw)))
    else None
  }

  method DecodeElementValue(a: nat, raw: seq<byte>) returns (v: Option<Decoded>)
    ensures v == DecodeValue(a, raw)
  {
    if IsText(a) {
      return Some(Text(raw));
    }
    if IsCounters(a) {
      if |raw| != 10 {
        return None;
      }
      var values: seq<nat> := [];
      for i := 0 to 5
        invariant |values| == i && forall k :: 0 <= k < i ==> values[k] == Unsigned(raw[k * 2..k * 2 + 2])
      {
        values := values + [Unsigned(raw[i * 2..i * 2 + 2])];
      }
      assert values == seq(5, i requires 0 <= i < 5 => Unsigned(raw[i * 2..i * 2 + 2]));
      return Some(Counters(values));
    }
    if IsFloat(a) {
      return if |raw| != 4 then None else Some(FloatBits(raw));
    }
    if IsDigit(a) {
      return if |raw| != 1 then None else Some(Digit(Value(raw[0])));
    }
    var x := DecodeSignedInt(raw);
    return if x.None? then None else Some(Integer(x.value));
  }

  // ---- A record ----------------------------------------------------------------------------

  type Record = map<nat, Reading>

  /** ParseElements on the part of the data that is left, with the readings decoded so far. */
  function ParseFrom(es: seq<Element>, d: seq<byte>, out: Record): Result<Record, ElementError>
    decreases |es|
  {
    if es == [] then Ok(out)
    else
      var e := es[0];
      if e.size + 2 > |d| then Err(ShortData(e.address))
      else match DecodeValue(e.address, d[..e.size])
        case None => Err(BadSize(e.address))
        case Some(v) =>
          ParseFrom(es[1..], d[e.size + 2..],
                    out[e.address := Reading(v, d[e.size], d[e.size + 1], d[..e.size])])
  }

  function Parse(es: seq<Element>, d: seq<byte>): Result<Record, ElementError> {
    ParseFrom(es, d, map[])
  }

  method ParseElements(es: seq<Element>, d: seq<byte>) returns (r: Result<Record, ElementError>)
    ensures r == Parse(es, d)
  {
    var out: Record := map[];
    var off := 0;
    for k := 0 to |es|
      invariant 0 <= off <= |d|
      invariant ParseFrom(es[k..], d[off..], out) == Parse(es, d)
    {
      var e := es[k];
      if off + e.size + 2 > |d| {
        return Err(ShortData(e.address));
      }
      var raw := d[off..off + e.size];
      var q := d[off + e.size];
      var ns := d[off + e.size + 1];
      assert raw == d[off..][..e.size] && d[off..][e.size + 2..] == d[off + e.size + 2..];
      assert es[k..][1..] == es[k + 1..];
      off := off + e.size + 2;
      var v := DecodeElementValue(e.address, raw);
      if v.None? {
        return Err(BadSize(e.address));
      }
      out := out[e.address := Reading(v.value, q, ns, raw)];
    }
    assert es[|es|..] == [];
    r := Ok(out);
  }

  /** The octets of a record that the elements take. */
  function Total(es: seq<Element>): nat {
    if es == [] then 0 else es[0].size + 2 + Total(es[1..])
  }

  lemma {:induction false} ParseAccumulates(es: seq<Element>, d: seq<byte>, out: Record)
    ensures ParseFrom(es, d, out) == match Parse(es, d) case Ok(m) => Ok(out + m) case Err(e) => Err(e)
    decreases |es|
  {
    if es != [] && es[0].size + 2 <= |d| && DecodeValue(es[0].address, d[..es[0].size]).Some? {
      hide DecodeValue;
      var e := es[0];
      var reading := Reading(DecodeValue(e.address, d[..e.size]).value, d[e.size], d[e.size + 1], d[..e.size]);
      var first := map[e.address := reading];
      ParseAccumulates(es[1..], d[e.size + 2..], out[e.address := reading]);
      ParseAccumulates(es[1..], d[e.size + 2..], map[][e.address := reading]);
      if Parse(es[1..], d[e.size + 2..]).Ok? {
        var m := Parse(es[1..], d[e.size + 2..]).value;
        assert out[e.address := reading] + m == out + (map[][e.address := reading] + m);
      }
    } else if es == [] {
      assert out + map[] == out;
    }
  }

  /**
   * Parsing a concatenation is parsing the parts, provided the first part has its exact length:
   * the readings merge, later ones first, and the first error wins.
   */
  lemma {:induction false} ParseConcat(es: seq<Element>, fs: seq<Element>, d: seq<byte>, c: seq<byte>)
    requires |d| == Total(es)
    ensures Parse(es + fs, d + c) ==
            match Parse(es, d)
            case Err(e) => Err(e)
            case Ok(m) => match Parse(fs, c) case Err(e) => Err(e) case Ok(n) => Ok(m + n)
  {
    ParseConcatFrom(es, fs, d, c, map[]);
    if Parse(es, d).Ok? {
      ParseAccumulates(fs, c, Parse(es, d).value);
    }
  }

  lemma {:induction false} ParseConcatFrom(es: seq<Element>, fs: seq<Element>, d: seq<byte>, c: seq<byte>, out: Record)
    requires |d| == Total(es)
    ensures ParseFrom(es + fs, d + c, out) ==
            match ParseFrom(es, d, out) case Err(e) => Err(e) case Ok(m) => ParseFrom(fs, c, m)
    decreases |es|
  {
    if es == [] {
      assert es + fs == fs && d + c == c;
    } else {
      var e := es[0];
      assert (es + fs)[0] == e && (es + fs)[1..] == es[1..] + fs;
      assert (d + c)[..e.size] == d[..e.size] && (d + c)[e.size + 2..] == d[e.size + 2..] + c;
      if DecodeValue(e.address, d[..e.size]).Some? {
        hide DecodeValue;
        var reading := Reading(DecodeValue(e.address, d[..e.size]).value, d[e.size], d[e.size + 1], d[..e.size]);
        ParseConcatFrom(es[1..], fs, d[e.size + 2..], c, out[e.address := reading]);
      }
    }
  }

  /** The octets that a meter sends for one element: value, quality, NS. */
  function Sent(r: Reading): seq<byte> {
    r.raw + [r.quality, r.ns]
  }

  function Stream(rs: seq<Reading>): seq<byte> {
    if rs == [] then [] else Sent(rs[0]) + Stream(rs[1..])
  }

  predicate Sendable(es: seq<Element>, rs: seq<Reading>) {
    |rs| == |es| && forall k :: 0 <= k < |es| ==>
      |rs[k].raw| == es[k].size && DecodeValue(es[k].address, rs[k].raw) == Some(rs[k].value)
  }

  function Merge(es: seq<Element>, rs: seq<Reading>, out: Record): Record
    requires |rs| == |es|
  {
    if es == [] then out else Merge(es[1..], rs[1..], out[es[0].address := rs[0]])
  }

  /** Parsing inverts the stream encoder. */
  lemma {:induction false} ParseInvertsStream(es: seq<Element>, rs: seq<Reading>, out: Record)
    requires Sendable(es, rs)
    ensures |Stream(rs)| == Total(es)
    ensures ParseFrom(es, Stream(rs), out) == Ok(Merge(es, rs, out))
    decreases |es|
  {
    hide DecodeValue;
    if es != [] {
      var d, e := Stream(rs), es[0];
      assert d == rs[0].raw + [rs[0].quality, rs[0].ns] + Stream(rs[1..]);
      assert d[..e.size] == rs[0].raw && d[e.size + 2..] == Stream(rs[1..]);
      ParseInvertsStream(es[1..], rs[1..], out[e.address := rs[0]]);
    }
  }

  /** Whatever parses is the stream of readings that reproduce it, followed by unread octets. */
  lemma {:induction false} ParsedIsStream(es: seq<Element>, d: seq<byte>, out: Record) returns (rs: seq<Reading>)
    requires ParseFrom(es, d, out).Ok?
    ensures Sendable(es, rs) && Total(es) <= |d|
    ensures Stream(rs) == d[..Total(es)]
    ensures ParseFrom(es, d, out) == Ok(Merge(es, rs, out))
    decreases |es|
  {
    hide DecodeValue;
    if es == [] {
      rs := [];
    } else {
      var e := es[0];
      var reading := Reading(DecodeValue(e.address, d[..e.size]).value, d[e.size], d[e.size + 1], d[..e.size]);
      var rest := ParsedIsStream(es[1..], d[e.size + 2..], out[e.address := reading]);
      rs := [reading] + rest;
      assert rs[1..] == rest;
      SentIsPrefix(d, e.size, Total(es[1..]));
      hide ParseFrom, Sent;
    }
  }

  lemma SentIsPrefix(d: seq<byte>, n: nat, m: nat)
    requires n + 2 + m <= |d|
    ensures (d[..n] + [d[n], d[n + 1]]) + d[n + 2..][..m] == d[..n + 2 + m]
  {}

  /** Parsing reads as many octets as the elements take, and no more. */
  lemma ParseReadsPrefix(es: seq<Element>, d: seq<byte>, rest: seq<byte>)
    requires |d| == Total(es)
    ensures Parse(es, d + rest) == Parse(es, d)
  {
    ParseConcat(es, [], d, rest);
    assert es + [] == es;
    if Parse(es, d).Ok? {
      assert Parse(es, d).value + map[] == Parse(es, d).value;
    }
  }

  /** What parses is consumed whole, as some stream of readings, exactly when its length is that of the elements. */
  lemma ConsumesExactly(es: seq<Element>, d: seq<byte>)
    requires Parse(es, d).Ok?
    ensures |d| == Total(es) <==> exists rs :: Sendable(es, rs) && Stream(rs) == d
  {
    hide DecodeValue, Parse;
    if |d| == Total(es) {
      hide *;
      var rs := ParsedStream(es, d);
      assert d[..|d|] == d;
    } else if rs :| Sendable(es, rs) && Stream(rs) == d {
      ParseInvertsStream(es, rs, map[]);
    }
  }

  lemma ParsedStream(es: seq<Element>, d: seq<byte>) returns (rs: seq<Reading>)
    requires Parse(es, d).Ok?
    ensures Sendable(es, rs) && Total(es) <= |d| && Stream(rs) == d[..Total(es)]
  {
    hide Sendable, Stream;
    rs := ParsedIsStream(es, d, map[]);
  }
}
