// What reading a list in chunks amounts to: the merge of the chunks against one read of the whole.

module Chunks {
  import opened Bytes
  import opened Integers
  import opened Elements
  import opened ReadLists
  import opened Marks
  import opened Meter

  /** A ReadData, the setting it was issued under, and its answer. */
  datatype Access = Access(setting: Setting, reply: Result<seq<byte>, MeterError>)

  // ---- What a set of chunk reads amounts to ------------------------------------------------

  /** The accesses read exactly these chunks, under one type and date, and all were answered. */
  predicate ReadsChunks(accesses: seq<Access>, chunks: seq<seq<Element>>, typ: int, date: Stamp) {
    && |accesses| == |chunks|
    && forall k :: 0 <= k < |chunks| ==>
         accesses[k].setting == Setting(typ, chunks[k], Some(date)) && accesses[k].reply.Ok?
  }

  /** The values that the chunks give, later chunks over earlier ones; None if one does not parse. */
  function Merged(chunks: seq<seq<Element>>, datas: seq<seq<byte>>): Option<Record>
    requires |datas| == |chunks|
    decreases |chunks|
  {
    if chunks == [] then Some(map[])
    else
      var n := |chunks| - 1;
      match (Merged(chunks[..n], datas[..n]), Parse(chunks[n], datas[n]))
      case (Some(m), Ok(v)) => Some(m + v)
      case _ => None
  }

  /** The data of the accesses, empty where a read failed. */
  function Replies(accesses: seq<Access>): (r: seq<seq<byte>>)
    ensures |r| == |accesses|
  {
    seq(|accesses|, k requires 0 <= k < |accesses| => if accesses[k].reply.Ok? then accesses[k].reply.value else [])
  }

  lemma {:induction false} MergedLast(chunks: seq<seq<Element>>, datas: seq<seq<byte>>, c: seq<Element>, d: seq<byte>)
    requires |datas| == |chunks|
    ensures Merged(chunks + [c], datas + [d]) ==
            match (Merged(chunks, datas), Parse(c, d)) case (Some(m), Ok(v)) => Some(m + v) case _ => None
  {
    assert (chunks + [c])[..|chunks|] == chunks && (datas + [d])[..|datas|] == datas;
  }

  lemma {:induction false} MergedFirst(c: seq<Element>, d: seq<byte>, chunks: seq<seq<Element>>, datas: seq<seq<byte>>)
    requires |datas| == |chunks|
    ensures Merged([c] + chunks, [d] + datas) ==
            match (Parse(c, d), Merged(chunks, datas)) case (Ok(v), Some(m)) => Some(v + m) case _ => None
    decreases |chunks|
  {
    hide Parse;
    NothingMerged();
    if chunks == [] {
      MergedLast([], [], c, d);
      assert [] + [c] == [c] + chunks && [] + [d] == [d] + datas;
      if Parse(c, d).Ok? {
        assert map[] + Parse(c, d).value == Parse(c, d).value == Parse(c, d).value + map[];
      }
    } else {
      hide Merged;
      var n := |chunks| - 1;
      MergedFirst(c, d, chunks[..n], datas[..n]);
      MergedLast([c] + chunks[..n], [d] + datas[..n], chunks[n], datas[n]);
      MergedLast(chunks[..n], datas[..n], chunks[n], datas[n]);
      assert chunks == chunks[..n] + [chunks[n]] && datas == datas[..n] + [datas[n]];
      assert [c] + chunks == ([c] + chunks[..n]) + [chunks[n]] && [d] + datas == ([d] + datas[..n]) + [datas[n]];
      match (Parse(c, d), Merged(chunks[..n], datas[..n]), Parse(chunks[n], datas[n])) {
        case (Ok(v), Some(m), Ok(w)) =>
          assert (v + m) + w == v + (m + w);
        case _ =>
      }
    }
  }

  lemma NothingMerged()
    ensures Replies([]) == [] && Merged([], []) == Some(map[])
  {}

  lemma ExactTotal(chunks: seq<seq<Element>>, datas: seq<seq<byte>>)
    requires |datas| == |chunks|
    requires forall k :: 0 <= k < |chunks| ==> |datas[k]| == Elements.Total(chunks[k])
    ensures |Concat(datas)| == Elements.Total(Concat(chunks))
  {
    if chunks != [] {
      ExactTotal(chunks[1..], datas[1..]);
      TotalAppend(chunks[0], Concat(chunks[1..]));
    }
  }

  /**
   * Chunks merge to what the whole list gives on the whole data, errors included, when all of them
   * but the last have their exact length.
   */
  lemma {:induction false} ChunkedIsWhole(chunks: seq<seq<Element>>, datas: seq<seq<byte>>)
    requires |datas| == |chunks|
    requires forall k :: 0 <= k < |chunks| - 1 ==> |datas[k]| == Elements.Total(chunks[k])
    ensures Merged(chunks, datas) ==
            match Parse(Concat(chunks), Concat(datas)) case Ok(m) => Some(m) case Err(_) => None
    decreases |chunks|
  {
    if chunks != [] {
      var n := |chunks| - 1;
      var cs, ds := chunks[..n], datas[..n];
      ChunkedIsWhole(cs, ds);
      ExactTotal(cs, ds);
      assert chunks == cs + [chunks[n]] && datas == ds + [datas[n]];
      ConcatLast(cs, chunks[n]);
      ConcatLast(ds, datas[n]);
      hide Parse;
      ParseConcat(Concat(cs), chunks[n], Concat(ds), datas[n]);
    }
  }

  /** An octet too many in an earlier chunk is dropped there, but shifts the whole. */
  lemma LongChunkDiffers()
    ensures
      var chunks := [[Element(0, 1)], [Element(1, 1)]];
      var datas: seq<seq<byte>> := [[1, 0, 0, 9], [2, 0, 0]];
      && Merged(chunks, datas).Some? && Parse(Concat(chunks), Concat(datas)).Ok?
      && Merged(chunks, datas).value != Parse(Concat(chunks), Concat(datas)).value
  {
    var e, f := Element(0, 1), Element(1, 1);
    var c: seq<byte> := [1, 0, 0, 9];
    var d: seq<byte> := [2, 0, 0];
    PairConcat([e], [f]);
    PairConcat(c, d);
    assert [e] + [f] == [e, f] && c + d == [1, 0, 0, 9, 2, 0, 0];
    SecondFromMerge(e, f, c, d);
    SecondFromWhole(e, f, c + d);
    assert (c + d)[3..4] == [9] && d[..1] == [2];
    hide *;
  }

  lemma SecondFromMerge(e: Element, f: Element, c: seq<byte>, d: seq<byte>)
    requires e == Element(0, 1) && f == Element(1, 1) && |c| >= 3 && |d| >= 3
    ensures Merged([[e], [f]], [c, d]).Some? && 1 in Merged([[e], [f]], [c, d]).value
    ensures Merged([[e], [f]], [c, d]).value[1].raw == d[..1]
  {
    assert [] + [[e]] == [[e]] && [[e]] + [[f]] == [[e], [f]] && [] + [c] == [c] && [c] + [d] == [c, d];
    OneElement(e, c, map[]);
    OneElement(f, d, map[]);
    hide Parse, Merged;
    NothingMerged();
    MergedLast([], [], [e], c);
    MergedLast([[e]], [c], [f], d);
  }

  lemma SecondFromWhole(e: Element, f: Element, d: seq<byte>)
    requires e == Element(0, 1) && f == Element(1, 1) && |d| >= 6
    ensures Parse([e, f], d).Ok? && 1 in Parse([e, f], d).value && Parse([e, f], d).value[1].raw == d[3..4]
  {
    assert [e, f][1..] == [f] && d[3..][..1] == d[3..4];
    OneElement(f, d[3..], map[][0 := Reading(Integer(Signed(d[..1])), d[1], d[2], d[..1])]);
  }

  lemma PairConcat<T>(a: seq<T>, b: seq<T>)
    ensures Concat([a, b]) == a + b
  {
    assert [a, b][1..] == [b] && [b][1..] == [];
    assert Concat([b]) == b + [] == b;
  }

  lemma OneElement(e: Element, d: seq<byte>, out: Record)
    requires e.size == 1 && e.address < 2 && |d| >= 3
    ensures ParseFrom([e], d, out) == Ok(out[e.address := Reading(Integer(Signed(d[..1])), d[1], d[2], d[..1])])
  {
    assert [e][1..] == [];
  }

  // ---- A consistent meter ------------------------------------------------------------------

  /** What a meter holds for one element of one record. */
  type Archive = (int, Stamp, Element) -> Reading

  function Held(archive: Archive, typ: int, date: Stamp, es: seq<Element>): seq<Reading> {
    if es == [] then [] else [archive(typ, date, es[0])] + Held(archive, typ, date, es[1..])
  }

  /** A meter that answers every read with exactly the held values of its present setting. */
  ghost predicate Consistent(archive: Archive, a: Access) {
    a.reply.Ok? && a.setting.date.Some? ==>
      a.reply.value == Stream(Held(archive, a.setting.typ, a.setting.date.value, a.setting.list))
  }

  ghost predicate ExactWidths(archive: Archive) {
    forall typ, date, e :: |archive(typ, date, e).raw| == e.size
  }

  lemma {:induction false} HeldWidth(archive: Archive, typ: int, date: Stamp, es: seq<Element>)
    requires ExactWidths(archive)
    ensures |Stream(Held(archive, typ, date, es))| == Elements.Total(es)
  {
    if es != [] {
      HeldWidth(archive, typ, date, es[1..]);
      assert Held(archive, typ, date, es)[1..] == Held(archive, typ, date, es[1..]);
    }
  }

  lemma {:induction false} HeldAppend(archive: Archive, typ: int, date: Stamp, a: seq<Element>, b: seq<Element>)
    ensures Stream(Held(archive, typ, date, a + b)) ==
            Stream(Held(archive, typ, date, a)) + Stream(Held(archive, typ, date, b))
  {
    if a == [] {
      assert a + b == b;
    } else {
      assert (a + b)[1..] == a[1..] + b;
      HeldAppend(archive, typ, date, a[1..], b);
      assert Held(archive, typ, date, a + b)[1..] == Held(archive, typ, date, a[1..] + b);
      assert Held(archive, typ, date, a)[1..] == Held(archive, typ, date, a[1..]);
    }
  }

  /** Against a consistent meter, chunked reading gives what one read of the whole list would. */
  lemma {:induction false} ConsistentReadIsWhole(archive: Archive, accesses: seq<Access>, es: seq<Element>, typ: int,
                                             date: Stamp)
    requires ExactWidths(archive)
    requires ReadsChunks(accesses, Split(es), typ, date)
    requires forall a :: a in accesses ==> Consistent(archive, a)
    ensures Merged(Split(es), Replies(accesses)) ==
            match Parse(es, Stream(Held(archive, typ, date, es))) case Ok(m) => Some(m) case Err(_) => None
  {
    var chunks, datas := Split(es), Replies(accesses);
    forall k | 0 <= k < |chunks|
      ensures datas[k] == Stream(Held(archive, typ, date, chunks[k])) && |datas[k]| == Elements.Total(chunks[k])
    {
      assert accesses[k] in accesses;
      HeldWidth(archive, typ, date, chunks[k]);
    }
    ChunkedIsWhole(chunks, datas);
    SplitIsSplit(es);
    StreamsConcat(archive, typ, date, chunks, datas);
  }

  lemma {:induction false} StreamsConcat(archive: Archive, typ: int, date: Stamp, chunks: seq<seq<Element>>,
                                         datas: seq<seq<byte>>)
    requires |datas| == |chunks|
    requires forall k :: 0 <= k < |chunks| ==> datas[k] == Stream(Held(archive, typ, date, chunks[k]))
    ensures Concat(datas) == Stream(Held(archive, typ, date, Concat(chunks)))
  {
    if chunks != [] {
      StreamsConcat(archive, typ, date, chunks[1..], datas[1..]);
      HeldAppend(archive, typ, date, chunks[0], Concat(chunks[1..]));
    }
  }

  // ---- The end of a list of reads ----------------------------------------------------------

  /** The last accesses of the log read this list, chunk by chunk, and gave these values. */
  predicate EndsWithReadOf(accesses: seq<Access>, list: seq<Element>, typ: int, date: Stamp, values: Record) {
    var n := |Split(list)|;
    && n <= |accesses|
    && ReadsChunks(accesses[|accesses| - n..], Split(list), typ, date)
    && Merged(Split(list), Replies(accesses[|accesses| - n..])) == Some(values)
  }

  /** Against a consistent meter, a record is what one read of its whole list would have given. */
  lemma RecordIsWholeRead(archive: Archive, log: seq<Access>, list: seq<Element>, typ: int, date: Stamp, values: Record)
    requires ExactWidths(archive) && forall a :: a in log ==> Consistent(archive, a)
    requires EndsWithReadOf(log, list, typ, date, values)
    ensures Parse(list, Stream(Held(archive, typ, date, list))) == Ok(values)
  {
    hide ExactWidths, Consistent, ReadsChunks, Merged, Replies, Parse, Stream, Held, Split;
    var last := log[|log| - |Split(list)|..];
    forall a | a in last
      ensures Consistent(archive, a)
    {
      assert a in log;
    }
    ConsistentReadIsWhole(archive, last, list, typ, date);
  }
}
