// From the meter's response on the wire to the caller of readResponse, through the Telnet decoder
// and the receive queue.

module EndToEnd {
  import opened Bytes
  import opened Telnet
  import opened TelnetCodec
  import opened Assembly
  import Frames
  import RQ = ReceiveQueue

  // ---- Data octets at each layer -----------------------------------------------------------

  /** The data octets among the items that a server sends. */
  function DataOf(items: seq<Item>): seq<byte> {
    if items == [] then []
    else (if items[0].Block? then items[0].data else []) + DataOf(items[1..])
  }

  function DatumOf(a: Atom): seq<byte> {
    if a.Datum? then [a.octet] else []
  }

  function Datums(atoms: seq<Atom>): seq<byte> {
    if atoms == [] then [] else DatumOf(atoms[0]) + Datums(atoms[1..])
  }

  /** The blocks that feed hands to pushData. */
  function Blocks(events: seq<Event>): seq<seq<byte>> {
    if events == [] then []
    else (if events[0].OnData? then [events[0].block] else []) + Blocks(events[1..])
  }

  lemma {:induction false} DatumsAppend(a: seq<Atom>, b: seq<Atom>)
    ensures Datums(a + b) == Datums(a) + Datums(b)
  {
    hide DatumOf;
    if a == [] {
      assert a + b == b;
    } else {
      assert (a + b)[0] == a[0] && (a + b)[1..] == a[1..] + b;
      DatumsAppend(a[1..], b);
      Associative(DatumOf(a[0]), Datums(a[1..]), Datums(b));
    }
  }

  lemma {:induction false} DatumsOfData(block: seq<byte>)
    ensures Datums(Data(block)) == block
  {
    if block != [] {
      assert Data(block)[1..] == Data(block[1..]);
      DatumsOfData(block[1..]);
    }
  }

  lemma {:induction false} BlocksCarryData(events: seq<Event>)
    ensures Concat(Blocks(events)) == Datums(Flatten(events))
  {
    if events != [] {
      BlocksCarryData(events[1..]);
      DatumsAppend(Atoms(events[0]), Flatten(events[1..]));
      match events[0] {
        case OnData(block) =>
          DatumsOfData(block);
          assert Blocks(events)[1..] == Blocks(events[1..]);
        case OnNegotiation(c, o) =>
          NoDatum(Negotiated(c, o));
          assert Blocks(events) == Blocks(events[1..]);
        case OnSubnegotiation(s) =>
          NoDatum(Subnegotiated(s));
          assert Blocks(events) == Blocks(events[1..]);
      }
    }
  }

  lemma NoDatum(a: Atom)
    requires !a.Datum?
    ensures Datums([a]) == []
  {
    assert [a][1..] == [];
  }

  lemma {:induction false} ItemsCarryData(items: seq<Item>)
    ensures Datums(MeaningAll(items)) == DataOf(items)
  {
    if items != [] {
      ItemsCarryData(items[1..]);
      DatumsAppend(Meaning(items[0]), MeaningAll(items[1..]));
      match items[0] {
        case Block(data) => DatumsOfData(data);
        case Negotiation(c, o) => NoDatum(Negotiated(c, o));
        case Subnegotiation(p) => NoDatum(Subnegotiated(p));
        case _ => assert Datums([]) == [];
      }
    }
  }

  // ---- Feeding the reads of the connection -------------------------------------------------

  /** What Decoder.Feed guarantees for one read after another. */
  ghost predicate FedBy(p: Parse, chunks: seq<seq<byte>>, events: seq<seq<Event>>)
    decreases |chunks|
  {
    && |events| == |chunks|
    && (chunks != [] ==>
          Flatten(events[0]) == Trace(p, chunks[0]) && FedBy(After(p, chunks[0]), chunks[1..], events[1..]))
  }

  lemma {:induction false} FeedingIsTracing(p: Parse, chunks: seq<seq<byte>>, events: seq<seq<Event>>)
    requires FedBy(p, chunks, events)
    ensures Flatten(Concat(events)) == TraceReads(p, chunks)
    decreases |chunks|
  {
    if chunks != [] {
      FeedingIsTracing(After(p, chunks[0]), chunks[1..], events[1..]);
      FlattenAppend(events[0], Concat(events[1..]));
    }
  }

  lemma {:induction false} FedByOneMore(p: Parse, chunks: seq<seq<byte>>, events: seq<seq<Event>>, chunk: seq<byte>,
                                        more: seq<Event>)
    requires FedBy(p, chunks, events) && Flatten(more) == Trace(AfterReads(p, chunks), chunk)
    ensures FedBy(p, chunks + [chunk], events + [more])
    decreases |chunks|
  {
    hide Trace, After, Flatten;
    if chunks == [] {
      assert chunks + [chunk] == [chunk] && events + [more] == [more];
      assert [chunk][1..] == [] && [more][1..] == [];
    } else {
      assert (chunks + [chunk])[1..] == chunks[1..] + [chunk];
      assert (events + [more])[1..] == events[1..] + [more];
      FedByOneMore(After(p, chunks[0]), chunks[1..], events[1..], chunk, more);
    }
  }

  lemma {:induction false} AfterOneMore(p: Parse, chunks: seq<seq<byte>>, chunk: seq<byte>)
    ensures AfterReads(p, chunks + [chunk]) == After(AfterReads(p, chunks), chunk)
    decreases |chunks|
  {
    hide After;
    if chunks == [] {
      assert chunks + [chunk] == [chunk] && [chunk][1..] == [];
    } else {
      assert (chunks + [chunk])[1..] == chunks[1..] + [chunk];
      AfterOneMore(After(p, chunks[0]), chunks[1..], chunk);
    }
  }

  /** The reader goroutine: every TCP read goes through the one decoder. */
  method Reader(decoder: Decoder, chunks: seq<seq<byte>>) returns (events: seq<seq<Event>>)
    modifies decoder
    ensures FedBy(old(decoder.Now()), chunks, events)
    ensures decoder.Now() == AfterReads(old(decoder.Now()), chunks)
  {
    hide FedBy, AfterReads, After, Trace;
    events := [];
    NothingFed(decoder.Now());
    for k := 0 to |chunks|
      invariant FedBy(old(decoder.Now()), chunks[..k], events)
      invariant decoder.Now() == AfterReads(old(decoder.Now()), chunks[..k])
    {
      var fired := decoder.Feed(chunks[k]);
      FedByOneMore(old(decoder.Now()), chunks[..k], events, chunks[k], fired);
      AfterOneMore(old(decoder.Now()), chunks[..k], chunks[k]);
      assert chunks[..k + 1] == chunks[..k] + [chunks[k]];
      events := events + [fired];
    }
    assert chunks[..|chunks|] == chunks;
  }

  lemma NothingFed(p: Parse)
    ensures FedBy(p, [], []) && AfterReads(p, []) == p
  {}

  /** The pushed blocks spell out the data octets of the printed items, wherever they were cut. */
  lemma PushedIsSent(p: Parse, chunks: seq<seq<byte>>, events: seq<seq<Event>>, items: seq<Item>)
    requires p.state == InData && FedBy(p, chunks, events)
    requires Concat(chunks) == PrintAll(items) && forall i :: i in items ==> Sendable(i)
    ensures Concat(Blocks(Concat(events))) == DataOf(items)
  {
    FeedingIsTracing(p, chunks, events);
    FragmentsDecode(p, chunks, items);
    BlocksCarryData(Concat(events));
    ItemsCarryData(items);
  }

  // ---- Reading the queue -------------------------------------------------------------------

  function Pushed(a: RQ.Action<byte>): seq<seq<byte>> {
    if a.Push? then [a.block] else []
  }

  /** The blocks pushed in a run. */
  function Pushes(run: seq<RQ.Action<byte>>): seq<seq<byte>> {
    if run == [] then [] else Pushed(run[0]) + Pushes(run[1..])
  }

  /** readResponse reads into a buffer of one frame; the reader only pushes. */
  predicate Undisturbed(a: RQ.Action<byte>) {
    a.Push? || a == RQ.Wait || a == RQ.Take(Frames.MAX_FRAME)
  }

  /** What a call of Port.Read returns in this step, if there is one. */
  function Answered(c: RQ.Channel<byte>, a: RQ.Action<byte>): seq<Reading<byte>>
    requires RQ.Enabled(c, a)
  {
    match a
    case Take(n) => [Octets(c.queue[0][..RQ.Fitting(c.queue[0], n)])]
    case Wait => [Nothing]
    case _ => []
  }

  /** What the calls of Port.Read in a run return. */
  function Reads(c: RQ.Channel<byte>, run: seq<RQ.Action<byte>>): seq<Reading<byte>>
    requires RQ.Run(c, run).Some?
    decreases |run|
  {
    if run == [] then [] else Answered(c, run[0]) + Reads(RQ.Next(c, run[0]), run[1..])
  }

  lemma StepCounts(c: RQ.Channel<byte>, a: RQ.Action<byte>)
    requires RQ.Enabled(c, a)
    ensures RQ.Next(c, a).returned == c.returned + Received(Answered(c, a))
    ensures RQ.Next(c, a).pushed == c.pushed + Concat(Pushed(a))
    ensures forall k :: 0 <= k < |Answered(c, a)| ==> !Answered(c, a)[k].Broken?
  {}

  lemma {:induction false} ReceivedAppend(a: seq<Reading<byte>>, b: seq<Reading<byte>>)
    ensures Received(a + b) == Received(a) + Received(b)
  {
    if a == [] {
      assert a + b == b;
    } else {
      assert (a + b)[1..] == a[1..] + b;
      ReceivedAppend(a[1..], b);
    }
  }

  lemma Associative<T>(a: seq<T>, b: seq<T>, c: seq<T>)
    ensures (a + b) + c == a + (b + c)
  {}

  /** A run hands out exactly its reads and takes in exactly its pushes. */
  lemma {:induction false} RunCounts(c: RQ.Channel<byte>, run: seq<RQ.Action<byte>>)
    requires RQ.Run(c, run).Some?
    ensures RQ.Run(c, run).value.returned == c.returned + Received(Reads(c, run))
    ensures RQ.Run(c, run).value.pushed == c.pushed + Concat(Pushes(run))
    ensures forall k :: 0 <= k < |Reads(c, run)| ==> !Reads(c, run)[k].Broken?
    decreases |run|
  {
    if run != [] {
      hide RQ.Next, RQ.Enabled, Answered, Pushed, Received, Concat;
      var a, b, x, y := Answered(c, run[0]), Reads(RQ.Next(c, run[0]), run[1..]), Pushed(run[0]), Pushes(run[1..]);
      StepCounts(c, run[0]);
      RunCounts(RQ.Next(c, run[0]), run[1..]);
      ReceivedAppend(a, b);
      ConcatAppend(x, y);
      Associative(c.returned, Received(a), Received(b));
      Associative(c.pushed, Concat(x), Concat(y));
      assert Reads(c, run) == a + b && Pushes(run) == x + y;
      hide *;
    }
  }

  predicate Short(blocks: seq<seq<byte>>) {
    forall b :: b in blocks ==> |b| <= Frames.MAX_FRAME
  }

  lemma {:induction false} PartsAreShort(blocks: seq<seq<byte>>)
    requires |Concat(blocks)| <= Frames.MAX_FRAME
    ensures Short(blocks)
  {
    if blocks != [] {
      PartsAreShort(blocks[1..]);
    }
  }

  lemma {:induction false} RunIsSmooth(c: RQ.Channel<byte>, run: seq<RQ.Action<byte>>)
    requires RQ.Run(c, run).Some? && forall a :: a in run ==> Undisturbed(a)
    requires Short(c.queue) && Short(Pushes(run))
    ensures RQ.AllSmooth(c, run)
    decreases |run|
  {
    if run != [] {
      assert Short(Pushes(run[1..])) by {
        forall b | b in Pushes(run[1..])
          ensures |b| <= Frames.MAX_FRAME
        {
          assert b in Pushes(run);
        }
      }
      if run[0].Push? {
        assert run[0].block in Pushes(run);
      }
      assert Undisturbed(run[0]);
      RunIsSmooth(RQ.Next(c, run[0]), run[1..]);
    }
  }

  /** A smooth run that starts and ends with an empty queue hands out all that it takes in. */
  lemma AllReturned(d: RQ.Channel<byte>, run: seq<RQ.Action<byte>>)
    requires RQ.InOrder(d) && d.queue == [] && d.held == [] && RQ.AllSmooth(d, run)
    requires RQ.Run(d, run).Some? && RQ.Run(d, run).value.queue == []
    ensures Received(Reads(d, run)) == Concat(Pushes(run))
    ensures forall k :: 0 <= k < |Reads(d, run)| ==> !Reads(d, run)[k].Broken?
  {
    hide RQ.Run, Pushes, Reads, Received, RQ.AllSmooth;
    RQ.SmoothRunInOrder(d, run);
    RunCounts(d, run);
    var end := RQ.Run(d, run).value;
    var got, sent := Received(Reads(d, run)), Concat(Pushes(run));
    assert Concat(end.queue) == [] && Concat(d.queue) == [];
    assert d.returned + got == end.returned + end.held + [] == end.pushed == d.returned + sent;
    assert got == (d.returned + got)[|d.returned|..] && sent == (d.returned + sent)[|d.returned|..];
  }

  /** What was pushed, returned and lost before does not change what is read. */
  lemma {:induction false} ReadsDepend(c: RQ.Channel<byte>, d: RQ.Channel<byte>, run: seq<RQ.Action<byte>>)
    requires c.queue == d.queue && c.held == d.held && c.done == d.done && RQ.Run(c, run).Some?
    ensures RQ.Run(d, run).Some? && Reads(d, run) == Reads(c, run)
    ensures RQ.Run(d, run).value.queue == RQ.Run(c, run).value.queue
    decreases |run|
  {
    if run != [] {
      ReadsDepend(RQ.Next(c, run[0]), RQ.Next(d, run[0]), run[1..]);
    }
  }

  /**
   * At any point of a connection where the decoder stands between items and the queue is empty, a
   * well-formed response is escaped, mixed with any negotiations and subnegotiations, cut into any
   * TCP reads, decoded, queued, and read back in any interleaving of pushes, reads and timeouts
   * that empties the queue: readResponse returns exactly that response.
   */
  lemma ResponseArrives(fn: byte, r: seq<byte>, items: seq<Item>, p: Parse, c: RQ.Channel<byte>,
                        chunks: seq<seq<byte>>, events: seq<seq<Event>>, run: seq<RQ.Action<byte>>,
                        later: seq<Reading<byte>>)
    requires Frames.WellFormed(fn, r)
    requires DataOf(items) == r && forall i :: i in items ==> Sendable(i)
    requires p.state == InData && c.queue == [] && c.held == []
    requires Concat(chunks) == PrintAll(items) && FedBy(p, chunks, events)
    requires Pushes(run) == Blocks(Concat(events)) && forall a :: a in run ==> Undisturbed(a)
    requires RQ.Run(c, run).Some? && RQ.Run(c, run).value.queue == []
    ensures Frames.Assemble(fn, [], Reads(c, run) + later) == Ok(r)
  {
    var d := RQ.Opened<byte>().(done := c.done);
    assert RQ.InOrder(d) && d.queue == c.queue && d.held == c.held && Short(d.queue);
    hide *;
    ReadsDepend(c, d, run);
    PushedIsSent(p, chunks, events, items);
    FitsFrame(fn, r);
    PartsAreShort(Pushes(run));
    RunIsSmooth(d, run);
    AllReturned(d, run);
    Frames.ResponseReassembled(fn, Reads(d, run), later, r);
  }

  lemma FitsFrame(fn: byte, r: seq<byte>)
    requires Frames.WellFormed(fn, r)
    ensures |r| <= Frames.MAX_FRAME
  {
    Frames.NeverTooLong(fn, r);
  }
}
