// The printers of the RFC 2217 stream, and the decoder as their inverse.

module TelnetCodec {
  import opened Bytes
  import opened Telnet

  /** One byte as it is printed: IAC is doubled. */
  function Unit(x: byte): seq<byte> {
    if x == IAC then [IAC, IAC] else [x]
  }

  /** Doubling every IAC, as Port.Write and Port.command do. */
  function Escape(b: seq<byte>): (r: seq<byte>)
    decreases |b|
  {
    if b == [] then []
    else Escape(b[..|b| - 1]) + Unit(b[|b| - 1])
  }

  lemma EscapeNothing()
    ensures Escape([]) == []
  {}

  lemma EscapeOne(b: seq<byte>, x: byte)
    ensures Escape(b + [x]) == Escape(b) + Unit(x)
  {
    assert (b + [x])[..|b|] == b;
  }

  lemma {:induction false} EscapeAppend(a: seq<byte>, b: seq<byte>)
    ensures Escape(a + b) == Escape(a) + Escape(b)
    decreases |b|
  {
    if b == [] {
      assert a + b == a;
    } else {
      assert (a + b)[..|a + b| - 1] == a + b[..|b| - 1];
      EscapeAppend(a, b[..|b| - 1]);
    }
  }

  /** The bytes that Port.Write puts on the connection. */
  method EncodeData(b: seq<byte>) returns (encoded: seq<byte>)
    ensures encoded == Escape(b)
  {
    encoded := [];
    for k := 0 to |b|
      invariant encoded == Escape(b[..k])
    {
      encoded := encoded + [b[k]];
      if b[k] == IAC {
        encoded := encoded + [IAC];
      }
      EscapeOne(b[..k], b[k]);
      assert b[..k + 1] == b[..k] + [b[k]];
    }
    assert b[..|b|] == b;
  }

  /** The message that Port.command sends. */
  method CommandMessage(cmd: byte, value: seq<byte>) returns (msg: seq<byte>)
    ensures msg == [IAC, SB, COMPORT, cmd] + Escape(value) + [IAC, SE]
  {
    hide Escape;
    EscapeNothing();
    msg := [IAC, SB, COMPORT, cmd];
    for k := 0 to |value|
      invariant msg == [IAC, SB, COMPORT, cmd] + Escape(value[..k])
    {
      msg := msg + [value[k]];
      if value[k] == IAC {
        msg := msg + [IAC];
      }
      EscapeOne(value[..k], value[k]);
      assert value[..k + 1] == value[..k] + [value[k]];
    }
    assert value[..|value|] == value;
    msg := msg + [IAC, SE];
  }

  // ---- A stream of items -------------------------------------------------------------------

  datatype Item =
    | Block(data: seq<byte>)
    | Negotiation(command: byte, option: byte)
    | Subnegotiation(payload: seq<byte>)
    | Bare(command: byte)                        // a command without option, such as NOP
    | Spoiled(payload: seq<byte>, ending: byte)  // a subnegotiation that another command ends

  predicate Negotiates(command: byte) {
    command in {WILL, WONT, DO, DONT}
  }

  predicate Sendable(i: Item) {
    match i
    case Negotiation(c, _) => Negotiates(c)
    case Bare(c) => !Negotiates(c) && c != IAC && c != SB
    case Spoiled(_, x) => x != IAC && x != SE
    case _ => true
  }

  function Print(i: Item): seq<byte> {
    match i
    case Block(data) => Escape(data)
    case Negotiation(c, o) => [IAC, c, o]
    case Subnegotiation(p) => [IAC, SB] + Escape(p) + [IAC, SE]
    case Bare(c) => [IAC, c]
    case Spoiled(p, x) => [IAC, SB] + Escape(p) + [IAC, x]
  }

  function Meaning(i: Item): seq<Atom> {
    match i
    case Block(data) => Data(data)
    case Negotiation(c, o) => [Negotiated(c, o)]
    case Subnegotiation(p) => [Subnegotiated(p)]
    case _ => []
  }

  function PrintAll(items: seq<Item>): seq<byte> {
    if items == [] then [] else Print(items[0]) + PrintAll(items[1..])
  }

  function MeaningAll(items: seq<Item>): seq<Atom> {
    if items == [] then [] else Meaning(items[0]) + MeaningAll(items[1..])
  }

  lemma EscapeHeader(cmd: byte)
    requires cmd != IAC
    ensures Escape([COMPORT, cmd]) == [COMPORT, cmd]
  {
    assert Escape([]) == [];
    assert [] + [COMPORT] == [COMPORT] && [COMPORT] + [cmd] == [COMPORT, cmd];
    assert Unit(COMPORT) == [COMPORT] && Unit(cmd) == [cmd];
    hide Escape, Unit;
    EscapeOne([], COMPORT);
    EscapeOne([COMPORT], cmd);
  }

  /** A COM-port command is the subnegotiation with its option and command byte in front. */
  lemma CommandIsSubnegotiation(cmd: byte, value: seq<byte>)
    requires cmd != IAC
    ensures [IAC, SB, COMPORT, cmd] + Escape(value) + [IAC, SE] == Print(Subnegotiation([COMPORT, cmd] + value))
  {
    hide Escape;
    EscapeHeader(cmd);
    EscapeAppend([COMPORT, cmd], value);
    HeaderSplits(cmd, Escape(value));
  }

  lemma HeaderSplits(cmd: byte, e: seq<byte>)
    ensures [IAC, SB, COMPORT, cmd] + e == [IAC, SB] + ([COMPORT, cmd] + e)
  {}

  lemma ReadTwo(p: Parse, a: byte, b: byte)
    ensures After(p, [a, b]) == Move(Move(p, a), b)
    ensures Trace(p, [a, b]) == Emit(p, a) + Emit(Move(p, a), b)
  {
    hide Move, Emit;
    ReadOne(p, a);
    assert [a, b][..1] == [a];
  }

  lemma ReadOne(p: Parse, a: byte)
    ensures After(p, [a]) == Move(p, a)
    ensures Trace(p, [a]) == Emit(p, a)
  {
    hide Move, Emit;
    assert [a][..0] == [];
    assert After(p, []) == p && Trace(p, []) == [];
  }

  lemma UnitOfData(sub: seq<byte>, x: byte)
    ensures After(Parse(InData, sub), Unit(x)) == Parse(InData, sub)
    ensures Trace(Parse(InData, sub), Unit(x)) == [Datum(x)]
  {
    if x == IAC {
      ReadTwo(Parse(InData, sub), IAC, IAC);
    } else {
      ReadOne(Parse(InData, sub), x);
    }
  }

  lemma UnitOfPayload(sub: seq<byte>, x: byte)
    ensures After(Parse(InSub, sub), Unit(x)) == Parse(InSub, sub + [x])
    ensures Trace(Parse(InSub, sub), Unit(x)) == []
  {
    if x == IAC {
      ReadTwo(Parse(InSub, sub), IAC, IAC);
    } else {
      ReadOne(Parse(InSub, sub), x);
    }
  }

  lemma DataGrows(a: seq<byte>, x: byte)
    ensures Data(a + [x]) == Data(a) + [Datum(x)]
  {}

  lemma {:induction false} EscapedData(sub: seq<byte>, b: seq<byte>)
    ensures After(Parse(InData, sub), Escape(b)) == Parse(InData, sub)
    ensures Trace(Parse(InData, sub), Escape(b)) == Data(b)
    decreases |b|
  {
    hide After, Trace, Unit, Data;
    var p := Parse(InData, sub);
    if b == [] {
      NothingRead(p);
      FlattenNone();
    } else {
      var a, x := b[..|b| - 1], b[|b| - 1];
      EscapedData(sub, a);
      DecodeAppend(p, Escape(a), Unit(x));
      UnitOfData(sub, x);
      DataGrows(a, x);
      assert a + [x] == b;
    }
  }

  lemma {:induction false} EscapedPayload(sub: seq<byte>, b: seq<byte>)
    ensures After(Parse(InSub, sub), Escape(b)) == Parse(InSub, sub + b)
    ensures Trace(Parse(InSub, sub), Escape(b)) == []
    decreases |b|
  {
    hide After, Trace, Unit;
    var p := Parse(InSub, sub);
    if b == [] {
      assert sub + b == sub;
      NothingRead(p);
    } else {
      var a, x := b[..|b| - 1], b[|b| - 1];
      EscapedPayload(sub, a);
      assert sub + b == (sub + a) + [x];
      DecodeAppend(p, Escape(a), Unit(x));
      UnitOfPayload(sub + a, x);
    }
  }

  lemma OpenSub(sub: seq<byte>)
    ensures After(Parse(InData, sub), [IAC, SB]) == Parse(InSub, [])
    ensures Trace(Parse(InData, sub), [IAC, SB]) == []
  {
    ReadTwo(Parse(InData, sub), IAC, SB);
  }

  lemma CloseSub(payload: seq<byte>, x: byte)
    requires x != IAC
    ensures After(Parse(InSub, payload), [IAC, x]) == Parse(InData, payload)
    ensures Trace(Parse(InSub, payload), [IAC, x]) == if x == SE then [Subnegotiated(payload)] else []
  {
    ReadTwo(Parse(InSub, payload), IAC, x);
  }

  /** A subnegotiation is reported when it ends in IAC SE, and dropped whole when it ends otherwise. */
  lemma PrintedSub(sub: seq<byte>, payload: seq<byte>, x: byte)
    requires x != IAC
    ensures After(Parse(InData, sub), [IAC, SB] + Escape(payload) + [IAC, x]) == Parse(InData, payload)
    ensures Trace(Parse(InData, sub), [IAC, SB] + Escape(payload) + [IAC, x]) ==
            if x == SE then [Subnegotiated(payload)] else []
  {
    hide After, Trace, Escape;
    var p := Parse(InData, sub);
    DecodeAppend(p, [IAC, SB], Escape(payload));
    OpenSub(sub);
    EscapedPayload([], payload);
    assert [] + payload == payload;
    DecodeAppend(p, [IAC, SB] + Escape(payload), [IAC, x]);
    CloseSub(payload, x);
  }

  lemma PrintedNegotiation(sub: seq<byte>, c: byte, o: byte)
    requires c in {WILL, WONT, DO, DONT}
    ensures After(Parse(InData, sub), [IAC, c, o]) == Parse(InData, sub)
    ensures Trace(Parse(InData, sub), [IAC, c, o]) == [Negotiated(c, o)]
  {
    var p := Parse(InData, sub);
    assert [IAC, c, o] == [IAC, c] + [o];
    ReadTwo(p, IAC, c);
    ReadOne(After(p, [IAC, c]), o);
    assert After(p, [IAC, c]) == Parse(AfterCommand(c), sub);
    hide After, Trace;
    DecodeAppend(p, [IAC, c], [o]);
  }

  /** A command without option says nothing, and what follows is data again. */
  lemma PrintedBare(sub: seq<byte>, c: byte)
    requires !Negotiates(c) && c != IAC && c != SB
    ensures After(Parse(InData, sub), [IAC, c]) == Parse(InData, sub)
    ensures Trace(Parse(InData, sub), [IAC, c]) == []
  {
    ReadTwo(Parse(InData, sub), IAC, c);
  }

  lemma PrintedItem(sub: seq<byte>, i: Item)
    requires Sendable(i)
    ensures After(Parse(InData, sub), Print(i)).state == InData
    ensures Trace(Parse(InData, sub), Print(i)) == Meaning(i)
  {
    hide After, Trace, Escape;
    match i {
      case Block(data) => EscapedData(sub, data);
      case Negotiation(c, o) => PrintedNegotiation(sub, c, o);
      case Subnegotiation(payload) => PrintedSub(sub, payload, SE);
      case Bare(c) => PrintedBare(sub, c);
      case Spoiled(payload, x) => PrintedSub(sub, payload, x);
    }
  }

  /** Decoding inverts printing: the same data octets, negotiations and subnegotiations, in order. */
  lemma {:induction false} DecodeInvertsPrint(p: Parse, items: seq<Item>)
    requires p.state == InData && forall i :: i in items ==> Sendable(i)
    ensures After(p, PrintAll(items)).state == InData
    ensures Trace(p, PrintAll(items)) == MeaningAll(items)
    decreases |items|
  {
    hide Print, Meaning;
    if items != [] {
      PrintedItem(p.sub, items[0]);
      DecodeAppend(p, Print(items[0]), PrintAll(items[1..]));
      DecodeInvertsPrint(After(p, Print(items[0])), items[1..]);
    }
  }

  /** The messages that ask for a purge of the receive buffer and for the type of a port, octet for octet. */
  lemma Messages(option: byte)
    ensures Print(Subnegotiation([44, 12, 1])) == [255, 250, 44, 12, 1, 255, 240]
    ensures Print(Block([255, 16, 240])) == [255, 255, 16, 240]
    ensures Print(Negotiation(WILL, option)) == [255, 251, option]
    ensures Print(Negotiation(WONT, option)) == [255, 252, option]
    ensures Print(Negotiation(DO, option)) == [255, 253, option]
    ensures Print(Negotiation(DONT, option)) == [255, 254, option]
  {
    EscapeThree(44, 12, 1);
    EscapeThree(255, 16, 240);
    hide Escape;
  }

  lemma EscapeThree(a: byte, b: byte, c: byte)
    ensures Escape([a, b, c]) == Unit(a) + Unit(b) + Unit(c)
  {
    EscapeNothing();
    hide Escape, Unit;
    EscapeOne([], a);
    EscapeOne([a], b);
    EscapeOne([a, b], c);
    assert [] + [a] == [a] && [a] + [b] == [a, b] && [a, b] + [c] == [a, b, c];
  }

  // ---- Every stream is one of items --------------------------------------------------------

  /** An item that has begun and not ended. */
  datatype Begun = Complete | Command | Option(command: byte) | Payload(payload: seq<byte>) | Ending(payload: seq<byte>)

  function PrintBegun(g: Begun): seq<byte> {
    match g
    case Complete => []
    case Command => [IAC]
    case Option(c) => [IAC, c]
    case Payload(p) => [IAC, SB] + Escape(p)
    case Ending(p) => [IAC, SB] + Escape(p) + [IAC]
  }

  predicate CanBegin(g: Begun) {
    g.Option? ==> Negotiates(g.command)
  }

  /** One more octet carries on what has begun, or ends it as an item. */
  function WithOctet(g: Begun, x: byte): (Option<Item>, Begun) {
    match g
    case Complete => if x == IAC then (None, Command) else (Some(Block([x])), Complete)
    case Command =>
      if x == IAC then (Some(Block([IAC])), Complete)
      else if Negotiates(x) then (None, Option(x))
      else if x == SB then (None, Payload([]))
      else (Some(Bare(x)), Complete)
    case Option(c) => (Some(Negotiation(c, x)), Complete)
    case Payload(p) => if x == IAC then (None, Ending(p)) else (None, Payload(p + [x]))
    case Ending(p) =>
      if x == IAC then (None, Payload(p + [IAC]))
      else if x == SE then (Some(Subnegotiation(p)), Complete)
      else (Some(Spoiled(p, x)), Complete)
  }

  lemma {:induction false} PrintAppend(a: seq<Item>, i: Item)
    ensures PrintAll(a + [i]) == PrintAll(a) + Print(i)
  {
    hide Print;
    if a == [] {
      assert [] + [i] == [i] && [i][1..] == [] && Print(i) + [] == Print(i);
    } else {
      assert (a + [i])[1..] == a[1..] + [i];
      PrintAppend(a[1..], i);
    }
  }

  lemma OctetEnds(g: Begun, x: byte)
    requires CanBegin(g) && WithOctet(g, x).0.Some?
    ensures Sendable(WithOctet(g, x).0.value) && WithOctet(g, x).1 == Complete
    ensures PrintBegun(g) + [x] == Print(WithOctet(g, x).0.value)
  {
    EscapeNothing();
    EscapeOne([], x);
    assert [] + [x] == [x];
    hide Escape;
  }

  lemma OctetGoesOn(g: Begun, x: byte)
    requires CanBegin(g) && WithOctet(g, x).0.None?
    ensures CanBegin(WithOctet(g, x).1) && PrintBegun(g) + [x] == PrintBegun(WithOctet(g, x).1)
  {
    EscapeNothing();
    hide Escape;
    match g {
      case Payload(p) => EscapeIn(p, x);
      case Ending(p) => EscapeIn(p, IAC);
      case _ =>
    }
  }

  lemma EscapeIn(p: seq<byte>, x: byte)
    ensures x != IAC ==> [IAC, SB] + Escape(p + [x]) == [IAC, SB] + Escape(p) + [x]
    ensures x == IAC ==> [IAC, SB] + Escape(p + [x]) == ([IAC, SB] + Escape(p) + [IAC]) + [IAC]
  {
    EscapeOne(p, x);
    hide Escape;
  }

  /** Every stream of octets is the print of some items and the beginning of at most one more. */
  lemma {:induction false} EveryStream(b: seq<byte>) returns (items: seq<Item>, g: Begun)
    ensures b == PrintAll(items) + PrintBegun(g)
    ensures CanBegin(g) && forall i :: i in items ==> Sendable(i)
    decreases |b|
  {
    hide *;
    if b == [] {
      items, g := [], Complete;
      CompletePrints(b, []);
    } else {
      var init, x := b[..|b| - 1], b[|b| - 1];
      var before, h := EveryStream(init);
      Joined(b, PrintAll(before), PrintBegun(h), x);
      var item, next := WithOctet(h, x).0, WithOctet(h, x).1;
      if item.Some? {
        OctetEnds(h, x);
        PrintAppend(before, item.value);
        items, g := before + [item.value], Complete;
        CompletePrints(b, items);
      } else {
        OctetGoesOn(h, x);
        items, g := before, next;
      }
    }
  }

  lemma Joined(b: seq<byte>, p: seq<byte>, q: seq<byte>, x: byte)
    requires b != [] && b[..|b| - 1] == p + q && x == b[|b| - 1]
    ensures b == p + (q + [x])
  {
    assert b == (p + q) + [x];
  }

  lemma CompletePrints(b: seq<byte>, items: seq<Item>)
    ensures CanBegin(Complete) && PrintBegun(Complete) == [] && PrintAll(items) + [] == PrintAll(items)
    ensures PrintAll([]) == []
  {}

  /** What has begun says nothing yet. */
  lemma BegunSilent(sub: seq<byte>, g: Begun)
    requires CanBegin(g)
    ensures Trace(Parse(InData, sub), PrintBegun(g)) == []
  {
    var p := Parse(InData, sub);
    match g {
      case Complete => NothingRead(p);
      case Command => ReadOne(p, IAC);
      case Option(c) => ReadTwo(p, IAC, c);
      case Payload(payload) => PayloadSilent(sub, payload);
      case Ending(payload) =>
        PayloadSilent(sub, payload);
        ReadOne(Parse(InSub, payload), IAC);
        hide After, Trace, Escape;
        DecodeAppend(p, [IAC, SB] + Escape(payload), [IAC]);
    }
  }

  lemma PayloadSilent(sub: seq<byte>, payload: seq<byte>)
    ensures Trace(Parse(InData, sub), [IAC, SB] + Escape(payload)) == []
    ensures After(Parse(InData, sub), [IAC, SB] + Escape(payload)) == Parse(InSub, payload)
  {
    hide After, Trace, Escape;
    DecodeAppend(Parse(InData, sub), [IAC, SB], Escape(payload));
    OpenSub(sub);
    EscapedPayload([], payload);
    assert [] + payload == payload;
  }

  /** So the meaning of every stream is that of the items it is printed from. */
  lemma EveryStreamMeans(p: Parse, b: seq<byte>) returns (items: seq<Item>, g: Begun)
    requires p.state == InData
    ensures b == PrintAll(items) + PrintBegun(g)
    ensures CanBegin(g) && forall i :: i in items ==> Sendable(i)
    ensures Trace(p, b) == MeaningAll(items)
  {
    hide After, Trace, PrintAll, MeaningAll, PrintBegun, Sendable;
    items, g := EveryStream(b);
    DecodeInvertsPrint(p, items);
    DecodeAppend(p, PrintAll(items), PrintBegun(g));
    BegunSilent(After(p, PrintAll(items)).sub, g);
    assert MeaningAll(items) + [] == MeaningAll(items);
  }

  // ---- Fragments ---------------------------------------------------------------------------

  /** The decoder fed one TCP read after another. */
  function AfterReads(p: Parse, chunks: seq<seq<byte>>): Parse
    decreases |chunks|
  {
    if chunks == [] then p else AfterReads(After(p, chunks[0]), chunks[1..])
  }

  function TraceReads(p: Parse, chunks: seq<seq<byte>>): seq<Atom>
    decreases |chunks|
  {
    if chunks == [] then [] else Trace(p, chunks[0]) + TraceReads(After(p, chunks[0]), chunks[1..])
  }

  lemma {:induction false} ReadsAreOneStream(p: Parse, chunks: seq<seq<byte>>)
    ensures AfterReads(p, chunks) == After(p, Concat(chunks))
    ensures TraceReads(p, chunks) == Trace(p, Concat(chunks))
    decreases |chunks|
  {
    hide After, Trace;
    if chunks == [] {
      NothingRead(p);
    } else {
      ReadsAreOneStream(After(p, chunks[0]), chunks[1..]);
      DecodeAppend(p, chunks[0], Concat(chunks[1..]));
    }
  }

  lemma NothingRead(p: Parse)
    ensures After(p, []) == p && Trace(p, []) == []
  {}

  /** The connection may cut the printed items anywhere: the trace stays the same. */
  lemma FragmentsDecode(p: Parse, chunks: seq<seq<byte>>, items: seq<Item>)
    requires p.state == InData
    requires Concat(chunks) == PrintAll(items) && forall i :: i in items ==> Sendable(i)
    ensures AfterReads(p, chunks).state == InData
    ensures TraceReads(p, chunks) == MeaningAll(items)
  {
    ReadsAreOneStream(p, chunks);
    DecodeInvertsPrint(p, items);
  }
}
