// The Telnet byte stream that carries serial data under RFC 2217: the eight-state decoder of
// internal/rfc2217/telnet.go against the encoders of Port.Write and Port.command.
//
// Command bytes and the doubling of IAC follow RFC 854 ("TELNET COMMAND STRUCTURE") and RFC 855
// (subnegotiation); the COM port commands are those of section 3 of RFC 2217.

module Telnet {
  import opened Bytes

  const IAC: byte := 0xff
  const SE: byte := 0xf0
  const SB: byte := 0xfa
  const WILL: byte := 0xfb
  const WONT: byte := 0xfc
  const DO: byte := 0xfd
  const DONT: byte := 0xfe
  const COMPORT: byte := 44

  datatype State = InData | AfterIac | AfterWill | AfterWont | AfterDo | AfterDont | InSub | InSubIac

  /** A callback of feed. */
  datatype Event =
    | OnData(block: seq<byte>)
    | OnNegotiation(command: byte, option: byte)
    | OnSubnegotiation(payload: seq<byte>)

  // ---- The stream as a function ------------------------------------------------------------

  /** What the stream means, byte by byte: data is not yet grouped into blocks. */
  datatype Atom = Datum(octet: byte) | Negotiated(command: byte, option: byte) | Subnegotiated(payload: seq<byte>)

  datatype Parse = Parse(state: State, sub: seq<byte>)

  function StateToCommand(s: State): byte {
    match s
    case AfterWill => WILL
    case AfterWont => WONT
    case AfterDo => DO
    case AfterDont => DONT
    case _ => 0
  }

  function AfterCommand(b: byte): State {
    if b == WILL then AfterWill
    else if b == WONT then AfterWont
    else if b == DO then AfterDo
    else if b == DONT then AfterDont
    else if b == SB then InSub
    else InData
  }

  /** The parser after one more byte. */
  function Move(p: Parse, b: byte): Parse {
    match p.state
    case InData => if b == IAC then p.(state := AfterIac) else p
    case AfterIac =>
      if b == IAC then p.(state := InData)
      else Parse(AfterCommand(b), if b == SB then [] else p.sub)
    case InSub => if b == IAC then p.(state := InSubIac) else p.(sub := p.sub + [b])
    case InSubIac => if b == IAC then Parse(InSub, p.sub + [IAC]) else p.(state := InData)
    case _ => p.(state := InData)
  }

  /** What one more byte completes. */
  function Emit(p: Parse, b: byte): seq<Atom> {
    match p.state
    case InData => if b == IAC then [] else [Datum(b)]
    case AfterIac => if b == IAC then [Datum(IAC)] else []
    case InSub => []
    case InSubIac => if b == SE then [Subnegotiated(p.sub)] else []
    case _ => [Negotiated(StateToCommand(p.state), b)]
  }

  function After(p: Parse, input: seq<byte>): Parse
    decreases |input|
  {
    if input == [] then p else Move(After(p, input[..|input| - 1]), input[|input| - 1])
  }

  function Trace(p: Parse, input: seq<byte>): seq<Atom>
    decreases |input|
  {
    if input == [] then []
    else Trace(p, input[..|input| - 1]) + Emit(After(p, input[..|input| - 1]), input[|input| - 1])
  }

  /** Decoding does not see where the stream was cut. */
  lemma {:induction false} DecodeAppend(p: Parse, a: seq<byte>, b: seq<byte>)
    ensures After(p, a + b) == After(After(p, a), b)
    ensures Trace(p, a + b) == Trace(p, a) + Trace(After(p, a), b)
    decreases |b|
  {
    hide Move, Emit;
    if b == [] {
      assert a + b == a;
    } else {
      assert (a + b)[..|a + b| - 1] == a + b[..|b| - 1];
      DecodeAppend(p, a, b[..|b| - 1]);
    }
  }

  function Atoms(e: Event): seq<Atom> {
    match e
    case OnData(block) => Data(block)
    case OnNegotiation(c, o) => [Negotiated(c, o)]
    case OnSubnegotiation(s) => [Subnegotiated(s)]
  }

  function Data(block: seq<byte>): (r: seq<Atom>)
    ensures |r| == |block| && forall i :: 0 <= i < |block| ==> r[i] == Datum(block[i])
  {
    seq(|block|, i requires 0 <= i < |block| => Datum(block[i]))
  }

  function Flatten(events: seq<Event>): seq<Atom> {
    if events == [] then [] else Atoms(events[0]) + Flatten(events[1..])
  }

  lemma {:induction false} FlattenAppend(a: seq<Event>, b: seq<Event>)
    ensures Flatten(a + b) == Flatten(a) + Flatten(b)
  {
    if a == [] {
      assert a + b == b;
    } else {
      assert (a + b)[1..] == a[1..] + b;
      FlattenAppend(a[1..], b);
    }
  }

  lemma FlattenData(block: seq<byte>)
    ensures Flatten([OnData(block)]) == Data(block)
  {
    assert [OnData(block)][1..] == [];
  }

  lemma FlattenNone()
    ensures Flatten([]) == [] && Data([]) == []
  {}

  lemma Regroup<T>(a: seq<T>, b: seq<T>, c: seq<T>, d: seq<T>, e: seq<T>)
    requires c + d == b + e
    ensures (a + c) + d == (a + b) + e
  {
    assert (a + c) + d == a + (c + d);
    assert (a + b) + e == a + (b + e);
  }

  // ---- The decoder -------------------------------------------------------------------------

  class Decoder {
    var state: State
    var sub: seq<byte>

    constructor ()
      ensures state == InData && sub == []
    {
      state, sub := InData, [];
    }

    function Now(): Parse
      reads this
    {
      Parse(state, sub)
    }

    /** One turn of the loop of Feed: data is the block collected so far. */
    method Accept(b: byte, data: seq<byte>) returns (fired: seq<Event>, held: seq<byte>)
      requires state != InData ==> data == []
      modifies this
      ensures state != InData ==> held == []
      ensures Now() == Move(old(Now()), b)
      ensures Flatten(fired) + Data(held) == Data(data) + Emit(old(Now()), b)
      ensures forall e :: e in fired && e.OnData? ==> e.block != []
    {
      fired, held := [], data;
      match state {
        case InData =>
          if b == IAC {
            if data != [] {
              fired, held := [OnData(data)], [];
            }
            state := AfterIac;
          } else {
            held := data + [b];
          }
        case AfterIac =>
          if b == IAC {
            held := [IAC];
            state := InData;
          } else {
            if b == SB {
              sub := [];
            }
            state := AfterCommand(b);
          }
        case InSub =>
          if b == IAC {
            state := InSubIac;
          } else {
            sub := sub + [b];
          }
        case InSubIac =>
          if b == IAC {
            sub := sub + [IAC];
            state := InSub;
          } else {
            if b == SE {
              fired := [OnSubnegotiation(sub)];
            }
            state := InData;
          }
        case _ =>
          fired := [OnNegotiation(StateToCommand(state), b)];
          state := InData;
      }
    }

    /**
     * Reports the callbacks in the order in which they fire. Data is held back only in state
     * InData, so no callback overtakes the data that precedes it in the stream.
     */
    method Feed(input: seq<byte>) returns (events: seq<Event>)
      modifies this
      ensures Now() == After(old(Now()), input)
      ensures Flatten(events) == Trace(old(Now()), input)
      ensures forall e :: e in events && e.OnData? ==> e.block != []
    {
      hide Move, Emit, Atoms, Data, Flatten;
      events := [];
      FlattenNone();
      var data: seq<byte> := [];
      for k := 0 to |input|
        invariant state != InData ==> data == []
        invariant forall e :: e in events && e.OnData? ==> e.block != []
        invariant Now() == After(old(Now()), input[..k])
        invariant Flatten(events) + Data(data) == Trace(old(Now()), input[..k])
      {
        ghost var emitted, held := Emit(Now(), input[k]), Data(data);
        var fired;
        fired, data := Accept(input[k], data);
        FlattenAppend(events, fired);
        Regroup(Flatten(events), held, Flatten(fired), Data(data), emitted);
        events := events + fired;
        assert input[..k + 1][..k] == input[..k];
      }
      assert input[..|input|] == input;
      if data != [] {
        FlattenAppend(events, [OnData(data)]);
        FlattenData(data);
        events := events + [OnData(data)];
      }
    }
  }
}
