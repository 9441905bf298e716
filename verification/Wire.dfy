// The commands of the meter as frames: what a request says to the device, and what the client makes
// of the answer, also when the first answer was damaged and the request went out twice.

module Wire {
  import opened Bytes
  import opened Crc
  import opened CrcBursts
  import opened Assembly
  import opened Frames
  import opened Marks
  import opened Meter
  import RL = ReadLists

  const REG_ACTIVE: bv16 := 0x3FFC
  const REG_DATE: bv16 := 0x3FFB
  const REG_VALUE_TYPE: bv16 := 0x3FFD
  const REG_READ_DATA: bv16 := 0x3FFE
  const REG_SCHEME_TV1: bv16 := 0x3ECD
  const REG_SCHEME_TV2: bv16 := 0x3F5B
  const REG_ACTIVE_DB: bv16 := 0x3FE9

  // ---- Requests ----------------------------------------------------------------------------

  function FunctionOf(c: Command): byte {
    if IsWrite(c) then FUNCTION_WRITE else FUNCTION_READ
  }

  function RegisterOf(c: Command): bv16 {
    match c
    case PutType(_) => REG_VALUE_TYPE
    case PutList(_) => RL.REG_READ_LIST
    case PutDate(_) => REG_DATE
    case GetData => REG_READ_DATA
    case GetActive => REG_ACTIVE
    case GetNumbers(SchemeTV1) => REG_SCHEME_TV1
    case GetNumbers(SchemeTV2) => REG_SCHEME_TV2
    case GetNumbers(ActiveDB) => REG_ACTIVE_DB
  }

  function QuantityOf(c: Command): bv16 {
    if c.GetNumbers? then 1 else 0
  }

  function PayloadOf(c: Command): seq<byte> {
    match c
    case PutType(typ) => [2, Low(typ), 0]
    case PutList(list) => [Low(6 * |list|)] + RL.Entries(list)
    case PutDate(d) => [4, d.day, d.month, d.year, d.hour]
    case _ => []
  }

  function Request(addr: byte, c: Command): (f: seq<byte>)
    ensures |f| >= 8
  {
    Frame(addr, FunctionOf(c), RegisterOf(c), QuantityOf(c), PayloadOf(c))
  }

  /** The octets behind the address: function, register and quantity, high octets first. */
  function HeaderOf(c: Command): seq<byte> {
    match c
    case PutType(_) => [0x10, 0x3F, 0xFD, 0, 0]
    case PutList(_) => [0x10, 0x3F, 0xFF, 0, 0]
    case PutDate(_) => [0x10, 0x3F, 0xFB, 0, 0]
    case GetData => [0x03, 0x3F, 0xFE, 0, 0]
    case GetActive => [0x03, 0x3F, 0xFC, 0, 0]
    case GetNumbers(SchemeTV1) => [0x03, 0x3E, 0xCD, 0, 1]
    case GetNumbers(SchemeTV2) => [0x03, 0x3F, 0x5B, 0, 1]
    case GetNumbers(ActiveDB) => [0x03, 0x3F, 0xE9, 0, 1]
  }

  lemma HeaderOctets(addr: byte, c: Command)
    ensures Request(addr, c)[0] == addr && Request(addr, c)[1..6] == HeaderOf(c)
  {
    hide Checksum, PayloadOf;
    var f := Request(addr, c);
    assert f[1..6] == [f[1], f[2], f[3], f[4], f[5]];
  }

  /** The commands that the collector gives: a type is one octet, and elements come from an active list. */
  predicate Sayable(c: Command) {
    match c
    case PutType(typ) => 0 <= typ < 256
    case PutList(list) => forall e :: e in list ==> RL.Writable(e)
    case _ => true
  }

  /** A read list of more entries is not sent. */
  predicate FitsRequest(c: Command) {
    c.PutList? ==> |c.list| <= 42
  }

  /** What a device with this address takes a write for. */
  function HeardWrite(reg: bv16, p: seq<byte>): Option<Command> {
    if reg == REG_VALUE_TYPE && |p| == 3 && p[0] == 2 && p[2] == 0 then Some(PutType(Value(p[1])))
    else if reg == RL.REG_READ_LIST && |p| > 0 && |p| == 1 + Value(p[0]) && RL.AllMarked(p[1..]) then
      Some(PutList(RL.ActiveFrom(p[1..])))
    else if reg == REG_DATE && |p| == 5 && p[0] == 4 then Some(PutDate(Stamp(p[1], p[2], p[3], p[4])))
    else None
  }

  /** A read asks for the data that commands have prepared, or for a number of diagnostic items. */
  function HeardRead(reg: bv16, qty: bv16): Option<Command> {
    if reg == REG_READ_DATA && qty == 0 then Some(GetData)
    else if reg == REG_ACTIVE && qty == 0 then Some(GetActive)
    else if reg == REG_SCHEME_TV1 && qty == 1 then Some(GetNumbers(SchemeTV1))
    else if reg == REG_SCHEME_TV2 && qty == 1 then Some(GetNumbers(SchemeTV2))
    else if reg == REG_ACTIVE_DB && qty == 1 then Some(GetNumbers(ActiveDB))
    else None
  }

  /** What a device with this address takes a frame for. */
  function Heard(addr: byte, f: seq<byte>): Option<Command> {
    if |f| < 8 || !Passes(f) || f[0] != addr then None
    else if f[1] == FUNCTION_WRITE && Word(f[5], f[4]) == 0 then HeardWrite(Word(f[3], f[2]), f[6..|f| - 2])
    else if f[1] == FUNCTION_READ && |f| == 8 then HeardRead(Word(f[3], f[2]), Word(f[5], f[4]))
    else None
  }

  /** A request says to the device exactly the command that it was made from. */
  lemma RequestHeard(addr: byte, c: Command)
    requires Sayable(c) && FitsRequest(c)
    ensures Heard(addr, Request(addr, c)) == Some(c)
  {
    hide Frame, Passes, Word, PayloadOf, HeardWrite, HeardRead;
    FrameSays(addr, FunctionOf(c), RegisterOf(c), QuantityOf(c), PayloadOf(c));
    if IsWrite(c) {
      WriteHeard(c);
    } else {
      ReadHeard(c);
    }
  }

  lemma ReadHeard(c: Command)
    requires !IsWrite(c)
    ensures HeardRead(RegisterOf(c), QuantityOf(c)) == Some(c) && PayloadOf(c) == []
  {}

  lemma WriteHeard(c: Command)
    requires IsWrite(c) && Sayable(c) && FitsRequest(c)
    ensures HeardWrite(RegisterOf(c), PayloadOf(c)) == Some(c)
  {
    hide Low, Value, RL.ActiveFrom, RL.Entries, RL.AllMarked;
    if c.PutList? {
      RL.ReadListInverse(c.list);
      RL.WrittenIsMarked(c.list);
      assert PayloadOf(c)[1..] == RL.Entries(c.list);
    }
  }

  // ---- Responses ---------------------------------------------------------------------------

  /** What the device does with one sending: its fate, the data of its answer, the service octet of a refusal. */
  datatype Handling = Handling(fate: Fate, data: Payload, service: byte)

  /** Exception codes are one octet. */
  predicate Possible(h: Handling) {
    h.fate.Refused? ==> h.fate.code < 256
  }

  /** The acknowledgement of a write. */
  function WriteReply(addr: byte, c: Command): (f: seq<byte>)
    ensures |f| == WRITE_RESPONSE
  {
    var (reg, qty) := (RegisterOf(c), QuantityOf(c));
    Sealed([addr, FUNCTION_WRITE, HighOctet(reg), LowOctet(reg), HighOctet(qty), LowOctet(qty)])
  }

  function Refusal(addr: byte, c: Command, code: nat, service: byte): seq<byte> {
    ExceptionReply(addr, FunctionOf(c), Low(code), service)
  }

  /** The frame that the device sends, if it sends one. */
  function Response(addr: byte, c: Command, h: Handling): Option<seq<byte>> {
    match h.fate
    case Lost(_) => None
    case Refused(code, _) => Some(Refusal(addr, c, code, h.service))
    case Accepted => Some(if IsWrite(c) then WriteReply(addr, c) else ReadReply(addr, h.data))
  }

  /** The data that reach the client; the refusal of a diagnostic read is taken for its data. */
  function DataGiven(addr: byte, c: Command, h: Handling): seq<byte> {
    if IsWrite(c) then []
    else match h.fate
      case Refused(code, _) => Refusal(addr, c, code, h.service)
      case _ => h.data
  }

  /** What the client makes of the end of a transaction. */
  function Understood(c: Command, r: Result<seq<byte>, LinkError>): Result<seq<byte>, MeterError> {
    match r
    case Err(_) => Err(LinkFault)
    case Ok(f) =>
      var code := ExceptionCode(f);
      if code.Some? && !c.GetNumbers? then Err(Exception(Value(code.value)))
      else Ok(if IsWrite(c) then [] else DataPart(f))
  }

  /** What the meter's model says of a command with this fate. */
  function Reported(c: Command, fate: Fate, data: seq<byte>): Result<seq<byte>, MeterError> {
    match Trouble(c, fate)
    case Some(e) => Err(e)
    case None => Ok(data)
  }

  lemma WriteReplyDelivers(addr: byte, c: Command)
    ensures WellFormed(FUNCTION_WRITE, WriteReply(addr, c)) && ExceptionCode(WriteReply(addr, c)) == None
  {
    hide Checksum, Passes, LowOctet, HighOctet, RegisterOf;
    var (reg, qty) := (RegisterOf(c), QuantityOf(c));
    SealedPasses([addr, FUNCTION_WRITE, HighOctet(reg), LowOctet(reg), HighOctet(qty), LowOctet(qty)]);
  }

  lemma RefusalDelivers(addr: byte, c: Command, code: nat, service: byte)
    requires code < 256
    ensures
      var f := Refusal(addr, c, code, service);
      && WellFormed(FunctionOf(c), f) && DataPart(f) == f
      && ExceptionCode(f).Some? && Value(ExceptionCode(f).value) == code
  {
    hide Checksum, Passes, LowOctet, HighOctet, Value, Sealed;
    ExceptionReplyDelivers(addr, FunctionOf(c), Low(code), service);
    RefusalIsWhole(ExceptionReply(addr, FunctionOf(c), Low(code), service));
  }

  lemma RefusalIsWhole(f: seq<byte>)
    requires ExceptionCode(f).Some? && |f| >= 5
    ensures DataPart(f) == f
  {}

  /** A response that arrives is understood as what the device did. */
  lemma ResponseUnderstood(addr: byte, c: Command, h: Handling)
    requires Possible(h) && Response(addr, c, h).Some?
    ensures WellFormed(FunctionOf(c), Response(addr, c, h).value)
    ensures Understood(c, Ok(Response(addr, c, h).value)) == Reported(c, h.fate, DataGiven(addr, c, h))
  {
    hide Passes, WellFormed, ExceptionCode, DataPart, WriteReply, ReadReply, Refusal, Value;
    match h.fate {
      case Accepted =>
        if IsWrite(c) {
          WriteReplyDelivers(addr, c);
        } else {
          ReadReplyDelivers(addr, h.data);
        }
      case Refused(code, _) => RefusalDelivers(addr, c, code, h.service);
    }
  }

  // ---- The line ----------------------------------------------------------------------------

  /** No answer passes for another: an accepted response is the one that the device sent. */
  predicate Honest(req: seq<byte>, t: Attempt, response: Option<seq<byte>>)
    requires |req| >= 2
  {
    Answer(req, t).Ok? ==> response == Some(Answer(req, t).value)
  }

  /** Damage that leaves the announced length as it is. */
  ghost predicate Garbled(fn: byte, f: seq<byte>, g: seq<byte>) {
    Damaged(f, g) && ResponseLength(fn, g) == Known(|g|)
  }

  /** A response arrives whole, in any pieces. */
  predicate Arrives(script: seq<Reading<byte>>, f: seq<byte>) {
    Received(script) == f && forall k :: 0 <= k < |script| ==> !script[k].Broken?
  }

  lemma IntactIsHonest(req: seq<byte>, t: Attempt, f: seq<byte>)
    requires |req| >= 2 && WellFormed(req[1], f) && Arrives(t.script, f)
    ensures Answer(req, t) == Ok(f) && Honest(req, t, Some(f))
  {
    hide WellFormed, Received, Assemble;
    assert t.script + [] == t.script;
    ResponseReassembled(req[1], t.script, [], f);
  }

  lemma ProperPrefixWaits(fn: byte, g: seq<byte>, p: seq<byte>)
    requires ResponseLength(fn, g) == Known(|g|) && p < g
    ensures Decide(fn, p) == None
  {
    hide Passes;
    NeverTooLong(fn, g);
    if |p| >= 2 {
      assert p[1] == g[1];
    }
    if |p| >= 3 {
      assert p[2] == g[2];
    }
  }

  /** A garbled response is a checksum error, in whatever pieces it comes. */
  lemma GarbledIsCrcFault(req: seq<byte>, t: Attempt, f: seq<byte>, g: seq<byte>)
    requires |req| >= 2 && WellFormed(req[1], f) && Garbled(req[1], f, g) && Arrives(t.script, g)
    ensures CrcFault(Answer(req, t)) && Honest(req, t, Some(f))
  {
    hide Passes, Damaged, Decide, Received, ResponseLength;
    DamageFailsCheck(f, g);
    var decide := Decider(req[1]);
    forall p | p < g
      ensures decide(p) == None
    {
      ProperPrefixWaits(req[1], g, p);
    }
    GarbledDecided(req[1], g);
    assert t.script + [] == t.script;
    Reassembled(decide, [], t.script, [], g);
  }

  lemma GarbledDecided(fn: byte, g: seq<byte>)
    requires ResponseLength(fn, g) == Known(|g|) && !Passes(g)
    ensures g != [] && Decide(fn, g) == Some(Err(CrcError(g)))
  {
    hide Passes;
    NeverTooLong(fn, g);
  }

  // ---- The transaction ---------------------------------------------------------------------

  /** Two sendings of one command: the effect of either, the answer of the second. */
  function Together(first: Fate, last: Fate): Fate {
    match last
    case Accepted => Accepted
    case Refused(code, applied) => Fate.Refused(code, applied || TakesEffect(first))
    case Lost(applied) => Lost(applied || TakesEffect(first))
  }

  /** A command given twice leaves what one command of that fate would. */
  lemma TwiceIsOnce(s: Setting, c: Command, first: Fate, last: Fate)
    ensures SettingAfter(Event(SettingAfter(Event(s, c, first)), c, last)) ==
            SettingAfter(Event(s, c, Together(first, last)))
  {}

  /** The fate of a command that was sent so many times and was answered, or not, after the last. */
  function FateSeen(sent: nat, answered: bool, first: Fate, last: Fate): Fate {
    var all := if sent == 0 then Lost(false) else if sent == 1 then first else Together(first, last);
    if answered then all else Lost(TakesEffect(all))
  }

  /**
   * One command over the wire. On an honest line the client learns exactly what the model of the
   * meter reports for the fate that the command met, and the data of the last answer with it.
   */
  method Execute(addr: byte, c: Command, prepared: bool, tries: seq<Attempt>, ghost first: Handling,
                 ghost last: Handling)
    returns (r: Result<seq<byte>, MeterError>, sent: seq<seq<byte>>)
    requires Sayable(c) && |tries| == ATTEMPTS && Possible(first) && Possible(last)
    ensures !FitsRequest(c) ==> r == Err(ListFault) && sent == []
    ensures |sent| <= ATTEMPTS && forall w :: w in sent ==> w == Prefixed(Request(addr, c))
    ensures FitsRequest(c) && Honest(Request(addr, c), tries[0], Response(addr, c, first)) &&
            Honest(Request(addr, c), tries[1], Response(addr, c, last)) ==>
              r == Reported(c, FateSeen(|sent|, r != Err(LinkFault), first.fate, last.fate),
                            DataGiven(addr, c, if |sent| == 2 then last else first))
    ensures FitsRequest(c) && prepared && tries[0].written && Answer(Request(addr, c), tries[0]).Ok? ==>
              |sent| == 1 && r != Err(LinkFault)
    ensures FitsRequest(c) && prepared && tries[0].written && CrcFault(Answer(Request(addr, c), tries[0])) &&
            tries[0].purged ==>
              |sent| == 2 && (tries[1].written && Answer(Request(addr, c), tries[1]).Ok? ==> r != Err(LinkFault))
  {
    hide Frame, Response, DataGiven, Answer, Honest, WellFormed, Understood, RL.Entries, ChecksumFailed;
    var payload := PayloadOf(c);
    if c.PutList? {
      var made := RL.MakeReadListPayload(c.list);
      if made.Err? {
        return Err(ListFault), [];
      }
      payload := made.value;
    }
    var request := Frame(addr, FunctionOf(c), RegisterOf(c), QuantityOf(c), payload);
    var answer;
    answer, sent := Transact(request, prepared, tries);
    r := Understood(c, answer);
    FunctionAsked(addr, c);
    AnswerUnderstood(c, answer);
    if answer.Ok? {
      var k := |sent| - 1;
      AnswerIsResponse(addr, c, tries[k], if k == 0 then first else last);
    }
  }

  lemma FunctionAsked(addr: byte, c: Command)
    ensures Request(addr, c)[1] == FunctionOf(c)
  {
    hide Passes, Word;
    FrameSays(addr, FunctionOf(c), RegisterOf(c), QuantityOf(c), PayloadOf(c));
    hide Frame;
  }

  lemma AnswerUnderstood(c: Command, answer: Result<seq<byte>, LinkError>)
    ensures Understood(c, answer) == Err(LinkFault) <==> answer.Err?
  {
    hide Value, DataPart;
  }

  lemma AnswerIsResponse(addr: byte, c: Command, t: Attempt, h: Handling)
    requires Possible(h) && Answer(Request(addr, c), t).Ok?
    ensures Honest(Request(addr, c), t, Response(addr, c, h)) ==>
              !h.fate.Lost? && Understood(c, Answer(Request(addr, c), t)) == Reported(c, h.fate, DataGiven(addr, c, h))
  {
    hide Request, Understood, DataGiven, Answer, WellFormed, WriteReply, ReadReply, Refusal;
    if Response(addr, c, h).Some? {
      ResponseUnderstood(addr, c, h);
    }
  }

  /** A garbled first answer costs a second sending and nothing else. */
  method SentTwice(addr: byte, c: Command, tries: seq<Attempt>, ghost first: Handling, ghost last: Handling,
                   ghost f: seq<byte>, ghost g: seq<byte>)
    returns (r: Result<seq<byte>, MeterError>, sent: seq<seq<byte>>)
    requires Sayable(c) && FitsRequest(c) && Possible(first) && Possible(last)
    requires |tries| == ATTEMPTS && tries[0].written && tries[0].purged && tries[1].written
    requires Response(addr, c, first) == Some(f) && Garbled(FunctionOf(c), f, g) && Arrives(tries[0].script, g)
    requires Response(addr, c, last).Some? && Arrives(tries[1].script, Response(addr, c, last).value)
    ensures sent == [Prefixed(Request(addr, c)), Prefixed(Request(addr, c))]
    ensures r == Reported(c, Together(first.fate, last.fate), DataGiven(addr, c, last))
  {
    hide Request, Response, DataGiven, Answer, Honest, WellFormed, Garbled, Arrives;
    FunctionAsked(addr, c);
    ResponseUnderstood(addr, c, first);
    ResponseUnderstood(addr, c, last);
    GarbledIsCrcFault(Request(addr, c), tries[0], f, g);
    IntactIsHonest(Request(addr, c), tries[1], Response(addr, c, last).value);
    r, sent := Execute(addr, c, true, tries, first, last);
    assert sent[0] in sent && sent[1] in sent;
  }

  /** The meter's model of the command: its answer is what the client learnt, its setting what the sendings left. */
  lemma OneStep(b: Behaviour, m: Link, c: Command, addr: byte, sent: nat, answered: bool, first: Handling,
                last: Handling)
    requires sent <= ATTEMPTS && FateNow(b, m, c) == FateSeen(sent, answered, first.fate, last.fate)
    ensures
      var once := SettingAfter(Event(m.setting, c, first.fate));
      var twice := SettingAfter(Event(once, c, last.fate));
      Issue(b, m, c).setting == if sent == 0 then m.setting else if sent == 1 then once else twice
    ensures
      var data := DataGiven(addr, c, if sent == 2 then last else first);
      var r := Reported(c, FateNow(b, m, c), data);
      match c
      case GetData => b.data(|m.log|, m.setting) == data ==> r == ReplyTo(b, |m.log|, m.setting)
      case GetActive =>
        b.active(|m.log|, m.setting) == data ==>
          ActiveNow(b, m) == (match r
                              case Err(e) => Err(e)
                              case Ok(d) =>
                                match RL.ActiveList(d) case Ok(es) => Ok(es) case Err(x) => Err(ParseFault(x)))
      case GetNumbers(q) =>
        b.numbers(|m.log|, m.setting, q) == data ==>
          NumberNow(b, m, q) == (match r
                                 case Err(e) => Err(e)
                                 case Ok(d) => if |d| < 3 then Err(ShortAnswer) else Ok(Value(d[0])))
      case _ => TroubleNow(b, m, c) == if r.Err? then Some(r.error) else None
  {
    hide RL.ActiveList, DataGiven, Value;
  }

  // ---- A write that is sent twice ----------------------------------------------------------

  lemma {:induction false} BitsAppend(a: seq<byte>, b: seq<byte>)
    ensures Bits(a + b) == Bits(a) + Bits(b)
    decreases |a|
  {
    hide LowBits;
    if a == [] {
      assert a + b == b;
    } else {
      assert (a + b)[1..] == a[1..] + b;
      BitsAppend(a[1..], b);
    }
  }

  /** The lowest bit of the last octet, turned over. */
  function Flipped(f: seq<byte>): seq<byte>
    requires f != []
  {
    f[..|f| - 1] + [f[|f| - 1] ^ 1]
  }

  lemma FlipDiffers(x: byte)
    ensures x ^ 1 != x
  {}

  lemma LastInWindow(start: seq<byte>, x: byte, y: byte)
    ensures InWindow(start + [x], start + [y], 8 * |start|)
  {
    hide Bits;
    BitsAppend(start, [x]);
    BitsAppend(start, [y]);
  }

  lemma FlippedIsGarbled(f: seq<byte>, fn: byte)
    requires |f| == WRITE_RESPONSE && ResponseLength(fn, f) == Known(|f|)
    ensures Garbled(fn, f, Flipped(f))
  {
    FlipDiffers(f[7]);
    hide Passes, Count, Diff, Bits;
    assert f == f[..7] + [f[7]];
    LastInWindow(f[..7], f[7], f[7] ^ 1);
    assert InWindow(f, Flipped(f), 56);
  }

  /** README.md promises a second sending to requests that only read; a write gets one as well. */
  method WriteSentTwice(addr: byte, c: Command) returns (r: Result<seq<byte>, MeterError>, sent: seq<seq<byte>>)
    requires IsWrite(c) && Sayable(c) && FitsRequest(c)
    ensures r == Ok([])
    ensures sent == [Prefixed(Request(addr, c)), Prefixed(Request(addr, c))] && sent[0][3] == FUNCTION_WRITE
  {
    hide Request, WriteReply, Passes, Garbled, Arrives;
    ghost var h := Handling(Accepted, [], 0);
    var f := WriteReply(addr, c);
    WriteReplyDelivers(addr, c);
    FlippedIsGarbled(f, FUNCTION_WRITE);
    InOneRead(f);
    InOneRead(Flipped(f));
    FunctionAsked(addr, c);
    var tries := [Attempt(true, [Octets(Flipped(f))], true), Attempt(true, [Octets(f)], true)];
    r, sent := SentTwice(addr, c, tries, h, h, f, Flipped(f));
  }

  lemma InOneRead(f: seq<byte>)
    ensures Arrives([Octets(f)], f)
  {
    var script: seq<Reading<byte>> := [Octets(f)];
    assert script[1..] == [] && f + [] == f;
  }
}
