// VKT-7 frames: building requests, finding the end of a response in a byte stream, and the
// request/response transaction with its single retry.

module Frames {
  import opened Bytes
  import opened Crc
  import opened CrcBursts
  import opened Assembly
  import CrcDistance

  const FUNCTION_READ: byte := 0x03
  const FUNCTION_WRITE: byte := 0x10
  const MAX_FRAME := 264
  const EXCEPTION_FRAME := 6
  const WRITE_RESPONSE := 8

  datatype LinkError =
    | CrcError(frame: seq<byte>)
    | BadLength
    | TooLong
    | Trailing
    | UnsupportedFunction
    | Timeout(partial: seq<byte>)
    | PortFailure

  // ---- Requests ----------------------------------------------------------------------------

  function LowOctet(c: bv16): byte {
    (c & 0xFF) as byte
  }

  function HighOctet(c: bv16): byte {
    (c >> 8) as byte
  }

  function Sealed(body: seq<byte>): seq<byte> {
    body + [LowOctet(Checksum(body)), HighOctet(Checksum(body))]
  }

  /** frame: address, function, register, quantity, payload, checksum. */
  function Frame(addr: byte, fn: byte, reg: bv16, qty: bv16, payload: seq<byte>): (f: seq<byte>)
    ensures |f| == 8 + |payload|
  {
    Sealed([addr, fn, HighOctet(reg), LowOctet(reg), HighOctet(qty), LowOctet(qty)] + payload)
  }

  lemma WordSplits(c: bv16)
    ensures Word(LowOctet(c), HighOctet(c)) == c
  {}

  /** Every sealed frame, and so every output of Frame, passes its own check. */
  lemma SealedPasses(body: seq<byte>)
    ensures Passes(Sealed(body))
  {
    hide Checksum, Word, LowOctet, HighOctet;
    WordSplits(Checksum(body));
    assert Sealed(body)[..|body|] == body;
  }

  /** A request frame passes its check and can be read back field by field. */
  lemma FrameSays(addr: byte, fn: byte, reg: bv16, qty: bv16, payload: seq<byte>)
    ensures
      var f := Frame(addr, fn, reg, qty, payload);
      && Passes(f) && f[0] == addr && f[1] == fn
      && Word(f[3], f[2]) == reg && Word(f[5], f[4]) == qty && f[6..|f| - 2] == payload
  {
    hide Checksum, Passes, Word, LowOctet, HighOctet;
    var header := [addr, fn, HighOctet(reg), LowOctet(reg), HighOctet(qty), LowOctet(qty)];
    SealedPasses(header + payload);
    WordSplits(reg);
    WordSplits(qty);
  }

  // ---- The end of a response ---------------------------------------------------------------

  datatype Extent = Pending | Known(length: nat) | Refused(error: LinkError)

  predicate IsException(r: seq<byte>)
    requires |r| >= 2
  {
    r[1] & 0x80 != 0
  }

  /** responseLength: the length of the response that begins with r, once r is long enough to tell. */
  function ResponseLength(fn: byte, r: seq<byte>): Extent {
    if |r| < 2 then Pending
    else if IsException(r) then
      if |r| >= EXCEPTION_FRAME then Known(EXCEPTION_FRAME) else Pending
    else if fn == FUNCTION_READ then
      if |r| < 3 then Pending
      else
        var n := Value(r[2]) + 5;
        if n > MAX_FRAME then Refused(TooLong) else Known(n)
    else if fn == FUNCTION_WRITE then Known(WRITE_RESPONSE)
    else Refused(UnsupportedFunction)
  }

  /** The byte count is one octet, so a read response never exceeds the frame limit. */
  lemma NeverTooLong(fn: byte, r: seq<byte>)
    ensures ResponseLength(fn, r) != Refused(TooLong)
    ensures ResponseLength(fn, r).Known? ==> 5 <= ResponseLength(fn, r).length <= 260
  {}

  function ValidateResponse(frame: seq<byte>, expected: nat): (e: Option<LinkError>) {
    if |frame| != expected || |frame| < 2 then Some(BadLength)
    else if !Passes(frame) then Some(CrcError(frame))
    else None
  }

  /** Only a frame of the expected length is checked, and exactly one that passes is accepted. */
  lemma ValidateExactly(frame: seq<byte>, expected: nat)
    ensures ValidateResponse(frame, expected) == None <==> |frame| == expected && Passes(frame)
    ensures ValidateResponse(frame, expected) == Some(CrcError(frame)) <==>
            |frame| == expected >= 2 && !Passes(frame)
    ensures ValidateResponse(frame, expected) in {None, Some(CrcError(frame)), Some(BadLength)}
  {
    hide Checksum, Word;
  }

  /** A complete response to a request with function fn. */
  predicate WellFormed(fn: byte, f: seq<byte>) {
    ResponseLength(fn, f) == Known(|f|) && Passes(f)
  }

  /** Six octets for an exception, five around the data of a read, eight for the acknowledgement of a write. */
  lemma LengthExactly(fn: byte, f: seq<byte>)
    ensures ResponseLength(fn, f) == Known(|f|) <==>
            |f| >= 5 && if IsException(f) then |f| == 6
                        else if fn == FUNCTION_READ then |f| == 5 + Value(f[2])
                        else fn == FUNCTION_WRITE && |f| == 8
  {}

  // ---- Assembling a response from reads ----------------------------------------------------

  /** What readResponse does once it holds out: an answer, or wait for more. */
  function Decide(fn: byte, out: seq<byte>): Option<Result<seq<byte>, LinkError>> {
    if |out| > MAX_FRAME then Some(Err(TooLong))
    else match ResponseLength(fn, out)
      case Refused(e) => Some(Err(e))
      case Pending => None
      case Known(n) =>
        if |out| < n then None
        else if |out| > n then Some(Err(Trailing))
        else match ValidateResponse(out, n)
          case Some(e) => Some(Err(e))
          case None => Some(Ok(out))
  }

  function Decider(fn: byte): seq<byte> -> Option<Result<seq<byte>, LinkError>> {
    b => Decide(fn, b)
  }

  /** readResponse; the deadline falls at the end of the script. */
  function Assemble(fn: byte, out: seq<byte>, script: seq<Reading<byte>>): Result<seq<byte>, LinkError> {
    match Collect(Decider(fn), out, script)
    case Decided(r) => r
    case Failed => Err(PortFailure)
    case RanOut(partial) => Err(Timeout(partial))
  }

  method ReadResponse(req: seq<byte>, script: seq<Reading<byte>>) returns (r: Result<seq<byte>, LinkError>)
    requires |req| >= 2
    ensures r == Assemble(req[1], [], script)
  {
    var out: seq<byte> := [];
    for k := 0 to |script|
      invariant Assemble(req[1], out, script[k..]) == Assemble(req[1], [], script)
    {
      hide ResponseLength, Passes;
      assert script[k..][1..] == script[k + 1..];
      match script[k] {
        case Eof =>
          continue;
        case Nothing =>
          continue;
        case Broken =>
          return Err(PortFailure);
        case Octets(data) =>
          if data == [] {
            continue;
          }
          out := out + data;
          if |out| > MAX_FRAME {
            return Err(TooLong);
          }
          var extent := ResponseLength(req[1], out);
          if extent.Refused? {
            return Err(extent.error);
          }
          if extent.Pending? || |out| < extent.length {
            continue;
          }
          if |out| > extent.length {
            return Err(Trailing);
          }
          var fault := ValidateResponse(out, extent.length);
          return if fault.Some? then Err(fault.value) else Ok(out);
      }
    }
    return Err(Timeout(out));
  }

  /** An accepted response is exactly a well-formed one, and no proper prefix of it ends the wait. */
  lemma DecideExactly(fn: byte, out: seq<byte>)
    ensures Decide(fn, out).Some? && Decide(fn, out).value.Ok? <==> WellFormed(fn, out)
    ensures WellFormed(fn, out) ==> Decide(fn, out) == Some(Ok(out))
  {
    NeverTooLong(fn, out);
  }

  lemma PrefixWaits(fn: byte, f: seq<byte>, p: seq<byte>)
    requires WellFormed(fn, f) && p < f
    ensures Decide(fn, p) == None
  {
    hide Passes;
    NeverTooLong(fn, f);
    if |p| >= 2 {
      assert p[1] == f[1];
    }
    if |p| >= 3 {
      assert p[2] == f[2];
    }
  }

  /**
   * However a well-formed response is cut into reads, and wherever empty reads fall between the
   * pieces, it is returned as it is.
   */
  lemma ResponseReassembled(fn: byte, script: seq<Reading<byte>>, later: seq<Reading<byte>>, f: seq<byte>)
    requires WellFormed(fn, f) && Received(script) == f
    requires forall k :: 0 <= k < |script| ==> !script[k].Broken?
    ensures Assemble(fn, [], script + later) == Ok(f)
  {
    assert f != [];
    hide WellFormed, Decide, Received, Passes;
    var decide := Decider(fn);
    forall p | p < f
      ensures decide(p) == None
    {
      PrefixWaits(fn, f, p);
    }
    DecideExactly(fn, f);
    Reassembled(decide, [], script, later, f);
  }

  /** Whatever the port delivers, a returned frame is well formed and is what arrived first. */
  lemma OnlyWellFormed(fn: byte, script: seq<Reading<byte>>) returns (used: nat)
    requires Assemble(fn, [], script).Ok?
    ensures WellFormed(fn, Assemble(fn, [], script).value)
    ensures used <= |script| && Received(script[..used]) == Assemble(fn, [], script).value
    ensures forall k :: 0 <= k < used ==> !script[k].Broken?
  {
    hide WellFormed, Decide;
    used := DecidedOnReceived(Decider(fn), [], script);
    var r := Received(script[..used]);
    assert [] + r == r;
    DecideExactly(fn, r);
    DecidedWhole(fn, r);
  }

  lemma DecidedWhole(fn: byte, out: seq<byte>)
    ensures Decide(fn, out).Some? && Decide(fn, out).value.Ok? ==> Decide(fn, out).value.value == out
  {}

  // ---- Which failure is which --------------------------------------------------------------

  /** Too little to tell the length of the response, or less than that length. */
  predicate Waits(fn: byte, g: seq<byte>) {
    && |g| <= MAX_FRAME
    && match ResponseLength(fn, g)
       case Pending => true
       case Known(n) => |g| < n
       case Refused(_) => false
  }

  /** The reading goes on up to the u-th read: none of them is broken, and all that came before it waits. */
  ghost predicate Reaches(fn: byte, script: seq<Reading<byte>>, u: nat) {
    && u <= |script| && (forall k :: 0 <= k < u ==> !script[k].Broken?)
    && (forall v :: 0 <= v < u ==> Waits(fn, Received(script[..v])))
  }

  /** The u-th read is the last one used: with it g has come, and g does not wait. */
  ghost predicate StopsWith(fn: byte, script: seq<Reading<byte>>, u: nat, g: seq<byte>) {
    Reaches(fn, script, u) && Received(script[..u]) == g && !Waits(fn, g)
  }

  lemma WaitsExactly(fn: byte, g: seq<byte>)
    ensures Decide(fn, g) == None <==> Waits(fn, g)
  {
    hide Passes;
  }

  lemma UsesIsReaches(fn: byte, script: seq<Reading<byte>>, u: nat)
    ensures Uses(Decider(fn), [], script, u) <==> Reaches(fn, script, u)
  {
    hide Decide, Waits;
    forall v | 0 <= v <= |script|
      ensures Decide(fn, [] + Received(script[..v])) == None <==> Waits(fn, Received(script[..v]))
    {
      assert [] + Received(script[..v]) == Received(script[..v]);
      WaitsExactly(fn, Received(script[..v]));
    }
    hide Received;
  }

  /** Wherever the reading stops, that place decides what it returns. */
  lemma StopDecides(fn: byte, script: seq<Reading<byte>>, u: nat)
    requires Reaches(fn, script, u)
    ensures
      var g := Received(script[..u]);
      !Waits(fn, g) ==> Decide(fn, g).Some? && Assemble(fn, [], script) == Decide(fn, g).value
    ensures
      var g := Received(script[..u]);
      Waits(fn, g) ==>
        (u == |script| ==> Assemble(fn, [], script) == Err(Timeout(g))) &&
        (u < |script| && script[u].Broken? ==> Assemble(fn, [], script) == Err(PortFailure))
  {
    hide Decide, Waits, Received;
    var g := Received(script[..u]);
    assert [] + g == g;
    UsesIsReaches(fn, script, u);
    WaitsExactly(fn, g);
    WaitsExactly(fn, []);
    EmptyWaits(fn);
    if !Waits(fn, g) || u == |script| || script[u].Broken? {
      EndDecides(Decider(fn), [], script, u);
    }
  }

  lemma EmptyWaits(fn: byte)
    ensures Waits(fn, [])
  {}

  /** The reading always stops somewhere. */
  lemma StopsSomewhere(fn: byte, script: seq<Reading<byte>>) returns (u: nat)
    ensures Reaches(fn, script, u)
    ensures !Waits(fn, Received(script[..u])) || u == |script| || script[u].Broken?
  {
    hide Decide, Waits, Received;
    UsesIsReaches(fn, script, 0);
    u := SomeEnd(Decider(fn), [], script, 0);
    UsesIsReaches(fn, script, u);
    assert [] + Received(script[..u]) == Received(script[..u]);
    WaitsExactly(fn, Received(script[..u]));
  }

  /** The octets have the length they announce, and fail the check. */
  predicate FailsCheck(fn: byte, g: seq<byte>) {
    ResponseLength(fn, g) == Known(|g|) && !Passes(g)
  }

  /** There are more octets than they announce. */
  predicate TooMany(fn: byte, g: seq<byte>) {
    |g| <= MAX_FRAME && ResponseLength(fn, g).Known? && |g| > ResponseLength(fn, g).length
  }

  /** The octets that stop a reading decide its outcome, and each outcome has its own sign in them. */
  lemma StopMeans(fn: byte, script: seq<Reading<byte>>, u: nat, g: seq<byte>)
    requires StopsWith(fn, script, u, g)
    ensures
      var r := Assemble(fn, [], script);
      && (if WellFormed(fn, g) then r == Ok(g) else r.Err?)
      && (if FailsCheck(fn, g) then r == Err(CrcError(g)) else !CrcFault(r))
      && (r == Err(Trailing) <==> TooMany(fn, g))
      && (r == Err(TooLong) <==> |g| > MAX_FRAME)
      && (r == Err(UnsupportedFunction) <==>
          2 <= |g| <= MAX_FRAME && !IsException(g) && fn != FUNCTION_READ && fn != FUNCTION_WRITE)
      && (r.Err? ==> r.error.CrcError? || r.error in {Trailing, TooLong, UnsupportedFunction})
  {
    StopDecides(fn, script, u);
    hide Assemble, Received, Reaches;
    NeverTooLong(fn, g);
    hide Passes;
  }

  /** A reading that nothing stops runs to its deadline or to a failing read. */
  lemma UnstoppedMeans(fn: byte, script: seq<Reading<byte>>, u: nat)
    requires Reaches(fn, script, u) && Waits(fn, Received(script[..u]))
    requires u == |script| || script[u].Broken?
    ensures Assemble(fn, [], script) == Err(if u == |script| then Timeout(Received(script)) else PortFailure)
  {
    hide Waits, Received, Assemble;
    StopDecides(fn, script, u);
    assert script[..|script|] == script;
  }

  /** A reading either stops or does not, and then its outcome is what the lemmas above say. */
  lemma ReadingEnds(fn: byte, script: seq<Reading<byte>>) returns (u: nat, g: seq<byte>)
    ensures Reaches(fn, script, u) && Received(script[..u]) == g
    ensures Waits(fn, g) ==>
              (u == |script| || script[u].Broken?) &&
              Assemble(fn, [], script) == Err(if u == |script| then Timeout(Received(script)) else PortFailure)
    ensures !Waits(fn, g) ==> StopsWith(fn, script, u, g)
  {
    hide Waits, Received, Assemble;
    u := StopsSomewhere(fn, script);
    g := Received(script[..u]);
    if Waits(fn, g) {
      UnstoppedMeans(fn, script, u);
    }
  }

  /** A frame is returned exactly if the octets that stop the reading are well formed. */
  lemma ReturnedExactly(fn: byte, script: seq<Reading<byte>>, g: seq<byte>)
    ensures Assemble(fn, [], script) == Ok(g) <==> exists u: nat :: StopsWith(fn, script, u, g) && WellFormed(fn, g)
  {
    hide StopsWith, WellFormed, Waits, Received, Assemble, FailsCheck;
    var u, h := ReadingEnds(fn, script);
    if !Waits(fn, h) {
      StopMeans(fn, script, u, h);
    }
    if v: nat :| StopsWith(fn, script, v, g) && WellFormed(fn, g) {
      StopMeans(fn, script, v, g);
    }
  }

  /** A checksum error is returned exactly if they have the length they announce and fail the check. */
  lemma CrcErrorExactly(fn: byte, script: seq<Reading<byte>>, g: seq<byte>)
    ensures Assemble(fn, [], script) == Err(CrcError(g)) <==>
            exists u: nat :: StopsWith(fn, script, u, g) && FailsCheck(fn, g)
  {
    hide StopsWith, WellFormed, Waits, Received, Assemble, FailsCheck;
    var u, h := ReadingEnds(fn, script);
    if !Waits(fn, h) {
      StopMeans(fn, script, u, h);
    }
    if v: nat :| StopsWith(fn, script, v, g) && FailsCheck(fn, g) {
      StopMeans(fn, script, v, g);
    }
  }

  /** The octets that stop the reading have the length they announce, and fail the check. */
  ghost predicate ChecksumFailed(fn: byte, script: seq<Reading<byte>>) {
    exists u: nat, g :: StopsWith(fn, script, u, g) && FailsCheck(fn, g)
  }

  lemma CrcFaultExactly(req: seq<byte>, t: Attempt)
    requires |req| >= 2
    ensures CrcFault(Answer(req, t)) <==> ChecksumFailed(req[1], t.script)
  {
    hide StopsWith, FailsCheck, Assemble;
    if CrcFault(Answer(req, t)) {
      CrcErrorExactly(req[1], t.script, Answer(req, t).error.frame);
    }
    if u: nat, g :| StopsWith(req[1], t.script, u, g) && FailsCheck(req[1], g) {
      CrcErrorExactly(req[1], t.script, g);
    }
  }

  /** Trailing octets are reported exactly if they are more than they announce, or more than any frame has. */
  lemma ExcessExactly(fn: byte, script: seq<Reading<byte>>)
    ensures Assemble(fn, [], script) == Err(Trailing) <==>
            exists u: nat, g :: StopsWith(fn, script, u, g) && TooMany(fn, g)
    ensures Assemble(fn, [], script) == Err(TooLong) <==>
            exists u: nat, g :: StopsWith(fn, script, u, g) && |g| > 264
  {
    hide StopsWith, WellFormed, Waits, Received, Assemble, FailsCheck, TooMany;
    var u, h := ReadingEnds(fn, script);
    if !Waits(fn, h) {
      StopMeans(fn, script, u, h);
    }
    if v: nat, g :| StopsWith(fn, script, v, g) && (TooMany(fn, g) || |g| > MAX_FRAME) {
      StopMeans(fn, script, v, g);
    }
    forall v: nat, g | StopsWith(fn, script, v, g)
      ensures Assemble(fn, [], script) == Err(Trailing) <==> TooMany(fn, g)
      ensures Assemble(fn, [], script) == Err(TooLong) <==> |g| > MAX_FRAME
    {
      StopMeans(fn, script, v, g);
    }
  }

  /** The reading times out, or fails with the port, exactly if all that came before waits. */
  lemma UnstoppedExactly(fn: byte, script: seq<Reading<byte>>, g: seq<byte>)
    ensures Assemble(fn, [], script) == Err(Timeout(g)) <==>
            Reaches(fn, script, |script|) && Received(script) == g && Waits(fn, g)
    ensures Assemble(fn, [], script) == Err(PortFailure) <==>
            exists u: nat :: u < |script| && Reaches(fn, script, u) && Waits(fn, Received(script[..u])) &&
                             script[u].Broken?
  {
    hide StopsWith, WellFormed, Waits, Received, Assemble, FailsCheck, TooMany;
    var u, h := ReadingEnds(fn, script);
    assert script[..|script|] == script;
    if !Waits(fn, h) {
      StopMeans(fn, script, u, h);
    }
    if Reaches(fn, script, |script|) && Received(script) == g && Waits(fn, g) {
      UnstoppedMeans(fn, script, |script|);
    }
    if v: nat :| v < |script| && Reaches(fn, script, v) && Waits(fn, Received(script[..v])) && script[v].Broken? {
      UnstoppedMeans(fn, script, v);
    }
  }

  // ---- Damage ------------------------------------------------------------------------------

  /** How far a received frame is from the one sent: a short burst, few flips, or an odd number. */
  ghost predicate Damaged(f: seq<byte>, g: seq<byte>) {
    && |f| == |g| && f != g
    && ((exists p: nat :: InWindow(f, g, p))
        || Count(Diff(Bits(f), Bits(g))) % 2 == 1
        || (|f| <= 4095 && Count(Diff(Bits(f), Bits(g))) <= 3))
  }

  predicate InWindow(f: seq<byte>, g: seq<byte>, p: nat)
    requires |f| == |g|
  {
    forall i :: 0 <= i < 8 * |f| && Bits(f)[i] != Bits(g)[i] ==> p <= i < p + 16
  }

  lemma DamageFailsCheck(f: seq<byte>, g: seq<byte>)
    requires Passes(f) && Damaged(f, g)
    ensures !Passes(g)
  {
    hide Passes, Bits, Diff, Count;
    if p :| 0 <= p && InWindow(f, g, p) {
      BurstRejected(f, g, p);
    } else if Count(Diff(Bits(f), Bits(g))) % 2 == 1 {
      OddFlipsRejected(f, g);
    } else {
      if Count(Diff(Bits(f), Bits(g))) == 0 {
        SomeFlip(f, g);
      }
      CrcDistance.FewFlipsRejected(f, g);
    }
  }

  lemma SomeFlip(f: seq<byte>, g: seq<byte>)
    requires |f| == |g| && f != g
    ensures Count(Diff(Bits(f), Bits(g))) > 0
  {
    hide Bits, Count;
    if Count(Diff(Bits(f), Bits(g))) == 0 {
      CrcDistance.CountNone(Diff(Bits(f), Bits(g)));
      BitsInjective(f, g);
    }
  }

  /** validateResponse reports CrcError for every damaged form of a frame that it accepts. */
  lemma DamageIsCrcError(f: seq<byte>, g: seq<byte>, expected: nat)
    requires ValidateResponse(f, expected) == None && Damaged(f, g)
    ensures ValidateResponse(g, expected) == Some(CrcError(g))
  {
    hide Passes;
    DamageFailsCheck(f, g);
  }

  /** No damaged form of a good frame is ever handed to the caller, however it arrives. */
  lemma DamageNotDelivered(fn: byte, f: seq<byte>, g: seq<byte>, script: seq<Reading<byte>>)
    requires Passes(f) && Damaged(f, g)
    ensures Assemble(fn, [], script) != Ok(g)
  {
    hide Passes, Damaged;
    DamageFailsCheck(f, g);
    if Assemble(fn, [], script) == Ok(g) {
      var used := OnlyWellFormed(fn, script);
    }
  }

  // ---- The transaction ---------------------------------------------------------------------

  /** What one attempt of tx meets: the write, the reads up to the deadline, the purge after it. */
  datatype Attempt = Attempt(written: bool, script: seq<Reading<byte>>, purged: bool)

  const ATTEMPTS := 2

  /** The wire form of a request: two 0xFF octets wake the interface. */
  function Prefixed(req: seq<byte>): seq<byte> {
    [0xFF, 0xFF] + req
  }

  /**
   * tx: at most one retry, and only after a response whose checksum was wrong. The result is the
   * answer to the last request sent, except where the port failed before there was one.
   */
  method Transact(req: seq<byte>, prepared: bool, tries: seq<Attempt>)
    returns (r: Result<seq<byte>, LinkError>, sent: seq<seq<byte>>)
    requires |req| >= 2 && |tries| == ATTEMPTS
    ensures |sent| <= ATTEMPTS && forall w :: w in sent ==> w == [0xFF, 0xFF] + req
    ensures |sent| == 0 <==> !prepared
    ensures |sent| == 2 <==>
              prepared && tries[0].written && tries[0].purged && ChecksumFailed(req[1], tries[0].script)
    ensures CrcFault(Answer(req, tries[0])) <==> ChecksumFailed(req[1], tries[0].script)
    ensures r.Ok? ==> |sent| > 0 && tries[|sent| - 1].written && WellFormed(req[1], r.value)
    ensures r == if |sent| == 0 || !tries[|sent| - 1].written || (|sent| == 1 && CrcFault(Answer(req, tries[0])))
                 then Err(PortFailure) else Answer(req, tries[|sent| - 1])
  {
    hide WellFormed, Assemble, ChecksumFailed;
    CrcFaultExactly(req, tries[0]);
    sent := [];
    r := Err(PortFailure);
    if !prepared {
      return;
    }
    for k := 0 to ATTEMPTS
      invariant |sent| == k && forall w :: w in sent ==> w == Prefixed(req)
      invariant k == 0 ==> r == Err(PortFailure)
      invariant k > 0 ==> tries[0].written && tries[0].purged && CrcFault(Answer(req, tries[0]))
      invariant k > 0 ==> tries[k - 1].written && r == Answer(req, tries[k - 1]) && CrcFault(r)
    {
      sent := sent + [Prefixed(req)];
      if !tries[k].written {
        return Err(PortFailure), sent;
      }
      r := ReadResponse(req, tries[k].script);
      if r.Ok? {
        var used := OnlyWellFormed(req[1], tries[k].script);
        return;
      }
      if !CrcFault(r) || k + 1 == ATTEMPTS {
        return;
      }
      if !tries[k].purged {
        return Err(PortFailure), sent;
      }
    }
  }

  /** What the reads after one sending bring. */
  function Answer(req: seq<byte>, t: Attempt): Result<seq<byte>, LinkError>
    requires |req| >= 2
  {
    Assemble(req[1], [], t.script)
  }

  predicate CrcFault(r: Result<seq<byte>, LinkError>) {
    r.Err? && r.error.CrcError?
  }

  // ---- Reading a response ------------------------------------------------------------------

  /** dataPart: the payload of a read response; exception frames come back whole. */
  function DataPart(r: seq<byte>): seq<byte> {
    if |r| < 5 then []
    else if IsException(r) then r
    else if Value(r[2]) + 5 <= |r| then r[3..3 + Value(r[2])]
    else []
  }

  /** parseException: the code of an exception response. */
  function ExceptionCode(r: seq<byte>): Option<byte> {
    if |r| >= 3 && IsException(r) then Some(r[2]) else None
  }

  /** The read response a meter with this address sends for data. */
  function ReadReply(addr: byte, data: seq<byte>): seq<byte> {
    Sealed([addr, FUNCTION_READ, Low(|data|)] + data)
  }

  /** A frame with this layout announces its own length and gives back its data. */
  lemma ReplyLayout(addr: byte, n: byte, data: seq<byte>, x: byte, y: byte)
    requires Value(n) == |data|
    ensures
      var f := [addr, FUNCTION_READ, n] + data + [x, y];
      ResponseLength(FUNCTION_READ, f) == Known(|f|) && DataPart(f) == data && ExceptionCode(f) == None
  {
    var f := [addr, FUNCTION_READ, n] + data + [x, y];
    assert |f| == |data| + 5 && f[1] == FUNCTION_READ && f[2] == n && f[3..3 + |data|] == data;
    assert !IsException(f);
    hide IsException;
  }

  lemma ReadReplyDelivers(addr: byte, data: seq<byte>)
    requires |data| <= 255
    ensures WellFormed(FUNCTION_READ, ReadReply(addr, data))
    ensures DataPart(ReadReply(addr, data)) == data && ExceptionCode(ReadReply(addr, data)) == None
  {
    hide Checksum, Passes, Low, Value, LowOctet, HighOctet, ResponseLength, DataPart, ExceptionCode;
    var body := [addr, FUNCTION_READ, Low(|data|)] + data;
    SealedPasses(body);
    ReplyLayout(addr, Low(|data|), data, LowOctet(Checksum(body)), HighOctet(Checksum(body)));
  }

  function ExceptionReply(addr: byte, fn: byte, code: byte, service: byte): seq<byte> {
    Sealed([addr, fn | 0x80, code, service])
  }

  lemma ExceptionReplyDelivers(addr: byte, fn: byte, code: byte, service: byte)
    ensures WellFormed(fn, ExceptionReply(addr, fn, code, service))
    ensures ExceptionCode(ExceptionReply(addr, fn, code, service)) == Some(code)
  {
    hide Checksum, Passes, LowOctet, HighOctet;
    SealedPasses([addr, fn | 0x80, code, service]);
  }

  /** A passing frame is its body, sealed. */
  lemma PassingIsSealed(f: seq<byte>)
    requires Passes(f)
    ensures f == Sealed(f[..|f| - 2])
  {
    hide Checksum, Word, LowOctet, HighOctet;
    OctetsOfWord(f[|f| - 2], f[|f| - 1]);
  }

  /** Every well-formed normal read response is the reply to exactly its own data part. */
  lemma ReadReplyExactly(f: seq<byte>)
    requires WellFormed(FUNCTION_READ, f) && f[1] == FUNCTION_READ
    ensures |DataPart(f)| <= 255 && f == ReadReply(f[0], DataPart(f))
  {
    var data := f[3..|f| - 2];
    ReplyLength(f);
    PassingIsSealed(f);
    hide Passes, Sealed, Low, Value, ResponseLength, IsException;
    LowIs(f[2], |data|);
    assert f[..|f| - 2] == [f[0], FUNCTION_READ, f[2]] + data;
  }

  lemma ReplyLength(f: seq<byte>)
    requires WellFormed(FUNCTION_READ, f) && f[1] == FUNCTION_READ
    ensures !IsException(f) && |f| == Value(f[2]) + 5 <= 260
  {
    hide Passes;
  }

  lemma OctetsOfWord(lo: byte, hi: byte)
    ensures LowOctet(Word(lo, hi)) == lo && HighOctet(Word(lo, hi)) == hi
  {}
}
