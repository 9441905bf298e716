// The meter as the collector sees it: a value type, a read list and a date that commands change,
// and answers that may be refusals or lost at any time.

module Meter {
  import opened Bytes
  import opened Elements
  import opened Marks
  import RL = ReadLists

  /** What the meter has been told; a read answers for all three. */
  datatype Setting = Setting(typ: int, list: seq<Element>, date: Option<Stamp>)

  /** The diagnostic reads. */
  datatype Query = SchemeTV1 | SchemeTV2 | ActiveDB

  datatype Command =
    | PutType(typ: int)
    | PutList(list: seq<Element>)
    | PutDate(date: Stamp)
    | GetData
    | GetActive
    | GetNumbers(query: Query)

  predicate IsWrite(c: Command) {
    c.PutType? || c.PutList? || c.PutDate?
  }

  /** The setting that a command asks for. */
  function Wanted(s: Setting, c: Command): Setting {
    match c
    case PutType(typ) => s.(typ := typ)
    case PutList(list) => s.(list := list)
    case PutDate(date) => s.(date := Some(date))
    case _ => s
  }

  /** How the link treats a command; a refused or lost command may still have taken effect. */
  datatype Fate = Accepted | Refused(code: nat, applied: bool) | Lost(applied: bool)

  predicate TakesEffect(f: Fate) {
    match f
    case Accepted => true
    case Refused(_, applied) => applied
    case Lost(applied) => applied
  }

  datatype MeterError =
    | Exception(code: nat)
    | LinkFault
    | ListFault
    | ParseFault(cause: ElementError)
    | ShortAnswer
    | NothingToRead

  /** IsExceptionCode: wrapping keeps the code visible. */
  predicate IsException(e: MeterError, code: nat) {
    e == Exception(code)
  }

  const DATE_MISSING := 3
  const SCHEME_CHANGED := 5

  /** The data part of one response: its length is one octet. */
  type Payload = d: seq<byte> | |d| <= 255

  /** Any behaviour over time: what becomes of the n-th command, and what it answers. */
  datatype Behaviour = Behaviour(
    fate: (nat, Setting, Command) -> Fate,
    data: (nat, Setting) -> seq<byte>,
    active: (nat, Setting) -> Payload,
    numbers: (nat, Setting, Query) -> Payload)

  // ---- What the client makes of it ---------------------------------------------------------

  /** The error that a fate means to the client; a refused diagnostic read is taken for an answer. */
  function Trouble(c: Command, f: Fate): Option<MeterError> {
    match f
    case Accepted => None
    case Refused(code, _) => if c.GetNumbers? then None else Some(Exception(code))
    case Lost(_) => Some(LinkFault)
  }

  /** A command, the setting it met, and what became of it. */
  datatype Event = Event(before: Setting, command: Command, fate: Fate)

  function SettingAfter(e: Event): Setting {
    if TakesEffect(e.fate) then Wanted(e.before, e.command) else e.before
  }

  /** The meter behind a link: its setting, and every command it has been given. */
  datatype Link = Link(setting: Setting, log: seq<Event>)

  function FateNow(b: Behaviour, m: Link, c: Command): Fate {
    b.fate(|m.log|, m.setting, c)
  }

  function TroubleNow(b: Behaviour, m: Link, c: Command): Option<MeterError> {
    Trouble(c, FateNow(b, m, c))
  }

  function Issue(b: Behaviour, m: Link, c: Command): Link {
    var e := Event(m.setting, c, FateNow(b, m, c));
    Link(SettingAfter(e), m.log + [e])
  }

  /** What ReadData gives when it is the n-th command. */
  function ReplyTo(b: Behaviour, n: nat, s: Setting): Result<seq<byte>, MeterError> {
    match Trouble(GetData, b.fate(n, s, GetData))
    case Some(e) => Err(e)
    case None => Ok(b.data(n, s))
  }

  /** What ActiveElements gives: a list without supported elements is an error. */
  function ActiveNow(b: Behaviour, m: Link): Result<seq<Element>, MeterError> {
    match TroubleNow(b, m, GetActive)
    case Some(e) => Err(e)
    case None =>
      match RL.ActiveList(b.active(|m.log|, m.setting))
      case Ok(es) => Ok(es)
      case Err(c) => Err(ParseFault(c))
  }

  /** What ReadScheme or ReadActiveDB gives: data of fewer than three octets is an error. */
  function NumberNow(b: Behaviour, m: Link, q: Query): Result<nat, MeterError> {
    match TroubleNow(b, m, GetNumbers(q))
    case Some(e) => Err(e)
    case None =>
      var answer := b.numbers(|m.log|, m.setting, q);
      if |answer| < 3 then Err(ShortAnswer) else Ok(Value(answer[0]))
  }

  // ---- The log -----------------------------------------------------------------------------

  /** Each command met the setting that the one before it left. */
  ghost predicate Continuous(m: Link) {
    && (forall j, k :: 0 <= j < k < |m.log| && k == j + 1 ==> m.log[k].before == SettingAfter(m.log[j]))
    && (m.log != [] ==> m.setting == SettingAfter(m.log[|m.log| - 1]))
  }

  lemma IssueContinuous(b: Behaviour, m: Link, c: Command)
    requires Continuous(m)
    ensures Continuous(Issue(b, m, c))
  {}

  class Meter {
    const behaviour: Behaviour
    var setting: Setting
    var served: nat
    ghost var log: seq<Event>

    ghost predicate Valid()
      reads this
    {
      served == |log| && Continuous(Now())
    }

    ghost function Now(): Link
      reads this
    {
      Link(setting, log)
    }

    constructor (behaviour: Behaviour, setting: Setting)
      ensures this.behaviour == behaviour && Valid() && Now() == Link(setting, [])
    {
      this.behaviour, this.setting, served, log := behaviour, setting, 0, [];
    }

    /** A write command: the setting becomes the wanted one if it took effect. */
    method Write(c: Command) returns (fault: Option<MeterError>)
      requires Valid()
      modifies this
      ensures Valid() && Now() == Issue(behaviour, old(Now()), c)
      ensures fault == TroubleNow(behaviour, old(Now()), c)
    {
      var fate := behaviour.fate(served, setting, c);
      fault := Trouble(c, fate);
      log := log + [Event(setting, c, fate)];
      served := served + 1;
      if TakesEffect(fate) {
        setting := Wanted(setting, c);
      }
    }

    method SetType(typ: int) returns (fault: Option<MeterError>)
      requires Valid()
      modifies this
      ensures Valid() && Now() == Issue(behaviour, old(Now()), PutType(typ))
      ensures fault == TroubleNow(behaviour, old(Now()), PutType(typ))
    {
      fault := Write(PutType(typ));
    }

    /** A list of more than 42 entries does not fit the request and is not sent. */
    method SetReadList(list: seq<Element>) returns (fault: Option<MeterError>)
      requires Valid()
      modifies this
      ensures Valid()
      ensures |list| > 42 ==> fault == Some(ListFault) && Now() == old(Now())
      ensures |list| <= 42 ==>
                fault == TroubleNow(behaviour, old(Now()), PutList(list)) &&
                Now() == Issue(behaviour, old(Now()), PutList(list))
    {
      if |list| > 42 {
        return Some(ListFault);
      }
      fault := Write(PutList(list));
    }

    method SetDate(date: Stamp) returns (fault: Option<MeterError>)
      requires Valid()
      modifies this
      ensures Valid() && Now() == Issue(behaviour, old(Now()), PutDate(date))
      ensures fault == TroubleNow(behaviour, old(Now()), PutDate(date))
    {
      fault := Write(PutDate(date));
    }

    /** ReadData: the meter answers for its present setting. */
    method ReadData() returns (r: Result<seq<byte>, MeterError>)
      requires Valid()
      modifies this
      ensures Valid() && Now() == Issue(behaviour, old(Now()), GetData)
      ensures r == ReplyTo(behaviour, |old(Now()).log|, old(Now()).setting)
    {
      var trouble, data := Trouble(GetData, behaviour.fate(served, setting, GetData)), behaviour.data(served, setting);
      r := if trouble.Some? then Err(trouble.value) else Ok(data);
      var fault := Write(GetData);
    }

    method ActiveElements() returns (r: Result<seq<Element>, MeterError>)
      requires Valid()
      modifies this
      ensures Valid() && Now() == Issue(behaviour, old(Now()), GetActive)
      ensures r == ActiveNow(behaviour, old(Now()))
    {
      var answer := behaviour.active(served, setting);
      var fault := Write(GetActive);
      if fault.Some? {
        return Err(fault.value);
      }
      var decoded := RL.DecodeActiveList(answer);
      r := if decoded.Ok? then Ok(decoded.value) else Err(ParseFault(decoded.error));
    }

    /** ReadScheme and ReadActiveDB. */
    method ReadNumber(query: Query) returns (r: Result<nat, MeterError>)
      requires Valid()
      modifies this
      ensures Valid() && Now() == Issue(behaviour, old(Now()), GetNumbers(query))
      ensures r == NumberNow(behaviour, old(Now()), query)
    {
      var answer := behaviour.numbers(served, setting, query);
      var fault := Write(GetNumbers(query));
      if fault.Some? {
        return Err(fault.value);
      }
      r := if |answer| < 3 then Err(ShortAnswer) else Ok(Value(answer[0]));
    }
  }
}
