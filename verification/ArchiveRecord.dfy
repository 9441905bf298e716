// readArchiveRecord: one archive record, read in chunks, with one retry after a scheme change. What
// the client does is a function of the meter behind the link; the methods do what the functions say.

module ArchiveRecord {
  import opened Bytes
  import opened Elements
  import opened ReadLists
  import opened Marks
  import opened Meter
  import opened ValueTypes
  import Calendar

  /** Scheme numbers and active database that are stored with a record. */
  datatype Meta = Meta(schemeTV1: Option<nat>, schemeTV2: Option<nat>, activeDB: Option<nat>)

  // ---- One chunk ---------------------------------------------------------------------------

  /** What writing a read list gives, and the link afterwards. */
  function Listing(b: Behaviour, m: Link, list: seq<Element>): (Option<MeterError>, Link) {
    if |list| > 42 then (Some(ListFault), m)
    else (TroubleNow(b, m, PutList(list)), Issue(b, m, PutList(list)))
  }

  /** List, date and data for one chunk. */
  function ReadingOne(b: Behaviour, m: Link, date: Stamp, chunk: seq<Element>): (Result<seq<byte>, MeterError>, Link) {
    var (fault, m1) := Listing(b, m, chunk);
    if fault.Some? then (Err(fault.value), m1)
    else
      var m2 := Issue(b, m1, PutDate(date));
      match TroubleNow(b, m1, PutDate(date))
      case Some(e) => (Err(e), m2)
      case None => (ReplyTo(b, |m2.log|, m2.setting), Issue(b, m2, GetData))
  }

  method ReadChunk(m: Meter, date: Stamp, chunk: seq<Element>) returns (r: Result<seq<byte>, MeterError>)
    requires m.Valid()
    modifies m
    ensures m.Valid() && (r, m.Now()) == ReadingOne(m.behaviour, old(m.Now()), date, chunk)
  {
    hide Meter.Valid, Issue, TroubleNow, ReplyTo;
    var fault := m.SetReadList(chunk);
    if fault.Some? {
      return Err(fault.value);
    }
    fault := m.SetDate(date);
    if fault.Some? {
      return Err(fault.value);
    }
    r := m.ReadData();
  }

  // ---- One attempt -------------------------------------------------------------------------

  datatype Attempt = Complete(values: Record) | SchemeChange | Failed(error: MeterError)

  /** The chunks that are left, with the values read so far. */
  function ReadingAll(b: Behaviour, m: Link, date: Stamp, chunks: seq<seq<Element>>, values: Record): (Attempt, Link)
    decreases |chunks|
  {
    if chunks == [] then (Complete(values), m)
    else
      var (data, m1) := ReadingOne(b, m, date, chunks[0]);
      match data
      case Err(e) => (if IsException(e, SCHEME_CHANGED) then SchemeChange else Failed(e), m1)
      case Ok(d) =>
        match Parse(chunks[0], d)
        case Err(c) => (Failed(ParseFault(c)), m1)
        case Ok(v) => ReadingAll(b, m1, date, chunks[1..], values + v)
  }

  /** The loop over chunks: list, date and data for each, the date again every time. */
  method ReadChunks(m: Meter, date: Stamp, chunks: seq<seq<Element>>) returns (a: Attempt)
    requires m.Valid()
    modifies m
    ensures m.Valid() && (a, m.Now()) == ReadingAll(m.behaviour, old(m.Now()), date, chunks, map[])
  {
    hide Meter.Valid, ReadingOne, Parse;
    var values: Record := map[];
    for k := 0 to |chunks|
      invariant m.Valid()
      invariant ReadingAll(m.behaviour, m.Now(), date, chunks[k..], values) ==
                ReadingAll(m.behaviour, old(m.Now()), date, chunks, map[])
    {
      assert chunks[k..][1..] == chunks[k + 1..];
      var data := ReadChunk(m, date, chunks[k]);
      if data.Err? {
        return if IsException(data.error, SCHEME_CHANGED) then SchemeChange else Failed(data.error);
      }
      var parsed := ParseElements(chunks[k], data.value);
      if parsed.Err? {
        return Failed(ParseFault(parsed.error));
      }
      values := values + parsed.value;
    }
    a := Complete(values);
  }

  /** One attempt at the whole list. */
  function Attempting(b: Behaviour, m: Link, date: Stamp, list: seq<Element>): (Attempt, Link) {
    if Split(list) == [] then (Failed(NothingToRead), m) else ReadingAll(b, m, date, Split(list), map[])
  }

  method TryOnce(m: Meter, date: Stamp, list: seq<Element>) returns (a: Attempt)
    requires m.Valid()
    modifies m
    ensures m.Valid() && (a, m.Now()) == Attempting(m.behaviour, old(m.Now()), date, list)
  {
    hide Meter.Valid, Split, ReadingAll;
    var chunks := SplitArchiveReadList(list);
    if |chunks| == 0 {
      return Failed(NothingToRead);
    }
    a := ReadChunks(m, date, chunks);
  }

  // ---- After a scheme change ---------------------------------------------------------------

  datatype Refreshed = Refreshed(active: seq<Element>, list: seq<Element>, meta: Meta)

  /** The three diagnostic reads. */
  function Numbering(b: Behaviour, m: Link): (Result<Meta, MeterError>, Link) {
    var m1 := Issue(b, m, GetNumbers(SchemeTV1));
    var m2 := Issue(b, m1, GetNumbers(SchemeTV2));
    var m3 := Issue(b, m2, GetNumbers(ActiveDB));
    match NumberNow(b, m, SchemeTV1)
    case Err(e) => (Err(e), m1)
    case Ok(s1) =>
      match NumberNow(b, m1, SchemeTV2)
      case Err(e) => (Err(e), m2)
      case Ok(s2) =>
        match NumberNow(b, m2, ActiveDB)
        case Err(e) => (Err(e), m3)
        case Ok(db) => (Ok(Meta(Some(s1), Some(s2), Some(db))), m3)
  }

  method ReadNumbers(m: Meter) returns (r: Result<Meta, MeterError>)
    requires m.Valid()
    modifies m
    ensures m.Valid() && (r, m.Now()) == Numbering(m.behaviour, old(m.Now()))
  {
    hide Meter.Valid, Issue, NumberNow;
    var s1 := m.ReadNumber(SchemeTV1);
    if s1.Err? {
      return Err(s1.error);
    }
    var s2 := m.ReadNumber(SchemeTV2);
    if s2.Err? {
      return Err(s2.error);
    }
    var db := m.ReadNumber(ActiveDB);
    if db.Err? {
      return Err(db.error);
    }
    r := Ok(Meta(Some(s1.value), Some(s2.value), Some(db.value)));
  }

  /** The numbers under the type for current values, then the archive type and the new list again. */
  function Restoring(b: Behaviour, m: Link, typ: int, list: seq<Element>): (Result<Meta, MeterError>, Link) {
    var m1 := Issue(b, m, PutType(CURRENT));
    match TroubleNow(b, m, PutType(CURRENT))
    case Some(e) => (Err(e), m1)
    case None =>
      var (numbers, m2) := Numbering(b, m1);
      if numbers.Err? then (numbers, m2)
      else
        var m3 := Issue(b, m2, PutType(typ));
        match TroubleNow(b, m2, PutType(typ))
        case Some(e) => (Err(e), m3)
        case None =>
          var (fault, m4) := Listing(b, m3, list);
          (if fault.Some? then Err(fault.value) else numbers, m4)
  }

  method Restore(m: Meter, typ: int, list: seq<Element>) returns (r: Result<Meta, MeterError>)
    requires m.Valid()
    modifies m
    ensures m.Valid() && (r, m.Now()) == Restoring(m.behaviour, old(m.Now()), typ, list)
  {
    hide Meter.Valid, Issue, TroubleNow, Numbering;
    var fault := m.SetType(CURRENT);
    if fault.Some? {
      return Err(fault.value);
    }
    r := ReadNumbers(m);
    if r.Err? {
      return;
    }
    fault := m.SetType(typ);
    if fault.Some? {
      return Err(fault.value);
    }
    fault := m.SetReadList(list);
    if fault.Some? {
      return Err(fault.value);
    }
  }

  /** The new active list and scheme numbers, with the archive type restored at the end. */
  function Refreshing(b: Behaviour, m: Link, typ: int): (Result<Refreshed, MeterError>, Link) {
    var m1 := Issue(b, m, GetActive);
    match ActiveNow(b, m)
    case Err(e) => (Err(e), m1)
    case Ok(active) =>
      var list := Select(active, typ);
      if list == [] then (Err(NothingToRead), m1)
      else
        var (meta, m2) := Restoring(b, m1, typ, list);
        (if meta.Err? then Err(meta.error) else Ok(Refreshed(active, list, meta.value)), m2)
  }

  method Refresh(m: Meter, typ: int) returns (r: Result<Refreshed, MeterError>)
    requires m.Valid()
    modifies m
    ensures m.Valid() && (r, m.Now()) == Refreshing(m.behaviour, old(m.Now()), typ)
  {
    hide Meter.Valid, Issue, ActiveNow, Select, Restoring;
    var active := m.ActiveElements();
    if active.Err? {
      return Err(active.error);
    }
    var list := Filter(active.value, typ);
    if list == [] {
      return Err(NothingToRead);
    }
    var meta := Restore(m, typ, list);
    r := if meta.Err? then Err(meta.error) else Ok(Refreshed(active.value, list, meta.value));
  }

  // ---- The record --------------------------------------------------------------------------

  datatype Outcome = Outcome(values: Record, active: seq<Element>, meta: Meta)

  const ATTEMPTS := 2

  /** With this many attempts left: read, and after a scheme change refresh and try again. */
  function Recording(b: Behaviour, m: Link, typ: int, date: Stamp, list: seq<Element>, active: seq<Element>, meta: Meta,
                     attempts: nat): (Result<Outcome, MeterError>, Link)
    decreases attempts
  {
    if attempts == 0 then (Err(Exception(SCHEME_CHANGED)), m)
    else
      var (a, m1) := Attempting(b, m, date, list);
      match a
      case Complete(values) => (Ok(Outcome(values, active, meta)), m1)
      case Failed(e) => (Err(e), m1)
      case SchemeChange =>
        var (r, m2) := Refreshing(b, m1, typ);
        match r
        case Err(e) => (Err(e), m2)
        case Ok(f) => Recording(b, m2, typ, date, f.list, f.active, f.meta, attempts - 1)
  }

  method ReadArchiveRecord(m: Meter, typ: int, when: Calendar.Time, es: seq<Element>, active: seq<Element>, meta: Meta)
    returns (r: Result<Outcome, MeterError>)
    requires m.Valid()
    modifies m
    ensures m.Valid()
    ensures (r, m.Now()) ==
            Recording(m.behaviour, old(m.Now()), typ, DateStamp(when, typ), es, active, meta, ATTEMPTS)
  {
    hide Meter.Valid, Attempting, Refreshing, DateStamp;
    var date := DateStamp(when, typ);
    var nowActive, nowMeta, nowList := active, meta, es;
    for attempt := 0 to ATTEMPTS
      invariant m.Valid()
      invariant Recording(m.behaviour, m.Now(), typ, date, nowList, nowActive, nowMeta, ATTEMPTS - attempt) ==
                Recording(m.behaviour, old(m.Now()), typ, date, es, active, meta, ATTEMPTS)
    {
      var a := TryOnce(m, date, nowList);
      match a {
        case Failed(error) =>
          return Err(error);
        case Complete(values) =>
          return Ok(Outcome(values, nowActive, nowMeta));
        case SchemeChange =>
      }
      var renewed := Refresh(m, typ);
      if renewed.Err? {
        return Err(renewed.error);
      }
      nowActive, nowMeta, nowList := renewed.value.active, renewed.value.meta, renewed.value.list;
    }
    r := Err(Exception(SCHEME_CHANGED));
  }
}
