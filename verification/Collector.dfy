// collectArchive: a session against a meter and a table. What a session does is a function of the
// meter, the table and what surrounds it; the methods do what the functions say.

module Collector {
  import opened Bytes
  import opened Calendar
  import opened Marks
  import opened Meter
  import opened Elements
  import RL = ReadLists
  import opened ArchiveRecord
  import A = Archive

  datatype Row = Row(values: Record, meta: Meta)

  class Store {
    var rows: map<Time, Row>

    /** An empty table. */
    constructor ()
      ensures rows == map[]
    {
      rows := map[];
    }

    /** SaveArchive: an upsert under the key of the mark. */
    method SaveArchive(typ: int, t: Time, row: Row, saving: A.Saving) returns (ok: bool)
      modifies this
      ensures ok <==> saving.Saved?
      ensures rows == if saving.FailedUnwritten? then old(rows) else old(rows)[Key(t, typ) := row]
    {
      if !saving.FailedUnwritten? {
        rows := rows[Key(t, typ) := row];
      }
      ok := saving.Saved?;
    }

    /** Last: the greatest key, if there is any row. */
    method Last() returns (t: Option<Time>)
      ensures rows == map[] ==> t == None
      ensures rows != map[] ==> t == Some(A.Last(rows))
    {
      t := None;
      var keys := rows.Keys;
      while keys != {}
        invariant keys <= rows.Keys
        invariant t.Some? ==> t.value in rows
        invariant forall k :: k in rows && k !in keys ==> t.Some? && k <= t.value
        decreases keys
      {
        assert (forall x :: x !in keys) ==> keys == {};
        var k: Time :| k in keys;
        if t == None || k > t.value {
          t := Some(k);
        }
        keys := keys - {k};
      }
      if t.Some? {
        assert A.IsLast(rows, t.value);
      } else {
        assert forall k :: k !in rows.Keys;
        assert rows == map[];
      }
    }
  }

  /** What surrounds a session: time, cancellation, the database, the reported range. */
  datatype Surroundings = Surroundings(
    clock: nat -> Time,
    cancelled: nat -> bool,
    saving: nat -> A.Saving,
    lastKnown: bool,
    range: Option<seq<byte>>,
    openedAt: Time)

  // ---- Before the loop ---------------------------------------------------------------------

  /** The type, the active list, the selection and the read list; None if one of them fails. */
  function Preparing(b: Behaviour, m: Link, typ: int): (Option<(seq<Element>, seq<Element>)>, Link) {
    var m1 := Issue(b, m, PutType(typ));
    if TroubleNow(b, m, PutType(typ)).Some? then (None, m1)
    else
      var m2 := Issue(b, m1, GetActive);
      match ActiveNow(b, m1)
      case Err(_) => (None, m2)
      case Ok(active) =>
        var list := RL.Select(active, typ);
        if list == [] then (None, m2)
        else
          var (fault, m3) := Listing(b, m2, list);
          (if fault.Some? then None else Some((active, list)), m3)
  }

  method Prepare(m: Meter, typ: int) returns (r: Option<(seq<Element>, seq<Element>)>)
    requires m.Valid()
    modifies m
    ensures m.Valid() && (r, m.Now()) == Preparing(m.behaviour, old(m.Now()), typ)
  {
    hide Meter.Valid, Issue, TroubleNow, ActiveNow, RL.Select;
    var fault := m.SetType(typ);
    if fault.Some? {
      return None;
    }
    var active := m.ActiveElements();
    if active.Err? {
      return None;
    }
    var es := RL.Filter(active.value, typ);
    if es == [] {
      return None;
    }
    fault := m.SetReadList(es);
    if fault.Some? {
      return None;
    }
    r := Some((active.value, es));
  }

  /** The first cursor of a session. */
  method FirstMark(store: Store, typ: int, reportDay: int, overlap: int, around: Surroundings, ghost s: A.Session<Row>)
    returns (start: Option<Time>)
    requires s.prepared == around.lastKnown && s.range == around.range && s.openedAt == around.openedAt
    requires s.reportDay == reportDay && s.overlap == overlap
    ensures start == A.Start(store.rows, s, typ)
  {
    if !around.lastKnown {
      return None;
    }
    var last := store.Last();
    if last.None? {
      start := match around.range
      case None => None
      case Some(d) => Some(ParseStart(d, typ, reportDay, around.openedAt));
    } else {
      start := Some(Overlapped(Next(last.value, typ, reportDay), typ, overlap));
    }
  }

  // ---- The loop ----------------------------------------------------------------------------

  /** Where a session stands between two turns. */
  datatype Standing = Standing(
    link: Link,
    rows: map<Time, Row>,
    cursor: Time,
    left: nat,
    active: seq<Element>,
    list: seq<Element>,
    meta: Meta,
    stopped: bool)

  predicate Running(p: Standing) {
    !p.stopped && p.left > 0
  }

  /** What reading the record of the present mark gives. */
  function RecordNow(b: Behaviour, p: Standing, typ: int): (Result<Outcome, MeterError>, Link) {
    Recording(b, p.link, typ, DateStamp(p.cursor, typ), p.list, p.active, p.meta, ATTEMPTS)
  }

  function Saved(rows: map<Time, Row>, t: Time, typ: int, row: Row, saving: A.Saving): map<Time, Row> {
    if saving.FailedUnwritten? then rows else rows[Key(t, typ) := row]
  }

  /** One turn of the loop. */
  function Proceed(b: Behaviour, p: Standing, typ: int, reportDay: int, now: Time, cancelled: bool,
                   saving: A.Saving): Standing
  {
    if !Running(p) then p
    else if cancelled || !Due(p.cursor, typ, now) then p.(stopped := true)
    else
      var next := Next(p.cursor, typ, reportDay);
      var (r, m) := RecordNow(b, p, typ);
      match r
      case Err(e) =>
        if IsException(e, DATE_MISSING) && next > p.cursor then p.(link := m, cursor := next)
        else p.(link := m, stopped := true)
      case Ok(o) =>
        var rows := Saved(p.rows, p.cursor, typ, Row(o.values, o.meta), saving);
        if saving.Saved? then
          Standing(m, rows, next, p.left - 1, o.active, RL.Select(o.active, typ), o.meta, false)
        else p.(link := m, rows := rows, meta := o.meta, stopped := true)
  }

  /** Where a session stands after k turns. */
  function Stand(b: Behaviour, p: Standing, typ: int, reportDay: int, around: Surroundings, k: nat): Standing {
    if k == 0 then p
    else
      Proceed(b, Stand(b, p, typ, reportDay, around, k - 1), typ, reportDay, around.clock(k - 1),
              around.cancelled(k - 1), around.saving(k - 1))
  }

  datatype Turned = Stop(meta: Meta) | Missed | Kept(active: seq<Element>, meta: Meta)

  /** One turn of the loop, from the standing p. */
  method TakeTurn(m: Meter, store: Store, typ: int, reportDay: int, cursor: Time, active: seq<Element>,
                  es: seq<Element>, meta: Meta, now: Time, cancelled: bool, saving: A.Saving, ghost p: Standing)
    returns (r: Turned)
    requires m.Valid() && Running(p)
    requires p == Standing(m.Now(), store.rows, cursor, p.left, active, es, meta, false)
    modifies m, store
    ensures m.Valid()
    ensures
      var n := Proceed(m.behaviour, p, typ, reportDay, now, cancelled, saving);
      m.Now() == n.link && store.rows == n.rows &&
      match r
      case Stop(newMeta) => n.stopped && n.meta == newMeta
      case Missed => Due(cursor, typ, now) && n == p.(link := n.link, cursor := Next(cursor, typ, reportDay))
      case Kept(newActive, newMeta) =>
        Due(cursor, typ, now) &&
        n == Standing(n.link, n.rows, Next(cursor, typ, reportDay), p.left - 1, newActive, RL.Select(newActive, typ),
                      newMeta, false)
  {
    hide Meter.Valid, Next, Due, Key, DateStamp, RL.Select, Recording;
    if cancelled || !Due(cursor, typ, now) {
      return Stop(meta);
    }
    var answer := ReadArchiveRecord(m, typ, cursor, es, active, meta);
    if answer.Err? {
      if IsException(answer.error, DATE_MISSING) {
        var next := Next(cursor, typ, reportDay);
        return if next <= cursor then Stop(meta) else Missed;
      }
      return Stop(meta);
    }
    var o := answer.value;
    var ok := store.SaveArchive(typ, cursor, Row(o.values, o.meta), saving);
    r := if ok then Kept(o.active, o.meta) else Stop(o.meta);
  }

  // ---- The session -------------------------------------------------------------------------

  /** A session of the machine with these turns. */
  function SessionWith(prepared: bool, around: Surroundings, reportDay: int, overlap: int, batch: int,
                       script: seq<A.Turn<Row>>): A.Session<Row> {
    A.Session.Session(prepared, around.range, around.openedAt, reportDay, overlap, batch, script)
  }

  /** Where the loop of a session begins, if the session gets as far. */
  ghost function Begun(b: Behaviour, m: Link, rows: map<Time, Row>, typ: int, batch: int, reportDay: int, overlap: int,
                       meta: Meta, around: Surroundings): Option<Standing>
  {
    var (lists, m1) := Preparing(b, m, typ);
    var start := A.Start(rows, SessionWith(around.lastKnown, around, reportDay, overlap, batch, []), typ);
    if lists.None? || start.None? then None
    else Some(Standing(m1, rows, start.value, A.Limit(batch), lists.value.0, lists.value.1, meta, false))
  }

  /**
   * collectArchive. The loop comes to its end after some number of turns, although it counts
   * backwards, and meter, table and metadata are then as the session says.
   */
  method CollectArchive(m: Meter, store: Store, typ: int, batch: int, reportDay: int, overlap: int, meta: Meta,
                        around: Surroundings, ghost bound: Time)
    returns (ghost turns: nat, lastMeta: Meta)
    requires m.Valid() && forall k: nat :: around.clock(k) <= bound
    modifies m, store
    ensures m.Valid()
    ensures
      match Begun(m.behaviour, old(m.Now()), old(store.rows), typ, batch, reportDay, overlap, meta, around)
      case None =>
        m.Now() == Preparing(m.behaviour, old(m.Now()), typ).1 && store.rows == old(store.rows) && lastMeta == meta
      case Some(p) =>
        var end := Stand(m.behaviour, p, typ, reportDay, around, turns);
        !Running(end) && m.Now() == end.link && store.rows == end.rows && lastMeta == end.meta
  {
    hide Meter.Valid, RL.Select, Next, Due, Proceed, Overlapped, A.Start, Preparing;
    turns, lastMeta := 0, meta;
    var prepared := Prepare(m, typ);
    if prepared.None? {
      return;
    }
    var (active, es) := prepared.value;
    var start := FirstMark(store, typ, reportDay, overlap, around,
                           SessionWith(around.lastKnown, around, reportDay, overlap, batch, []));
    if start.None? {
      return;
    }
    var limit := if batch <= 0 then 1 else batch;
    var cursor, i, turn, stopped := start.value, 0, 0, false;
    ghost var p := Standing(m.Now(), store.rows, cursor, A.Limit(batch), active, es, meta, false);
    ghost var now := p;
    while i < limit && !stopped
      invariant 0 <= i <= limit && m.Valid() && turn == turns
      invariant now == Stand(m.behaviour, p, typ, reportDay, around, turns)
      invariant now.link == m.Now() && now.rows == store.rows && now.meta == lastMeta && now.stopped == stopped
      invariant !stopped ==> now == Standing(m.Now(), store.rows, cursor, limit - i, active, es, lastMeta, false)
      decreases !stopped, if bound < cursor then 0 else bound - cursor + 1
    {
      var time := around.clock(turn);
      var result := TakeTurn(m, store, typ, reportDay, cursor, active, es, lastMeta, time, around.cancelled(turn),
                             around.saving(turn), now);
      now := Proceed(m.behaviour, now, typ, reportDay, time, around.cancelled(turn), around.saving(turn));
      turn, turns := turn + 1, turns + 1;
      match result {
        case Stop(newMeta) =>
          stopped, lastMeta := true, newMeta;
        case Missed =>
          i := i - 1;
        case Kept(newActive, newMeta) =>
          active, lastMeta := newActive, newMeta;
          es := RL.Filter(active, typ);
      }
      if !stopped {
        NextLater(cursor, typ, reportDay);
        DueIsOver(cursor, typ, time);
        cursor := Next(cursor, typ, reportDay);
        i := i + 1;
      }
    }
  }
}
