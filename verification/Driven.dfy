// Sessions against a steady meter: the collector and its meter together do what Batches says of a
// device, so many short sessions leave what one long session would.

module Driven {
  import opened Bytes
  import opened Calendar
  import opened ValueTypes
  import opened Marks
  import opened Meter
  import opened Elements
  import opened Chunks
  import opened ArchiveRecord
  import opened Collector
  import opened SessionLaws
  import RecordLaws
  import RL = ReadLists
  import A = Archive
  import B = Batches

  /** The records that a meter holds, by type and date. */
  type Holding = (int, Stamp) -> bool

  predicate Missing(s: Setting, c: Command, holds: Holding) {
    c.GetData? && s.date.Some? && !holds(s.typ, s.date.value)
  }

  /**
   * A meter that never changes: it refuses only to read a record that it does not hold, with
   * exception 3, and answers for the others from one archive.
   */
  ghost predicate Steady(b: Behaviour, archive: Archive, holds: Holding, active: Payload) {
    && ExactWidths(archive)
    && (forall n, s, c :: b.fate(n, s, c) == if Missing(s, c, holds) then Refused(DATE_MISSING, false) else Accepted)
    && (forall n, s: Setting :: s.date.Some? ==> b.data(n, s) == Stream(Held(archive, s.typ, s.date.value, s.list)))
    && (forall n, s :: b.active(n, s) == active)
  }

  /** Such meters exist, for every archive, holding and active list. */
  function SteadyBehaviour(archive: Archive, holds: Holding, active: Payload): Behaviour {
    Behaviour(
      (n: nat, s: Setting, c: Command) => if Missing(s, c, holds) then Refused(DATE_MISSING, false) else Accepted,
      (n: nat, s: Setting) => if s.date.Some? then Stream(Held(archive, s.typ, s.date.value, s.list)) else [],
      (n: nat, s: Setting) => active,
      (n: nat, s: Setting, q: Query) => [])
  }

  lemma SteadyExists(archive: Archive, holds: Holding, active: Payload)
    requires ExactWidths(archive)
    ensures Steady(SteadyBehaviour(archive, holds, active), archive, holds, active)
  {
    hide ExactWidths, Stream, Held;
  }

  /** What such a meter amounts to for a session that goes by this read list and metadata. */
  function DeviceOf(archive: Archive, holds: Holding, list: seq<Element>, meta: Meta, typ: int): B.Device<Row> {
    (k: Time) => Answering(archive, holds, list, meta, typ, DateStamp(k, typ))
  }

  function Answering(archive: Archive, holds: Holding, list: seq<Element>, meta: Meta, typ: int, date: Stamp)
    : A.Answer<Row>
  {
    if !holds(typ, date) then A.NoRecord
    else match Parse(list, Stream(Held(archive, typ, date, list)))
      case Ok(values) => A.Got(Row(values, meta))
      case Err(_) => A.Fault
  }

  // ---- One record of a steady meter --------------------------------------------------------

  /** A chunk is read as the meter holds it. */
  lemma SteadyOne(b: Behaviour, archive: Archive, holds: Holding, active: Payload, m: Link, date: Stamp,
                  chunk: seq<Element>)
    requires Steady(b, archive, holds, active) && |chunk| <= 42
    ensures
      var (r, m1) := ReadingOne(b, m, date, chunk);
      m1.setting == Setting(m.setting.typ, chunk, Some(date)) &&
      r == if holds(m.setting.typ, date) then Ok(Stream(Held(archive, m.setting.typ, date, chunk)))
           else Err(Exception(DATE_MISSING))
  {
    hide ExactWidths, Stream, Held;
  }

  /** What a steady meter sends for each chunk. */
  function Datas(archive: Archive, typ: int, date: Stamp, chunks: seq<seq<Element>>): (r: seq<seq<byte>>)
    ensures |r| == |chunks|
    ensures forall k :: 0 <= k < |chunks| ==> r[k] == Stream(Held(archive, typ, date, chunks[k]))
  {
    seq(|chunks|, k requires 0 <= k < |chunks| => Stream(Held(archive, typ, date, chunks[k])))
  }

  /** Chunks of a held record come to their merge, or to data that do not parse. */
  lemma {:induction false} SteadyAll(b: Behaviour, archive: Archive, holds: Holding, active: Payload, m: Link,
                                     date: Stamp, chunks: seq<seq<Element>>)
    requires Steady(b, archive, holds, active) && forall c :: c in chunks ==> |c| <= 42
    requires holds(m.setting.typ, date)
    ensures
      var a := ReadingAll(b, m, date, chunks, map[]).0;
      match Merged(chunks, Datas(archive, m.setting.typ, date, chunks))
      case Some(values) => a == Complete(values)
      case None => a.Failed? && a.error.ParseFault?
    decreases |chunks|
  {
    hide Steady, ReadingOne, Parse, Merged, Datas;
    var typ, datas := m.setting.typ, Datas(archive, m.setting.typ, date, chunks);
    NothingMerged();
    DatasFirst(archive, typ, date, chunks);
    if chunks != [] {
      SteadyOne(b, archive, holds, active, m, date, chunks[0]);
      var m1 := ReadingOne(b, m, date, chunks[0]).1;
      hide Stream, Held;
      MergedFirst(chunks[0], datas[0], chunks[1..], datas[1..]);
      if Parse(chunks[0], datas[0]).Ok? {
        var v := Parse(chunks[0], datas[0]).value;
        SteadyAll(b, archive, holds, active, m1, date, chunks[1..]);
        RecordLaws.ReadingOnto(b, m1, date, chunks[1..], map[] + v);
        assert map[] + v == v;
      }
    }
  }

  lemma DatasFirst(archive: Archive, typ: int, date: Stamp, chunks: seq<seq<Element>>)
    ensures chunks == [] ==> Datas(archive, typ, date, chunks) == []
    ensures chunks != [] ==>
              var datas := Datas(archive, typ, date, chunks);
              datas[0] == Stream(Held(archive, typ, date, chunks[0])) && chunks == [chunks[0]] + chunks[1..] &&
              datas == [datas[0]] + datas[1..] && datas[1..] == Datas(archive, typ, date, chunks[1..])
  {
    hide Stream, Held;
  }

  /** The record of a date is what the device answers, and reading it leaves the type as it was. */
  lemma SteadyRecord(b: Behaviour, archive: Archive, holds: Holding, active: Payload, p: Standing, typ: int)
    requires Steady(b, archive, holds, active) && p.link.setting.typ == typ && p.list != []
    ensures
      var (r, m1) := RecordNow(b, p, typ);
      && m1.setting.typ == typ && (r.Ok? ==> r.value.active == p.active && r.value.meta == p.meta)
      && AnswerOf(r) == Answering(archive, holds, p.list, p.meta, typ, DateStamp(p.cursor, typ))
  {
    var date := DateStamp(p.cursor, typ);
    hide DateStamp, RL.Split, Steady, Parse, Stream, Held, Attempting;
    SteadyAttempt(b, archive, holds, active, p.link, date, p.list);
  }

  lemma SteadyAttempt(b: Behaviour, archive: Archive, holds: Holding, active: Payload, m: Link, date: Stamp,
                      list: seq<Element>)
    requires Steady(b, archive, holds, active) && list != []
    ensures
      var (a, m1) := Attempting(b, m, date, list);
      m1.setting.typ == m.setting.typ &&
      if !holds(m.setting.typ, date) then a == Failed(Exception(DATE_MISSING))
      else match Parse(list, Stream(Held(archive, m.setting.typ, date, list)))
        case Ok(values) => a == Complete(values)
        case Err(_) => a.Failed? && a.error.ParseFault?
  {
    var chunks := RL.Split(list);
    SplitIntoShort(list);
    hide RL.Split, Steady, Parse, Stream, Held, ReadingOne, Merged, Datas;
    RecordLaws.AttemptLaw(b, m, date, list, m.setting.typ);
    hide RecordLaws.Attempted;
    SteadyOne(b, archive, holds, active, m, date, chunks[0]);
    if holds(m.setting.typ, date) {
      SteadyAll(b, archive, holds, active, m, date, chunks);
      SteadyWidths(b, archive, holds, active);
      SteadyWhole(archive, list, m.setting.typ, date);
    }
  }

  lemma SplitIntoShort(list: seq<Element>)
    requires list != []
    ensures RL.Split(list) != [] && forall c :: c in RL.Split(list) ==> |c| <= 42
  {
    RL.SplitIsSplit(list);
    forall c | c in RL.Split(list)
      ensures |c| <= 42
    {
      RL.ReadableIsShort(c);
    }
  }

  lemma SteadyWidths(b: Behaviour, archive: Archive, holds: Holding, active: Payload)
    requires Steady(b, archive, holds, active)
    ensures ExactWidths(archive)
  {}

  lemma SteadyWhole(archive: Archive, list: seq<Element>, typ: int, date: Stamp)
    requires ExactWidths(archive)
    ensures Merged(RL.Split(list), Datas(archive, typ, date, RL.Split(list))) ==
            match Parse(list, Stream(Held(archive, typ, date, list))) case Ok(m) => Some(m) case Err(_) => None
  {
    var chunks := RL.Split(list);
    hide ExactWidths, RL.Split, Parse, Stream, Held;
    var datas := Datas(archive, typ, date, chunks);
    forall k | 0 <= k < |chunks|
      ensures |datas[k]| == Elements.Total(chunks[k])
    {
      HeldWidth(archive, typ, date, chunks[k]);
    }
    ChunkedIsWhole(chunks, datas);
    RL.SplitIsSplit(list);
    StreamsConcat(archive, typ, date, chunks, datas);
  }

  // ---- A session is settled ----------------------------------------------------------------

  /** A turn at a mark, at a fixed time and undisturbed, that answers as the device. */
  ghost predicate TurnTrue(t: A.Turn<Row>, mark: Time, device: B.Device<Row>, now: Time, typ: int) {
    && t.now == now && !t.cancelled && t.saving.Saved?
    && (Due(mark, typ, now) ==> t.answer == device(Key(mark, typ)))
  }

  /** What is still to come of a session, or the table it has come to. */
  ghost function Outlook(l: A.Loop<Row>, device: B.Device<Row>, now: Time, typ: int, reportDay: int): map<Time, Row> {
    if l.stopped then l.table else B.Settled(device, now, typ, reportDay, l.cursor, l.left, l.table)
  }

  lemma TurnSettles(l: A.Loop<Row>, t: A.Turn<Row>, device: B.Device<Row>, now: Time, typ: int, reportDay: int)
    requires A.Running(l) ==> TurnTrue(t, l.cursor, device, now, typ)
    ensures Outlook(A.Advance(l, t, typ, reportDay), device, now, typ, reportDay) ==
            Outlook(l, device, now, typ, reportDay)
  {
    hide Next, Key, Due;
    NextLater(l.cursor, typ, reportDay);
  }

  /** While the loop runs, every turn is true to the device. */
  ghost predicate TurnsTrue(l: A.Loop<Row>, script: seq<A.Turn<Row>>, device: B.Device<Row>, now: Time, typ: int,
                            reportDay: int)
  {
    forall k :: 0 <= k < |script| ==>
      var m := A.Run(l, script[..k], typ, reportDay);
      A.Running(m) ==> TurnTrue(script[k], m.cursor, device, now, typ)
  }

  lemma {:induction false} TurnsSettle(l: A.Loop<Row>, script: seq<A.Turn<Row>>, device: B.Device<Row>, now: Time,
                                       typ: int, reportDay: int)
    requires TurnsTrue(l, script, device, now, typ, reportDay)
    ensures Outlook(A.Run(l, script, typ, reportDay), device, now, typ, reportDay) ==
            Outlook(l, device, now, typ, reportDay)
    decreases |script|
  {
    if script != [] {
      hide TurnTrue, Outlook, A.Advance;
      var init := script[..|script| - 1];
      assert forall k :: 0 <= k < |init| ==> init[..k] == script[..k];
      TurnsSettle(l, init, device, now, typ, reportDay);
      TurnSettles(A.Run(l, init, typ, reportDay), script[|script| - 1], device, now, typ, reportDay);
    }
  }

  // ---- The turns of a session against a steady meter ---------------------------------------

  /** Nothing around the session disturbs it, and the clock stands still. */
  predicate Calm(around: Surroundings, now: Time, k: nat) {
    forall j :: 0 <= j < k ==> around.clock(j) == now && !around.cancelled(j) && around.saving(j).Saved?
  }

  lemma StampOfKey(mark: Time, typ: int)
    requires Typed(typ)
    ensures DateStamp(Key(mark, typ), typ) == DateStamp(mark, typ)
  {
    KeyKeepsPeriod(mark, typ);
    hide Key, DateStamp, Period;
    SameKeySameStamp(Key(mark, typ), mark, typ);
  }

  /** What stays as it is while a session runs. */
  predicate Unmoved(p: Standing, q: Standing, typ: int) {
    q.meta == p.meta && (Running(q) ==> q.link.setting.typ == typ && q.list == p.list && q.active == p.active)
  }

  /** A turn answers as the device, and moves nothing but the cursor and the rows. */
  lemma SteadyTurn(b: Behaviour, archive: Archive, holds: Holding, active: Payload, p: Standing, q: Standing, typ: int,
                   reportDay: int, now: Time)
    requires Typed(typ) && Steady(b, archive, holds, active) && Unmoved(p, q, typ)
    requires p.list != [] && p.list == RL.Select(p.active, typ)
    ensures Unmoved(p, Proceed(b, q, typ, reportDay, now, false, A.Saved), typ)
    ensures Running(q) ==>
              TurnTrue(TurnOf(b, q, typ, now, false, A.Saved), q.cursor, DeviceOf(archive, holds, p.list, p.meta, typ),
                       now, typ)
  {
    hide Steady, Due, Key, DateStamp, Answering, RL.Select, Next, Recording, Saved;
    if Running(q) {
      StampOfKey(q.cursor, typ);
      SteadyRecord(b, archive, holds, active, q, typ);
    }
  }

  lemma {:induction false} SteadyStand(b: Behaviour, archive: Archive, holds: Holding, active: Payload, p: Standing,
                                       typ: int, reportDay: int, around: Surroundings, now: Time, k: nat)
    requires Typed(typ) && Steady(b, archive, holds, active) && Unmoved(p, p, typ) && Calm(around, now, k)
    requires p.list != [] && p.list == RL.Select(p.active, typ)
    ensures Unmoved(p, Stand(b, p, typ, reportDay, around, k), typ)
    decreases k
  {
    if k > 0 {
      hide Steady, Proceed, Unmoved, TurnTrue, RL.Select;
      SteadyStand(b, archive, holds, active, p, typ, reportDay, around, now, k - 1);
      SteadyTurn(b, archive, holds, active, p, Stand(b, p, typ, reportDay, around, k - 1), typ, reportDay, now);
    }
  }

  // ---- A session ---------------------------------------------------------------------------

  /** The list that every session with this meter goes by. */
  predicate ListGiven(active: Payload, es: seq<Element>, typ: int) {
    RL.ActiveList(active).Ok? && es == RL.Select(RL.ActiveList(active).value, typ) && es != []
  }

  lemma SteadyPrepared(b: Behaviour, archive: Archive, holds: Holding, active: Payload, m: Link, typ: int,
                       es: seq<Element>)
    requires Steady(b, archive, holds, active) && ListGiven(active, es, typ)
    ensures
      var (lists, m1) := Preparing(b, m, typ);
      lists == Some((RL.ActiveList(active).value, es)) && m1.setting.typ == typ
  {
    RL.ActiveListIsShort(active);
    hide ExactWidths, Stream, Held, RL.ActiveFrom, RL.Select;
  }

  /** A session without overlap against a steady meter does what Batches says of one session with its device. */
  lemma SteadySession(b: Behaviour, archive: Archive, holds: Holding, active: Payload, m: Link, db: A.Db<Row>, typ: int,
                      batch: int, reportDay: int, overlap: int, meta: Meta, around: Surroundings, now: Time, k: nat,
                      es: seq<Element>)
    requires Typed(typ) && Steady(b, archive, holds, active) && ListGiven(active, es, typ)
    requires around.lastKnown && around.range.Some? && overlap <= 0 && Calm(around, now, k)
    ensures Begun(b, m, db.table, typ, batch, reportDay, overlap, meta, around).Some?
    ensures
      var p := Begun(b, m, db.table, typ, batch, reportDay, overlap, meta, around).value;
      var end := Stand(b, p, typ, reportDay, around, k);
      !Running(end) ==>
        end.meta == meta &&
        end.rows == B.OneSession(DeviceOf(archive, holds, es, meta, typ), now, typ, reportDay,
                                 ParseStart(around.range.value, typ, reportDay, around.openedAt), batch, db.table)
  {
    hide Steady, ListGiven, Preparing, Stand, ParseStart, Next, Script, A.Run, DeviceOf, RL.ActiveList, RL.Select;
    hide TurnsTrue;
    SteadyPrepared(b, archive, holds, active, m, typ, es);
    GivenList(active, es, typ);
    var p := Begun(b, m, db.table, typ, batch, reportDay, overlap, meta, around).value;
    var device, l := DeviceOf(archive, holds, es, meta, typ), A.Loop(p.cursor, p.left, db.table, db.visits, false);
    SteadyStand(b, archive, holds, active, p, typ, reportDay, around, now, k);
    SteadyScript(b, archive, holds, active, p, l, typ, reportDay, around, now, k);
    TurnsSettle(l, Script(b, p, typ, reportDay, around, k), device, now, typ, reportDay);
    StandRuns(b, p, l, typ, reportDay, around, k);
  }

  lemma GivenList(active: Payload, es: seq<Element>, typ: int)
    requires ListGiven(active, es, typ)
    ensures es != [] && es == RL.Select(RL.ActiveList(active).value, typ)
  {}

  lemma SteadyScript(b: Behaviour, archive: Archive, holds: Holding, active: Payload, p: Standing, l: A.Loop<Row>,
                     typ: int, reportDay: int, around: Surroundings, now: Time, k: nat)
    requires Typed(typ) && Steady(b, archive, holds, active) && Unmoved(p, p, typ) && Calm(around, now, k)
    requires p.list != [] && p.list == RL.Select(p.active, typ) && InStep(l, p)
    ensures TurnsTrue(l, Script(b, p, typ, reportDay, around, k), DeviceOf(archive, holds, p.list, p.meta, typ), now,
                      typ, reportDay)
  {
    hide Steady, Unmoved, TurnTrue, DeviceOf, RL.Select, Stand, A.Run, TurnOf, Script;
    var script := Script(b, p, typ, reportDay, around, k);
    forall j | 0 <= j < k && A.Running(A.Run(l, script[..j], typ, reportDay))
      ensures TurnTrue(script[j], A.Run(l, script[..j], typ, reportDay).cursor,
                       DeviceOf(archive, holds, p.list, p.meta, typ), now, typ)
    {
      ScriptTurn(b, p, typ, reportDay, around, k, j);
      StandRuns(b, p, l, typ, reportDay, around, j);
      SteadyStand(b, archive, holds, active, p, typ, reportDay, around, now, j);
      SteadyTurn(b, archive, holds, active, p, Stand(b, p, typ, reportDay, around, j), typ, reportDay, now);
    }
  }

  // ---- Many sessions -----------------------------------------------------------------------

  /** The archive job repeated, cycle after cycle, with the metadata that the last cycle left. */
  method SteadySessions(m: Meter, store: Store, typ: int, batch: int, reportDay: int, meta: Meta, range: seq<byte>,
                        openedAt: Time, now: Time, n: nat, ghost archive: Archive, ghost holds: Holding,
                        ghost active: Payload, ghost es: seq<Element>)
    returns (lastMeta: Meta)
    requires m.Valid() && Typed(typ) && Steady(m.behaviour, archive, holds, active) && ListGiven(active, es, typ)
    modifies m, store
    ensures m.Valid() && lastMeta == meta
    ensures store.rows ==
            B.ManySessions(DeviceOf(archive, holds, es, meta, typ), now, typ, reportDay,
                           ParseStart(range, typ, reportDay, openedAt), batch, n, old(store.rows))
    ensures n > 0 && B.Dates(old(store.rows), typ) &&
            (typ == DAILY && old(store.rows) == map[] ==> StartsAtMidnight(range, openedAt)) ==>
              store.rows ==
              B.OneSession(DeviceOf(archive, holds, es, meta, typ), now, typ, reportDay,
                           ParseStart(range, typ, reportDay, openedAt), n * A.Limit(batch), old(store.rows))
  {
    hide Meter.Valid, Steady, ListGiven, ParseStart, StartsAtMidnight, Begun, Stand, DeviceOf, Running;
    hide B.Dates, B.OneSession, B.ManySessions;
    lastMeta := meta;
    ghost var device := DeviceOf(archive, holds, es, meta, typ);
    ghost var first := ParseStart(range, typ, reportDay, openedAt);
    var around := Surroundings(_ => now, _ => false, _ => A.Saved, true, Some(range), openedAt);
    NoSessions(device, now, typ, reportDay, first, batch, store.rows);
    for k := 0 to n
      invariant m.Valid() && lastMeta == meta
      invariant store.rows == B.ManySessions(device, now, typ, reportDay, first, batch, k, old(store.rows))
    {
      ghost var before, table := m.Now(), store.rows;
      ghost var turns;
      turns, lastMeta := CollectArchive(m, store, typ, batch, reportDay, 0, meta, around, now);
      SteadySession(m.behaviour, archive, holds, active, before, A.Db(table, [], None), typ, batch, reportDay, 0, meta,
                    around, now, turns, es);
      OneMore(device, now, typ, reportDay, first, batch, k, old(store.rows));
    }
    DailyStart(range, reportDay, openedAt);
    if n > 0 && B.Dates(old(store.rows), typ) &&
       (typ == DAILY && old(store.rows) == map[] ==> StartsAtMidnight(range, openedAt)) {
      B.BatchesAgree(device, now, typ, reportDay, first, batch, n, old(store.rows));
    }
  }

  lemma NoSessions(device: B.Device<Row>, now: Time, typ: int, reportDay: int, first: Time, batch: int,
                   table: map<Time, Row>)
    ensures B.ManySessions(device, now, typ, reportDay, first, batch, 0, table) == table
  {}

  lemma OneMore(device: B.Device<Row>, now: Time, typ: int, reportDay: int, first: Time, batch: int, k: nat,
                table: map<Time, Row>)
    ensures B.ManySessions(device, now, typ, reportDay, first, batch, k + 1, table) ==
            B.OneSession(device, now, typ, reportDay, first, batch,
                         B.ManySessions(device, now, typ, reportDay, first, batch, k, table))
  {}
}
