// Many short sessions against one long one, for a meter and a clock that stay the same.

module Batches {
  import opened Bytes
  import opened Calendar
  import opened ValueTypes
  import opened Marks
  import opened Archive

  /** A meter that answers for a key, always the same. */
  type Device<!V> = Time -> Answer<V>

  /** The table after a session with this cursor and limit, when nothing interrupts it. */
  function Settled<V>(device: Device<V>, now: Time, typ: int, reportDay: int, cursor: Time, left: nat,
                      table: map<Time, V>): map<Time, V>
    decreases if now < cursor then 0 else now - cursor + 1
  {
    if left == 0 || !Due(cursor, typ, now) then table
    else
      NextLater(cursor, typ, reportDay);
      DueIsOver(cursor, typ, now);
      match device(Key(cursor, typ))
      case Fault => table
      case NoRecord => Settled(device, now, typ, reportDay, Next(cursor, typ, reportDay), left, table)
      case Got(v) =>
        Settled(device, now, typ, reportDay, Next(cursor, typ, reportDay), left - 1, table[Key(cursor, typ) := v])
  }

  /** The turns that such a session takes. */
  function Turns<V>(device: Device<V>, now: Time, typ: int, reportDay: int, cursor: Time, left: nat): seq<Turn<V>>
    decreases if now < cursor then 0 else now - cursor + 1
  {
    if left == 0 then []
    else
      var first := Turn(now, false, device(Key(cursor, typ)), Saved);
      if !Due(cursor, typ, now) || first.answer.Fault? then [first]
      else
        NextLater(cursor, typ, reportDay);
        DueIsOver(cursor, typ, now);
        [first] + Turns(device, now, typ, reportDay, Next(cursor, typ, reportDay),
                        if first.answer.Got? then left - 1 else left)
  }

  lemma {:induction false} RunFirst<V>(l: Loop<V>, t: Turn<V>, script: seq<Turn<V>>, typ: int, reportDay: int)
    ensures Run(l, [t] + script, typ, reportDay) == Run(Advance(l, t, typ, reportDay), script, typ, reportDay)
    decreases |script|
  {
    hide Advance;
    if script == [] {
      assert [t] + [] == [t] && [t][..0] == [];
    } else {
      assert ([t] + script)[..|script|] == [t] + script[..|script| - 1];
      RunFirst(l, t, script[..|script| - 1], typ, reportDay);
    }
  }

  /** Settled is what the loop of a session does on those turns, and the loop has then ended. */
  lemma {:induction false} SettledIsRun<V>(device: Device<V>, now: Time, typ: int, reportDay: int, l: Loop<V>)
    requires !l.stopped
    ensures
      var n := Run(l, Turns(device, now, typ, reportDay, l.cursor, l.left), typ, reportDay);
      n.table == Settled(device, now, typ, reportDay, l.cursor, l.left, l.table) && !Running(n)
    decreases if now < l.cursor then 0 else now - l.cursor + 1
  {
    hide Next, Key, Due;
    if l.left > 0 {
      var turns := Turns(device, now, typ, reportDay, l.cursor, l.left);
      NextLater(l.cursor, typ, reportDay);
      RunFirst(l, turns[0], turns[1..], typ, reportDay);
      assert turns == [turns[0]] + turns[1..];
      var m := Advance(l, turns[0], typ, reportDay);
      if m.stopped {
        assert turns[1..] == [];
      } else {
        DueIsOver(l.cursor, typ, now);
        SettledIsRun(device, now, typ, reportDay, m);
      }
    }
  }

  // ---- Resuming ----------------------------------------------------------------------------

  /** Where a session without overlap starts: at first for an empty table, else after the last key. */
  ghost function Resume<V>(table: map<Time, V>, first: Time, typ: int, reportDay: int): Time {
    if table == map[] then first else Next(Last(table), typ, reportDay)
  }

  ghost function OneSession<V>(device: Device<V>, now: Time, typ: int, reportDay: int, first: Time, batch: int,
                               table: map<Time, V>): map<Time, V> {
    Settled(device, now, typ, reportDay, Resume(table, first, typ, reportDay), Limit(batch), table)
  }

  ghost function ManySessions<V>(device: Device<V>, now: Time, typ: int, reportDay: int, first: Time, batch: int,
                                 n: nat, table: map<Time, V>): map<Time, V> {
    if n == 0 then table
    else OneSession(device, now, typ, reportDay, first, batch,
                 ManySessions(device, now, typ, reportDay, first, batch, n - 1, table))
  }

  /** OneSession is what a session of the machine does to the table when nothing interrupts it. */
  lemma OneSessionIsAfter<V>(device: Device<V>, now: Time, typ: int, reportDay: int, range: seq<byte>,
                             openedAt: Time, batch: int, db: Db<V>)
    ensures
      var first := ParseStart(range, typ, reportDay, openedAt);
      var turns := Turns(device, now, typ, reportDay, Resume(db.table, first, typ, reportDay), Limit(batch));
      After(db, Session.Session(true, Some(range), openedAt, reportDay, 0, batch, turns), typ).table ==
      OneSession(device, now, typ, reportDay, first, batch, db.table)
  {
    hide Settled, Turns, ParseStart, Next;
    var start := Resume(db.table, ParseStart(range, typ, reportDay, openedAt), typ, reportDay);
    SettledIsRun(device, now, typ, reportDay, Loop(start, Limit(batch), db.table, db.visits, false));
  }

  /** Only marks without a record lie between two cursors. */
  predicate LeadsTo<V>(device: Device<V>, now: Time, typ: int, reportDay: int, from: Time, goal: Time)
    decreases goal - from
  {
    if from >= goal then from == goal
    else
      var next := Next(from, typ, reportDay);
      && from < next && Due(from, typ, now) && device(Key(from, typ)).NoRecord?
      && LeadsTo(device, now, typ, reportDay, next, goal)
  }

  lemma {:induction false} LeadsOneMore<V>(device: Device<V>, now: Time, typ: int, reportDay: int, from: Time,
                                           goal: Time)
    requires LeadsTo(device, now, typ, reportDay, from, goal)
    requires Due(goal, typ, now) && device(Key(goal, typ)).NoRecord?
    ensures LeadsTo(device, now, typ, reportDay, from, Next(goal, typ, reportDay))
    decreases goal - from
  {
    hide Next, Key, Due;
    NextLater(goal, typ, reportDay);
    NextLater(from, typ, reportDay);
    if from != goal {
      LeadsOneMore(device, now, typ, reportDay, Next(from, typ, reportDay), goal);
    }
  }

  lemma {:induction false} SkipToCursor<V>(device: Device<V>, now: Time, typ: int, reportDay: int, from: Time,
                                           goal: Time, left: nat, table: map<Time, V>)
    requires LeadsTo(device, now, typ, reportDay, from, goal) && left > 0
    ensures Settled(device, now, typ, reportDay, from, left, table) ==
            Settled(device, now, typ, reportDay, goal, left, table)
    decreases goal - from
  {
    hide Next, Key, Due;
    NextLater(from, typ, reportDay);
    if from != goal {
      SkipToCursor(device, now, typ, reportDay, Next(from, typ, reportDay), goal, left, table);
    }
  }

  /** Keys are keys, and a daily cursor on midnight stays there. */
  ghost predicate Aligned<V>(table: map<Time, V>, cursor: Time, typ: int) {
    && (typ == DAILY ==> cursor % DAY == 0)
    && (forall k :: k in table ==> Period(k, typ) < Period(cursor, typ))
  }

  lemma SaveAligned<V>(table: map<Time, V>, cursor: Time, typ: int, reportDay: int, v: V, first: Time)
    requires Typed(typ) && Aligned(table, cursor, typ)
    ensures Aligned(table, Next(cursor, typ, reportDay), typ)
    ensures Aligned(table[Key(cursor, typ) := v], Next(cursor, typ, reportDay), typ)
    ensures Resume(table[Key(cursor, typ) := v], first, typ, reportDay) == Next(cursor, typ, reportDay)
  {
    DailySteps(cursor, typ, reportDay);
    ResumeAgrees(cursor, typ, reportDay);
    hide Next, Key, Period;
    NextPeriod(cursor, typ, reportDay);
    KeyKeepsPeriod(cursor, typ);
    LastAfterSave(table, Key(cursor, typ), v);
    if table != map[] {
      LaterPeriod(Last(table), Key(cursor, typ), typ);
    }
  }

  lemma DailySteps(cursor: Time, typ: int, reportDay: int)
    requires typ == DAILY ==> cursor % DAY == 0
    ensures typ == DAILY ==> Next(cursor, typ, reportDay) % DAY == 0 && Key(cursor, typ) == cursor
  {
    hide MonthReportDate;
  }

  /** Stopping after a records and resuming for b more is the same as going on for b more. */
  lemma {:induction false} ResumeContinues<V>(device: Device<V>, now: Time, typ: int, reportDay: int, first: Time,
                                              cursor: Time, a: nat, b: nat, table: map<Time, V>)
    requires Typed(typ) && a > 0 && b > 0 && Aligned(table, cursor, typ)
    requires LeadsTo(device, now, typ, reportDay, Resume(table, first, typ, reportDay), cursor)
    ensures
      var t := Settled(device, now, typ, reportDay, cursor, a, table);
      Settled(device, now, typ, reportDay, Resume(t, first, typ, reportDay), b, t) ==
      Settled(device, now, typ, reportDay, cursor, a + b, table)
    decreases if now < cursor then 0 else now - cursor + 1
  {
    hide Next, Key, Due, Aligned, LeadsTo, Resume, Period;
    var k := Key(cursor, typ);
    if !Due(cursor, typ, now) || device(k).Fault? {
      SkipToCursor(device, now, typ, reportDay, Resume(table, first, typ, reportDay), cursor, b, table);
    } else {
      NextLater(cursor, typ, reportDay);
      DueIsOver(cursor, typ, now);
      var next := Next(cursor, typ, reportDay);
      if device(k).NoRecord? {
        LeadsOneMore(device, now, typ, reportDay, Resume(table, first, typ, reportDay), cursor);
        NextAligned(table, cursor, typ, reportDay);
        ResumeContinues(device, now, typ, reportDay, first, next, a, b, table);
      } else {
        var v := device(k).value;
        SaveAligned(table, cursor, typ, reportDay, v, first);
        LeadsHere(device, now, typ, reportDay, next);
        if a > 1 {
          ResumeContinues(device, now, typ, reportDay, first, next, a - 1, b, table[k := v]);
        }
      }
    }
  }

  lemma NextAligned<V>(table: map<Time, V>, cursor: Time, typ: int, reportDay: int)
    requires Typed(typ) && Aligned(table, cursor, typ)
    ensures Aligned(table, Next(cursor, typ, reportDay), typ)
  {
    DailySteps(cursor, typ, reportDay);
    hide Next, Period;
    NextPeriod(cursor, typ, reportDay);
  }

  lemma LeadsHere<V>(device: Device<V>, now: Time, typ: int, reportDay: int, t: Time)
    ensures LeadsTo(device, now, typ, reportDay, t, t)
  {}

  // ---- Batching ----------------------------------------------------------------------------

  /** Daily tables hold dates. */
  ghost predicate Dates<V>(table: map<Time, V>, typ: int) {
    typ == DAILY ==> forall k :: k in table ==> k % DAY == 0
  }

  lemma {:induction false} SettledKeepsDates<V>(device: Device<V>, now: Time, typ: int, reportDay: int, cursor: Time,
                                             left: nat, table: map<Time, V>)
    requires Dates(table, typ)
    ensures Dates(Settled(device, now, typ, reportDay, cursor, left, table), typ)
    decreases if now < cursor then 0 else now - cursor + 1
  {
    if left > 0 && Due(cursor, typ, now) {
      KeyIsDate(cursor, typ);
      hide Next, Key, Due;
      NextLater(cursor, typ, reportDay);
      DueIsOver(cursor, typ, now);
      match device(Key(cursor, typ)) {
        case Fault =>
        case NoRecord =>
          SettledKeepsDates(device, now, typ, reportDay, Next(cursor, typ, reportDay), left, table);
        case Got(v) =>
          SettledKeepsDates(device, now, typ, reportDay, Next(cursor, typ, reportDay), left - 1,
                            table[Key(cursor, typ) := v]);
      }
    }
  }

  lemma KeyIsDate(t: Time, typ: int)
    ensures typ == DAILY ==> Key(t, typ) % DAY == 0
  {}

  lemma ResumeAligned<V>(table: map<Time, V>, first: Time, typ: int, reportDay: int)
    requires Dates(table, typ) && (typ == DAILY && table == map[] ==> first % DAY == 0)
    ensures Aligned(table, Resume(table, first, typ, reportDay), typ)
  {
    if table != map[] {
      var last := Last(table);
      assert last in table;
      if typ == DAILY {
        DailySteps(last, typ, reportDay);
      }
      hide Next, Period;
      NextPeriod(last, typ, reportDay);
      LastHasLastPeriod(table, typ);
    }
  }

  /**
   * n sessions of a batch leave the table that one session of n batches leaves, for hourly,
   * monthly and total archives, and for daily ones that have rows or begin at midnight.
   */
  lemma {:induction false} BatchesAgree<V>(device: Device<V>, now: Time, typ: int, reportDay: int, first: Time,
                                           batch: int, n: nat, table: map<Time, V>)
    requires Typed(typ) && n > 0
    requires Dates(table, typ) && (typ == DAILY && table == map[] ==> first % DAY == 0)
    ensures ManySessions(device, now, typ, reportDay, first, batch, n, table) ==
            OneSession(device, now, typ, reportDay, first, n * Limit(batch), table)
    decreases n
  {
    hide Settled, Resume, LeadsTo, Aligned, Dates;
    if n > 1 {
      var start := Resume(table, first, typ, reportDay);
      BatchesAgree(device, now, typ, reportDay, first, batch, n - 1, table);
      var a, b := (n - 1) * Limit(batch), Limit(batch);
      assert a > 0 && a + b == n * Limit(batch);
      ResumeAligned(table, first, typ, reportDay);
      LeadsHere(device, now, typ, reportDay, start);
      ResumeContinues(device, now, typ, reportDay, first, start, a, b, table);
    }
  }

  // ---- Daily archives that begin within a day ----------------------------------------------

  function Generous<V>(v: V): Device<V> {
    (k: Time) => Got(v)
  }

  /** With now two days after the first midnight, one session stores one row and two store two. */
  lemma DailyDisagrees<V>(v: V, range: seq<byte>, openedAt: Time, reportDay: int)
    requires !StartsAtMidnight(range, openedAt)
    ensures
      var first := ParseStart(range, DAILY, reportDay, openedAt);
      var now := Midnight(first) + 2 * DAY;
      ManySessions(Generous(v), now, DAILY, reportDay, first, 1, 2, map[]) !=
      OneSession(Generous(v), now, DAILY, reportDay, first, 2 * Limit(1), map[])
  {
    DailyStart(range, reportDay, openedAt);
    hide ParseStart;
    WithinDayDisagrees(v, ParseStart(range, DAILY, reportDay, openedAt), reportDay);
  }

  lemma WithinDayDisagrees<V>(v: V, first: Time, reportDay: int)
    requires first % DAY != 0
    ensures
      var now := Midnight(first) + 2 * DAY;
      ManySessions(Generous(v), now, DAILY, reportDay, first, 1, 2, map[]) !=
      OneSession(Generous(v), now, DAILY, reportDay, first, 2 * Limit(1), map[])
  {
    var d, m := Generous(v), Midnight(first);
    var now := m + 2 * DAY;
    assert m % DAY == 0 && m < first < m + DAY && Key(first, DAILY) == m && Key(m + DAY, DAILY) == m + DAY;
    var one: map<Time, V> := map[m := v];
    assert map[][m := v] == one;
    assert Settled(d, now, DAILY, reportDay, first, 2, map[]) ==
           Settled(d, now, DAILY, reportDay, first + DAY, 1, one) == one;
    assert OneSession(d, now, DAILY, reportDay, first, 1, map[]) ==
           Settled(d, now, DAILY, reportDay, first, 1, map[]) == one;
    LastOfOne(one, m);
    var two := one[m + DAY := v];
    assert Resume(one, first, DAILY, reportDay) == m + DAY;
    assert OneSession(d, now, DAILY, reportDay, first, 1, one) ==
           Settled(d, now, DAILY, reportDay, m + DAY, 1, one) == two;
    assert ManySessions(d, now, DAILY, reportDay, first, 1, 1, map[]) == one;
    assert m + DAY in two && m + DAY !in one;
  }

  lemma LastOfOne<V>(table: map<Time, V>, k: Time)
    requires table.Keys == {k}
    ensures table != map[] && Last(table) == k
  {
    assert k in table;
    assert IsLast(table, Last(table));
  }

  /**
   * From the range that the meter reports, batching makes no difference to any meter at any time
   * exactly when the archive is not daily or its range begins at midnight.
   */
  lemma BatchingExactly<V(!new)>(v: V, range: seq<byte>, openedAt: Time, typ: int, reportDay: int)
    requires Typed(typ)
    ensures
      var first := ParseStart(range, typ, reportDay, openedAt);
      (typ != DAILY || StartsAtMidnight(range, openedAt)) <==>
      forall device: Device<V>, now: Time, batch: int, n: nat :: n > 0 ==>
        ManySessions(device, now, typ, reportDay, first, batch, n, map[]) ==
        OneSession(device, now, typ, reportDay, first, n * Limit(batch), map[])
  {
    var first := ParseStart(range, typ, reportDay, openedAt);
    DailyStart(range, reportDay, openedAt);
    hide ParseStart, StartsAtMidnight;
    if typ != DAILY || StartsAtMidnight(range, openedAt) {
      forall device: Device<V>, now: Time, batch: int, n: nat | n > 0
        ensures ManySessions(device, now, typ, reportDay, first, batch, n, map[]) ==
                OneSession(device, now, typ, reportDay, first, n * Limit(batch), map[])
      {
        BatchesAgree(device, now, typ, reportDay, first, batch, n, map[]);
      }
    } else {
      DailyDisagrees(v, range, openedAt, reportDay);
    }
  }
}
