// One row per period: when a session can give an hour, a day or a month a second row.

module ArchiveRows {
  import opened Bytes
  import opened Calendar
  import opened ValueTypes
  import opened Marks
  import opened Archive

  ghost predicate OneRowPerPeriod<V>(table: map<Time, V>, typ: int) {
    forall j, k :: j in table && k in table && Period(j, typ) == Period(k, typ) ==> j == k
  }

  // ---- By hour and by day ------------------------------------------------------------------

  /** Hourly rows keep one distance from the hour; all others but monthly ones lie on midnight. */
  ghost predicate Uniform<V>(table: map<Time, V>, typ: int) {
    if typ == HOURLY then forall j, k :: j in table && k in table ==> j % HOUR == k % HOUR
    else forall k :: k in table ==> k % DAY == 0
  }

  ghost predicate InStep<V>(table: map<Time, V>, cursor: Time, typ: int) {
    typ == HOURLY ==> forall k :: k in table ==> k % HOUR == cursor % HOUR
  }

  lemma UniformIsOneRow<V>(table: map<Time, V>, typ: int)
    requires Uniform(table, typ) && !ByMonth(typ)
    ensures OneRowPerPeriod(table, typ)
  {}

  lemma KeyUniform<V>(table: map<Time, V>, cursor: Time, typ: int, reportDay: int, more: map<Time, V>)
    requires Uniform(table, typ) && InStep(table, cursor, typ) && !ByMonth(typ)
    requires more.Keys == table.Keys || more.Keys == table.Keys + {Key(cursor, typ)}
    ensures Uniform(more, typ) && InStep(more, Next(cursor, typ, reportDay), typ)
  {
    assert forall k :: k in more ==> k in table || k == Key(cursor, typ);
  }

  lemma {:induction false} RunUniform<V>(l: Loop<V>, script: seq<Turn<V>>, typ: int, reportDay: int)
    requires Uniform(l.table, typ) && InStep(l.table, l.cursor, typ) && !ByMonth(typ)
    ensures
      var n := Run(l, script, typ, reportDay);
      Uniform(n.table, typ) && (Running(n) ==> InStep(n.table, n.cursor, typ))
    decreases |script|
  {
    if script != [] {
      hide Uniform, InStep, Next, Key, Due, Advance;
      var m, t := Run(l, script[..|script| - 1], typ, reportDay), script[|script| - 1];
      RunUniform(l, script[..|script| - 1], typ, reportDay);
      AdvanceVisits(m, t, typ, reportDay);
      if Running(m) {
        KeyUniform(m.table, m.cursor, typ, reportDay, Run(l, script, typ, reportDay).table);
      }
    }
  }

  // ---- By month ----------------------------------------------------------------------------

  /** The key under which a cursor stores the record of a period it comes to. */
  function KeyIn(cursor: Time, p: int, typ: int, reportDay: int): Time
    requires p >= Period(cursor, typ)
  {
    Key(Nth(cursor, p - Period(cursor, typ), typ, reportDay), typ)
  }

  /** Every row from the cursor's period on lies under the very key that the cursor will store it under. */
  ghost predicate Fits<V>(table: map<Time, V>, cursor: Time, typ: int, reportDay: int) {
    forall k :: k in table && Period(k, typ) >= Period(cursor, typ) ==>
      k == KeyIn(cursor, Period(k, typ), typ, reportDay)
  }

  lemma {:induction false} NthShift(t: Time, m: nat, typ: int, reportDay: int)
    ensures Nth(t, m + 1, typ, reportDay) == Nth(Next(t, typ, reportDay), m, typ, reportDay)
  {
    hide Next;
    if m > 0 {
      NthShift(t, m - 1, typ, reportDay);
    }
  }

  lemma KeyInNext(t: Time, p: int, typ: int, reportDay: int)
    requires p > Period(t, typ)
    ensures Period(Next(t, typ, reportDay), typ) <= p
    ensures KeyIn(Next(t, typ, reportDay), p, typ, reportDay) == KeyIn(t, p, typ, reportDay)
  {
    hide Next, Period, Key;
    NextPeriod(t, typ, reportDay);
    NthShift(t, p - Period(t, typ) - 1, typ, reportDay);
  }

  lemma KeyHere(t: Time, typ: int, reportDay: int)
    ensures KeyIn(t, Period(t, typ), typ, reportDay) == Key(t, typ)
  {
    hide Key, Next;
  }

  lemma FitsNext<V>(table: map<Time, V>, more: map<Time, V>, cursor: Time, typ: int, reportDay: int)
    requires OneRowPerPeriod(table, typ) && Fits(table, cursor, typ, reportDay)
    requires more.Keys == table.Keys || more.Keys == table.Keys + {Key(cursor, typ)}
    ensures OneRowPerPeriod(more, typ) && Fits(more, Next(cursor, typ, reportDay), typ, reportDay)
  {
    hide Next, Period, Key, KeyIn;
    NextPeriod(cursor, typ, reportDay);
    KeyKeepsPeriod(cursor, typ);
    KeyHere(cursor, typ, reportDay);
    var own := Key(cursor, typ);
    forall k | k in more
      ensures k in table || k == own
      ensures Period(k, typ) > Period(cursor, typ) ==>
                k == KeyIn(Next(cursor, typ, reportDay), Period(k, typ), typ, reportDay)
      ensures Period(k, typ) == Period(cursor, typ) ==> k == own
    {
      assert k in more.Keys;
      if k in table && Period(k, typ) > Period(cursor, typ) {
        KeyInNext(cursor, Period(k, typ), typ, reportDay);
      }
    }
  }

  lemma {:induction false} RunFits<V>(l: Loop<V>, script: seq<Turn<V>>, typ: int, reportDay: int)
    requires OneRowPerPeriod(l.table, typ) && (Running(l) ==> Fits(l.table, l.cursor, typ, reportDay))
    ensures
      var n := Run(l, script, typ, reportDay);
      OneRowPerPeriod(n.table, typ) && (Running(n) ==> Fits(n.table, n.cursor, typ, reportDay))
    decreases |script|
  {
    if script != [] {
      hide OneRowPerPeriod, Fits, Next, Key, Due, Advance;
      var m, t := Run(l, script[..|script| - 1], typ, reportDay), script[|script| - 1];
      RunFits(l, script[..|script| - 1], typ, reportDay);
      AdvanceVisits(m, t, typ, reportDay);
      if Running(m) {
        FitsNext(m.table, Run(l, script, typ, reportDay).table, m.cursor, typ, reportDay);
      }
    }
  }

  // ---- Runs of sessions --------------------------------------------------------------------

  /** What a session must meet so that no turns can make it store a second row for a month. */
  ghost predicate Fitting<V>(table: map<Time, V>, s: Session<V>, typ: int) {
    ByMonth(typ) && Start(table, s, typ).Some? ==> Fits(table, Start(table, s, typ).value, typ, s.reportDay)
  }

  lemma FittingKeeps<V>(db: Db<V>, s: Session<V>, typ: int)
    requires OneRowPerPeriod(db.table, typ) && ByMonth(typ) && Fitting(db.table, s, typ)
    ensures OneRowPerPeriod(After(db, s, typ).table, typ)
  {
    hide Start, Run, Fits, OneRowPerPeriod;
    if Start(db.table, s, typ).Some? {
      var start := Start(db.table, s, typ).value;
      RunFits(Loop(start, Limit(s.batch), db.table, db.visits, false), s.script, typ, s.reportDay);
    }
  }

  lemma UniformKept<V>(db: Db<V>, s: Session<V>, typ: int)
    requires Uniform(db.table, typ) && !ByMonth(typ)
    ensures Uniform(After(db, s, typ).table, typ)
  {
    hide Run, ParseStart;
    if Start(db.table, s, typ).Some? {
      var start := Start(db.table, s, typ).value;
      ResumesInStep(db.table, s, typ);
      RunUniform(Loop(start, Limit(s.batch), db.table, db.visits, false), s.script, typ, s.reportDay);
    }
  }

  lemma ResumesInStep<V>(table: map<Time, V>, s: Session<V>, typ: int)
    requires Uniform(table, typ) && !ByMonth(typ) && Start(table, s, typ).Some?
    ensures InStep(table, Start(table, s, typ).value, typ)
  {
    hide ParseStart;
    if typ == HOURLY && table != map[] {
      var last := Last(table);
      assert last in table;
      var back := if s.overlap > 0 then s.overlap else 0;
      assert Start(table, s, typ).value == last + HOUR * (1 - back);
    }
  }

  ghost predicate AllFitting<V>(db: Db<V>, sessions: seq<Session<V>>, typ: int) {
    forall k :: 0 <= k < |sessions| ==> Fitting(AfterAll(db, sessions[..k], typ).table, sessions[k], typ)
  }

  lemma AllFittingParts<V>(db: Db<V>, sessions: seq<Session<V>>, typ: int)
    requires AllFitting(db, sessions, typ) && sessions != []
    ensures
      var n := |sessions| - 1;
      AllFitting(db, sessions[..n], typ) && Fitting(AfterAll(db, sessions[..n], typ).table, sessions[n], typ)
  {
    hide Fitting, AfterAll;
    var init := sessions[..|sessions| - 1];
    forall k | 0 <= k < |init|
      ensures Fitting(AfterAll(db, init[..k], typ).table, init[k], typ)
    {
      assert init[..k] == sessions[..k];
    }
  }

  lemma {:induction false} UniformAll<V>(sessions: seq<Session<V>>, typ: int)
    requires !ByMonth(typ)
    ensures Uniform(AfterAll(Db(map[], [], None), sessions, typ).table, typ)
    decreases |sessions|
  {
    if sessions != [] {
      hide Uniform, After;
      UniformAll(sessions[..|sessions| - 1], typ);
      UniformKept(AfterAll(Db(map[], [], None), sessions[..|sessions| - 1], typ), sessions[|sessions| - 1], typ);
    }
  }

  /**
   * Over any sessions, with any overlaps and report days, no hour and no day ever gets two rows,
   * and no month does as long as every session fits the rows it finds.
   */
  lemma {:induction false} NeverTwoRows<V>(sessions: seq<Session<V>>, typ: int)
    requires ByMonth(typ) ==> AllFitting(Db(map[], [], None), sessions, typ)
    ensures OneRowPerPeriod(AfterAll(Db(map[], [], None), sessions, typ).table, typ)
    decreases |sessions|
  {
    if !ByMonth(typ) {
      UniformAll(sessions, typ);
      UniformIsOneRow(AfterAll(Db(map[], [], None), sessions, typ).table, typ);
    } else if sessions != [] {
      hide OneRowPerPeriod, Fitting, After, AllFitting;
      var n := |sessions| - 1;
      AllFittingParts(Db(map[], [], None), sessions, typ);
      NeverTwoRows(sessions[..n], typ);
      FittingKeeps(AfterAll(Db(map[], [], None), sessions[..n], typ), sessions[n], typ);
    }
  }

  /** Without overlap a session fits, even if the report day has changed. */
  lemma NoOverlapFits<V>(table: map<Time, V>, s: Session<V>, typ: int)
    requires s.overlap <= 0
    ensures Fitting(table, s, typ)
  {
    hide Next, Period, ParseStart, KeyIn;
    if table != map[] {
      NextPeriod(Last(table), typ, s.reportDay);
      LastHasLastPeriod(table, typ);
    }
  }

  // ---- The exact condition -----------------------------------------------------------------

  /** Missing records at m marks, then a stored one. */
  function MissesThenStore<V>(start: Time, m: nat, v: V, typ: int, reportDay: int): seq<Turn<V>> {
    var now := Nth(start, m, typ, reportDay) + 2 * DAY;
    seq(m + 1, i => Turn(now, false, if i < m then NoRecord else Got(v), Saved))
  }

  lemma DueByThen(t: Time, typ: int, now: Time)
    requires Typed(typ) && now >= t + 2 * DAY
    ensures Due(t, typ, now)
  {}

  lemma {:induction false} NthAscends(t: Time, i: nat, m: nat, typ: int, reportDay: int)
    requires i <= m
    ensures Nth(t, i, typ, reportDay) <= Nth(t, m, typ, reportDay)
    decreases m
  {
    hide Next;
    if i < m {
      NthAscends(t, i, m - 1, typ, reportDay);
      NextLater(Nth(t, m - 1, typ, reportDay), typ, reportDay);
    }
  }

  /** Misses and a store put a row under the key of the m-th mark, and keep the rows there were. */
  lemma {:induction false} MissesRun<V>(l: Loop<V>, m: nat, n: nat, v: V, typ: int, reportDay: int)
    requires Typed(typ) && Running(l) && m <= n
    ensures
      var turns := MissesThenStore(l.cursor, n, v, typ, reportDay)[..m];
      Run(l, turns, typ, reportDay).(visits := l.visits) == l.(cursor := Nth(l.cursor, m, typ, reportDay))
    decreases m
  {
    var script := MissesThenStore(l.cursor, n, v, typ, reportDay);
    hide Next, Key, Due, MissesThenStore;
    if m == 0 {
      assert script[..0] == [];
    } else {
      MissesRun(l, m - 1, n, v, typ, reportDay);
      var t := Nth(l.cursor, m - 1, typ, reportDay);
      TurnOfMisses(l.cursor, m - 1, n, v, typ, reportDay);
      assert script[..m][..m - 1] == script[..m - 1];
      NextLater(t, typ, reportDay);
    }
  }

  lemma TurnOfMisses<V>(start: Time, i: nat, m: nat, v: V, typ: int, reportDay: int)
    requires Typed(typ) && i <= m
    ensures
      var script := MissesThenStore(start, m, v, typ, reportDay);
      && |script| == m + 1 && !script[i].cancelled && script[i].saving.Saved?
      && script[i].answer == (if i < m then NoRecord else Got(v))
      && Due(Nth(start, i, typ, reportDay), typ, script[i].now)
  {
    hide Due, Nth;
    NthAscends(start, i, m, typ, reportDay);
    DueByThen(Nth(start, i, typ, reportDay), typ, Nth(start, m, typ, reportDay) + 2 * DAY);
  }

  lemma MissesStore<V>(l: Loop<V>, m: nat, v: V, typ: int, reportDay: int)
    requires Typed(typ) && Running(l)
    ensures
      Run(l, MissesThenStore(l.cursor, m, v, typ, reportDay), typ, reportDay).table ==
      l.table[Key(Nth(l.cursor, m, typ, reportDay), typ) := v]
  {
    var script := MissesThenStore(l.cursor, m, v, typ, reportDay);
    hide MissesThenStore, Next, Key, Due, Nth;
    MissesRun(l, m, m, v, typ, reportDay);
    TurnOfMisses(l.cursor, m, m, v, typ, reportDay);
    assert script[..|script| - 1] == script[..m];
  }

  /** A row that the session does not fit can be doubled. */
  lemma MisfitDoubles<V>(db: Db<V>, s: Session<V>, typ: int, v: V, k: Time)
    requires Typed(typ) && Start(db.table, s, typ).Some? && k in db.table
    requires
      var start := Start(db.table, s, typ).value;
      && Period(k, typ) >= Period(start, typ) && k != KeyIn(start, Period(k, typ), typ, s.reportDay)
      && s.script == MissesThenStore(start, Period(k, typ) - Period(start, typ), v, typ, s.reportDay)
    ensures !OneRowPerPeriod(After(db, s, typ).table, typ)
  {
    var start := Start(db.table, s, typ).value;
    hide Start, Period, Key, MissesThenStore, Run, Nth, After;
    var m := Period(k, typ) - Period(start, typ);
    AfterIsRun(db, s, typ);
    MissesStore(Looping(db, s, typ), m, v, typ, s.reportDay);
    NthPeriod(start, m, typ, s.reportDay);
    KeyKeepsPeriod(Nth(start, m, typ, s.reportDay), typ);
    var n := After(db, s, typ);
    var j := Key(Nth(start, m, typ, s.reportDay), typ);
    assert n.table == db.table[j := v];
    assert j in n.table && k in n.table && Period(j, typ) == Period(k, typ) && j != k;
  }

  /** A monthly session cannot store a second row for a month, whatever its turns, exactly when it fits. */
  lemma FittingExactly<V(!new)>(db: Db<V>, s: Session<V>, typ: int, v: V)
    requires ByMonth(typ) && OneRowPerPeriod(db.table, typ) && Start(db.table, s, typ).Some?
    ensures Fitting(db.table, s, typ) <==>
            forall script :: OneRowPerPeriod(After(db, s.(script := script), typ).table, typ)
  {
    hide After, OneRowPerPeriod, Fitting;
    if Fitting(db.table, s, typ) {
      forall script
        ensures OneRowPerPeriod(After(db, s.(script := script), typ).table, typ)
      {
        SameFit(db.table, s, s.(script := script), typ);
        FittingKeeps(db, s.(script := script), typ);
      }
    } else {
      var other := Misfit(db, s, typ, v);
    }
  }

  lemma SameFit<V>(table: map<Time, V>, s: Session<V>, other: Session<V>, typ: int)
    requires other == s.(script := other.script)
    ensures Start(table, other, typ) == Start(table, s, typ) && (Fitting(table, other, typ) <==> Fitting(table, s, typ))
  {
    SameStart(table, s, other, typ);
    hide Start, Fits;
  }

  lemma Misfit<V>(db: Db<V>, s: Session<V>, typ: int, v: V) returns (script: seq<Turn<V>>)
    requires ByMonth(typ) && Start(db.table, s, typ).Some? && !Fitting(db.table, s, typ)
    ensures !OneRowPerPeriod(After(db, s.(script := script), typ).table, typ)
  {
    hide After, OneRowPerPeriod, Start, Period, KeyIn, MissesThenStore;
    var start := Start(db.table, s, typ).value;
    var k :| k in db.table && Period(k, typ) >= Period(start, typ) &&
             k != KeyIn(start, Period(k, typ), typ, s.reportDay);
    script := MissesThenStore(start, Period(k, typ) - Period(start, typ), v, typ, s.reportDay);
    SameStart(db.table, s, s.(script := script), typ);
    MisfitDoubles(db, s.(script := script), typ, v, k);
  }

  // ---- Report days that agree, and report days that do not ---------------------------------

  /** Every row lies on the report mark of its month. */
  ghost predicate RowsOnGrid<V>(table: map<Time, V>, typ: int, reportDay: int) {
    forall k :: k in table ==> k == Key(ReportMark(Period(k, typ), reportDay), typ)
  }

  lemma GridIsOneRow<V>(table: map<Time, V>, typ: int, reportDay: int)
    requires RowsOnGrid(table, typ, reportDay)
    ensures OneRowPerPeriod(table, typ)
  {
    hide ReportMark, Period, Key;
  }

  lemma RowOnGrid<V>(table: map<Time, V>, more: map<Time, V>, cursor: Time, typ: int, reportDay: int)
    requires ByMonth(typ) && RowsOnGrid(table, typ, reportDay) && OnGrid(cursor, typ, reportDay)
    requires more.Keys == table.Keys || more.Keys == table.Keys + {Key(cursor, typ)}
    ensures RowsOnGrid(more, typ, reportDay)
  {
    KeyKeepsPeriod(cursor, typ);
    MonthlyKey(cursor, typ);
    hide ReportMark, Period, Key;
    forall k | k in more
      ensures k in table || k == Key(cursor, typ)
    {
      assert k in more.Keys;
    }
  }

  lemma {:induction false} RunKeepsGrid<V>(l: Loop<V>, script: seq<Turn<V>>, typ: int, reportDay: int)
    requires ByMonth(typ) && RowsOnGrid(l.table, typ, reportDay) && OnGrid(l.cursor, typ, reportDay)
    ensures
      var n := Run(l, script, typ, reportDay);
      RowsOnGrid(n.table, typ, reportDay) && (Running(n) ==> OnGrid(n.cursor, typ, reportDay))
    decreases |script|
  {
    if script != [] {
      hide RowsOnGrid, OnGrid, Next, Key, Due, Advance;
      var m, t := Run(l, script[..|script| - 1], typ, reportDay), script[|script| - 1];
      RunKeepsGrid(l, script[..|script| - 1], typ, reportDay);
      AdvanceVisits(m, t, typ, reportDay);
      if Running(m) {
        NextPeriod(m.cursor, typ, reportDay);
        RowOnGrid(m.table, Run(l, script, typ, reportDay).table, m.cursor, typ, reportDay);
      }
    }
  }

  ghost predicate AllPlaced<V>(db: Db<V>, sessions: seq<Session<V>>, typ: int) {
    forall k :: 0 <= k < |sessions| ==> Placed(AfterAll(db, sessions[..k], typ).table, sessions[k], typ)
  }

  lemma AllPlacedParts<V>(db: Db<V>, sessions: seq<Session<V>>, typ: int)
    requires AllPlaced(db, sessions, typ) && sessions != []
    ensures
      var n := |sessions| - 1;
      AllPlaced(db, sessions[..n], typ) && Placed(AfterAll(db, sessions[..n], typ).table, sessions[n], typ)
  {
    hide Placed, AfterAll;
    var init := sessions[..|sessions| - 1];
    forall k | 0 <= k < |init|
      ensures Placed(AfterAll(db, init[..k], typ).table, init[k], typ)
    {
      assert init[..k] == sessions[..k];
    }
  }

  lemma GridKept<V>(db: Db<V>, s: Session<V>, typ: int)
    requires ByMonth(typ) && RowsOnGrid(db.table, typ, s.reportDay) && Placed(db.table, s, typ)
    ensures RowsOnGrid(After(db, s, typ).table, typ, s.reportDay)
  {
    hide Start, Run, Placed, RowsOnGrid, OnGrid;
    if Start(db.table, s, typ).Some? {
      PlacedExactly(db.table, s, typ);
      var start := Start(db.table, s, typ).value;
      RunKeepsGrid(Loop(start, Limit(s.batch), db.table, db.visits, false), s.script, typ, s.reportDay);
    }
  }

  /**
   * While the report day stays the same and every overlap leads to a month that has it, so always
   * for days up to 28, every row lies on the grid, and no month gets two rows.
   */
  lemma {:induction false} SameDayOneRow<V>(sessions: seq<Session<V>>, typ: int, reportDay: int)
    requires ByMonth(typ) && forall s :: s in sessions ==> s.reportDay == reportDay
    requires AllPlaced(Db(map[], [], None), sessions, typ)
    ensures RowsOnGrid(AfterAll(Db(map[], [], None), sessions, typ).table, typ, reportDay)
    ensures OneRowPerPeriod(AfterAll(Db(map[], [], None), sessions, typ).table, typ)
    decreases |sessions|
  {
    if sessions != [] {
      hide RowsOnGrid, OneRowPerPeriod, Placed, After, AllPlaced;
      var n := |sessions| - 1;
      AllPlacedParts(Db(map[], [], None), sessions, typ);
      SameDayOneRow(sessions[..n], typ, reportDay);
      assert sessions[n] in sessions;
      GridKept(AfterAll(Db(map[], [], None), sessions[..n], typ), sessions[n], typ);
      GridIsOneRow(AfterAll(Db(map[], [], None), sessions, typ).table, typ, reportDay);
    }
  }

  lemma OnGridIs(t: Time, typ: int, reportDay: int)
    requires ByMonth(typ) && OnGrid(t, typ, reportDay)
    ensures t == ReportMark(Period(t, typ), reportDay)
  {
    hide ReportMark, Month;
  }

  lemma NthSteps(t: Time, m: nat, typ: int, reportDay: int)
    ensures Nth(t, m + 1, typ, reportDay) == Next(Nth(t, m, typ, reportDay), typ, reportDay)
  {
    hide Next;
  }

  lemma KeyInIs(t: Time, p: int, typ: int, reportDay: int)
    requires p >= Period(t, typ)
    ensures KeyIn(t, p, typ, reportDay) == Key(Nth(t, p - Period(t, typ), typ, reportDay), typ)
  {
    hide Period, Key, Nth;
  }

  lemma KeyInOnGrid(start: Time, p: int, typ: int, reportDay: int)
    requires ByMonth(typ) && p > Period(start, typ)
    ensures KeyIn(start, p, typ, reportDay) == Key(ReportMark(p, reportDay), typ)
  {
    hide *;
    var m := p - Period(start, typ);
    KeyInIs(start, p, typ, reportDay);
    NthPeriod(start, m, typ, reportDay);
    NthSteps(start, m - 1, typ, reportDay);
    NextPeriod(Nth(start, m - 1, typ, reportDay), typ, reportDay);
    OnGridIs(Nth(start, m, typ, reportDay), typ, reportDay);
  }

  /** A row on the grid fits exactly when its period lies ahead, or its day is the day of the start. */
  lemma GridRowFits(k: Time, start: Time, typ: int, reportDay: int)
    requires ByMonth(typ) && Period(k, typ) >= Period(start, typ)
    requires k == Key(ReportMark(Period(k, typ), reportDay), typ)
    ensures k == KeyIn(start, Period(k, typ), typ, reportDay) <==>
            Period(k, typ) > Period(start, typ) ||
            Key(start, typ) == Key(ReportMark(Period(start, typ), reportDay), typ)
  {
    hide *;
    KeyHere(start, typ, reportDay);
    if Period(k, typ) > Period(start, typ) {
      KeyInOnGrid(start, Period(k, typ), typ, reportDay);
    }
  }

  /**
   * Over rows on the grid, a session fits exactly when it starts in a month without a row, or on
   * the very day of that row.
   */
  lemma GridFittingExactly<V>(table: map<Time, V>, start: Time, typ: int, reportDay: int)
    requires ByMonth(typ) && RowsOnGrid(table, typ, reportDay)
    ensures
      var p := Period(start, typ);
      Fits(table, start, typ, reportDay) <==>
      ((exists k :: k in table && Period(k, typ) == p) ==> Key(start, typ) == Key(ReportMark(p, reportDay), typ))
  {
    hide Period, KeyIn, Key, ReportMark, ByMonth;
    forall k | k in table && Period(k, typ) >= Period(start, typ)
      ensures k == KeyIn(start, Period(k, typ), typ, reportDay) <==>
              Period(k, typ) > Period(start, typ) ||
              Key(start, typ) == Key(ReportMark(Period(start, typ), reportDay), typ)
    {
      GridRowFits(k, start, typ, reportDay);
    }
    hide RowsOnGrid;
  }

  /**
   * Off the grid by an overlap of one month, a month gets two rows wherever the report day falls
   * earlier in the next month: with report day 31, after a row of 31 March a second one of 30 March.
   */
  lemma OverlapDoublesRow<V>(n: int, reportDay: int, v: V, typ: int, s: Session<V>) returns (script: seq<Turn<V>>)
    requires ByMonth(typ) && Clamp(reportDay, n + 1) < Clamp(reportDay, n)
    requires s.prepared && s.overlap == 1 && s.reportDay == reportDay
    ensures
      var db := OneMonth(n, reportDay, v, typ);
      OneRowPerPeriod(db.table, typ) && !OneRowPerPeriod(After(db, s.(script := script), typ).table, typ)
  {
    var db := OneMonth(n, reportDay, v, typ);
    OneMonthHolds(n, reportDay, v, typ);
    OneMonthResumes(db.table, n, reportDay, typ, s);
    hide OneMonth, Start, After;
    var start, k := Overlapped(ReportMark(n + 1, reportDay), typ, 1), Key(ReportMark(n, reportDay), typ);
    MovedKey(n, reportDay, typ);
    assert k in db.table;
    hide Overlapped, ReportMark, Month, Key, Next;
    KeyHere(start, typ, reportDay);
    assert !Fitting(db.table, s, typ);
    hide *;
    script := Misfit(db, s, typ, v);
    OneKeyOneRow(db.table, k, typ);
  }

  lemma OneKeyOneRow<V>(table: map<Time, V>, k: Time, typ: int)
    requires table.Keys == {k}
    ensures OneRowPerPeriod(table, typ)
  {}

  lemma OneMonthResumes<V>(table: map<Time, V>, n: int, reportDay: int, typ: int, s: Session<V>)
    requires ByMonth(typ) && table != map[] && Month(Last(table)) == n
    requires s.prepared && s.overlap == 1 && s.reportDay == reportDay
    ensures Start(table, s, typ) == Some(Overlapped(ReportMark(n + 1, reportDay), typ, 1))
  {
    hide Month, Overlapped, ReportMark, MonthReportDate;
    ReportDateIsMark(Last(table), 1, reportDay);
  }

  lemma MovedKey(n: int, reportDay: int, typ: int)
    requires ByMonth(typ) && Clamp(reportDay, n + 1) < Clamp(reportDay, n)
    ensures
      var start := Overlapped(ReportMark(n + 1, reportDay), typ, 1);
      Period(start, typ) == n && Period(Key(ReportMark(n, reportDay), typ), typ) == n &&
      Key(start, typ) != Key(ReportMark(n, reportDay), typ)
  {
    var start, mark := Overlapped(ReportMark(n + 1, reportDay), typ, 1), ReportMark(n, reportDay);
    hide *;
    MonthlyKey(start, typ);
    MonthlyKey(mark, typ);
    MonthlyKey(Key(mark, typ), typ);
    OverlapLands(n + 1, 1, typ, reportDay);
    ReportMarkParts(n, reportDay);
    KeyKeepsPeriod(mark, typ);
    MovedMark(n + 1, typ, reportDay);
    MidnightOfMark(MonthStart(n) + Clamp(reportDay, n + 1) - 1);
    MarkMidnight(n, reportDay);
    DaysDiffer(MonthStart(n) + Clamp(reportDay, n + 1) - 1, MonthStart(n) + Clamp(reportDay, n) - 1);
  }

  lemma DaysDiffer(a: int, b: int)
    requires a < b
    ensures DAY * a < DAY * b
  {}

  lemma MarkMidnight(n: int, reportDay: int)
    ensures Midnight(ReportMark(n, reportDay)) == DAY * (MonthStart(n) + Clamp(reportDay, n) - 1)
  {
    MidnightOfMark(MonthStart(n) + Clamp(reportDay, n) - 1);
    hide Midnight, MonthStart;
  }

  lemma MonthlyKey(t: Time, typ: int)
    requires ByMonth(typ)
    ensures Key(t, typ) == Midnight(t) && Period(t, typ) == Month(t)
  {}

  lemma MidnightOfMark(d: int)
    ensures Midnight(DAY * d + 23 * HOUR) == DAY * d
  {}
}
