// Collecting an archive over many sessions: a table of keys, a cursor that resumes after the last
// key, and answers that store a record, find none, or fail.

module Archive {
  import opened Bytes
  import opened Calendar
  import opened Marks

  /** What reading one mark came to. */
  datatype Answer<+V> = Got(value: V) | NoRecord | Fault

  /** What saving a record came to; a failed save may still have written the row. */
  datatype Saving = Saved | FailedWritten | FailedUnwritten

  /** One turn of the loop: the clock and the context it saw, the answer, the save. */
  datatype Turn<+V> = Turn(now: Time, cancelled: bool, answer: Answer<V>, saving: Saving)

  /** A mark that was read to the end: its record was stored, or the meter had none. */
  datatype Visit = Visit(mark: Time, reportDay: int, stored: bool)

  datatype Loop<+V> = Loop(cursor: Time, left: nat, table: map<Time, V>, visits: seq<Visit>, stopped: bool)

  predicate Running<V>(l: Loop<V>) {
    !l.stopped && l.left > 0
  }

  /** One turn of the loop of collectArchive. */
  function Advance<V>(l: Loop<V>, t: Turn<V>, typ: int, reportDay: int): Loop<V> {
    if !Running(l) then l
    else if t.cancelled || !Due(l.cursor, typ, t.now) then l.(stopped := true)
    else match t.answer
      case Fault => l.(stopped := true)
      case NoRecord =>
        var next := Next(l.cursor, typ, reportDay);
        if next <= l.cursor then l.(stopped := true)
        else l.(cursor := next, visits := l.visits + [Visit(l.cursor, reportDay, false)])
      case Got(v) =>
        var table := l.table[Key(l.cursor, typ) := v];
        var visits := l.visits + [Visit(l.cursor, reportDay, true)];
        match t.saving
        case Saved =>
          Loop(Next(l.cursor, typ, reportDay), l.left - 1, table, visits, false)
        case FailedWritten => l.(table := table, visits := visits, stopped := true)
        case FailedUnwritten => l.(stopped := true)
  }

  function Run<V>(l: Loop<V>, script: seq<Turn<V>>, typ: int, reportDay: int): Loop<V>
    decreases |script|
  {
    if script == [] then l
    else Advance(Run(l, script[..|script| - 1], typ, reportDay), script[|script| - 1], typ, reportDay)
  }

  // ---- Tables ------------------------------------------------------------------------------

  ghost predicate IsLast<V>(table: map<Time, V>, k: Time) {
    k in table && forall j :: j in table ==> j <= k
  }

  lemma {:induction false} LastExists(keys: set<Time>) returns (k: Time)
    requires keys != {}
    ensures k in keys && forall j :: j in keys ==> j <= k
    decreases |keys|
  {
    assert (forall x :: x !in keys) ==> keys == {};
    var x: Time :| x in keys;
    if keys == {x} {
      k := x;
    } else {
      var j := LastExists(keys - {x});
      k := if j > x then j else x;
      assert forall i :: i in keys ==> i == x || i in keys - {x};
    }
  }

  lemma TableHasLast<V>(table: map<Time, V>)
    requires table != map[]
    ensures exists k :: IsLast(table, k)
  {
    var k := LastExists(table.Keys);
    assert IsLast(table, k);
  }

  /** The greatest key: what Store.Last returns. */
  ghost function Last<V>(table: map<Time, V>): (k: Time)
    requires table != map[]
    ensures IsLast(table, k)
  {
    TableHasLast(table);
    var k :| IsLast(table, k);
    k
  }

  lemma LastAfterSave<V>(table: map<Time, V>, k: Time, v: V)
    ensures
      var t := table[k := v];
      k in t && Last(t) == if table == map[] || Last(table) < k then k else Last(table)
  {
    var t := table[k := v];
    assert k in t;
    assert Last(t) in t && k <= Last(t);
    if table != map[] {
      assert Last(table) in t;
    }
  }

  // ---- Sessions ----------------------------------------------------------------------------

  /** What a session meets before its loop, and the turns of the loop up to its end or a crash. */
  datatype Session<+V> = Session(
    prepared: bool,                // type, active list, read list and last key were obtained
    range: Option<seq<byte>>,      // the answer to ReadRange, needed when the table is empty
    openedAt: Time,                 // the clock when the range was parsed
    reportDay: int,
    overlap: int,
    batch: int,
    script: seq<Turn<V>>)

  /** origin is the first cursor of the session that stored the first row. */
  datatype Db<+V> = Db(table: map<Time, V>, visits: seq<Visit>, origin: Option<Time>)

  ghost function Start<V>(table: map<Time, V>, s: Session<V>, typ: int): Option<Time> {
    if !s.prepared then None
    else if table == map[] then
      match s.range
      case None => None
      case Some(d) => Some(ParseStart(d, typ, s.reportDay, s.openedAt))
    else Some(Overlapped(Next(Last(table), typ, s.reportDay), typ, s.overlap))
  }

  function Limit(batch: int): nat {
    if batch <= 0 then 1 else batch
  }

  /** The state after one session. */
  ghost function After<V>(db: Db<V>, s: Session<V>, typ: int): Db<V> {
    match Start(db.table, s, typ)
    case None => db
    case Some(start) =>
      var l := Run(Loop(start, Limit(s.batch), db.table, db.visits, false), s.script, typ, s.reportDay);
      Db(l.table, l.visits, if db.table == map[] && l.table != map[] then Some(start) else db.origin)
  }

  ghost function AfterAll<V>(db: Db<V>, sessions: seq<Session<V>>, typ: int): Db<V>
    decreases |sessions|
  {
    if sessions == [] then db
    else After(AfterAll(db, sessions[..|sessions| - 1], typ), sessions[|sessions| - 1], typ)
  }

  // ---- No silent gaps ----------------------------------------------------------------------

  /** Period p was read to the end, at its mark on the grid; a stored record is in the table. */
  ghost predicate Covered<V>(table: map<Time, V>, visits: seq<Visit>, typ: int, p: int) {
    exists i :: 0 <= i < |visits| && Accounts(table, visits[i], typ, p)
  }

  predicate Accounts<V>(table: map<Time, V>, v: Visit, typ: int, p: int) {
    && Period(v.mark, typ) == p
    && OnGrid(v.mark, typ, v.reportDay)
    && (v.stored ==> Key(v.mark, typ) in table)
  }

  ghost predicate CoveredUpTo<V>(table: map<Time, V>, visits: seq<Visit>, typ: int, first: int, end: int) {
    forall p :: first <= p < end ==> Covered(table, visits, typ, p)
  }

  /** Every period from the first cursor to the greatest key is accounted for. */
  ghost predicate NoGaps<V>(db: Db<V>, typ: int) {
    db.table != map[] ==>
      && db.origin.Some?
      && Period(db.origin.value, typ) <= Period(Last(db.table), typ)
      && CoveredUpTo(db.table, db.visits, typ, Period(db.origin.value, typ), Period(Last(db.table), typ) + 1)
  }

  /** A cursor that passes over nothing: its period needs no mark from it, or it is that mark. */
  ghost predicate Harmless<V>(table: map<Time, V>, visits: seq<Visit>, cursor: Time, typ: int, reportDay: int,
                              first: int) {
    OnGrid(cursor, typ, reportDay) || Period(cursor, typ) < first || Covered(table, visits, typ, Period(cursor, typ))
  }

  /** The same while a session runs: also everything before the cursor is accounted for. */
  ghost predicate LoopCovers<V>(l: Loop<V>, typ: int, reportDay: int, first: int) {
    && Harmless(l.table, l.visits, l.cursor, typ, reportDay, first)
    && CoveredUpTo(l.table, l.visits, typ, first, Period(l.cursor, typ))
    && if l.table == map[] then first <= Period(l.cursor, typ)
       else first <= Period(Last(l.table), typ) &&
            CoveredUpTo(l.table, l.visits, typ, first, Period(Last(l.table), typ) + 1)
  }

  /** A further visit and a further row leave covered what was covered. */
  lemma CoverageGrows<V>(table: map<Time, V>, visits: seq<Visit>, more: map<Time, V>, later: seq<Visit>, typ: int,
                         first: int, end: int)
    requires CoveredUpTo(table, visits, typ, first, end) && table.Keys <= more.Keys && visits <= later
    ensures CoveredUpTo(more, later, typ, first, end)
  {
    forall p | first <= p < end
      ensures Covered(more, later, typ, p)
    {
      CoveredStays(table, visits, more, later, typ, p);
    }
  }

  lemma NewVisitCovers<V>(table: map<Time, V>, visits: seq<Visit>, v: Visit, typ: int, first: int)
    requires CoveredUpTo(table, visits + [v], typ, first, Period(v.mark, typ))
    requires Harmless(table, visits, v.mark, typ, v.reportDay, first) && (v.stored ==> Key(v.mark, typ) in table)
    ensures CoveredUpTo(table, visits + [v], typ, first, Period(v.mark, typ) + 1)
  {
    var later, p := visits + [v], Period(v.mark, typ);
    if OnGrid(v.mark, typ, v.reportDay) {
      assert later[|visits|] == v;
      assert Accounts(table, later[|visits|], typ, p);
      assert Covered(table, later, typ, p);
    } else if p >= first {
      CoveredStays(table, visits, table, later, typ, p);
    }
  }

  lemma CoveredStays<V>(table: map<Time, V>, visits: seq<Visit>, more: map<Time, V>, later: seq<Visit>, typ: int,
                        p: int)
    requires Covered(table, visits, typ, p) && table.Keys <= more.Keys && visits <= later
    ensures Covered(more, later, typ, p)
  {
    var i :| 0 <= i < |visits| && Accounts(table, visits[i], typ, p);
    assert Accounts(more, later[i], typ, p);
  }

  /** A turn adds nothing, or a visit of the cursor, which was due, and its row if it was stored. */
  lemma AdvanceVisits<V>(l: Loop<V>, t: Turn<V>, typ: int, reportDay: int)
    ensures
      var n := Advance(l, t, typ, reportDay);
      || (n.visits == l.visits && n.table == l.table && n.cursor == l.cursor &&
          (if Running(l) then n.stopped else n == l))
      || (Running(l) && Due(l.cursor, typ, t.now) && |n.visits| == |l.visits| + 1 && l.visits <= n.visits &&
          var v := n.visits[|l.visits|];
          v.mark == l.cursor && v.reportDay == reportDay &&
          (if v.stored then
             Key(l.cursor, typ) in n.table && n.table == l.table[Key(l.cursor, typ) := n.table[Key(l.cursor, typ)]]
           else n.table == l.table) &&
          (n.stopped ==> n.cursor == l.cursor) &&
          (!n.stopped ==> n.cursor == Next(l.cursor, typ, reportDay) && n.left == l.left - if v.stored then 1 else 0))
  {
    hide Next, Due, Key;
  }

  lemma AdvanceCovers<V>(l: Loop<V>, t: Turn<V>, typ: int, reportDay: int, first: int)
    requires LoopCovers(l, typ, reportDay, first)
    ensures LoopCovers(Advance(l, t, typ, reportDay), typ, reportDay, first)
  {
    hide Next, Key, Period, Due, OnGrid, Advance, CoveredUpTo, Covered;
    var n := Advance(l, t, typ, reportDay);
    AdvanceVisits(l, t, typ, reportDay);
    if n.visits != l.visits {
      var v := n.visits[|l.visits|];
      assert n.visits == l.visits + [v];
      NextPeriod(l.cursor, typ, reportDay);
      KeyKeepsPeriod(l.cursor, typ);
      CoverageGrows(l.table, l.visits, n.table, n.visits, typ, first, Period(l.cursor, typ));
      HarmlessGrows(l.table, l.visits, n.table, l.visits, l.cursor, typ, reportDay, first);
      HarmlessGrows(l.table, l.visits, n.table, n.visits, l.cursor, typ, reportDay, first);
      NewVisitCovers(n.table, l.visits, v, typ, first);
      if l.table != map[] {
        CoverageGrows(l.table, l.visits, n.table, n.visits, typ, first, Period(Last(l.table), typ) + 1);
      }
      if v.stored {
        LastAfterSave(l.table, Key(l.cursor, typ), n.table[Key(l.cursor, typ)]);
        if l.table != map[] && Period(l.cursor, typ) < Period(Last(l.table), typ) {
          LaterPeriod(Key(l.cursor, typ), Last(l.table), typ);
        }
      }
    }
  }

  lemma HarmlessGrows<V>(table: map<Time, V>, visits: seq<Visit>, more: map<Time, V>, later: seq<Visit>, cursor: Time,
                         typ: int, reportDay: int, first: int)
    requires Harmless(table, visits, cursor, typ, reportDay, first) && table.Keys <= more.Keys && visits <= later
    ensures Harmless(more, later, cursor, typ, reportDay, first)
  {
    if Covered(table, visits, typ, Period(cursor, typ)) {
      CoveredStays(table, visits, more, later, typ, Period(cursor, typ));
    }
  }

  lemma {:induction false} RunCovers<V>(l: Loop<V>, script: seq<Turn<V>>, typ: int, reportDay: int, first: int)
    requires LoopCovers(l, typ, reportDay, first)
    ensures LoopCovers(Run(l, script, typ, reportDay), typ, reportDay, first)
    decreases |script|
  {
    hide LoopCovers, Advance;
    if script != [] {
      var init := script[..|script| - 1];
      RunCovers(l, init, typ, reportDay, first);
      AdvanceCovers(Run(l, init, typ, reportDay), script[|script| - 1], typ, reportDay, first);
    }
  }

  /**
   * Whether a session starts on the grid, in terms a caller can check: a monthly collection needs
   * a range of four octets to begin with, and an overlap that keeps the clamped report day.
   */
  ghost predicate Placed<V>(table: map<Time, V>, s: Session<V>, typ: int) {
    ByMonth(typ) ==>
      if table == map[] then s.range.Some? ==> |s.range.value| >= 4
      else
        var n := Month(Last(table)) + 1;
        s.overlap <= 0 || Clamp(s.reportDay, n) == Clamp(s.reportDay, n - s.overlap)
  }

  /** A monthly session that resumes starts on the grid exactly when it is placed. */
  lemma PlacedExactly<V>(table: map<Time, V>, s: Session<V>, typ: int)
    requires Start(table, s, typ).Some?
    ensures Placed(table, s, typ) ==> OnGrid(Start(table, s, typ).value, typ, s.reportDay)
    ensures table != map[] ==> (Placed(table, s, typ) <==> OnGrid(Start(table, s, typ).value, typ, s.reportDay))
  {
    hide ReportMark, Month, ParseStart, MonthReportDate, AddMonths;
    if table == map[] {
      if |s.range.value| >= 4 {
        StartOnGrid(s.range.value, typ, s.reportDay, s.openedAt);
      }
    } else if ByMonth(typ) {
      var n := Month(Last(table)) + 1;
      NextPeriod(Last(table), typ, s.reportDay);
      ReportDateIsMark(Last(table), 1, s.reportDay);
      if s.overlap > 0 {
        OverlapOnGrid(n, s.overlap, typ, s.reportDay);
      }
    }
  }

  /**
   * What a session must meet so that no turns can make it pass over a mark: a monthly collection
   * must not begin with a short range off the grid, nor resume with an overlap of one month that
   * the report day makes too small to leave the month.
   */
  ghost predicate Safe<V>(table: map<Time, V>, s: Session<V>, typ: int) {
    ByMonth(typ) ==>
      if table == map[] then
        s.range.Some? ==> |s.range.value| >= 4 ||
                          OnGrid(ParseStart(s.range.value, typ, s.reportDay, s.openedAt), typ, s.reportDay)
      else
        var n := Month(Last(table)) + 1;
        s.overlap != 1 || Clamp(s.reportDay, n) <= DaysIn(n - 1)
  }

  /** The first period that a database answers for, once a session starts. */
  ghost function FirstPeriod<V>(db: Db<V>, start: Time, typ: int): int
    requires NoGaps(db, typ)
  {
    if db.table == map[] then Period(start, typ) else Period(db.origin.value, typ)
  }

  /** A safe session starts harmlessly; an unsafe one starts off the grid, in a period not yet passed. */
  lemma SafeStart<V>(db: Db<V>, s: Session<V>, typ: int)
    requires NoGaps(db, typ) && Start(db.table, s, typ).Some?
    ensures
      var start := Start(db.table, s, typ).value;
      var first := FirstPeriod(db, start, typ);
      if Safe(db.table, s, typ) then
        Harmless(db.table, db.visits, start, typ, s.reportDay, first) &&
        (db.table != map[] ==> Period(start, typ) <= Period(Last(db.table), typ) + 1)
      else
        ByMonth(typ) && !OnGrid(start, typ, s.reportDay) && first <= Period(start, typ) &&
        (db.table != map[] ==> Period(start, typ) == Period(Last(db.table), typ) + 1)
  {
    hide ReportMark, Month, ParseStart, MonthReportDate, AddMonths, Covered, CoveredUpTo, DaysIn;
    if db.table == map[] {
      if |s.range.value| >= 4 {
        StartOnGrid(s.range.value, typ, s.reportDay, s.openedAt);
      }
    } else {
      var last := Last(db.table);
      var next := Next(last, typ, s.reportDay);
      NextPeriod(last, typ, s.reportDay);
      OverlapGoesBack(next, typ, s.overlap);
      if ByMonth(typ) && s.overlap > 0 {
        ReportDateIsMark(last, 1, s.reportDay);
        OverlapLands(Month(last) + 1, s.overlap, typ, s.reportDay);
        CoveredInside(db, typ, Month(Start(db.table, s, typ).value));
      }
    }
  }

  lemma CoveredInside<V>(db: Db<V>, typ: int, p: int)
    requires NoGaps(db, typ) && db.table != map[]
    ensures Period(db.origin.value, typ) <= p <= Period(Last(db.table), typ) ==> Covered(db.table, db.visits, typ, p)
  {}

  /** A session that starts harmlessly leaves no gap behind, with any turns and any end. */
  lemma HarmlessCovers<V>(db: Db<V>, s: Session<V>, typ: int)
    requires NoGaps(db, typ) && Start(db.table, s, typ).Some?
    requires
      var start := Start(db.table, s, typ).value;
      Harmless(db.table, db.visits, start, typ, s.reportDay, FirstPeriod(db, start, typ)) &&
      (db.table != map[] ==> Period(start, typ) <= Period(Last(db.table), typ) + 1)
    ensures NoGaps(After(db, s, typ), typ)
  {
    hide Run, OnGrid, Period, Covered, Harmless;
    var start := Start(db.table, s, typ).value;
    var l := Loop(start, Limit(s.batch), db.table, db.visits, false);
    var first := FirstPeriod(db, start, typ);
    assert LoopCovers(l, typ, s.reportDay, first);
    hide Start;
    RunCovers(l, s.script, typ, s.reportDay, first);
    RunGrows(l, s.script, typ, s.reportDay);
  }

  /** One safe session, with any turns and any end, leaves no gap behind. */
  lemma AfterCovers<V>(db: Db<V>, s: Session<V>, typ: int)
    requires NoGaps(db, typ) && Safe(db.table, s, typ)
    ensures NoGaps(After(db, s, typ), typ)
  {
    hide Safe, Run, Harmless, NoGaps;
    if Start(db.table, s, typ).Some? {
      SafeStart(db, s, typ);
      HarmlessCovers(db, s, typ);
    }
  }

  lemma {:induction false} RunGrows<V>(l: Loop<V>, script: seq<Turn<V>>, typ: int, reportDay: int)
    ensures l.table.Keys <= Run(l, script, typ, reportDay).table.Keys
    ensures l.visits <= Run(l, script, typ, reportDay).visits
    decreases |script|
  {
    hide Next, Due, Key;
    if script != [] {
      RunGrows(l, script[..|script| - 1], typ, reportDay);
    }
  }

  ghost predicate AllSafe<V>(db: Db<V>, sessions: seq<Session<V>>, typ: int) {
    forall k :: 0 <= k < |sessions| ==> Safe(AfterAll(db, sessions[..k], typ).table, sessions[k], typ)
  }

  lemma AllSafeParts<V>(db: Db<V>, sessions: seq<Session<V>>, typ: int)
    requires AllSafe(db, sessions, typ) && sessions != []
    ensures
      var n := |sessions| - 1;
      AllSafe(db, sessions[..n], typ) && Safe(AfterAll(db, sessions[..n], typ).table, sessions[n], typ)
  {
    hide Safe, AfterAll;
    var init := sessions[..|sessions| - 1];
    forall k | 0 <= k < |init|
      ensures Safe(AfterAll(db, init[..k], typ).table, init[k], typ)
    {
      assert init[..k] == sessions[..k];
    }
  }

  lemma {:induction false} AfterAllCovers<V>(db: Db<V>, sessions: seq<Session<V>>, typ: int)
    requires NoGaps(db, typ) && AllSafe(db, sessions, typ)
    ensures NoGaps(AfterAll(db, sessions, typ), typ)
    decreases |sessions|
  {
    if sessions != [] {
      hide NoGaps, Safe, After, AllSafe;
      var n := |sessions| - 1;
      AllSafeParts(db, sessions, typ);
      AfterAllCovers(db, sessions[..n], typ);
      AfterCovers(AfterAll(db, sessions[..n], typ), sessions[n], typ);
    }
  }

  /**
   * Over any sequence of safe sessions from an empty archive, with any answers, failures, crashes
   * and cancellations, and with any report days: every period between the first cursor of the session
   * that stored the first row and the greatest key was stored, or read and found to have no record.
   */
  lemma NoSilentGaps<V>(sessions: seq<Session<V>>, typ: int)
    requires AllSafe(Db(map[], [], None), sessions, typ)
    ensures NoGaps(AfterAll(Db(map[], [], None), sessions, typ), typ)
  {
    hide AllSafe;
    AfterAllCovers(Db(map[], [], None), sessions, typ);
  }

  // ---- Sessions that pass over a mark -------------------------------------------------------

  /** A missing record at the cursor, and a stored one at the next mark. */
  function MissThenStore<V>(start: Time, v: V, typ: int, reportDay: int): seq<Turn<V>> {
    var now := Next(start, typ, reportDay) + 2 * DAY;
    [Turn(now, false, NoRecord, Saved), Turn(now, false, Got(v), Saved)]
  }

  lemma RunPair<V>(l: Loop<V>, t: Turn<V>, u: Turn<V>, typ: int, reportDay: int)
    ensures Run(l, [t, u], typ, reportDay) == Advance(Advance(l, t, typ, reportDay), u, typ, reportDay)
  {
    hide Advance;
    assert [t, u][..1] == [t] && [t][..0] == [];
    assert Run(l, [t], typ, reportDay) == Advance(Run(l, [], typ, reportDay), t, typ, reportDay);
  }

  lemma MissThenStoreDoes<V>(l: Loop<V>, v: V, typ: int, reportDay: int)
    requires Typed(typ) && Running(l)
    ensures
      var next := Next(l.cursor, typ, reportDay);
      var n := Run(l, MissThenStore(l.cursor, v, typ, reportDay), typ, reportDay);
      && n.table == l.table[Key(next, typ) := v]
      && n.visits == l.visits + [Visit(l.cursor, reportDay, false), Visit(next, reportDay, true)]
  {
    var t := MissThenStore(l.cursor, v, typ, reportDay);
    hide Next, Key;
    NextLater(l.cursor, typ, reportDay);
    RunPair(l, t[0], t[1], typ, reportDay);
    assert t == [t[0], t[1]];
    hide Run;
    var m := Advance(l, t[0], typ, reportDay);
    assert m == l.(cursor := Next(l.cursor, typ, reportDay), visits := l.visits + [Visit(l.cursor, reportDay, false)]);
  }

  /** From an unsafe start those two turns leave a gap, unless the period had been read before. */
  lemma UnsafeSkips<V>(db: Db<V>, s: Session<V>, typ: int, v: V)
    requires Typed(typ) && NoGaps(db, typ) && Start(db.table, s, typ).Some? && !Safe(db.table, s, typ)
    requires !Covered(db.table, db.visits, typ, Period(Start(db.table, s, typ).value, typ))
    requires s.script == MissThenStore(Start(db.table, s, typ).value, v, typ, s.reportDay)
    ensures !NoGaps(After(db, s, typ), typ)
  {
    hide Safe, Next, Key, OnGrid, Period;
    SafeStart(db, s, typ);
    var start := Start(db.table, s, typ).value;
    var next, p := Next(start, typ, s.reportDay), Period(start, typ);
    MissThenStoreDoes(Loop(start, Limit(s.batch), db.table, db.visits, false), v, typ, s.reportDay);
    NextPeriod(start, typ, s.reportDay);
    KeyKeepsPeriod(next, typ);
    hide Start;
    var n := After(db, s, typ);
    var k := Key(next, typ);
    assert n.table == db.table[k := v] && k in n.table;
    assert n.visits == db.visits + [Visit(start, s.reportDay, false), Visit(next, s.reportDay, true)];
    hide Run;
    assert !Covered(n.table, n.visits, typ, p) by {
      forall i | 0 <= i < |n.visits|
        ensures !Accounts(n.table, n.visits[i], typ, p)
      {
        if i < |db.visits| {
          KeyKeepsPeriod(db.visits[i].mark, typ);
          assert !Accounts(db.table, db.visits[i], typ, p);
        }
      }
    }
    if Period(Last(n.table), typ) < p + 1 {
      LaterPeriod(Last(n.table), k, typ);
    }
  }

  /**
   * A session can leave no gap, whatever its turns, exactly when it is safe, or when the period it
   * starts in has been read to the end before.
   */
  lemma SafeExactly<V(!new)>(db: Db<V>, s: Session<V>, typ: int, v: V)
    requires Typed(typ) && NoGaps(db, typ) && Start(db.table, s, typ).Some?
    ensures
      Safe(db.table, s, typ) || Covered(db.table, db.visits, typ, Period(Start(db.table, s, typ).value, typ)) <==>
      forall script :: NoGaps(After(db, s.(script := script), typ), typ)
  {
    hide NoGaps, After, Covered, Safe;
    var start := Start(db.table, s, typ).value;
    if Safe(db.table, s, typ) || Covered(db.table, db.visits, typ, Period(start, typ)) {
      forall script
        ensures NoGaps(After(db, s.(script := script), typ), typ)
      {
        var other := s.(script := script);
        SameStart(db.table, s, other, typ);
        SafeStart(db, s, typ);
        HarmlessCovers(db, other, typ);
      }
    } else {
      var other := s.(script := MissThenStore(start, v, typ, s.reportDay));
      SameStart(db.table, s, other, typ);
      UnsafeSkips(db, other, typ, v);
    }
  }

  lemma SameStart<V>(table: map<Time, V>, s: Session<V>, other: Session<V>, typ: int)
    requires other == s.(script := other.script)
    ensures Start(table, other, typ) == Start(table, s, typ) && (Safe(table, other, typ) <==> Safe(table, s, typ))
  {}

  /** The table that holds just the report mark of month n. */
  function OneMonth<V>(n: int, reportDay: int, v: V, typ: int): Db<V> {
    var mark := ReportMark(n, reportDay);
    Db(map[Key(mark, typ) := v], [Visit(mark, reportDay, true)], Some(mark))
  }

  lemma OneMonthHolds<V>(n: int, reportDay: int, v: V, typ: int)
    requires ByMonth(typ)
    ensures
      var db := OneMonth(n, reportDay, v, typ);
      && db.table.Keys == {Key(ReportMark(n, reportDay), typ)} && db.table != map[]
      && Last(db.table) == Key(ReportMark(n, reportDay), typ) && Month(Last(db.table)) == n
      && NoGaps(db, typ) && !Covered(db.table, db.visits, typ, n + 1)
  {
    var db, mark := OneMonth(n, reportDay, v, typ), ReportMark(n, reportDay);
    ReportMarkParts(n, reportDay);
    hide ReportMark, Month, Key;
    KeyKeepsPeriod(mark, typ);
    assert db.visits == [Visit(mark, reportDay, true)];
    assert Key(mark, typ) in db.table && Last(db.table) in db.table;
    assert Accounts(db.table, db.visits[0], typ, n);
    assert Covered(db.table, db.visits, typ, n);
  }

  lemma OneMonthUnsafe<V>(table: map<Time, V>, n: int, reportDay: int, typ: int, s: Session<V>)
    requires ByMonth(typ) && table != map[] && Month(Last(table)) == n && Clamp(reportDay, n + 1) > DaysIn(n)
    requires s.prepared && s.overlap == 1 && s.reportDay == reportDay
    ensures !Safe(table, s, typ)
    ensures Start(table, s, typ) == Some(Overlapped(ReportMark(n + 1, reportDay), typ, 1))
  {
    hide Month, DaysIn, Clamp, Overlapped, ReportMark, MonthReportDate;
    ReportDateIsMark(Last(table), 1, reportDay);
  }

  /**
   * The gap is real wherever the report day exceeds the previous month: with the mark of the
   * previous month stored and an overlap of one month, the mark of month n + 1 is passed over.
   */
  lemma OverlapPassesMark<V>(n: int, reportDay: int, v: V, typ: int, s: Session<V>)
    requires ByMonth(typ) && Clamp(reportDay, n + 1) > DaysIn(n)
    requires s.prepared && s.overlap == 1 && s.reportDay == reportDay
    requires
      var start := Overlapped(ReportMark(n + 1, reportDay), typ, 1);
      s.script == MissThenStore(start, v, typ, reportDay)
    ensures
      var db := OneMonth(n, reportDay, v, typ);
      NoGaps(db, typ) && !NoGaps(After(db, s, typ), typ)
  {
    hide *;
    var db := OneMonth(n, reportDay, v, typ);
    OneMonthHolds(n, reportDay, v, typ);
    OneMonthUnsafe(db.table, n, reportDay, typ, s);
    SafeStart(db, s, typ);
    MonthlyPeriods(Start(db.table, s, typ).value, Last(db.table), typ);
    UnsafeSkips(db, s, typ, v);
  }

  lemma MonthlyPeriods(s: Time, t: Time, typ: int)
    requires ByMonth(typ)
    ensures Typed(typ) && Period(s, typ) == Month(s) && Period(t, typ) == Month(t)
  {}

  /** Report day 31 does so in every March: February is shorter, by two or three days. */
  lemma MarchPassed(march: int)
    requires march % 12 == 2
    ensures Clamp(31, march) == 31 > DaysIn(march - 1)
  {
    assert (march - 1) % 12 == 1;
    hide Leap;
  }

  // ---- One session -------------------------------------------------------------------------

  lemma LastHasLastPeriod<V>(table: map<Time, V>, typ: int)
    requires table != map[]
    ensures forall k :: k in table ==> Period(k, typ) <= Period(Last(table), typ)
  {
    hide Period;
    forall k | k in table
      ensures Period(k, typ) <= Period(Last(table), typ)
    {
      if Period(Last(table), typ) < Period(k, typ) {
        LaterPeriod(Last(table), k, typ);
      }
    }
  }

  /** The n-th mark from start. */
  function Nth(start: Time, n: nat, typ: int, reportDay: int): Time {
    if n == 0 then start else Next(Nth(start, n - 1, typ, reportDay), typ, reportDay)
  }

  lemma {:induction false} NthPeriod(start: Time, n: nat, typ: int, reportDay: int)
    ensures Period(Nth(start, n, typ, reportDay), typ) == Period(start, typ) + n
  {
    hide Next, Period;
    if n > 0 {
      NthPeriod(start, n - 1, typ, reportDay);
      NextPeriod(Nth(start, n - 1, typ, reportDay), typ, reportDay);
    }
  }

  function StoredCount(visits: seq<Visit>): nat {
    if visits == [] then 0
    else StoredCount(visits[..|visits| - 1]) + if visits[|visits| - 1].stored then 1 else 0
  }

  /**
   * What a session has done: consecutive marks, one a turn, each due at its own turn, and at most
   * limit of them stored.
   */
  ghost predicate Progress<V>(visits: seq<Visit>, start: Time, limit: nat, l: Loop<V>, script: seq<Turn<V>>,
                              typ: int, reportDay: int) {
    && |visits| <= |script|
    && (Running(l) ==> |visits| == |script|)
    && (forall k :: 0 <= k < |visits| ==>
          visits[k].mark == Nth(start, k, typ, reportDay) && Due(visits[k].mark, typ, script[k].now))
    && (!l.stopped ==> l.cursor == Nth(start, |visits|, typ, reportDay) && StoredCount(visits) + l.left == limit)
    && StoredCount(visits) <= limit
  }

  lemma AdvanceProgresses<V>(visits: seq<Visit>, start: Time, limit: nat, l: Loop<V>, script: seq<Turn<V>>,
                             t: Turn<V>, typ: int, reportDay: int)
    requires Progress(visits, start, limit, l, script, typ, reportDay)
    ensures
      var n := Advance(l, t, typ, reportDay);
      |l.visits| <= |n.visits| <= |l.visits| + 1 && l.visits <= n.visits &&
      Progress(visits + n.visits[|l.visits|..], start, limit, n, script + [t], typ, reportDay)
  {
    hide Next, Due, Advance;
    var n := Advance(l, t, typ, reportDay);
    AdvanceVisits(l, t, typ, reportDay);
    if n.visits == l.visits {
      assert visits + n.visits[|l.visits|..] == visits;
    } else {
      var v := n.visits[|l.visits|];
      var more := visits + [v];
      assert visits + n.visits[|l.visits|..] == more && more[..|visits|] == visits;
    }
  }

  lemma {:induction false} RunProgresses<V>(l: Loop<V>, script: seq<Turn<V>>, typ: int, reportDay: int)
    requires !l.stopped
    ensures
      var n := Run(l, script, typ, reportDay);
      l.visits <= n.visits && Progress(n.visits[|l.visits|..], l.cursor, l.left, n, script, typ, reportDay)
    decreases |script|
  {
    if script == [] {
      assert l.visits[|l.visits|..] == [];
    } else {
      hide Progress, Advance;
      var init, t := script[..|script| - 1], script[|script| - 1];
      RunProgresses(l, init, typ, reportDay);
      var m := Run(l, init, typ, reportDay);
      var n := Run(l, script, typ, reportDay);
      AdvanceProgresses(m.visits[|l.visits|..], l.cursor, l.left, m, init, t, typ, reportDay);
      assert init + [t] == script;
      hide *;
      Suffixes(l.visits, m.visits, n.visits);
    }
  }

  lemma Suffixes<T>(a: seq<T>, b: seq<T>, c: seq<T>)
    requires a <= b <= c
    ensures a <= c && c[|a|..] == b[|a|..] + c[|b|..]
  {}

  lemma StoredMore(visits: seq<Visit>, v: Visit)
    ensures StoredCount(visits + [v]) == StoredCount(visits) + if v.stored then 1 else 0
  {
    assert (visits + [v])[..|visits|] == visits;
  }

  /** A turn adds one visit and its row, one visit without, or nothing. */
  lemma AdvanceAdds<V>(l: Loop<V>, t: Turn<V>, typ: int, reportDay: int) returns (v: Visit)
    ensures
      var n := Advance(l, t, typ, reportDay);
      || (n.visits == l.visits && n.table == l.table)
      || (n.visits == l.visits + [v] &&
          n.table.Keys == if v.stored then l.table.Keys + {Key(l.cursor, typ)} else l.table.Keys)
  {
    hide Advance, Next, Key, Due;
    AdvanceVisits(l, t, typ, reportDay);
    var n := Advance(l, t, typ, reportDay);
    v := if n.visits == l.visits then Visit(l.cursor, reportDay, false) else n.visits[|l.visits|];
  }

  lemma AdvanceAddsRow<V>(keys: set<Time>, own: seq<Visit>, l: Loop<V>, t: Turn<V>, typ: int, reportDay: int)
    requires |l.table.Keys - keys| <= StoredCount(own)
    ensures
      var n := Advance(l, t, typ, reportDay);
      l.visits <= n.visits && |n.table.Keys - keys| <= StoredCount(own + n.visits[|l.visits|..])
  {
    hide *;
    var v := AdvanceAdds(l, t, typ, reportDay);
    var n, k := Advance(l, t, typ, reportDay), Key(l.cursor, typ);
    StoredMore(own, v);
    OneKeyMore(keys, l.table.Keys, l.table.Keys + {k}, k);
    if n.visits == l.visits && n.table == l.table {
      assert own + n.visits[|l.visits|..] == own;
    } else {
      assert n.visits[|l.visits|..] == [v];
    }
  }

  /** The rows that a run adds are no more than the visits that stored one. */
  lemma {:induction false} RunAddsRows<V>(l: Loop<V>, script: seq<Turn<V>>, typ: int, reportDay: int)
    ensures
      var n := Run(l, script, typ, reportDay);
      l.visits <= n.visits && |n.table.Keys - l.table.Keys| <= StoredCount(n.visits[|l.visits|..])
    decreases |script|
  {
    if script == [] {
      assert l.table.Keys - l.table.Keys == {};
    } else {
      hide Advance, StoredCount;
      var m, t := Run(l, script[..|script| - 1], typ, reportDay), script[|script| - 1];
      RunAddsRows(l, script[..|script| - 1], typ, reportDay);
      AdvanceAddsRow(l.table.Keys, m.visits[|l.visits|..], m, t, typ, reportDay);
      Suffixes(l.visits, m.visits, Run(l, script, typ, reportDay).visits);
    }
  }

  lemma OneKeyMore(a: set<Time>, b: set<Time>, c: set<Time>, k: Time)
    requires c == b + {k}
    ensures |c - a| <= |b - a| + 1
  {
    assert c - a <= (b - a) + {k};
    Subset(c - a, (b - a) + {k});
  }

  lemma {:induction false} Subset(a: set<Time>, b: set<Time>)
    requires a <= b
    ensures |a| <= |b|
  {
    assert b == a + (b - a);
  }

  /**
   * A session visits consecutive marks, so strictly increasing keys, one a turn; every mark stands
   * for a period that was over at its turn; and however many marks have no record, it adds at most
   * as many rows as the batch limit.
   */
  lemma SessionBounds<V>(start: Time, limit: nat, table: map<Time, V>, visits: seq<Visit>, script: seq<Turn<V>>,
                         typ: int, reportDay: int)
    ensures
      var n := Run(Loop(start, limit, table, visits, false), script, typ, reportDay);
      visits <= n.visits && |n.table.Keys - table.Keys| <= limit &&
      var own := n.visits[|visits|..];
      StoredCount(own) <= limit && |own| <= |script| && (!n.stopped ==> StoredCount(own) + n.left == limit) &&
      (forall j, k :: 0 <= j < k < |own| ==> Key(own[j].mark, typ) < Key(own[k].mark, typ)) &&
      forall k :: 0 <= k < |own| ==> Due(own[k].mark, typ, script[k].now)
  {
    hide Next, Key, Period, Advance, Due, StoredCount;
    var l := Loop(start, limit, table, visits, false);
    RunProgresses(l, script, typ, reportDay);
    RunAddsRows(l, script, typ, reportDay);
    var own := Run(l, script, typ, reportDay).visits[|visits|..];
    forall j, k | 0 <= j < k < |own|
      ensures Key(own[j].mark, typ) < Key(own[k].mark, typ)
    {
      NthPeriod(start, j, typ, reportDay);
      NthPeriod(start, k, typ, reportDay);
      LaterPeriod(own[j].mark, own[k].mark, typ);
    }
  }

  /** A session that nothing stops stores as many records as its batch, and one if that is no positive number. */
  lemma SessionFills<V>(db: Db<V>, s: Session<V>, typ: int)
    requires Start(db.table, s, typ).Some?
    ensures
      var l := Loop(Start(db.table, s, typ).value, Limit(s.batch), db.table, db.visits, false);
      var n := Run(l, s.script, typ, s.reportDay);
      !Running(n) && !n.stopped ==>
        db.visits <= n.visits && StoredCount(n.visits[|db.visits|..]) == if s.batch <= 0 then 1 else s.batch
  {
    hide StoredCount, Run, Start;
    SessionBounds(Start(db.table, s, typ).value, Limit(s.batch), db.table, db.visits, s.script, typ, s.reportDay);
  }

  // ---- Turns that go on --------------------------------------------------------------------

  /** A turn that reads this mark and leaves the loop running, if rows are left. */
  predicate GoesOn<V>(t: Turn<V>, mark: Time, typ: int) {
    !t.cancelled && Due(mark, typ, t.now) && (t.answer.NoRecord? || (t.answer.Got? && t.saving.Saved?))
  }

  /** While the turns go on and rows are left, the loop takes one mark after another. */
  lemma {:induction false} GoingOnReaches<V>(l: Loop<V>, script: seq<Turn<V>>, typ: int, reportDay: int)
    requires !l.stopped && |script| <= l.left
    requires forall i :: 0 <= i < |script| ==> GoesOn(script[i], Nth(l.cursor, i, typ, reportDay), typ)
    ensures
      var n := Run(l, script, typ, reportDay);
      && !n.stopped && n.cursor == Nth(l.cursor, |script|, typ, reportDay) && n.left >= l.left - |script|
      && |n.visits| == |l.visits| + |script| && l.visits <= n.visits
      && (script != [] ==>
            var i, t := |script| - 1, script[|script| - 1];
            n.visits[|l.visits| + i].mark == Nth(l.cursor, i, typ, reportDay) &&
            (t.answer.Got? ==> Key(n.visits[|l.visits| + i].mark, typ) in n.table))
    decreases |script|
  {
    if script != [] {
      hide Next, Key, Due;
      var init, t := script[..|script| - 1], script[|script| - 1];
      GoingOnReaches(l, init, typ, reportDay);
      NextLater(Nth(l.cursor, |init|, typ, reportDay), typ, reportDay);
    }
  }

  lemma {:induction false} RunSplits<V>(l: Loop<V>, a: seq<Turn<V>>, b: seq<Turn<V>>, typ: int, reportDay: int)
    ensures Run(l, a + b, typ, reportDay) == Run(Run(l, a, typ, reportDay), b, typ, reportDay)
    decreases |b|
  {
    hide Advance;
    if b == [] {
      assert a + b == a;
    } else {
      assert (a + b)[..|a + b| - 1] == a + b[..|b| - 1];
      RunSplits(l, a, b[..|b| - 1], typ, reportDay);
    }
  }

  /** While rows are left, n turns that go on read the n-th mark, whatever turns follow. */
  lemma GoingOnReads<V>(l: Loop<V>, script: seq<Turn<V>>, n: nat, typ: int, reportDay: int)
    requires !l.stopped && 0 < n <= |script| && n <= l.left
    requires forall i :: 0 <= i < n ==> GoesOn(script[i], Nth(l.cursor, i, typ, reportDay), typ)
    ensures
      var visits := Run(l, script, typ, reportDay).visits;
      |visits| >= |l.visits| + n && visits[|l.visits| + n - 1].mark == Nth(l.cursor, n - 1, typ, reportDay)
  {
    hide GoesOn, Nth, Run;
    var turns := script[..n];
    GoingOnReaches(l, turns, typ, reportDay);
    assert turns + script[n..] == script;
    RunSplits(l, turns, script[n..], typ, reportDay);
    RunGrows(Run(l, turns, typ, reportDay), script[n..], typ, reportDay);
  }

  /** The visits of a run stand for one period after another. */
  lemma VisitPeriods<V>(l: Loop<V>, script: seq<Turn<V>>, typ: int, reportDay: int, i: nat)
    requires !l.stopped && |l.visits| <= i < |Run(l, script, typ, reportDay).visits|
    ensures Period(Run(l, script, typ, reportDay).visits[i].mark, typ) == Period(l.cursor, typ) + (i - |l.visits|)
  {
    hide Period, Nth, Due, Run;
    RunProgresses(l, script, typ, reportDay);
    var later := Run(l, script, typ, reportDay).visits;
    assert later[i] == later[|l.visits|..][i - |l.visits|];
    NthPeriod(l.cursor, i - |l.visits|, typ, reportDay);
  }

  /** The loop that a session runs, when it gets as far. */
  ghost function Looping<V>(db: Db<V>, s: Session<V>, typ: int): Loop<V>
    requires Start(db.table, s, typ).Some?
  {
    Loop(Start(db.table, s, typ).value, Limit(s.batch), db.table, db.visits, false)
  }

  lemma AfterIsRun<V>(db: Db<V>, s: Session<V>, typ: int)
    requires Start(db.table, s, typ).Some?
    ensures
      var n := Run(Looping(db, s, typ), s.script, typ, s.reportDay);
      After(db, s, typ).visits == n.visits && After(db, s, typ).table == n.table
  {
    hide Start, Run;
  }
}
