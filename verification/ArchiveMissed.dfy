// Dates that the meter had no record for: whether a later session asks for them again.

module ArchiveMissed {
  import opened Bytes
  import opened Calendar
  import opened Marks
  import opened Archive

  /** A session reads period p: one of its own visits is to a mark of that period. */
  ghost predicate ReadsPeriod<V>(db: Db<V>, s: Session<V>, typ: int, p: int) {
    var later := After(db, s, typ).visits;
    exists i :: |db.visits| <= i < |later| && Period(later[i].mark, typ) == p
  }

  /** The table has a row of a later period. */
  ghost predicate RowAfter<V>(table: map<Time, V>, typ: int, p: int) {
    exists k :: k in table && Period(k, typ) > p
  }

  /**
   * A session that gets as far as period p if p lies ahead of it: its first turns go on, one for
   * each mark up to that of p, and the batch has room for all of them.
   */
  ghost predicate GetsTo<V>(s: Session<V>, start: Time, typ: int, p: int) {
    var n := p - Period(start, typ) + 1;
    n > 0 ==>
      n <= |s.script| && n <= Limit(s.batch) &&
      forall i :: 0 <= i < n ==> GoesOn(s.script[i], Nth(start, i, typ, s.reportDay), typ)
  }

  /** Every visit of a session is to its first cursor's period or a later one. */
  lemma OnlyAhead<V>(db: Db<V>, s: Session<V>, typ: int, p: int)
    requires Start(db.table, s, typ).Some? && ReadsPeriod(db, s, typ, p)
    ensures Period(Start(db.table, s, typ).value, typ) <= p
  {
    hide Start, Period, Run, After;
    AfterIsRun(db, s, typ);
    var later := After(db, s, typ).visits;
    var i :| |db.visits| <= i < |later| && Period(later[i].mark, typ) == p;
    VisitPeriods(Looping(db, s, typ), s.script, typ, s.reportDay, i);
  }

  /** A session that gets to period p reads it. */
  lemma GettingThere<V>(db: Db<V>, s: Session<V>, typ: int, p: int)
    requires Start(db.table, s, typ).Some?
    requires
      var start := Start(db.table, s, typ).value;
      Period(start, typ) <= p && GetsTo(s, start, typ, p)
    ensures ReadsPeriod(db, s, typ, p)
  {
    hide Start, Period, Run, After, GoesOn, Nth;
    AfterIsRun(db, s, typ);
    var l, n := Looping(db, s, typ), p - Period(Start(db.table, s, typ).value, typ) + 1;
    GoingOnReads(l, s.script, n, typ, s.reportDay);
    VisitPeriods(l, s.script, typ, s.reportDay, |db.visits| + n - 1);
    assert Period(After(db, s, typ).visits[|db.visits| + n - 1].mark, typ) == p;
  }

  lemma AheadExactly<V>(table: map<Time, V>, s: Session<V>, typ: int, p: int)
    requires table != map[] && s.prepared && s.overlap <= 0
    requires forall k :: k in table ==> Period(k, typ) != p
    ensures Period(Start(table, s, typ).value, typ) <= p <==> !RowAfter(table, typ, p)
  {
    hide Period, Next;
    NextPeriod(Last(table), typ, s.reportDay);
    LastHasLastPeriod(table, typ);
    assert Last(table) in table;
  }

  /**
   * A date without a row is asked for again by a session without overlap that gets that far,
   * exactly when no row of a later period has been stored meanwhile.
   */
  lemma MissedIsRetried<V>(db: Db<V>, s: Session<V>, typ: int, p: int)
    requires db.table != map[] && s.prepared && s.overlap <= 0
    requires forall k :: k in db.table ==> Period(k, typ) != p
    requires GetsTo(s, Start(db.table, s, typ).value, typ, p)
    ensures ReadsPeriod(db, s, typ, p) <==> !RowAfter(db.table, typ, p)
  {
    hide Period, GetsTo, ReadsPeriod, RowAfter;
    AheadExactly(db.table, s, typ, p);
    if Period(Start(db.table, s, typ).value, typ) <= p {
      GettingThere(db, s, typ, p);
    } else if ReadsPeriod(db, s, typ, p) {
      OnlyAhead(db, s, typ, p);
    }
  }

  /** While the table is empty it is asked for again exactly when the reported range starts no later. */
  lemma MissedAtFirst<V>(db: Db<V>, s: Session<V>, typ: int, p: int)
    requires db.table == map[] && s.prepared && s.range.Some?
    requires GetsTo(s, ParseStart(s.range.value, typ, s.reportDay, s.openedAt), typ, p)
    ensures ReadsPeriod(db, s, typ, p) <==>
            Period(ParseStart(s.range.value, typ, s.reportDay, s.openedAt), typ) <= p
  {
    hide Period, GetsTo, ReadsPeriod, ParseStart;
    var start := ParseStart(s.range.value, typ, s.reportDay, s.openedAt);
    if Period(start, typ) <= p {
      GettingThere(db, s, typ, p);
    } else if ReadsPeriod(db, s, typ, p) {
      OnlyAhead(db, s, typ, p);
    }
  }

  // ---- For good ----------------------------------------------------------------------------

  lemma LastAdvances<V>(db: Db<V>, s: Session<V>, typ: int)
    requires db.table != map[]
    ensures After(db, s, typ).table != map[]
    ensures Period(Last(After(db, s, typ).table), typ) >= Period(Last(db.table), typ)
  {
    hide Period, Start;
    if Start(db.table, s, typ).Some? {
      var l := Loop(Start(db.table, s, typ).value, Limit(s.batch), db.table, db.visits, false);
      RunGrows(l, s.script, typ, s.reportDay);
    }
    assert Last(db.table) in db.table.Keys;
    LastHasLastPeriod(After(db, s, typ).table, typ);
  }

  /** Once a row of this period or a later one is stored, no sequence of sessions reads the period again. */
  lemma {:induction false} PassedForGood<V>(db: Db<V>, sessions: seq<Session<V>>, typ: int, p: int)
    requires db.table != map[] && Period(Last(db.table), typ) >= p
    requires forall s :: s in sessions ==> s.overlap <= 0
    ensures
      var end := AfterAll(db, sessions, typ);
      && end.table != map[] && Period(Last(end.table), typ) >= p
      && forall i :: |db.visits| <= i < |end.visits| ==> Period(end.visits[i].mark, typ) != p
    decreases |sessions|
  {
    if sessions != [] {
      var n := |sessions| - 1;
      var m, s := AfterAll(db, sessions[..n], typ), sessions[n];
      PassedForGood(db, sessions[..n], typ, p);
      assert s in sessions;
      hide Period, Next;
      LastAdvances(m, s, typ);
      NextPeriod(Last(m.table), typ, s.reportDay);
      if Start(m.table, s, typ).Some? {
        var l := Loop(Start(m.table, s, typ).value, Limit(s.batch), m.table, m.visits, false);
        RunGrows(l, s.script, typ, s.reportDay);
        if ReadsPeriod(m, s, typ, p) {
          OnlyAhead(m, s, typ, p);
        }
      }
      var end := After(m, s, typ);
      forall i | |db.visits| <= i < |end.visits|
        ensures Period(end.visits[i].mark, typ) != p
      {
        if i < |m.visits| {
          assert end.visits[i] == m.visits[i];
        }
      }
    }
  }
}
