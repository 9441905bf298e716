// Which dates a collection begins with, asks for and steps back to, told from the octets on the wire.

module Starts {
  import opened Bytes
  import opened Calendar
  import opened ValueTypes
  import opened Marks
  import A = Archive

  // ---- Dates on the wire -------------------------------------------------------------------

  /** Four octets that name a day of the calendar and an hour of it. */
  predicate ValidDate(d: seq<byte>) {
    && |d| == 4 && 1 <= Value(d[1]) <= 12 && Value(d[3]) < 24
    && 1 <= Value(d[0]) <= DaysIn(12 * (2000 + Value(d[2])) + Value(d[1]) - 1)
  }

  /** The clock shows year and month of the octets, this day, and this hour to the second. */
  predicate ShowsHour(t: Time, d: seq<byte>, day: int, hour: int)
    requires |d| == 4
  {
    Year(t) == 2000 + Value(d[2]) && MonthNumber(t) == Value(d[1]) && Day(t) == day && HourOf(t) == hour && OnHour(t)
  }

  predicate OnHour(t: Time) {
    t % HOUR == 0
  }

  lemma ParsedDateShows(d: seq<byte>)
    requires ValidDate(d)
    ensures
      ShowsHour(ParseDate(d), d, Value(d[0]), Value(d[3]))
  {
    hide Value, DaysIn, MonthStart, Month, Day, HourOf;
    var n := 12 * (2000 + Value(d[2])) + Value(d[1]) - 1;
    assert n / 12 == 2000 + Value(d[2]) && n % 12 == Value(d[1]) - 1;
    PartsOfDate(n, Value(d[0]), Value(d[3]));
    WholeHour(n, Value(d[0]), Value(d[3]));
  }

  lemma WholeHour(n: int, day: int, hour: int)
    ensures Date(n / 12, n % 12 + 1, day, hour) % HOUR == 0
  {
    hide MonthStart;
    var m := MonthStart(12 * (n / 12) + (n % 12 + 1) - 1) + day - 1;
    assert Date(n / 12, n % 12 + 1, day, hour) == HOUR * (24 * m + hour);
  }

  /** Impossible parts carry over: months into years, days into months, hours into days. */
  lemma DateCarries(year: int, month: int, day: int, hour: int)
    ensures Date(year, month + 12, day, hour) == Date(year + 1, month, day, hour)
    ensures Date(year, month, day, hour + 24) == Date(year, month, day + 1, hour)
    ensures Date(year, month, DaysIn(12 * year + month - 1) + day, hour) == Date(year, month + 1, day, hour)
  {
    hide MonthStart, DaysIn;
    MonthsAbut(12 * year + month - 1);
    assert 12 * year + (month + 12) - 1 == 12 * (year + 1) + month - 1;
  }

  // ---- The first mark ----------------------------------------------------------------------

  /** The octets of a range that say where this archive begins. */
  function Reported(d: seq<byte>, typ: int): (r: seq<byte>)
    requires |d| >= 4
    ensures |r| == 4
  {
    if typ != HOURLY && |d| >= 12 then d[8..12] else d[0..4]
  }

  /**
   * An archive begins at the reported hour, on the reported day, or at the report mark of the reported
   * month; a daily one at the reported hour if the range is long and at hour 23 if it is short.
   */
  lemma StartShows(d: seq<byte>, typ: int, reportDay: int, now: Time)
    requires Typed(typ) && |d| >= 4 && ValidDate(Reported(d, typ))
    ensures
      var t, r := ParseStart(d, typ, reportDay, now), Reported(d, typ);
      ShowsHour(t, r, if ByMonth(typ) then Clamp(reportDay, Month(t)) else Value(r[0]),
                if typ == HOURLY || (typ == DAILY && |d| >= 12) then Value(r[3]) else 23)
  {
    hide ParseStart, ParseDate, ValidDate, Reported, ShowsHour, Value, ReportMark, Midnight, Month, Clamp;
    var r := Reported(d, typ);
    ParsedDateShows(r);
    StartCases(d, typ, reportDay, now);
    if ByMonth(typ) {
      MarkShows(ParseDate(r), r, reportDay);
    } else if typ == DAILY && |d| < 12 {
      LastHour(ParseDate(r), r);
    }
  }

  lemma SameMonth(s: Time, t: Time)
    ensures Month(s) == Month(t) ==> Year(s) == Year(t) && MonthNumber(s) == MonthNumber(t)
  {
    hide Month;
  }

  lemma StartCases(d: seq<byte>, typ: int, reportDay: int, now: Time)
    requires Typed(typ) && |d| >= 4
    ensures
      var s := ParseDate(Reported(d, typ));
      ParseStart(d, typ, reportDay, now) ==
      if ByMonth(typ) then ReportMark(Month(s), reportDay)
      else if typ == DAILY && |d| < 12 then Midnight(s) + 23 * HOUR
      else s
  {
    hide ParseDate, MonthReportDate, ReportMark, Month, Day, Midnight, Date;
    var s := ParseDate(Reported(d, typ));
    ReportDateIsMark(s, 0, reportDay);
    DateOfDay(s, 23);
  }

  /** Hour 23 of a day, counted from the start of the calendar. */
  lemma At23(day: int)
    ensures
      var t := DAY * day + 23 * HOUR;
      t / DAY == day && HourOf(t) == 23 && OnHour(t)
  {
    var t := DAY * day + 23 * HOUR;
    assert t == HOUR * (24 * day + 23);
    assert t % DAY == 23 * HOUR;
  }

  lemma MarkShows(s: Time, r: seq<byte>, reportDay: int)
    requires |r| == 4 && ShowsHour(s, r, Value(r[0]), Value(r[3]))
    ensures
      var t := ReportMark(Month(s), reportDay);
      ShowsHour(t, r, Clamp(reportDay, Month(t)), 23)
  {
    var n := Month(s);
    ReportMarkParts(n, reportDay);
    SameMonth(s, ReportMark(n, reportDay));
    hide Month, Day, MonthStart, DaysIn, HourOf, OnHour, Year, MonthNumber, Value;
    At23(MonthStart(n) + Clamp(reportDay, n) - 1);
  }

  lemma LastHour(s: Time, r: seq<byte>)
    requires |r| == 4 && ShowsHour(s, r, Value(r[0]), Value(r[3]))
    ensures ShowsHour(Midnight(s) + 23 * HOUR, r, Value(r[0]), 23)
  {
    hide MonthStart, MonthOfDay, HourOf, OnHour, Year, MonthNumber, Value;
    assert Midnight(s) == DAY * (s / DAY);
    At23(s / DAY);
    SameMonth(s, Midnight(s) + 23 * HOUR);
  }

  lemma DateOfDay(s: Time, hour: int)
    ensures Date(Year(s), MonthNumber(s), Day(s), hour) == Midnight(s) + HOUR * hour
  {
    hide MonthStart, MonthOfDay;
    assert 12 * Year(s) + MonthNumber(s) - 1 == Month(s);
    assert Midnight(s) == DAY * (s / DAY);
  }

  /** Without a range it begins at the same time of the same day one year before, or on 1 March of it. */
  lemma YearBefore(d: seq<byte>, typ: int, reportDay: int, now: Time)
    requires |d| < 4
    ensures
      var t := ParseStart(d, typ, reportDay, now);
      && t % DAY == now % DAY
      && (if Day(now) <= DaysIn(Month(now) - 12) then Month(t) == Month(now) - 12 && Day(t) == Day(now)
          else Month(t) == Month(now) - 11 && Day(t) == 1)
  {
    hide MonthStart, DaysIn, MonthOfDay, MonthReportDate;
    var n := Month(now);
    MonthsAbut(n);
    MonthsAbut(n - 12);
    MonthsAbut(n - 11);
    assert 12 * (Year(now) - 1) + MonthNumber(now) - 1 == n - 12;
    var t, day := ParseStart(d, typ, reportDay, now), MonthStart(n - 12) + Day(now) - 1;
    assert t == DAY * day + now % DAY;
    assert t / DAY == day && t % DAY == now % DAY;
    YearsAlike(n);
    MonthUnique(day, Month(t), if Day(now) <= DaysIn(n - 12) then n - 12 else n - 11);
  }

  lemma YearsAlike(n: int)
    ensures DaysIn(n) <= DaysIn(n - 12) + 1
  {
    assert (n - 12) % 12 == n % 12;
  }

  // ---- No gap since the reported date ------------------------------------------------------

  /** The hour, day or month that a reported date lies in. */
  function ReportedPeriod(d: seq<byte>, typ: int): int
    requires |d| >= 4
  {
    Period(ParseDate(Reported(d, typ)), typ)
  }

  lemma StartPeriod(d: seq<byte>, typ: int, reportDay: int, now: Time)
    requires Typed(typ) && |d| >= 4
    ensures Period(ParseStart(d, typ, reportDay, now), typ) == ReportedPeriod(d, typ)
  {
    hide ParseStart, ParseDate, Reported, ReportMark, Month, Clamp;
    var s := ParseDate(Reported(d, typ));
    StartCases(d, typ, reportDay, now);
    ReportMarkParts(Month(s), reportDay);
    assert typ == DAILY ==> (Midnight(s) + 23 * HOUR) / DAY == s / DAY;
  }

  /** The range is the same whenever it is asked for. */
  ghost predicate AlwaysReports<V>(sessions: seq<A.Session<V>>, d: seq<byte>) {
    forall s :: s in sessions && s.range.Some? ==> s.range.value == d
  }

  lemma {:induction false} OriginReported<V>(sessions: seq<A.Session<V>>, typ: int, d: seq<byte>)
    requires Typed(typ) && |d| >= 4 && AlwaysReports(sessions, d)
    ensures
      var db := A.AfterAll(A.Db(map[], [], None), sessions, typ);
      db.table != map[] ==> db.origin.Some? && Period(db.origin.value, typ) == ReportedPeriod(d, typ)
    decreases |sessions|
  {
    hide ParseStart, Period, ReportedPeriod, A.Run, Overlapped;
    if sessions != [] {
      var s := sessions[|sessions| - 1];
      OriginReported(sessions[..|sessions| - 1], typ, d);
      StartPeriod(d, typ, s.reportDay, s.openedAt);
      var before := A.AfterAll(A.Db(map[], [], None), sessions[..|sessions| - 1], typ);
      var start := A.Start(before.table, s, typ);
      if start.Some? {
        var l := A.Loop(start.value, A.Limit(s.batch), before.table, before.visits, false);
        A.RunGrows(l, s.script, typ, s.reportDay);
        if before.table != map[] {
          var k :| k in before.table;
          assert k in A.Run(l, s.script, typ, s.reportDay).table;
        }
      }
    }
  }

  /**
   * Over any sequence of safe sessions from an empty archive, every period from the one that the meter
   * reports as the beginning of this archive to that of the greatest key is stored, or was found
   * missing at its mark.
   */
  lemma NoGapsSinceReported<V>(sessions: seq<A.Session<V>>, typ: int, d: seq<byte>)
    requires Typed(typ) && |d| >= 4 && AlwaysReports(sessions, d)
    requires A.AllSafe(A.Db(map[], [], None), sessions, typ)
    ensures
      var db := A.AfterAll(A.Db(map[], [], None), sessions, typ);
      db.table != map[] ==>
        ReportedPeriod(d, typ) <= Period(A.Last(db.table), typ) &&
        A.CoveredUpTo(db.table, db.visits, typ, ReportedPeriod(d, typ), Period(A.Last(db.table), typ) + 1)
  {
    hide Period, ReportedPeriod, A.CoveredUpTo, A.AllSafe, A.AfterAll;
    A.NoSilentGaps(sessions, typ);
    OriginReported(sessions, typ, d);
  }

  // ---- The date asked for ------------------------------------------------------------------

  /** The date written for a mark, read as the meter reads it: its hour, or hour 23 of its day. */
  lemma StampReadsBack(t: Time, typ: int)
    requires Typed(typ) && 2000 <= Year(t) <= 2255
    ensures
      var s := DateStamp(t, typ);
      ParseDate([s.day, s.month, s.year, s.hour]) == if typ == HOURLY then t - t % HOUR else Midnight(t) + 23 * HOUR
  {
    hide Low, Value, Year, MonthNumber, Day, Date;
    DayInOctet(t);
    var hour := if typ == HOURLY then HourOf(t) else 23;
    DateOfDay(t, hour);
    HourAt(t);
  }

  lemma DayInOctet(t: Time)
    ensures 1 <= Day(t) <= 31 && 1 <= MonthNumber(t) <= 12
  {
    hide MonthStart, DaysIn, MonthOfDay;
    MonthsAbut(Month(t));
  }

  lemma HourAt(t: Time)
    ensures 0 <= HourOf(t) < 24 && Midnight(t) + HOUR * HourOf(t) == t - t % HOUR
  {
    var r := t % DAY;
    assert t == DAY * (t / DAY) + r && r == HOUR * (r / HOUR) + r % HOUR;
    assert t == HOUR * (24 * (t / DAY) + r / HOUR) + r % HOUR;
  }

  /** Hourly records are kept under their mark, the others under the date of it. */
  lemma KeyIsDate(t: Time, typ: int)
    ensures if typ == HOURLY then Key(t, typ) == t else Key(t, typ) % DAY == 0 && Key(t, typ) / DAY == t / DAY
  {}

  // ---- How far an overlap goes -------------------------------------------------------------

  /**
   * An overlap leads back by exactly so many hours, days or months, to the same time of the hour or
   * the day; by months to the same day, or past the end of a month that lacks it.
   */
  lemma OverlapMoves(t: Time, typ: int, k: nat)
    requires Typed(typ)
    ensures typ == HOURLY ==> Overlapped(t, typ, k) / HOUR == t / HOUR - k && Overlapped(t, typ, k) % HOUR == t % HOUR
    ensures typ == DAILY ==> Overlapped(t, typ, k) / DAY == t / DAY - k && Overlapped(t, typ, k) % DAY == t % DAY
    ensures ByMonth(typ) ==>
              var n: int := Month(t) - k;
              var s := Overlapped(t, typ, k);
              && s % DAY == t % DAY
              && if Day(t) <= DaysIn(n) then Month(s) == n && Day(s) == Day(t)
                 else Month(s) == n + 1 && Day(s) == Day(t) - DaysIn(n)
  {
    hide AddMonths, Month, Day, DaysIn;
    if ByMonth(typ) {
      MonthsMove(t, k);
    }
  }

  lemma MonthsMove(t: Time, k: nat)
    ensures
      var n: int := Month(t) - k;
      var s := if k == 0 then t else AddMonths(t, 0 - k);
      && s % DAY == t % DAY
      && if Day(t) <= DaysIn(n) then Month(s) == n && Day(s) == Day(t)
         else Month(s) == n + 1 && Day(s) == Day(t) - DaysIn(n)
  {
    hide MonthStart, DaysIn, MonthOfDay;
    var m := Month(t);
    var n: int := m - k;
    MonthsAbut(m);
    MonthsAbut(n);
    MonthsAbut(n + 1);
    assert 12 * Year(t) + MonthNumber(t) - 1 == m;
    if k > 0 {
      var s, day := AddMonths(t, 0 - k), MonthStart(n) + Day(t) - 1;
      assert s == DAY * day + t % DAY;
      assert s / DAY == day && s % DAY == t % DAY;
      MonthUnique(day, Month(s), if Day(t) <= DaysIn(n) then n else n + 1);
    }
  }
}
