// The chronological marks of the four archives: where collection starts, how the cursor steps,
// when a mark is due, and under which key a record is stored.

module Marks {
  import opened Bytes
  import opened Calendar
  import opened ValueTypes

  predicate Typed(typ: int) {
    typ == HOURLY || typ == DAILY || typ == MONTHLY || typ == TOTAL
  }

  predicate ByMonth(typ: int) {
    typ == MONTHLY || typ == TOTAL
  }

  /** nextArchiveTime. */
  function Next(t: Time, typ: int, reportDay: int): Time {
    if typ == HOURLY then t + HOUR
    else if ByMonth(typ) then MonthReportDate(t, 1, reportDay)
    else t + DAY
  }

  /** due: whether the period of mark t is over at now. */
  predicate Due(t: Time, typ: int, now: Time) {
    if typ == HOURLY then t <= now - now % HOUR - HOUR
    else if typ == DAILY then t <= now - DAY
    else if ByMonth(typ) then t < now - now % DAY
    else false
  }

  /** The key under which SaveArchive stores mark t: hourly marks as they are, others by date. */
  function Key(t: Time, typ: int): Time {
    if typ == HOURLY then t else Midnight(t)
  }

  /** The number of the hour, day or month that a mark stands for. */
  function Period(t: Time, typ: int): int {
    if typ == HOURLY then t / HOUR
    else if ByMonth(typ) then Month(t)
    else t / DAY
  }

  /** A monthly mark lies on the grid when it is the report mark of its month. */
  predicate OnGrid(t: Time, typ: int, reportDay: int) {
    ByMonth(typ) ==> t == ReportMark(Month(t), reportDay)
  }

  // ---- Stepping ----------------------------------------------------------------------------

  /** Every step leads to the mark of exactly the next period. */
  lemma NextPeriod(t: Time, typ: int, reportDay: int)
    ensures Period(Next(t, typ, reportDay), typ) == Period(t, typ) + 1
    ensures OnGrid(Next(t, typ, reportDay), typ, reportDay)
  {
    hide MonthReportDate, ReportMark, Month;
    if ByMonth(typ) {
      ReportDateIsMark(t, 1, reportDay);
      ReportMarkParts(Month(t) + 1, reportDay);
    }
  }

  lemma MonthIsMonotone(s: Time, t: Time)
    requires Month(s) < Month(t)
    ensures s / DAY < t / DAY
  {
    hide MonthStart, MonthOfDay;
    MonthsAscend(Month(s) + 1, Month(t));
  }

  /** A mark of a later period is a later time, with a later key. */
  lemma LaterPeriod(s: Time, t: Time, typ: int)
    requires Period(s, typ) < Period(t, typ)
    ensures s < t && Key(s, typ) < Key(t, typ)
  {
    hide Month;
    if ByMonth(typ) {
      MonthIsMonotone(s, t);
    }
  }

  lemma NextLater(t: Time, typ: int, reportDay: int)
    ensures t < Next(t, typ, reportDay)
  {
    hide Next, Period;
    NextPeriod(t, typ, reportDay);
    LaterPeriod(t, Next(t, typ, reportDay), typ);
  }

  lemma KeyKeepsPeriod(t: Time, typ: int)
    ensures Period(Key(t, typ), typ) == Period(t, typ)
    ensures Key(Key(t, typ), typ) == Key(t, typ)
  {
    hide MonthOfDay, Midnight;
    MidnightSteps(t);
    MidnightDay(t);
  }

  /** Resuming from the stored key leads to the same next key as continuing from the mark. */
  lemma ResumeAgrees(t: Time, typ: int, reportDay: int)
    ensures Key(Next(Key(t, typ), typ, reportDay), typ) == Key(Next(t, typ, reportDay), typ)
    ensures typ == HOURLY || ByMonth(typ) ==> Next(Key(t, typ), typ, reportDay) == Next(t, typ, reportDay)
  {
    hide MonthReportDate, Midnight;
    if ByMonth(typ) {
      hide ReportMark, Month;
      KeyMonth(t);
      ReportDateIsMark(t, 1, reportDay);
      ReportDateIsMark(Midnight(t), 1, reportDay);
    } else {
      MidnightSteps(t);
      MidnightSteps(Midnight(t));
    }
  }

  lemma KeyMonth(t: Time)
    ensures Month(Midnight(t)) == Month(t)
  {
    hide MonthOfDay, Midnight;
    MidnightDay(t);
  }

  // ---- Due marks ---------------------------------------------------------------------------

  /** A due mark stands for a period that has ended. */
  lemma DueIsOver(t: Time, typ: int, now: Time)
    requires Due(t, typ, now)
    ensures t < now
    ensures typ == HOURLY ==> t + HOUR <= now
    ensures typ != HOURLY ==> Key(t, typ) + DAY <= now
  {}

  /** A mark becomes due at the very moment its hour or day is over. */
  lemma DueExactly(t: Time, typ: int, now: Time)
    requires Typed(typ)
    requires typ == HOURLY ==> t % HOUR == 0
    requires typ == DAILY ==> t % DAY == 0
    ensures Due(t, typ, now) <==> if typ == HOURLY then t + HOUR <= now else Key(t, typ) + DAY <= now
  {
    if typ == HOURLY {
      WholeUnits(t, now, HOUR);
    } else if ByMonth(typ) {
      WholeUnits(Midnight(t), now, DAY);
    }
  }

  lemma WholeUnits(t: Time, now: Time, unit: int)
    requires unit == HOUR || unit == DAY
    requires t % unit == 0
    ensures t <= now - now % unit - unit <==> t + unit <= now
  {}

  /** Once a mark is not due, no later mark is. */
  lemma DueIsAntitone(s: Time, t: Time, typ: int, now: Time)
    requires s <= t && Due(t, typ, now)
    ensures Due(s, typ, now)
  {}

  // ---- The start of a collection -----------------------------------------------------------

  /** parseVTDate: day, month, year - 2000, hour; impossible parts carry over. */
  function ParseDate(d: seq<byte>): Time
    requires |d| >= 4
  {
    Date(2000 + Value(d[2]), Value(d[1]), Value(d[0]), Value(d[3]))
  }

  /** parseStart on the range that the meter reports. */
  function ParseStart(d: seq<byte>, typ: int, reportDay: int, now: Time): Time {
    if |d| >= 12 && typ == HOURLY then ParseDate(d[0..4])
    else if |d| >= 12 && typ == DAILY then ParseDate(d[8..12])
    else if |d| >= 12 && ByMonth(typ) then MonthReportDate(ParseDate(d[8..12]), 0, reportDay)
    else if |d| >= 4 && typ == HOURLY then ParseDate(d[0..4])
    else if |d| >= 4 && typ == DAILY then
      var start := ParseDate(d[0..4]);
      Date(Year(start), MonthNumber(start), Day(start), 23)
    else if |d| >= 4 && ByMonth(typ) then MonthReportDate(ParseDate(d[0..4]), 0, reportDay)
    else Date(Year(now) - 1, MonthNumber(now), Day(now), 0) + now % DAY
  }

  /** A range of at least four octets puts the first mark on the grid. */
  lemma StartOnGrid(d: seq<byte>, typ: int, reportDay: int, now: Time)
    requires |d| >= 4
    ensures OnGrid(ParseStart(d, typ, reportDay, now), typ, reportDay)
  {
    hide MonthReportDate, ReportMark, Month, ParseDate;
    if ByMonth(typ) {
      var t := if |d| >= 12 then ParseDate(d[8..12]) else ParseDate(d[0..4]);
      ReportDateIsMark(t, 0, reportDay);
      ReportMarkParts(Month(t), reportDay);
    }
  }

  /** Whether a daily collection from this range starts at midnight: never, if the range is short. */
  predicate StartsAtMidnight(d: seq<byte>, now: Time) {
    if |d| >= 12 then Value(d[11]) % 24 == 0
    else if |d| >= 4 then false
    else now % DAY == 0
  }

  lemma DateHour(year: int, month: int, day: int, hour: int)
    ensures Date(year, month, day, hour) % DAY == HOUR * (hour % 24)
    ensures HOUR * (hour % 24) == 0 <==> hour % 24 == 0
  {
    hide MonthStart;
    var m := MonthStart(12 * year + month - 1) + day - 1;
    var q, r := hour / 24, hour % 24;
    assert Date(year, month, day, hour) == DAY * (m + q) + HOUR * r && 0 <= HOUR * r < DAY;
  }

  /** The hour of a daily start, from the range itself; the short range always gives hour 23. */
  lemma DailyStart(d: seq<byte>, reportDay: int, now: Time)
    ensures ParseStart(d, DAILY, reportDay, now) % DAY == 0 <==> StartsAtMidnight(d, now)
    ensures 4 <= |d| < 12 ==> ParseStart(d, DAILY, reportDay, now) % DAY == 23 * HOUR
    ensures |d| >= 12 ==> ParseStart(d, DAILY, reportDay, now) % DAY == HOUR * (Value(d[11]) % 24)
  {
    hide Value, Date, Year, MonthNumber, Day, MonthReportDate;
    if |d| >= 12 {
      var e := d[8..12];
      assert e[3] == d[11];
      DateHour(2000 + Value(e[2]), Value(e[1]), Value(e[0]), Value(e[3]));
    } else if |d| >= 4 {
      var start := ParseDate(d[0..4]);
      DateHour(Year(start), MonthNumber(start), Day(start), 23);
    } else {
      DateHour(Year(now) - 1, MonthNumber(now), Day(now), 0);
      var a := Date(Year(now) - 1, MonthNumber(now), Day(now), 0);
      assert (a + now % DAY) % DAY == now % DAY;
    }
  }

  // ---- Overlap -----------------------------------------------------------------------------

  /** AddDate(0, k, 0): the same day of another month, carried over where that day does not exist. */
  function AddMonths(t: Time, k: int): Time {
    Date(Year(t), MonthNumber(t) + k, Day(t), 0) + t % DAY
  }

  /** The cursor moved back by the configured overlap. */
  function Overlapped(t: Time, typ: int, overlap: int): Time {
    if overlap <= 0 then t
    else if typ == HOURLY then t - overlap * HOUR
    else if ByMonth(typ) then AddMonths(t, -overlap)
    else t - overlap * DAY
  }

  lemma AddMonthsMark(n: int, k: int, reportDay: int)
    ensures AddMonths(ReportMark(n, reportDay), k) == DAY * (MonthStart(n + k) + Clamp(reportDay, n) - 1) + 23 * HOUR
  {
    var t := ReportMark(n, reportDay);
    ReportMarkParts(n, reportDay);
    hide Month, Day, MonthStart, DaysIn;
    assert 12 * Year(t) + MonthNumber(t) - 1 == n;
    assert t % DAY == 23 * HOUR;
  }

  /** A mark moved to a month that has its day is on the grid exactly when that is the report day. */
  lemma MovedInside(t: Time, m: int, d: int, reportDay: int)
    requires t == DAY * (MonthStart(m) + d - 1) + 23 * HOUR && 1 <= d <= DaysIn(m)
    ensures t == ReportMark(Month(t), reportDay) <==> d == Clamp(reportDay, m)
    ensures d == Clamp(reportDay, m) ==> t == ReportMark(m, reportDay)
  {
    hide MonthStart, DaysIn, Month;
    MonthOfMark(t, m, d);
  }

  /**
   * Moving a monthly cursor back stays on the grid exactly when the report day falls on the same
   * day of both months; so always for report days up to 28.
   */
  lemma OverlapOnGrid(n: int, k: nat, typ: int, reportDay: int)
    requires ByMonth(typ) && k > 0
    ensures OnGrid(Overlapped(ReportMark(n, reportDay), typ, k), typ, reportDay) <==>
            Clamp(reportDay, n) == Clamp(reportDay, n - k)
    ensures Clamp(reportDay, n) == Clamp(reportDay, n - k) ==>
            Overlapped(ReportMark(n, reportDay), typ, k) == ReportMark(n - k, reportDay)
    ensures reportDay <= 28 ==> Clamp(reportDay, n) == Clamp(reportDay, n - k)
  {
    hide Month, MonthStart, DaysIn, ReportMark, AddMonths;
    var d := Clamp(reportDay, n);
    var t := AddMonths(ReportMark(n, reportDay), 0 - k);
    AddMonthsMark(n, 0 - k, reportDay);
    MonthsAbut(n - k);
    if d <= DaysIn(n - k) {
      MovedInside(t, n - k, d, reportDay);
    } else {
      assert t == DAY * (MonthStart(n - k + 1) + (d - DaysIn(n - k)) - 1) + 23 * HOUR;
      MovedInside(t, n - k + 1, d - DaysIn(n - k), reportDay);
    }
  }

  /**
   * The month in which a monthly cursor moved back lands: the one that many months before, or, if
   * that month lacks the day, the month after it, on a day that is no report day.
   */
  lemma OverlapLands(n: int, k: nat, typ: int, reportDay: int)
    requires ByMonth(typ) && k > 0
    ensures
      var t := Overlapped(ReportMark(n, reportDay), typ, k);
      if Clamp(reportDay, n) <= DaysIn(n - k) then Month(t) == n - k
      else Month(t) == n - k + 1 && !OnGrid(t, typ, reportDay)
  {
    hide Month, MonthStart, DaysIn, ReportMark, AddMonths;
    var d := Clamp(reportDay, n);
    var t := AddMonths(ReportMark(n, reportDay), 0 - k);
    AddMonthsMark(n, 0 - k, reportDay);
    MonthsAbut(n - k);
    if d <= DaysIn(n - k) {
      MonthOfMark(t, n - k, d);
    } else {
      var e := d - DaysIn(n - k);
      assert t == DAY * (MonthStart(n - k + 1) + e - 1) + 23 * HOUR;
      MonthOfMark(t, n - k + 1, e);
      MovedInside(t, n - k + 1, e, reportDay);
    }
  }

  lemma MovedMark(n: int, typ: int, reportDay: int)
    requires ByMonth(typ)
    ensures Overlapped(ReportMark(n, reportDay), typ, 1) ==
            DAY * (MonthStart(n - 1) + Clamp(reportDay, n) - 1) + 23 * HOUR
  {
    hide MonthStart, ReportMark, AddMonths, Clamp;
    AddMonthsMark(n, -1, reportDay);
  }

  lemma MonthOfMark(t: Time, m: int, d: int)
    requires t == DAY * (MonthStart(m) + d - 1) + 23 * HOUR && 1 <= d <= DaysIn(m)
    ensures Month(t) == m
  {
    hide MonthStart, DaysIn, MonthOfDay;
    MonthsAbut(m);
    assert t / DAY == MonthStart(m) + d - 1;
    MonthUnique(t / DAY, Month(t), m);
  }

  /** The overlap never moves the cursor to a later period than the one it was to resume with. */
  lemma OverlapGoesBack(t: Time, typ: int, overlap: int)
    ensures Period(Overlapped(t, typ, overlap), typ) <= Period(t, typ)
  {
    hide MonthStart, DaysIn;
    if overlap > 0 {
      if typ == HOURLY {
        assert (t - overlap * HOUR) / HOUR == t / HOUR - overlap;
      } else if ByMonth(typ) {
        MonthsBack(t, overlap);
      } else {
        assert (t - overlap * DAY) / DAY == t / DAY - overlap;
      }
    }
  }

  lemma MonthsBack(t: Time, k: int)
    requires k > 0
    ensures Month(AddMonths(t, -k)) <= Month(t)
  {
    hide MonthStart, DaysIn, MonthOfDay;
    var n := Month(t);
    assert 12 * Year(t) + MonthNumber(t) - 1 == n;
    var s := AddMonths(t, -k);
    MonthsAbut(n);
    MonthsAscend(n - k, n - 1);
    MonthsAbut(n - 1);
    assert s / DAY == MonthStart(n - k) + t / DAY - MonthStart(n);
    if Month(s) > n {
      MonthsAscend(n + 1, Month(s));
    }
  }

  // ---- The date on the wire ----------------------------------------------------------------

  /** What SetDate writes: day, month, year - 2000 and hour as octets. */
  datatype Stamp = Stamp(day: byte, month: byte, year: byte, hour: byte)

  function DateStamp(t: Time, typ: int): Stamp {
    var hour := if typ == DAILY || ByMonth(typ) then 23 else HourOf(t);
    Stamp(Low(Day(t)), Low(MonthNumber(t)), Low(Year(t) - 2000), Low(hour))
  }

  lemma SameDate(s: Time, t: Time)
    requires s / DAY == t / DAY
    ensures Day(s) == Day(t) && MonthNumber(s) == MonthNumber(t) && Year(s) == Year(t)
  {
    hide MonthStart, MonthOfDay;
  }

  lemma SameMidnight(s: Time, t: Time)
    requires Midnight(s) == Midnight(t)
    ensures s / DAY == t / DAY
  {
    hide Midnight;
    MidnightDay(s);
    MidnightDay(t);
  }

  /** A date that the meter reports comes back as the date that is written for its hour. */
  lemma ReportedDateReturns(d: seq<byte>)
    requires |d| >= 4
    requires 1 <= Value(d[1]) <= 12 && 1 <= Value(d[0]) <= DaysIn(12 * (2000 + Value(d[2])) + Value(d[1]) - 1)
    requires Value(d[3]) < 24
    ensures DateStamp(ParseDate(d), HOURLY) == Stamp(d[0], d[1], d[2], d[3])
  {
    hide Low, Value, DaysIn, MonthStart, Month, Day, HourOf;
    var n := 12 * (2000 + Value(d[2])) + Value(d[1]) - 1;
    var t := ParseDate(d);
    assert n / 12 == 2000 + Value(d[2]) && n % 12 == Value(d[1]) - 1;
    PartsOfDate(n, Value(d[0]), Value(d[3]));
    assert t == Date(n / 12, n % 12 + 1, Value(d[0]), Value(d[3]));
    LowIs(d[0], Value(d[0]));
    LowIs(d[1], Value(d[1]));
    LowIs(d[2], Value(d[2]));
    LowIs(d[3], Value(d[3]));
  }

  /** Marks with one key ask the meter for one record. */
  lemma SameKeySameStamp(s: Time, t: Time, typ: int)
    requires Typed(typ) && Key(s, typ) == Key(t, typ)
    ensures DateStamp(s, typ) == DateStamp(t, typ)
  {
    hide Low, Value, Day, MonthNumber, Year, HourOf, Midnight;
    if typ != HOURLY {
      SameMidnight(s, t);
      SameDate(s, t);
    }
  }

  lemma LowEqual(a: int, b: int)
    requires 0 <= a < 256 && 0 <= b < 256 && Low(a) == Low(b)
    ensures a == b
  {
    hide Low, Value;
    assert a % 256 == Value(Low(a)) == Value(Low(b)) == b % 256;
  }

  /** Between 2000 and 2255 different keys on whole hours ask for different records. */
  lemma DifferentKeyDifferentStamp(s: Time, t: Time, typ: int)
    requires Typed(typ) && s % HOUR == 0 && t % HOUR == 0
    requires 2000 <= Year(s) <= 2255 && 2000 <= Year(t) <= 2255
    requires DateStamp(s, typ) == DateStamp(t, typ)
    ensures Key(s, typ) == Key(t, typ)
  {
    DateOfParts(s);
    DateOfParts(t);
    hide MonthNumber, Day, DaysIn, Low, Value, Year, HourOf, Date, Midnight;
    LowEqual(Day(s), Day(t));
    LowEqual(MonthNumber(s), MonthNumber(t));
    LowEqual(Year(s) - 2000, Year(t) - 2000);
    if typ == HOURLY {
      LowEqual(HourOf(s), HourOf(t));
    } else {
      DateMidnight(Year(s), MonthNumber(s), Day(s), HourOf(s));
      DateMidnight(Year(s), MonthNumber(s), Day(s), HourOf(t));
    }
  }

  lemma DateMidnight(year: int, month: int, day: int, hour: int)
    requires 0 <= hour < 24
    ensures Midnight(Date(year, month, day, hour)) == Date(year, month, day, 0)
  {
    hide MonthStart;
  }
}
