// The wall clock of the collector: Gregorian months, Go's normalising time.Date, and the stepping
// of archive marks.

module Calendar {

  /** Seconds on one naive wall clock; negative values lie before its origin. */
  type Time = int

  const HOUR := 3600
  const DAY := 86400

  // ---- Months ------------------------------------------------------------------------------

  predicate Leap(y: int) {
    y % 4 == 0 && (y % 100 != 0 || y % 400 == 0)
  }

  function DaysBeforeYear(y: int): int {
    365 * y + (y - 1) / 4 - (y - 1) / 100 + (y - 1) / 400
  }

  /** The length of month n, counted from January of year 0. */
  function DaysIn(n: int): (d: int)
    ensures 28 <= d <= 31
  {
    var m := n % 12;
    if m == 1 then (if Leap(n / 12) then 29 else 28)
    else if m == 3 || m == 5 || m == 8 || m == 10 then 30
    else 31
  }

  function DaysBeforeMonth(m: int, leap: bool): int
    requires 0 <= m < 12
  {
    [0, 31, 59, 90, 120, 151, 181, 212, 243, 273, 304, 334][m] + if leap && m > 1 then 1 else 0
  }

  /** The day on which month n begins. */
  function MonthStart(n: int): int {
    DaysBeforeYear(n / 12) + DaysBeforeMonth(n % 12, Leap(n / 12))
  }

  lemma YearLength(y: int)
    ensures DaysBeforeYear(y + 1) == DaysBeforeYear(y) + if Leap(y) then 366 else 365
  {
    QuotientSteps(y, 4);
    QuotientSteps(y, 100);
    QuotientSteps(y, 400);
    CenturiesDivide(y);
    var a, b, c := y / 4 - (y - 1) / 4, y / 100 - (y - 1) / 100, y / 400 - (y - 1) / 400;
    assert DaysBeforeYear(y + 1) == DaysBeforeYear(y) + 365 + a - b + c;
  }

  lemma CenturiesDivide(y: int)
    ensures (y % 400 == 0 ==> y % 100 == 0) && (y % 100 == 0 ==> y % 4 == 0)
  {}

  lemma QuotientSteps(y: int, k: int)
    requires k == 4 || k == 100 || k == 400
    ensures y / k - (y - 1) / k == if y % k == 0 then 1 else 0
  {}

  /** Each month begins where the one before it ends. */
  lemma MonthsAbut(n: int)
    ensures MonthStart(n + 1) == MonthStart(n) + DaysIn(n)
  {
    YearLength(n / 12);
    hide DaysBeforeYear, Leap;
    if n % 12 == 11 {
      assert (n + 1) / 12 == n / 12 + 1 && (n + 1) % 12 == 0;
    } else {
      assert (n + 1) / 12 == n / 12 && (n + 1) % 12 == n % 12 + 1;
    }
  }

  lemma {:induction false} MonthsAscend(m: int, n: int)
    requires m <= n
    ensures MonthStart(m) + 28 * (n - m) <= MonthStart(n)
    decreases n - m
  {
    hide MonthStart, DaysIn;
    if m < n {
      MonthsAbut(m);
      MonthsAscend(m + 1, n);
    }
  }

  predicate InMonth(day: int, n: int) {
    MonthStart(n) <= day < MonthStart(n + 1)
  }

  function SearchUp(day: int, n: int): (m: int)
    requires MonthStart(n) <= day
    ensures InMonth(day, m)
    decreases day - MonthStart(n)
  {
    hide MonthStart;
    MonthsAbut(n);
    if day < MonthStart(n + 1) then n else SearchUp(day, n + 1)
  }

  function SearchDown(day: int, n: int): (m: int)
    requires day < MonthStart(n)
    ensures InMonth(day, m)
    decreases MonthStart(n) - day
  {
    hide MonthStart;
    MonthsAbut(n - 1);
    if MonthStart(n - 1) <= day then n - 1 else SearchDown(day, n - 1)
  }

  /** The month that contains a day. */
  function MonthOfDay(day: int): (m: int)
    ensures InMonth(day, m)
  {
    if MonthStart(0) <= day then SearchUp(day, 0) else SearchDown(day, 0)
  }

  lemma MonthUnique(day: int, m: int, n: int)
    requires InMonth(day, m) && InMonth(day, n)
    ensures m == n
  {
    hide MonthStart;
    if m < n {
      MonthsAscend(m + 1, n);
    } else if n < m {
      MonthsAscend(n + 1, m);
    }
  }

  // ---- Time values as Go shows them --------------------------------------------------------

  /** The start of the day of t. */
  function Midnight(t: Time): Time {
    t - t % DAY
  }

  lemma MidnightSteps(t: Time)
    ensures Midnight(t + DAY) == Midnight(t) + DAY
    ensures Midnight(Midnight(t)) == Midnight(t)
  {}

  lemma MidnightDay(t: Time)
    ensures Midnight(t) / DAY == t / DAY
  {}

  function Month(t: Time): int {
    MonthOfDay(t / DAY)
  }

  function Year(t: Time): int {
    Month(t) / 12
  }

  function MonthNumber(t: Time): int {
    Month(t) % 12 + 1
  }

  function Day(t: Time): int {
    t / DAY - MonthStart(Month(t)) + 1
  }

  function HourOf(t: Time): int {
    t % DAY / HOUR
  }

  /** time.Date: months beyond the year and days beyond the month carry over. */
  function Date(year: int, month: int, day: int, hour: int): Time {
    DAY * (MonthStart(12 * year + month - 1) + day - 1) + HOUR * hour
  }

  lemma WholeHours(t: Time)
    requires t % HOUR == 0
    ensures t == DAY * (t / DAY) + HOUR * (t % DAY / HOUR) && 0 <= t % DAY / HOUR < 24
  {
    var h := t / HOUR;
    Quotient(h, h / 24, h % 24);
  }

  lemma Quotient(h: int, q: int, r: int)
    requires h == 24 * q + r && 0 <= r < 24
    ensures HOUR * h / DAY == q && HOUR * h % DAY == HOUR * r && HOUR * h % DAY / HOUR == r
  {
    var t := HOUR * h;
    assert t == DAY * q + HOUR * r && 0 <= HOUR * r < DAY;
  }

  /** The accessors and time.Date are inverse on whole hours. */
  lemma DateOfParts(t: Time)
    requires t % HOUR == 0
    ensures Date(Year(t), MonthNumber(t), Day(t), HourOf(t)) == t
    ensures 1 <= MonthNumber(t) <= 12 && 1 <= Day(t) <= DaysIn(Month(t)) && 0 <= HourOf(t) < 24
  {
    hide MonthStart, DaysIn, MonthOfDay;
    WholeHours(t);
    MonthsAbut(Month(t));
    assert InMonth(t / DAY, Month(t));
    assert 12 * Year(t) + MonthNumber(t) - 1 == Month(t);
  }

  lemma PartsOfDate(n: int, day: int, hour: int)
    requires 1 <= day <= DaysIn(n) && 0 <= hour < 24
    ensures
      var t := Date(n / 12, n % 12 + 1, day, hour);
      Month(t) == n && Day(t) == day && HourOf(t) == hour && t / DAY == MonthStart(n) + day - 1
  {
    hide MonthStart, DaysIn;
    var t := Date(n / 12, n % 12 + 1, day, hour);
    assert 12 * (n / 12) + (n % 12 + 1) - 1 == n;
    MonthsAbut(n);
    assert t / DAY == MonthStart(n) + day - 1;
    MonthUnique(t / DAY, Month(t), n);
  }

  // ---- Report dates ------------------------------------------------------------------------

  function Clamp(day: int, n: int): (d: int)
    ensures 1 <= d <= DaysIn(n)
  {
    if day < 1 then 1 else if day > DaysIn(n) then DaysIn(n) else day
  }

  /** monthReportDate, as the source computes it through three normalising dates. */
  function MonthReportDate(t: Time, monthOffset: int, reportDay: int): Time {
    var first := Date(Year(t), MonthNumber(t) + monthOffset, 1, 23);
    var lastDay := Day(Date(Year(first), MonthNumber(first) + 1, 0, 23));
    var low := if reportDay < 1 then 1 else reportDay;
    var day := if low > lastDay then lastDay else low;
    Date(Year(first), MonthNumber(first), day, 23)
  }

  /** The report mark of month n: hour 23 of the report day, clamped to the month. */
  function ReportMark(n: int, reportDay: int): Time {
    DAY * (MonthStart(n) + Clamp(reportDay, n) - 1) + 23 * HOUR
  }

  lemma ReportMarkParts(n: int, reportDay: int)
    ensures Month(ReportMark(n, reportDay)) == n && Day(ReportMark(n, reportDay)) == Clamp(reportDay, n)
  {
    hide MonthStart, DaysIn, Month, Day;
    PartsOfDate(n, Clamp(reportDay, n), 23);
    assert 12 * (n / 12) + (n % 12 + 1) - 1 == n;
  }

  /** monthReportDate yields the mark of the month that many months away. */
  lemma ReportDateIsMark(t: Time, monthOffset: int, reportDay: int)
    ensures MonthReportDate(t, monthOffset, reportDay) == ReportMark(Month(t) + monthOffset, reportDay)
  {
    hide MonthStart, DaysIn, Month, Day;
    var n := Month(t) + monthOffset;
    var first := Date(Year(t), MonthNumber(t) + monthOffset, 1, 23);
    assert 12 * Year(t) + MonthNumber(t) - 1 == Month(t);
    assert 12 * (n / 12) + (n % 12 + 1) - 1 == n;
    PartsOfDate(n, 1, 23);
    assert first == Date(n / 12, n % 12 + 1, 1, 23);
    assert 12 * Year(first) + MonthNumber(first) - 1 == n;
    MonthsAbut(n);
    PartsOfDate(n, DaysIn(n), 23);
    assert Date(Year(first), MonthNumber(first) + 1, 0, 23) == Date(n / 12, n % 12 + 1, DaysIn(n), 23);
  }

  /** Month stepping is additive and does not drift, whatever report day the first step used. */
  lemma SteppingAdds(t: Time, a: int, b: int, r: int, reportDay: int)
    ensures MonthReportDate(MonthReportDate(t, a, r), b, reportDay) == MonthReportDate(t, a + b, reportDay)
  {
    hide MonthReportDate, ReportMark, Month;
    ReportDateIsMark(t, a, r);
    ReportDateIsMark(t, a + b, reportDay);
    ReportDateIsMark(ReportMark(Month(t) + a, r), b, reportDay);
    ReportMarkParts(Month(t) + a, r);
  }
}
