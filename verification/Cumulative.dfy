// build_cumulative_values of the report tool: absolute readings for report days, from one absolute
// total and daily increments, reconstructed in both directions.

module Cumulative {
  import opened Bytes

  /** Days are numbered; a day without an increment may have a row or none. */
  type Day = int
  type Daily = map<Day, Option<int>>
  type Cumulated = map<Day, Option<int>>

  datatype Anchor = Anchor(day: Day, value: int)

  /** daily.get(d): the increment of d, if its row has one. */
  function Increment(daily: Daily, d: Day): Option<int> {
    if d in daily then daily[d] else None
  }

  // ---- Inputs ------------------------------------------------------------------------------

  /** The result of sorted(daily): every report day once, in order. */
  ghost predicate Lists(days: seq<Day>, daily: Daily) {
    && (forall i, j :: 0 <= i < j < |days| ==> days[i] < days[j])
    && (forall d :: d in days <==> d in daily)
  }

  /** A row of a table: its day, and its value if it has one. */
  type DayRow = (Day, Option<int>)

  function RowsFrom(rows: seq<DayRow>): Daily {
    if rows == [] then map[] else RowsFrom(rows[..|rows| - 1])[rows[|rows| - 1].0 := rows[|rows| - 1].1]
  }

  /** No later row is for the same day. */
  predicate LastFor(rows: seq<DayRow>, k: nat)
    requires k < |rows|
  {
    forall j :: k < j < |rows| ==> rows[j].0 != rows[k].0
  }

  predicate HasDay(rows: seq<DayRow>, d: Day) {
    exists k :: 0 <= k < |rows| && rows[k].0 == d
  }

  lemma {:induction false} RowsDays(rows: seq<DayRow>, d: Day)
    ensures d in RowsFrom(rows) <==> HasDay(rows, d)
    decreases |rows|
  {
    if rows != [] {
      var n := |rows| - 1;
      RowsDays(rows[..n], d);
      assert rows[n].0 == d ==> HasDay(rows, d);
      if HasDay(rows[..n], d) {
        var k :| 0 <= k < n && rows[..n][k].0 == d;
        assert rows[k].0 == d;
      }
    }
  }

  lemma {:induction false} RowsLast(rows: seq<DayRow>, k: nat)
    requires k < |rows| && LastFor(rows, k)
    ensures rows[k].0 in RowsFrom(rows) && RowsFrom(rows)[rows[k].0] == rows[k].1
    decreases |rows|
  {
    var n := |rows| - 1;
    if k < n {
      assert LastFor(rows[..n], k);
      RowsLast(rows[..n], k);
    }
  }

  /** The rows as a dictionary: every day of a row, with the value of the last row for it. */
  method ReadRows(rows: seq<DayRow>) returns (daily: Daily)
    ensures daily == RowsFrom(rows)
    ensures forall d :: d in daily <==> HasDay(rows, d)
    ensures forall k :: 0 <= k < |rows| && LastFor(rows, k) ==> rows[k].0 in daily && daily[rows[k].0] == rows[k].1
  {
    daily := map[];
    for k := 0 to |rows|
      invariant daily == RowsFrom(rows[..k])
    {
      assert rows[..k + 1][..k] == rows[..k];
      daily := daily[rows[k].0 := rows[k].1];
    }
    assert rows[..|rows|] == rows;
    hide RowsFrom, LastFor, HasDay;
    forall d
      ensures d in daily <==> HasDay(rows, d)
    {
      RowsDays(rows, d);
    }
    forall k | 0 <= k < |rows| && LastFor(rows, k)
      ensures rows[k].0 in daily && daily[rows[k].0] == rows[k].1
    {
      RowsLast(rows, k);
    }
  }

  /** The totals that have a value. */
  function TotalsFrom(rows: seq<DayRow>): (r: seq<Anchor>)
    ensures forall b :: b in r <==> (b.day, Some(b.value)) in rows
    decreases |rows|
  {
    if rows == [] then []
    else
      var last := rows[|rows| - 1];
      TotalsFrom(rows[..|rows| - 1]) + if last.1.Some? then [Anchor(last.0, last.1.value)] else []
  }

  method ReadTotals(rows: seq<DayRow>) returns (totals: seq<Anchor>)
    ensures totals == TotalsFrom(rows)
  {
    totals := [];
    for k := 0 to |rows|
      invariant totals == TotalsFrom(rows[..k])
    {
      assert rows[..k + 1][..k] == rows[..k];
      if rows[k].1.Some? {
        totals := totals + [Anchor(rows[k].0, rows[k].1.value)];
      }
    }
    assert rows[..|rows|] == rows;
  }

  predicate Before(a: Anchor, b: Anchor) {
    a.day < b.day || (a.day == b.day && a.value <= b.value)
  }

  /** The result of totals.sort(). */
  predicate Sorted(totals: seq<Anchor>) {
    forall i, j :: 0 <= i <= j < |totals| ==> Before(totals[i], totals[j])
  }

  function Inside(totals: seq<Anchor>, first: Day, last: Day): (r: seq<Anchor>)
    ensures forall b :: b in r <==> b in totals && first <= b.day <= last
    ensures Sorted(totals) ==> Sorted(r)
  {
    if totals == [] then []
    else (if first <= totals[0].day <= last then [totals[0]] else []) + Inside(totals[1..], first, last)
  }

  /** The anchor: the last total inside the period, else the last before it, else the first after. */
  function Choose(totals: seq<Anchor>, first: Day, last: Day): Anchor
    requires totals != [] && Sorted(totals) && first <= last
  {
    var inside := Inside(totals, first, last);
    var before := Inside(totals, totals[0].day, first - 1);
    if inside != [] then inside[|inside| - 1]
    else if before != [] then before[|before| - 1]
    else totals[0]
  }

  /** Which total that is, without reference to the sorting. */
  ghost predicate Chosen(totals: seq<Anchor>, first: Day, last: Day, a: Anchor) {
    && a in totals
    && if first <= a.day <= last then
         forall b :: b in totals && first <= b.day <= last ==> Before(b, a)
       else
         && (forall b :: b in totals ==> !(first <= b.day <= last))
         && if a.day < first then forall b :: b in totals && b.day < first ==> Before(b, a)
            else forall b :: b in totals ==> Before(a, b)
  }

  /** The choice among the sorted totals is the one that the rows determine. */
  lemma ChosenFromRows(rows: seq<DayRow>, sorted: seq<Anchor>, first: Day, last: Day)
    requires Sorted(sorted) && multiset(sorted) == multiset(TotalsFrom(rows)) && sorted != [] && first <= last
    ensures Chosen(TotalsFrom(rows), first, last, Choose(sorted, first, last))
  {
    hide Choose, Inside, TotalsFrom, Sorted, Chosen;
    ChoiceIsChosen(sorted, first, last);
    forall b
      ensures b in sorted <==> b in TotalsFrom(rows)
    {
      assert b in multiset(sorted) <==> b in multiset(TotalsFrom(rows));
    }
    ChosenAlike(sorted, TotalsFrom(rows), first, last, Choose(sorted, first, last));
  }

  lemma ChosenAlike(s: seq<Anchor>, t: seq<Anchor>, first: Day, last: Day, a: Anchor)
    requires Chosen(s, first, last, a) && forall b :: b in s <==> b in t
    ensures Chosen(t, first, last, a)
  {}

  lemma ChoiceIsChosen(totals: seq<Anchor>, first: Day, last: Day)
    requires totals != [] && Sorted(totals) && first <= last
    ensures Chosen(totals, first, last, Choose(totals, first, last))
  {
    var inside := Inside(totals, first, last);
    var before := Inside(totals, totals[0].day, first - 1);
    forall b | b in totals
      ensures Before(totals[0], b)
    {
    }
    if inside != [] {
      assert inside[|inside| - 1] in inside;
    } else if before != [] {
      assert before[|before| - 1] in before;
    }
  }

  // ---- What the loops compute --------------------------------------------------------------

  /** The sum of the increments present on days lo < d <= hi. */
  function Sum(daily: Daily, lo: Day, hi: Day): int
    decreases hi - lo
  {
    if hi <= lo then 0
    else Sum(daily, lo, hi - 1) + Increment(daily, hi).GetOr(0)
  }

  /** The reading the tool gives for a day after the anchor. */
  function ForwardValue(daily: Daily, a: Anchor, d: Day): Option<int> {
    if Increment(daily, d).None? then None else Some(a.value + Sum(daily, a.day, d))
  }

  /** The sum over report days d <= e < end of the increments present on e + 1. */
  function BackSum(daily: Daily, d: Day, end: Day): int
    decreases end - d
  {
    if end <= d then 0
    else BackSum(daily, d + 1, end) + if d in daily then Increment(daily, d + 1).GetOr(0) else 0
  }

  /** The reading the tool gives for a day before the anchor; end bounds the days it walks over. */
  function BackwardValue(daily: Daily, a: Anchor, end: Day, d: Day): Option<int> {
    if Increment(daily, d + 1).None? then None else Some(a.value - BackSum(daily, d, end))
  }

  lemma {:induction false} SumSkips(daily: Daily, lo: Day, mid: Day, hi: Day)
    requires lo <= mid <= hi && forall d :: mid < d <= hi ==> d !in daily
    ensures Sum(daily, lo, hi) == Sum(daily, lo, mid)
    decreases hi - mid
  {
    if mid < hi {
      SumSkips(daily, lo, mid, hi - 1);
    }
  }

  lemma {:induction false} BackSumSkips(daily: Daily, lo: Day, mid: Day, end: Day)
    requires lo <= mid <= end && forall d :: lo <= d < mid ==> d !in daily
    ensures BackSum(daily, lo, end) == BackSum(daily, mid, end)
    decreases mid - lo
  {
    if lo < mid {
      BackSumSkips(daily, lo + 1, mid, end);
    }
  }

  lemma NoneBetween(days: seq<Day>, daily: Daily, k: nat, d: Day)
    requires Lists(days, daily) && k <= |days|
    requires (k > 0 ==> days[k - 1] < d) && (k < |days| ==> d < days[k])
    ensures d !in daily
  {
    forall i | 0 <= i < |days|
      ensures days[i] != d
    {
      if i < k {
        assert i == k - 1 || days[i] < days[k - 1];
      } else {
        assert i == k || days[k] < days[i];
      }
    }
  }

  // ---- The loops ---------------------------------------------------------------------------

  function Later(a: Day, b: Day): Day {
    if a < b then b else a
  }

  /** The day up to which the forward loop has summed after k report days. */
  function Reached(days: seq<Day>, k: nat, from: Day): Day
    requires k <= |days|
  {
    if k == 0 then from else Later(from, days[k - 1])
  }

  /** given, with the readings of the days after the anchor put in. */
  function Forwarded(daily: Daily, days: seq<Day>, a: Anchor, given: Cumulated): Cumulated
    decreases |days|
  {
    if days == [] then given
    else
      var d, m := days[|days| - 1], Forwarded(daily, days[..|days| - 1], a, given);
      if d <= a.day then m else m[d := ForwardValue(daily, a, d)]
  }

  method Forward(daily: Daily, days: seq<Day>, a: Anchor, given: Cumulated) returns (result: Cumulated)
    requires Lists(days, daily)
    ensures result == Forwarded(daily, days, a, given)
  {
    hide Lists, Sum;
    result := given;
    var running := a.value;
    NothingSummed(daily, a.day);
    for k := 0 to |days|
      invariant running == a.value + Sum(daily, a.day, Reached(days, k, a.day))
      invariant result == Forwarded(daily, days[..k], a, given)
    {
      var d := days[k];
      assert days[..k + 1][..k] == days[..k];
      if d <= a.day {
        EarlyDay(days, daily, k, a.day);
        continue;
      }
      ForwardStep(daily, days, k, a.day);
      var increment := Increment(daily, d);
      if increment.None? {
        result := result[d := None];
        continue;
      }
      running := running + increment.value;
      result := result[d := Some(running)];
    }
    assert days[..|days|] == days;
  }

  lemma NothingSummed(daily: Daily, d: Day)
    ensures Sum(daily, d, d) == 0 && BackSum(daily, d, d) == 0
  {}

  lemma EarlyDay(days: seq<Day>, daily: Daily, k: nat, from: Day)
    requires Lists(days, daily) && k < |days| && days[k] <= from
    ensures Reached(days, k + 1, from) == Reached(days, k, from) == from
  {}

  lemma {:induction false} ForwardedHolds(daily: Daily, days: seq<Day>, a: Anchor, given: Cumulated)
    ensures Forwarded(daily, days, a, given).Keys == given.Keys + set d | d in days && d > a.day
    ensures forall d :: d in Forwarded(daily, days, a, given) ==>
              Forwarded(daily, days, a, given)[d] ==
              if d in days && d > a.day then ForwardValue(daily, a, d) else given[d]
    decreases |days|
  {
    if days != [] {
      hide ForwardValue;
      ForwardedHolds(daily, days[..|days| - 1], a, given);
      assert days == days[..|days| - 1] + [days[|days| - 1]];
    }
  }

  lemma ForwardStep(daily: Daily, days: seq<Day>, k: nat, from: Day)
    requires Lists(days, daily) && k < |days| && days[k] > from
    ensures Reached(days, k + 1, from) == days[k]
    ensures Sum(daily, from, days[k]) == Sum(daily, from, Reached(days, k, from)) + Increment(daily, days[k]).GetOr(0)
  {
    var mid := Reached(days, k, from);
    forall d | mid < d <= days[k] - 1
      ensures d !in daily
    {
      NoneBetween(days, daily, k, d);
    }
    SumSkips(daily, from, mid, days[k] - 1);
  }

  /** The day down to which the backward loop has summed when report days from k on are done. */
  function Retreated(days: seq<Day>, k: nat, end: Day): Day
    requires k <= |days|
  {
    if k == |days| || days[k] >= end then end else days[k]
  }

  /** given, with the readings of the days before end put in. */
  function Backed(daily: Daily, days: seq<Day>, a: Anchor, end: Day, given: Cumulated): Cumulated
    decreases |days|
  {
    if days == [] then given
    else
      var d, m := days[0], Backed(daily, days[1..], a, end, given);
      if d >= end then m else m[d := BackwardValue(daily, a, end, d)]
  }

  method Backward(daily: Daily, days: seq<Day>, a: Anchor, end: Day, given: Cumulated) returns (result: Cumulated)
    requires Lists(days, daily)
    ensures result == Backed(daily, days, a, end, given)
  {
    hide Lists, BackSum;
    result := given;
    var running := a.value;
    NothingSummed(daily, end);
    for k := |days| downto 0
      invariant running == a.value - BackSum(daily, Retreated(days, k, end), end)
      invariant result == Backed(daily, days[k..], a, end, given)
    {
      var d := days[k];
      assert days[k..][1..] == days[k + 1..];
      if d >= end {
        LateDay(days, daily, k, end);
        continue;
      }
      BackwardStep(daily, days, k, end);
      var increment := Increment(daily, d + 1);
      if increment.None? {
        result := result[d := None];
        continue;
      }
      running := running - increment.value;
      result := result[d := Some(running)];
    }
    assert days[0..] == days;
  }

  lemma LateDay(days: seq<Day>, daily: Daily, k: nat, end: Day)
    requires Lists(days, daily) && k < |days| && days[k] >= end
    ensures Retreated(days, k + 1, end) == Retreated(days, k, end) == end
  {}

  lemma {:induction false} BackedHolds(daily: Daily, days: seq<Day>, a: Anchor, end: Day, given: Cumulated)
    ensures Backed(daily, days, a, end, given).Keys == given.Keys + set d | d in days && d < end
    ensures forall d :: d in Backed(daily, days, a, end, given) ==>
              Backed(daily, days, a, end, given)[d] ==
              if d in days && d < end then BackwardValue(daily, a, end, d) else given[d]
    decreases |days|
  {
    if days != [] {
      hide BackwardValue;
      BackedHolds(daily, days[1..], a, end, given);
      assert days == [days[0]] + days[1..];
    }
  }

  lemma BackwardStep(daily: Daily, days: seq<Day>, k: nat, end: Day)
    requires Lists(days, daily) && k < |days| && days[k] < end
    ensures BackSum(daily, days[k], end) ==
            BackSum(daily, Retreated(days, k + 1, end), end) + Increment(daily, days[k] + 1).GetOr(0)
  {
    var mid := Retreated(days, k + 1, end);
    assert days[k] in days;
    forall d | days[k] + 1 <= d < mid
      ensures d !in daily
    {
      NoneBetween(days, daily, k + 1, d);
    }
    BackSumSkips(daily, days[k] + 1, mid, end);
  }

  /** Where the backward sum of a report begins: at an anchor inside it, else after its last day. */
  function BackwardEnd(a: Anchor, last: Day): Day {
    if a.day <= last then a.day else last + 1
  }

  /** The reading that the tool gives for a report day. */
  function ReadingFor(daily: Daily, a: Anchor, last: Day, d: Day): Option<int> {
    if d == a.day then Some(a.value)
    else if a.day < d then ForwardValue(daily, a, d)
    else BackwardValue(daily, a, BackwardEnd(a, last), d)
  }

  /** The readings for all report days from a chosen anchor. */
  function Reconstructed(daily: Daily, days: seq<Day>, a: Anchor): Cumulated
    requires days != []
  {
    var first, last := days[0], days[|days| - 1];
    if first <= a.day <= last then
      Backed(daily, days, a, a.day, Forwarded(daily, days, a, map[a.day := Some(a.value)]))
    else if a.day < first then Forwarded(daily, days, a, map[])
    else Backed(daily, days, a, last + 1, map[])
  }

  /** The part of build_cumulative_values that follows the choice of the anchor. */
  method Reconstruct(daily: Daily, days: seq<Day>, anchor: Anchor) returns (result: Cumulated)
    requires Lists(days, daily) && days != []
    ensures result == Reconstructed(daily, days, anchor)
  {
    hide Forwarded, Backed, Lists;
    var first, last := days[0], days[|days| - 1];
    if first <= anchor.day <= last {
      result := map[anchor.day := Some(anchor.value)];
      result := Forward(daily, days, anchor, result);
      result := Backward(daily, days, anchor, anchor.day, result);
    } else if anchor.day < first {
      result := Forward(daily, days, anchor, map[]);
    } else {
      result := Backward(daily, days, anchor, last + 1, map[]);
    }
  }

  /** build_cumulative_values; days and sorted are what its two sorts return. */
  method BuildCumulativeValues(dailyRows: seq<DayRow>, totalRows: seq<DayRow>, days: seq<Day>, sorted: seq<Anchor>)
    returns (result: Cumulated)
    requires Lists(days, RowsFrom(dailyRows))
    requires Sorted(sorted) && multiset(sorted) == multiset(TotalsFrom(totalRows))
    ensures if dailyRows == [] || forall k :: 0 <= k < |totalRows| ==> totalRows[k].1.None? then result == map[]
            else
              && days != []
              && exists a ::
                   Chosen(TotalsFrom(totalRows), days[0], days[|days| - 1], a) &&
                   result == Reconstructed(RowsFrom(dailyRows), days, a)
  {
    if dailyRows == [] || totalRows == [] {
      return map[];
    }
    hide Reconstructed, RowsFrom, TotalsFrom, Choose, Chosen, Sorted, Lists, LastFor, HasDay;
    var daily := ReadRows(dailyRows);
    var totals := ReadTotals(totalRows);
    NoTotals(totalRows);
    if totals == [] {
      return map[];
    }
    DaysSome(dailyRows, days);
    SortedSome(totals, sorted);
    var first, last := days[0], days[|days| - 1];
    var anchor := Choose(sorted, first, last);
    ChosenFromRows(totalRows, sorted, first, last);
    result := Reconstruct(daily, days, anchor);
  }

  lemma NoTotals(rows: seq<DayRow>)
    ensures TotalsFrom(rows) == [] <==> forall k :: 0 <= k < |rows| ==> rows[k].1.None?
  {
    forall k | 0 <= k < |rows| && rows[k].1.Some?
      ensures TotalsFrom(rows) != []
    {
      assert Anchor(rows[k].0, rows[k].1.value) in TotalsFrom(rows);
    }
    if TotalsFrom(rows) != [] {
      var b := TotalsFrom(rows)[0];
      assert (b.day, Some(b.value)) in rows;
    }
  }

  lemma SortedSome(totals: seq<Anchor>, sorted: seq<Anchor>)
    requires multiset(sorted) == multiset(totals)
    ensures totals != [] <==> sorted != []
  {
    if totals != [] {
      assert totals[0] in multiset(totals);
    }
    if sorted != [] {
      assert sorted[0] in multiset(sorted);
    }
  }

  lemma DaysSome(rows: seq<DayRow>, days: seq<Day>)
    requires Lists(days, RowsFrom(rows)) && rows != []
    ensures days != [] && days[0] <= days[|days| - 1]
  {
    assert HasDay(rows, rows[0].0);
    RowsDays(rows, rows[0].0);
    assert |days| > 1 ==> days[0] < days[|days| - 1];
  }

  lemma DaysSpan(days: seq<Day>, daily: Daily)
    requires Lists(days, daily) && days != []
    ensures forall d :: d in days ==> days[0] <= d <= days[|days| - 1]
  {}

  /** There is a reading for every report day and for an anchor inside the report, and no other. */
  lemma ReadingDays(daily: Daily, days: seq<Day>, a: Anchor, d: Day)
    requires Lists(days, daily) && days != []
    ensures d in Reconstructed(daily, days, a) <==> d in daily || (d == a.day && days[0] <= d <= days[|days| - 1])
  {
    DaysSpan(days, daily);
    assert d in days <==> d in daily;
    hide Lists, Forwarded, Backed, ForwardValue, BackwardValue;
    var own: Cumulated := map[a.day := Some(a.value)];
    ForwardedHolds(daily, days, a, own);
    ForwardedHolds(daily, days, a, map[]);
    BackedHolds(daily, days, a, a.day, Forwarded(daily, days, a, own));
    BackedHolds(daily, days, a, days[|days| - 1] + 1, map[]);
  }

  lemma ReadingsHold(daily: Daily, days: seq<Day>, a: Anchor, d: Day)
    requires Lists(days, daily) && days != []
    requires d in Reconstructed(daily, days, a)
    ensures Reconstructed(daily, days, a)[d] == ReadingFor(daily, a, days[|days| - 1], d)
  {
    DaysSpan(days, daily);
    ReadingDays(daily, days, a, d);
    assert d in days <==> d in daily;
    hide Lists, Forwarded, Backed, ForwardValue, BackwardValue;
    var own: Cumulated := map[a.day := Some(a.value)];
    ForwardedHolds(daily, days, a, own);
    ForwardedHolds(daily, days, a, map[]);
    BackedHolds(daily, days, a, a.day, Forwarded(daily, days, a, own));
    BackedHolds(daily, days, a, days[|days| - 1] + 1, map[]);
  }

  // ---- What the readings mean --------------------------------------------------------------

  predicate Complete(daily: Daily, lo: Day, hi: Day) {
    forall d :: lo < d <= hi ==> Increment(daily, d).Some?
  }

  /** The sum of all increments of lo < d <= hi. */
  function Consumed(daily: Daily, lo: Day, hi: Day): int
    requires Complete(daily, lo, hi)
    decreases hi - lo
  {
    if hi <= lo then 0 else Consumed(daily, lo, hi - 1) + Increment(daily, hi).value
  }

  /** What the docstring promises for day d, where all increments between it and the anchor exist. */
  function Promised(daily: Daily, a: Anchor, d: Day): int
    requires Complete(daily, a.day, d) && Complete(daily, d, a.day)
  {
    if a.day <= d then a.value + Consumed(daily, a.day, d) else a.value - Consumed(daily, d, a.day)
  }

  lemma {:induction false} SumOfComplete(daily: Daily, lo: Day, hi: Day)
    requires Complete(daily, lo, hi)
    ensures Sum(daily, lo, hi) == Consumed(daily, lo, hi)
    decreases hi - lo
  {
    if lo < hi {
      SumOfComplete(daily, lo, hi - 1);
    }
  }

  lemma {:induction false} BackSumOfComplete(daily: Daily, d: Day, hi: Day)
    requires Complete(daily, d, hi) && (d < hi ==> d in daily)
    ensures BackSum(daily, d, hi) == Consumed(daily, d, hi)
    decreases hi - d
  {
    if d < hi {
      assert Increment(daily, d + 1).Some?;
      BackSumOfComplete(daily, d + 1, hi);
      ConsumedFirst(daily, d, hi);
    }
  }

  lemma {:induction false} ConsumedFirst(daily: Daily, lo: Day, hi: Day)
    requires lo < hi && Complete(daily, lo, hi)
    ensures Consumed(daily, lo, hi) == Increment(daily, lo + 1).value + Consumed(daily, lo + 1, hi)
    decreases hi - lo
  {
    if lo + 1 < hi {
      ConsumedFirst(daily, lo, hi - 1);
    }
  }

  /**
   * With an anchor inside or before the report, every report day whose increments up to the anchor
   * all exist gets the promised reading, in both directions.
   */
  lemma ReadingIsPromised(daily: Daily, a: Anchor, last: Day, d: Day)
    requires a.day <= last && d in daily
    requires Complete(daily, a.day, d) && Complete(daily, d, a.day)
    ensures ReadingFor(daily, a, last, d) == Some(Promised(daily, a, d))
  {
    if a.day < d {
      assert Increment(daily, d).Some?;
      SumOfComplete(daily, a.day, d);
    } else if d < a.day {
      assert Increment(daily, d + 1).Some?;
      BackSumOfComplete(daily, d, a.day);
    }
  }

  /** Adjacent such readings differ by the increment of the later day, across the anchor as well. */
  lemma AdjacentReadings(daily: Daily, a: Anchor, last: Day, d: Day)
    requires a.day <= last && d in daily && d + 1 in daily
    requires Complete(daily, a.day, d + 1) && Complete(daily, d, a.day) && Increment(daily, d + 1).Some?
    ensures ReadingFor(daily, a, last, d).Some? && ReadingFor(daily, a, last, d + 1).Some?
    ensures ReadingFor(daily, a, last, d + 1).value - ReadingFor(daily, a, last, d).value ==
            Increment(daily, d + 1).value
  {
    ReadingIsPromised(daily, a, last, d);
    ReadingIsPromised(daily, a, last, d + 1);
    if d < a.day {
      ConsumedFirst(daily, d, a.day);
    }
  }

  /** With an anchor after the report, the last day never gets a reading, whatever the increments. */
  lemma AnchorAfterLosesLastDay(daily: Daily, days: seq<Day>, a: Anchor)
    requires Lists(days, daily) && days != [] && a.day > days[|days| - 1]
    ensures ReadingFor(daily, a, days[|days| - 1], days[|days| - 1]) == None
  {
    NoneBetween(days, daily, |days|, days[|days| - 1] + 1);
  }

  /** With an anchor after the report, an earlier day reads the anchor less only what the report knows of. */
  lemma AnchorAfterReads(daily: Daily, days: seq<Day>, a: Anchor, d: Day)
    requires Lists(days, daily) && days != [] && a.day > days[|days| - 1] > d && d in daily
    requires Complete(daily, d, days[|days| - 1])
    ensures ReadingFor(daily, a, days[|days| - 1], d) == Some(a.value - Consumed(daily, d, days[|days| - 1]))
  {
    var last := days[|days| - 1];
    NoneBetween(days, daily, |days|, last + 1);
    assert Increment(daily, d + 1).Some?;
    BackSumOfComplete(daily, d, last);
    BackSumEnds(daily, d, last);
  }

  lemma {:induction false} BackSumEnds(daily: Daily, d: Day, last: Day)
    requires d <= last && last + 1 !in daily
    ensures BackSum(daily, d, last + 1) == BackSum(daily, d, last)
    decreases last - d
  {
    if d < last {
      BackSumEnds(daily, d + 1, last);
    }
  }

  lemma {:induction false} ConsumedJoins(daily: Daily, lo: Day, mid: Day, hi: Day)
    requires lo <= mid <= hi && Complete(daily, lo, hi)
    ensures Consumed(daily, lo, hi) == Consumed(daily, lo, mid) + Consumed(daily, mid, hi)
    decreases hi - mid
  {
    if mid < hi {
      ConsumedJoins(daily, lo, mid, hi - 1);
    }
  }

  lemma {:induction false} ConsumedAlike(daily: Daily, all: Daily, lo: Day, hi: Day)
    requires Complete(daily, lo, hi) && forall d :: lo < d <= hi ==> Increment(all, d) == Increment(daily, d)
    ensures Complete(all, lo, hi) && Consumed(all, lo, hi) == Consumed(daily, lo, hi)
    decreases hi - lo
  {
    if lo < hi {
      ConsumedAlike(daily, all, lo, hi - 1);
    }
  }

  /**
   * Where all increments up to the anchor are known, those of the report among them, such a
   * reading exceeds the promised one by exactly the consumption between the report and the anchor.
   */
  lemma AnchorAfterIsOff(daily: Daily, all: Daily, days: seq<Day>, a: Anchor, d: Day)
    requires Lists(days, daily) && days != [] && a.day > days[|days| - 1] > d && d in daily
    requires Complete(all, d, a.day)
    requires forall e :: d < e <= days[|days| - 1] ==> Increment(all, e) == Increment(daily, e)
    ensures ReadingFor(daily, a, days[|days| - 1], d) ==
            Some(Promised(all, a, d) + Consumed(all, days[|days| - 1], a.day))
  {
    var last := days[|days| - 1];
    forall e | d < e <= last
      ensures Increment(daily, e).Some?
    {
      assert Increment(all, e).Some?;
    }
    ConsumedAlike(daily, all, d, last);
    ConsumedJoins(all, d, last, a.day);
    AnchorAfterReads(daily, days, a, d);
  }

  /** A report day has no reading exactly if its own increment is missing, or before the anchor the next one. */
  lemma ReadingMissing(daily: Daily, days: seq<Day>, a: Anchor, d: Day)
    requires Lists(days, daily) && days != [] && d in Reconstructed(daily, days, a)
    ensures Reconstructed(daily, days, a)[d] == None <==>
            d != a.day && Increment(daily, if a.day < d then d else d + 1) == None
  {
    hide Lists, Reconstructed, Sum, BackSum;
    ReadingsHold(daily, days, a, d);
  }

  // ---- Readings across missing days --------------------------------------------------------

  /** An increment that the loop of this direction adds in: going back, only from a day of the report. */
  predicate Counted(daily: Daily, e: Day, back: bool) {
    Increment(daily, e).Some? && (back ==> e - 1 in daily)
  }

  /** The consumption on the days lo < e <= hi that the loop does not add in. */
  function Uncounted(daily: Daily, all: Daily, lo: Day, hi: Day, back: bool): int
    requires Complete(all, lo, hi)
    decreases hi - lo
  {
    if hi <= lo then 0
    else
      Uncounted(daily, all, lo, hi - 1, back) + if Counted(daily, hi, back) then 0 else Increment(all, hi).value
  }

  /** The increments of daily are among those of all. */
  predicate Extends(daily: Daily, all: Daily, lo: Day, hi: Day) {
    forall e :: lo < e <= hi && Increment(daily, e).Some? ==> Increment(all, e) == Increment(daily, e)
  }

  lemma {:induction false} SumLacks(daily: Daily, all: Daily, lo: Day, hi: Day)
    requires Complete(all, lo, hi) && Extends(daily, all, lo, hi)
    ensures Sum(daily, lo, hi) == Consumed(all, lo, hi) - Uncounted(daily, all, lo, hi, false)
    decreases hi - lo
  {
    if lo < hi {
      SumLacks(daily, all, lo, hi - 1);
    }
  }

  lemma {:induction false} UncountedFirst(daily: Daily, all: Daily, lo: Day, hi: Day, back: bool)
    requires lo < hi && Complete(all, lo, hi)
    ensures Uncounted(daily, all, lo, hi, back) ==
            (if Counted(daily, lo + 1, back) then 0 else Increment(all, lo + 1).value) +
            Uncounted(daily, all, lo + 1, hi, back)
    decreases hi - lo
  {
    if lo + 1 < hi {
      UncountedFirst(daily, all, lo, hi - 1, back);
    }
  }

  lemma {:induction false} BackSumLacks(daily: Daily, all: Daily, d: Day, hi: Day)
    requires Complete(all, d, hi) && Extends(daily, all, d, hi)
    ensures BackSum(daily, d, hi) == Consumed(all, d, hi) - Uncounted(daily, all, d, hi, true)
    decreases hi - d
  {
    if d < hi {
      BackSumLacks(daily, all, d + 1, hi);
      ConsumedFirst(all, d, hi);
      UncountedFirst(daily, all, d, hi, true);
      assert Increment(daily, d + 1).Some? ==> Increment(all, d + 1) == Increment(daily, d + 1);
    }
  }

  lemma {:induction false} BackSumTop(daily: Daily, d: Day, mid: Day, hi: Day)
    requires d <= mid <= hi && forall e :: mid <= e < hi ==> e !in daily
    ensures BackSum(daily, d, hi) == BackSum(daily, d, mid)
    decreases mid - d
  {
    if d < mid {
      BackSumTop(daily, d + 1, mid, hi);
    } else {
      BackSumSkips(daily, mid, hi, hi);
    }
  }

  /**
   * Wherever the anchor lies, a reading departs from the promised one by exactly the consumption of
   * the days that its loop has no increment for, or skips: it is too low after the anchor, and too
   * high before it.
   */
  lemma ReadingIsOff(daily: Daily, all: Daily, days: seq<Day>, a: Anchor, d: Day)
    requires Lists(days, daily) && d in daily && days != []
    requires Complete(all, a.day, d) && Complete(all, d, a.day)
    requires Extends(daily, all, a.day, d) && Extends(daily, all, d, a.day)
    ensures
      var r := ReadingFor(daily, a, days[|days| - 1], d);
      r.Some? ==>
        r.value == Promised(all, a, d) - Uncounted(daily, all, a.day, d, false) + Uncounted(daily, all, d, a.day, true)
  {
    var last := days[|days| - 1];
    if a.day < d {
      SumLacks(daily, all, a.day, d);
    } else if d < a.day {
      BackSumLacks(daily, all, d, a.day);
      if a.day > last {
        DaysSpan(days, daily);
        forall e | last + 1 <= e < a.day
          ensures e !in daily
        {
          NoneBetween(days, daily, |days|, e);
        }
        assert d in days;
        BackSumTop(daily, d, last + 1, a.day);
      }
    }
  }
}
