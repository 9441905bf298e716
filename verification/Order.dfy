// The order of commands that the meter requires: type, active list, read list, date, data.

module Order {
  import opened Bytes
  import opened Elements
  import opened ValueTypes
  import opened Marks
  import opened Meter
  import opened ArchiveRecord
  import opened Collector
  import RL = ReadLists
  import R = RecordLaws

  /** The commands given between two states of a link. */
  function Given(m: Link, m1: Link): seq<Command>
    requires R.Later(m, m1)
  {
    seq(|m1.log| - |m.log|, k requires 0 <= k < |m1.log| - |m.log| => m1.log[|m.log| + k].command)
  }

  /** The commands that give a record in chunks: the date again for each of them. */
  function RecordPlan(date: Stamp, chunks: seq<seq<Element>>): seq<Command> {
    if chunks == [] then [] else [PutList(chunks[0]), PutDate(date), GetData] + RecordPlan(date, chunks[1..])
  }

  function NumbersPlan(): seq<Command> {
    [GetNumbers(SchemeTV1), GetNumbers(SchemeTV2), GetNumbers(ActiveDB)]
  }

  /** The commands of a refresh: the numbers are asked for under the type for current values. */
  function RefreshPlan(typ: int, list: seq<Element>): seq<Command> {
    [GetActive, PutType(CURRENT)] + NumbersPlan() + [PutType(typ), PutList(list)]
  }

  lemma GivenNothing(m: Link)
    ensures R.Later(m, m) && Given(m, m) == []
  {}

  lemma GivenOne(b: Behaviour, m: Link, c: Command)
    ensures R.Later(m, Issue(b, m, c)) && Given(m, Issue(b, m, c)) == [c]
  {}

  lemma GivenMore(b: Behaviour, m: Link, m1: Link, c: Command)
    requires R.Later(m, m1)
    ensures R.Later(m, Issue(b, m1, c)) && Given(m, Issue(b, m1, c)) == Given(m, m1) + [c]
  {
    hide FateNow, SettingAfter;
  }

  lemma GivenJoin(m: Link, m1: Link, m2: Link)
    requires R.Later(m, m1) && R.Later(m1, m2)
    ensures R.Later(m, m2) && Given(m, m2) == Given(m, m1) + Given(m1, m2)
  {}

  /** A chunk is read by list, date and data, in this order, as far as nothing fails. */
  lemma OneInOrder(b: Behaviour, m: Link, date: Stamp, chunk: seq<Element>)
    requires |chunk| <= 42
    ensures
      var (r, m1) := ReadingOne(b, m, date, chunk);
      && R.Later(m, m1) && Given(m, m1) <= [PutList(chunk), PutDate(date), GetData]
      && (r.Ok? ==> Given(m, m1) == [PutList(chunk), PutDate(date), GetData])
  {
    hide Given, R.Later, Issue, TroubleNow, ReplyTo;
    var m1 := Issue(b, m, PutList(chunk));
    var m2 := Issue(b, m1, PutDate(date));
    GivenOne(b, m, PutList(chunk));
    GivenMore(b, m, m1, PutDate(date));
    GivenMore(b, m, m2, GetData);
  }

  lemma {:induction false} AllInOrder(b: Behaviour, m: Link, date: Stamp, chunks: seq<seq<Element>>, values: Record)
    requires forall c :: c in chunks ==> |c| <= 42
    ensures
      var (a, m1) := ReadingAll(b, m, date, chunks, values);
      && R.Later(m, m1) && Given(m, m1) <= RecordPlan(date, chunks)
      && (a.Complete? ==> Given(m, m1) == RecordPlan(date, chunks))
    decreases |chunks|
  {
    hide Given, R.Later, ReadingOne, Parse;
    GivenNothing(m);
    if chunks != [] {
      var (data, m1) := ReadingOne(b, m, date, chunks[0]);
      OneInOrder(b, m, date, chunks[0]);
      if data.Ok? && Parse(chunks[0], data.value).Ok? {
        var v := values + Parse(chunks[0], data.value).value;
        AllInOrder(b, m1, date, chunks[1..], v);
        GivenJoin(m, m1, ReadingAll(b, m1, date, chunks[1..], v).1);
      }
    }
  }

  lemma AttemptInOrder(b: Behaviour, m: Link, date: Stamp, list: seq<Element>)
    ensures
      var (a, m1) := Attempting(b, m, date, list);
      && R.Later(m, m1) && Given(m, m1) <= RecordPlan(date, RL.Split(list))
      && (a.Complete? ==> Given(m, m1) == RecordPlan(date, RL.Split(list)))
  {
    hide Given, R.Later, ReadingAll, RL.Split;
    GivenNothing(m);
    RL.SplitIsSplit(list);
    forall c | c in RL.Split(list)
      ensures |c| <= 42
    {
      RL.ReadableIsShort(c);
    }
    AllInOrder(b, m, date, RL.Split(list), map[]);
  }

  lemma NumbersInOrder(b: Behaviour, m: Link)
    ensures
      var (r, m1) := Numbering(b, m);
      && R.Later(m, m1) && Given(m, m1) <= NumbersPlan() && (r.Ok? ==> Given(m, m1) == NumbersPlan())
  {
    hide Given, R.Later, Issue, NumberNow;
    var m1 := Issue(b, m, GetNumbers(SchemeTV1));
    var m2 := Issue(b, m1, GetNumbers(SchemeTV2));
    GivenOne(b, m, GetNumbers(SchemeTV1));
    GivenMore(b, m, m1, GetNumbers(SchemeTV2));
    GivenMore(b, m, m2, GetNumbers(ActiveDB));
  }

  /** A refresh asks for the active list, then for the numbers, and then restores type and read list. */
  lemma RefreshInOrder(b: Behaviour, m: Link, typ: int)
    ensures
      var (r, m1) := Refreshing(b, m, typ);
      && R.Later(m, m1) && (exists list :: Given(m, m1) <= RefreshPlan(typ, list))
      && (r.Ok? ==> Given(m, m1) == RefreshPlan(typ, r.value.list))
  {
    hide Given, R.Later, Issue, ActiveNow, RL.Select, Restoring;
    var m1 := Issue(b, m, GetActive);
    GivenOne(b, m, GetActive);
    var list := if ActiveNow(b, m).Ok? then RL.Select(ActiveNow(b, m).value, typ) else [];
    if ActiveNow(b, m).Ok? {
      R.ActiveLaw(b, m, typ);
      var m2 := Restoring(b, m1, typ, list).1;
      RestoreInOrder(b, m1, typ, list);
      GivenJoin(m, m1, m2);
    }
    assert Given(m, Refreshing(b, m, typ).1) <= RefreshPlan(typ, list);
  }

  lemma RestoreInOrder(b: Behaviour, m: Link, typ: int, list: seq<Element>)
    requires |list| <= 42
    ensures
      var (r, m1) := Restoring(b, m, typ, list);
      && R.Later(m, m1) && Given(m, m1) <= RefreshPlan(typ, list)[1..]
      && (r.Ok? ==> Given(m, m1) == RefreshPlan(typ, list)[1..])
  {
    hide Given, R.Later, Issue, TroubleNow, Numbering;
    var m1 := Issue(b, m, PutType(CURRENT));
    GivenOne(b, m, PutType(CURRENT));
    if TroubleNow(b, m, PutType(CURRENT)).None? {
      var (numbers, m2) := Numbering(b, m1);
      NumbersInOrder(b, m1);
      GivenJoin(m, m1, m2);
      if numbers.Ok? {
        GivenMore(b, m, m2, PutType(typ));
        var m3 := Issue(b, m2, PutType(typ));
        GivenMore(b, m, m3, PutList(list));
      }
    }
  }

  /** A session begins with type, active list and read list. */
  lemma PreparedInOrder(b: Behaviour, m: Link, typ: int)
    ensures
      var (lists, m1) := Preparing(b, m, typ);
      && R.Later(m, m1) && (exists list :: Given(m, m1) <= [PutType(typ), GetActive, PutList(list)])
      && (lists.Some? ==> Given(m, m1) == [PutType(typ), GetActive, PutList(lists.value.1)])
  {
    hide Given, R.Later, Issue, TroubleNow, ActiveNow, RL.Select;
    var m1 := Issue(b, m, PutType(typ));
    var m2 := Issue(b, m1, GetActive);
    GivenOne(b, m, PutType(typ));
    GivenMore(b, m, m1, GetActive);
    var list := if ActiveNow(b, m1).Ok? then RL.Select(ActiveNow(b, m1).value, typ) else [];
    if ActiveNow(b, m1).Ok? {
      R.ActiveLaw(b, m1, typ);
      GivenMore(b, m, m2, PutList(list));
    }
    assert Given(m, Preparing(b, m, typ).1) <= [PutType(typ), GetActive, PutList(list)];
  }

  /**
   * A record is given by the commands for its chunks alone; or, after a scheme change, by some of
   * them, a whole refresh, and all commands for the chunks of the renewed list.
   */
  lemma RecordInOrder(b: Behaviour, m: Link, typ: int, date: Stamp, list: seq<Element>, active: seq<Element>,
                      meta: Meta)
    ensures
      var (r, end) := Recording(b, m, typ, date, list, active, meta, ATTEMPTS);
      var (a, m1) := Attempting(b, m, date, list);
      var (f, m2) := Refreshing(b, m1, typ);
      r.Ok? ==>
        && R.Later(m, end) && R.Later(m, m1)
        && if a.Complete? then Given(m, end) == RecordPlan(date, RL.Split(list))
           else f.Ok? && Given(m, m1) <= RecordPlan(date, RL.Split(list)) &&
                Given(m, end) ==
                Given(m, m1) + RefreshPlan(typ, f.value.list) + RecordPlan(date, RL.Split(f.value.list))
  {
    hide Given, R.Later, Attempting, Refreshing, RL.Split, RecordPlan, RefreshPlan;
    var (a, m1) := Attempting(b, m, date, list);
    AttemptInOrder(b, m, date, list);
    if a.SchemeChange? {
      var (f, m2) := Refreshing(b, m1, typ);
      RefreshInOrder(b, m1, typ);
      GivenJoin(m, m1, m2);
      if f.Ok? {
        var (c, m3) := Attempting(b, m2, date, f.value.list);
        AttemptInOrder(b, m2, date, f.value.list);
        GivenJoin(m, m2, m3);
      }
    }
  }
}
