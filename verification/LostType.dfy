// A meter against which a session stores a row read under the wrong type.

module LostType {
  import opened Bytes
  import opened Integers
  import opened Elements
  import opened ValueTypes
  import opened Calendar
  import opened Marks
  import opened Meter
  import opened ArchiveRecord
  import opened Collector
  import RL = ReadLists
  import A = Archive
  import Typing

  /** The flow of one pipe, in two octets. */
  const LIST := [Element(0, 2)]

  /**
   * It accepts every command but two: its sixth answers that the scheme has changed, and its twelfth,
   * which should bring back the archive type, that there is no such record.
   */
  function Wayward(): Behaviour {
    hide RL.Entries;
    ActiveFits();
    Behaviour(
      (n: nat, s: Setting, c: Command) =>
        if n == 5 then Refused(5, false) else if n == 11 then Refused(3, false) else Accepted,
      (n: nat, s: Setting) => if s.typ == CURRENT then [1, 0, 0, 0] else [2, 0, 0, 0],
      (n: nat, s: Setting) => RL.Entries(LIST),
      (n: nat, s: Setting, q: Query) => [0, 0, 0])
  }

  lemma ActiveFits()
    ensures |RL.Entries(LIST)| <= 255
  {}

  lemma ActiveIs(m: Link)
    ensures ActiveNow(Wayward(), m) == if |m.log| == 5 then Err(Exception(SCHEME_CHANGED))
                                       else if |m.log| == 11 then Err(Exception(DATE_MISSING)) else Ok(LIST)
  {
    hide RL.ActiveFrom, RL.Entries;
    RL.ReadListInverse(LIST);
  }

  lemma SelectedIs()
    ensures RL.Select(LIST, DAILY) == LIST
  {
    assert LIST[..0] == [];
  }

  lemma SplitIs()
    ensures RL.Split(LIST) == [LIST]
  {
    assert LIST[..1] == LIST && LIST[1..] == [];
  }

  // ---- Step by step ------------------------------------------------------------------------

  /** What becomes of a command. */
  lemma FateIs(m: Link, c: Command)
    ensures FateNow(Wayward(), m, c) == if |m.log| == 5 then Refused(SCHEME_CHANGED, false)
                                        else if |m.log| == 11 then Refused(DATE_MISSING, false) else Accepted
  {
    hide RL.Entries;
  }

  lemma NumberIs(m: Link, q: Query)
    requires |m.log| != 5 && |m.log| != 11
    ensures NumberNow(Wayward(), m, q) == Ok(0)
  {
    hide RL.Entries, Value;
    assert Value(0) == 0 by {
      ZeroValue();
    }
  }

  lemma ZeroValue()
    ensures Value(0) == 0
  {}

  lemma Prepared(s: Setting)
    ensures
      var (lists, m) := Preparing(Wayward(), Link(s, []), DAILY);
      lists == Some((LIST, LIST)) && |m.log| == 3 && m.setting.typ == DAILY
  {
    hide Wayward, ActiveNow, FateNow, RL.Select;
    var m := Link(s, []);
    var m1 := Issue(Wayward(), m, PutType(DAILY));
    var m2 := Issue(Wayward(), m1, GetActive);
    FateIs(m, PutType(DAILY));
    FateIs(m1, GetActive);
    FateIs(m2, PutList(LIST));
    ActiveIs(m1);
    SelectedIs();
  }

  lemma FirstRead(m: Link, date: Stamp)
    requires |m.log| == 3
    ensures
      var (r, m1) := ReadingOne(Wayward(), m, date, LIST);
      r == Err(Exception(SCHEME_CHANGED)) && |m1.log| == 6 && m1.setting.typ == m.setting.typ
  {
    hide Wayward, FateNow;
    var m1 := Issue(Wayward(), m, PutList(LIST));
    var m2 := Issue(Wayward(), m1, PutDate(date));
    FateIs(m, PutList(LIST));
    FateIs(m1, PutDate(date));
    FateIs(m2, GetData);
    ReplyIs(m2);
  }

  lemma ReplyIs(m: Link)
    ensures |m.log| == 5 ==> ReplyTo(Wayward(), 5, m.setting) == Err(Exception(SCHEME_CHANGED))
    ensures |m.log| == 14 ==>
              ReplyTo(Wayward(), 14, m.setting) == Ok(if m.setting.typ == CURRENT then [1, 0, 0, 0] else [2, 0, 0, 0])
  {
    hide RL.Entries;
  }

  lemma NumbersRead(m: Link)
    requires |m.log| == 8
    ensures
      var (r, m1) := Numbering(Wayward(), m);
      r.Ok? && |m1.log| == 11 && m1.setting == m.setting
  {
    hide Wayward, NumberNow, FateNow;
    var m1 := Issue(Wayward(), m, GetNumbers(SchemeTV1));
    var m2 := Issue(Wayward(), m1, GetNumbers(SchemeTV2));
    NumberIs(m, SchemeTV1);
    NumberIs(m1, SchemeTV2);
    NumberIs(m2, ActiveDB);
  }

  lemma RefreshedInVain(m: Link)
    requires |m.log| == 6
    ensures
      var (r, m1) := Refreshing(Wayward(), m, DAILY);
      r == Err(Exception(DATE_MISSING)) && |m1.log| == 12 && m1.setting.typ == CURRENT
  {
    hide Wayward, ActiveNow, FateNow, Numbering, RL.Select;
    var m1 := Issue(Wayward(), m, GetActive);
    var m2 := Issue(Wayward(), m1, PutType(CURRENT));
    FateIs(m, GetActive);
    ActiveIs(m);
    SelectedIs();
    FateIs(m1, PutType(CURRENT));
    NumbersRead(m2);
    FateIs(Numbering(Wayward(), m2).1, PutType(DAILY));
  }

  /** The first turn meets the scheme change, and takes the failed return for a missing record. */
  lemma FirstTurn(m: Link, date: Stamp, meta: Meta)
    requires |m.log| == 3
    ensures
      var (r, m1) := Recording(Wayward(), m, DAILY, date, LIST, LIST, meta, ATTEMPTS);
      r == Err(Exception(DATE_MISSING)) && |m1.log| == 12 && m1.setting.typ == CURRENT
  {
    hide Wayward, ReadingOne, Refreshing, RL.Split;
    SplitIs();
    FirstRead(m, date);
    RefreshedInVain(ReadingOne(Wayward(), m, date, LIST).1);
  }

  /** What the meter answers under the type for current values; the archives hold 2. */
  const WRONG: Record := map[0 := Reading(Integer(1), 0, 0, [1, 0])]

  lemma WrongParses()
    ensures Parse(LIST, [1, 0, 0, 0]) == Ok(WRONG)
    ensures Parse(LIST, [2, 0, 0, 0]) == Ok(map[0 := Reading(Integer(2), 0, 0, [2, 0])])
  {
    ParsesTo(1, 1);
    ParsesTo(2, 2);
  }

  lemma ParsesTo(x: byte, n: nat)
    requires Value(x) == n
    ensures Parse(LIST, [x, 0, 0, 0]) == Ok(map[0 := Reading(Integer(n), 0, 0, [x, 0])])
  {
    SmallNumber(x);
    hide Signed, Value;
    var d: seq<byte> := [x, 0, 0, 0];
    assert d[..2] == [x, 0] && LIST[1..] == [];
    assert DecodeValue(0, [x, 0]) == Some(Integer(n));
  }

  lemma SmallNumber(x: byte)
    ensures Signed([x, 0]) == Value(x)
  {
    ZeroValue();
    hide Value;
    assert [x, 0][1..] == [0] && [0 as byte][1..] == [];
  }

  lemma SecondRead(m: Link, date: Stamp)
    requires |m.log| == 12 && m.setting.typ == CURRENT
    ensures
      var (r, m1) := ReadingOne(Wayward(), m, date, LIST);
      r == Ok([1, 0, 0, 0]) && |m1.log| == 15 && Typing.Astray(m1.log[14], DAILY)
  {
    hide Wayward, FateNow, ReplyTo;
    var m1 := Issue(Wayward(), m, PutList(LIST));
    var m2 := Issue(Wayward(), m1, PutDate(date));
    FateIs(m, PutList(LIST));
    FateIs(m1, PutDate(date));
    FateIs(m2, GetData);
    ReplyIs(m2);
  }

  lemma SecondAttempt(m: Link, date: Stamp)
    requires |m.log| == 12 && m.setting.typ == CURRENT
    ensures Attempting(Wayward(), m, date, LIST) == (Complete(WRONG), ReadingOne(Wayward(), m, date, LIST).1)
  {
    hide Wayward, ReadingOne, RL.Split, Parse;
    SplitIs();
    SecondRead(m, date);
    WrongParses();
    var m1 := ReadingOne(Wayward(), m, date, LIST).1;
    assert [LIST][1..] == [] && map[] + WRONG == WRONG;
    assert ReadingAll(Wayward(), m1, date, [], WRONG) == (Complete(WRONG), m1);
    assert ReadingAll(Wayward(), m, date, [LIST], map[]) == (Complete(WRONG), m1);
  }

  /** The second turn reads without trouble, but under the other type. */
  lemma SecondTurn(m: Link, date: Stamp, meta: Meta)
    requires |m.log| == 12 && m.setting.typ == CURRENT
    ensures
      var (r, m1) := Recording(Wayward(), m, DAILY, date, LIST, LIST, meta, ATTEMPTS);
      r == Ok(Outcome(WRONG, LIST, meta)) && |m1.log| == 15 && Typing.Astray(m1.log[14], DAILY)
  {
    hide Wayward, ReadingOne, Refreshing, Attempting;
    SecondRead(m, date);
    SecondAttempt(m, date);
  }

  // ---- The session -------------------------------------------------------------------------

  /** A loop that begins with the two last marks that are due. */
  ghost predicate TwoDue(p: Standing, around: Surroundings) {
    && |p.link.log| == 3 && p.list == LIST && p.active == LIST && Running(p) && p.rows == map[]
    && forall k: nat :: around.clock(k) == p.cursor + 2 * DAY && !around.cancelled(k) && around.saving(k).Saved?
  }

  lemma AfterOne(p: Standing, reportDay: int, around: Surroundings)
    requires TwoDue(p, around)
    ensures
      var q := Stand(Wayward(), p, DAILY, reportDay, around, 1);
      |q.link.log| == 12 && q.link.setting.typ == CURRENT && q == p.(link := q.link, cursor := p.cursor + DAY)
  {
    hide Wayward, Recording, DateStamp;
    FirstTurn(p.link, DateStamp(p.cursor, DAILY), p.meta);
    assert Stand(Wayward(), p, DAILY, reportDay, around, 0) == p;
  }

  lemma AfterTwo(p: Standing, reportDay: int, around: Surroundings)
    requires TwoDue(p, around)
    ensures
      var q := Stand(Wayward(), p, DAILY, reportDay, around, 2);
      && |q.link.log| == 15 && Typing.Astray(q.link.log[14], DAILY)
      && q.rows == map[Key(p.cursor + DAY, DAILY) := Row(WRONG, p.meta)]
      && q.cursor == p.cursor + 2 * DAY
  {
    hide Wayward, Recording, DateStamp, Key, RL.Select, Stand;
    AfterOne(p, reportDay, around);
    var q := Stand(Wayward(), p, DAILY, reportDay, around, 1);
    SecondTurn(q.link, DateStamp(q.cursor, DAILY), p.meta);
    StandNext(p, reportDay, around, 1);
  }

  lemma StandNext(p: Standing, reportDay: int, around: Surroundings, k: nat)
    ensures Stand(Wayward(), p, DAILY, reportDay, around, k + 1) ==
            Proceed(Wayward(), Stand(Wayward(), p, DAILY, reportDay, around, k), DAILY, reportDay, around.clock(k),
                    around.cancelled(k), around.saving(k))
  {
    hide Proceed;
  }

  /** The session ends with a row in the daily archive that was read under the type for current values. */
  lemma WrongSession(p: Standing, reportDay: int, around: Surroundings, k: nat)
    requires TwoDue(p, around) && !Running(Stand(Wayward(), p, DAILY, reportDay, around, k))
    ensures
      var q := Stand(Wayward(), p, DAILY, reportDay, around, k);
      && |q.link.log| == 15 && Typing.Astray(q.link.log[14], DAILY)
      && q.rows == map[Key(p.cursor + DAY, DAILY) := Row(WRONG, p.meta)]
  {
    assert Stand(Wayward(), p, DAILY, reportDay, around, 0) == p;
    hide Wayward, Stand, Key, Proceed;
    AfterOne(p, reportDay, around);
    AfterTwo(p, reportDay, around);
    NothingAfter(p, reportDay, around, k);
  }

  lemma {:induction false} NothingAfter(p: Standing, reportDay: int, around: Surroundings, k: nat)
    requires TwoDue(p, around) && k >= 2
    ensures
      var two, q := Stand(Wayward(), p, DAILY, reportDay, around, 2), Stand(Wayward(), p, DAILY, reportDay, around, k);
      q.link == two.link && q.rows == two.rows && q.cursor == two.cursor
    decreases k
  {
    hide Wayward, Stand, Key, RecordNow;
    AfterTwo(p, reportDay, around);
    if k > 2 {
      NothingAfter(p, reportDay, around, k - 1);
      StandNext(p, reportDay, around, k - 1);
    }
  }

  /** From any range, at the time when its first two days are over. */
  method StoreWrongRow(range: seq<byte>, batch: int, reportDay: int, overlap: int, openedAt: Time, meta: Meta)
    returns (m: Meter, store: Store)
    ensures fresh(m) && fresh(store) && m.Valid() && m.behaviour == Wayward()
    ensures |m.log| == 15 && Typing.Astray(m.log[14], DAILY)
    ensures store.rows == map[Key(ParseStart(range, DAILY, reportDay, openedAt) + DAY, DAILY) := Row(WRONG, meta)]
  {
    hide Wayward, Meter.Valid, ParseStart, Stand, Key, Preparing, Typing.Astray;
    m := new Meter(Wayward(), Setting(DAILY, [], None));
    store := new Store();
    var now := ParseStart(range, DAILY, reportDay, openedAt) + 2 * DAY;
    var around := Surroundings(_ => now, _ => false, _ => A.Saved, true, Some(range), openedAt);
    Prepared(m.setting);
    ghost var begun := Begun(m.behaviour, m.Now(), map[], DAILY, batch, reportDay, overlap, meta, around);
    ghost var turns, lastMeta := CollectArchive(m, store, DAILY, batch, reportDay, overlap, meta, around, now);
    WrongSession(begun.value, reportDay, around, turns);
  }
}
