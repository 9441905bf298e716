// Under which type a session reads: a scheme change makes it leave the archive type for a while, and
// a refusal may keep it from coming back.

module Typing {
  import opened Bytes
  import opened Elements
  import opened ValueTypes
  import opened Calendar
  import opened Marks
  import opened Meter
  import opened ArchiveRecord
  import opened Collector
  import opened SessionLaws
  import opened RecordLaws
  import opened Chunks
  import RL = ReadLists
  import A = Archive

  /** The last command of a link. */
  function LastEvent(m: Link): Event
    requires m.log != []
  {
    m.log[|m.log| - 1]
  }

  /** A change of type refused with exception 3: back to the archive type in vain, or away from it all the same. */
  predicate TypeLost(e: Event, typ: int) {
    || (e.command == PutType(typ) && e.fate == Refused(3, false))
    || (e.command == PutType(CURRENT) && e.fate == Refused(3, true))
  }

  /** The archive type was set. */
  predicate Restores(e: Event, typ: int) {
    e.command == PutType(typ) && TakesEffect(e.fate)
  }

  predicate Unrestored(log: seq<Event>, j: nat, k: nat, typ: int)
    requires k <= |log|
  {
    forall h :: j <= h < k ==> !Restores(log[h], typ)
  }

  /** Data were read under another type. */
  predicate Astray(e: Event, typ: int) {
    e.command.GetData? && e.before.typ != typ
  }

  // ---- Stretches of the log ----------------------------------------------------------------

  ghost predicate Follows(m: Link, m1: Link) {
    Later(m, m1) && (Continuous(m) ==> Continuous(m1))
  }

  /** The type is left alone. */
  ghost predicate TypeKept(m: Link, m1: Link) {
    && Follows(m, m1) && m1.setting.typ == m.setting.typ
    && forall j :: |m.log| <= j < |m1.log| ==> !m1.log[j].command.PutType? && m1.log[j].before.typ == m.setting.typ
  }

  /** A command that changes the type leads away from the archive type, or back from the current one. */
  predicate Proper(e: Event, typ: int) {
    e.command.PutType? ==> e.command.typ == CURRENT || (e.command.typ == typ && e.before.typ == CURRENT)
  }

  /** The type may change, but nothing is read. */
  ghost predicate ReadsNothing(m: Link, m1: Link, typ: int) {
    && Follows(m, m1)
    && forall j :: |m.log| <= j < |m1.log| ==> !m1.log[j].command.GetData? && Proper(m1.log[j], typ)
  }

  /** Data are read under another type only if that was found at entry and has stayed. */
  ghost predicate Faithful(m: Link, m1: Link, typ: int) {
    && Follows(m, m1)
    && (forall j :: |m.log| <= j < |m1.log| ==> Proper(m1.log[j], typ))
    && (forall j :: |m.log| <= j < |m1.log| && Astray(m1.log[j], typ) ==>
          m.setting.typ != typ && Unrestored(m1.log, |m.log|, j, typ))
  }

  /** The archive type is set, or has not been since entry. */
  predicate Carried(m: Link, m1: Link, typ: int) {
    m1.setting.typ == typ || (m.setting.typ != typ && Unrestored(m1.log, |m.log|, |m1.log|, typ))
  }

  /** Or else the last command has just lost it. */
  predicate CarriedOrLost(m: Link, m1: Link, typ: int) {
    Carried(m, m1, typ) || (|m1.log| > |m.log| && TypeLost(LastEvent(m1), typ))
  }

  lemma KeptTwice(m: Link, m1: Link, m2: Link)
    requires TypeKept(m, m1) && TypeKept(m1, m2)
    ensures TypeKept(m, m2)
  {
    hide Continuous;
  }

  lemma NothingTwice(m: Link, m1: Link, m2: Link, typ: int)
    requires ReadsNothing(m, m1, typ) && ReadsNothing(m1, m2, typ)
    ensures ReadsNothing(m, m2, typ)
  {
    hide Continuous, Proper;
  }

  lemma FaithfulTwice(m: Link, m1: Link, m2: Link, typ: int)
    requires Faithful(m, m1, typ) && Carried(m, m1, typ) && Faithful(m1, m2, typ)
    ensures Faithful(m, m2, typ)
    ensures CarriedOrLost(m1, m2, typ) ==> CarriedOrLost(m, m2, typ)
  {
    hide Continuous, Proper, TypeLost, Restores;
  }

  lemma KeptIsFaithful(m: Link, m1: Link, typ: int)
    requires TypeKept(m, m1)
    ensures Faithful(m, m1, typ) && Carried(m, m1, typ)
  {
    hide Continuous;
  }

  lemma NothingIsFaithful(m: Link, m1: Link, typ: int)
    requires ReadsNothing(m, m1, typ)
    ensures Faithful(m, m1, typ)
  {
    hide Continuous, Proper;
  }

  // ---- What each step does to the type -----------------------------------------------------

  lemma IssueKept(b: Behaviour, m: Link, c: Command)
    requires !c.PutType?
    ensures TypeKept(m, Issue(b, m, c))
  {}

  lemma IssueFollows(b: Behaviour, m: Link, c: Command, typ: int)
    requires !c.GetData? && Proper(Event(m.setting, c, FateNow(b, m, c)), typ)
    ensures ReadsNothing(m, Issue(b, m, c), typ)
  {
    hide Proper;
  }

  lemma ListingKept(b: Behaviour, m: Link, list: seq<Element>)
    ensures TypeKept(m, Listing(b, m, list).1)
  {
    IssueKept(b, m, PutList(list));
    hide Issue, Continuous;
  }

  lemma OneKept(b: Behaviour, m: Link, date: Stamp, chunk: seq<Element>)
    ensures TypeKept(m, ReadingOne(b, m, date, chunk).1)
  {
    hide Issue, TypeKept, Listing;
    var m1 := Listing(b, m, chunk).1;
    var m2 := Issue(b, m1, PutDate(date));
    ListingKept(b, m, chunk);
    IssueKept(b, m1, PutDate(date));
    KeptTwice(m, m1, m2);
    IssueKept(b, m2, GetData);
    KeptTwice(m, m2, Issue(b, m2, GetData));
  }

  lemma {:induction false} AllKept(b: Behaviour, m: Link, date: Stamp, chunks: seq<seq<Element>>, values: Record)
    ensures TypeKept(m, ReadingAll(b, m, date, chunks, values).1)
    decreases |chunks|
  {
    hide ReadingOne, Parse, Continuous;
    if chunks != [] {
      var (data, m1) := ReadingOne(b, m, date, chunks[0]);
      OneKept(b, m, date, chunks[0]);
      if data.Ok? && Parse(chunks[0], data.value).Ok? {
        var v := values + Parse(chunks[0], data.value).value;
        AllKept(b, m1, date, chunks[1..], v);
        KeptTwice(m, m1, ReadingAll(b, m1, date, chunks[1..], v).1);
      }
    }
  }

  lemma AttemptKept(b: Behaviour, m: Link, date: Stamp, list: seq<Element>)
    ensures TypeKept(m, Attempting(b, m, date, list).1)
  {
    hide ReadingAll, RL.Split, Continuous;
    AllKept(b, m, date, RL.Split(list), map[]);
  }

  lemma NumberingKept(b: Behaviour, m: Link, typ: int)
    ensures
      var (r, m1) := Numbering(b, m);
      TypeKept(m, m1) && ReadsNothing(m, m1, typ) && (r.Err? ==> !r.error.Exception?)
  {
    hide Issue, TypeKept, ReadsNothing, Value;
    var m1 := Issue(b, m, GetNumbers(SchemeTV1));
    var m2 := Issue(b, m1, GetNumbers(SchemeTV2));
    IssueKept(b, m, GetNumbers(SchemeTV1));
    IssueKept(b, m1, GetNumbers(SchemeTV2));
    IssueKept(b, m2, GetNumbers(ActiveDB));
    KeptTwice(m, m1, m2);
    KeptTwice(m, m2, Issue(b, m2, GetNumbers(ActiveDB)));
    IssueFollows(b, m, GetNumbers(SchemeTV1), typ);
    IssueFollows(b, m1, GetNumbers(SchemeTV2), typ);
    IssueFollows(b, m2, GetNumbers(ActiveDB), typ);
    NothingTwice(m, m1, m2, typ);
    NothingTwice(m, m2, Issue(b, m2, GetNumbers(ActiveDB)), typ);
  }

  lemma ListingReadsNothing(b: Behaviour, m: Link, list: seq<Element>, typ: int)
    ensures ReadsNothing(m, Listing(b, m, list).1, typ)
  {
    hide Issue, Continuous;
    IssueFollows(b, m, PutList(list), typ);
  }

  /** A change of type that fails with exception 3 either loses the archive type or leaves things as they were. */
  lemma PutTypeCarries(b: Behaviour, m: Link, c: int, typ: int)
    requires typ != CURRENT && (c == CURRENT || (c == typ && m.setting.typ == CURRENT))
    ensures
      var m1 := Issue(b, m, PutType(c));
      ReadsNothing(m, m1, typ) &&
      match TroubleNow(b, m, PutType(c))
      case None => m1.setting.typ == c
      case Some(e) =>
        e == Exception(DATE_MISSING) ==>
          (|m1.log| > |m.log| && TypeLost(LastEvent(m1), typ)) ||
          (if c == typ then m1.setting.typ == typ else Carried(m, m1, typ))
  {
    IssueFollows(b, m, PutType(c), typ);
    hide ReadsNothing;
  }

  lemma RestoringTypes(b: Behaviour, m: Link, typ: int, list: seq<Element>)
    requires typ != CURRENT
    ensures
      var (r, m1) := Restoring(b, m, typ, list);
      && ReadsNothing(m, m1, typ) && (r.Ok? ==> m1.setting.typ == typ)
      && (r == Err(Exception(DATE_MISSING)) ==> CarriedOrLost(m, m1, typ))
  {
    hide Issue, TroubleNow, Numbering, Listing, ReadsNothing, TypeLost, Restores;
    var m1 := Issue(b, m, PutType(CURRENT));
    PutTypeCarries(b, m, CURRENT, typ);
    if TroubleNow(b, m, PutType(CURRENT)).None? {
      var (numbers, m2) := Numbering(b, m1);
      NumberingKept(b, m1, typ);
      NothingTwice(m, m1, m2, typ);
      if numbers.Ok? {
        var m3 := Issue(b, m2, PutType(typ));
        PutTypeCarries(b, m2, typ, typ);
        NothingTwice(m, m2, m3, typ);
        NothingGrows(m, m2, typ);
        if TroubleNow(b, m2, PutType(typ)).None? {
          var m4 := Listing(b, m3, list).1;
          ListingKept(b, m3, list);
          ListingReadsNothing(b, m3, list, typ);
          NothingTwice(m, m3, m4, typ);
        }
      }
    }
  }

  lemma NothingGrows(m: Link, m1: Link, typ: int)
    requires ReadsNothing(m, m1, typ)
    ensures |m.log| <= |m1.log|
  {}

  lemma RefreshingTypes(b: Behaviour, m: Link, typ: int)
    requires typ != CURRENT
    ensures
      var (r, m1) := Refreshing(b, m, typ);
      && Faithful(m, m1, typ) && (r.Ok? ==> m1.setting.typ == typ)
      && (r == Err(Exception(DATE_MISSING)) ==> CarriedOrLost(m, m1, typ))
  {
    hide Issue, ActiveNow, RL.Select, Restoring, Faithful, ReadsNothing, TypeKept, CarriedOrLost;
    var m1 := Issue(b, m, GetActive);
    IssueKept(b, m, GetActive);
    KeptIsFaithful(m, m1, typ);
    CarriedIs(m, m1, typ);
    if ActiveNow(b, m).Ok? {
      var list := RL.Select(ActiveNow(b, m).value, typ);
      var m2 := Restoring(b, m1, typ, list).1;
      RestoringTypes(b, m1, typ, list);
      NothingIsFaithful(m1, m2, typ);
      FaithfulTwice(m, m1, m2, typ);
    }
  }

  lemma CarriedIs(m: Link, m1: Link, typ: int)
    requires Carried(m, m1, typ)
    ensures CarriedOrLost(m, m1, typ)
  {}

  /** A record, whether it is returned or missing, leaves the archive type as it was, or set, or just lost. */
  lemma {:induction false} RecordTypes(b: Behaviour, m: Link, typ: int, date: Stamp, list: seq<Element>,
                                       active: seq<Element>, meta: Meta, attempts: nat)
    requires typ != CURRENT
    ensures
      var (r, m1) := Recording(b, m, typ, date, list, active, meta, attempts);
      && Faithful(m, m1, typ)
      && (r.Ok? ==> Carried(m, m1, typ))
      && (r == Err(Exception(DATE_MISSING)) ==> CarriedOrLost(m, m1, typ))
    decreases attempts
  {
    hide Attempting, Refreshing, Faithful, TypeKept, CarriedOrLost, Carried;
    if attempts == 0 {
      NothingHappened(m, typ);
    } else {
      var (a, m1) := Attempting(b, m, date, list);
      AttemptKept(b, m, date, list);
      KeptIsFaithful(m, m1, typ);
      CarriedIs(m, m1, typ);
      if a.SchemeChange? {
        var (f, m2) := Refreshing(b, m1, typ);
        RefreshingTypes(b, m1, typ);
        FaithfulTwice(m, m1, m2, typ);
        if f.Ok? {
          var (r, m3) := Recording(b, m2, typ, date, f.value.list, f.value.active, f.value.meta, attempts - 1);
          RecordTypes(b, m2, typ, date, f.value.list, f.value.active, f.value.meta, attempts - 1);
          RestoredIsCarried(m, m2, m3, typ);
          FaithfulTwice(m, m2, m3, typ);
        }
      }
    }
  }

  lemma NothingHappened(m: Link, typ: int)
    ensures Faithful(m, m, typ)
  {}

  lemma RestoredIsCarried(m: Link, m2: Link, m3: Link, typ: int)
    requires m2.setting.typ == typ
    ensures Carried(m, m2, typ) && (Carried(m2, m3, typ) ==> Carried(m, m3, typ))
  {}

  // ---- A turn ------------------------------------------------------------------------------

  /** Right after its loss the type is another one. */
  lemma LostIsOther(m: Link, m1: Link, typ: int)
    requires typ != CURRENT && Faithful(m, m1, typ) && Continuous(m) && |m1.log| > |m.log|
    requires TypeLost(LastEvent(m1), typ)
    ensures m1.setting.typ != typ
  {
    assert Proper(m1.log[|m1.log| - 1], typ);
  }

  lemma MissingTakesCommands(b: Behaviour, m: Link, typ: int, date: Stamp, list: seq<Element>, active: seq<Element>,
                             meta: Meta)
    ensures
      var (r, m1) := Recording(b, m, typ, date, list, active, meta, ATTEMPTS);
      r == Err(Exception(DATE_MISSING)) ==> |m1.log| > |m.log|
  {
    hide Recording;
    LastErrorReturned(b, m, typ, date, list, active, meta);
  }

  /**
   * A turn that starts under the archive type and does not end the session leaves another type if
   * and only if it counts as missing because of a change of type that lost it.
   */
  lemma TurnLosesExactly(b: Behaviour, p: Standing, typ: int, reportDay: int, now: Time, saving: A.Saving)
    requires Typed(typ) && Running(p) && Due(p.cursor, typ, now)
    requires Continuous(p.link) && p.link.setting.typ == typ
    ensures
      var q := Proceed(b, p, typ, reportDay, now, false, saving);
      Running(q) ==>
        (q.link.setting.typ != typ <==>
          TurnOf(b, p, typ, now, false, saving).answer.NoRecord? && q.link.log != [] &&
          TypeLost(LastEvent(q.link), typ))
  {
    hide Due, Next, DateStamp, Saved, Recording, RL.Select, Faithful, TypeLost, Continuous;
    RecordTypes(b, p.link, typ, DateStamp(p.cursor, typ), p.list, p.active, p.meta, ATTEMPTS);
    MissingTakesCommands(b, p.link, typ, DateStamp(p.cursor, typ), p.list, p.active, p.meta);
    var (r, m1) := RecordNow(b, p, typ);
    if r == Err(Exception(DATE_MISSING)) && TypeLost(LastEvent(m1), typ) {
      LostIsOther(p.link, m1, typ);
    }
  }

  /** The reads of a turn up to its first exception 5 have the type found at entry, those after it the archive type. */
  lemma ReadsByEntry(b: Behaviour, m: Link, typ: int, date: Stamp, list: seq<Element>, active: seq<Element>, meta: Meta)
    ensures
      var (a, m1) := Attempting(b, m, date, list);
      var (r, m2) := Recording(b, m, typ, date, list, active, meta, ATTEMPTS);
      Later(m, m1) && Later(m1, m2) &&
      (forall k: Access :: k in AccountOf(b, m, m1, typ).accesses ==> k.setting.typ == m.setting.typ) &&
      (forall k: Access :: k in AccountOf(b, m1, m2, typ).accesses ==> k.setting.typ == typ)
  {
    hide AccountOf, Later, Attempting, Refreshing, RecordRead, RL.Split, Merged, Tried;
    var (a, m1) := Attempting(b, m, date, list);
    AttemptLaw(b, m, date, list, typ);
    NoAccount(b, m, typ);
    NoAccount(b, m1, typ);
    if a.SchemeChange? {
      var (f, m2) := Refreshing(b, m1, typ);
      RefreshingLaw(b, m1, typ);
      if f.Ok? {
        var (r, m3) := Recording(b, m2, typ, date, f.value.list, f.value.active, f.value.meta, 1);
        RecordReads(b, m2, typ, date, f.value.list, f.value.active, f.value.meta, 1);
        AccountsJoin(b, m1, m2, m3, typ);
        ReadTypes(r, AccountOf(b, m2, m3, typ).accesses, Tried(b, m2, typ, date, f.value.list, 1), typ, date);
      }
    }
  }

  lemma ReadTypes(r: Result<Outcome, MeterError>, accesses: seq<Access>, lists: seq<seq<Element>>, typ: int,
                  date: Stamp)
    requires RecordRead(r, accesses, lists, typ, date)
    ensures forall k: Access :: k in accesses ==> k.setting.typ == typ
  {
    hide EndsWithReadOf, RL.Split;
  }

  // ---- A session ---------------------------------------------------------------------------

  /** The archive type was lost after the first n commands, and has not been set again before the j-th. */
  ghost predicate LostBefore(log: seq<Event>, n: nat, j: nat, typ: int)
    requires j <= |log|
  {
    exists i :: n <= i < j && TypeLost(log[i], typ) && Unrestored(log, i + 1, j, typ)
  }

  /** Since the first n commands, what was read under another type was read after a loss, and so is what will be. */
  ghost predicate Traced(m: Link, n: nat, typ: int) {
    && n <= |m.log| && (forall j :: n <= j < |m.log| ==> Proper(m.log[j], typ))
    && (forall j :: n <= j < |m.log| && Astray(m.log[j], typ) ==> LostBefore(m.log, n, j, typ))
  }

  ghost predicate Explained(m: Link, n: nat, typ: int) {
    n <= |m.log| && (m.setting.typ != typ ==> LostBefore(m.log, n, |m.log|, typ))
  }

  lemma LostLonger(m: Link, m1: Link, n: nat, j: nat, typ: int)
    requires Later(m, m1) && |m.log| <= j <= |m1.log|
    requires LostBefore(m.log, n, |m.log|, typ) && Unrestored(m1.log, |m.log|, j, typ)
    ensures LostBefore(m1.log, n, j, typ)
  {
    hide TypeLost, Restores;
    var i :| n <= i < |m.log| && TypeLost(m.log[i], typ) && Unrestored(m.log, i + 1, |m.log|, typ);
    assert TypeLost(m1.log[i], typ);
    forall h | i + 1 <= h < j
      ensures !Restores(m1.log[h], typ)
    {
      assert h < |m.log| ==> m1.log[h] == m.log[h];
    }
  }

  lemma LostKept(m: Link, m1: Link, n: nat, j: nat, typ: int)
    requires Later(m, m1) && j <= |m.log| && LostBefore(m.log, n, j, typ)
    ensures LostBefore(m1.log, n, j, typ)
  {
    hide TypeLost, Restores;
    var i :| n <= i < j && TypeLost(m.log[i], typ) && Unrestored(m.log, i + 1, j, typ);
    assert TypeLost(m1.log[i], typ);
    assert forall h :: i + 1 <= h < j ==> m1.log[h] == m.log[h];
  }

  lemma TracedFurther(m: Link, m1: Link, n: nat, typ: int)
    requires Traced(m, n, typ) && Explained(m, n, typ) && Faithful(m, m1, typ)
    ensures Traced(m1, n, typ)
    ensures CarriedOrLost(m, m1, typ) ==> Explained(m1, n, typ)
  {
    hide Proper, LostBefore, TypeLost, Continuous, Restores, Unrestored;
    forall j | n <= j < |m1.log| && Astray(m1.log[j], typ)
      ensures LostBefore(m1.log, n, j, typ)
    {
      if j < |m.log| {
        assert m1.log[j] == m.log[j];
        LostKept(m, m1, n, j, typ);
      } else {
        LostLonger(m, m1, n, j, typ);
      }
    }
    if CarriedOrLost(m, m1, typ) && m1.setting.typ != typ {
      if |m1.log| > |m.log| && TypeLost(LastEvent(m1), typ) {
        JustLost(m1, n, typ);
      } else {
        LostLonger(m, m1, n, |m1.log|, typ);
      }
    }
  }

  lemma JustLost(m: Link, n: nat, typ: int)
    requires n < |m.log| && TypeLost(LastEvent(m), typ)
    ensures LostBefore(m.log, n, |m.log|, typ)
  {
    assert Unrestored(m.log, |m.log| - 1 + 1, |m.log|, typ);
  }

  lemma {:induction false} StandTraced(b: Behaviour, p: Standing, typ: int, reportDay: int, around: Surroundings,
                                       k: nat)
    requires Typed(typ) && p.link.setting.typ == typ && Continuous(p.link)
    ensures
      var q := Stand(b, p, typ, reportDay, around, k);
      && Traced(q.link, |p.link.log|, typ) && Continuous(q.link)
      && (Running(q) ==> Explained(q.link, |p.link.log|, typ))
    decreases k
  {
    hide Continuous, Proceed, Traced, Explained;
    if k > 0 {
      var q := Stand(b, p, typ, reportDay, around, k - 1);
      StandTraced(b, p, typ, reportDay, around, k - 1);
      ProceedTraced(b, q, typ, reportDay, around.clock(k - 1), around.cancelled(k - 1), around.saving(k - 1),
                    |p.link.log|);
    } else {
      TracedFromHere(p.link, typ);
    }
  }

  lemma TracedFromHere(m: Link, typ: int)
    requires m.setting.typ == typ
    ensures Traced(m, |m.log|, typ) && Explained(m, |m.log|, typ)
  {}

  lemma ProceedTraced(b: Behaviour, p: Standing, typ: int, reportDay: int, now: Time, cancelled: bool,
                      saving: A.Saving, n: nat)
    requires Typed(typ) && Continuous(p.link) && Traced(p.link, n, typ) && (Running(p) ==> Explained(p.link, n, typ))
    ensures
      var q := Proceed(b, p, typ, reportDay, now, cancelled, saving);
      Traced(q.link, n, typ) && Continuous(q.link) && (Running(q) ==> Explained(q.link, n, typ))
  {
    hide Due, Next, DateStamp, Saved, Recording, RL.Select, Faithful, Traced, Explained, Continuous;
    hide CarriedOrLost, Carried;
    if Running(p) {
      var (r, m1) := RecordNow(b, p, typ);
      RecordTypes(b, p.link, typ, DateStamp(p.cursor, typ), p.list, p.active, p.meta, ATTEMPTS);
      TracedFurther(p.link, m1, n, typ);
      FaithfulFollows(p.link, m1, typ);
      if r.Ok? {
        CarriedIs(p.link, m1, typ);
      }
    }
  }

  lemma FaithfulFollows(m: Link, m1: Link, typ: int)
    requires Faithful(m, m1, typ) && Continuous(m)
    ensures Continuous(m1)
  {
    hide Continuous;
  }

  /** While the archive type is not set again after its loss, it stays away. */
  lemma {:induction false} LostStays(m: Link, n: nat, i: nat, j: nat, typ: int)
    requires Typed(typ) && Continuous(m) && n <= i < j < |m.log|
    requires forall h :: n <= h < |m.log| ==> Proper(m.log[h], typ)
    requires TypeLost(m.log[i], typ) && Unrestored(m.log, i + 1, j, typ)
    ensures m.log[j].before.typ != typ
    decreases j
  {
    assert m.log[j].before == SettingAfter(m.log[j - 1]);
    assert Proper(m.log[j - 1], typ);
    if i < j - 1 {
      LostStays(m, n, i, j - 1, typ);
      assert !Restores(m.log[j - 1], typ);
    }
  }

  /**
   * A session reads data under another type than its own if and only if a change of type was refused
   * with exception 3 so that the type was lost, and data were read before it was set again.
   */
  lemma TypedExactly(b: Behaviour, p: Standing, typ: int, reportDay: int, around: Surroundings, k: nat)
    requires Typed(typ) && p.link.setting.typ == typ && Continuous(p.link)
    ensures
      var log, n := Stand(b, p, typ, reportDay, around, k).link.log, |p.link.log|;
      (exists j :: n <= j < |log| && Astray(log[j], typ)) <==>
      (exists j :: n <= j < |log| && log[j].command.GetData? && LostBefore(log, n, j, typ))
  {
    hide Continuous, Stand, Proper, Unrestored, TypeLost;
    StandTraced(b, p, typ, reportDay, around, k);
    var m, n := Stand(b, p, typ, reportDay, around, k).link, |p.link.log|;
    forall j | n <= j < |m.log| && m.log[j].command.GetData? && LostBefore(m.log, n, j, typ)
      ensures Astray(m.log[j], typ)
    {
      var i :| n <= i < j && TypeLost(m.log[i], typ) && Unrestored(m.log, i + 1, j, typ);
      LostStays(m, n, i, j, typ);
    }
  }

  /** The loop of a session begins under the archive type. */
  lemma BegunTyped(b: Behaviour, m: Link, rows: map<Time, Row>, typ: int, batch: int, reportDay: int, overlap: int,
                   meta: Meta, around: Surroundings)
    requires Continuous(m) && Begun(b, m, rows, typ, batch, reportDay, overlap, meta, around).Some?
    ensures
      var p := Begun(b, m, rows, typ, batch, reportDay, overlap, meta, around).value;
      p.link.setting.typ == typ && Continuous(p.link)
  {
    hide ActiveNow, A.Start, RL.Select, Continuous, TypeKept, Listing;
    var m1 := Issue(b, m, PutType(typ));
    var m2 := Issue(b, m1, GetActive);
    IssueContinuous(b, m, PutType(typ));
    IssueContinuous(b, m1, GetActive);
    if TroubleNow(b, m, PutType(typ)).None? && ActiveNow(b, m1).Ok? {
      var list := RL.Select(ActiveNow(b, m1).value, typ);
      ListingKept(b, m2, list);
      KeptFollows(m2, Listing(b, m2, list).1);
    }
  }

  lemma KeptFollows(m: Link, m1: Link)
    requires TypeKept(m, m1) && Continuous(m)
    ensures Continuous(m1) && m1.setting.typ == m.setting.typ
  {
    hide Continuous;
  }
}
