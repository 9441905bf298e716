// A session of the collector is a session of the archive machine, turn by turn.

module SessionLaws {
  import opened Bytes
  import opened Calendar
  import opened Marks
  import opened Meter
  import opened ArchiveRecord
  import opened Collector
  import RL = ReadLists
  import Chunks
  import R = RecordLaws
  import A = Archive

  function AnswerOf(r: Result<Outcome, MeterError>): A.Answer<Row> {
    match r
    case Ok(o) => A.Got(Row(o.values, o.meta))
    case Err(e) => if IsException(e, DATE_MISSING) then A.NoRecord else A.Fault
  }

  /** The turn that the machine takes from this standing. */
  function TurnOf(b: Behaviour, p: Standing, typ: int, now: Time, cancelled: bool, saving: A.Saving): A.Turn<Row> {
    A.Turn(now, cancelled, if cancelled || !Due(p.cursor, typ, now) then A.Fault else AnswerOf(RecordNow(b, p, typ).0),
           saving)
  }

  /** The first k turns of a session, under the clock, the cancellation and the saves around it. */
  function Script(b: Behaviour, p: Standing, typ: int, reportDay: int, around: Surroundings, k: nat)
    : (r: seq<A.Turn<Row>>)
    ensures |r| == k
  {
    if k == 0 then []
    else
      Script(b, p, typ, reportDay, around, k - 1) +
      [TurnOf(b, Stand(b, p, typ, reportDay, around, k - 1), typ, around.clock(k - 1), around.cancelled(k - 1),
              around.saving(k - 1))]
  }

  lemma {:induction false} ScriptTurn(b: Behaviour, p: Standing, typ: int, reportDay: int, around: Surroundings, k: nat,
                                      j: nat)
    requires j < k
    ensures Script(b, p, typ, reportDay, around, k)[..j] == Script(b, p, typ, reportDay, around, j)
    ensures Script(b, p, typ, reportDay, around, k)[j] ==
            TurnOf(b, Stand(b, p, typ, reportDay, around, j), typ, around.clock(j), around.cancelled(j),
                   around.saving(j))
    decreases k
  {
    hide TurnOf, Stand;
    if j < k - 1 {
      ScriptTurn(b, p, typ, reportDay, around, k - 1, j);
    }
  }

  // ---- The machine in step -----------------------------------------------------------------

  /** The loop of the machine and the standing of the collector agree. */
  predicate InStep(l: A.Loop<Row>, p: Standing) {
    l.cursor == p.cursor && l.left == p.left && l.table == p.rows && l.stopped == p.stopped
  }

  lemma ProceedAdvances(b: Behaviour, p: Standing, l: A.Loop<Row>, typ: int, reportDay: int, now: Time,
                        cancelled: bool, saving: A.Saving)
    requires InStep(l, p)
    ensures InStep(A.Advance(l, TurnOf(b, p, typ, now, cancelled, saving), typ, reportDay),
                   Proceed(b, p, typ, reportDay, now, cancelled, saving))
  {
    hide Next, Due, Key, RecordNow, RL.Select;
  }

  lemma {:induction false} StandRuns(b: Behaviour, p: Standing, l: A.Loop<Row>, typ: int, reportDay: int,
                                     around: Surroundings, k: nat)
    requires InStep(l, p)
    ensures InStep(A.Run(l, Script(b, p, typ, reportDay, around, k), typ, reportDay),
                   Stand(b, p, typ, reportDay, around, k))
    decreases k
  {
    hide A.Advance, Proceed, TurnOf, InStep;
    if k > 0 {
      StandRuns(b, p, l, typ, reportDay, around, k - 1);
      var script := Script(b, p, typ, reportDay, around, k);
      assert script[..k - 1] == Script(b, p, typ, reportDay, around, k - 1);
      ProceedAdvances(b, Stand(b, p, typ, reportDay, around, k - 1),
                      A.Run(l, Script(b, p, typ, reportDay, around, k - 1), typ, reportDay), typ, reportDay,
                      around.clock(k - 1), around.cancelled(k - 1), around.saving(k - 1));
    }
  }

  /** The turns saw the clock, the cancellation and the saves that surround the session. */
  predicate Faced(script: seq<A.Turn<Row>>, around: Surroundings) {
    forall k :: 0 <= k < |script| ==>
      script[k].now == around.clock(k) && script[k].cancelled == around.cancelled(k) &&
      script[k].saving == around.saving(k)
  }

  /**
   * What collectArchive does to its table is what the session machine does on turns that faced the
   * surroundings, from the range that was reported; and those turns bring its loop to an end.
   */
  lemma SessionIsAfter(b: Behaviour, m: Link, db: A.Db<Row>, typ: int, batch: int, reportDay: int, overlap: int,
                       meta: Meta, around: Surroundings, k: nat)
    requires Begun(b, m, db.table, typ, batch, reportDay, overlap, meta, around).Some?
    ensures
      var p := Begun(b, m, db.table, typ, batch, reportDay, overlap, meta, around).value;
      var script := Script(b, p, typ, reportDay, around, k);
      var s := SessionWith(around.lastKnown, around, reportDay, overlap, batch, script);
      && Faced(script, around) && A.Start(db.table, s, typ) == Some(p.cursor)
      && A.After(db, s, typ).table == Stand(b, p, typ, reportDay, around, k).rows
      && (!Running(Stand(b, p, typ, reportDay, around, k)) <==>
          !A.Running(A.Run(A.Loop(p.cursor, p.left, db.table, db.visits, false), script, typ, reportDay)))
  {
    hide Preparing, Script, Stand, A.Run, Overlapped, Next, ParseStart;
    var p := Begun(b, m, db.table, typ, batch, reportDay, overlap, meta, around).value;
    StandRuns(b, p, A.Loop(p.cursor, p.left, db.table, db.visits, false), typ, reportDay, around, k);
    ScriptFaced(b, p, typ, reportDay, around, k);
  }

  lemma ScriptFaced(b: Behaviour, p: Standing, typ: int, reportDay: int, around: Surroundings, k: nat)
    ensures Faced(Script(b, p, typ, reportDay, around, k), around)
  {
    var script := Script(b, p, typ, reportDay, around, k);
    forall j | 0 <= j < k
      ensures script[j].now == around.clock(j) && script[j].cancelled == around.cancelled(j)
      ensures script[j].saving == around.saving(j)
    {
      ScriptTurn(b, p, typ, reportDay, around, k, j);
    }
  }

  /**
   * A session gets past its preparation exactly if no command was refused or lost and the active list
   * is of use; it then goes by the list that the meter gave at the second command.
   */
  lemma PreparedExactly(b: Behaviour, m: Link, typ: int)
    ensures
      var (lists, m1) := Preparing(b, m, typ);
      && R.Later(m, m1)
      && (lists.Some? <==> R.AccountOf(b, m, m1, typ).errors == [] && R.AccountOf(b, m, m1, typ).served)
      && (lists.Some? ==>
            var (active, list) := lists.value;
            && RL.ActiveList(b.active(|m.log| + 1, m.setting.(typ := typ))) == Ok(active)
            && list == RL.Select(active, typ) && list != [] && m1.setting == Setting(typ, list, m.setting.date))
  {
    hide R.AccountOf, R.Later, RL.ActiveList, RL.Select, R.Join;
    var m1 := Issue(b, m, PutType(typ));
    R.WriteLaw(b, m, PutType(typ), typ);
    if TroubleNow(b, m, PutType(typ)).None? {
      var m2 := Issue(b, m1, GetActive);
      R.ActiveLaw(b, m1, typ);
      R.AccountsJoin(b, m, m1, m2, typ);
      R.JoinNothing(R.AccountOf(b, m1, m2, typ));
      if ActiveNow(b, m1).Ok? && RL.Select(ActiveNow(b, m1).value, typ) != [] {
        var list := RL.Select(ActiveNow(b, m1).value, typ);
        var m3 := Listing(b, m2, list).1;
        R.ListingLaw(b, m2, list, typ);
        R.AccountsJoin(b, m, m2, m3, typ);
        R.JoinOne(R.AccountOf(b, m2, m3, typ));
      }
    }
  }

  // ---- What a turn rests on ----------------------------------------------------------------

  /** What the meter's log shows of one turn that reads. */
  function AccountNow(b: Behaviour, p: Standing, typ: int): R.Account {
    R.RecordLaw(b, p.link, typ, DateStamp(p.cursor, typ), p.list, p.active, p.meta, ATTEMPTS);
    R.AccountOf(b, p.link, RecordNow(b, p, typ).1, typ)
  }

  /** A turn that reads counts as missing exactly if the last error it met was exception 3. */
  lemma MissingExactly(b: Behaviour, p: Standing, typ: int, now: Time, saving: A.Saving)
    requires Due(p.cursor, typ, now)
    ensures
      var errors := AccountNow(b, p, typ).errors;
      TurnOf(b, p, typ, now, false, saving).answer.NoRecord? <==>
      errors != [] && errors[|errors| - 1] == Exception(3)
  {
    hide Due, DateStamp, Recording, R.AccountOf;
    R.LastErrorReturned(b, p.link, typ, DateStamp(p.cursor, typ), p.list, p.active, p.meta);
  }

  /** It gives a record exactly if all answers served and each error was an exception 5 that a refresh followed. */
  lemma GotExactly(b: Behaviour, p: Standing, typ: int, now: Time, saving: A.Saving)
    requires Due(p.cursor, typ, now) && p.list != []
    ensures
      var account := AccountNow(b, p, typ);
      TurnOf(b, p, typ, now, false, saving).answer.Got? <==>
      account.served && account.errors == R.Fives(account.refreshes) && account.refreshes < ATTEMPTS
  {
    hide Due, DateStamp, Recording, R.AccountOf;
    R.RecordLaw(b, p.link, typ, DateStamp(p.cursor, typ), p.list, p.active, p.meta, ATTEMPTS);
  }

  /** The read list in force is always the selection from the active list in force, and not empty. */
  lemma {:induction false} StandSelected(b: Behaviour, p: Standing, typ: int, reportDay: int, around: Surroundings,
                                         k: nat)
    requires p.list == RL.Select(p.active, typ) && p.list != []
    ensures
      var q := Stand(b, p, typ, reportDay, around, k);
      q.list == RL.Select(q.active, typ) && (Running(q) ==> q.list != [])
    decreases k
  {
    if k > 0 {
      StandSelected(b, p, typ, reportDay, around, k - 1);
      hide Proceed, RL.Select, Running;
      ProceedSelected(b, Stand(b, p, typ, reportDay, around, k - 1), typ, reportDay, around.clock(k - 1),
                      around.cancelled(k - 1), around.saving(k - 1));
    }
  }

  lemma ProceedSelected(b: Behaviour, p: Standing, typ: int, reportDay: int, now: Time, cancelled: bool,
                        saving: A.Saving)
    requires p.list == RL.Select(p.active, typ) && (Running(p) ==> p.list != [])
    ensures
      var q := Proceed(b, p, typ, reportDay, now, cancelled, saving);
      q.list == RL.Select(q.active, typ) && (Running(q) ==> q.list != [])
  {
    hide Due, Next, Saved, RL.Select, RecordNow;
    if Running(p) {
      GivenSelected(b, p, typ);
    }
  }

  lemma GivenSelected(b: Behaviour, p: Standing, typ: int)
    requires p.list == RL.Select(p.active, typ) && p.list != []
    ensures RecordNow(b, p, typ).0.Ok? ==> RL.Select(RecordNow(b, p, typ).0.value.active, typ) != []
  {
    var date := DateStamp(p.cursor, typ);
    hide DateStamp, RL.Select, Recording, R.Tried;
    R.TriedLists(b, p.link, typ, date, p.list, p.active, p.meta, ATTEMPTS);
    R.TriedSome(b, p.link, typ, date, p.list, ATTEMPTS);
    var lists := R.Tried(b, p.link, typ, date, p.list, ATTEMPTS);
    assert lists != [] ==> lists[|lists| - 1] in lists;
  }

  /** A turn that stores a row ended with a complete read of a list for its mark, if the type was set. */
  lemma StoredOnRead(b: Behaviour, p: Standing, typ: int, now: Time, saving: A.Saving)
    requires Due(p.cursor, typ, now) && p.link.setting.typ == typ && p.list == RL.Select(p.active, typ)
    ensures
      var answer := TurnOf(b, p, typ, now, false, saving).answer;
      answer.Got? ==>
      var lists := R.Tried(b, p.link, typ, DateStamp(p.cursor, typ), p.list, ATTEMPTS);
      lists != [] &&
      Chunks.EndsWithReadOf(AccountNow(b, p, typ).accesses, lists[|lists| - 1], typ, DateStamp(p.cursor, typ),
                       answer.value.values)
  {
    hide Due, DateStamp, Recording, R.AccountOf, R.Tried, RL.Select;
    R.RecordReads(b, p.link, typ, DateStamp(p.cursor, typ), p.list, p.active, p.meta, ATTEMPTS);
  }
}
