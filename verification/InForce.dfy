// Which active list and which metadata a session goes by, told from the meter's log: those of the
// last refresh in a turn that gave a record.

module InForce {
  import opened Bytes
  import opened Elements
  import opened ValueTypes
  import opened Calendar
  import opened Marks
  import opened Meter
  import opened ArchiveRecord
  import opened Collector
  import RL = ReadLists
  import R = RecordLaws
  import A = Archive

  // ---- One record --------------------------------------------------------------------------

  /** The active list was not asked for after the first n commands. */
  predicate NotAsked(log: seq<Event>, n: nat) {
    forall j :: n <= j < |log| ==> !log[j].command.GetActive?
  }

  /** The i-th command was the last, after the first n, to ask for the active list. */
  predicate LastAsked(log: seq<Event>, n: nat, i: nat) {
    n <= i < |log| && log[i].command.GetActive? && NotAsked(log, i + 1)
  }

  /** The meta-data are the numbers that the meter gave after its i-th command. */
  predicate NumbersOf(b: Behaviour, log: seq<Event>, i: nat, meta: Meta)
    requires i < |log|
  {
    meta == R.NumbersAt(b, i + 2, log[i].before.(typ := CURRENT))
  }

  /** The active list is what the meter answered to its i-th command. */
  predicate ListOf(b: Behaviour, log: seq<Event>, i: nat, active: seq<Element>)
    requires i < |log|
  {
    RL.ActiveList(b.active(i, log[i].before)) == Ok(active)
  }

  lemma {:induction false} NoRefreshes(b: Behaviour, n: nat, events: seq<Event>, typ: int)
    requires R.AccountFrom(b, n, events, typ).refreshes == 0
    ensures NotAsked(events, 0)
    decreases |events|
  {
    if events != [] {
      NoRefreshes(b, n + 1, events[1..], typ);
      assert events == [events[0]] + events[1..];
    }
  }

  lemma NotAskedBetween(b: Behaviour, m: Link, m1: Link, typ: int)
    requires R.Later(m, m1) && R.AccountOf(b, m, m1, typ).refreshes == 0
    ensures NotAsked(m1.log, |m.log|)
  {
    NoRefreshes(b, |m.log|, m1.log[|m.log|..], typ);
    hide R.AccountFrom;
    forall j | |m.log| <= j < |m1.log|
      ensures !m1.log[j].command.GetActive?
    {
      assert m1.log[j] == m1.log[|m.log|..][j - |m.log|];
    }
  }

  /** A refresh asks once, with its first command. */
  lemma RefreshAsks(b: Behaviour, m: Link, typ: int)
    requires Refreshing(b, m, typ).0.Ok?
    ensures
      var (r, m1) := Refreshing(b, m, typ);
      && R.Later(m, m1) && LastAsked(m1.log, |m.log|, |m.log|)
      && ListOf(b, m1.log, |m.log|, r.value.active) && NumbersOf(b, m1.log, |m.log|, r.value.meta)
  {
    R.RefreshGives(b, m, typ);
    R.ActiveLaw(b, m, typ);
    var m1 := Issue(b, m, GetActive);
    var list := RL.Select(ActiveNow(b, m).value, typ);
    R.RestoringLaw(b, m1, typ, list);
    hide R.AccountOf, RL.ActiveList, RL.Select, Restoring, R.NumbersAt;
    NotAskedBetween(b, m1, Restoring(b, m1, typ, list).1, typ);
  }

  /** A record that was obtained goes by what it was given, or by what its last refresh was given. */
  ghost predicate Renewed(b: Behaviour, m: Link, m1: Link, o: Outcome, active: seq<Element>, meta: Meta) {
    && R.Later(m, m1)
    && (NotAsked(m1.log, |m.log|) ==> o.active == active && o.meta == meta)
    && (forall i: nat :: LastAsked(m1.log, |m.log|, i) ==>
          ListOf(b, m1.log, i, o.active) && NumbersOf(b, m1.log, i, o.meta))
  }

  lemma RecordRenewed(b: Behaviour, m: Link, typ: int, date: Stamp, list: seq<Element>, active: seq<Element>,
                      meta: Meta, attempts: nat)
    ensures
      var (r, m1) := Recording(b, m, typ, date, list, active, meta, attempts);
      r.Ok? ==> Renewed(b, m, m1, r.value, active, meta)
    decreases attempts
  {
    hide R.AccountOf, Attempting, Refreshing, R.Attempted, Renewed, RL.Split;
    if attempts > 0 {
      var (a, m1) := Attempting(b, m, date, list);
      AttemptAsksNothing(b, m, date, list, typ);
      if a.Complete? {
        NothingRenewed(b, m, m1, Outcome(a.values, active, meta));
      } else if a.SchemeChange? {
        var (f, m2) := Refreshing(b, m1, typ);
        if f.Ok? {
          RefreshAsks(b, m1, typ);
          var (r, m3) := Recording(b, m2, typ, date, f.value.list, f.value.active, f.value.meta, attempts - 1);
          RecordRenewed(b, m2, typ, date, f.value.list, f.value.active, f.value.meta, attempts - 1);
          if r.Ok? {
            RenewedLater(b, m, m1, m2, m3, f.value, r.value, active, meta);
          }
        }
      }
    }
  }

  lemma AttemptAsksNothing(b: Behaviour, m: Link, date: Stamp, list: seq<Element>, typ: int)
    ensures
      var m1 := Attempting(b, m, date, list).1;
      R.Later(m, m1) && NotAsked(m1.log, |m.log|)
  {
    R.AttemptLaw(b, m, date, list, typ);
    hide R.AccountOf, Attempting, RL.Split;
    if list != [] {
      NotAskedBetween(b, m, Attempting(b, m, date, list).1, typ);
    }
  }

  lemma NothingRenewed(b: Behaviour, m: Link, m1: Link, o: Outcome)
    requires R.Later(m, m1) && NotAsked(m1.log, |m.log|)
    ensures Renewed(b, m, m1, o, o.active, o.meta)
  {}

  lemma RenewedLater(b: Behaviour, m: Link, m1: Link, m2: Link, m3: Link, f: Refreshed, o: Outcome,
                     active: seq<Element>, meta: Meta)
    requires R.Later(m, m1) && R.Later(m1, m2) && LastAsked(m2.log, |m1.log|, |m1.log|)
    requires ListOf(b, m2.log, |m1.log|, f.active) && NumbersOf(b, m2.log, |m1.log|, f.meta)
    requires Renewed(b, m2, m3, o, f.active, f.meta)
    ensures Renewed(b, m, m3, o, active, meta)
  {
    hide RL.ActiveList, R.NumbersAt;
    var n := |m1.log|;
    assert m3.log[n] == m2.log[n];
    assert !NotAsked(m3.log, |m.log|);
    forall i: nat | LastAsked(m3.log, |m.log|, i)
      ensures ListOf(b, m3.log, i, o.active) && NumbersOf(b, m3.log, i, o.meta)
    {
      if i < |m2.log| {
        assert i >= n;
        assert m3.log[i] == m2.log[i];
        assert i == n;
        assert NotAsked(m3.log, |m2.log|);
      } else {
        assert LastAsked(m3.log, |m2.log|, i);
      }
    }
  }

  // ---- Many turns --------------------------------------------------------------------------

  /** The j-th turn gave a record. */
  ghost predicate GotAt(b: Behaviour, p: Standing, typ: int, reportDay: int, around: Surroundings, j: nat) {
    var q := Stand(b, p, typ, reportDay, around, j);
    Running(q) && !around.cancelled(j) && Due(q.cursor, typ, around.clock(j)) && RecordNow(b, q, typ).0.Ok?
  }

  /** The commands of the j-th turn that asked for the active list. */
  ghost function AskedIn(b: Behaviour, p: Standing, typ: int, reportDay: int, around: Surroundings, j: nat): iset<nat> {
    AskedBetween(Stand(b, p, typ, reportDay, around, j).link, Stand(b, p, typ, reportDay, around, j + 1).link)
  }

  ghost function AskedBetween(m: Link, m1: Link): iset<nat> {
    iset i: nat | |m.log| <= i < |m1.log| && m1.log[i].command.GetActive?
  }

  ghost predicate AdoptedAt(b: Behaviour, p: Standing, typ: int, reportDay: int, around: Surroundings, k: nat, i: nat) {
    exists j: nat :: j < k && GotAt(b, p, typ, reportDay, around, j) && i in AskedIn(b, p, typ, reportDay, around, j)
  }

  /** Those of the first k turns that gave a record. */
  ghost function Adopted(b: Behaviour, p: Standing, typ: int, reportDay: int, around: Surroundings, k: nat): iset<nat> {
    iset i: nat | AdoptedAt(b, p, typ, reportDay, around, k, i)
  }

  /** List and metadata are those of the last of these commands, or those of the beginning. */
  ghost predicate ByLast(b: Behaviour, p: Standing, q: Standing, adopted: iset<nat>) {
    && (forall i :: i in adopted ==> i < |q.link.log|)
    && (adopted == iset{} ==> q.meta == p.meta && (Running(q) ==> q.active == p.active))
    && (forall i :: i in adopted && (forall h :: h in adopted ==> h <= i) ==>
          NumbersOf(b, q.link.log, i, q.meta) && (Running(q) ==> ListOf(b, q.link.log, i, q.active)))
  }

  lemma ProceedLater(b: Behaviour, p: Standing, typ: int, reportDay: int, now: Time, cancelled: bool, saving: A.Saving)
    ensures R.Later(p.link, Proceed(b, p, typ, reportDay, now, cancelled, saving).link)
  {
    hide Due, Next, Saved, Recording, RL.Select, DateStamp, R.AccountOf;
    R.RecordLaw(b, p.link, typ, DateStamp(p.cursor, typ), p.list, p.active, p.meta, ATTEMPTS);
  }

  /** What a turn that gives a record hands on, and stores: its own metadata in both places. */
  lemma TurnGives(b: Behaviour, p: Standing, typ: int, reportDay: int, now: Time, saving: A.Saving)
    requires Running(p) && Due(p.cursor, typ, now) && RecordNow(b, p, typ).0.Ok?
    ensures
      var q := Proceed(b, p, typ, reportDay, now, false, saving);
      var (r, m) := RecordNow(b, p, typ);
      && Renewed(b, p.link, m, r.value, p.active, p.meta) && q.link == m && q.meta == r.value.meta
      && (Running(q) ==> q.active == r.value.active)
      && q.rows == if saving.FailedUnwritten? then p.rows else p.rows[Key(p.cursor, typ) := Row(r.value.values, q.meta)]
  {
    hide Due, Next, Key, Recording, RL.Select, DateStamp, Renewed;
    RecordRenewed(b, p.link, typ, DateStamp(p.cursor, typ), p.list, p.active, p.meta, ATTEMPTS);
  }

  /** A turn that gives no record hands on what it was given. */
  lemma TurnKeeps(b: Behaviour, p: Standing, typ: int, reportDay: int, now: Time, cancelled: bool, saving: A.Saving)
    requires !(Running(p) && !cancelled && Due(p.cursor, typ, now) && RecordNow(b, p, typ).0.Ok?)
    ensures
      var q := Proceed(b, p, typ, reportDay, now, cancelled, saving);
      q.meta == p.meta && q.active == p.active && q.rows == p.rows && (Running(q) ==> Running(p))
  {
    hide Due, Next, RecordNow, RL.Select;
  }

  lemma KeptByLast(b: Behaviour, p: Standing, q: Standing, q1: Standing, adopted: iset<nat>)
    requires ByLast(b, p, q, adopted) && R.Later(q.link, q1.link)
    requires q1.meta == q.meta && q1.active == q.active && (Running(q1) ==> Running(q))
    ensures ByLast(b, p, q1, adopted)
  {
    hide Running, RL.ActiveList, R.NumbersAt;
    assert forall i: nat :: i < |q.link.log| ==> q1.link.log[i] == q.link.log[i];
  }

  lemma GotByLast(b: Behaviour, p: Standing, q: Standing, q1: Standing, o: Outcome, adopted: iset<nat>)
    requires ByLast(b, p, q, adopted) && Running(q) && Renewed(b, q.link, q1.link, o, q.active, q.meta)
    requires q1.meta == o.meta && (Running(q1) ==> q1.active == o.active)
    ensures ByLast(b, p, q1, adopted + AskedBetween(q.link, q1.link))
  {
    hide Running, ListOf, NumbersOf, Renewed, ByLast;
    var asked := AskedBetween(q.link, q1.link);
    if NotAsked(q1.link.log, |q.link.log|) {
      assert asked == iset{} && adopted + asked == adopted;
      GotOld(b, p, q, q1, o, adopted);
    } else {
      GotNew(b, p, q, q1, o, adopted);
    }
  }

  lemma GotOld(b: Behaviour, p: Standing, q: Standing, q1: Standing, o: Outcome, adopted: iset<nat>)
    requires ByLast(b, p, q, adopted) && Running(q) && Renewed(b, q.link, q1.link, o, q.active, q.meta)
    requires q1.meta == o.meta && (Running(q1) ==> q1.active == o.active) && NotAsked(q1.link.log, |q.link.log|)
    ensures ByLast(b, p, q1, adopted)
  {
    hide Running, RL.ActiveList, R.NumbersAt;
    assert forall i: nat :: i < |q.link.log| ==> q1.link.log[i] == q.link.log[i];
  }

  lemma GotNew(b: Behaviour, p: Standing, q: Standing, q1: Standing, o: Outcome, adopted: iset<nat>)
    requires ByLast(b, p, q, adopted) && Running(q) && Renewed(b, q.link, q1.link, o, q.active, q.meta)
    requires q1.meta == o.meta && (Running(q1) ==> q1.active == o.active) && !NotAsked(q1.link.log, |q.link.log|)
    ensures ByLast(b, p, q1, adopted + AskedBetween(q.link, q1.link))
  {
    hide Running, ListOf, NumbersOf;
    var n, asked := |q.link.log|, AskedBetween(q.link, q1.link);
    var j: nat :| n <= j < |q1.link.log| && q1.link.log[j].command.GetActive?;
    assert j in adopted + asked;
    forall i | i in adopted + asked && (forall h :: h in adopted + asked ==> h <= i)
      ensures LastAsked(q1.link.log, n, i)
    {
      assert j <= i && i in asked;
      forall h | i < h < |q1.link.log|
        ensures !q1.link.log[h].command.GetActive?
      {
        assert h in asked ==> h in adopted + asked;
      }
    }
  }

  /**
   * At every point of a session the metadata in force are the numbers that the meter gave with the
   * last refresh in a turn that gave a record, or those the loop began with; while the session runs,
   * the active list is the answer that began this refresh, or the one the loop began with.
   */
  lemma {:induction false} AlwaysByLast(b: Behaviour, p: Standing, typ: int, reportDay: int, around: Surroundings,
                                        k: nat)
    ensures ByLast(b, p, Stand(b, p, typ, reportDay, around, k), Adopted(b, p, typ, reportDay, around, k))
    decreases k
  {
    hide ByLast, Stand, Proceed, RecordNow, Due, Running, Adopted, AdoptedAt, AskedBetween, GotAt, AskedIn;
    if k == 0 {
      BeginsByLast(b, p, typ, reportDay, around);
    } else {
      AlwaysByLast(b, p, typ, reportDay, around, k - 1);
      StandStep(b, p, typ, reportDay, around, k - 1);
      AdoptedMore(b, p, typ, reportDay, around, k - 1);
      StepByLast(b, p, Stand(b, p, typ, reportDay, around, k - 1), typ, reportDay, around.clock(k - 1),
                 around.cancelled(k - 1), around.saving(k - 1), Adopted(b, p, typ, reportDay, around, k - 1));
    }
  }

  lemma BeginsByLast(b: Behaviour, p: Standing, typ: int, reportDay: int, around: Surroundings)
    ensures ByLast(b, p, Stand(b, p, typ, reportDay, around, 0), Adopted(b, p, typ, reportDay, around, 0))
  {
    assert Adopted(b, p, typ, reportDay, around, 0) == iset{};
  }

  lemma StepByLast(b: Behaviour, p: Standing, q: Standing, typ: int, reportDay: int, now: Time, cancelled: bool,
                   saving: A.Saving, adopted: iset<nat>)
    requires ByLast(b, p, q, adopted)
    ensures
      var q1 := Proceed(b, q, typ, reportDay, now, cancelled, saving);
      var got := Running(q) && !cancelled && Due(q.cursor, typ, now) && RecordNow(b, q, typ).0.Ok?;
      ByLast(b, p, q1, if got then adopted + AskedBetween(q.link, q1.link) else adopted)
  {
    hide ByLast, Proceed, RecordNow, Due, Running, Renewed, AskedBetween;
    var q1 := Proceed(b, q, typ, reportDay, now, cancelled, saving);
    if Running(q) && !cancelled && Due(q.cursor, typ, now) && RecordNow(b, q, typ).0.Ok? {
      TurnGives(b, q, typ, reportDay, now, saving);
      GotByLast(b, p, q, q1, RecordNow(b, q, typ).0.value, adopted);
    } else {
      ProceedLater(b, q, typ, reportDay, now, cancelled, saving);
      TurnKeeps(b, q, typ, reportDay, now, cancelled, saving);
      KeptByLast(b, p, q, q1, adopted);
    }
  }

  lemma StandStep(b: Behaviour, p: Standing, typ: int, reportDay: int, around: Surroundings, k: nat)
    ensures Stand(b, p, typ, reportDay, around, k + 1) ==
            Proceed(b, Stand(b, p, typ, reportDay, around, k), typ, reportDay, around.clock(k), around.cancelled(k),
                    around.saving(k))
  {
    hide Proceed;
  }

  lemma AdoptedMore(b: Behaviour, p: Standing, typ: int, reportDay: int, around: Surroundings, k: nat)
    ensures
      var q, q1 := Stand(b, p, typ, reportDay, around, k), Stand(b, p, typ, reportDay, around, k + 1);
      var got := Running(q) && !around.cancelled(k) && Due(q.cursor, typ, around.clock(k)) &&
                 RecordNow(b, q, typ).0.Ok?;
      var before := Adopted(b, p, typ, reportDay, around, k);
      Adopted(b, p, typ, reportDay, around, k + 1) == if got then before + AskedBetween(q.link, q1.link) else before
  {
    hide Stand, AskedBetween, RecordNow, Running, Due, Adopted;
    AdoptedNext(b, p, typ, reportDay, around, k);
  }

  lemma AdoptedNext(b: Behaviour, p: Standing, typ: int, reportDay: int, around: Surroundings, k: nat)
    ensures Adopted(b, p, typ, reportDay, around, k + 1) ==
            if GotAt(b, p, typ, reportDay, around, k)
            then Adopted(b, p, typ, reportDay, around, k) + AskedIn(b, p, typ, reportDay, around, k)
            else Adopted(b, p, typ, reportDay, around, k)
  {
    hide GotAt, AskedIn;
    forall i: nat
      ensures AdoptedAt(b, p, typ, reportDay, around, k + 1, i) <==>
              AdoptedAt(b, p, typ, reportDay, around, k, i) ||
              (GotAt(b, p, typ, reportDay, around, k) && i in AskedIn(b, p, typ, reportDay, around, k))
    {
    }
  }
}
