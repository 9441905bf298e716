// What reading one record comes to, told from the log of the commands it gave.

module RecordLaws {
  import opened Bytes
  import opened Elements
  import opened ReadLists
  import opened Marks
  import opened Meter
  import opened Chunks
  import opened ArchiveRecord
  import opened ValueTypes

  // ---- The account of a stretch of the log -------------------------------------------------

  /** The errors met, the reads issued, how often the active list was asked for, and whether all answers served. */
  datatype Account = Account(errors: seq<MeterError>, accesses: seq<Access>, refreshes: nat, served: bool)

  const NOTHING := Account([], [], 0, true)

  function Join(a: Account, b: Account): Account {
    Account(a.errors + b.errors, a.accesses + b.accesses, a.refreshes + b.refreshes, a.served && b.served)
  }

  /** An answer the collector can go on with: data that parse, a list to read, a number. */
  predicate Serves(b: Behaviour, n: nat, e: Event, typ: int) {
    match e.command
    case GetData => e.fate.Accepted? ==> Parse(e.before.list, b.data(n, e.before)).Ok?
    case GetActive =>
      e.fate.Accepted? ==>
        var active := ActiveList(b.active(n, e.before));
        active.Ok? && Select(active.value, typ) != []
    case GetNumbers(q) => e.fate.Lost? || |b.numbers(n, e.before, q)| >= 3
    case _ => true
  }

  /** The account of the n-th command. */
  function Entry(b: Behaviour, n: nat, e: Event, typ: int): Account {
    Account(
      match Trouble(e.command, e.fate) case Some(error) => [error] case None => [],
      if e.command.GetData? then [Access(e.before, ReplyTo(b, n, e.before))] else [],
      if e.command.GetActive? then 1 else 0,
      Serves(b, n, e, typ))
  }

  function AccountFrom(b: Behaviour, n: nat, events: seq<Event>, typ: int): Account
    decreases |events|
  {
    if events == [] then NOTHING else Join(Entry(b, n, events[0], typ), AccountFrom(b, n + 1, events[1..], typ))
  }

  predicate Later(m: Link, later: Link) {
    m.log <= later.log
  }

  /** What happened between two states of a link. */
  function AccountOf(b: Behaviour, m: Link, later: Link, typ: int): Account
    requires Later(m, later)
  {
    AccountFrom(b, |m.log|, later.log[|m.log|..], typ)
  }

  lemma {:induction false} AccountAppend(b: Behaviour, n: nat, e: seq<Event>, f: seq<Event>, typ: int)
    ensures AccountFrom(b, n, e + f, typ) == Join(AccountFrom(b, n, e, typ), AccountFrom(b, n + |e|, f, typ))
    decreases |e|
  {
    hide Entry;
    if e == [] {
      assert e + f == f;
      var a := AccountFrom(b, n, f, typ);
      assert [] + a.errors == a.errors && [] + a.accesses == a.accesses;
    } else {
      assert (e + f)[1..] == e[1..] + f;
      AccountAppend(b, n + 1, e[1..], f, typ);
      JoinAssociates(Entry(b, n, e[0], typ), AccountFrom(b, n + 1, e[1..], typ), AccountFrom(b, n + |e|, f, typ));
    }
  }

  lemma JoinAssociates(a: Account, b: Account, c: Account)
    ensures Join(Join(a, b), c) == Join(a, Join(b, c))
  {
    assert (a.errors + b.errors) + c.errors == a.errors + (b.errors + c.errors);
    assert (a.accesses + b.accesses) + c.accesses == a.accesses + (b.accesses + c.accesses);
  }

  lemma JoinNothing(a: Account)
    ensures Join(a, NOTHING) == a && Join(NOTHING, a) == a
  {
    assert a.errors + [] == a.errors == [] + a.errors && a.accesses + [] == a.accesses == [] + a.accesses;
  }

  lemma AccountsJoin(b: Behaviour, m: Link, m1: Link, m2: Link, typ: int)
    requires Later(m, m1) && Later(m1, m2)
    ensures Later(m, m2) && AccountOf(b, m, m2, typ) == Join(AccountOf(b, m, m1, typ), AccountOf(b, m1, m2, typ))
  {
    hide Join, AccountFrom;
    assert m2.log[|m.log|..] == m1.log[|m.log|..] + m2.log[|m1.log|..];
    AccountAppend(b, |m.log|, m1.log[|m.log|..], m2.log[|m1.log|..], typ);
  }

  lemma NoAccount(b: Behaviour, m: Link, typ: int)
    ensures Later(m, m) && AccountOf(b, m, m, typ) == NOTHING
  {
    assert m.log[|m.log|..] == [];
  }

  lemma IssueAccount(b: Behaviour, m: Link, c: Command, typ: int)
    ensures Later(m, Issue(b, m, c))
    ensures AccountOf(b, m, Issue(b, m, c), typ) == Entry(b, |m.log|, Event(m.setting, c, FateNow(b, m, c)), typ)
  {
    var e := Event(m.setting, c, FateNow(b, m, c));
    hide Entry, Join;
    assert Issue(b, m, c).log[|m.log|..] == [e] && [e][1..] == [];
    assert AccountFrom(b, |m.log|, [e], typ) == Join(Entry(b, |m.log|, e, typ), NOTHING);
    JoinNothing(Entry(b, |m.log|, e, typ));
  }

  predicate IsRefusal(e: MeterError) {
    e.Exception? || e.LinkFault?
  }

  /** A write adds its error, if it fails, and changes the setting only as it asks. */
  lemma WriteLaw(b: Behaviour, m: Link, c: Command, typ: int)
    requires IsWrite(c)
    ensures
      var m1 := Issue(b, m, c);
      Later(m, m1) &&
      match TroubleNow(b, m, c)
      case None => m1.setting == Wanted(m.setting, c) && AccountOf(b, m, m1, typ) == NOTHING
      case Some(e) =>
        IsRefusal(e) && (m1.setting == m.setting || m1.setting == Wanted(m.setting, c)) &&
        AccountOf(b, m, m1, typ) == Account([e], [], 0, true)
  {
    IssueAccount(b, m, c, typ);
    hide AccountOf, Later;
  }

  lemma DataLaw(b: Behaviour, m: Link, typ: int)
    ensures
      var m1 := Issue(b, m, GetData);
      var r := ReplyTo(b, |m.log|, m.setting);
      Later(m, m1) && m1.setting == m.setting &&
      match r
      case Ok(d) => AccountOf(b, m, m1, typ) == Account([], [Access(m.setting, r)], 0, Parse(m.setting.list, d).Ok?)
      case Err(e) => IsRefusal(e) && AccountOf(b, m, m1, typ) == Account([e], [Access(m.setting, r)], 0, true)
  {
    IssueAccount(b, m, GetData, typ);
    hide AccountOf, Later, Parse;
  }

  // ---- One chunk ---------------------------------------------------------------------------

  /** A chunk that is read adds exactly its read; one that fails adds exactly its error. */
  lemma OneLaw(b: Behaviour, m: Link, date: Stamp, chunk: seq<Element>, typ: int)
    requires |chunk| <= 42
    ensures
      var (r, m1) := ReadingOne(b, m, date, chunk);
      var own := Access(Setting(m.setting.typ, chunk, Some(date)), r);
      Later(m, m1) && m1.setting.typ == m.setting.typ &&
      match r
      case Ok(d) => AccountOf(b, m, m1, typ) == Account([], [own], 0, Parse(chunk, d).Ok?)
      case Err(e) =>
        IsRefusal(e) &&
        (AccountOf(b, m, m1, typ) == Account([e], [], 0, true) ||
         AccountOf(b, m, m1, typ) == Account([e], [own], 0, true))
  {
    hide Parse, AccountOf, Later, Issue, TroubleNow, ReplyTo, Join;
    var m1 := Issue(b, m, PutList(chunk));
    WriteLaw(b, m, PutList(chunk), typ);
    if TroubleNow(b, m, PutList(chunk)).None? {
      var m2 := Issue(b, m1, PutDate(date));
      WriteLaw(b, m1, PutDate(date), typ);
      AccountsJoin(b, m, m1, m2, typ);
      JoinNothing(AccountOf(b, m1, m2, typ));
      if TroubleNow(b, m1, PutDate(date)).None? {
        var m3 := Issue(b, m2, GetData);
        DataLaw(b, m2, typ);
        AccountsJoin(b, m, m2, m3, typ);
        JoinNothing(AccountOf(b, m2, m3, typ));
      }
    }
  }

  // ---- One attempt -------------------------------------------------------------------------

  /** The n-th read is issued for the n-th chunk, under this type and date. */
  predicate ReadInOrder(accesses: seq<Access>, chunks: seq<seq<Element>>, typ: int, date: Stamp) {
    && |accesses| <= |chunks|
    && forall k :: 0 <= k < |accesses| ==> accesses[k].setting == Setting(typ, chunks[k], Some(date))
  }

  /** What an attempt at these chunks leaves behind: its error alone, or the merge of its reads. */
  predicate Attempted(a: Attempt, account: Account, chunks: seq<seq<Element>>, typ: int, date: Stamp) {
    && account.refreshes == 0 && ReadInOrder(account.accesses, chunks, typ, date)
    && match a
       case Complete(values) =>
         account.errors == [] && account.served && ReadsChunks(account.accesses, chunks, typ, date) &&
         Merged(chunks, Replies(account.accesses)) == Some(values)
       case SchemeChange => account.errors == [Exception(SCHEME_CHANGED)] && account.served
       case Failed(e) =>
         if IsRefusal(e) then account.errors == [e] && e != Exception(SCHEME_CHANGED) && account.served
         else account.errors == [] && !account.served
  }

  function Onto(values: Record, a: Attempt): Attempt {
    if a.Complete? then Complete(values + a.values) else a
  }

  /** The values read before only lie below those still to come. */
  lemma {:induction false} ReadingOnto(b: Behaviour, m: Link, date: Stamp, chunks: seq<seq<Element>>, values: Record)
    ensures
      var (a, m1) := ReadingAll(b, m, date, chunks, map[]);
      ReadingAll(b, m, date, chunks, values) == (Onto(values, a), m1)
    decreases |chunks|
  {
    hide ReadingOne, Parse;
    if chunks == [] {
      assert values + map[] == values;
    } else {
      var (data, m1) := ReadingOne(b, m, date, chunks[0]);
      if data.Ok? && Parse(chunks[0], data.value).Ok? {
        var v := Parse(chunks[0], data.value).value;
        ReadingOnto(b, m1, date, chunks[1..], values + v);
        ReadingOnto(b, m1, date, chunks[1..], map[] + v);
        var (a, m2) := ReadingAll(b, m1, date, chunks[1..], map[]);
        if a.Complete? {
          assert (values + v) + a.values == values + (map[] + v + a.values);
        }
      }
    }
  }

  lemma {:induction false} AllLaw(b: Behaviour, m: Link, date: Stamp, chunks: seq<seq<Element>>, typ: int)
    requires forall c :: c in chunks ==> |c| <= 42
    ensures
      var (a, m1) := ReadingAll(b, m, date, chunks, map[]);
      Later(m, m1) && m1.setting.typ == m.setting.typ &&
      Attempted(a, AccountOf(b, m, m1, typ), chunks, m.setting.typ, date)
    decreases |chunks|
  {
    hide ReadingOne, Parse, AccountOf, Later, Merged, Join;
    NothingMerged();
    if chunks == [] {
      NoAccount(b, m, typ);
    } else {
      var (data, m1) := ReadingOne(b, m, date, chunks[0]);
      OneLaw(b, m, date, chunks[0], typ);
      if data.Ok? && Parse(chunks[0], data.value).Ok? {
        var v := Parse(chunks[0], data.value).value;
        AllLaw(b, m1, date, chunks[1..], typ);
        ReadingOnto(b, m1, date, chunks[1..], map[] + v);
        var (a, m2) := ReadingAll(b, m1, date, chunks[1..], map[]);
        AccountsJoin(b, m, m1, m2, typ);
        FirstThenRest(chunks, data, a, AccountOf(b, m, m1, typ), AccountOf(b, m1, m2, typ), m.setting.typ, date);
      }
    }
  }

  lemma FirstThenRest(chunks: seq<seq<Element>>, data: Result<seq<byte>, MeterError>, a: Attempt, first: Account,
                      rest: Account, typ: int, date: Stamp)
    requires chunks != [] && data.Ok? && Parse(chunks[0], data.value).Ok?
    requires first == Account([], [Access(Setting(typ, chunks[0], Some(date)), data)], 0, true)
    requires Attempted(a, rest, chunks[1..], typ, date)
    ensures Attempted(Onto(map[] + Parse(chunks[0], data.value).value, a), Join(first, rest), chunks, typ, date)
  {
    hide Parse, Merged;
    var all := first.accesses + rest.accesses;
    assert [] + rest.errors == rest.errors;
    assert all[1..] == rest.accesses && chunks == [chunks[0]] + chunks[1..];
    assert ReadInOrder(all, chunks, typ, date);
    if a.Complete? {
      assert ReadsChunks(all, chunks, typ, date);
      assert Replies(all) == [data.value] + Replies(rest.accesses);
      MergedFirst(chunks[0], data.value, chunks[1..], Replies(rest.accesses));
      assert map[] + Parse(chunks[0], data.value).value == Parse(chunks[0], data.value).value;
    }
  }

  /** An attempt at a list reads its chunks in order; an empty list is an error of its own. */
  lemma AttemptLaw(b: Behaviour, m: Link, date: Stamp, list: seq<Element>, typ: int)
    ensures
      var (a, m1) := Attempting(b, m, date, list);
      Later(m, m1) && m1.setting.typ == m.setting.typ &&
      if list == [] then a == Failed(NothingToRead) && m1 == m
      else Attempted(a, AccountOf(b, m, m1, typ), Split(list), m.setting.typ, date)
  {
    hide ReadingAll, AccountOf, Attempted;
    SplitIsSplit(list);
    forall c | c in Split(list)
      ensures |c| <= 42
    {
      ReadableIsShort(c);
    }
    AllLaw(b, m, date, Split(list), typ);
    hide Readable;
  }

  // ---- A refresh ---------------------------------------------------------------------------

  lemma NumberLaw(b: Behaviour, m: Link, q: Query, typ: int)
    ensures
      var m1 := Issue(b, m, GetNumbers(q));
      Later(m, m1) && m1.setting == m.setting &&
      match NumberNow(b, m, q)
      case Ok(_) => AccountOf(b, m, m1, typ) == NOTHING
      case Err(e) =>
        (e == LinkFault && AccountOf(b, m, m1, typ) == Account([e], [], 0, true)) ||
        (e == ShortAnswer && AccountOf(b, m, m1, typ) == Account([], [], 0, false))
  {
    IssueAccount(b, m, GetNumbers(q), typ);
    hide AccountOf, Later, Value;
  }

  /** A step of a refresh that fails adds its error if it is a refusal or a loss, else an answer of no use. */
  predicate FailsAs(e: MeterError, account: Account, refreshes: nat) {
    account == if IsRefusal(e) then Account([e], [], refreshes, true) else Account([], [], refreshes, false)
  }

  lemma NumberingLaw(b: Behaviour, m: Link, typ: int)
    ensures
      var (r, m1) := Numbering(b, m);
      Later(m, m1) && m1.setting == m.setting &&
      match r
      case Ok(_) => AccountOf(b, m, m1, typ) == NOTHING
      case Err(e) => !e.Exception? && FailsAs(e, AccountOf(b, m, m1, typ), 0)
  {
    hide AccountOf, Later, Issue, NumberNow, Join;
    var m1 := Issue(b, m, GetNumbers(SchemeTV1));
    var m2 := Issue(b, m1, GetNumbers(SchemeTV2));
    var m3 := Issue(b, m2, GetNumbers(ActiveDB));
    NumberLaw(b, m, SchemeTV1, typ);
    NumberLaw(b, m1, SchemeTV2, typ);
    NumberLaw(b, m2, ActiveDB, typ);
    AccountsJoin(b, m, m1, m2, typ);
    AccountsJoin(b, m, m2, m3, typ);
    JoinNothing(AccountOf(b, m1, m2, typ));
    JoinNothing(AccountOf(b, m2, m3, typ));
  }

  lemma ListingLaw(b: Behaviour, m: Link, list: seq<Element>, typ: int)
    requires |list| <= 42
    ensures
      var (fault, m1) := Listing(b, m, list);
      Later(m, m1) && m1.setting.typ == m.setting.typ &&
      match fault
      case None => AccountOf(b, m, m1, typ) == NOTHING
      case Some(e) => IsRefusal(e) && FailsAs(e, AccountOf(b, m, m1, typ), 0)
  {
    hide AccountOf, Later, Issue, TroubleNow;
    WriteLaw(b, m, PutList(list), typ);
  }

  lemma RestoringLaw(b: Behaviour, m: Link, typ: int, list: seq<Element>)
    requires |list| <= 42
    ensures
      var (r, m1) := Restoring(b, m, typ, list);
      Later(m, m1) &&
      match r
      case Ok(_) => AccountOf(b, m, m1, typ) == NOTHING && m1.setting.typ == typ
      case Err(e) => FailsAs(e, AccountOf(b, m, m1, typ), 0)
  {
    hide AccountOf, Later, Numbering, Join, Listing;
    var m1 := Issue(b, m, PutType(CURRENT));
    WriteLaw(b, m, PutType(CURRENT), typ);
    if TroubleNow(b, m, PutType(CURRENT)).None? {
      var (numbers, m2) := Numbering(b, m1);
      NumberingLaw(b, m1, typ);
      AccountsJoin(b, m, m1, m2, typ);
      JoinNothing(AccountOf(b, m1, m2, typ));
      if numbers.Ok? {
        var m3 := Issue(b, m2, PutType(typ));
        WriteLaw(b, m2, PutType(typ), typ);
        AccountsJoin(b, m, m2, m3, typ);
        JoinNothing(AccountOf(b, m2, m3, typ));
        if TroubleNow(b, m2, PutType(typ)).None? {
          var m4 := Listing(b, m3, list).1;
          ListingLaw(b, m3, list, typ);
          AccountsJoin(b, m, m3, m4, typ);
          JoinNothing(AccountOf(b, m3, m4, typ));
        }
      }
    }
  }

  lemma ActiveLaw(b: Behaviour, m: Link, typ: int)
    ensures
      var m1 := Issue(b, m, GetActive);
      && Later(m, m1) && m1.setting == m.setting
      && (ActiveNow(b, m).Ok? ==>
            var list := Select(ActiveNow(b, m).value, typ);
            |list| <= 42 && AccountOf(b, m, m1, typ) == Account([], [], 1, list != []))
      && (ActiveNow(b, m).Err? ==> FailsAs(ActiveNow(b, m).error, AccountOf(b, m, m1, typ), 1))
  {
    IssueAccount(b, m, GetActive, typ);
    ActiveListIsShort(b.active(|m.log|, m.setting));
    hide AccountOf, Later, ActiveFrom, Select;
  }

  /** What a refresh leaves behind: the archive type and a list to read, or its error alone. */
  predicate RefreshedTo(r: Result<Refreshed, MeterError>, account: Account, m1: Link, typ: int) {
    match r
    case Ok(f) =>
      account == Account([], [], 1, true) && m1.setting.typ == typ && f.list == Select(f.active, typ) && f.list != []
    case Err(e) => FailsAs(e, account, 1)
  }

  lemma RefreshingLaw(b: Behaviour, m: Link, typ: int)
    ensures
      var (r, m1) := Refreshing(b, m, typ);
      Later(m, m1) && RefreshedTo(r, AccountOf(b, m, m1, typ), m1, typ)
  {
    hide AccountOf, Later, Restoring, ActiveNow, Select, Join;
    var m1 := Issue(b, m, GetActive);
    ActiveLaw(b, m, typ);
    match ActiveNow(b, m) {
      case Err(e) =>
      case Ok(active) =>
        var list := Select(active, typ);
        if list != [] {
          var m2 := Restoring(b, m1, typ, list).1;
          RestoringLaw(b, m1, typ, list);
          AccountsJoin(b, m, m1, m2, typ);
          JoinOne(AccountOf(b, m1, m2, typ));
        }
    }
  }

  lemma JoinOne(a: Account)
    ensures Join(Account([], [], 1, true), a) == Account(a.errors, a.accesses, 1 + a.refreshes, a.served)
  {
    assert [] + a.errors == a.errors && [] + a.accesses == a.accesses;
  }

  /** The meta-data after a scheme change: the answers to three commands in a row, each in its place. */
  function NumbersAt(b: Behaviour, n: nat, s: Setting): Meta {
    var number := (d: Payload) => if d == [] then None else Some(Value(d[0]));
    Meta(number(b.numbers(n, s, SchemeTV1)), number(b.numbers(n + 1, s, SchemeTV2)),
         number(b.numbers(n + 2, s, ActiveDB)))
  }

  /** A refresh takes the list that the meter gives now, and its numbers under the type for current values. */
  lemma RefreshGives(b: Behaviour, m: Link, typ: int)
    ensures
      var (r, m1) := Refreshing(b, m, typ);
      r.Ok? ==>
        && ActiveList(b.active(|m.log|, m.setting)) == Ok(r.value.active)
        && r.value.meta == NumbersAt(b, |m.log| + 2, m.setting.(typ := CURRENT))
        && m1.setting == Setting(typ, r.value.list, m.setting.date)
  {
    hide ActiveList, Select, Value, Numbering;
    var m1 := Issue(b, m, GetActive);
    var m2 := Issue(b, m1, PutType(CURRENT));
    NumberingGives(b, m2);
  }

  lemma NumberingGives(b: Behaviour, m: Link)
    ensures
      var (r, m1) := Numbering(b, m);
      m1.setting == m.setting && (r.Ok? ==> r.value == NumbersAt(b, |m.log|, m.setting))
  {
    hide Value;
  }

  // ---- The record: errors and attempts -----------------------------------------------------

  function Fives(n: nat): (r: seq<MeterError>)
    ensures |r| == n
  {
    seq(n, i => Exception(SCHEME_CHANGED))
  }

  /**
   * The errors of a record are one exception 5 for each refresh, and after them the error returned
   * if that is a refusal or a loss; or exception 5 on every attempt. Any other error has its cause
   * in an answer of no use, or in an empty list.
   */
  predicate RecordedTo(r: Result<Outcome, MeterError>, account: Account, list: seq<Element>, attempts: nat) {
    && account.refreshes <= attempts
    && match r
       case Ok(o) => account.errors == Fives(account.refreshes) && account.served && account.refreshes < attempts
       case Err(e) =>
         if IsRefusal(e) then
           account.served &&
           ((account.errors == Fives(account.refreshes) + [e] &&
             (account.refreshes == 0 ==> e != Exception(SCHEME_CHANGED))) ||
            (e == Exception(SCHEME_CHANGED) && account.refreshes == attempts && account.errors == Fives(attempts)))
         else account.errors == Fives(account.refreshes) && (!account.served || (e == NothingToRead && list == []))
  }

  lemma {:induction false} RecordLaw(b: Behaviour, m: Link, typ: int, date: Stamp, list: seq<Element>,
                                     active: seq<Element>, meta: Meta, attempts: nat)
    ensures
      var (r, m1) := Recording(b, m, typ, date, list, active, meta, attempts);
      Later(m, m1) && RecordedTo(r, AccountOf(b, m, m1, typ), list, attempts)
    decreases attempts
  {
    hide AccountOf, Later, Attempting, Refreshing, Join, Split, ReadInOrder, ReadsChunks, Merged, Replies, Select;
    if attempts == 0 {
      NoAccount(b, m, typ);
    } else {
      var (a, m1) := Attempting(b, m, date, list);
      AttemptLaw(b, m, date, list, typ);
      NoAccount(b, m, typ);
      if a.SchemeChange? {
        var (f, m2) := Refreshing(b, m1, typ);
        RefreshingLaw(b, m1, typ);
        AccountsJoin(b, m, m1, m2, typ);
        if f.Ok? {
          RecordLaw(b, m2, typ, date, f.value.list, f.value.active, f.value.meta, attempts - 1);
          var (r, m3) := Recording(b, m2, typ, date, f.value.list, f.value.active, f.value.meta, attempts - 1);
          AccountsJoin(b, m, m2, m3, typ);
          AfterRefresh(r, AccountOf(b, m, m1, typ), AccountOf(b, m1, m2, typ), AccountOf(b, m2, m3, typ), f.value.list,
                       list, attempts);
        } else {
          FailedRefresh(f.error, AccountOf(b, m, m1, typ), AccountOf(b, m1, m2, typ), list, attempts);
        }
      } else if list != [] {
        OneAttempt(a, AccountOf(b, m, m1, typ), active, meta, list, attempts);
      }
    }
  }

  lemma OneAttempt(a: Attempt, account: Account, active: seq<Element>, meta: Meta, list: seq<Element>, attempts: nat)
    requires attempts > 0 && account.refreshes == 0 && !a.SchemeChange?
    requires
      match a
      case Complete(_) => account.errors == [] && account.served
      case SchemeChange => true
      case Failed(e) =>
        if IsRefusal(e) then account.errors == [e] && e != Exception(SCHEME_CHANGED) && account.served
        else account.errors == [] && !account.served
    ensures RecordedTo(if a.Complete? then Ok(Outcome(a.values, active, meta)) else Err(a.error), account, list,
                       attempts)
  {
    assert Fives(0) == [];
    if a.Failed? {
      assert Fives(0) + [a.error] == [a.error];
    }
  }

  lemma FailedRefresh(e: MeterError, first: Account, second: Account, list: seq<Element>, attempts: nat)
    requires attempts > 0 && first.refreshes == 0 && first.errors == [Exception(SCHEME_CHANGED)] && first.served
    requires FailsAs(e, second, 1)
    ensures RecordedTo(Err(e), Join(first, second), list, attempts)
  {
    assert Fives(1) == [Exception(SCHEME_CHANGED)] == [Exception(SCHEME_CHANGED)] + [];
  }

  lemma AfterRefresh(r: Result<Outcome, MeterError>, first: Account, second: Account, third: Account,
                     next: seq<Element>, list: seq<Element>, attempts: nat)
    requires attempts > 0 && first.refreshes == 0 && first.errors == [Exception(SCHEME_CHANGED)] && first.served
    requires second.errors == [] && second.refreshes == 1 && second.served
    requires RecordedTo(r, third, next, attempts - 1) && next != []
    ensures RecordedTo(r, Join(Join(first, second), third), list, attempts)
  {
    var five, n := Exception(SCHEME_CHANGED), third.refreshes;
    assert [five] + [] == [five];
    assert [five] + Fives(n) == Fives(1 + n);
    assert [five] + Fives(attempts - 1) == Fives(attempts);
    if r.Err? {
      assert [five] + (Fives(n) + [r.error]) == ([five] + Fives(n)) + [r.error];
    }
  }

  // ---- The record: what was read -----------------------------------------------------------

  /** The lists that are tried, in order. */
  function Tried(b: Behaviour, m: Link, typ: int, date: Stamp, list: seq<Element>, attempts: nat): seq<seq<Element>>
    decreases attempts
  {
    if attempts == 0 then []
    else
      var (a, m1) := Attempting(b, m, date, list);
      var (f, m2) := Refreshing(b, m1, typ);
      if a.SchemeChange? && f.Ok? then [list] + Tried(b, m2, typ, date, f.value.list, attempts - 1) else [list]
  }

  /** All chunks of these lists. */
  function ChunksOf(lists: seq<seq<Element>>): seq<seq<Element>> {
    if lists == [] then [] else Split(lists[0]) + ChunksOf(lists[1..])
  }

  /** A read issued for a record: its type and date, and one of the chunks as read list. */
  predicate IssuedFor(a: Access, typ: int, date: Stamp, chunks: seq<seq<Element>>) {
    a.setting.typ == typ && a.setting.date == Some(date) && a.setting.list in chunks
  }

  predicate AllIssued(accesses: seq<Access>, typ: int, date: Stamp, chunks: seq<seq<Element>>) {
    forall k :: 0 <= k < |accesses| ==> IssuedFor(accesses[k], typ, date, chunks)
  }

  /** What the reads of a record are, when the archive type was set at entry. */
  predicate RecordRead(r: Result<Outcome, MeterError>, accesses: seq<Access>, lists: seq<seq<Element>>, typ: int,
                       date: Stamp) {
    && AllIssued(accesses, typ, date, ChunksOf(lists)) && |accesses| <= |ChunksOf(lists)|
    && (r.Ok? ==> lists != [] && EndsWithReadOf(accesses, lists[|lists| - 1], typ, date, r.value.values))
  }

  lemma {:induction false} RecordReads(b: Behaviour, m: Link, typ: int, date: Stamp, list: seq<Element>,
                                       active: seq<Element>, meta: Meta, attempts: nat)
    requires m.setting.typ == typ
    ensures
      var (r, m1) := Recording(b, m, typ, date, list, active, meta, attempts);
      && Later(m, m1)
      && RecordRead(r, AccountOf(b, m, m1, typ).accesses, Tried(b, m, typ, date, list, attempts), typ, date)
    decreases attempts
  {
    hide AccountOf, Later, Attempting, Refreshing, Split, RecordRead;
    if attempts == 0 {
      NoAccount(b, m, typ);
      NothingRecorded(typ, date);
    } else {
      var (a, m1) := Attempting(b, m, date, list);
      AttemptLaw(b, m, date, list, typ);
      NoAccount(b, m, typ);
      var done: Result<Outcome, MeterError> :=
        match a
        case Complete(values) => Ok(Outcome(values, active, meta))
        case Failed(e) => Err(e)
        case SchemeChange => Err(ShortAnswer);
      OneListRead(done, a, AccountOf(b, m, m1, typ), list, typ, date);
      if a.SchemeChange? {
        var (f, m2) := Refreshing(b, m1, typ);
        RefreshingLaw(b, m1, typ);
        AccountsJoin(b, m, m1, m2, typ);
        if f.Ok? {
          RecordReads(b, m2, typ, date, f.value.list, f.value.active, f.value.meta, attempts - 1);
          var (r, m3) := Recording(b, m2, typ, date, f.value.list, f.value.active, f.value.meta, attempts - 1);
          AccountsJoin(b, m, m2, m3, typ);
          MoreListsRead(r, AccountOf(b, m, m1, typ), AccountOf(b, m1, m2, typ), AccountOf(b, m2, m3, typ), list,
                        Tried(b, m2, typ, date, f.value.list, attempts - 1), typ, date);
        } else {
          NoListMore(f.error, AccountOf(b, m, m1, typ), AccountOf(b, m1, m2, typ), list, typ, date);
        }
      }
    }
  }

  lemma NothingRecorded(typ: int, date: Stamp)
    ensures RecordRead(Err(Exception(SCHEME_CHANGED)), [], [], typ, date)
  {}

  lemma ChunksOfOne(list: seq<Element>)
    ensures ChunksOf([list]) == Split(list)
  {
    hide Split;
    assert [list][1..] == [];
    assert Split(list) + [] == Split(list);
  }

  lemma OneListRead(r: Result<Outcome, MeterError>, a: Attempt, account: Account, list: seq<Element>, typ: int,
                    date: Stamp)
    requires r.Ok? ==> a == Complete(r.value.values)
    requires if list == [] then a == Failed(NothingToRead) && account.accesses == []
             else Attempted(a, account, Split(list), typ, date)
    ensures RecordRead(r, account.accesses, [list], typ, date)
  {
    hide Split, Merged;
    ChunksOfOne(list);
    if a.Complete? {
      var s, n := account.accesses, |Split(list)|;
      assert s[|s| - n..] == s;
    }
  }

  lemma NoListMore(e: MeterError, first: Account, second: Account, list: seq<Element>, typ: int, date: Stamp)
    requires RecordRead(Err(ShortAnswer), first.accesses, [list], typ, date) && second.accesses == []
    ensures RecordRead(Err(e), Join(first, second).accesses, [list], typ, date)
  {
    assert first.accesses + [] == first.accesses;
  }

  lemma MoreListsRead(r: Result<Outcome, MeterError>, first: Account, second: Account, third: Account,
                      list: seq<Element>, lists: seq<seq<Element>>, typ: int, date: Stamp)
    requires RecordRead(Err(ShortAnswer), first.accesses, [list], typ, date) && second.accesses == []
    requires RecordRead(r, third.accesses, lists, typ, date)
    ensures RecordRead(r, Join(Join(first, second), third).accesses, [list] + lists, typ, date)
  {
    hide Split, ReadsChunks, Merged, Replies;
    var all := first.accesses + third.accesses;
    assert first.accesses + [] + third.accesses == all;
    ChunksOfOne(list);
    assert ([list] + lists)[1..] == lists;
    if r.Ok? {
      var n := |Split(lists[|lists| - 1])|;
      assert all[|all| - n..] == third.accesses[|third.accesses| - n..];
    }
  }

  /** The list that gives the record is the one asked for, or the selection from the renewed active list. */
  lemma {:induction false} TriedLists(b: Behaviour, m: Link, typ: int, date: Stamp, list: seq<Element>,
                                      active: seq<Element>, meta: Meta, attempts: nat)
    requires list == Select(active, typ)
    ensures
      var (r, m1) := Recording(b, m, typ, date, list, active, meta, attempts);
      var lists := Tried(b, m, typ, date, list, attempts);
      r.Ok? ==> lists != [] && lists[|lists| - 1] == Select(r.value.active, typ)
    decreases attempts
  {
    hide Attempting, Refreshing, Select;
    if attempts > 0 {
      var (a, m1) := Attempting(b, m, date, list);
      if a.SchemeChange? {
        var (f, m2) := Refreshing(b, m1, typ);
        if f.Ok? {
          RefreshingLaw(b, m1, typ);
          TriedLists(b, m2, typ, date, f.value.list, f.value.active, f.value.meta, attempts - 1);
        }
      }
    }
  }

  /** No empty list is tried but one that was asked for. */
  lemma {:induction false} TriedSome(b: Behaviour, m: Link, typ: int, date: Stamp, list: seq<Element>, attempts: nat)
    requires list != []
    ensures forall l :: l in Tried(b, m, typ, date, list, attempts) ==> l != []
    decreases attempts
  {
    hide Attempting, Refreshing, Select;
    if attempts > 0 {
      var (a, m1) := Attempting(b, m, date, list);
      var (f, m2) := Refreshing(b, m1, typ);
      RefreshingLaw(b, m1, typ);
      if a.SchemeChange? && f.Ok? {
        TriedSome(b, m2, typ, date, f.value.list, attempts - 1);
      }
    }
  }

  // ---- The record: what its errors mean ----------------------------------------------------

  /**
   * A record is obtained from a list that is not empty, with answers that serve, if nothing was
   * refused or lost but for at most one exception 5; and it takes one refresh for that exception.
   */
  lemma RecordObtained(b: Behaviour, m: Link, typ: int, date: Stamp, list: seq<Element>, active: seq<Element>,
                       meta: Meta)
    ensures
      var (r, m1) := Recording(b, m, typ, date, list, active, meta, ATTEMPTS);
      Later(m, m1) &&
      var account := AccountOf(b, m, m1, typ);
      list != [] && account.served && (account.errors == [] || account.errors == [Exception(5)]) ==>
        r.Ok? && account.refreshes == |account.errors|
  {
    hide AccountOf, Later, Recording;
    RecordLaw(b, m, typ, date, list, active, meta, ATTEMPTS);
    var (r, m1) := Recording(b, m, typ, date, list, active, meta, ATTEMPTS);
    var errors := AccountOf(b, m, m1, typ).errors;
    if r.Err? && IsRefusal(r.error) && errors == Fives(AccountOf(b, m, m1, typ).refreshes) + [r.error] {
      assert errors[|errors| - 1] == r.error;
    }
  }

  /** The error returned is the last one met; in particular a date is missing exactly if that is exception 3. */
  lemma LastErrorReturned(b: Behaviour, m: Link, typ: int, date: Stamp, list: seq<Element>, active: seq<Element>,
                          meta: Meta)
    ensures
      var (r, m1) := Recording(b, m, typ, date, list, active, meta, ATTEMPTS);
      Later(m, m1) &&
      var errors := AccountOf(b, m, m1, typ).errors;
      (r.Err? && IsRefusal(r.error) ==> errors != [] && errors[|errors| - 1] == r.error) &&
      (r == Err(Exception(3)) <==> errors != [] && errors[|errors| - 1] == Exception(3))
  {
    hide AccountOf, Later, Recording;
    RecordLaw(b, m, typ, date, list, active, meta, ATTEMPTS);
  }

  /** The first exception 5 always leads to a refresh; it is returned only after two of them, or from within one. */
  lemma SchemeChangeRetried(b: Behaviour, m: Link, typ: int, date: Stamp, list: seq<Element>, active: seq<Element>,
                            meta: Meta)
    ensures
      var (r, m1) := Recording(b, m, typ, date, list, active, meta, ATTEMPTS);
      Later(m, m1) &&
      var account := AccountOf(b, m, m1, typ);
      (account.errors != [] && account.errors[0] == Exception(5) ==> account.refreshes > 0) &&
      (r == Err(Exception(5)) ==>
         (account.refreshes == 2 && account.errors == Fives(2)) || account.errors == Fives(account.refreshes + 1)) &&
      (r.Ok? && account.refreshes == 0 ==> r.value.active == active && r.value.meta == meta)
  {
    hide AccountOf, Later, Attempting, Refreshing;
    RecordLaw(b, m, typ, date, list, active, meta, ATTEMPTS);
    var (r, m1) := Recording(b, m, typ, date, list, active, meta, ATTEMPTS);
    var account := AccountOf(b, m, m1, typ);
    assert Fives(account.refreshes) + [Exception(SCHEME_CHANGED)] == Fives(account.refreshes + 1);
    if r.Ok? && account.refreshes == 0 {
      RefreshedOnce(b, m, typ, date, list, active, meta);
    }
    hide Recording;
  }

  /** A record goes by what it was given, or by what its one refresh gave. */
  lemma RefreshedOnce(b: Behaviour, m: Link, typ: int, date: Stamp, list: seq<Element>, active: seq<Element>,
                      meta: Meta)
    ensures
      var (r, m1) := Recording(b, m, typ, date, list, active, meta, ATTEMPTS);
      var f := Refreshing(b, Attempting(b, m, date, list).1, typ).0;
      Later(m, m1) &&
      (r.Ok? ==>
         if AccountOf(b, m, m1, typ).refreshes == 0 then r.value.active == active && r.value.meta == meta
         else f.Ok? && r.value.active == f.value.active && r.value.meta == f.value.meta)
  {
    hide AccountOf, Later, Attempting, Refreshing;
    RecordLaw(b, m, typ, date, list, active, meta, ATTEMPTS);
    var (a, m1) := Attempting(b, m, date, list);
    AttemptLaw(b, m, date, list, typ);
    NoAccount(b, m, typ);
    if a.SchemeChange? {
      var (f, m2) := Refreshing(b, m1, typ);
      RefreshingLaw(b, m1, typ);
      AccountsJoin(b, m, m1, m2, typ);
      if f.Ok? {
        var (r, m3) := Recording(b, m2, typ, date, f.value.list, f.value.active, f.value.meta, ATTEMPTS - 1);
        RecordLaw(b, m2, typ, date, f.value.list, f.value.active, f.value.meta, ATTEMPTS - 1);
        AccountsJoin(b, m, m2, m3, typ);
      }
    }
  }
}
