// The acknowledgement table of an RFC 2217 port, shared by the callers of Port.command, the
// connection reader and Close. Every critical section is one step; the steps interleave freely.

module AckTable {
  import opened Bytes
  import opened Telnet

  /** A COM-port command code: one octet. */
  type Code = c: int | 0 <= c < 256

  const SERVER_NOTIFY_MODEMSTATE: Code := 107

  /** answerCommand: the server's code for a client command, 0 outside the table. */
  function Answer(c: Code): Code {
    if 1 <= c <= 12 then c + 100 else 0
  }

  /** The client command that a server code answers, 0 if there is none. */
  function Client(s: Code): Code {
    if 101 <= s <= 112 then s - 100 else 0
  }

  const SET_BAUDRATE: Code := 1
  const PURGE_DATA: Code := 12

  /** The twelve client commands have answers of their own, as section 3 of RFC 2217 numbers them. */
  lemma AnswerCodes(c: Code)
    ensures Answer(c) != 0 <==> SET_BAUDRATE <= c <= PURGE_DATA
    ensures Answer(SET_BAUDRATE) == 101 && Answer(PURGE_DATA) == 112
    ensures Answer(c) != 0 ==> Answer(c) - Answer(SET_BAUDRATE) == c - SET_BAUDRATE && Client(Answer(c)) == c
    ensures Client(c) != 0 ==> Answer(Client(c)) == c
  {}

  /** acks maps a command to its channel; a channel is a box that holds at most one message. */
  datatype Table = Table(acks: map<Code, nat>, boxes: map<nat, seq<byte>>, next: nat)

  /** The first critical section of command: claim cmd with a fresh channel. */
  function Register(t: Table, cmd: Code): Table
    requires cmd !in t.acks
  {
    Table(t.acks[cmd := t.next], t.boxes, t.next + 1)
  }

  /** removeAck. */
  function Remove(t: Table, cmd: Code): Table {
    t.(acks := t.acks - {cmd})
  }

  /** The reply that a subnegotiation carries to a waiting command, if it is one. */
  function Reply(v: seq<byte>): Option<Code> {
    if |v| < 2 || v[0] != COMPORT then None
    else if Value(v[1]) == SERVER_NOTIFY_MODEMSTATE && |v| >= 3 then None
    else if Client(Value(v[1])) == 0 then None
    else Some(Client(Value(v[1])))
  }

  /** handleSubneg: the reply goes into the box of its command unless that is full or absent. */
  function Deliver(t: Table, v: seq<byte>): Table {
    match Reply(v)
    case None => t
    case Some(c) =>
      if c in t.acks && t.acks[c] !in t.boxes then t.(boxes := t.boxes[t.acks[c] := v[1..]]) else t
  }

  // ---- The interleaving machine ------------------------------------------------------------

  datatype Outcome = Acked(message: seq<byte>) | WriteFailed | PortFailed | Closed | TimedOut

  /** Where one call of command stands; since counts the replies handled before it registered. */
  datatype Call =
    | Sending(cmd: Code, chan: nat, since: nat)
    | Waiting(cmd: Code, chan: nat, since: nat)
    | Removing(cmd: Code, chan: nat, since: nat, outcome: Outcome)
    | Finished(cmd: Code, since: nat, outcome: Outcome)
    | Refused(cmd: Code)

  predicate Live(c: Call) {
    c.Sending? || c.Waiting? || c.Removing?
  }

  datatype Machine = Machine(table: Table, calls: map<nat, Call>, handled: seq<seq<byte>>, done: bool)

  /** The steps a call of command takes on its own. */
  datatype Move =
    | Start(cmd: Code)
    | Sent
    | SendFailed
    | TakeReply
    | SeeError
    | SeeDone
    | Expire
    | RemoveEntry

  datatype Action = ByCall(id: nat, move: Move) | HandleSubneg(payload: seq<byte>) | ClosePort

  predicate Enabled(m: Machine, a: Action) {
    a.ByCall? ==>
      if a.move.Start? then a.id !in m.calls
      else
        && a.id in m.calls
        && match a.move
           case Sent => m.calls[a.id].Sending?
           case SendFailed => m.calls[a.id].Sending?
           case TakeReply => m.calls[a.id].Waiting? && m.calls[a.id].chan in m.table.boxes
           case SeeError => m.calls[a.id].Waiting?
           case SeeDone => m.calls[a.id].Waiting? && m.done
           case Expire => m.calls[a.id].Waiting?
           case RemoveEntry => m.calls[a.id].Removing?
           case Start(_) => false
  }

  function Leave(c: Call, o: Outcome): Call
    requires Live(c)
  {
    Removing(c.cmd, c.chan, c.since, o)
  }

  /** Where the call stands after its step. */
  function NewCall(m: Machine, a: Action): Call
    requires a.ByCall? && Enabled(m, a)
  {
    match a.move
    case Start(cmd) => if cmd in m.table.acks then Refused(cmd) else Sending(cmd, m.table.next, |m.handled|)
    case Sent => Waiting(m.calls[a.id].cmd, m.calls[a.id].chan, m.calls[a.id].since)
    case SendFailed => Leave(m.calls[a.id], WriteFailed)
    case TakeReply => Leave(m.calls[a.id], Acked(m.table.boxes[m.calls[a.id].chan]))
    case SeeError => Leave(m.calls[a.id], PortFailed)
    case SeeDone => Leave(m.calls[a.id], Closed)
    case Expire => Leave(m.calls[a.id], TimedOut)
    case RemoveEntry => Finished(m.calls[a.id].cmd, m.calls[a.id].since, m.calls[a.id].outcome)
  }

  function NewTable(m: Machine, a: Action): Table
    requires a.ByCall? && Enabled(m, a)
  {
    match a.move
    case Start(cmd) => if cmd in m.table.acks then m.table else Register(m.table, cmd)
    case TakeReply => m.table.(boxes := m.table.boxes - {m.calls[a.id].chan})
    case RemoveEntry => Remove(m.table, m.calls[a.id].cmd)
    case _ => m.table
  }

  function Next(m: Machine, a: Action): Machine
    requires Enabled(m, a)
  {
    match a
    case ByCall(id, _) => m.(table := NewTable(m, a), calls := m.calls[id := NewCall(m, a)])
    case HandleSubneg(v) =>
      m.(table := Deliver(m.table, v), handled := m.handled + (if Reply(v).Some? then [v[1..]] else []))
    case ClosePort => m.(done := true)
  }

  const INITIAL := Machine(Table(map[], map[], 0), map[], [], false)

  // ---- What every interleaving keeps -------------------------------------------------------

  predicate Owns(m: Machine, id: nat, cmd: Code) {
    id in m.calls && Live(m.calls[id]) && m.calls[id].cmd == cmd
  }

  predicate LiveAt(m: Machine, id: nat) {
    id in m.calls && Live(m.calls[id])
  }

  /** A live call finds its own channel in the table. */
  ghost predicate EntriesMatch(m: Machine) {
    forall id :: LiveAt(m, id) ==>
      m.calls[id].cmd in m.table.acks && m.table.acks[m.calls[id].cmd] == m.calls[id].chan
  }

  /** No two live calls share a channel, and channels are used once. */
  ghost predicate ChannelsDistinct(m: Machine) {
    && (forall id, jd :: LiveAt(m, id) && LiveAt(m, jd) && m.calls[id].chan == m.calls[jd].chan ==> id == jd)
    && (forall id :: LiveAt(m, id) ==> m.calls[id].chan < m.table.next)
    && (forall cmd :: cmd in m.table.acks ==> m.table.acks[cmd] < m.table.next)
    && (forall ch :: ch in m.table.boxes ==> ch < m.table.next)
  }

  /** Every entry belongs to a live call. */
  ghost predicate EntriesOwned(m: Machine) {
    forall cmd :: cmd in m.table.acks ==> exists id :: Owns(m, id, cmd)
  }

  /** A message for cmd: a reply with the answering code, handled at or after position since. */
  ghost predicate Genuine(m: Machine, cmd: Code, since: nat, message: seq<byte>) {
    && message != [] && Value(message[0]) == Answer(cmd)
    && exists k :: since <= k < |m.handled| && m.handled[k] == message
  }

  /** What waits in the box of a live call, and what a call has taken out of it, is genuine. */
  ghost predicate RepliesGenuine(m: Machine) {
    && (forall id :: LiveAt(m, id) ==> m.calls[id].since <= |m.handled| && BoxGenuine(m, id))
    && (forall id :: Acknowledged(m, id) ==>
          Genuine(m, m.calls[id].cmd, m.calls[id].since, m.calls[id].outcome.message))
  }

  ghost predicate BoxGenuine(m: Machine, id: nat)
    requires LiveAt(m, id)
  {
    m.calls[id].chan in m.table.boxes ==>
      Genuine(m, m.calls[id].cmd, m.calls[id].since, m.table.boxes[m.calls[id].chan])
  }

  predicate Acknowledged(m: Machine, id: nat) {
    id in m.calls && (m.calls[id].Removing? || m.calls[id].Finished?) && m.calls[id].outcome.Acked?
  }

  ghost predicate Invariant(m: Machine) {
    EntriesMatch(m) && ChannelsDistinct(m) && EntriesOwned(m) && RepliesGenuine(m)
  }

  /** Only a start on a free command makes a live call; a live call keeps its identity. */
  lemma LiveBefore(m: Machine, a: Action, id: nat)
    requires Enabled(m, a) && LiveAt(Next(m, a), id)
    ensures
      var c := Next(m, a).calls[id];
      || (a == ByCall(id, Start(c.cmd)) && c.cmd !in m.table.acks && c == Sending(c.cmd, m.table.next, |m.handled|))
      || (LiveAt(m, id) && c.cmd == m.calls[id].cmd && c.chan == m.calls[id].chan && c.since == m.calls[id].since)
  {}

  /** A live call stays live until it removes its entry. */
  lemma LiveAfter(m: Machine, a: Action, id: nat)
    requires Enabled(m, a) && LiveAt(m, id) && a != ByCall(id, RemoveEntry)
    ensures LiveAt(Next(m, a), id) && Next(m, a).calls[id].cmd == m.calls[id].cmd
  {}

  lemma ChannelsDistinctKept(m: Machine, a: Action)
    requires ChannelsDistinct(m) && EntriesMatch(m) && Enabled(m, a)
    ensures ChannelsDistinct(Next(m, a))
  {
    var n := Next(m, a);
    forall id: nat, jd: nat | LiveAt(n, id) && LiveAt(n, jd) && n.calls[id].chan == n.calls[jd].chan
      ensures id == jd && n.calls[id].chan < n.table.next
    {
      LiveBefore(m, a, id);
      LiveBefore(m, a, jd);
    }
  }

  lemma EntriesMatchKept(m: Machine, a: Action)
    requires EntriesMatch(m) && ChannelsDistinct(m) && Enabled(m, a)
    ensures EntriesMatch(Next(m, a))
  {
    var n := Next(m, a);
    forall id: nat | LiveAt(n, id)
      ensures n.calls[id].cmd in n.table.acks && n.table.acks[n.calls[id].cmd] == n.calls[id].chan
    {
      LiveBefore(m, a, id);
      if a.ByCall? && a.move.RemoveEntry? {
        assert LiveAt(m, a.id) && LiveAt(m, id) && a.id != id;
        assert m.calls[a.id].chan != m.calls[id].chan;
        assert m.calls[a.id].cmd != m.calls[id].cmd;
      } else if a.HandleSubneg? {
        assert n.table.acks == m.table.acks;
      } else if a.ClosePort? {
      } else if a.move.Start? {
        assert n.table.acks[n.calls[id].cmd] == n.calls[id].chan;
      } else {
        assert n.table.acks == m.table.acks;
      }
    }
  }

  lemma EntriesOwnedKept(m: Machine, a: Action)
    requires EntriesMatch(m) && EntriesOwned(m) && Enabled(m, a)
    ensures EntriesOwned(Next(m, a))
  {
    var n := Next(m, a);
    forall cmd | cmd in n.table.acks
      ensures exists id :: Owns(n, id, cmd)
    {
      if cmd in m.table.acks {
        var id: nat :| Owns(m, id, cmd);
        LiveAfter(m, a, id);
        assert Owns(n, id, cmd);
      } else {
        assert Owns(n, a.id, cmd);
      }
    }
  }

  lemma GenuineLater(m: Machine, n: Machine, cmd: Code, since: nat, message: seq<byte>)
    requires Genuine(m, cmd, since, message) && m.handled <= n.handled
    ensures Genuine(n, cmd, since, message)
  {
    var k :| since <= k < |m.handled| && m.handled[k] == message;
    assert n.handled[k] == message;
  }

  lemma HistoryGrows(m: Machine, a: Action)
    requires Enabled(m, a)
    ensures m.handled <= Next(m, a).handled
  {}

  lemma BoxGenuineKept(m: Machine, a: Action, id: nat)
    requires Invariant(m) && Enabled(m, a)
    requires LiveAt(Next(m, a), id)
    ensures BoxGenuine(Next(m, a), id)
  {
    var n := Next(m, a);
    var c := n.calls[id];
    LiveBefore(m, a, id);
    HistoryGrows(m, a);
    if c.chan in n.table.boxes {
      if c.chan in m.table.boxes {
        GenuineLater(m, n, c.cmd, c.since, n.table.boxes[c.chan]);
      } else {
        DeliveredIsGenuine(m, a, id);
      }
    }
  }

  /** handleSubneg fills the box of a live call only with a reply to its command. */
  lemma DeliveredIsGenuine(m: Machine, a: Action, id: nat)
    requires Invariant(m) && Enabled(m, a)
    requires LiveAt(Next(m, a), id)
    requires Next(m, a).calls[id].chan in Next(m, a).table.boxes && Next(m, a).calls[id].chan !in m.table.boxes
    ensures BoxGenuine(Next(m, a), id)
  {
    var n := Next(m, a);
    var c := n.calls[id];
    LiveBefore(m, a, id);
    assert a.HandleSubneg? && LiveAt(m, id);
    var v := a.payload;
    var r := Reply(v).value;
    EntryChannels(m, id, r);
    assert n.table.boxes[c.chan] == v[1..] && n.handled[|m.handled|] == v[1..];
  }

  /** A table entry that holds the channel of a live call is the entry of that call. */
  lemma EntryChannels(m: Machine, id: nat, r: Code)
    requires EntriesMatch(m) && ChannelsDistinct(m) && EntriesOwned(m) && LiveAt(m, id)
    requires r in m.table.acks && m.table.acks[r] == m.calls[id].chan
    ensures r == m.calls[id].cmd
  {
    var jd: nat :| Owns(m, jd, r);
    assert LiveAt(m, jd);
  }

  lemma RepliesGenuineKept(m: Machine, a: Action)
    requires Invariant(m) && Enabled(m, a)
    ensures RepliesGenuine(Next(m, a))
  {
    var n := Next(m, a);
    HistoryGrows(m, a);
    forall id: nat | LiveAt(n, id)
      ensures n.calls[id].since <= |n.handled| && BoxGenuine(n, id)
    {
      LiveBefore(m, a, id);
      BoxGenuineKept(m, a, id);
    }
    forall id: nat | Acknowledged(n, id)
      ensures Genuine(n, n.calls[id].cmd, n.calls[id].since, n.calls[id].outcome.message)
    {
      if Acknowledged(m, id) {
        GenuineLater(m, n, m.calls[id].cmd, m.calls[id].since, m.calls[id].outcome.message);
      } else {
        assert LiveAt(m, id) && BoxGenuine(m, id);
        GenuineLater(m, n, m.calls[id].cmd, m.calls[id].since, m.table.boxes[m.calls[id].chan]);
      }
    }
  }

  // ---- Runs --------------------------------------------------------------------------------

  /** The machine after a run, or None if some step of it was not enabled. */
  function Run(m: Machine, run: seq<Action>): Option<Machine>
    decreases |run|
  {
    if run == [] then Some(m)
    else if Enabled(m, run[0]) then Run(Next(m, run[0]), run[1..])
    else None
  }

  lemma {:induction false} RunKeeps(m: Machine, run: seq<Action>)
    requires Invariant(m) && Run(m, run).Some?
    ensures Invariant(Run(m, run).value)
    decreases |run|
  {
    if run != [] {
      var a := run[0];
      assert Invariant(Next(m, a)) by {
        ChannelsDistinctKept(m, a);
        EntriesMatchKept(m, a);
        EntriesOwnedKept(m, a);
        RepliesGenuineKept(m, a);
      }
      hide Invariant, Next, Enabled;
      RunKeeps(Next(m, a), run[1..]);
    }
  }

  /** Reached by some interleaving from an open port without pending commands. */
  ghost predicate Reachable(m: Machine) {
    exists run :: Run(INITIAL, run) == Some(m)
  }

  lemma ReachableKeeps(m: Machine)
    requires Reachable(m)
    ensures Invariant(m)
  {
    var run :| Run(INITIAL, run) == Some(m);
    assert Invariant(INITIAL);
    hide Invariant, Run;
    RunKeeps(INITIAL, run);
  }

  /** A command has an entry exactly while one call owns it, and then exactly one does. */
  lemma OneOwner(m: Machine, cmd: Code)
    requires Reachable(m)
    ensures cmd in m.table.acks <==> exists id :: Owns(m, id, cmd)
    ensures forall id, jd :: Owns(m, id, cmd) && Owns(m, jd, cmd) ==> id == jd
  {
    ReachableKeeps(m);
    forall id: nat, jd: nat | Owns(m, id, cmd) && Owns(m, jd, cmd)
      ensures id == jd && cmd in m.table.acks
    {
      assert LiveAt(m, id) && LiveAt(m, jd);
    }
  }

  /** Deleting by key removes the entry of the deleting call and leaves every other call its own. */
  lemma RemoveIsOwn(m: Machine, id: nat)
    requires Reachable(m) && id in m.calls && m.calls[id].Removing?
    ensures m.calls[id].cmd in m.table.acks && m.table.acks[m.calls[id].cmd] == m.calls[id].chan
    ensures forall jd :: LiveAt(m, jd) && jd != id ==>
              m.calls[jd].cmd in Next(m, ByCall(id, RemoveEntry)).table.acks &&
              Next(m, ByCall(id, RemoveEntry)).table.acks[m.calls[jd].cmd] == m.calls[jd].chan
  {
    ReachableKeeps(m);
    assert LiveAt(m, id);
    forall jd: nat | LiveAt(m, jd) && jd != id
      ensures m.calls[jd].cmd in m.table.acks && m.table.acks[m.calls[jd].cmd] == m.calls[jd].chan
      ensures m.calls[jd].cmd != m.calls[id].cmd
    {
      assert m.calls[jd].chan != m.calls[id].chan;
    }
  }

  /** What command returns once it has taken a message. */
  datatype Verdict = Success | Unexpected | Failure

  function Judge(cmd: Code, o: Outcome): Verdict {
    if !o.Acked? then Failure
    else if o.message == [] || Value(o.message[0]) != Answer(cmd) then Unexpected
    else Success
  }

  /** The branch for an unexpected acknowledgement is never taken. */
  lemma NeverUnexpected(m: Machine, id: nat)
    requires Reachable(m) && id in m.calls && (m.calls[id].Removing? || m.calls[id].Finished?)
    ensures Judge(m.calls[id].cmd, m.calls[id].outcome) != Unexpected
  {
    ReachableKeeps(m);
    if m.calls[id].outcome.Acked? {
      assert Acknowledged(m, id);
    }
  }

  /** Success means that a reply with the answering code was handled after the call registered. */
  lemma SuccessWasAnswered(m: Machine, id: nat)
    requires Reachable(m) && id in m.calls && m.calls[id].Finished?
    requires Judge(m.calls[id].cmd, m.calls[id].outcome) == Success
    ensures exists k :: m.calls[id].since <= k < |m.handled| && m.handled[k] == m.calls[id].outcome.message
    ensures Value(m.calls[id].outcome.message[0]) == Answer(m.calls[id].cmd)
  {
    ReachableKeeps(m);
    assert Acknowledged(m, id);
  }
}
