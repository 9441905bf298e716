// What the acknowledgement table delivers: an answer reaches the call that waits for it, and no other.

module AckDelivery {
  import opened Bytes
  import opened Telnet
  import opened AckTable

  /** A subnegotiation that is not a modem-state notice and carries the answering code of cmd. */
  predicate Answers(v: seq<byte>, cmd: Code) {
    && |v| >= 2 && v[0] == COMPORT && Answer(cmd) != 0 && Value(v[1]) == Answer(cmd)
    && !(Value(v[1]) == SERVER_NOTIFY_MODEMSTATE && |v| >= 3)
  }

  /** The table as a received subnegotiation leaves it. */
  function Received(m: Machine, v: seq<byte>): Machine {
    Next(m, HandleSubneg(v))
  }

  lemma ReplyIsAnswered(v: seq<byte>, cmd: Code)
    ensures Reply(v) == Some(cmd) <==> Answers(v, cmd)
  {}

  /** An answer goes into the empty channel of the call that waits for it, and nowhere else. */
  lemma AnswerDelivered(m: Machine, id: nat, v: seq<byte>)
    requires Reachable(m) && LiveAt(m, id) && Answers(v, m.calls[id].cmd) && m.calls[id].chan !in m.table.boxes
    ensures Received(m, v).table == m.table.(boxes := m.table.boxes[m.calls[id].chan := v[1..]])
    ensures Received(m, v).calls == m.calls
  {
    ReachableKeeps(m);
    ReplyIsAnswered(v, m.calls[id].cmd);
    hide Reply;
  }

  /** Once it is there, a waiting call can take it and succeeds with it. */
  lemma AnswerTaken(m: Machine, id: nat, v: seq<byte>)
    requires Reachable(m) && LiveAt(m, id) && Answers(v, m.calls[id].cmd) && m.calls[id].chan !in m.table.boxes
    requires m.calls[id].Waiting?
    ensures
      var n := Received(m, v);
      Enabled(n, ByCall(id, TakeReply)) &&
      var c := Next(n, ByCall(id, TakeReply)).calls[id];
      c.Removing? && c.outcome == Acked(v[1..]) && Judge(c.cmd, c.outcome) == Success
  {
    AnswerDelivered(m, id, v);
    hide Reachable, Deliver;
  }

  /** A subnegotiation changes the table exactly if it answers a live call whose channel is empty. */
  lemma DeliveredExactly(m: Machine, v: seq<byte>)
    requires Reachable(m)
    ensures Received(m, v).table != m.table <==>
            exists id :: LiveAt(m, id) && Answers(v, m.calls[id].cmd) && m.calls[id].chan !in m.table.boxes
  {
    ReachableKeeps(m);
    forall id: nat | LiveAt(m, id) && Answers(v, m.calls[id].cmd) && m.calls[id].chan !in m.table.boxes
      ensures Received(m, v).table != m.table
    {
      AnswerDelivered(m, id, v);
      assert m.calls[id].chan in Received(m, v).table.boxes;
    }
    if Received(m, v).table != m.table {
      var cmd := Reply(v).value;
      ReplyIsAnswered(v, cmd);
      var id: nat :| Owns(m, id, cmd);
      assert LiveAt(m, id);
    }
  }

  /** A message stays in its channel until the call that owns it takes it. */
  lemma MessageStays(m: Machine, a: Action, id: nat)
    requires Reachable(m) && LiveAt(m, id) && m.calls[id].chan in m.table.boxes
    requires Enabled(m, a) && a != ByCall(id, TakeReply)
    ensures m.calls[id].chan in Next(m, a).table.boxes
    ensures Next(m, a).table.boxes[m.calls[id].chan] == m.table.boxes[m.calls[id].chan]
  {
    ReachableKeeps(m);
    if a.ByCall? && a.move.TakeReply? {
      assert LiveAt(m, a.id);
      assert m.calls[a.id].chan != m.calls[id].chan;
    }
  }
}
