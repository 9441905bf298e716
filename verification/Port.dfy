// The shared fields of an RFC 2217 port, updated in place, one method per critical section.

module Port {
  import opened Bytes
  import opened Telnet
  import AckTable
  import ReceiveQueue

  class Port {
    var acks: map<AckTable.Code, nat>
    var boxes: map<nat, seq<byte>>
    var next: nat
    var modem: byte
    var data: seq<seq<byte>>
    var done: bool
    ghost var ledger: ReceiveQueue.Channel<byte>

    ghost predicate Valid()
      reads this
    {
      ledger.queue == data && ledger.done == done
    }

    function Table(): AckTable.Table
      reads this
    {
      AckTable.Table(acks, boxes, next)
    }

    constructor ()
      ensures Valid() && Table() == AckTable.INITIAL.table && ledger == ReceiveQueue.Opened<byte>()
    {
      acks, boxes, next, modem := map[], map[], 0, 0;
      data, done := [], false;
      ledger := ReceiveQueue.Opened<byte>();
    }

    /** The start of command: a command that is already pending is refused. */
    method Claim(cmd: AckTable.Code) returns (chan: Option<nat>)
      modifies `acks, `next
      ensures cmd in old(acks) ==> chan == None && Table() == old(Table())
      ensures cmd !in old(acks) ==> chan == Some(old(next)) && Table() == AckTable.Register(old(Table()), cmd)
    {
      if cmd in acks {
        return None;
      }
      chan := Some(next);
      acks, next := acks[cmd := next], next + 1;
    }

    method RemoveAck(cmd: AckTable.Code)
      modifies `acks
      ensures Table() == AckTable.Remove(old(Table()), cmd)
    {
      acks := acks - {cmd};
    }

    /** A modem-state notice sets the modem bits; any other reply goes to the pending command. */
    method HandleSubneg(v: seq<byte>)
      modifies `modem, `boxes
      ensures Table() == AckTable.Deliver(old(Table()), v)
      ensures modem ==
              if |v| >= 3 && v[0] == COMPORT && Value(v[1]) == AckTable.SERVER_NOTIFY_MODEMSTATE then v[2]
              else old(modem)
    {
      if |v| < 2 || v[0] != COMPORT {
        return;
      }
      var cmd := Value(v[1]);
      if cmd == AckTable.SERVER_NOTIFY_MODEMSTATE && |v| >= 3 {
        modem := v[2];
        return;
      }
      var clientCmd := 0;
      var c := 1;
      while c <= 12 && clientCmd == 0
        invariant 1 <= c <= 13
        invariant clientCmd == if 101 <= cmd < 100 + c then cmd - 100 else 0
      {
        if AckTable.Answer(c) == cmd {
          clientCmd := c;
        }
        c := c + 1;
      }
      if clientCmd != 0 {
        if clientCmd in acks && acks[clientCmd] !in boxes {
          boxes := boxes[acks[clientCmd] := v[1..]];
        }
      }
    }

    /**
     * pushData: false while the reader stays blocked on a full channel. Where the channel has room and
     * the port is closed as well, either may be chosen.
     */
    method PushData(b: seq<byte>, closes: bool) returns (settled: bool)
      requires Valid()
      modifies `data, `ledger
      ensures Valid()
      ensures settled <==> b == [] || |old(data)| < 64 || done
      ensures ledger ==
              if b == [] || !settled then old(ledger)
              else if |old(data)| < 64 && !(done && closes) then
                ReceiveQueue.Next(old(ledger), ReceiveQueue.Push(b))
              else ReceiveQueue.Next(old(ledger), ReceiveQueue.PushClosed(b))
    {
      if b == [] || (done && closes) {
        return true;
      }
      if |data| < ReceiveQueue.CAPACITY {
        data := data + [b];
        ledger := ReceiveQueue.Next(ledger, ReceiveQueue.Push(b));
        return true;
      }
      return done;
    }

    /** The receiving half of Read: what goes into the caller's buffer, and what did not fit. */
    method Receive(size: nat) returns (got: seq<byte>, rest: seq<byte>)
      requires Valid() && size > 0 && data != [] && ledger.held == []
      modifies `data, `ledger
      ensures Valid()
      ensures got + rest == old(data[0]) && |got| == ReceiveQueue.Fitting(old(data[0]), size)
      ensures ledger == ReceiveQueue.Next(old(ledger), ReceiveQueue.Take(size))
      ensures ledger.held == rest && ledger.returned == old(ledger.returned) + got
    {
      var d := data[0];
      var n := if |d| <= size then |d| else size;
      got, rest := d[..n], d[n..];
      data := data[1..];
      ledger := ReceiveQueue.Next(ledger, ReceiveQueue.Take(size));
    }

    /** The returning half of Read: false while it stays blocked on a full channel; the same choice. */
    method GiveBack(rest: seq<byte>, closes: bool) returns (settled: bool)
      requires Valid() && rest != [] && ledger.held == rest
      modifies `data, `ledger
      ensures Valid()
      ensures settled <==> |old(data)| < 64 || done
      ensures ledger ==
              if !settled then old(ledger)
              else if |old(data)| < 64 && !(done && closes) then
                ReceiveQueue.Next(old(ledger), ReceiveQueue.PutBack)
              else ReceiveQueue.Next(old(ledger), ReceiveQueue.DropBack)
    {
      if |data| < ReceiveQueue.CAPACITY && !(done && closes) {
        data := data + [rest];
        ledger := ReceiveQueue.Next(ledger, ReceiveQueue.PutBack);
        return true;
      }
      if done {
        ledger := ReceiveQueue.Next(ledger, ReceiveQueue.DropBack);
      }
      return done;
    }

    /** The local half of ResetInputBuffer: everything decoded so far is thrown away. */
    method Drain()
      requires Valid()
      modifies `data, `ledger
      ensures Valid() && data == []
      ensures ledger.returned == old(ledger.returned) && ledger.pushed == old(ledger.pushed)
      ensures ledger.held == old(ledger.held)
      ensures ledger.lost == old(ledger.lost) + multiset(Concat(old(data)))
    {
      while data != []
        invariant Valid()
        invariant ledger.returned == old(ledger.returned) && ledger.pushed == old(ledger.pushed)
        invariant ledger.held == old(ledger.held)
        invariant ledger.lost + multiset(Concat(data)) == old(ledger.lost) + multiset(Concat(old(data)))
        decreases |data|
      {
        assert Concat(data) == data[0] + Concat(data[1..]);
        data := data[1..];
        ledger := ReceiveQueue.Next(ledger, ReceiveQueue.Purge);
      }
    }

    method Shut()
      requires Valid()
      modifies `done, `ledger
      ensures Valid() && done && ledger == ReceiveQueue.Next(old(ledger), ReceiveQueue.Shut)
    {
      done := true;
      ledger := ReceiveQueue.Next(ledger, ReceiveQueue.Shut);
    }
  }
}
