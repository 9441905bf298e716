// Collecting a message from successive reads until a rule on the collected part decides.

module Assembly {
  import opened Bytes

  /** What one read brings: elements, nothing yet, an end-of-file that means nothing yet, or a failure. */
  datatype Reading<T> = Octets(data: seq<T>) | Nothing | Eof | Broken

  function Brought<T>(reading: Reading<T>): seq<T> {
    if reading.Octets? then reading.data else []
  }

  function Extend<T>(out: seq<T>, reading: Reading<T>): seq<T> {
    out + Brought(reading)
  }

  /** How a collection ends: decided by the rule, by a failing read, or by the end of the script. */
  datatype Ending<T, R> = Decided(answer: R) | Failed | RanOut(partial: seq<T>)

  /** Collect from a script of reads that ends at the deadline. */
  function Collect<T(==), R>(decide: seq<T> -> Option<R>, out: seq<T>, script: seq<Reading<T>>): Ending<T, R>
    decreases |script|
  {
    if script == [] then RanOut(out)
    else if script[0].Broken? then Failed
    else
      var next := Extend(out, script[0]);
      if next == out then Collect(decide, out, script[1..])
      else match decide(next)
        case Some(r) => Decided(r)
        case None => Collect(decide, next, script[1..])
  }

  /** All elements that a script delivers. */
  function Received<T>(script: seq<Reading<T>>): seq<T> {
    if script == [] then [] else Brought(script[0]) + Received(script[1..])
  }

  /** A message that the rule accepts, and none of whose proper prefixes it decides, arrives whole. */
  lemma {:induction false} Reassembled<T, R>(decide: seq<T> -> Option<R>, out: seq<T>,
                                             script: seq<Reading<T>>, later: seq<Reading<T>>, f: seq<T>)
    requires decide(f).Some? && forall p :: p < f ==> decide(p) == None
    requires out < f && out + Received(script) == f
    requires forall k :: 0 <= k < |script| ==> !script[k].Broken?
    ensures Collect(decide, out, script + later) == Decided(decide(f).value)
    decreases |script|
  {
    assert script != [];
    var next := Extend(out, script[0]);
    OneReading(out, script);
    assert out <= next;
    hide Received, Extend;
    assert (script + later)[0] == script[0] && (script + later)[1..] == script[1..] + later;
    if |next| < |f| {
      assert next < f;
      Reassembled(decide, next, script[1..], later, f);
    } else {
      assert next == f;
    }
  }

  lemma OneReading<T>(out: seq<T>, script: seq<Reading<T>>)
    requires script != []
    ensures out + Received(script) == Extend(out, script[0]) + Received(script[1..])
  {
    hide Brought;
    assert out + (Brought(script[0]) + Received(script[1..])) == (out + Brought(script[0])) + Received(script[1..]);
  }

  /** A decision is the rule's answer to what the reads used so far have brought. */
  lemma {:induction false} DecidedOnReceived<T, R>(decide: seq<T> -> Option<R>, out: seq<T>, script: seq<Reading<T>>)
    returns (used: nat)
    requires Collect(decide, out, script).Decided?
    ensures used <= |script| && forall k :: 0 <= k < used ==> !script[k].Broken?
    ensures decide(out + Received(script[..used])) == Some(Collect(decide, out, script).answer)
    decreases |script|
  {
    var next := Extend(out, script[0]);
    if next != out && decide(next).Some? {
      used := 1;
      OneReading(out, script[..1]);
      assert script[..1][1..] == [] && next + [] == next;
    } else {
      var u := DecidedOnReceived(decide, next, script[1..]);
      used := u + 1;
      OneReading(out, script[..used]);
      assert script[..used][1..] == script[1..][..u];
    }
  }

  // ---- Where a collection ends -------------------------------------------------------------

  /** The first u reads are all used: none of them is broken, and nothing before decides. */
  ghost predicate Uses<T, R(!new)>(decide: seq<T> -> Option<R>, out: seq<T>, script: seq<Reading<T>>, u: nat) {
    && u <= |script| && (forall k :: 0 <= k < u ==> !script[k].Broken?)
    && (forall v :: 0 <= v < u ==> decide(out + Received(script[..v])) == None)
  }

  ghost predicate EndsAt<T, R(!new)>(decide: seq<T> -> Option<R>, out: seq<T>, script: seq<Reading<T>>, u: nat) {
    && Uses(decide, out, script, u)
    && (decide(out + Received(script[..u])).Some? || u == |script| || script[u].Broken?)
  }

  lemma ReceivedMore<T>(out: seq<T>, script: seq<Reading<T>>, v: nat)
    requires v < |script|
    ensures out + Received(script[..v + 1]) == Extend(out, script[0]) + Received(script[1..][..v])
  {
    assert script[..v + 1][1..] == script[1..][..v];
    OneReading(out, script[..v + 1]);
  }

  lemma NothingReceived<T>(out: seq<T>)
    ensures out + Received([]) == out
  {}

  /** A collection that has not been decided comes to one end, and nothing else decides what it is. */
  lemma {:induction false} EndDecides<T, R(!new)>(decide: seq<T> -> Option<R>, out: seq<T>,
                                                  script: seq<Reading<T>>, u: nat)
    requires decide(out) == None && EndsAt(decide, out, script, u)
    ensures
      var g := out + Received(script[..u]);
      Collect(decide, out, script) ==
      if decide(g).Some? then Decided(decide(g).value) else if u == |script| then RanOut(g) else Failed
    decreases |script|
  {
    NothingReceived(out);
    hide Received, Extend;
    if script != [] && !script[0].Broken? {
      var next := Extend(out, script[0]);
      NothingReceived(next);
      forall v | 0 <= v < |script|
        ensures out + Received(script[..v + 1]) == next + Received(script[1..][..v])
      {
        ReceivedMore(out, script, v);
      }
      assert script[..0] == [] && script[1..][..0] == [];
      assert u > 0;
      if u > 1 {
        assert decide(out + Received(script[..0 + 1])) == None;
      }
      if decide(next) == None {
        forall v | 0 <= v < u - 1
          ensures decide(next + Received(script[1..][..v])) == None
        {
          assert out + Received(script[..v + 1]) == next + Received(script[1..][..v]);
        }
        EndDecides(decide, next, script[1..], u - 1);
      } else {
        assert u == 1;
      }
    }
  }

  lemma {:induction false} SomeEnd<T, R(!new)>(decide: seq<T> -> Option<R>, out: seq<T>,
                                               script: seq<Reading<T>>, from: nat)
    returns (u: nat)
    requires Uses(decide, out, script, from)
    ensures EndsAt(decide, out, script, u)
    decreases |script| - from
  {
    hide Received;
    if decide(out + Received(script[..from])).Some? || from == |script| || script[from].Broken? {
      u := from;
    } else {
      u := SomeEnd(decide, out, script, from + 1);
    }
  }
}
