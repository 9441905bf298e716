// The receive queue of an RFC 2217 port: decoded blocks go in from the connection reader, Port.Read
// takes them out and puts back what did not fit. Each channel operation is one step.

module ReceiveQueue {
  import opened Bytes

  const CAPACITY := 64

  /**
   * queue is the buffered channel, held the remainder a Read still has to put back. pushed and
   * returned are all octets ever accepted and ever handed to callers, lost those purged or
   * dropped at close.
   */
  datatype Channel<T(==)> = Channel(
    queue: seq<seq<T>>,
    held: seq<T>,
    done: bool,
    pushed: seq<T>,
    returned: seq<T>,
    lost: multiset<T>)

  datatype Action<T> =
    | Push(block: seq<T>)       // pushData into the channel
    | PushClosed(block: seq<T>) // pushData gives up because the port is closed
    | Take(size: nat)           // Read receives a block into a buffer of this size
    | Wait                      // Read times out with nothing received
    | PutBack                   // Read returns the remainder to the channel
    | DropBack                  // Read drops the remainder because the port is closed
    | Purge                     // one turn of the drain loop of ResetInputBuffer
    | Shut                      // Close

  predicate Enabled<T(==)>(c: Channel<T>, a: Action<T>) {
    match a
    case Push(b) => b != [] && |c.queue| < CAPACITY
    case PushClosed(b) => b != [] && c.done
    case Take(n) => n > 0 && c.held == [] && c.queue != []
    case Wait => c.held == []
    case PutBack => c.held != [] && |c.queue| < CAPACITY
    case DropBack => c.held != [] && c.done
    case Purge => c.queue != []
    case Shut => true
  }

  function Fitting<T>(block: seq<T>, size: nat): nat {
    if |block| <= size then |block| else size
  }

  function Next<T>(c: Channel<T>, a: Action<T>): Channel<T>
    requires Enabled(c, a)
  {
    match a
    case Push(b) => c.(queue := c.queue + [b], pushed := c.pushed + b)
    case PushClosed(b) => c
    case Take(n) =>
      var k := Fitting(c.queue[0], n);
      c.(queue := c.queue[1..], held := c.queue[0][k..], returned := c.returned + c.queue[0][..k])
    case Wait => c
    case PutBack => c.(queue := c.queue + [c.held], held := [])
    case DropBack => c.(held := [], lost := c.lost + multiset(c.held))
    case Purge => c.(queue := c.queue[1..], lost := c.lost + multiset(c.queue[0]))
    case Shut => c.(done := true)
  }

  function Opened<T(==)>(): Channel<T> {
    Channel([], [], false, [], [], multiset{})
  }

  function Run<T(==)>(c: Channel<T>, run: seq<Action<T>>): Option<Channel<T>>
    decreases |run|
  {
    if run == [] then Some(c)
    else if Enabled(c, run[0]) then Run(Next(c, run[0]), run[1..])
    else None
  }

  // ---- Nothing appears and nothing vanishes ------------------------------------------------

  /** Every octet pushed was returned, is queued, is held back by a Read, or was purged or dropped. */
  ghost predicate Conserved<T>(c: Channel<T>) {
    multiset(c.pushed) == multiset(c.returned) + multiset(Concat(c.queue)) + multiset(c.held) + c.lost
  }

  lemma ConcatFirst<T>(q: seq<seq<T>>)
    requires q != []
    ensures multiset(Concat(q)) == multiset(q[0]) + multiset(Concat(q[1..]))
  {}

  lemma CutApart<T>(b: seq<T>, k: nat)
    requires k <= |b|
    ensures multiset(b) == multiset(b[..k]) + multiset(b[k..])
  {
    assert b == b[..k] + b[k..];
  }

  lemma TakeConserves<T>(c: Channel<T>, n: nat)
    requires Conserved(c) && Enabled(c, Take(n))
    ensures Conserved(Next(c, Take(n)))
  {
    ConcatFirst(c.queue);
    CutApart(c.queue[0], Fitting(c.queue[0], n));
    hide Concat;
  }

  lemma PurgeConserves<T>(c: Channel<T>)
    requires Conserved(c) && Enabled(c, Purge)
    ensures Conserved(Next(c, Purge))
  {
    ConcatFirst(c.queue);
    hide Concat;
  }

  lemma PutBackConserves<T>(c: Channel<T>)
    requires Conserved(c) && Enabled(c, PutBack)
    ensures Conserved(Next(c, PutBack))
  {
    hide Concat;
    ConcatLast(c.queue, c.held);
  }

  lemma PushConserves<T>(c: Channel<T>, b: seq<T>)
    requires Conserved(c) && Enabled(c, Push(b))
    ensures Conserved(Next(c, Push(b)))
  {
    hide Concat;
    ConcatLast(c.queue, b);
  }

  lemma ConservedKept<T>(c: Channel<T>, a: Action<T>)
    requires Conserved(c) && Enabled(c, a)
    ensures Conserved(Next(c, a))
  {
    hide Concat;
    match a {
      case Push(b) => PushConserves(c, b);
      case Take(n) => TakeConserves(c, n);
      case PutBack => PutBackConserves(c);
      case Purge => PurgeConserves(c);
      case _ =>
    }
  }

  lemma {:induction false} RunConserves<T>(c: Channel<T>, run: seq<Action<T>>)
    requires Conserved(c) && Run(c, run).Some?
    ensures Conserved(Run(c, run).value)
    decreases |run|
  {
    hide Conserved, Enabled, Next;
    if run != [] {
      ConservedKept(c, run[0]);
      RunConserves(Next(c, run[0]), run[1..]);
    }
  }

  /** While nobody purges or closes, nothing is lost and the port stays open. */
  lemma {:induction false} NothingLost<T>(c: Channel<T>, run: seq<Action<T>>)
    requires Run(c, run).Some? && !c.done
    requires forall k :: 0 <= k < |run| ==> !run[k].Purge? && !run[k].Shut?
    ensures Run(c, run).value.lost == c.lost && !Run(c, run).value.done
    decreases |run|
  {
    if run != [] {
      NothingLost(Next(c, run[0]), run[1..]);
    }
  }

  /** Whatever the interleaving, what readers got is part of what was pushed. */
  lemma QueueConserves<T>(run: seq<Action<T>>)
    requires Run(Opened<T>(), run).Some?
    ensures Conserved(Run(Opened<T>(), run).value)
  {
    assert Conserved(Opened<T>());
    RunConserves(Opened<T>(), run);
  }

  // ---- Order -------------------------------------------------------------------------------

  /** The octets not yet returned come after the returned ones, in the order of the stream. */
  predicate InOrder<T(==)>(c: Channel<T>) {
    c.pushed == c.returned + c.held + Concat(c.queue)
  }

  /** A step that neither purges, nor drops, nor has a remainder to put back. */
  predicate Smooth<T(==)>(c: Channel<T>, a: Action<T>) {
    match a
    case Push(_) => true
    case Wait => true
    case Take(n) => c.queue != [] && |c.queue[0]| <= n
    case _ => false
  }

  lemma TakeKeepsOrder<T>(c: Channel<T>, n: nat)
    requires InOrder(c) && Enabled(c, Take(n))
    ensures InOrder(Next(c, Take(n)))
  {
    var d, k := c.queue[0], Fitting(c.queue[0], n);
    assert d == d[..k] + d[k..];
    assert c.returned + c.held + Concat(c.queue) == (c.returned + d[..k]) + d[k..] + Concat(c.queue[1..]);
  }

  lemma PushKeepsOrder<T>(c: Channel<T>, b: seq<T>)
    requires InOrder(c) && Enabled(c, Push(b))
    ensures InOrder(Next(c, Push(b)))
  {
    ConcatLast(c.queue, b);
    assert c.returned + c.held + (Concat(c.queue) + b) == (c.returned + c.held + Concat(c.queue)) + b;
  }

  /**
   * Putting a remainder back behind the queue keeps the stream order exactly when the remainder
   * and the queued octets commute, so in particular when nothing was queued meanwhile.
   */
  lemma PutBackOrder<T>(c: Channel<T>)
    requires InOrder(c) && Enabled(c, PutBack)
    ensures InOrder(Next(c, PutBack)) <==> c.held + Concat(c.queue) == Concat(c.queue) + c.held
  {
    var x, y, z := c.returned, c.held + Concat(c.queue), Concat(c.queue) + c.held;
    ConcatLast(c.queue, c.held);
    assert c.pushed == x + y;
    assert Next(c, PutBack).held == [];
    assert x + [] + z == x + z;
    if x + y == x + z {
      assert y == (x + y)[|x|..] == (x + z)[|x|..] == z;
    }
  }

  predicate AllSmooth<T(==)>(c: Channel<T>, run: seq<Action<T>>)
    decreases |run|
  {
    run != [] ==> Enabled(c, run[0]) && Smooth(c, run[0]) && AllSmooth(Next(c, run[0]), run[1..])
  }

  /** While every block fits its buffer, the octets come out in the order in which they went in. */
  lemma {:induction false} SmoothRunInOrder<T>(c: Channel<T>, run: seq<Action<T>>)
    requires InOrder(c) && c.held == [] && AllSmooth(c, run)
    ensures Run(c, run).Some? && InOrder(Run(c, run).value) && Run(c, run).value.held == []
    decreases |run|
  {
    if run != [] {
      match run[0] {
        case Push(b) => PushKeepsOrder(c, b);
        case Take(n) => TakeKeepsOrder(c, n);
        case Wait =>
      }
      hide InOrder;
      SmoothRunInOrder(Next(c, run[0]), run[1..]);
    }
  }

  // ---- Remainders ---------------------------------------------------------------------------

  ghost predicate Distinct<T(!new)>(s: seq<T>) {
    forall i, j :: 0 <= i < j < |s| ==> s[i] != s[j]
  }

  /** Where no two octets are alike, order is kept exactly by putting back into an empty queue. */
  lemma PutBackNeedsEmpty<T(!new)>(c: Channel<T>)
    requires InOrder(c) && Enabled(c, PutBack) && Distinct(c.pushed)
    ensures InOrder(Next(c, PutBack)) <==> Concat(c.queue) == []
  {
    PutBackOrder(c);
    var h, q := c.held, Concat(c.queue);
    if q == [] {
      assert h + q == q + h;
    } else {
      AheadOf(c.returned, h, q);
      assert (h + q)[0] == h[0] && (q + h)[0] == q[0];
    }
  }

  lemma AheadOf<T(!new)>(r: seq<T>, h: seq<T>, q: seq<T>)
    requires h != [] && q != [] && Distinct(r + h + q)
    ensures (r + h + q)[|r|] == h[0] != q[0]
  {
    assert (r + h + q)[|r|] == h[0] && (r + h + q)[|r| + |h|] == q[0];
  }

  /** A run that purges nothing and drops nothing. */
  predicate Keeping<T(==)>(run: seq<Action<T>>) {
    forall a :: a in run ==> !a.Purge? && !a.DropBack?
  }

  /** A run in which every remainder is put back into an empty queue. */
  predicate PutsBackOnEmpty<T(==)>(c: Channel<T>, run: seq<Action<T>>)
    decreases |run|
  {
    run != [] ==>
      && Enabled(c, run[0])
      && (run[0].PutBack? ==> c.queue == [])
      && PutsBackOnEmpty(Next(c, run[0]), run[1..])
  }

  lemma KeepingTail<T>(run: seq<Action<T>>)
    requires Keeping(run) && run != []
    ensures Keeping(run[1..]) && !run[0].Purge? && !run[0].DropBack?
  {}

  lemma StepKeepsOrder<T>(c: Channel<T>, a: Action<T>)
    requires InOrder(c) && Enabled(c, a) && !a.Purge? && !a.DropBack? && (a.PutBack? ==> c.queue == [])
    ensures InOrder(Next(c, a))
  {
    match a {
      case Push(b) => PushKeepsOrder(c, b);
      case Take(n) => TakeKeepsOrder(c, n);
      case PutBack =>
        assert Concat(c.queue) == [] && c.held + [] == [] + c.held;
        PutBackOrder(c);
      case _ =>
    }
  }

  /** Whatever the octets, putting back into an empty queue keeps the order of the stream. */
  lemma {:induction false} EmptyPutsKeepOrder<T>(c: Channel<T>, run: seq<Action<T>>)
    requires InOrder(c) && Keeping(run) && PutsBackOnEmpty(c, run)
    ensures Run(c, run).Some? && InOrder(Run(c, run).value)
    decreases |run|
  {
    hide InOrder, Enabled, Next, Keeping;
    if run != [] {
      KeepingTail(run);
      StepKeepsOrder(c, run[0]);
      EmptyPutsKeepOrder(Next(c, run[0]), run[1..]);
    }
  }

  predicate Solid<T(==)>(c: Channel<T>) {
    forall k :: 0 <= k < |c.queue| ==> c.queue[k] != []
  }

  function Stream<T>(c: Channel<T>): seq<T> {
    c.returned + c.held + Concat(c.queue)
  }

  /** Position i is returned, or next to be, with another octet than was pushed there. */
  predicate AstrayAt<T(==)>(c: Channel<T>, i: nat) {
    && i < |Stream(c)| && i < |c.pushed| && Stream(c)[i] != c.pushed[i]
    && (i < |c.returned| || (i == |c.returned| && c.held == []))
  }

  lemma SolidKept<T>(c: Channel<T>, a: Action<T>)
    requires Solid(c) && Enabled(c, a)
    ensures Solid(Next(c, a))
  {}

  lemma StreamPush<T>(c: Channel<T>, b: seq<T>)
    requires Enabled(c, Push(b))
    ensures Stream(Next(c, Push(b))) == Stream(c) + b
  {
    hide Concat;
    ConcatLast(c.queue, b);
    assert c.returned + c.held + (Concat(c.queue) + b) == (c.returned + c.held + Concat(c.queue)) + b;
  }

  lemma StreamTake<T>(c: Channel<T>, k: nat)
    requires Enabled(c, Take(k))
    ensures Stream(Next(c, Take(k))) == Stream(c)
  {
    var d, m := c.queue[0], Fitting(c.queue[0], k);
    assert d == d[..m] + d[m..];
    assert Concat(c.queue) == d + Concat(c.queue[1..]);
    hide Concat;
  }

  lemma StreamStep<T>(c: Channel<T>, a: Action<T>, i: nat)
    requires Enabled(c, a) && !a.Purge? && !a.DropBack?
    requires i < |Stream(c)| && (i < |c.returned| || !a.PutBack?)
    ensures i < |Stream(Next(c, a))| && Stream(Next(c, a))[i] == Stream(c)[i]
  {
    hide Concat;
    match a {
      case Push(b) =>
        StreamPush(c, b);
        hide Stream;
      case Take(k) =>
        StreamTake(c, k);
        hide Stream;
      case _ =>
    }
  }

  lemma StaysAstray<T>(c: Channel<T>, a: Action<T>, i: nat)
    requires AstrayAt(c, i) && Solid(c) && Enabled(c, a) && !a.Purge? && !a.DropBack?
    ensures AstrayAt(Next(c, a), i)
  {
    StreamStep(c, a, i);
    hide Stream;
    if a.Take? {
      assert c.queue[0] != [];
    }
  }

  lemma {:induction false} AstrayForever<T>(c: Channel<T>, run: seq<Action<T>>, i: nat)
    requires AstrayAt(c, i) && Solid(c) && Keeping(run) && Run(c, run).Some?
    ensures !InOrder(Run(c, run).value)
    decreases |run|
  {
    if run != [] {
      hide AstrayAt, Solid, Enabled, Next, Keeping, InOrder;
      KeepingTail(run);
      StaysAstray(c, run[0], i);
      SolidKept(c, run[0]);
      AstrayForever(Next(c, run[0]), run[1..], i);
    }
  }

  lemma {:induction false} PushedGrows<T>(c: Channel<T>, run: seq<Action<T>>)
    requires Run(c, run).Some?
    ensures c.pushed <= Run(c, run).value.pushed
    decreases |run|
  {
    if run != [] {
      PushedGrows(Next(c, run[0]), run[1..]);
    }
  }

  lemma PutBackGoesAstray<T(!new)>(c: Channel<T>)
    requires InOrder(c) && Solid(c) && Enabled(c, PutBack) && c.queue != [] && Distinct(c.pushed)
    ensures AstrayAt(Next(c, PutBack), |c.returned|)
  {
    var n, r, h, q := Next(c, PutBack), c.returned, c.held, Concat(c.queue);
    assert c.queue[0] != [] && q != [];
    AheadOf(r, h, q);
    ConcatLast(c.queue, h);
    assert Stream(n) == r + [] + (q + h);
    assert Stream(n)[|r|] == q[0];
  }

  lemma DistinctPrefix<T(!new)>(s: seq<T>, t: seq<T>)
    requires s <= t && Distinct(t)
    ensures Distinct(s)
  {}

  /**
   * A run without purge or drop that pushes octets all different keeps their order exactly when
   * every remainder is put back into an empty queue.
   */
  lemma {:induction false} OrderKeptExactly<T(!new)>(c: Channel<T>, run: seq<Action<T>>)
    requires InOrder(c) && Solid(c) && Keeping(run) && Run(c, run).Some?
    requires Distinct(Run(c, run).value.pushed)
    ensures InOrder(Run(c, run).value) <==> PutsBackOnEmpty(c, run)
    decreases |run|
  {
    if run != [] {
      hide InOrder, Solid, Keeping, Enabled, Next;
      KeepingTail(run);
      SolidKept(c, run[0]);
      if run[0].PutBack? && c.queue != [] {
        PushedGrows(c, run);
        DistinctPrefix(c.pushed, Run(c, run).value.pushed);
        PutBackGoesAstray(c);
        AstrayForever(Next(c, PutBack), run[1..], |c.returned|);
      } else {
        StepKeepsOrder(c, run[0]);
        OrderKeptExactly(Next(c, run[0]), run[1..]);
      }
    }
  }

  // ---- The same steps with other octets ----------------------------------------------------

  predicate AlikeStep<T(==)>(a: Action<T>, b: Action<T>) {
    match a
    case Push(x) => b.Push? && |b.block| == |x|
    case PushClosed(x) => b.PushClosed? && |b.block| == |x|
    case _ => a == b
  }

  /** Runs that differ only in the octets pushed. */
  predicate Alike<T(==)>(run: seq<Action<T>>, other: seq<Action<T>>) {
    |run| == |other| && forall k :: 0 <= k < |run| ==> AlikeStep(run[k], other[k])
  }

  predicate SameShape<T>(c: Channel<T>, d: Channel<T>) {
    && |c.queue| == |d.queue| && (forall k :: 0 <= k < |c.queue| ==> |c.queue[k]| == |d.queue[k]|)
    && |c.held| == |d.held| && c.done == d.done
  }

  lemma AlikeSteps<T>(c: Channel<T>, d: Channel<T>, a: Action<T>, b: Action<T>)
    requires SameShape(c, d) && AlikeStep(a, b)
    ensures Enabled(c, a) <==> Enabled(d, b)
    ensures Enabled(c, a) ==> SameShape(Next(c, a), Next(d, b))
  {}

  lemma {:induction false} AlikeRuns<T>(c: Channel<T>, d: Channel<T>, run: seq<Action<T>>, other: seq<Action<T>>)
    requires SameShape(c, d) && Alike(run, other)
    ensures Run(c, run).Some? <==> Run(d, other).Some?
    ensures PutsBackOnEmpty(c, run) <==> PutsBackOnEmpty(d, other)
    decreases |run|
  {
    if run != [] {
      assert AlikeStep(run[0], other[0]);
      AlikeSteps(c, d, run[0], other[0]);
      hide Enabled, Next;
      if Enabled(c, run[0]) {
        AlikeRuns(Next(c, run[0]), Next(d, other[0]), run[1..], other[1..]);
      }
    }
  }

  lemma AlikeKeeps<T>(run: seq<Action<T>>, other: seq<Action<T>>)
    requires Alike(run, other) && Keeping(run)
    ensures Keeping(other)
  {
    forall a | a in other
      ensures !a.Purge? && !a.DropBack?
    {
      var k :| 0 <= k < |other| && other[k] == a;
      assert AlikeStep(run[k], other[k]) && run[k] in run;
    }
  }

  function Counted(n: nat, k: nat): (s: seq<int>)
    ensures |s| == k && forall i :: 0 <= i < k ==> s[i] == n + i
  {
    seq(k, i => n + i)
  }

  /** The run with its octets numbered from n. */
  function Numbered(run: seq<Action<int>>, n: nat): seq<Action<int>>
    decreases |run|
  {
    if run == [] then []
    else match run[0]
      case Push(b) => [Push(Counted(n, |b|))] + Numbered(run[1..], n + |b|)
      case _ => [run[0]] + Numbered(run[1..], n)
  }

  lemma {:induction false} NumberedAlike(run: seq<Action<int>>, n: nat)
    ensures Alike(run, Numbered(run, n))
    decreases |run|
  {
    if run != [] {
      NumberedAlike(run[1..], if run[0].Push? then n + |run[0].block| else n);
      assert run == [run[0]] + run[1..];
    }
  }

  lemma {:induction false} NumberedPushes(c: Channel<int>, run: seq<Action<int>>)
    requires c.pushed == Counted(0, |c.pushed|)
    requires Run(c, Numbered(run, |c.pushed|)).Some?
    ensures Distinct(Run(c, Numbered(run, |c.pushed|)).value.pushed)
    decreases |run|
  {
    if run != [] {
      var other := Numbered(run, |c.pushed|);
      var n := Next(c, other[0]);
      assert n.pushed == Counted(0, |n.pushed|);
      assert other[1..] == Numbered(run[1..], |n.pushed|);
      NumberedPushes(n, run[1..]);
    }
  }

  /**
   * A run without purge or drop keeps the order of the stream for all octets exactly when every
   * remainder is put back into an empty queue.
   */
  lemma OrderForAllOctets(run: seq<Action<int>>)
    requires Run(Opened<int>(), run).Some? && Keeping(run)
    ensures PutsBackOnEmpty(Opened<int>(), run) <==>
            forall other: seq<Action<int>> :: Alike(run, other) ==>
              Run(Opened<int>(), other).Some? && InOrder(Run(Opened<int>(), other).value)
  {
    var c := Opened<int>();
    if PutsBackOnEmpty(c, run) {
      forall other: seq<Action<int>> | Alike(run, other)
        ensures Run(c, other).Some? && InOrder(Run(c, other).value)
      {
        AlikeRuns(c, c, run, other);
        AlikeKeeps(run, other);
        EmptyPutsKeepOrder(c, other);
      }
    } else {
      var other := Numbered(run, 0);
      NumberedAlike(run, 0);
      AlikeRuns(c, c, run, other);
      AlikeKeeps(run, other);
      NumberedPushes(c, run);
      OrderKeptExactly(c, other);
    }
  }

  /** A small buffer can reorder the stream: 1 2, then 3, read one octet at a time as 1 3 2. */
  lemma SmallBufferReorders()
    ensures
      var run := [Push([1, 2]), Take(1), Push([3]), PutBack, Take(1), Take(1)];
      var end := Run(Opened<int>(), run);
      end.Some? && end.value.pushed == [1, 2, 3] && end.value.returned == [1, 3, 2]
  {
    var c0 := Opened<int>();
    var c1 := Next(c0, Push([1, 2]));
    var c2 := Next(c1, Take(1));
    var c3 := Next(c2, Push([3]));
    var c4 := Next(c3, PutBack);
    var c5 := Next(c4, Take(1));
    var c6 := Next(c5, Take(1));
    var run: seq<Action<int>> := [Push([1, 2]), Take(1), Push([3]), PutBack, Take(1), Take(1)];
    assert Run(c5, [Take(1)]) == Some(c6);
    assert run[1..] == [Take(1), Push([3]), PutBack, Take(1), Take(1)];
    assert run[1..][1..] == [Push([3]), PutBack, Take(1), Take(1)];
    assert run[1..][1..][1..] == [PutBack, Take(1), Take(1)];
    assert run[1..][1..][1..][1..] == [Take(1), Take(1)];
    assert run[1..][1..][1..][1..][1..] == [Take(1)];
  }
}
