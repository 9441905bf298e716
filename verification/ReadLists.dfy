// Lists of elements on their way to and from the meter: the active list, the read list, the
// selection by archive type, and the split into small reads.

module ReadLists {
  import opened Bytes
  import opened Integers
  import opened Elements
  import opened ValueTypes
  import Frames

  const ADDRESS_BITS := 0x4000_0000 // addresses are 30 bits; the bit above marks a read-list entry
  const SUPPORTED := 83
  const REG_READ_LIST: bv16 := 0x3FFF

  // ---- Read list and active list -----------------------------------------------------------

  /** uint32(address) | 0x40000000. */
  function Marked(address: nat): nat {
    Or(address % 0x1_0000_0000, ADDRESS_BITS)
  }

  lemma MarkAbove(address: nat)
    requires address < ADDRESS_BITS
    ensures Marked(address) == address + ADDRESS_BITS
  {
    hide Or;
    OctetsOfBits(3);
    PowersOf256();
    assert Pow2(27) == 8 * Pow2(24) && Pow2(30) == 8 * Pow2(27);
    OrAbove(address, 1, 30);
  }

  function Entry(e: Element): (b: seq<byte>)
    ensures |b| == 6
  {
    Octets(4, Marked(e.address)) + Octets(2, e.size % 0x1_0000)
  }

  function Entries(es: seq<Element>): (b: seq<byte>)
    ensures |b| == 6 * |es|
    decreases |es|
  {
    if es == [] then [] else Entries(es[..|es| - 1]) + Entry(es[|es| - 1])
  }

  /** makeReadListPayload: a length octet and the entries, if the length fits the octet. */
  method MakeReadListPayload(es: seq<Element>) returns (r: Result<seq<byte>, ElementError>)
    ensures r.Ok? <==> |es| <= 42
    ensures r.Ok? ==> r.value == [Low(6 * |es|)] + Entries(es)
    ensures r.Err? ==> r.error == ReadListTooLarge
  {
    hide Low, Value, Entry;
    var p := [];
    for k := 0 to |es|
      invariant p == Entries(es[..k])
    {
      assert es[..k + 1][..k] == es[..k];
      p := p + Entry(es[k]);
    }
    assert es[..|es|] == es;
    if |p| > 255 {
      return Err(ReadListTooLarge);
    }
    r := Ok([Low(|p|)] + p);
  }

  /** One entry of the active list: the mark and any other high bit is masked off. */
  function Element6(b: seq<byte>): Element
    requires |b| == 6
  {
    Element(Unsigned(b[..4]) % ADDRESS_BITS, Unsigned(b[4..]))
  }

  function ActiveFrom(d: seq<byte>): seq<Element>
    decreases |d|
  {
    if |d| < 6 then []
    else
      var e := Element6(d[..6]);
      (if e.address < SUPPORTED then [e] else []) + ActiveFrom(d[6..])
  }

  /** The active list in the data part of a normal response. */
  function ActiveList(d: seq<byte>): Result<seq<Element>, ElementError> {
    if |d| % 6 != 0 then Err(BadActiveLength)
    else if ActiveFrom(d) == [] then Err(NoActiveElements)
    else Ok(ActiveFrom(d))
  }

  method DecodeActiveList(d: seq<byte>) returns (r: Result<seq<Element>, ElementError>)
    ensures r == ActiveList(d)
  {
    hide Element6;
    if |d| % 6 != 0 {
      return Err(BadActiveLength);
    }
    if |d| == 0 {
      return Err(NoActiveElements);
    }
    var es: seq<Element> := [];
    var i := 0;
    while i + 6 <= |d|
      invariant 0 <= i <= |d|
      invariant es + ActiveFrom(d[i..]) == ActiveFrom(d)
    {
      assert d[i..][..6] == d[i..i + 6] && d[i..][6..] == d[i + 6..];
      var e := Element6(d[i..i + 6]);
      ghost var done, tail := es, ActiveFrom(d[i + 6..]);
      if e.address < SUPPORTED {
        es := es + [e];
        assert done + ([e] + tail) == es + tail;
      } else {
        assert [] + tail == tail;
      }
      i := i + 6;
    }
    assert es + [] == es;
    r := if es == [] then Err(NoActiveElements) else Ok(es);
  }

  /** One entry of an active list: kept, with its 30-bit address and its size, exactly if the address is known. */
  lemma OneActive(b: seq<byte>)
    requires |b| == 6
    ensures
      var a := Unsigned(b[..4]) % 0x4000_0000;
      ActiveFrom(b) == if a <= 82 then [Element(a, Unsigned(b[4..]))] else []
  {
    hide Unsigned;
    assert b[..6] == b && ActiveFrom(b[6..]) == [];
  }

  /** A response carries at most 255 data octets, hence at most 42 active elements. */
  lemma {:induction false} ActiveListIsShort(d: seq<byte>)
    ensures 6 * |ActiveFrom(d)| <= |d|
    ensures forall e :: e in ActiveFrom(d) ==> Writable(e)
    decreases |d|
  {
    if |d| >= 6 {
      ActiveListIsShort(d[6..]);
      SmallSize(d[..6]);
    }
  }

  /** What an active list may contain: a supported address and a 16-bit size. */
  predicate Writable(e: Element) {
    e.address < SUPPORTED && e.size < 0x1_0000
  }

  lemma SmallSize(b: seq<byte>)
    requires |b| == 6
    ensures Element6(b).size < 0x1_0000
  {
    PowersOf256();
    assert |b[4..]| == 2;
  }

  lemma EntryInverse(e: Element)
    requires Writable(e)
    ensures Element6(Entry(e)) == e
  {
    hide Unsigned, Octets, Marked;
    PowersOf256();
    hide Pow256;
    MarkAbove(e.address);
    UnsignedInverse(4, Marked(e.address));
    UnsignedInverse(2, e.size);
    assert Entry(e)[..4] == Octets(4, Marked(e.address));
    assert Entry(e)[4..] == Octets(2, e.size);
  }

  lemma {:induction false} ActiveAppend(d: seq<byte>, c: seq<byte>)
    requires |d| % 6 == 0
    ensures ActiveFrom(d + c) == ActiveFrom(d) + ActiveFrom(c)
    decreases |d|
  {
    hide Element6;
    if d == [] {
      assert d + c == c;
    } else {
      assert (d + c)[..6] == d[..6] && (d + c)[6..] == d[6..] + c;
      ActiveAppend(d[6..], c);
    }
  }

  /** A read list decodes, as an active list, to the same addresses and sizes. */
  lemma {:induction false} ReadListInverse(es: seq<Element>)
    requires forall e :: e in es ==> Writable(e)
    ensures ActiveFrom(Entries(es)) == es
    decreases |es|
  {
    if es != [] {
      var init, last := es[..|es| - 1], es[|es| - 1];
      assert es == init + [last];
      hide ActiveFrom, Entries, Writable;
      forall e | e in init
        ensures Writable(e)
      {
        assert e in es;
      }
      ReadListInverse(init);
      ReadListStep(init, last);
    }
  }

  lemma EntriesStep(init: seq<Element>, last: Element)
    ensures Entries(init + [last]) == Entries(init) + Entry(last)
  {
    hide Entry;
    assert (init + [last])[..|init|] == init;
  }

  lemma ReadListStep(init: seq<Element>, last: Element)
    requires ActiveFrom(Entries(init)) == init && Writable(last)
    ensures ActiveFrom(Entries(init + [last])) == init + [last]
  {
    hide ActiveFrom, Entry, Entries, Writable, Element6;
    EntriesStep(init, last);
    OneEntry(last);
    ActiveAppend(Entries(init), Entry(last));
  }

  lemma OneEntry(e: Element)
    requires Writable(e)
    ensures ActiveFrom(Entry(e)) == [e]
  {
    hide Element6, Entry;
    EntryInverse(e);
    var b := Entry(e);
    assert b[..6] == b && ActiveFrom(b[6..]) == [];
  }

  /** Entries of six octets, each of them with the mark of a read list and an address below it. */
  predicate AllMarked(d: seq<byte>) {
    |d| % 6 == 0 && forall k :: 0 <= k < |d| / 6 ==> ADDRESS_BITS <= Unsigned(d[6 * k..6 * k + 4]) < 2 * ADDRESS_BITS
  }

  lemma EntryMarked(e: Element)
    requires Writable(e)
    ensures Unsigned(Entry(e)[..4]) == ADDRESS_BITS + e.address && Unsigned(Entry(e)[4..]) == e.size
  {
    hide Unsigned, Octets, Marked;
    PowersOf256();
    hide Pow256;
    MarkAbove(e.address);
    UnsignedInverse(4, Marked(e.address));
    UnsignedInverse(2, e.size);
    assert Entry(e)[..4] == Octets(4, Marked(e.address));
    assert Entry(e)[4..] == Octets(2, e.size);
  }

  /** The k-th entry of a written list is the mark over the address, and the size. */
  lemma {:induction false} EntriesMarked(es: seq<Element>, k: nat)
    requires (forall e :: e in es ==> Writable(e)) && k < |es|
    ensures Unsigned(Entries(es)[6 * k..6 * k + 4]) == ADDRESS_BITS + es[k].address
    ensures Unsigned(Entries(es)[6 * k + 4..6 * k + 6]) == es[k].size
    decreases |es|
  {
    hide Unsigned, Entry, Writable;
    var n := |es| - 1;
    var init, all := Entries(es[..n]), Entries(es);
    assert all == init + Entry(es[n]);
    if k < n {
      EntriesMarked(es[..n], k);
      assert all[6 * k..6 * k + 4] == init[6 * k..6 * k + 4];
      assert all[6 * k + 4..6 * k + 6] == init[6 * k + 4..6 * k + 6];
    } else {
      EntryMarked(es[n]);
      assert all[6 * n..6 * n + 4] == Entry(es[n])[..4] && all[6 * n + 4..6 * n + 6] == Entry(es[n])[4..];
    }
  }

  lemma WrittenIsMarked(es: seq<Element>)
    requires forall e :: e in es ==> Writable(e)
    ensures AllMarked(Entries(es))
  {
    hide Unsigned, Entries;
    forall k | 0 <= k < |es|
      ensures ADDRESS_BITS <= Unsigned(Entries(es)[6 * k..6 * k + 4]) < 2 * ADDRESS_BITS
    {
      EntriesMarked(es, k);
      assert Writable(es[k]);
    }
  }

  /**
   * Any selection from a received active list can be written: its payload exists, the request with
   * its wake-up octets stays below the frame limit, and the payload carries the same elements.
   */
  lemma SelectionIsWritable(d: seq<byte>, es: seq<Element>, addr: byte)
    requires |d| <= 255 && |es| <= |ActiveFrom(d)| && forall e :: e in es ==> e in ActiveFrom(d)
    ensures |es| <= 42 && ActiveFrom(Entries(es)) == es
    ensures
      var payload := [Low(6 * |es|)] + Entries(es);
      |Frames.Prefixed(Frames.Frame(addr, Frames.FUNCTION_WRITE, REG_READ_LIST, 0, payload))| <= 263 < Frames.MAX_FRAME
  {
    hide Low, Value, Frames.Sealed;
    ActiveListIsShort(d);
    ReadListInverse(es);
  }

  // ---- Selection by archive type -----------------------------------------------------------

  /** meaningful: whether an element exists in archives of this type. */
  predicate Meaningful(a: nat, typ: int) {
    if typ == HOURLY || typ == DAILY || typ == MONTHLY then a <= 18 || 22 <= a <= 40 || 77 <= a <= 82
    else if typ == TOTAL || typ == CURRENT_TOTAL then
      3 <= a <= 8 || 11 <= a <= 13 || 17 <= a <= 18 || 25 <= a <= 30 || 33 <= a <= 35 || 39 <= a <= 40 || a == 81
    else if typ == CURRENT then
      a <= 2 || 9 <= a <= 10 || 14 <= a <= 16 || 19 <= a <= 24 || 31 <= a <= 32 || a == 36 || 41 <= a <= 43 ||
      a == 77 || a == 78 || a == 81 || a == 82
    else false
  }

  /** Addresses that no element has. */
  predicate IsReserved(a: nat) {
    a == 37 || a == 38
  }

  /**
   * Up to address 43 an element is either a current value or a total, never both; the archives of
   * hours, days and months hold all of them but the momentary flows, and the current totals what the
   * archive of totals holds.
   */
  lemma MeaningfulApart(a: nat, typ: int)
    ensures a <= 43 && !IsReserved(a) ==> (Meaningful(a, CURRENT) <==> !Meaningful(a, TOTAL))
    ensures typ == HOURLY || typ == DAILY || typ == MONTHLY ==>
              (Meaningful(a, typ) <==> (a <= 43 && !IsFloat(a)) || 77 <= a <= 82)
    ensures Meaningful(a, TOTAL) <==> Meaningful(a, CURRENT_TOTAL)
    ensures Meaningful(a, TOTAL) ==> Meaningful(a, MONTHLY)
  {}

  function Select(es: seq<Element>, typ: int): (r: seq<Element>)
    ensures |r| <= |es| && forall e :: e in r <==> e in es && Meaningful(e.address, typ)
    decreases |es|
  {
    if es == [] then []
    else
      var last := es[|es| - 1];
      Select(es[..|es| - 1], typ) + (if Meaningful(last.address, typ) then [last] else [])
  }

  /** The selection keeps the order of the list. */
  lemma {:induction false} SelectAppend(a: seq<Element>, b: seq<Element>, typ: int)
    ensures Select(a + b, typ) == Select(a, typ) + Select(b, typ)
    decreases |b|
  {
    if b == [] {
      assert a + b == a;
    } else {
      assert (a + b)[..|a + b| - 1] == a + b[..|b| - 1];
      SelectAppend(a, b[..|b| - 1], typ);
    }
  }

  method Filter(es: seq<Element>, typ: int) returns (out: seq<Element>)
    ensures out == Select(es, typ)
  {
    out := [];
    for k := 0 to |es|
      invariant out == Select(es[..k], typ)
    {
      assert es[..k + 1][..k] == es[..k];
      if Meaningful(es[k].address, typ) {
        out := out + [es[k]];
      }
    }
    assert es[..|es|] == es;
  }

  // ---- Splitting ---------------------------------------------------------------------------

  const CHUNK_LIMIT := 60

  /** A chunk that may be read at once: within the limit, or a single element. */
  predicate Readable(chunk: seq<Element>) {
    chunk != [] && (Elements.Total(chunk) <= 60 || |chunk| == 1)
  }

  /** A way to read a list: its parts, in order, each of them readable. */
  predicate IsSplit(chunks: seq<seq<Element>>, es: seq<Element>) {
    Concat(chunks) == es && forall c :: c in chunks ==> Readable(c)
  }

  /** How many elements the first chunk takes, when it already holds some that take used octets. */
  function Room(es: seq<Element>, used: nat): (n: nat)
    ensures n <= |es|
  {
    if es == [] || used + es[0].size + 2 > CHUNK_LIMIT then 0
    else 1 + Room(es[1..], used + es[0].size + 2)
  }

  function FirstChunk(es: seq<Element>): (n: nat)
    ensures n <= |es| && (es != [] ==> n > 0)
  {
    if es == [] then 0 else if Room(es, 0) == 0 then 1 else Room(es, 0)
  }

  /** The greedy split: as many elements as fit, again and again. */
  function Split(es: seq<Element>): seq<seq<Element>>
    decreases |es|
  {
    if es == [] then [] else [es[..FirstChunk(es)]] + Split(es[FirstChunk(es)..])
  }

  lemma {:induction false} TotalAppend(a: seq<Element>, b: seq<Element>)
    ensures Elements.Total(a + b) == Elements.Total(a) + Elements.Total(b)
  {
    if a == [] {
      assert a + b == b;
    } else {
      assert (a + b)[1..] == a[1..] + b;
      TotalAppend(a[1..], b);
    }
  }

  lemma {:induction false} RoomFits(es: seq<Element>, used: nat)
    ensures Room(es, used) > 0 ==> used + Elements.Total(es[..Room(es, used)]) <= CHUNK_LIMIT
  {
    if Room(es, used) > 0 {
      var n := es[0].size + 2;
      RoomFits(es[1..], used + n);
      assert es[..Room(es, used)][1..] == es[1..][..Room(es[1..], used + n)];
    }
  }

  /** Nothing longer than Room fits. */
  lemma {:induction false} RoomIsLongest(es: seq<Element>, used: nat, k: nat)
    requires k <= |es| && used + Elements.Total(es[..k]) <= CHUNK_LIMIT
    ensures k <= Room(es, used)
    decreases k
  {
    if k > 0 {
      var n := es[0].size + 2;
      assert es[..k][1..] == es[1..][..k - 1];
      RoomIsLongest(es[1..], used + n, k - 1);
    }
  }

  lemma {:induction false} TotalCounts(es: seq<Element>)
    ensures Elements.Total(es) >= 2 * |es|
  {
    if es != [] {
      TotalCounts(es[1..]);
    }
  }

  /** A chunk always fits a request. */
  lemma ReadableIsShort(chunk: seq<Element>)
    requires Readable(chunk)
    ensures |chunk| <= 30
  {
    TotalCounts(chunk);
  }

  lemma FirstChunkReadable(es: seq<Element>)
    requires es != []
    ensures Readable(es[..FirstChunk(es)])
  {
    RoomFits(es, 0);
  }

  /** The split is an order-preserving partition into readable chunks. */
  lemma {:induction false} SplitIsSplit(es: seq<Element>)
    ensures IsSplit(Split(es), es)
    decreases |es|
  {
    hide Readable, FirstChunk;
    if es != [] {
      FirstChunkReadable(es);
      var n := FirstChunk(es);
      var chunks := Split(es[n..]);
      SplitIsSplit(es[n..]);
      assert Split(es) == [es[..n]] + chunks && ([es[..n]] + chunks)[1..] == chunks;
      assert es == es[..n] + es[n..];
    }
  }

  /** A chunk of a split never reaches past the greedy chunk that starts with or inside it. */
  lemma GreedyReachesFurther(es: seq<Element>, c: seq<Element>, k: nat)
    requires c <= es && k < |c| && Readable(c)
    ensures FirstChunk(es[k..]) >= |c| - k
  {
    var rest := es[k..];
    if |c| > 1 {
      assert c == c[..k] + c[k..];
      TotalAppend(c[..k], c[k..]);
      assert rest[..|c| - k] == c[k..];
      RoomIsLongest(rest, 0, |c| - k);
    }
  }

  lemma SplitHead(es: seq<Element>, p: seq<seq<Element>>)
    requires IsSplit(p, es) && es != []
    ensures p != [] && Readable(p[0]) && p[0] <= es && IsSplit(p[1..], es[|p[0]|..])
  {
    hide Readable;
    assert es == p[0] + Concat(p[1..]) && es[|p[0]|..] == Concat(p[1..]);
    forall d | d in p[1..]
      ensures Readable(d)
    {
      assert d in p;
    }
  }

  /** Greedy stays ahead: from any later start it needs no more chunks than any split of the list. */
  lemma {:induction false} GreedyAhead(es: seq<Element>, p: seq<seq<Element>>, k: nat)
    requires IsSplit(p, es) && k <= |es|
    ensures |Split(es[k..])| <= |p|
    decreases |p|, |es| - k
  {
    if k < |es| {
      SplitHead(es, p);
      var c, rest := p[0], es[|p[0]|..];
      if k >= |c| {
        hide IsSplit, Readable, Split;
        assert es[k..] == rest[k - |c|..];
        GreedyAhead(rest, p[1..], k - |c|);
      } else {
        hide IsSplit, Readable;
        GreedyReachesFurther(es, c, k);
        var tail := es[k..];
        var n := FirstChunk(tail);
        assert Split(tail) == [tail[..n]] + Split(tail[n..]);
        hide Split, FirstChunk;
        assert tail[n..] == rest[k + n - |c|..];
        GreedyAhead(rest, p[1..], k + n - |c|);
      }
    }
  }

  /** No split into readable chunks has fewer chunks. */
  lemma SplitIsShortest(es: seq<Element>, p: seq<seq<Element>>)
    requires IsSplit(p, es)
    ensures |Split(es)| <= |p|
  {
    GreedyAhead(es, p, 0);
    assert es[0..] == es;
  }

  /** The chunks still to come when current is open and rest is unread. */
  function Pending(current: seq<Element>, rest: seq<Element>): seq<seq<Element>> {
    Split(current + rest)
  }

  function Opened(current: seq<Element>): seq<seq<Element>> {
    if current == [] then [] else [current]
  }

  /** splitArchiveReadList. */
  method SplitArchiveReadList(es: seq<Element>) returns (chunks: seq<seq<Element>>)
    ensures chunks == Split(es)
  {
    hide Split, Pending, Elements.Total;
    chunks := [];
    var current: seq<Element> := [];
    var currentBytes := 0;
    ghost var rest := es;
    StartPending(es);
    for k := 0 to |es|
      invariant rest == es[k..]
      invariant currentBytes == Elements.Total(current)
      invariant current != [] ==> currentBytes <= CHUNK_LIMIT
      invariant chunks + Pending(current, rest) == Split(es)
    {
      var e := es[k];
      var n := e.size + 2;
      ghost var tail := rest[1..];
      if n > CHUNK_LIMIT {
        PendingBig(current, rest);
        Regroup(chunks, Opened(current), [[e]], Pending([], tail));
        if current != [] {
          chunks := chunks + [current];
          current, currentBytes := [], 0;
        }
        chunks := chunks + [[e]];
        rest := tail;
        continue;
      }
      if currentBytes + n > CHUNK_LIMIT && current != [] {
        PendingFlush(current, rest);
        Regroup(chunks, Opened(current), [], Pending([], rest));
        chunks := chunks + [current];
        current, currentBytes := [], 0;
        NothingToRead();
      }
      PendingTake(current, rest);
      current := current + [e];
      currentBytes := currentBytes + n;
      rest := tail;
    }
    PendingEnd(current);
    if current != [] {
      chunks := chunks + [current];
    }
  }

  lemma Regroup<T>(a: seq<T>, b: seq<T>, c: seq<T>, d: seq<T>)
    ensures a + (b + c + d) == (a + b) + c + d && a + [] == a && b + [] == b
  {}

  lemma NothingToRead()
    ensures Elements.Total([]) == 0 && Split([]) == []
  {}

  lemma StartPending(es: seq<Element>)
    ensures Pending([], es) == Split(es) && [] + Split(es) == Split(es) && Elements.Total([]) == 0
  {
    assert [] + es == es;
  }

  lemma PendingBig(current: seq<Element>, rest: seq<Element>)
    requires rest != [] && rest[0].size + 2 > CHUNK_LIMIT
    requires current != [] ==> Elements.Total(current) <= CHUNK_LIMIT
    ensures Pending(current, rest) == Opened(current) + [[rest[0]]] + Pending([], rest[1..])
    ensures Elements.Total([]) == 0
  {
    NothingToRead();
    hide Split, Elements.Total;
    BigAlone(rest);
    assert [] + rest == rest && [] + rest[1..] == rest[1..];
    if current == [] {
      assert [] + [[rest[0]]] == [[rest[0]]];
    } else {
      FlushFirst(current, rest);
      assert Opened(current) + [[rest[0]]] + Split(rest[1..]) == [current] + ([[rest[0]]] + Split(rest[1..]));
    }
  }

  lemma PendingFlush(current: seq<Element>, rest: seq<Element>)
    requires current != [] && Elements.Total(current) <= CHUNK_LIMIT
    requires rest != [] && Elements.Total(current) + rest[0].size + 2 > CHUNK_LIMIT
    ensures Pending(current, rest) == Opened(current) + [] + Pending([], rest)
  {
    hide Split, Elements.Total;
    FlushFirst(current, rest);
    assert [] + rest == rest && [current] + [] == [current];
  }

  lemma PendingTake(current: seq<Element>, rest: seq<Element>)
    requires rest != []
    ensures Pending(current, rest) == Pending(current + [rest[0]], rest[1..])
    ensures Elements.Total(current + [rest[0]]) == Elements.Total(current) + rest[0].size + 2
  {
    assert current + rest == (current + [rest[0]]) + rest[1..];
    TotalAppend(current, [rest[0]]);
    assert [rest[0]][1..] == [];
  }

  lemma PendingEnd(current: seq<Element>)
    requires current != [] ==> Elements.Total(current) <= CHUNK_LIMIT
    ensures Pending(current, []) == Opened(current)
  {
    if current == [] {
      assert current + [] == [];
    } else {
      FlushFirst(current, []);
      assert [current] + [] == [current];
    }
  }

  lemma {:induction false} RoomStops(a: seq<Element>, b: seq<Element>, used: nat)
    requires used + Elements.Total(a) <= CHUNK_LIMIT
    requires b != [] ==> used + Elements.Total(a) + b[0].size + 2 > CHUNK_LIMIT
    ensures Room(a + b, used) == |a|
  {
    if a == [] {
      assert a + b == b;
    } else {
      assert (a + b)[1..] == a[1..] + b;
      RoomStops(a[1..], b, used + a[0].size + 2);
    }
  }

  /** When the next element does not fit behind current, current is the first greedy chunk. */
  lemma FlushFirst(current: seq<Element>, rest: seq<Element>)
    requires current != [] && Elements.Total(current) <= CHUNK_LIMIT
    requires rest != [] ==> Elements.Total(current) + rest[0].size + 2 > CHUNK_LIMIT
    ensures Split(current + rest) == [current] + Split(rest)
  {
    var all := current + rest;
    RoomStops(current, rest, 0);
    assert all[..|current|] == current && all[|current|..] == rest;
  }

  /** An element that never fits is a chunk of its own. */
  lemma BigAlone(es: seq<Element>)
    requires es != [] && es[0].size + 2 > CHUNK_LIMIT
    ensures Split(es) == [[es[0]]] + Split(es[1..])
  {
    assert FirstChunk(es) == 1 && es[..1] == [es[0]];
  }
}
