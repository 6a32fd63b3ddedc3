/** The log ring: writers under a spinlock, one reader without it, and free-running 32-bit
    head and tail.

    `Ring` is the code as it runs alone.  The machine below interleaves it byte by byte: a
    writer holding the lock copies one byte a step and publishes the head last, the reader
    copies one byte a step and publishes the tail last.
  */
module LogRing {
  import opened Machine
  import opened StreamBuffers

  const SIZE: nat := 8192

  /** Where the byte with running number n sits. */
  function Index(n: int): (r: nat)
    ensures r < SIZE
  {
    n % SIZE
  }

  /** The 32-bit index names the same cell as the running number. */
  lemma IndexAgrees(n: nat, i: nat)
    ensures Index(Low32(Low32(n) + i)) == Index(n + i)
  {
    var q, q2 := n / U32, (Low32(n) + i) / U32;
    assert n + i == Low32(Low32(n) + i) + SIZE * (524288 * (q + q2));
    SameCell(Low32(Low32(n) + i), 524288 * (q + q2));
  }

  lemma IndexWraps(n: nat, i: nat)
    ensures Index(Low32(n) + i) == Index(n + i)
  {
    var q := n / U32;
    assert n + i == Low32(n) + i + SIZE * (524288 * q);
    SameCell(Low32(n) + i, 524288 * q);
  }

  lemma SameCell(x: nat, k: nat)
    ensures (x + SIZE * k) % SIZE == x % SIZE
  {
    if k == 0 {
    } else {
      SameCell(x, k - 1);
    }
  }

  /** Numbers less than a ring apart sit in different cells. */
  lemma CellsDiffer(a: nat, b: nat)
    requires a < b < a + SIZE
    ensures Index(a) != Index(b)
  {
  }

  /** The difference of the 32-bit counters is the difference of the running numbers. */
  lemma DifferenceAgrees(a: nat, d: nat)
    requires d <= a < d + U32
    ensures Low32(Low32(a) - Low32(d)) == a - d
  {
  }

  /** The n bytes from running number `start` on. */
  function Span(cells: seq<byte>, start: nat, n: nat): (s: seq<byte>)
    requires |cells| == SIZE
    ensures |s| == n && forall i :: 0 <= i < n ==> s[i] == cells[Index(start + i)]
  {
    seq(n, i requires 0 <= i < n => cells[Index(start + i)])
  }

  lemma SpanGrows(cells: seq<byte>, start: nat, n: nat, b: byte)
    requires |cells| == SIZE && n < SIZE
    ensures Span(cells[Index(start + n) := b], start, n + 1) == Span(cells, start, n) + [b]
  {
    var cells' := cells[Index(start + n) := b];
    forall i | 0 <= i < n ensures Span(cells', start, n + 1)[i] == Span(cells, start, n)[i] {
      CellsDiffer(start + i, start + n);
    }
  }

  lemma SpanDrops(cells: seq<byte>, start: nat, n: nat, k: nat)
    requires |cells| == SIZE && k <= n
    ensures Span(cells, start + k, n - k) == Span(cells, start, n)[k..]
    ensures Span(cells, start, k) == Span(cells, start, n)[..k]
  {
    forall i | 0 <= i < n - k ensures Span(cells, start + k, n - k)[i] == Span(cells, start, n)[k..][i] {
      assert start + k + i == start + (k + i);
    }
  }

  lemma SpanWraps(cells: seq<byte>, start: nat, n: nat)
    requires |cells| == SIZE
    ensures Span(cells, Low32(start), n) == Span(cells, start, n)
  {
    forall i | 0 <= i < n ensures Span(cells, Low32(start), n)[i] == Span(cells, start, n)[i] {
      IndexWraps(start, i);
    }
  }

  /** The oldest k bytes and, counted from the moved tail, the others. */
  lemma TakenOff(cells: seq<byte>, t: nat, used: nat, k: nat)
    requires |cells| == SIZE && k <= used
    ensures Span(cells, t, used) == Span(cells, t, k) + Span(cells, Low32(t + k), used - k)
  {
    SpanDrops(cells, t, used, k);
    SpanWraps(cells, t + k, used - k);
    assert Span(cells, t, used) == Span(cells, t, used)[..k] + Span(cells, t, used)[k..];
  }

  lemma OneMoreByte(was: seq<byte>, data: seq<byte>, i: nat)
    requires i < |data|
    ensures was + data[..i] + [data[i]] == was + data[..i + 1]
  {
  }

  // ---- The ring alone ----

  class Ring {
    const cells: array<byte>
    var head: nat
    var tail: nat
    var dropped: nat

    predicate Valid()
      reads this
    {
      cells.Length == SIZE && head < U32 && tail < U32 && dropped < U32 && Used() <= SIZE
    }

    function Used(): nat
      reads this
    {
      Low32(head - tail)
    }

    ghost function Contents(): seq<byte>
      requires Valid()
      reads this, cells
    {
      Span(cells[..], tail, Used())
    }

    constructor ()
      ensures Valid() && fresh(cells) && Contents() == [] && dropped == 0
    {
      cells := new byte[SIZE];
      head, tail, dropped := 0, 0, 0;
    }

    /** logRingWrite: what fits is taken, the rest is counted. */
    method Write(data: seq<byte>) returns (n: nat)
      requires Valid()
      modifies this`head, this`dropped, cells
      ensures Valid() && n == Min(|data|, SIZE - old(Used()))
      ensures Contents() == old(Contents()) + data[..n]
      ensures dropped == Low32(old(dropped) + |data| - n)
    {
      var h, t := head, tail;
      ghost var used := Low32(h - t);
      var room := SIZE - Low32(h - t);
      n := |data|;
      if n > room {
        dropped := Low32(dropped + (n - room));
        n := room;
      } else {
        assert Low32(dropped) == dropped;
      }
      HeadIs(h, t);
      CopyIn(h, data[..n], t, used);
      head := Low32(h + n);
      HeadMoves(t, used, n);
    }

    /** The drain's read of the dropped counter, which starts it over. */
    method TakeDropped() returns (d: nat)
      requires Valid()
      modifies this`dropped
      ensures Valid() && d == old(dropped) && dropped == 0 && Contents() == old(Contents())
    {
      d := dropped;
      dropped := 0;
    }

    method CopyIn(h: nat, data: seq<byte>, ghost t: nat, ghost used: nat)
      requires cells.Length == SIZE && h == Low32(t + used) && used + |data| <= SIZE
      modifies cells
      ensures Span(cells[..], t, used + |data|) == old(Span(cells[..], t, used)) + data
    {
      ghost var was := Span(cells[..], t, used);
      assert was + data[..0] == was;
      var i := 0;
      while i < |data|
        invariant i <= |data| && Span(cells[..], t, used + i) == was + data[..i]
      {
        IndexAgrees(t + used, i);
        ghost var before := cells[..];
        cells[Index(Low32(h + i))] := data[i];
        assert cells[..] == before[Index(t + (used + i)) := data[i]];
        SpanGrows(before, t, used + i, data[i]);
        OneMoreByte(was, data, i);
        i := i + 1;
      }
      assert data[..|data|] == data;
    }

    /** logRingRead: the oldest bytes, at most maxLen. */
    method Read(maxLen: nat) returns (buf: seq<byte>)
      requires Valid()
      modifies this`tail
      ensures Valid() && |buf| == Min(old(Used()), maxLen)
      ensures old(Contents()) == buf + Contents()
    {
      var h, t := head, tail;
      var avail := Low32(h - t);
      ghost var used := avail;
      if avail == 0 { return []; }
      if avail > maxLen { avail := maxLen; }
      buf := CopyOut(t, avail);
      TailMoves(h, t, avail);
      tail := Low32(t + avail);
      TakenOff(cells[..], t, used, avail);
    }

    method CopyOut(t: nat, n: nat) returns (buf: seq<byte>)
      requires cells.Length == SIZE && t < U32
      ensures buf == Span(cells[..], t, n)
    {
      buf := [];
      var i := 0;
      while i < n
        invariant i <= n && buf == Span(cells[..], t, i)
      {
        IndexAgrees(t, i);
        buf := buf + [cells[Index(Low32(t + i))]];
        i := i + 1;
      }
    }
  }

  lemma HeadIs(head: nat, tail: nat)
    requires head < U32 && tail < U32
    ensures head == Low32(tail + Low32(head - tail))
  {
  }

  lemma HeadMoves(tail: nat, used: nat, n: nat)
    requires tail < U32 && used + n <= SIZE
    ensures Low32(Low32(Low32(tail + used) + n) - tail) == used + n
  {
  }

  lemma TailMoves(head: nat, tail: nat, n: nat)
    requires head < U32 && tail < U32 && n <= Low32(head - tail) <= SIZE
    ensures Low32(head - Low32(tail + n)) == Low32(head - tail) - n
  {
  }

  // ---- Writers and reader interleaved ----

  datatype Writer = NoWriter | Writing(data: seq<byte>, i: nat)
  datatype Reader = NoReader | Copying(n: nat, buf: seq<byte>)

  datatype State = State(
    cells: seq<byte>,
    head: nat, tail: nat, dropped: nat,
    writer: Writer,                 // whoever holds the spinlock
    reader: Reader,
    log: seq<byte>,                 // history: bytes accepted and published, in order
    read: seq<byte>,                // history: bytes returned by finished reads, in order
    offered: nat, refused: nat,     // history: bytes given to writes, and bytes not taken
    reported: nat)                  // history: what the drain has read off the dropped counter

  datatype Action =
    | StartWrite(data: seq<byte>)
    | PutByte
    | PublishHead
    | StartRead(maxLen: nat)
    | CopyByte
    | PublishTail
    | TakeDropped                   // the drain reads and zeroes the counter under the lock

  predicate Enabled(s: State, a: Action) {
    && |s.cells| == SIZE
    && match a
       case StartWrite(_) => s.writer.NoWriter? && Low32(s.head - s.tail) <= SIZE
       case PutByte => s.writer.Writing? && s.writer.i < |s.writer.data|
       case PublishHead => s.writer.Writing? && s.writer.i == |s.writer.data|
       case StartRead(_) => s.reader.NoReader?
       case CopyByte => s.reader.Copying? && |s.reader.buf| < s.reader.n
       case PublishTail => s.reader.Copying? && |s.reader.buf| == s.reader.n
       case TakeDropped => s.writer.NoWriter?
  }

  function Do(s: State, a: Action): State
    requires Enabled(s, a)
  {
    match a
    case StartWrite(data) =>
      var n := Min(|data|, SIZE - Low32(s.head - s.tail));
      s.(writer := Writing(data[..n], 0), dropped := Low32(s.dropped + (|data| - n)),
         offered := s.offered + |data|, refused := s.refused + (|data| - n))
    case PutByte =>
      s.(cells := s.cells[Index(Low32(s.head + s.writer.i)) := s.writer.data[s.writer.i]],
         writer := Writing(s.writer.data, s.writer.i + 1))
    case PublishHead =>
      s.(head := Low32(s.head + |s.writer.data|), log := s.log + s.writer.data, writer := NoWriter)
    case StartRead(maxLen) => s.(reader := Copying(Min(Low32(s.head - s.tail), maxLen), []))
    case CopyByte =>
      s.(reader := Copying(s.reader.n, s.reader.buf + [s.cells[Index(Low32(s.tail + |s.reader.buf|))]]))
    case PublishTail =>
      s.(tail := Low32(s.tail + s.reader.n), read := s.read + s.reader.buf, reader := NoReader)
    case TakeDropped => s.(reported := s.reported + s.dropped, dropped := 0)
  }

  /** An empty ring, its counters at any value: the run may start close to the wrap. */
  predicate Init(s: State, base: nat) {
    && |s.cells| == SIZE && s.head == s.tail == Low32(base) && s.dropped == 0
    && s.writer.NoWriter? && s.reader.NoReader? && s.log == [] && s.read == [] && s.offered == 0 && s.refused == 0 && s.reported == 0
  }

  ghost predicate Next(s: State, s': State) {
    exists a :: Enabled(s, a) && s' == Do(s, a)
  }

  ghost predicate StepAt(run: seq<State>, i: nat)
    requires i + 1 < |run|
  {
    Next(run[i], run[i + 1])
  }

  ghost predicate IsRun(run: seq<State>, base: nat) {
    && |run| > 0 && Init(run[0], base)
    && forall i :: 0 <= i < |run| - 1 ==> StepAt(run, i)
  }

  /** Bytes of the write in progress that are in the ring but not yet published. */
  function Pending(s: State): seq<byte> {
    if s.writer.Writing? && s.writer.i <= |s.writer.data| then s.writer.data[..s.writer.i] else []
  }

  function Claimed(s: State): seq<byte> { if s.writer.Writing? then s.writer.data else [] }

  ghost predicate Counters(s: State, base: nat) {
    && |s.cells| == SIZE && |s.read| <= |s.log|
    && s.head == Low32(base + |s.log|) && s.tail == Low32(base + |s.read|)
    && |s.log| - |s.read| + |Claimed(s)| <= SIZE
    && (s.writer.Writing? ==> s.writer.i <= |s.writer.data|)
  }

  /** Bytes in the ring: published and not read, then those not yet published. */
  function Waiting(s: State): seq<byte>
    requires |s.read| <= |s.log|
  {
    s.log[|s.read|..] + Pending(s)
  }

  ghost predicate Stored(cells: seq<byte>, start: nat, bytes: seq<byte>)
    requires |cells| == SIZE
  {
    Span(cells, start, |bytes|) == bytes
  }

  ghost predicate CellsOk(s: State, base: nat)
    requires |s.cells| == SIZE && |s.read| <= |s.log|
  {
    s.read <= s.log && Stored(s.cells, base + |s.read|, Waiting(s))
  }

  ghost predicate ReaderOk(s: State) {
    s.reader.Copying? ==>
      && |s.reader.buf| <= s.reader.n && |s.read| + s.reader.n <= |s.log|
      && s.reader.buf == s.log[|s.read|..|s.read| + |s.reader.buf|]
  }

  ghost predicate Tallied(s: State) {
    && s.offered == |s.log| + |Claimed(s)| + s.refused
    && s.dropped < U32 && Low32(s.reported + s.dropped) == Low32(s.refused) && s.reported + s.dropped <= s.refused
  }

  ghost predicate Inv(s: State, base: nat) {
    && Counters(s, base) && ReaderOk(s) && Tallied(s)
    && CellsOk(s, base)
  }

  lemma Distance(s: State, base: nat)
    requires Counters(s, base)
    ensures Low32(s.head - s.tail) == |s.log| - |s.read| <= SIZE
  {
    DifferenceAgrees(base + |s.log|, base + |s.read|);
  }

  lemma StartWriteInv(s: State, data: seq<byte>, base: nat)
    requires Inv(s, base) && Enabled(s, StartWrite(data))
    ensures Inv(Do(s, StartWrite(data)), base)
  {
    StartWriteIs(s, data, base);
    var n := Min(|data|, SIZE - (|s.log| - |s.read|));
    CountedOn(s, |data| - n);
    Began(s, Do(s, StartWrite(data)), data[..n], |data| - n, base);
  }

  lemma CountedOn(s: State, more: nat)
    requires Tallied(s)
    ensures var dropped := Low32(s.dropped + more);
            Low32(s.reported + dropped) == Low32(s.refused + more) && dropped <= s.dropped + more
  {
    Low32Moves(s.reported, s.dropped, s.refused, more);
  }

  lemma StartWriteIs(s: State, data: seq<byte>, base: nat)
    requires Counters(s, base) && Enabled(s, StartWrite(data))
    ensures var n := Min(|data|, SIZE - (|s.log| - |s.read|));
            Do(s, StartWrite(data)) ==
            s.(writer := Writing(data[..n], 0), dropped := Low32(s.dropped + (|data| - n)),
               offered := s.offered + |data|, refused := s.refused + (|data| - n))
  {
    Distance(s, base);
  }

  /** A write has begun: some bytes are claimed, the others refused. */
  lemma Began(s: State, s': State, taken: seq<byte>, more: nat, base: nat)
    requires Inv(s, base) && s.writer.NoWriter? && |s.log| - |s.read| + |taken| <= SIZE
    requires s' == s.(writer := Writing(taken, 0), dropped := s'.dropped,
                      offered := s.offered + |taken| + more, refused := s.refused + more)
    requires s'.dropped < U32 && Low32(s.reported + s'.dropped) == Low32(s.refused + more) && s'.dropped <= s.dropped + more
    ensures Inv(s', base)
  {
    assert Pending(s') == Pending(s) == [];
    assert Waiting(s') == Waiting(s);
  }

  /** Counting on modulo 2^32 keeps what was reported and what is on the counter together. */
  lemma Low32Moves(reported: nat, dropped: nat, refused: nat, more: nat)
    requires Low32(reported + dropped) == Low32(refused)
    ensures Low32(reported + Low32(dropped + more)) == Low32(refused + more)
  {
    Low32Adds(dropped + more, reported);
    Low32Adds(reported + dropped, more);
    Low32Adds(refused, more);
    assert dropped + more + reported == reported + dropped + more;
  }

  lemma TakeDroppedInv(s: State, base: nat)
    requires Inv(s, base) && Enabled(s, TakeDropped)
    ensures Inv(Do(s, TakeDropped), base)
  {
  }

  lemma PutByteInv(s: State, base: nat)
    requires Inv(s, base) && Enabled(s, PutByte)
    ensures Inv(Do(s, PutByte), base)
  {
    PutByteIs(s, base);
    Put(s, Do(s, PutByte), base);
  }

  lemma PutByteIs(s: State, base: nat)
    requires Counters(s, base) && Enabled(s, PutByte)
    ensures Do(s, PutByte) ==
            s.(cells := s.cells[Index(base + |s.log| + s.writer.i) := s.writer.data[s.writer.i]],
               writer := Writing(s.writer.data, s.writer.i + 1))
  {
    IndexAgrees(base + |s.log|, s.writer.i);
  }

  lemma Put(s: State, s': State, base: nat)
    requires Inv(s, base) && s.writer.Writing? && s.writer.i < |s.writer.data|
    requires s' == s.(cells := s.cells[Index(base + |s.log| + s.writer.i) := s.writer.data[s.writer.i]],
                      writer := Writing(s.writer.data, s.writer.i + 1))
    ensures Inv(s', base)
  {
    OneMorePending(s, s'.cells, base);
    PutKeeps(s, s', base);
  }

  /** Everything but the cells is as it was. */
  lemma PutKeeps(s: State, s': State, base: nat)
    requires Counters(s, base) && ReaderOk(s) && Tallied(s) && s.writer.Writing? && s.writer.i < |s.writer.data|
    requires |s'.cells| == SIZE && s' == s.(cells := s'.cells, writer := Writing(s.writer.data, s.writer.i + 1))
    ensures Counters(s', base) && ReaderOk(s') && Tallied(s')
  {
  }

  lemma OneMorePending(s: State, cells: seq<byte>, base: nat)
    requires Counters(s, base) && CellsOk(s, base) && s.writer.Writing? && s.writer.i < |s.writer.data|
    requires cells == s.cells[Index(base + |s.log| + s.writer.i) := s.writer.data[s.writer.i]]
    ensures CellsOk(s.(cells := cells, writer := Writing(s.writer.data, s.writer.i + 1)), base)
  {
    var s' := s.(cells := cells, writer := Writing(s.writer.data, s.writer.i + 1));
    StoredGrows(s.cells, base + |s.read|, Waiting(s), s.writer.data[s.writer.i]);
    WaitingGrows(s, s');
    assert base + |s.log| + s.writer.i == base + |s.read| + |Waiting(s)|;
  }

  lemma StoredGrows(cells: seq<byte>, start: nat, bytes: seq<byte>, b: byte)
    requires |cells| == SIZE && |bytes| < SIZE && Stored(cells, start, bytes)
    ensures Stored(cells[Index(start + |bytes|) := b], start, bytes + [b])
  {
    SpanGrows(cells, start, |bytes|, b);
  }

  lemma WaitingGrows(s: State, s': State)
    requires s.writer.Writing? && s.writer.i < |s.writer.data| && |s.read| <= |s.log|
    requires s' == s.(cells := s'.cells, writer := Writing(s.writer.data, s.writer.i + 1))
    ensures Waiting(s') == Waiting(s) + [s.writer.data[s.writer.i]]
  {
    OneMoreByte(s.log[|s.read|..], s.writer.data, s.writer.i);
  }

  lemma PublishHeadInv(s: State, base: nat)
    requires Inv(s, base) && Enabled(s, PublishHead)
    ensures Inv(Do(s, PublishHead), base)
  {
    var data := s.writer.data;
    Low32Adds(base + |s.log|, |data|);
    assert Pending(s) == data by { assert data[..|data|] == data; }
    AllPublished(s, base);
    ReaderUntouched(s, s.log + data);
  }

  lemma AllPublished(s: State, base: nat)
    requires Counters(s, base) && CellsOk(s, base) && s.writer.Writing? && Pending(s) == s.writer.data
    ensures CellsOk(s.(log := s.log + s.writer.data, writer := NoWriter), base)
  {
    WaitingPublished(s);
  }

  lemma WaitingPublished(s: State)
    requires |s.read| <= |s.log| && s.writer.Writing? && Pending(s) == s.writer.data
    ensures Waiting(s.(log := s.log + s.writer.data, writer := NoWriter)) == Waiting(s)
  {
    var data := s.writer.data;
    assert (s.log + data)[|s.read|..] == s.log[|s.read|..] + data;
    assert s.log[|s.read|..] + data + [] == s.log[|s.read|..] + data;
  }

  lemma ReaderUntouched(s: State, log: seq<byte>)
    requires |s.read| <= |s.log| && ReaderOk(s) && s.log <= log
    ensures ReaderOk(s.(log := log, writer := NoWriter))
  {
    if s.reader.Copying? {
      var d, k := |s.read|, |s.reader.buf|;
      assert log[d..d + k] == s.log[d..d + k];
    }
  }

  lemma Low32Adds(n: nat, k: nat)
    ensures Low32(Low32(n) + k) == Low32(n + k)
  {
  }

  lemma StartReadInv(s: State, maxLen: nat, base: nat)
    requires Inv(s, base) && Enabled(s, StartRead(maxLen))
    ensures Inv(Do(s, StartRead(maxLen)), base)
  {
    Distance(s, base);
  }

  lemma CopyByteInv(s: State, base: nat)
    requires Inv(s, base) && Enabled(s, CopyByte)
    ensures Inv(Do(s, CopyByte), base)
  {
    CopyByteIs(s, base);
    Copied(s, Do(s, CopyByte), base);
  }

  lemma CopyByteIs(s: State, base: nat)
    requires Counters(s, base) && CellsOk(s, base) && ReaderOk(s) && Enabled(s, CopyByte)
    ensures |s.read| + |s.reader.buf| < |s.log|
    ensures Do(s, CopyByte) ==
            s.(reader := Copying(s.reader.n, s.reader.buf + [s.log[|s.read| + |s.reader.buf|]]))
  {
    IndexAgrees(base + |s.read|, |s.reader.buf|);
    WaitingByte(s, base, |s.reader.buf|);
  }

  lemma Copied(s: State, s': State, base: nat)
    requires Inv(s, base) && s.reader.Copying? && |s.reader.buf| < s.reader.n
    requires s' == s.(reader := Copying(s.reader.n, s.reader.buf + [s.log[|s.read| + |s.reader.buf|]]))
    ensures Inv(s', base)
  {
    BufGrows(s, s.log[|s.read| + |s.reader.buf|]);
    CopyKeeps(s, s'.reader, base);
  }

  lemma CopyKeeps(s: State, reader: Reader, base: nat)
    requires Counters(s, base) && CellsOk(s, base) && Tallied(s)
    ensures var s' := s.(reader := reader); Counters(s', base) && CellsOk(s', base) && Tallied(s')
  {
  }

  lemma BufGrows(s: State, b: byte)
    requires |s.read| <= |s.log| && s.reader.Copying? && ReaderOk(s) && |s.reader.buf| < s.reader.n
    requires b == s.log[|s.read| + |s.reader.buf|]
    ensures ReaderOk(s.(reader := Copying(s.reader.n, s.reader.buf + [b])))
  {
    var d, k := |s.read|, |s.reader.buf|;
    assert s.log[d..d + k + 1] == s.log[d..d + k] + [b];
  }

  /** The k-th byte waiting is in its cell. */
  lemma WaitingByte(s: State, base: nat, k: nat)
    requires Counters(s, base) && CellsOk(s, base) && |s.read| + k < |s.log|
    ensures s.cells[Index(base + |s.read| + k)] == s.log[|s.read| + k]
  {
    assert Span(s.cells, base + |s.read|, |Waiting(s)|)[k] == Waiting(s)[k];
  }

  lemma PublishTailInv(s: State, base: nat)
    requires Inv(s, base) && Enabled(s, PublishTail)
    ensures Inv(Do(s, PublishTail), base)
  {
    Low32Adds(base + |s.read|, s.reader.n);
    assert base + |s.read| + s.reader.n == base + (|s.read| + s.reader.n);
    TailCells(s, base);
  }

  lemma TailCells(s: State, base: nat)
    requires Counters(s, base) && CellsOk(s, base) && ReaderOk(s) && s.reader.Copying? && |s.reader.buf| == s.reader.n
    ensures CellsOk(s.(read := s.read + s.reader.buf), base)
  {
    var d, n := |s.read|, s.reader.n;
    StoredShrinks(s.cells, base + d, Waiting(s), n);
    FrontTaken(s.log, d, n, Pending(s));
    assert base + d + n == base + (d + n);
    assert s.read + s.reader.buf == s.log[..d + n];
  }

  lemma StoredShrinks(cells: seq<byte>, start: nat, bytes: seq<byte>, n: nat)
    requires |cells| == SIZE && n <= |bytes| && Stored(cells, start, bytes)
    ensures Stored(cells, start + n, bytes[n..])
  {
    SpanDrops(cells, start, |bytes|, n);
  }

  lemma FrontTaken(log: seq<byte>, d: nat, n: nat, pending: seq<byte>)
    requires d + n <= |log|
    ensures (log[d..] + pending)[n..] == log[d + n..] + pending
    ensures log[..d] + log[d..d + n] == log[..d + n]
  {
  }

  lemma NextInv(s: State, s': State, base: nat)
    requires Inv(s, base) && Next(s, s')
    ensures Inv(s', base)
  {
    var a :| Enabled(s, a) && s' == Do(s, a);
    match a
    case StartWrite(data) => StartWriteInv(s, data, base);
    case PutByte => PutByteInv(s, base);
    case PublishHead => PublishHeadInv(s, base);
    case StartRead(maxLen) => StartReadInv(s, maxLen, base);
    case CopyByte => CopyByteInv(s, base);
    case PublishTail => PublishTailInv(s, base);
    case TakeDropped => TakeDroppedInv(s, base);
  }

  lemma {:induction false} RunInv(run: seq<State>, base: nat, i: nat)
    requires IsRun(run, base) && i < |run|
    ensures Inv(run[i], base)
  {
    if i == 0 {
      assert Waiting(run[0]) == [];
    } else {
      RunInv(run, base, i - 1);
      assert StepAt(run, i - 1);
      NextInv(run[i - 1], run[i], base);
    }
  }

  // ---- What a run guarantees ----

  /** Reads return exactly the accepted bytes in order, also while a write or a read is
      half done and across any wrap of the counters. */
  lemma ReadsAreFifo(run: seq<State>, base: nat, i: nat)
    requires IsRun(run, base) && i < |run|
    ensures run[i].read <= run[i].log
    ensures run[i].reader.Copying? ==> run[i].read + run[i].reader.buf <= run[i].log
  {
    RunInv(run, base, i);
    var s := run[i];
    if s.reader.Copying? {
      assert s.log[..|s.read|] + s.log[|s.read|..|s.read| + |s.reader.buf|] == s.log[..|s.read| + |s.reader.buf|];
    }
  }

  /** The counters' 32-bit difference is the number of bytes waiting, at most the ring. */
  lemma FillIsBounded(run: seq<State>, base: nat, i: nat)
    requires IsRun(run, base) && i < |run|
    ensures Low32(run[i].head - run[i].tail) == |run[i].log| - |run[i].read| <= SIZE
    ensures run[i].writer.NoWriter? ==> forall data :: Enabled(run[i], StartWrite(data))
  {
    RunInv(run, base, i);
    Distance(run[i], base);
  }

  /** Every byte offered was accepted or refused, and modulo 2^32 the refused ones are what
      the drain has reported so far and what is still on the counter. */
  lemma OfferedIsAcceptedPlusDropped(run: seq<State>, base: nat, i: nat)
    requires IsRun(run, base) && i < |run| && run[i].writer.NoWriter?
    ensures run[i].offered == |run[i].log| + run[i].refused && Low32(run[i].reported + run[i].dropped) == Low32(run[i].refused)
    ensures run[i].refused < U32 ==> run[i].refused == run[i].reported + run[i].dropped
  {
    RunInv(run, base, i);
  }

  /** Nothing is refused while it would fit: a write refuses only what exceeds the room
      left by the bytes not yet read. */
  lemma RefusesOnlyOverflow(run: seq<State>, base: nat, i: nat, data: seq<byte>)
    requires IsRun(run, base) && i < |run| && Enabled(run[i], StartWrite(data))
    ensures var s, s' := run[i], Do(run[i], StartWrite(data));
            && |s.log| - |s.read| <= SIZE
            && s'.writer.data == data[..Min(|data|, SIZE - (|s.log| - |s.read|))]
            && (s'.refused > s.refused <==> |s.log| - |s.read| + |data| > SIZE)
  {
    FillIsBounded(run, base, i);
  }
}
