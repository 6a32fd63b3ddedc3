/** The factory reset's walk over the flash: erase and overwrite, chunk by chunk, low to high. */
module WipeLoop {
  import opened Machine
  import opened StreamBuffers

  const MAX_BUFFER: nat := 65536

  /** A flash operation, in the order issued, and whether the chip reported success. */
  datatype Op = Erase(at: nat, size: nat, ok: bool) | Write(at: nat, size: nat, ok: bool)

  /** The buffer sizes the allocation loop can end on. */
  predicate Reachable(bufLen: nat) { bufLen == 65536 || bufLen == 16384 || bufLen == 4096 }

  /** The allocator can give one of them. */
  predicate AnyRoom(hasRoom: nat -> bool) { hasRoom(65536) || hasRoom(16384) || hasRoom(4096) }

  /** No flash operation fails. */
  ghost predicate NoErrors(eraseOk: nat -> bool, writeOk: nat -> bool) {
    forall at: nat :: eraseOk(at) && writeOk(at)
  }

  /** The allocation loop: a quarter of the size after each failure, down to one sector. */
  method AllocateBuffer(hasRoom: nat -> bool) returns (bufLen: nat, found: bool)
    ensures found <==> AnyRoom(hasRoom)
    ensures found ==> Reachable(bufLen) && hasRoom(bufLen)
    ensures found ==> forall n: nat :: Reachable(n) && n > bufLen ==> !hasRoom(n)
  {
    bufLen := MAX_BUFFER;
    while bufLen >= SECTOR && !hasRoom(bufLen)
      invariant Reachable(bufLen) || bufLen == 1024
      invariant forall n: nat :: Reachable(n) && n > bufLen ==> !hasRoom(n)
    {
      bufLen := bufLen / 4;
    }
    found := bufLen >= SECTOR;
  }

  function Down(n: nat): nat { n - n % SECTOR }

  /** What is left of the buffer-sized block the offset is in. */
  function ToBoundary(bufLen: nat, off: nat): nat
    requires bufLen > 0
  {
    bufLen - off % bufLen
  }

  /** One chunk: up to the next buffer boundary, not past the end, whole sectors only. */
  function Chunk(bufLen: nat, off: nat, end: nat): nat
    requires bufLen > 0 && off < end
  {
    Down(Min(ToBoundary(bufLen, off), end - off))
  }

  lemma DownBounds(n: nat)
    ensures Down(n) % SECTOR == 0 && Down(n) <= n < Down(n) + SECTOR
    ensures n % SECTOR == 0 <==> Down(n) == n
    ensures Down(n) == 0 <==> n < SECTOR
  {
  }

  lemma SumIsAligned(a: nat, b: nat)
    requires a % SECTOR == 0
    ensures (a + b) % SECTOR == b % SECTOR
  {
  }

  /** From the offset to the boundary it is as far off a sector as the offset itself. */
  lemma Boundary(bufLen: nat, off: nat)
    requires Reachable(bufLen)
    ensures 0 < ToBoundary(bufLen, off) <= bufLen && (ToBoundary(bufLen, off) + off) % SECTOR == 0
  {
    if bufLen == 65536 { Boundary64K(off); } else if bufLen == 16384 { Boundary16K(off); } else { Boundary4K(off); }
  }

  lemma Boundary64K(off: nat)
    ensures (65536 - off % 65536 + off) % SECTOR == 0
  {
    assert 65536 - off % 65536 + off == 65536 * (off / 65536 + 1);
  }

  lemma Boundary16K(off: nat)
    ensures (16384 - off % 16384 + off) % SECTOR == 0
  {
    assert 16384 - off % 16384 + off == 16384 * (off / 16384 + 1);
  }

  lemma Boundary4K(off: nat)
    ensures (4096 - off % 4096 + off) % SECTOR == 0
  {
    assert 4096 - off % 4096 + off == 4096 * (off / 4096 + 1);
  }

  lemma BoundaryIsWholeSectors(bufLen: nat, off: nat)
    requires Reachable(bufLen) && off % SECTOR == 0
    ensures ToBoundary(bufLen, off) % SECTOR == 0 && ToBoundary(bufLen, off) >= SECTOR
  {
    Boundary(bufLen, off);
    SumIsAligned(off, ToBoundary(bufLen, off));
    DownBounds(ToBoundary(bufLen, off));
  }

  lemma ChunkIsWholeSectors(bufLen: nat, off: nat, end: nat)
    requires Reachable(bufLen) && off < end
    ensures var c := Chunk(bufLen, off, end);
            && c % SECTOR == 0 && c <= bufLen && off + c <= end
            && (off % SECTOR == 0 ==> (off + c) % SECTOR == 0 && (c == 0 <==> end - off < SECTOR))
  {
    Boundary(bufLen, off);
    DownBounds(Min(ToBoundary(bufLen, off), end - off));
    if off % SECTOR == 0 {
      BoundaryIsWholeSectors(bufLen, off);
      SumIsAligned(off, Chunk(bufLen, off, end));
    }
  }

  /** Where the walk comes to a halt when no flash operation fails: at the last whole sector
      of the extent; but from a start off the sector grid at the first buffer boundary, as
      no whole sector is left before it. */
  function Halt(bufLen: nat, start: nat, total: nat): nat
    requires bufLen > 0
  {
    start + if start % SECTOR == 0 then Down(total) else Down(Min(ToBoundary(bufLen, start), total))
  }

  /** All whole sectors of the extent are done if and only if it starts on a sector, or
      they all lie before the first buffer boundary. */
  lemma WholeExtentIff(bufLen: nat, start: nat, total: nat)
    requires Reachable(bufLen)
    ensures Halt(bufLen, start, total) == start + Down(total) <==>
            start % SECTOR == 0 || Down(total) <= ToBoundary(bufLen, start)
  {
    DownBounds(total);
    DownBounds(ToBoundary(bufLen, start));
    DownIsMonotone(Down(total), ToBoundary(bufLen, start));
  }

  lemma DownIsMonotone(a: nat, b: nat)
    requires a % SECTOR == 0
    ensures a <= b ==> a <= Down(b)
  {
  }

  /** With a one-sector buffer and a start off the sector grid, nothing at all is wiped. */
  lemma UnalignedSectorBufferWipesNothing(start: nat, total: nat)
    requires start % SECTOR != 0
    ensures Halt(SECTOR, start, total) == start
  {
    DownBounds(Min(ToBoundary(SECTOR, start), total));
  }

  /** Less than a sector before the end, or before the boundary, leaves no chunk. */
  lemma NoChunkLeft(bufLen: nat, off: nat, end: nat)
    requires bufLen > 0 && off < end && (end - off < SECTOR || ToBoundary(bufLen, off) < SECTOR)
    ensures Chunk(bufLen, off, end) == 0
  {
    DownBounds(Min(ToBoundary(bufLen, off), end - off));
  }

  /** Off the grid, the chunk after the first is empty. */
  lemma HaltsOffGrid(bufLen: nat, start: nat, total: nat)
    requires Reachable(bufLen) && start % SECTOR != 0 && Halt(bufLen, start, total) < start + total
    ensures Chunk(bufLen, Halt(bufLen, start, total), start + total) == 0
  {
    var b := ToBoundary(bufLen, start);
    if b <= total {
      ShortOfBoundary(bufLen, start);
    } else {
      DownBounds(total);
    }
    NoChunkLeft(bufLen, Halt(bufLen, start, total), start + total);
  }

  lemma ShortOfBoundary(bufLen: nat, start: nat)
    requires Reachable(bufLen) && start % SECTOR != 0
    ensures ToBoundary(bufLen, start + Down(ToBoundary(bufLen, start))) < SECTOR
  {
    var b := ToBoundary(bufLen, start);
    Boundary(bufLen, start);
    DownBounds(b);
    if b % SECTOR == 0 { SumIsAligned(b, start); }
    RestOfBlock(bufLen, start, Down(b));
  }

  lemma RestOfBlock(bufLen: nat, start: nat, c: nat)
    requires Reachable(bufLen) && c < ToBoundary(bufLen, start)
    ensures ToBoundary(bufLen, start + c) == ToBoundary(bufLen, start) - c
  {
    if bufLen == 65536 { Rest64K(start, c); } else if bufLen == 16384 { Rest16K(start, c); } else { Rest4K(start, c); }
  }

  lemma Rest64K(start: nat, c: nat)
    requires c < 65536 - start % 65536
    ensures (start + c) % 65536 == start % 65536 + c
  {
  }

  lemma Rest16K(start: nat, c: nat)
    requires c < 16384 - start % 16384
    ensures (start + c) % 16384 == start % 16384 + c
  {
  }

  lemma Rest4K(start: nat, c: nat)
    requires c < 4096 - start % 4096
    ensures (start + c) % 4096 == start % 4096 + c
  {
  }

  // ---- What the operations amount to ----

  /** Successful erase and write pairs covering [start, off) without gap or overlap, each a
      whole number of sectors and no larger than the buffer. */
  ghost predicate Covers(ops: seq<Op>, bufLen: nat, start: nat, off: nat)
    decreases |ops|
  {
    if ops == [] then start == off
    else
      && |ops| >= 2
      && var w, e := ops[|ops| - 1], ops[|ops| - 2];
      && e == Erase(e.at, e.size, true) && w == Write(e.at, e.size, true)
      && 0 < e.size <= bufLen && e.size % SECTOR == 0 && e.at + e.size == off && e.at >= start
      && Covers(ops[..|ops| - 2], bufLen, start, e.at)
  }

  /** How often a sector was erased, and written. */
  function Erased(ops: seq<Op>, at: nat): nat {
    if ops == [] then 0
    else Erased(ops[..|ops| - 1], at) + if ops[|ops| - 1].Erase? && Within(ops[|ops| - 1], at) then 1 else 0
  }

  function Written(ops: seq<Op>, at: nat): nat {
    if ops == [] then 0
    else Written(ops[..|ops| - 1], at) + if ops[|ops| - 1].Write? && Within(ops[|ops| - 1], at) then 1 else 0
  }

  predicate Within(op: Op, at: nat) { op.at <= at < op.at + op.size }

  /** Every byte of the stretch was erased once and written once, and no other byte was. */
  lemma {:induction false} CoveredOnce(ops: seq<Op>, bufLen: nat, start: nat, off: nat, at: nat)
    requires Covers(ops, bufLen, start, off)
    ensures start <= off
    ensures Erased(ops, at) == Written(ops, at) == if start <= at < off then 1 else 0
    decreases |ops|
  {
    if ops == [] {
    } else {
      var e := ops[|ops| - 2];
      CoveredOnce(ops[..|ops| - 2], bufLen, start, e.at, at);
      assert ops[..|ops| - 1][..|ops| - 2] == ops[..|ops| - 2];
    }
  }

  /** Low to high: whenever a byte has been overwritten, all bytes below it in the stretch
      have been too, at that very point of the wipe. */
  lemma {:induction false} AscendingOrder(ops: seq<Op>, bufLen: nat, start: nat, off: nat, k: nat)
    requires Covers(ops, bufLen, start, off) && k <= |ops| && k % 2 == 0
    ensures exists mid :: start <= mid <= off && Covers(ops[..k], bufLen, start, mid)
    decreases |ops| - k
  {
    CoveredOnce(ops, bufLen, start, off, start);
    if k == |ops| {
      assert ops[..k] == ops;
    } else {
      EvenLength(ops, bufLen, start, off);
      AscendingOrder(ops, bufLen, start, off, k + 2);
      var mid :| start <= mid <= off && Covers(ops[..k + 2], bufLen, start, mid);
      assert ops[..k + 2][..k] == ops[..k];
    }
  }

  lemma {:induction false} EvenLength(ops: seq<Op>, bufLen: nat, start: nat, off: nat)
    requires Covers(ops, bufLen, start, off)
    ensures |ops| % 2 == 0
    decreases |ops|
  {
    if ops == [] {
    } else {
      EvenLength(ops[..|ops| - 2], bufLen, start, ops[|ops| - 2].at);
    }
  }

  /** How far the walk has come: on the grid anywhere, off the grid at its start or its halt. */
  predicate OnCourse(bufLen: nat, start: nat, total: nat, off: nat)
    requires bufLen > 0
  {
    && start <= off <= start + total
    && (start % SECTOR == 0 ==> off % SECTOR == 0)
    && (start % SECTOR != 0 ==> off == start || off == Halt(bufLen, start, total))
  }

  lemma StaysOnCourse(bufLen: nat, start: nat, total: nat, off: nat)
    requires Reachable(bufLen) && OnCourse(bufLen, start, total, off) && off < start + total
    ensures var c := Chunk(bufLen, off, start + total);
            if c == 0 then off == Halt(bufLen, start, total) else OnCourse(bufLen, start, total, off + c)
  {
    ChunkIsWholeSectors(bufLen, off, start + total);
    if start % SECTOR == 0 {
      if start + total - off < SECTOR { TailIsShort(start, total, off); }
    } else if off == Halt(bufLen, start, total) {
      HaltsOffGrid(bufLen, start, total);
    }
  }

  lemma EndIsHalt(bufLen: nat, start: nat, total: nat)
    requires Reachable(bufLen) && OnCourse(bufLen, start, total, start + total)
    ensures start + total == Halt(bufLen, start, total)
  {
    if start % SECTOR == 0 {
      TailIsShort(start, total, start + total);
    } else if total == 0 {
      DownBounds(Min(ToBoundary(bufLen, start), total));
    }
  }

  /** The loop of fsWipeFlashState.  `eraseOk` and `writeOk` are the chip's answers by
      offset.  At every point [start, off) is done; a failure leaves at most one more chunk
      half done; success ends at the halt, which for a start on a sector leaves out only a
      tail shorter than a sector. */
  method Wipe(start: nat, total: nat, bufLen: nat, eraseOk: nat -> bool, writeOk: nat -> bool)
    returns (ok: bool, off: nat, ops: seq<Op>, tail: seq<Op>)
    requires Reachable(bufLen)
    ensures Covers(ops, bufLen, start, off) && off <= start + total
    ensures ok ==> tail == [] && off == Halt(bufLen, start, total)
    ensures ok && start % SECTOR == total % SECTOR == 0 ==> off == start + total
    ensures NoErrors(eraseOk, writeOk) ==> ok
    ensures !ok ==> off < start + total
    ensures !ok ==> var c := Chunk(bufLen, off, start + total);
                    tail == [Erase(off, c, false)] || tail == [Erase(off, c, true), Write(off, c, false)]
  {
    var end := start + total;
    off, ok, ops, tail := start, true, [], [];
    while off < end
      invariant OnCourse(bufLen, start, total, off) && ok && tail == []
      invariant Covers(ops, bufLen, start, off)
      decreases end - off
    {
      var chunk := Chunk(bufLen, off, end);
      ChunkIsWholeSectors(bufLen, off, end);
      StaysOnCourse(bufLen, start, total, off);
      if chunk == 0 { return; }
      ok, tail := WipeChunk(off, chunk, eraseOk, writeOk);
      if !ok { return; }
      CoversOneMore(ops, bufLen, start, off, chunk);
      ops, tail := ops + tail, [];
      off := off + chunk;
    }
    EndIsHalt(bufLen, start, total);
  }

  /** Erase, and if that went well overwrite. */
  method WipeChunk(off: nat, c: nat, eraseOk: nat -> bool, writeOk: nat -> bool) returns (ok: bool, ops: seq<Op>)
    ensures ok == (eraseOk(off) && writeOk(off))
    ensures ok ==> ops == [Erase(off, c, true), Write(off, c, true)]
    ensures !ok ==> ops == [Erase(off, c, false)] || ops == [Erase(off, c, true), Write(off, c, false)]
  {
    ok := eraseOk(off);
    ops := [Erase(off, c, ok)];
    if ok {
      ok := writeOk(off);
      ops := ops + [Write(off, c, ok)];
    }
  }

  lemma CoversOneMore(ops: seq<Op>, bufLen: nat, start: nat, off: nat, c: nat)
    requires Covers(ops, bufLen, start, off) && start <= off && 0 < c <= bufLen && c % SECTOR == 0
    ensures Covers(ops + [Erase(off, c, true), Write(off, c, true)], bufLen, start, off + c)
  {
    var more := ops + [Erase(off, c, true), Write(off, c, true)];
    assert more[..|more| - 2] == ops;
  }

  lemma TailIsShort(start: nat, total: nat, off: nat)
    requires start % SECTOR == 0 && off % SECTOR == 0 && start <= off <= start + total && start + total - off < SECTOR
    ensures off == start + Down(total)
  {
  }
}
