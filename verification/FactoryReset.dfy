/** The whole factory reset: the extent the boot code leaves, the buffer the allocator can
    give, and the walk over the flash. */
module FactoryReset {
  import opened Machine
  import FlashLayout
  import opened WipeLoop

  /** What was issued in a whole reset: the completed chunks and one that may have failed. */
  lemma CountsOneMore(ops: seq<Op>, op: Op, at: nat)
    ensures Erased(ops + [op], at) == Erased(ops, at) + if op.Erase? && Within(op, at) then 1 else 0
    ensures Written(ops + [op], at) == Written(ops, at) + if op.Write? && Within(op, at) then 1 else 0
  {
    assert (ops + [op])[..|ops|] == ops;
  }

  /** A failed chunk touches nothing outside itself. */
  lemma TailStaysInside(ops: seq<Op>, tail: seq<Op>, off: nat, c: nat, at: nat)
    requires tail == [] || tail == [Erase(off, c, false)] || tail == [Erase(off, c, true), Write(off, c, false)]
    requires !(off <= at < off + c)
    ensures Erased(ops + tail, at) == Erased(ops, at) && Written(ops + tail, at) == Written(ops, at)
  {
    if tail == [] {
      assert ops + tail == ops;
    } else {
      CountsOneMore(ops, tail[0], at);
      if |tail| == 1 {
        assert ops + tail == ops + [tail[0]];
      } else {
        CountsOneMore(ops + [tail[0]], tail[1], at);
        assert ops + tail == ops + [tail[0]] + [tail[1]];
      }
    }
  }

  /** fsWipeFlashState on the extent it was given.  Nothing outside the extent is touched,
      failure or not; from an aligned start success means every whole sector of it was
      erased and written exactly once. */
  method WipeFlashState(start: nat, total: nat, hasRoom: nat -> bool, eraseOk: nat -> bool, writeOk: nat -> bool)
    returns (ok: bool, ops: seq<Op>)
    requires start + total < U32
    ensures total == 0 || !AnyRoom(hasRoom) ==> !ok && ops == []
    ensures forall at: nat :: !(start <= at < start + total) ==> Erased(ops, at) == Written(ops, at) == 0
    ensures ok && start % SECTOR == 0 ==>
              forall at: nat :: Erased(ops, at) == Written(ops, at) == if start <= at < start + Down(total) then 1 else 0
    ensures total > 0 && AnyRoom(hasRoom) && NoErrors(eraseOk, writeOk) ==> ok
  {
    if total == 0 { return false, []; }
    var bufLen, found := AllocateBuffer(hasRoom);
    if !found { return false, []; }
    var off, done, tail;
    ok, off, done, tail := Wipe(start, total, bufLen, eraseOk, writeOk);
    ops := done + tail;
    forall at: nat | !(start <= at < start + total) ensures Erased(ops, at) == Written(ops, at) == 0 {
      CoveredOnce(done, bufLen, start, off, at);
      if ok {
        TailStaysInside(done, tail, off, 0, at);
      } else {
        ChunkIsWholeSectors(bufLen, off, start + total);
        TailStaysInside(done, tail, off, Chunk(bufLen, off, start + total), at);
      }
    }
    if ok {
      assert ops == done;
      forall at: nat ensures Erased(ops, at) == Written(ops, at) == if start <= at < off then 1 else 0 {
        CoveredOnce(done, bufLen, start, off, at);
      }
    }
  }

  /** Generated table, boot, reset: no byte below the builder's floor is ever erased or
      written, and on a chip of whole sectors success means every byte from the floor to the
      chip's end was erased once and written once.  Without flash errors, and with any of
      the three buffers to be had, it succeeds. */
  method ResetGenerated(flash: FlashLayout.Flash, a: FlashLayout.Args, chip: nat, sensed: nat,
                        hasRoom: nat -> bool, eraseOk: nat -> bool, writeOk: nat -> bool)
    returns (ok: bool, ops: seq<Op>)
    requires FlashLayout.Accepted(a) && a.fixedBytes >= 0 && FlashLayout.Floor(a) < sensed < U32 && chip < U32
    modifies flash
    ensures forall at: nat :: at < FlashLayout.Floor(a) || at >= sensed ==> Erased(ops, at) == Written(ops, at) == 0
    ensures ok && sensed % SECTOR == 0 ==>
              forall at: nat :: FlashLayout.Floor(a) <= at < sensed ==> Erased(ops, at) == Written(ops, at) == 1
    ensures AnyRoom(hasRoom) && NoErrors(eraseOk, writeOk) ==> ok
  {
    var start, total := flash.BootThenWipe(a, chip, sensed);
    FloorIsSector(a, sensed);
    ok, ops := WipeFlashState(start, total, hasRoom, eraseOk, writeOk);
  }

  lemma FloorIsSector(a: FlashLayout.Args, sensed: nat)
    requires FlashLayout.Accepted(a) && a.fixedBytes >= 0 && FlashLayout.Floor(a) < sensed < U32
    ensures FlashLayout.Floor(a) >= 0 && FlashLayout.Floor(a) % SECTOR == 0
    ensures sensed % SECTOR == 0 ==> Down(sensed - FlashLayout.Floor(a)) == sensed - FlashLayout.Floor(a)
  {
    FlashLayout.AcceptedIsSoundIffFixedNotNegative(a);
    FlashLayout.GeneratedTop(a, true);
    var floor: nat := FlashLayout.Floor(a);
    DownBounds(sensed - floor);
    SumIsAligned(floor, sensed - floor);
  }
}
