/** The partition table a build lays out below the state floor, and what the boot code makes
    of it: where the state region goes and what a factory reset wipes.
  */
module FlashLayout {
  import opened Machine

  const APP_START: nat := 0x10000
  const APP_ALIGN: nat := 0x10000
  const DATA_ALIGN: nat := 0x1000
  const NVS_START: nat := 0x9000
  const NVS_SIZE: nat := 0x5000
  const OTADATA_START: nat := 0xE000
  const OTADATA_SIZE: nat := 0x2000
  const UPDATER_SIZE: nat := 0x80000
  const FIXED_PROVISIONAL_DIV: nat := 5

  /** Python's // and Dafny's / agree for a positive divisor: both round down. */
  function AlignUp(x: int, a: int): int
    requires a > 0
  {
    (x + a - 1) / a * a
  }

  function AlignDown(x: int, a: int): int
    requires a > 0
  {
    x / a * a
  }

  datatype Name = Nvs | OtaData | Updater | App | Fixed | Reserved | StateData

  datatype Row = Row(name: Name, start: int, size: int)

  function End(r: Row): int { r.start + r.size }

  datatype Args = Args(flashMb: nat, updater: bool, fixedBytes: int, appBytes: int, stateFloor: int)

  datatype Outcome = Rows(rows: seq<Row>) | FloorAboveFlash | NoRoomForApp | RegionTooSmall | FirmwareTooBig

  function Container(a: Args): nat { a.flashMb * 1024 * 1024 }

  function Floor(a: Args): int { AlignDown(if a.stateFloor != 0 then a.stateFloor else Container(a), DATA_ALIGN) }

  function AppStart(a: Args): nat { if a.updater then APP_START + UPDATER_SIZE else APP_START }

  function FixedSize(a: Args): int {
    if a.fixedBytes == 0 then AlignUp((Floor(a) - AppStart(a)) / FIXED_PROVISIONAL_DIV, DATA_ALIGN)
    else AlignUp(a.fixedBytes, DATA_ALIGN)
  }

  function FixedStart(a: Args): int { AlignDown(Floor(a) - FixedSize(a), DATA_ALIGN) }

  function AppSize(a: Args): int { AlignDown(FixedStart(a) - AppStart(a), APP_ALIGN) }

  /** Why an argument tuple is refused, if it is. */
  function Refusal(a: Args): Outcome {
    if Floor(a) > Container(a) then FloorAboveFlash
    else if FixedStart(a) <= AppStart(a) then NoRoomForApp
    else if AppSize(a) < APP_ALIGN then RegionTooSmall
    else if a.fixedBytes != 0 && a.appBytes != 0 && a.appBytes > AppSize(a) then FirmwareTooBig
    else Rows([])
  }

  /** render: the rows, appended as the offset advances. */
  method Render(a: Args) returns (r: Outcome)
    ensures Refusal(a).Rows? ==> r.Rows? && r.rows == Table(a)
    ensures r.Rows? ==> forall i :: 0 <= i < |r.rows| ==> !r.rows[i].name.Reserved?
    ensures !Refusal(a).Rows? ==> r == Refusal(a)
  {
    var container := a.flashMb * 1024 * 1024;
    var provisional := a.fixedBytes == 0;
    var floor := AlignDown(if a.stateFloor != 0 then a.stateFloor else container, DATA_ALIGN);
    if floor > container { return FloorAboveFlash; }
    var rows := [Row(Nvs, NVS_START, NVS_SIZE)];
    var offset := APP_START;
    if a.updater {
      rows := rows + [Row(OtaData, OTADATA_START, OTADATA_SIZE)];
      rows := rows + [Row(Updater, offset, UPDATER_SIZE)];
      offset := offset + UPDATER_SIZE;
    }
    var appStart := offset;
    var fixedSize;
    if provisional {
      fixedSize := AlignUp((floor - appStart) / FIXED_PROVISIONAL_DIV, DATA_ALIGN);
    } else {
      fixedSize := AlignUp(a.fixedBytes, DATA_ALIGN);
    }
    var fixedStart := AlignDown(floor - fixedSize, DATA_ALIGN);
    if fixedStart <= appStart { return NoRoomForApp; }
    var appSize := AlignDown(fixedStart - appStart, APP_ALIGN);
    if appSize < APP_ALIGN { return RegionTooSmall; }
    if !provisional && a.appBytes != 0 && a.appBytes > appSize { return FirmwareTooBig; }
    rows := rows + [Row(App, appStart, appSize)];
    rows := rows + [Row(Fixed, fixedStart, fixedSize)];
    var fixedEnd := fixedStart + fixedSize;
    FixedReachesFloor(a);
    if floor > fixedEnd {
      rows := rows + [Row(Reserved, fixedEnd, floor - fixedEnd)];
    }
    return Rows(rows);
  }

  /** The rows of an accepted tuple.  There is never a reserved row among them. */
  function Table(a: Args): seq<Row> {
    [Row(Nvs, NVS_START, NVS_SIZE)]
    + (if a.updater then [Row(OtaData, OTADATA_START, OTADATA_SIZE), Row(Updater, APP_START, UPDATER_SIZE)] else [])
    + [Row(App, AppStart(a), AppSize(a)), Row(Fixed, FixedStart(a), FixedSize(a))]
  }

  /** The fixed row always ends exactly at the floor, so nothing is left to reserve. */
  lemma FixedReachesFloor(a: Args)
    ensures FixedStart(a) + FixedSize(a) == Floor(a)
  {
    var floor := (if a.stateFloor != 0 then a.stateFloor else Container(a)) / DATA_ALIGN;
    var bytes := if a.fixedBytes == 0 then (Floor(a) - AppStart(a)) / FIXED_PROVISIONAL_DIV else a.fixedBytes;
    var size := (bytes + DATA_ALIGN - 1) / DATA_ALIGN;
    assert Floor(a) == floor * DATA_ALIGN && FixedSize(a) == size * DATA_ALIGN;
    WholeUnits(floor - size);
  }

  lemma WholeUnits(k: int)
    ensures AlignDown(k * DATA_ALIGN, DATA_ALIGN) == k * DATA_ALIGN
  {
  }

  predicate Accepted(a: Args) { Refusal(a).Rows? }

  /** Positive, aligned, in order without overlap, and topped at the floor. */
  ghost predicate Sound(rows: seq<Row>, floor: int) {
    && |rows| > 0 && End(rows[|rows| - 1]) == floor
    && (forall i :: 0 <= i < |rows| ==> rows[i].start >= 0 && rows[i].size > 0 && AlignedRow(rows[i]))
    && (forall i, j :: 0 <= i < j < |rows| ==> End(rows[i]) <= rows[j].start)
  }

  predicate AlignedRow(r: Row) {
    var a := if r.name.App? || r.name.Updater? then APP_ALIGN else DATA_ALIGN;
    r.start % a == 0 && r.size % a == 0
  }

  /** An accepted layout is sound exactly when the measured size of the fixed data was not
      negative, which the generator does not check. */
  lemma AcceptedIsSoundIffFixedNotNegative(a: Args)
    requires Accepted(a)
    ensures Sound(Table(a), Floor(a)) <==> a.fixedBytes >= 0
    ensures Floor(a) <= Container(a) && Floor(a) % DATA_ALIGN == 0
  {
    FixedReachesFloor(a);
    FixedSizeSign(a);
    AppFits(a);
    var rows := Table(a);
    var k := |rows| - 1;
    assert rows[k] == Row(Fixed, FixedStart(a), FixedSize(a)) && rows[k - 1] == Row(App, AppStart(a), AppSize(a));
    if a.fixedBytes >= 0 {
      TableIsOrdered(a);
    }
  }

  /** Such a tuple: 4 MB, no updater, a fixed size of minus one byte.  It is accepted, and
      the fixed row comes out empty. */
  lemma NegativeFixedIsAccepted()
    ensures Accepted(Args(4, false, -1, 0, 0))
    ensures FixedSize(Args(4, false, -1, 0, 0)) == 0 && !Sound(Table(Args(4, false, -1, 0, 0)), 0x400000)
  {
    var a := Args(4, false, -1, 0, 0);
    assert Table(a)[2] == Row(Fixed, 0x400000, 0);
  }

  lemma DataAligned(x: int)
    ensures AlignUp(x, DATA_ALIGN) % DATA_ALIGN == 0 && AlignDown(x, DATA_ALIGN) % DATA_ALIGN == 0
    ensures AlignUp(x, DATA_ALIGN) > 0 <==> x > 0
  {
  }

  lemma FixedSizeSign(a: Args)
    requires Accepted(a)
    ensures FixedSize(a) % DATA_ALIGN == 0 && FixedStart(a) % DATA_ALIGN == 0 && Floor(a) % DATA_ALIGN == 0
    ensures FixedSize(a) > 0 <==> a.fixedBytes >= 0
  {
    var floor := if a.stateFloor != 0 then a.stateFloor else Container(a);
    DataAligned(floor);
    DataAligned(Floor(a) - FixedSize(a));
    FixedReachesFloor(a);
    if a.fixedBytes == 0 {
      DataAligned((Floor(a) - AppStart(a)) / FIXED_PROVISIONAL_DIV);
    } else {
      DataAligned(a.fixedBytes);
    }
  }

  lemma AppFits(a: Args)
    requires Accepted(a)
    ensures AppSize(a) % APP_ALIGN == 0 && APP_ALIGN <= AppSize(a) <= FixedStart(a) - AppStart(a)
  {
  }

  lemma TableIsOrdered(a: Args)
    requires Accepted(a) && FixedSize(a) > 0
    requires FixedSize(a) % DATA_ALIGN == 0 && FixedStart(a) % DATA_ALIGN == 0
    requires AppSize(a) % APP_ALIGN == 0 && APP_ALIGN <= AppSize(a) <= FixedStart(a) - AppStart(a)
    requires FixedStart(a) + FixedSize(a) == Floor(a)
    ensures Sound(Table(a), Floor(a))
  {
  }

  // ---- The boot code ----

  /** A table as the firmware reads it: every address and size a 32-bit number. */
  predicate IsRead(table: seq<Row>) {
    forall i :: 0 <= i < |table| ==> 0 <= table[i].start < U32 && 0 <= table[i].size < U32
  }

  /** Its rows end within the 32-bit space, and short enough of its top to round up. */
  predicate Addressable(table: seq<Row>) {
    IsRead(table) && forall i :: 0 <= i < |table| ==> End(table[i]) <= U32 - SECTOR
  }

  /** Where a row ends, in 32-bit arithmetic. */
  function End32(r: Row): nat { Low32(End(r)) }

  /** Up to the next sector, in 32-bit arithmetic. */
  function SectorUp(x: nat): (r: nat)
    ensures r < U32 && r % SECTOR == 0 && (x <= U32 - SECTOR ==> x <= r < x + SECTOR)
    ensures x <= U32 - SECTOR && x % SECTOR == 0 ==> r == x
  {
    var y := Low32(x + SECTOR - 1);
    y - y % SECTOR
  }

  predicate Skipped(r: Row, skipReserved: bool) { r.name.StateData? || (skipReserved && r.name.Reserved?) }

  /** The highest end of the rows that are not skipped, 0 without any. */
  function Top(table: seq<Row>, skipReserved: bool): nat
    decreases |table|
  {
    if table == [] then 0
    else
      var init, r := table[..|table| - 1], table[|table| - 1];
      var top := Top(init, skipReserved);
      if !Skipped(r, skipReserved) && End32(r) > top then End32(r) else top
  }

  lemma {:induction false} TopIsHighest(table: seq<Row>, skipReserved: bool)
    ensures var top := Top(table, skipReserved);
            && top < U32
            && (forall i :: 0 <= i < |table| && !Skipped(table[i], skipReserved) ==> End32(table[i]) <= top)
            && (top > 0 ==> exists i :: 0 <= i < |table| && !Skipped(table[i], skipReserved) && End32(table[i]) == top)
    decreases |table|
  {
    if table == [] {
    } else {
      var init := table[..|table| - 1];
      TopIsHighest(init, skipReserved);
      assert forall i :: 0 <= i < |init| ==> init[i] == table[i];
    }
  }

  method WalkTable(table: seq<Row>, skipReserved: bool) returns (top: nat)
    ensures top == Top(table, skipReserved)
  {
    top := 0;
    var i := 0;
    while i < |table|
      invariant i <= |table| && top == Top(table[..i], skipReserved)
    {
      assert table[..i + 1][..i] == table[..i];
      if !Skipped(table[i], skipReserved) {
        var end := End32(table[i]);
        if end > top { top := end; }
      }
      i := i + 1;
    }
    assert table[..|table|] == table;
  }

  ghost predicate Pinned(table: seq<Row>) { exists i :: 0 <= i < |table| && table[i].name.StateData? }

  /** The state row the firmware finds, the first one; |table| without any. */
  function StateAt(table: seq<Row>, i: nat): (r: nat)
    requires i <= |table|
    ensures i <= r <= |table| && (r < |table| ==> table[r].name.StateData?)
    ensures forall j :: i <= j < r ==> !table[j].name.StateData?
    decreases |table| - i
  {
    if i == |table| || table[i].name.StateData? then i else StateAt(table, i + 1)
  }

  /** Two stretches of flash share no byte. */
  predicate Apart(s: int, n: int, r: Row) { n <= 0 || r.size <= 0 || s + n <= r.start || End(r) <= s }

  class Flash {
    var floor: int
    var phys: int
    var stateStart: int
    var stateSize: int
    var pinned: bool

    /** statePartitionEnsure.  `chip` is the size in the image header, `sensed` the chip's
        own answer, 0 if it gave none; `registers` says whether the registration works. */
    method EnsureState(table: seq<Row>, chip: nat, sensed: nat, registers: bool)
      requires IsRead(table) && chip < U32 && sensed < U32
      modifies this
      ensures floor == FloorOf(table, chip)
      ensures phys == if sensed == 0 then floor else sensed
      ensures pinned == Pinned(table)
      ensures pinned ==> StateAt(table, 0) < |table| && table[StateAt(table, 0)] == Row(StateData, stateStart, stateSize)
      ensures !pinned ==> stateStart == SectorUp(floor)
      ensures !pinned ==> stateSize == if stateStart < phys && registers then phys - stateStart else 0
    {
      var at := FindState(table);
      floor := WalkTable(table, false);
      if floor == 0 { floor := chip; }
      phys := if sensed == 0 then floor else sensed;
      stateStart, stateSize, pinned := 0, 0, false;
      if at < |table| {
        pinned, stateStart, stateSize := true, table[at].start, table[at].size;
        return;
      }
      stateStart := SectorUp(floor);
      if stateStart >= phys { return; }
      if registers { stateSize := phys - stateStart; }
    }

    method FindState(table: seq<Row>) returns (at: nat)
      ensures at == StateAt(table, 0) && (at < |table| <==> Pinned(table))
    {
      at := 0;
      while at < |table| && !table[at].name.StateData?
        invariant at <= |table| && StateAt(table, 0) == StateAt(table, at)
      {
        at := at + 1;
      }
    }

    /** fsFactoryWipeExtent: the pinned state, or everything above the last firmware row.
        `table` is the table in memory, the registered state row included. */
    method WipeExtent(table: seq<Row>) returns (s: int, n: int)
      requires IsRead(table)
      ensures pinned ==> s == stateStart && n == stateSize
      ensures !pinned ==>
                var top := SectorUp(Top(table, true));
                if top > 0 && phys > top then s == top && n == phys - top else s == 0 && n == 0
    {
      if pinned { return stateStart, stateSize; }
      var top := WalkTable(table, true);
      top := SectorUp(top);
      if top != 0 && phys > top { return top, phys - top; }
      return 0, 0;
    }

    /** Boot on any table, then the wipe extent: without a pinned state it touches no
        firmware row of an addressable table; a pinned state is wiped as the table has it,
        so a firmware row is spared if and only if the table keeps the two apart. */
    method ExtentAfterBoot(table: seq<Row>, chip: nat, sensed: nat, registers: bool) returns (s: int, n: int)
      requires IsRead(table) && chip < U32 && sensed < U32
      modifies this
      ensures pinned == Pinned(table)
      ensures !pinned && Addressable(table) ==>
                s % SECTOR == 0 && forall i :: 0 <= i < |table| && !Skipped(table[i], true) ==> Apart(s, n, table[i])
      ensures pinned ==>
                StateAt(table, 0) < |table| && var state := table[StateAt(table, 0)];
                forall i :: 0 <= i < |table| && !Skipped(table[i], true) ==>
                  (Apart(s, n, table[i]) <==> Apart(state.start, state.size, table[i]))
    {
      EnsureState(table, chip, sensed, registers);
      TopIsHighest(table, false);
      var memory := InMemory(table);
      s, n := WipeExtent(memory);
      if !pinned && Addressable(table) { WipeSparesAllFirmware(table, phys); }
    }

    /** The table in memory: the state row is there once it is registered. */
    method InMemory(table: seq<Row>) returns (memory: seq<Row>)
      requires IsRead(table) && 0 <= stateStart < U32 && 0 <= stateSize < U32
      ensures IsRead(memory) && Top(memory, true) == Top(table, true)
      ensures memory == table || memory == table + [Row(StateData, stateStart, stateSize)]
    {
      memory := table;
      if !pinned && stateSize > 0 {
        memory := table + [Row(StateData, stateStart, stateSize)];
        SkippedAddsNothing(table, Row(StateData, stateStart, stateSize), true);
      }
    }

    /** Generator, boot and reset one after the other, on a chip larger than the floor: the
        state region starts at the builder's floor and reaches the chip's end, and a factory
        reset wipes exactly that. */
    method BootThenWipe(a: Args, chip: nat, sensed: nat) returns (s: int, n: int)
      requires Accepted(a) && a.fixedBytes >= 0 && Floor(a) < sensed < U32 && chip < U32
      modifies this
      ensures !pinned && floor == Floor(a) && phys == sensed
      ensures stateStart == Floor(a) && stateStart + stateSize == sensed
      ensures s == stateStart && n == stateSize
    {
      var table := Table(a);
      GeneratedTable(a, sensed);
      EnsureState(table, chip, sensed, true);
      s, n := WipeExtent(table + [Row(StateData, stateStart, stateSize)]);
    }
  }

  function FloorOf(table: seq<Row>, chip: nat): nat { if Top(table, false) == 0 then chip else Top(table, false) }

  // ---- Generator and boot code together ----

  /** Whatever the table, the runtime state region meets none of its rows. */
  lemma StateMeetsNoRow(table: seq<Row>, chip: nat, phys: nat, i: nat)
    requires i < |table| && !Pinned(table) && Addressable(table) && chip <= U32 - SECTOR
    ensures var start := SectorUp(FloorOf(table, chip)); Apart(start, phys - start, table[i])
  {
    TopIsHighest(table, false);
    TopIsLow(table, false);
    assert !table[i].name.StateData?;
  }

  lemma TopIsLow(table: seq<Row>, skipReserved: bool)
    requires Addressable(table)
    ensures Top(table, skipReserved) <= U32 - SECTOR
  {
    TopIsHighest(table, skipReserved);
  }

  /** Without a pinned state, whatever the table, the wipe starts on a sector, ends at the
      top of the chip and touches no firmware row. */
  lemma WipeSparesFirmware(table: seq<Row>, phys: nat, i: nat)
    requires i < |table| && !Skipped(table[i], true) && Addressable(table)
    ensures var start := SectorUp(Top(table, true)); start % SECTOR == 0 && Apart(start, phys - start, table[i])
  {
    TopIsHighest(table, true);
    TopIsLow(table, true);
  }

  lemma WipeSparesAllFirmware(table: seq<Row>, phys: nat)
    requires Addressable(table)
    ensures var start := SectorUp(Top(table, true));
            forall i :: 0 <= i < |table| && !Skipped(table[i], true) ==> Apart(start, phys - start, table[i])
  {
    var start := SectorUp(Top(table, true));
    forall i | 0 <= i < |table| && !Skipped(table[i], true) ensures Apart(start, phys - start, table[i]) {
      WipeSparesFirmware(table, phys, i);
    }
  }

  /** A pinned state inside a firmware row takes that much of the firmware with it. */
  lemma PinnedOverlapIsWiped()
    ensures var table := [Row(App, 0x10000, 0x100000), Row(StateData, 0x50000, 0x1000)];
            IsRead(table) && Pinned(table) && StateAt(table, 0) == 1 && !Apart(table[1].start, table[1].size, table[0])
  {
    var table := [Row(App, 0x10000, 0x100000), Row(StateData, 0x50000, 0x1000)];
    assert table[1].name.StateData?;
  }

  /** On a chip whose size is a 32-bit number both walks over a generated table find the
      builder's floor, and no row is the state's. */
  lemma GeneratedTop(a: Args, skipReserved: bool)
    requires Accepted(a) && a.fixedBytes >= 0 && Floor(a) < U32
    ensures Top(Table(a), skipReserved) == Floor(a) > 0 && IsRead(Table(a)) && !Pinned(Table(a))
  {
    AcceptedIsSoundIffFixedNotNegative(a);
    var rows := Table(a);
    var k := |rows| - 1;
    assert rows[k] == Row(Fixed, FixedStart(a), FixedSize(a));
    assert !Skipped(rows[k], skipReserved);
    forall i | 0 <= i < |rows| ensures End(rows[i]) <= Floor(a) < U32 { assert rows[i].start >= 0 && rows[i].size > 0; }
    TopIsHighest(rows, skipReserved);
  }

  lemma FloorIsAligned(a: Args)
    requires Floor(a) < U32
    ensures Floor(a) >= 0 ==> SectorUp(Floor(a)) == Floor(a)
  {
    DataAligned(if a.stateFloor != 0 then a.stateFloor else Container(a));
  }

  lemma SkippedAddsNothing(table: seq<Row>, r: Row, skipReserved: bool)
    requires Skipped(r, skipReserved)
    ensures Top(table + [r], skipReserved) == Top(table, skipReserved)
  {
    assert (table + [r])[..|table|] == table;
  }

  lemma GeneratedTable(a: Args, sensed: nat)
    requires Accepted(a) && a.fixedBytes >= 0 && Floor(a) < sensed < U32
    ensures IsRead(Table(a)) && !Pinned(Table(a)) && Top(Table(a), false) == Floor(a) > 0 && SectorUp(Floor(a)) == Floor(a)
    ensures var state := Row(StateData, Floor(a), sensed - Floor(a));
            IsRead(Table(a) + [state]) && Top(Table(a) + [state], true) == Floor(a)
  {
    GeneratedTop(a, false);
    GeneratedTop(a, true);
    FloorIsAligned(a);
    SkippedAddsNothing(Table(a), Row(StateData, Floor(a), sensed - Floor(a)), true);
  }

  /** A generated table meets the state region nowhere. */
  lemma StateMeetsNoGeneratedRow(a: Args, phys: nat, i: nat)
    requires Accepted(a) && a.fixedBytes >= 0 && i < |Table(a)|
    ensures Apart(Floor(a), phys - Floor(a), Table(a)[i])
  {
    AcceptedIsSoundIffFixedNotNegative(a);
  }
}
