/** Stage-1 kernel memory planning: collect the reservations, subtract them
    from RAM, and carve the page-table pool and the early heap out of the rest. */
module KernelPlanner {
  import opened Machine
  import opened Stage1Ranges

  const PAGE: u64 := 4096
  const LOW_FIRMWARE: Range := Range(0, 0x80000)
  const MAX_RESERVED: nat := 12
  const MAX_USABLE: nat := 24
  const POOL_SIZE: u64 := 0x40000
  const HEAP_SIZE: u64 := 0x200000

  datatype DiagnosticRange = DiagnosticRange(start: u64, size: u64)

  /** The firmware tables hold at most eight entries. */
  type FirmwareRanges = s: seq<DiagnosticRange> | |s| <= 8

  datatype Diagnostics = Diagnostics(
    memory: FirmwareRanges, memoryTruncated: bool,
    reserved: FirmwareRanges, reservedTruncated: bool,
    initrdStart: Option<u64>, initrdEnd: Option<u64>,
    gicDistBase: Option<u64>, gicRedistBase: Option<u64>)

  datatype KernelFailure =
    | InvalidKernelRange | InvalidDtbRange | FirmwareRangesTruncated | AddressOverflow
    | ReservedCapacity | UsableCapacity | NoPageTablePool | NoEarlyHeap

  datatype KernelPlan = KernelPlan(
    reserved: seq<Range>, zeroSkipped: seq<nat>, usable: seq<Range>,
    pool: Range, heap: Range, initrd: Option<Range>)

  function AsRange(d: DiagnosticRange): Option<Range> {
    var end :- CheckedAdd(d.start, d.size);
    Some(Range(d.start, end))
  }

  // ------------------------------------------------------------ reservations

  function AppendReserved(rs: seq<Range>, r: Range): Result<seq<Range>, KernelFailure> {
    if r in rs then Success(rs)
    else if |rs| == MAX_RESERVED then Failure(ReservedCapacity)
    else Success(rs + [r])
  }

  function AddFirmware(rs: seq<Range>, firmware: seq<DiagnosticRange>): Result<seq<Range>, KernelFailure>
    decreases |firmware|
  {
    if firmware == [] then Success(rs)
    else if firmware[0].size == 0 then AddFirmware(rs, firmware[1..])
    else if AsRange(firmware[0]).None? then Failure(AddressOverflow)
    else
      var next :- AppendReserved(rs, AsRange(firmware[0]).value);
      AddFirmware(next, firmware[1..])
  }

  function ZeroSized(firmware: seq<DiagnosticRange>): seq<nat> {
    if firmware == [] then []
    else
      var n := |firmware| - 1;
      ZeroSized(firmware[..n]) + if firmware[n].size == 0 then [n] else []
  }

  predicate InsideRam(memory: seq<DiagnosticRange>, start: u64, end: u64) {
    exists m :: m in memory && m.size != 0 && AsRange(m).Some? && AsRange(m).value.Holds(start, end)
  }

  /** The initrd rounded out to pages; refused unless it lies in one RAM range
      and meets no earlier reservation. */
  function InitrdReservation(memory: seq<DiagnosticRange>, rs: seq<Range>, start: u64, end: u64)
    : Result<Range, KernelFailure>
  {
    if start == 0 || end <= start then Failure(InvalidDtbRange)
    else if AlignUp(end, PAGE).None? then Failure(AddressOverflow)
    else
      var reservation := Range(AlignDown(start, PAGE), AlignUp(end, PAGE).value);
      if !InsideRam(memory, start, end) || exists r :: r in rs && reservation.Overlaps(r)
      then Failure(InvalidDtbRange)
      else Success(reservation)
  }

  function FixedReservations(kernel: Range, dtb: Range): Result<seq<Range>, KernelFailure> {
    var low :- AppendReserved([], LOW_FIRMWARE);
    var withKernel :- AppendReserved(low, kernel);
    AppendReserved(withKernel, dtb)
  }

  function Reservations(info: Diagnostics, kernel: Range, dtb: Range)
    : Result<(seq<Range>, Option<Range>), KernelFailure>
  {
    var fixed :- FixedReservations(kernel, dtb);
    var rs :- AddFirmware(fixed, info.reserved);
    if info.initrdStart.Some? && info.initrdEnd.Some? then
      var initrd :- InitrdReservation(info.memory, rs, info.initrdStart.value, info.initrdEnd.value);
      var all :- AppendReserved(rs, initrd);
      Success((all, Some(initrd)))
    else Success((rs, None))
  }

  // --------------------------------------------------------------- RAM, free

  function RamFrom(acc: seq<Range>, memory: seq<DiagnosticRange>): Option<seq<Range>>
    decreases |memory|
  {
    if memory == [] then Some(acc)
    else if memory[0].size == 0 then RamFrom(acc, memory[1..])
    else
      var r :- AsRange(memory[0]);
      RamFrom(acc + [r], memory[1..])
  }

  /** The non-empty RAM ranges, or `None` when one wraps. */
  function Ram(info: Diagnostics): Option<seq<Range>> {
    RamFrom([], info.memory)
  }

  ghost function SubtractAll(free: seq<Range>, rs: seq<Range>, capacity: nat): Option<seq<Range>>
    decreases |rs|
  {
    if rs == [] then Some(free)
    else if !Fits(free, rs[0], capacity) then None
    else SubtractAll(Subtracted(free, rs[0]), rs[1..], capacity)
  }

  /** First fit, provided the carving subtraction finds room. */
  ghost function Block(free: seq<Range>, size: u64): Option<Range> {
    var fit :- FirstFit(free, size, BLOCK_ALIGNMENT);
    if Fits(free, fit, MAX_USABLE) then Some(fit) else None
  }

  ghost function Carve(ram: seq<Range>, rs: seq<Range>): Result<(seq<Range>, Range, Range), KernelFailure> {
    var free := SubtractAll(ram, rs, MAX_USABLE);
    if free.None? then Failure(UsableCapacity)
    else if Block(free.value, POOL_SIZE).None? then Failure(NoPageTablePool)
    else
      var pool := Block(free.value, POOL_SIZE).value;
      var rest := Subtracted(free.value, pool);
      if Block(rest, HEAP_SIZE).None? then Failure(NoEarlyHeap)
      else
        var heap := Block(rest, HEAP_SIZE).value;
        Success((Subtracted(rest, heap), pool, heap))
  }

  ghost function Plan(info: Diagnostics, kernel: Range, dtb: Range): Result<KernelPlan, KernelFailure> {
    if kernel.IsEmpty() then Failure(InvalidKernelRange)
    else if dtb.IsEmpty() then Failure(InvalidDtbRange)
    else if info.memoryTruncated || info.reservedTruncated then Failure(FirmwareRangesTruncated)
    else
      var (rs, initrd) :- Reservations(info, kernel, dtb);
      if Ram(info).None? then Failure(AddressOverflow)
      else
        var (usable, pool, heap) :- Carve(Ram(info).value, rs);
        Success(KernelPlan(rs, ZeroSized(info.reserved), usable, pool, heap, initrd))
  }

  // -------------------------------------------------------------- the methods

  method AppendReservedTo(reserved: array<Range>, count: nat, r: Range)
    returns (outcome: Result<nat, KernelFailure>)
    requires count <= reserved.Length == MAX_RESERVED
    modifies reserved
    ensures var want := AppendReserved(old(reserved[..count]), r);
            if want.Failure? then outcome == Failure(want.error)
            else outcome.Success? && outcome.value <= MAX_RESERVED && reserved[..outcome.value] == want.value
  {
    if r in reserved[..count] { return Success(count); }
    if count == reserved.Length { return Failure(ReservedCapacity); }
    reserved[count] := r;
    assert reserved[..count + 1] == old(reserved[..count]) + [r];
    return Success(count + 1);
  }

  method AddFirmwareTo(reserved: array<Range>, count: nat, firmware: FirmwareRanges)
    returns (outcome: Result<nat, KernelFailure>, skipped: seq<nat>)
    requires count <= reserved.Length == MAX_RESERVED
    modifies reserved
    ensures var want := AddFirmware(old(reserved[..count]), firmware);
            if want.Failure? then outcome == Failure(want.error)
            else outcome.Success? && outcome.value <= MAX_RESERVED && reserved[..outcome.value] == want.value
    ensures outcome.Success? ==> skipped == ZeroSized(firmware)
  {
    var n: nat := count;
    skipped := [];
    ghost var before := reserved[..count];
    for index := 0 to |firmware|
      invariant n <= MAX_RESERVED
      invariant AddFirmware(reserved[..n], firmware[index..]) == AddFirmware(before, firmware)
      invariant skipped == ZeroSized(firmware[..index])
    {
      var range := firmware[index];
      assert firmware[index..][0] == range && firmware[index..][1..] == firmware[index + 1..];
      assert firmware[..index + 1][..index] == firmware[..index];
      if range.size == 0 {
        skipped := skipped + [index];
        continue;
      }
      var r := AsRange(range);
      if r.None? { return Failure(AddressOverflow), skipped; }
      var step := AppendReservedTo(reserved, n, r.value);
      if step.Failure? { return Failure(step.error), skipped; }
      n := step.value;
    }
    assert firmware[..|firmware|] == firmware;
    return Success(n), skipped;
  }

  method CollectReservations(info: Diagnostics, kernel: Range, dtb: Range, reserved: array<Range>)
    returns (outcome: Result<(nat, Option<Range>), KernelFailure>, skipped: seq<nat>)
    requires reserved.Length == MAX_RESERVED
    modifies reserved
    ensures var want := Reservations(info, kernel, dtb);
            if want.Failure? then outcome == Failure(want.error)
            else && outcome.Success? && outcome.value.0 <= MAX_RESERVED
                 && reserved[..outcome.value.0] == want.value.0 && outcome.value.1 == want.value.1
    ensures outcome.Success? ==> skipped == ZeroSized(info.reserved)
  {
    skipped := [];
    assert reserved[..0] == [];
    var step := AppendReservedTo(reserved, 0, LOW_FIRMWARE);
    if step.Failure? { return Failure(step.error), skipped; }
    step := AppendReservedTo(reserved, step.value, kernel);
    if step.Failure? { return Failure(step.error), skipped; }
    step := AppendReservedTo(reserved, step.value, dtb);
    if step.Failure? { return Failure(step.error), skipped; }
    step, skipped := AddFirmwareTo(reserved, step.value, info.reserved);
    if step.Failure? { return Failure(step.error), skipped; }
    if info.initrdStart.None? || info.initrdEnd.None? { return Success((step.value, None)), skipped; }
    var initrd := InitrdReservation(info.memory, reserved[..step.value], info.initrdStart.value, info.initrdEnd.value);
    if initrd.Failure? { return Failure(initrd.error), skipped; }
    step := AppendReservedTo(reserved, step.value, initrd.value);
    if step.Failure? { return Failure(step.error), skipped; }
    return Success((step.value, Some(initrd.value))), skipped;
  }

  method CollectRam(info: Diagnostics, free: array<Range>) returns (count: Option<nat>)
    requires free.Length == MAX_USABLE
    modifies free
    ensures var want := Ram(info);
            if want.None? then count.None?
            else count.Some? && count.value <= MAX_USABLE && free[..count.value] == want.value
  {
    var n: nat := 0;
    assert free[..0] == [];
    for index := 0 to |info.memory|
      invariant n <= index
      invariant RamFrom(free[..n], info.memory[index..]) == Ram(info)
    {
      var range := info.memory[index];
      assert info.memory[index..][0] == range && info.memory[index..][1..] == info.memory[index + 1..];
      if range.size == 0 { continue; }
      var r := AsRange(range);
      if r.None? { return None; }
      ghost var before := free[..n];
      free[n] := r.value;
      n := n + 1;
      assert free[..n] == before + [r.value];
    }
    return Some(n);
  }

  method SubtractReservations(free: array<Range>, count: nat, rs: seq<Range>) returns (left: Option<nat>)
    requires count <= free.Length
    modifies free
    ensures var want := SubtractAll(old(free[..count]), rs, free.Length);
            if want.None? then left.None?
            else left.Some? && left.value <= free.Length && free[..left.value] == want.value
  {
    var n: nat := count;
    ghost var before := free[..count];
    for index := 0 to |rs|
      invariant n <= free.Length
      invariant SubtractAll(free[..n], rs[index..], free.Length) == SubtractAll(before, rs, free.Length)
    {
      assert rs[index..][0] == rs[index] && rs[index..][1..] == rs[index + 1..];
      var ok;
      ok, n := Subtract(free, n, rs[index]);
      if !ok { return None; }
    }
    return Some(n);
  }

  /** The whole planner, on the source's two fixed arrays. */
  method PlanKernelMemory(info: Diagnostics, kernel: Range, dtb: Range)
    returns (outcome: Result<KernelPlan, KernelFailure>)
    ensures outcome == Plan(info, kernel, dtb)
  {
    if kernel.IsEmpty() { return Failure(InvalidKernelRange); }
    if dtb.IsEmpty() { return Failure(InvalidDtbRange); }
    if info.memoryTruncated || info.reservedTruncated { return Failure(FirmwareRangesTruncated); }
    var reserved := new Range[MAX_RESERVED](_ => Range(0, 0));
    var collected, skipped := CollectReservations(info, kernel, dtb, reserved);
    if collected.Failure? { return Failure(collected.error); }
    var rs := reserved[..collected.value.0];
    var free := new Range[MAX_USABLE](_ => Range(0, 0));
    var count := CollectRam(info, free);
    if count.None? { return Failure(AddressOverflow); }
    count := SubtractReservations(free, count.value, rs);
    if count.None? { return Failure(UsableCapacity); }
    var pool, heap;
    var n: nat := count.value;
    pool, n := Allocate(free, n, POOL_SIZE, BLOCK_ALIGNMENT);
    if pool.None? { return Failure(NoPageTablePool); }
    heap, n := Allocate(free, n, HEAP_SIZE, BLOCK_ALIGNMENT);
    if heap.None? { return Failure(NoEarlyHeap); }
    return Success(KernelPlan(rs, skipped, free[..n], pool.value, heap.value, collected.value.1));
  }
}
