/** The stage-1 identity map: one Normal mapping per RAM range, one page per
    device, at most thirteen mappings in all. */
module IdentityMap {
  import opened Machine
  import opened Stage1Ranges
  import opened KernelPlanner

  const MAX_MAPPINGS: nat := 13
  const MIN_TABLE_BYTES: int := 4 * PAGE
  const TTBR0_LIMIT: u64 := 0x80_0000_0000
  const GICR_STRIDE: u64 := 0x20000
  const GICR_FRAMES: nat := 4

  datatype MemoryType = Normal | DeviceNgnre

  datatype Mapping = Mapping(range: Range, memoryType: MemoryType)

  datatype MapFailure =
    | InvalidPageTablePool | MappingCapacity | MapOverflow | AddressOutsideTtbr0 | AttributeOverlap
    | KernelNotMapped | CurrentStackNotMapped | DtbNotMapped | PageTablePoolNotMapped | EarlyHeapNotMapped

  predicate BadPool(pool: Range) {
    pool.start % PAGE != 0 || pool.end % PAGE != 0 || Max(pool.end - pool.start, 0) < MIN_TABLE_BYTES
  }

  // ------------------------------------------------------- the wanted mappings

  function RamMapping(d: DiagnosticRange): Option<Mapping> {
    var raw :- AsRange(d);
    var end :- AlignUp(raw.end, PAGE);
    Some(Mapping(Range(AlignDown(d.start, PAGE), end), Normal))
  }

  function DevicePage(base: u64): Option<Mapping> {
    var start := AlignDown(base, PAGE);
    var end :- CheckedAdd(start, PAGE);
    Some(Mapping(Range(start, end), DeviceNgnre))
  }

  function Append(acc: seq<Mapping>, m: Option<Mapping>): Result<seq<Mapping>, MapFailure> {
    if m.None? then Failure(MapOverflow)
    else if |acc| == MAX_MAPPINGS then Failure(MappingCapacity)
    else Success(acc + [m.value])
  }

  function RamMappingsFrom(acc: seq<Mapping>, memory: seq<DiagnosticRange>): Result<seq<Mapping>, MapFailure>
    decreases |memory|
  {
    if memory == [] then Success(acc)
    else if memory[0].size == 0 then RamMappingsFrom(acc, memory[1..])
    else
      var next :- Append(acc, RamMapping(memory[0]));
      RamMappingsFrom(next, memory[1..])
  }

  function RedistFrame(base: u64, index: nat): Option<Mapping>
    requires index < GICR_FRAMES
  {
    var candidate :- CheckedAdd(base, index * GICR_STRIDE);
    DevicePage(candidate)
  }

  function RedistFrom(acc: seq<Mapping>, base: u64, index: nat): Result<seq<Mapping>, MapFailure>
    requires index <= GICR_FRAMES
    decreases GICR_FRAMES - index
  {
    if index == GICR_FRAMES then Success(acc)
    else
      var next :- Append(acc, RedistFrame(base, index));
      RedistFrom(next, base, index + 1)
  }

  function AllMappings(info: Diagnostics, uartBase: u64): Result<seq<Mapping>, MapFailure> {
    var ram :- RamMappingsFrom([], info.memory);
    var withUart :- Append(ram, DevicePage(uartBase));
    var withDist :- if info.gicDistBase.None? then Success(withUart)
                    else Append(withUart, DevicePage(info.gicDistBase.value));
    if info.gicRedistBase.None? then Success(withDist)
    else RedistFrom(withDist, info.gicRedistBase.value, 0)
  }

  // ------------------------------------------------------------------- checks

  predicate Clash(a: Mapping, b: Mapping) {
    a.memoryType != b.memoryType && a.range.Overlaps(b.range)
  }

  function CheckAt(ms: seq<Mapping>, i: nat): Option<MapFailure>
    requires i < |ms|
  {
    if ms[i].range.end > TTBR0_LIMIT then Some(AddressOutsideTtbr0)
    else if exists j :: i < j < |ms| && Clash(ms[i], ms[j]) then Some(AttributeOverlap)
    else None
  }

  function FirstFault(ms: seq<Mapping>, i: nat): Option<MapFailure>
    requires i <= |ms|
    decreases |ms| - i
  {
    if i == |ms| then None
    else if CheckAt(ms, i).Some? then CheckAt(ms, i)
    else FirstFault(ms, i + 1)
  }

  predicate NormalContains(ms: seq<Mapping>, r: Range) {
    !r.IsEmpty() && exists m :: m in ms && m.memoryType == Normal && m.range.Holds(r.start, r.end)
  }

  function Unmapped(ms: seq<Mapping>, plan: KernelPlan, kernel: Range, stack: Range, dtb: Range): Option<MapFailure> {
    if !NormalContains(ms, kernel) then Some(KernelNotMapped)
    else if !NormalContains(ms, stack) then Some(CurrentStackNotMapped)
    else if !NormalContains(ms, dtb) then Some(DtbNotMapped)
    else if !NormalContains(ms, plan.pool) then Some(PageTablePoolNotMapped)
    else if !NormalContains(ms, plan.heap) then Some(EarlyHeapNotMapped)
    else None
  }

  function MapPlan(info: Diagnostics, plan: KernelPlan, kernel: Range, stack: Range, dtb: Range, uartBase: u64)
    : Result<seq<Mapping>, MapFailure>
  {
    if BadPool(plan.pool) then Failure(InvalidPageTablePool)
    else
      var ms :- AllMappings(info, uartBase);
      if FirstFault(ms, 0).Some? then Failure(FirstFault(ms, 0).value)
      else if Unmapped(ms, plan, kernel, stack, dtb).Some? then Failure(Unmapped(ms, plan, kernel, stack, dtb).value)
      else Success(ms)
  }

  // -------------------------------------------------------------- the methods

  method AppendTo(mappings: array<Mapping>, count: nat, m: Option<Mapping>)
    returns (outcome: Result<nat, MapFailure>)
    requires count <= mappings.Length == MAX_MAPPINGS
    modifies mappings
    ensures var want := Append(old(mappings[..count]), m);
            if want.Failure? then outcome == Failure(want.error)
            else outcome.Success? && outcome.value <= MAX_MAPPINGS && mappings[..outcome.value] == want.value
  {
    if m.None? { return Failure(MapOverflow); }
    if count == mappings.Length { return Failure(MappingCapacity); }
    mappings[count] := m.value;
    assert mappings[..count + 1] == old(mappings[..count]) + [m.value];
    return Success(count + 1);
  }

  method MapRam(mappings: array<Mapping>, memory: FirmwareRanges) returns (outcome: Result<nat, MapFailure>)
    requires mappings.Length == MAX_MAPPINGS
    modifies mappings
    ensures var want := RamMappingsFrom([], memory);
            if want.Failure? then outcome == Failure(want.error)
            else outcome.Success? && outcome.value <= MAX_MAPPINGS && mappings[..outcome.value] == want.value
  {
    var n: nat := 0;
    assert mappings[..0] == [];
    for index := 0 to |memory|
      invariant n <= MAX_MAPPINGS
      invariant RamMappingsFrom(mappings[..n], memory[index..]) == RamMappingsFrom([], memory)
    {
      assert memory[index..][0] == memory[index] && memory[index..][1..] == memory[index + 1..];
      if memory[index].size == 0 { continue; }
      var step := AppendTo(mappings, n, RamMapping(memory[index]));
      if step.Failure? { return step; }
      n := step.value;
    }
    return Success(n);
  }

  method MapRedistributors(mappings: array<Mapping>, count: nat, base: u64) returns (outcome: Result<nat, MapFailure>)
    requires count <= mappings.Length == MAX_MAPPINGS
    modifies mappings
    ensures var want := RedistFrom(old(mappings[..count]), base, 0);
            if want.Failure? then outcome == Failure(want.error)
            else outcome.Success? && outcome.value <= MAX_MAPPINGS && mappings[..outcome.value] == want.value
  {
    var n: nat := count;
    ghost var before := mappings[..count];
    for index := 0 to GICR_FRAMES
      invariant n <= MAX_MAPPINGS
      invariant RedistFrom(mappings[..n], base, index) == RedistFrom(before, base, 0)
    {
      var step := AppendTo(mappings, n, RedistFrame(base, index));
      if step.Failure? { return step; }
      n := step.value;
    }
    return Success(n);
  }

  method CheckMappings(ms: seq<Mapping>) returns (fault: Option<MapFailure>)
    ensures fault == FirstFault(ms, 0)
  {
    for index := 0 to |ms|
      invariant FirstFault(ms, 0) == FirstFault(ms, index)
    {
      if ms[index].range.end > TTBR0_LIMIT { return Some(AddressOutsideTtbr0); }
      for other := index + 1 to |ms|
        invariant forall j :: index < j < other ==> !Clash(ms[index], ms[j])
      {
        if Clash(ms[index], ms[other]) { return Some(AttributeOverlap); }
      }
    }
    return None;
  }

  method PlanIdentityMap(info: Diagnostics, plan: KernelPlan, kernel: Range, stack: Range, dtb: Range, uartBase: u64)
    returns (outcome: Result<seq<Mapping>, MapFailure>)
    ensures outcome == MapPlan(info, plan, kernel, stack, dtb, uartBase)
  {
    if BadPool(plan.pool) { return Failure(InvalidPageTablePool); }
    var mappings := new Mapping[MAX_MAPPINGS](_ => Mapping(Range(0, 0), Normal));
    var step := MapRam(mappings, info.memory);
    if step.Failure? { return Failure(step.error); }
    step := AppendTo(mappings, step.value, DevicePage(uartBase));
    if step.Failure? { return Failure(step.error); }
    if info.gicDistBase.Some? {
      step := AppendTo(mappings, step.value, DevicePage(info.gicDistBase.value));
      if step.Failure? { return Failure(step.error); }
    }
    if info.gicRedistBase.Some? {
      step := MapRedistributors(mappings, step.value, info.gicRedistBase.value);
      if step.Failure? { return Failure(step.error); }
    }
    var ms := mappings[..step.value];
    var fault := CheckMappings(ms);
    if fault.Some? { return Failure(fault.value); }
    var missing := Unmapped(ms, plan, kernel, stack, dtb);
    if missing.Some? { return Failure(missing.value); }
    return Success(ms);
  }
}
