/** Later boot stages agree with earlier ones: the identity map covers what the
    kernel planner carved, and stage 2A accepts the initrd it reserved. */
module BootComposition {
  import opened Machine
  import opened Stage1Ranges
  import opened KernelPlanner
  import opened KernelPlanProofs
  import opened AllocatorHandoff
  import opened HandoffProofs
  import opened IdentityMap

  // ------------------------------------------------------------- identity map

  lemma {:induction false} RamIsMapped(acc: seq<Mapping>, memory: seq<DiagnosticRange>, r: Range)
    requires RamMappingsFrom(acc, memory).Success? && Listed(memory, r)
    ensures acc <= RamMappingsFrom(acc, memory).value
    ensures exists m :: m in RamMappingsFrom(acc, memory).value && m.memoryType == Normal && m.range.Holds(r.start, r.end)
    decreases |memory|
  {
    ListedCons(memory, r);
    var next := if memory[0].size == 0 then acc else Append(acc, RamMapping(memory[0])).value;
    RamMappingsGrow(next, memory[1..]);
    if Listed(memory[1..], r) {
      RamIsMapped(next, memory[1..], r);
    } else {
      var m := RamMapping(memory[0]).value;
      assert next[|acc|] == m && m in next;
      assert m in RamMappingsFrom(next, memory[1..]).value;
      assert m.range.Holds(r.start, r.end);
    }
  }

  lemma {:induction false} RamMappingsGrow(acc: seq<Mapping>, memory: seq<DiagnosticRange>)
    requires RamMappingsFrom(acc, memory).Success?
    ensures acc <= RamMappingsFrom(acc, memory).value
    decreases |memory|
  {
    if memory != [] {
      RamMappingsGrow(if memory[0].size == 0 then acc else Append(acc, RamMapping(memory[0])).value, memory[1..]);
    }
  }

  lemma {:induction false} RedistGrow(acc: seq<Mapping>, base: u64, index: nat)
    requires index <= GICR_FRAMES && RedistFrom(acc, base, index).Success?
    ensures acc <= RedistFrom(acc, base, index).value
    decreases GICR_FRAMES - index
  {
    if index < GICR_FRAMES { RedistGrow(Append(acc, RedistFrame(base, index)).value, base, index + 1); }
  }

  lemma AllMappingsKeepRam(info: Diagnostics, uartBase: u64)
    requires AllMappings(info, uartBase).Success?
    ensures RamMappingsFrom([], info.memory).Success?
    ensures RamMappingsFrom([], info.memory).value <= AllMappings(info, uartBase).value
  {
    var ram := RamMappingsFrom([], info.memory).value;
    var withUart := Append(ram, DevicePage(uartBase)).value;
    var withDist := if info.gicDistBase.None? then withUart else Append(withUart, DevicePage(info.gicDistBase.value)).value;
    if info.gicRedistBase.Some? { RedistGrow(withDist, info.gicRedistBase.value, 0); }
  }

  lemma BlockIsMapped(info: Diagnostics, uartBase: u64, block: Range, size: u64, rs: seq<Range>)
    requires Ram(info).Some? && AllMappings(info, uartBase).Success?
    requires size > 0 && GoodBlock(block, size, Ram(info).value, rs)
    ensures NormalContains(AllMappings(info, uartBase).value, block)
  {
    var ms := AllMappings(info, uartBase).value;
    var r :| r in Ram(info).value && r.Holds(block.start, block.end);
    RamFromListed([], info.memory, r);
    AllMappingsKeepRam(info, uartBase);
    RamIsMapped([], info.memory, r);
    var m :| m in RamMappingsFrom([], info.memory).value && m.memoryType == Normal && m.range.Holds(r.start, r.end);
    assert m in ms && m.range.Holds(block.start, block.end);
  }

  ghost predicate NotThePlansFault(f: MapFailure) {
    f != InvalidPageTablePool && f != PageTablePoolNotMapped && f != EarlyHeapNotMapped
  }

  lemma MapAcceptsMapped(info: Diagnostics, plan: KernelPlan, kernel: Range, dtb: Range, stack: Range, uartBase: u64)
    requires !BadPool(plan.pool)
    requires var ms := AllMappings(info, uartBase);
             ms.Success? ==> NormalContains(ms.value, plan.pool) && NormalContains(ms.value, plan.heap)
    ensures var out := MapPlan(info, plan, kernel, stack, dtb, uartBase);
            out.Failure? ==> NotThePlansFault(out.error)
  {
    MappingCapacityExact(info, uartBase);
    if AllMappings(info, uartBase).Success? { FirstFaultCase(AllMappings(info, uartBase).value, 0); }
  }

  lemma BlocksAreMapped(info: Diagnostics, plan: KernelPlan, uartBase: u64)
    requires Ram(info).Some? && GoodBlock(plan.pool, POOL_SIZE, Ram(info).value, plan.reserved)
    requires GoodBlock(plan.heap, HEAP_SIZE, Ram(info).value, plan.reserved + [plan.pool])
    ensures !BadPool(plan.pool)
    ensures var ms := AllMappings(info, uartBase);
            ms.Success? ==> NormalContains(ms.value, plan.pool) && NormalContains(ms.value, plan.heap)
  {
    if AllMappings(info, uartBase).Success? {
      BlockIsMapped(info, uartBase, plan.pool, POOL_SIZE, plan.reserved);
      BlockIsMapped(info, uartBase, plan.heap, HEAP_SIZE, plan.reserved + [plan.pool]);
    }
  }

  lemma MapAcceptsBlocks(info: Diagnostics, plan: KernelPlan, kernel: Range, dtb: Range, stack: Range, uartBase: u64)
    requires Ram(info).Some? && GoodBlock(plan.pool, POOL_SIZE, Ram(info).value, plan.reserved)
    requires GoodBlock(plan.heap, HEAP_SIZE, Ram(info).value, plan.reserved + [plan.pool])
    ensures var out := MapPlan(info, plan, kernel, stack, dtb, uartBase);
            out.Failure? ==> NotThePlansFault(out.error)
  {
    BlocksAreMapped(info, plan, uartBase);
    MapAcceptsMapped(info, plan, kernel, dtb, stack, uartBase);
  }

  /** A stage-1 plan never makes the identity map refuse its pool or its heap. */
  lemma MapAcceptsPlan(info: Diagnostics, kernel: Range, dtb: Range, stack: Range, uartBase: u64)
    requires Plan(info, kernel, dtb).Success?
    ensures var out := MapPlan(info, Plan(info, kernel, dtb).value, kernel, stack, dtb, uartBase);
            out.Failure? ==> NotThePlansFault(out.error)
  {
    PlanBlocks(info, kernel, dtb);
    MapAcceptsBlocks(info, Plan(info, kernel, dtb).value, kernel, dtb, stack, uartBase);
  }

  /** No fault is found exactly when every mapping ends below the TTBR0 limit
      and no Normal mapping meets a device page. */
  lemma {:induction false} FirstFaultCase(ms: seq<Mapping>, i: nat)
    requires i <= |ms|
    ensures FirstFault(ms, i).Some? ==> FirstFault(ms, i).value in {AddressOutsideTtbr0, AttributeOverlap}
    ensures FirstFault(ms, i).None? <==>
            forall k :: i <= k < |ms| ==> ms[k].range.end <= TTBR0_LIMIT && forall j :: k < j < |ms| ==> !Clash(ms[k], ms[j])
    decreases |ms| - i
  {
    if i < |ms| { FirstFaultCase(ms, i + 1); }
  }

  /** An accepted map: below the limit, attributes never clash, and kernel,
      stack, DTB, pool and heap each lie in one Normal mapping. */
  lemma MapIsSound(info: Diagnostics, plan: KernelPlan, kernel: Range, stack: Range, dtb: Range, uartBase: u64)
    requires MapPlan(info, plan, kernel, stack, dtb, uartBase).Success?
    ensures var ms := MapPlan(info, plan, kernel, stack, dtb, uartBase).value;
            && |ms| <= MAX_MAPPINGS
            && (forall m :: m in ms ==> m.range.end <= TTBR0_LIMIT)
            && (forall i, j :: 0 <= i < |ms| && 0 <= j < |ms| ==> !Clash(ms[i], ms[j]))
            && forall r :: r in {kernel, stack, dtb, plan.pool, plan.heap} ==> NormalContains(ms, r)
  {
    var ms := AllMappings(info, uartBase).value;
    FirstFaultCase(ms, 0);
    MappingCapacityExact(info, uartBase);
    forall i, j | 0 <= i < |ms| && 0 <= j < |ms| ensures !Clash(ms[i], ms[j]) {
      if i < j { assert !Clash(ms[i], ms[j]); } else if j < i { assert !Clash(ms[j], ms[i]); }
    }
  }

  // ------------------------------------------------------- mapping capacity

  function NonZero(memory: seq<DiagnosticRange>): (n: nat)
    ensures n <= |memory|
  {
    if memory == [] then 0 else (if memory[0].size == 0 then 0 else 1) + NonZero(memory[1..])
  }

  ghost predicate RamFits(memory: seq<DiagnosticRange>) {
    forall d :: d in memory && d.size != 0 ==> RamMapping(d).Some?
  }

  lemma {:induction false} RamMappingsCase(acc: seq<Mapping>, memory: seq<DiagnosticRange>)
    requires |acc| + |memory| <= MAX_MAPPINGS
    ensures var out := RamMappingsFrom(acc, memory);
            if RamFits(memory) then out.Success? && |out.value| == |acc| + NonZero(memory) else out == Failure(MapOverflow)
    decreases |memory|
  {
    if memory != [] {
      assert memory == [memory[0]] + memory[1..] && memory[0] in memory;
      if memory[0].size == 0 {
        RamMappingsCase(acc, memory[1..]);
      } else if RamMapping(memory[0]).Some? {
        RamMappingsCase(acc + [RamMapping(memory[0]).value], memory[1..]);
      }
    }
  }

  ghost predicate RedistFits(base: u64, index: nat) {
    forall i: nat :: index <= i < GICR_FRAMES ==> RedistFrame(base, i).Some?
  }

  lemma {:induction false} RedistCase(acc: seq<Mapping>, base: u64, index: nat)
    requires index <= GICR_FRAMES && |acc| + (GICR_FRAMES - index) <= MAX_MAPPINGS + 1
    ensures var out := RedistFrom(acc, base, index);
            if !RedistFits(base, index) then out == Failure(MapOverflow)
            else if |acc| + (GICR_FRAMES - index) > MAX_MAPPINGS && index < GICR_FRAMES then out == Failure(MappingCapacity)
            else out.Success? && |out.value| == |acc| + (GICR_FRAMES - index)
    decreases GICR_FRAMES - index
  {
    if index < GICR_FRAMES && RedistFrame(base, index).Some? && |acc| < MAX_MAPPINGS {
      RedistCase(acc + [RedistFrame(base, index).value], base, index + 1);
    }
  }

  ghost predicate NothingWraps(info: Diagnostics, uartBase: u64) {
    && RamFits(info.memory) && DevicePage(uartBase).Some?
    && (info.gicDistBase.Some? ==> DevicePage(info.gicDistBase.value).Some?)
    && (info.gicRedistBase.Some? ==> RedistFits(info.gicRedistBase.value, 0))
  }

  /** Eight RAM ranges, the distributor and the redistributor frames together
      need fourteen mappings: exactly then the table overflows. */
  lemma MappingCapacityExact(info: Diagnostics, uartBase: u64)
    ensures AllMappings(info, uartBase) == Failure(MappingCapacity) <==>
            && NothingWraps(info, uartBase) && NonZero(info.memory) == 8
            && info.gicDistBase.Some? && info.gicRedistBase.Some?
    ensures AllMappings(info, uartBase) == Failure(MapOverflow) <==> !NothingWraps(info, uartBase)
    ensures AllMappings(info, uartBase).Success?
            ==> |AllMappings(info, uartBase).value| <= MAX_MAPPINGS
    ensures AllMappings(info, uartBase).Failure?
            ==> AllMappings(info, uartBase).error in {MapOverflow, MappingCapacity}
  {
    RamMappingsCase([], info.memory);
    if RamFits(info.memory) && DevicePage(uartBase).Some? && (info.gicDistBase.Some? ==> DevicePage(info.gicDistBase.value).Some?) {
      var withUart := Append(RamMappingsFrom([], info.memory).value, DevicePage(uartBase)).value;
      var withDist := if info.gicDistBase.None? then withUart else Append(withUart, DevicePage(info.gicDistBase.value)).value;
      if info.gicRedistBase.Some? { RedistCase(withDist, info.gicRedistBase.value, 0); }
    }
  }

  // ------------------------------------------------------------------ stage 2A

  datatype InitrdFailure = Missing | IncompleteProperties | InvalidRange | InitrdOverflow | OutsideFirmwareRam | OverlapsReserved

  datatype InitrdPlan = InitrdPlan(bytes: Range, reservation: Range)

  function PlanInitrd(info: Diagnostics, allocator: AllocatorPlan): Result<InitrdPlan, InitrdFailure> {
    if info.initrdStart.None? && info.initrdEnd.None? then Failure(Missing)
    else if info.initrdStart.None? || info.initrdEnd.None? then Failure(IncompleteProperties)
    else
      var start, end := info.initrdStart.value, info.initrdEnd.value;
      if start == 0 || end <= start then Failure(InvalidRange)
      else if !InsideRam(info.memory, start, end) then Failure(OutsideFirmwareRam)
      else if AlignUp(end, PAGE).None? then Failure(InitrdOverflow)
      else
        var reservation := Range(AlignDown(start, PAGE), AlignUp(end, PAGE).value);
        if exists r :: r in allocator.reserved && r.reason != Initrd && reservation.Overlaps(r.range)
        then Failure(OverlapsReserved)
        else Success(InitrdPlan(Range(start, end), reservation))
  }

  /** A planned initrd is the last reservation and meets no other. */
  lemma InitrdIsLast(info: Diagnostics, kernel: Range, dtb: Range)
    requires Plan(info, kernel, dtb).Success? && Plan(info, kernel, dtb).value.initrd.Some?
    ensures var plan := Plan(info, kernel, dtb).value;
            InitrdCloses(plan) && InitrdOf(info, plan.initrd.value)
  {
    FixedFacts(kernel, dtb);
    var fixed := FixedReservations(kernel, dtb).value;
    AddFirmwareAdds(fixed, info.reserved, kernel);
    var rs := AddFirmware(fixed, info.reserved).value;
    var initrd := Plan(info, kernel, dtb).value.initrd.value;
    assert initrd !in rs;
    assert |fixed| >= 1;
  }

  /** `initrd` is the rounded-out initrd of `info`, inside RAM. */
  ghost predicate InitrdOf(info: Diagnostics, initrd: Range) {
    && info.initrdStart.Some? && info.initrdEnd.Some?
    && 0 < info.initrdStart.value < info.initrdEnd.value && AlignUp(info.initrdEnd.value, PAGE).Some?
    && InsideRam(info.memory, info.initrdStart.value, info.initrdEnd.value)
    && initrd == Range(AlignDown(info.initrdStart.value, PAGE), AlignUp(info.initrdEnd.value, PAGE).value)
  }

  lemma InitrdDecision(info: Diagnostics, allocator: AllocatorPlan, n: nat, initrd: Range)
    requires InitrdOf(info, initrd) && n < |allocator.reserved| && allocator.reserved[n].range == initrd
    requires forall i :: 0 <= i < |allocator.reserved| && i != n ==> !initrd.Overlaps(allocator.reserved[i].range)
    ensures PlanInitrd(info, allocator)
            == if allocator.reserved[n].reason == Initrd
               then Success(InitrdPlan(Range(info.initrdStart.value, info.initrdEnd.value), initrd))
               else Failure(OverlapsReserved)
  {
    assert allocator.reserved[n] in allocator.reserved;
  }

  /** The initrd closes the kernel plan's list and meets nothing before it. */
  ghost predicate InitrdCloses(plan: KernelPlan) {
    var n := |plan.reserved| - 1;
    && n >= 1 && plan.initrd == Some(plan.reserved[n])
    && forall i :: 0 <= i < n ==> !plan.reserved[n].Overlaps(plan.reserved[i])
  }

  ghost predicate LabelsOf(plan: KernelPlan, labelled: seq<Reservation>) {
    && RangesOf(labelled) == AllTaken(plan)
    && forall i :: 0 <= i < |plan.reserved| ==> labelled[i].reason == ReasonAt(i, plan.reserved[i], plan.initrd)
  }

  lemma LabelledInitrd(plan: KernelPlan, labelled: seq<Reservation>, ram: seq<Range>, i: nat)
    requires InitrdCloses(plan) && LabelsOf(plan, labelled) && i < |labelled|
    requires GoodBlock(plan.pool, POOL_SIZE, ram, plan.reserved)
    requires GoodBlock(plan.heap, HEAP_SIZE, ram, plan.reserved + [plan.pool])
    ensures if i == |plan.reserved| - 1
            then labelled[i].range == plan.initrd.value && (labelled[i].reason == Initrd <==> i >= 3)
            else !plan.initrd.value.Overlaps(labelled[i].range)
  {
    var n := |plan.reserved| - 1;
    assert labelled[i].range == AllTaken(plan)[i];
    assert plan.reserved[n] in plan.reserved && plan.reserved[n] in plan.reserved + [plan.pool];
  }

  lemma Stage2ADecides(info: Diagnostics, plan: KernelPlan, allocator: AllocatorPlan, ram: seq<Range>)
    requires InitrdCloses(plan) && LabelsOf(plan, allocator.reserved) && InitrdOf(info, plan.initrd.value)
    requires GoodBlock(plan.pool, POOL_SIZE, ram, plan.reserved)
    requires GoodBlock(plan.heap, HEAP_SIZE, ram, plan.reserved + [plan.pool])
    ensures PlanInitrd(info, allocator)
            == if |plan.reserved| >= 4
               then Success(InitrdPlan(Range(info.initrdStart.value, info.initrdEnd.value), plan.initrd.value))
               else Failure(OverlapsReserved)
  {
    var n := |plan.reserved| - 1;
    assert |RangesOf(allocator.reserved)| == |allocator.reserved| == n + 3;
    LabelledInitrd(plan, allocator.reserved, ram, n);
    forall i | 0 <= i < |allocator.reserved| && i != n
      ensures !plan.initrd.value.Overlaps(allocator.reserved[i].range)
    {
      LabelledInitrd(plan, allocator.reserved, ram, i);
    }
    InitrdDecision(info, allocator, n, plan.initrd.value);
  }

  lemma Stage2AByCount(info: Diagnostics, kernel: Range, dtb: Range)
    requires Plan(info, kernel, dtb).Success? && Plan(info, kernel, dtb).value.initrd.Some?
    requires Handoff(info, Plan(info, kernel, dtb).value).Success?
    ensures var plan := Plan(info, kernel, dtb).value; var out := PlanInitrd(info, Handoff(info, plan).value);
            && info.initrdStart.Some? && info.initrdEnd.Some?
            && out == if |plan.reserved| >= 4
                      then Success(InitrdPlan(Range(info.initrdStart.value, info.initrdEnd.value), plan.initrd.value))
                      else Failure(OverlapsReserved)
  {
    var plan := Plan(info, kernel, dtb).value;
    InitrdIsLast(info, kernel, dtb);
    LabelledExact(info, kernel, dtb);
    PlanBlocks(info, kernel, dtb);
    Stage2ADecides(info, plan, Handoff(info, plan).value, Ram(info).value);
  }

  /** The distinct ranges reserved before the initrd. */
  ghost function ReservedFirst(info: Diagnostics, kernel: Range, dtb: Range): set<Range> {
    {LOW_FIRMWARE, kernel, dtb} + set d | d in info.reserved && d.size != 0 && AsRange(d).Some? :: AsRange(d).value
  }

  lemma {:induction false} DistinctSize(rs: seq<Range>)
    requires NoDuplicates(rs)
    ensures |rs| == |set r | r in rs|
  {
    if rs != [] {
      var front, last := rs[..|rs| - 1], rs[|rs| - 1];
      DistinctSize(front);
      assert last !in front;
      assert rs == front + [last];
      assert (set r | r in rs) == (set r | r in front) + {last};
    }
  }

  lemma ReservedCount(info: Diagnostics, kernel: Range, dtb: Range)
    requires Plan(info, kernel, dtb).Success? && Plan(info, kernel, dtb).value.initrd.Some?
    ensures |Plan(info, kernel, dtb).value.reserved| == |ReservedFirst(info, kernel, dtb)| + 1
  {
    FixedFacts(kernel, dtb);
    var fixed := FixedReservations(kernel, dtb).value;
    AddFirmwareAdds(fixed, info.reserved, kernel);
    var rs := AddFirmware(fixed, info.reserved).value;
    assert Plan(info, kernel, dtb).value.initrd.value !in rs;
    DistinctSize(rs);
    ReservedAre(info, kernel, dtb, rs);
  }

  lemma ReservedAre(info: Diagnostics, kernel: Range, dtb: Range, rs: seq<Range>)
    requires FixedReservations(kernel, dtb).Success?
    requires AddFirmware(FixedReservations(kernel, dtb).value, info.reserved) == Success(rs)
    ensures (set r | r in rs) == ReservedFirst(info, kernel, dtb)
  {
    FixedFacts(kernel, dtb);
    forall r ensures r in rs <==> r in ReservedFirst(info, kernel, dtb) {
      AddFirmwareAdds(FixedReservations(kernel, dtb).value, info.reserved, r);
    }
  }

  /** Stage 2A accepts the initrd stage 1 reserved, with the same reservation,
      exactly when low firmware, kernel, DTB and the non-empty firmware ranges
      make at least three distinct ranges: the hand-over names reservations 0,
      1 and 2 by position. */
  lemma Stage2AAgrees(info: Diagnostics, kernel: Range, dtb: Range)
    requires Plan(info, kernel, dtb).Success? && Plan(info, kernel, dtb).value.initrd.Some?
    requires Handoff(info, Plan(info, kernel, dtb).value).Success?
    ensures var plan := Plan(info, kernel, dtb).value; var out := PlanInitrd(info, Handoff(info, plan).value);
            && info.initrdStart.Some? && info.initrdEnd.Some?
            && out == if |ReservedFirst(info, kernel, dtb)| >= 3
                      then Success(InitrdPlan(Range(info.initrdStart.value, info.initrdEnd.value), plan.initrd.value))
                      else Failure(OverlapsReserved)
  {
    Stage2AByCount(info, kernel, dtb);
    ReservedCount(info, kernel, dtb);
  }

  /** Distinct low-firmware, kernel and DTB ranges are enough. */
  lemma Stage2AAccepts(info: Diagnostics, kernel: Range, dtb: Range)
    requires Plan(info, kernel, dtb).Success? && Plan(info, kernel, dtb).value.initrd.Some?
    requires Handoff(info, Plan(info, kernel, dtb).value).Success?
    requires kernel != LOW_FIRMWARE && dtb != LOW_FIRMWARE && kernel != dtb
    ensures var plan := Plan(info, kernel, dtb).value;
            PlanInitrd(info, Handoff(info, plan).value)
            == Success(InitrdPlan(Range(info.initrdStart.value, info.initrdEnd.value), plan.initrd.value))
  {
    Stage2AByCount(info, kernel, dtb);
    DistinctFixedRanges(info, kernel, dtb);
  }

  lemma DistinctFixedRanges(info: Diagnostics, kernel: Range, dtb: Range)
    requires Plan(info, kernel, dtb).Success? && Plan(info, kernel, dtb).value.initrd.Some?
    requires kernel != LOW_FIRMWARE && dtb != LOW_FIRMWARE && kernel != dtb
    ensures |Plan(info, kernel, dtb).value.reserved| >= 4
  {
    FixedFacts(kernel, dtb);
    var fixed := FixedReservations(kernel, dtb).value;
    AddFirmwareAdds(fixed, info.reserved, kernel);
    assert Plan(info, kernel, dtb).value.initrd.value !in AddFirmware(fixed, info.reserved).value;
  }
}
