/** Every answer of the identity-map and initrd planners, said of their inputs in
    plain arithmetic. */
module MapMeaning {
  import opened Machine
  import opened Stage1Ranges
  import opened KernelPlanner
  import opened PlanMeaning
  import opened AllocatorHandoff
  import opened IdentityMap
  import opened BootComposition

  // --------------------------------------------------------- what runs over

  predicate RamRunsOver(d: DiagnosticRange) { d.size != 0 && d.start + d.size + 4095 >= U64_LIMIT }

  predicate PageRunsOver(base: nat) { RoundDown(base) + 4096 >= U64_LIMIT }

  predicate SomeRam(ds: seq<DiagnosticRange>) { exists d :: d in ds && RamRunsOver(d) }

  /** One of the four redistributor frames from number `i` on, 128 KiB apart. */
  predicate SomeFrame(base: nat, i: nat)
    decreases 4 - i
  {
    i < 4 && (PageRunsOver(base + i * 0x2_0000) || SomeFrame(base, i + 1))
  }

  predicate SomethingRunsOver(info: Diagnostics, uart: u64) {
    || SomeRam(info.memory) || PageRunsOver(uart)
    || (info.gicDistBase.Some? && PageRunsOver(info.gicDistBase.value))
    || (info.gicRedistBase.Some? && SomeFrame(info.gicRedistBase.value, 0))
  }

  // ------------------------------------------------------------ what is mapped

  /** The page of device registers at `base`. */
  function Device(base: nat): Mapping
    requires !PageRunsOver(base)
  {
    Mapping(Range(RoundDown(base), RoundDown(base) + 4096), DeviceNgnre)
  }

  /** The RAM ranges rounded out to pages, in order. */
  function Normals(ds: seq<DiagnosticRange>): seq<Mapping>
    requires !SomeRam(ds)
  {
    if ds == [] then []
    else
      var n := |ds| - 1;
      assert !RamRunsOver(ds[n]) by { assert ds[n] in ds; }
      Normals(ds[..n])
      + if ds[n].size == 0 then [] else [Mapping(Range(RoundDown(ds[n].start), RoundUp(ds[n].start + ds[n].size)), Normal)]
  }

  function Frames(base: nat, i: nat): seq<Mapping>
    requires !SomeFrame(base, i)
    decreases 4 - i
  {
    if i >= 4 then [] else [Device(base + i * 0x2_0000)] + Frames(base, i + 1)
  }

  function WantedMap(info: Diagnostics, uart: u64): seq<Mapping>
    requires !SomethingRunsOver(info, uart)
  {
    Normals(info.memory) + [Device(uart)]
    + (if info.gicDistBase.Some? then [Device(info.gicDistBase.value)] else [])
    + (if info.gicRedistBase.Some? then Frames(info.gicRedistBase.value, 0) else [])
  }

  lemma DeviceMeans(base: u64)
    ensures DevicePage(base) == if PageRunsOver(base) then None else Some(Device(base))
  {
    RoundingMeans(base);
  }

  lemma RamMeans(d: DiagnosticRange)
    requires d.size != 0
    ensures RamMapping(d) == if RamRunsOver(d) then None
                             else Some(Mapping(Range(RoundDown(d.start), RoundUp(d.start + d.size)), Normal))
  {
    RoundingMeans(d.start);
    if d.start + d.size < U64_LIMIT { RoundingMeans(d.start + d.size); }
  }

  lemma ConsRam(d: DiagnosticRange, ds: seq<DiagnosticRange>)
    ensures SomeRam([d] + ds) <==> RamRunsOver(d) || SomeRam(ds)
  {
    if RamRunsOver(d) { assert d in [d] + ds; }
    if x :| x in ds && RamRunsOver(x) { assert x in [d] + ds; }
  }

  lemma {:induction false} NormalsCons(d: DiagnosticRange, ds: seq<DiagnosticRange>)
    requires !SomeRam([d] + ds)
    ensures !RamRunsOver(d) && !SomeRam(ds)
    ensures Normals([d] + ds)
            == (if d.size == 0 then [] else [Mapping(Range(RoundDown(d.start), RoundUp(d.start + d.size)), Normal)]) + Normals(ds)
    decreases |ds|
  {
    ConsRam(d, ds);
    if ds == [] {
      assert [d] + ds == [d] && [d][..0] == [];
    } else {
      var n := |ds| - 1;
      assert ([d] + ds)[..n + 1] == [d] + ds[..n];
      assert SomeRam([d] + ds[..n]) ==> SomeRam([d] + ds);
      NormalsCons(d, ds[..n]);
    }
  }

  lemma NormalsNext(acc: seq<Mapping>, d: DiagnosticRange, rest: seq<DiagnosticRange>, next: seq<Mapping>)
    requires !SomeRam([d] + rest) && !RamRunsOver(d)
    requires next == if d.size == 0 then acc
                     else acc + [Mapping(Range(RoundDown(d.start), RoundUp(d.start + d.size)), Normal)]
    ensures !SomeRam(rest) && acc + Normals([d] + rest) == next + Normals(rest)
  {
    ConsRam(d, rest);
    NormalsCons(d, rest);
  }

  lemma {:induction false} NormalsMean(acc: seq<Mapping>, ds: seq<DiagnosticRange>)
    requires |acc| + |ds| <= MAX_MAPPINGS
    ensures RamMappingsFrom(acc, ds) == if SomeRam(ds) then Failure(MapOverflow) else Success(acc + Normals(ds))
    decreases |ds|
  {
    if ds == [] {
      assert acc + [] == acc;
    } else {
      var d, rest := ds[0], ds[1..];
      assert ds == [d] + rest;
      ConsRam(d, rest);
      if d.size != 0 { RamMeans(d); }
      if !RamRunsOver(d) {
        var next := if d.size == 0 then acc else acc + [RamMapping(d).value];
        NormalsMean(next, rest);
        if !SomeRam(rest) { NormalsNext(acc, d, rest, next); }
      }
    }
  }

  lemma FrameMeans(base: u64, i: nat)
    requires i < 4
    ensures RedistFrame(base, i) == if PageRunsOver(base + i * 0x2_0000) then None else Some(Device(base + i * 0x2_0000))
  {
    if base + i * 0x2_0000 < U64_LIMIT { DeviceMeans(base + i * 0x2_0000); }
  }

  lemma RedistStep(acc: seq<Mapping>, base: u64, i: nat)
    requires i < 4
    ensures RedistFrom(acc, base, i)
            == if PageRunsOver(base + i * 0x2_0000) then Failure(MapOverflow)
               else if |acc| == MAX_MAPPINGS then Failure(MappingCapacity)
               else RedistFrom(acc + [Device(base + i * 0x2_0000)], base, i + 1)
  {
    FrameMeans(base, i);
  }

  lemma FramesStep(acc: seq<Mapping>, base: nat, i: nat, page: Mapping)
    requires i < 4 && !SomeFrame(base, i) && page == Device(base + i * 0x2_0000)
    ensures acc + Frames(base, i) == (acc + [page]) + Frames(base, i + 1)
  {
  }

  lemma {:induction false} FramesMean(acc: seq<Mapping>, base: u64, i: nat)
    requires i <= 4 && |acc| + (4 - i) <= MAX_MAPPINGS + 1
    ensures var out := RedistFrom(acc, base, i);
            if SomeFrame(base, i) then out == Failure(MapOverflow)
            else if i < 4 && |acc| + (4 - i) > MAX_MAPPINGS then out == Failure(MappingCapacity)
            else out == Success(acc + Frames(base, i))
    decreases 4 - i
  {
    if i == 4 {
      assert acc + [] == acc;
    } else {
      RedistStep(acc, base, i);
      assert SomeFrame(base, i) <==> PageRunsOver(base + i * 0x2_0000) || SomeFrame(base, i + 1);
      assert i == 3 ==> !SomeFrame(base, i + 1);
      if !PageRunsOver(base + i * 0x2_0000) && |acc| < MAX_MAPPINGS {
        var page := Device(base + i * 0x2_0000);
        FramesMean(acc + [page], base, i + 1);
        if !SomeFrame(base, i) { FramesStep(acc, base, i, page); }
      }
    }
  }

  lemma {:induction false} FramesLength(base: nat, i: nat)
    requires i <= 4 && !SomeFrame(base, i)
    ensures |Frames(base, i)| == 4 - i
    decreases 4 - i
  {
    if i < 4 { FramesLength(base, i + 1); }
  }

  lemma {:induction false} NormalsLength(ds: seq<DiagnosticRange>)
    requires !SomeRam(ds)
    ensures |Normals(ds)| <= |ds|
  {
    if ds != [] {
      assert SomeRam(ds[..|ds| - 1]) ==> SomeRam(ds);
      NormalsLength(ds[..|ds| - 1]);
    }
  }

  /** RAM, UART and distributor always fit the table. */
  lemma FirstMappings(info: Diagnostics, uart: u64)
    requires !SomeRam(info.memory) && !PageRunsOver(uart) && (info.gicDistBase.Some? ==> !PageRunsOver(info.gicDistBase.value))
    ensures var first := Normals(info.memory) + [Device(uart)]
                         + (if info.gicDistBase.Some? then [Device(info.gicDistBase.value)] else []);
            && |first| <= 10
            && AllMappings(info, uart)
               == if info.gicRedistBase.None? then Success(first) else RedistFrom(first, info.gicRedistBase.value, 0)
  {
    NormalsMean([], info.memory);
    NormalsLength(info.memory);
    assert [] + Normals(info.memory) == Normals(info.memory);
    DeviceMeans(uart);
    if info.gicDistBase.Some? {
      DeviceMeans(info.gicDistBase.value);
    } else {
      assert Normals(info.memory) + [Device(uart)] + [] == Normals(info.memory) + [Device(uart)];
    }
  }

  lemma EarlyOverflow(info: Diagnostics, uart: u64)
    requires SomeRam(info.memory) || PageRunsOver(uart) || (info.gicDistBase.Some? && PageRunsOver(info.gicDistBase.value))
    ensures AllMappings(info, uart) == Failure(MapOverflow)
  {
    NormalsMean([], info.memory);
    if !SomeRam(info.memory) {
      NormalsLength(info.memory);
      DeviceMeans(uart);
      if info.gicDistBase.Some? { DeviceMeans(info.gicDistBase.value); }
    }
  }

  /** The mappings are the wanted ones, unless an address runs over, or there are
      more than thirteen. */
  lemma MappingsMean(info: Diagnostics, uart: u64)
    ensures AllMappings(info, uart)
            == if SomethingRunsOver(info, uart) then Failure(MapOverflow)
               else if |WantedMap(info, uart)| > 13 then Failure(MappingCapacity)
               else Success(WantedMap(info, uart))
  {
    if SomeRam(info.memory) || PageRunsOver(uart) || (info.gicDistBase.Some? && PageRunsOver(info.gicDistBase.value)) {
      EarlyOverflow(info, uart);
    } else {
      FirstMappings(info, uart);
      var first := Normals(info.memory) + [Device(uart)]
                   + (if info.gicDistBase.Some? then [Device(info.gicDistBase.value)] else []);
      if info.gicRedistBase.Some? {
        FramesMean(first, info.gicRedistBase.value, 0);
        if !SomeFrame(info.gicRedistBase.value, 0) { FramesLength(info.gicRedistBase.value, 0); }
      } else {
        assert first + [] == first;
      }
    }
  }

  // ------------------------------------------------------------------- checks

  predicate Share(a: Mapping, b: Mapping) {
    (a.memoryType == Normal) != (b.memoryType == Normal) && Crosses(a.range.start, a.range.end, b.range.start, b.range.end)
  }

  /** Why mapping `i` is refused: past the 512 GiB limit, or sharing addresses
      with a later mapping of the other type. */
  function MappingFault(ms: seq<Mapping>, i: nat): Option<MapFailure>
    requires i < |ms|
  {
    if ms[i].range.end > 0x80_0000_0000 then Some(AddressOutsideTtbr0)
    else if exists j :: i < j < |ms| && Share(ms[i], ms[j]) then Some(AttributeOverlap)
    else None
  }

  /** Some mapping from `i` on is at fault, and `why` is the first one's. */
  ghost predicate FaultFrom(ms: seq<Mapping>, i: nat, why: MapFailure) {
    exists k :: i <= k < |ms| && MappingFault(ms, k) == Some(why) && forall j :: i <= j < k ==> MappingFault(ms, j).None?
  }

  lemma {:induction false} FaultMeans(ms: seq<Mapping>, i: nat)
    requires i <= |ms|
    ensures var out := FirstFault(ms, i);
            if out.Some? then FaultFrom(ms, i, out.value) else forall k :: i <= k < |ms| ==> MappingFault(ms, k).None?
    decreases |ms| - i
  {
    if i < |ms| {
      assert forall j :: i < j < |ms| ==> (Clash(ms[i], ms[j]) <==> Share(ms[i], ms[j]));
      assert CheckAt(ms, i) == MappingFault(ms, i);
      if CheckAt(ms, i).None? { FaultMeans(ms, i + 1); }
    }
  }

  /** A non-empty range inside one Normal mapping. */
  predicate Mapped(ms: seq<Mapping>, r: Range) {
    r.start < r.end && exists m :: m in ms && m.memoryType == Normal && m.range.start <= r.start && r.end <= m.range.end
  }

  lemma MappedMeans(ms: seq<Mapping>, r: Range)
    ensures NormalContains(ms, r) <==> Mapped(ms, r)
  {
    if NormalContains(ms, r) { var m :| m in ms && m.memoryType == Normal && m.range.Holds(r.start, r.end); }
    if Mapped(ms, r) {
      var m :| m in ms && m.memoryType == Normal && m.range.start <= r.start && r.end <= m.range.end;
      assert m.range.Holds(r.start, r.end);
    }
  }

  /** What an accepted map must hold, in the order it is looked for. */
  predicate AllMapped(ms: seq<Mapping>, plan: KernelPlan, kernel: Range, stack: Range, dtb: Range) {
    Mapped(ms, kernel) && Mapped(ms, stack) && Mapped(ms, dtb) && Mapped(ms, plan.pool) && Mapped(ms, plan.heap)
  }

  predicate MissingAs(ms: seq<Mapping>, plan: KernelPlan, kernel: Range, stack: Range, dtb: Range, why: MapFailure) {
    if !Mapped(ms, kernel) then why == KernelNotMapped
    else if !Mapped(ms, stack) then why == CurrentStackNotMapped
    else if !Mapped(ms, dtb) then why == DtbNotMapped
    else if !Mapped(ms, plan.pool) then why == PageTablePoolNotMapped
    else !Mapped(ms, plan.heap) && why == EarlyHeapNotMapped
  }

  lemma UnmappedMeans(ms: seq<Mapping>, plan: KernelPlan, kernel: Range, stack: Range, dtb: Range)
    ensures var out := Unmapped(ms, plan, kernel, stack, dtb);
            if out.Some? then MissingAs(ms, plan, kernel, stack, dtb, out.value) else AllMapped(ms, plan, kernel, stack, dtb)
  {
    MappedMeans(ms, kernel);
    MappedMeans(ms, stack);
    MappedMeans(ms, dtb);
    MappedMeans(ms, plan.pool);
    MappedMeans(ms, plan.heap);
  }

  /** Every answer of the identity-map planner. */
  lemma MapMeans(info: Diagnostics, plan: KernelPlan, kernel: Range, stack: Range, dtb: Range, uart: u64)
    ensures var out := MapPlan(info, plan, kernel, stack, dtb, uart);
            if plan.pool.start % 4096 != 0 || plan.pool.end % 4096 != 0 || plan.pool.end < plan.pool.start + 0x4000
            then out == Failure(InvalidPageTablePool)
            else if SomethingRunsOver(info, uart) then out == Failure(MapOverflow)
            else var ms := WantedMap(info, uart);
                 if |ms| > 13 then out == Failure(MappingCapacity)
                 else if exists k :: 0 <= k < |ms| && MappingFault(ms, k).Some? then out.Failure? && FaultFrom(ms, 0, out.error)
                 else if !AllMapped(ms, plan, kernel, stack, dtb)
                 then out.Failure? && MissingAs(ms, plan, kernel, stack, dtb, out.error)
                 else out == Success(ms)
  {
    MappingsMean(info, uart);
    if !SomethingRunsOver(info, uart) {
      var ms := WantedMap(info, uart);
      FaultMeans(ms, 0);
      UnmappedMeans(ms, plan, kernel, stack, dtb);
    }
  }

  // ------------------------------------------------------------------ stage 2A

  /** Every answer of the initrd planner. */
  lemma InitrdMeans(info: Diagnostics, allocator: AllocatorPlan)
    ensures var out := PlanInitrd(info, allocator);
            if info.initrdStart.None? && info.initrdEnd.None? then out == Failure(Missing)
            else if !InitrdGiven(info) then out == Failure(IncompleteProperties)
            else
              var start, end := info.initrdStart.value, info.initrdEnd.value;
              if start == 0 || end <= start then out == Failure(InvalidRange)
              else if !OneRamHolds(info.memory, start, end) then out == Failure(OutsideFirmwareRam)
              else if end + 4095 >= U64_LIMIT then out == Failure(InitrdOverflow)
              else if exists r :: r in allocator.reserved && r.reason != Initrd
                                  && Crosses(RoundDown(start), RoundUp(end), r.range.start, r.range.end)
              then out == Failure(OverlapsReserved)
              else out == Success(InitrdPlan(Range(start, end), InitrdPages(info)))
  {
    if InitrdGiven(info) {
      var start, end := info.initrdStart.value, info.initrdEnd.value;
      InsideMeans(info.memory, start, end);
      RoundingMeans(start);
      RoundingMeans(end);
    }
  }
}
