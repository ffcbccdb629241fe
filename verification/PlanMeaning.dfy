/** Every answer of the stage-1 planner, said of its inputs: the ranges firmware
    lists, the kernel, the DTB and the initrd, in plain arithmetic. */
module PlanMeaning {
  import opened Machine
  import opened Stage1Ranges
  import opened KernelPlanner
  import opened KernelPlanProofs
  import opened PlanRefusals

  // -------------------------------------------------------------- listed ranges

  /** A listed, non-empty range runs past the last address. */
  predicate RunsOver(d: DiagnosticRange) { d.size != 0 && d.start + d.size >= U64_LIMIT }

  predicate SomeRunsOver(ds: seq<DiagnosticRange>) { exists d :: d in ds && RunsOver(d) }

  /** The non-empty listed ranges, in order. */
  function Extents(ds: seq<DiagnosticRange>): seq<Range>
    requires !SomeRunsOver(ds)
  {
    if ds == [] then []
    else
      var n := |ds| - 1;
      assert !RunsOver(ds[n]) by { assert ds[n] in ds; }
      Extents(ds[..n]) + if ds[n].size == 0 then [] else [Range(ds[n].start, ds[n].start + ds[n].size)]
  }

  /** The list without later repeats. */
  function Firsts(rs: seq<Range>): seq<Range> {
    if rs == [] then []
    else
      var n := |rs| - 1;
      Firsts(rs[..n]) + if rs[n] in rs[..n] then [] else [rs[n]]
  }

  lemma {:induction false} FirstsMembers(rs: seq<Range>, r: Range)
    ensures r in Firsts(rs) <==> r in rs
  {
    if rs != [] {
      var n := |rs| - 1;
      FirstsMembers(rs[..n], r);
      assert rs == rs[..n] + [rs[n]];
    }
  }

  lemma FirstsSnoc(rs: seq<Range>, r: Range)
    ensures Firsts(rs + [r]) == if r in rs then Firsts(rs) else Firsts(rs) + [r]
  {
    assert (rs + [r])[..|rs|] == rs;
    assert Firsts(rs) + [] == Firsts(rs);
  }

  lemma SnocRunsOver(ds: seq<DiagnosticRange>)
    requires ds != []
    ensures SomeRunsOver(ds) <==> SomeRunsOver(ds[..|ds| - 1]) || RunsOver(ds[|ds| - 1])
  {
    assert ds == ds[..|ds| - 1] + [ds[|ds| - 1]];
  }

  lemma ExtentsCons(d: DiagnosticRange, ds: seq<DiagnosticRange>)
    requires !SomeRunsOver([d] + ds)
    ensures !RunsOver(d) && !SomeRunsOver(ds)
    ensures Extents([d] + ds) == (if d.size == 0 then [] else [Range(d.start, d.start + d.size)]) + Extents(ds)
    decreases |ds|
  {
    assert d in [d] + ds && forall x :: x in ds ==> x in [d] + ds;
    if ds == [] {
      assert [d] + ds == [d] && [d][..0] == [];
    } else {
      var n := |ds| - 1;
      assert ([d] + ds)[..n + 1] == [d] + ds[..n];
      SnocRunsOver([d] + ds);
      ExtentsCons(d, ds[..n]);
    }
  }

  lemma ConsRunsOver(d: DiagnosticRange, ds: seq<DiagnosticRange>)
    ensures SomeRunsOver([d] + ds) <==> RunsOver(d) || SomeRunsOver(ds)
  {
    if RunsOver(d) { assert d in [d] + ds; }
    if x :| x in ds && RunsOver(x) { assert x in [d] + ds; }
  }

  lemma {:induction false} RamMeans(acc: seq<Range>, memory: seq<DiagnosticRange>)
    ensures RamFrom(acc, memory) == if SomeRunsOver(memory) then None else Some(acc + Extents(memory))
    decreases |memory|
  {
    if memory == [] {
      assert acc + [] == acc;
    } else {
      var d, rest := memory[0], memory[1..];
      assert memory == [d] + rest;
      ConsRunsOver(d, rest);
      if !RunsOver(d) {
        var next := if d.size == 0 then acc else acc + [AsRange(d).value];
        RamMeans(next, rest);
        if !SomeRunsOver(rest) {
          ExtentsCons(d, rest);
          assert acc + Extents(memory) == next + Extents(rest);
        }
      }
    }
  }

  lemma AppendMeans(before: seq<Range>, r: Range)
    requires |Firsts(before)| < MAX_RESERVED
    ensures AppendReserved(Firsts(before), r) == Success(Firsts(before + [r]))
    ensures |Firsts(before + [r])| <= |Firsts(before)| + 1
  {
    FirstsMembers(before, r);
    FirstsSnoc(before, r);
    AppendIs(Firsts(before), r, Firsts(before + [r]));
  }

  lemma AppendIs(rs: seq<Range>, r: Range, all: seq<Range>)
    requires |rs| < MAX_RESERVED && all == if r in rs then rs else rs + [r]
    ensures AppendReserved(rs, r) == Success(all) && |all| <= |rs| + 1
  {
  }

  /** Adding to a list without repeats keeps first occurrences. */
  lemma {:induction false} FirmwareMeans(before: seq<Range>, firmware: seq<DiagnosticRange>)
    requires |Firsts(before)| + |firmware| <= MAX_RESERVED
    ensures AddFirmware(Firsts(before), firmware)
            == if SomeRunsOver(firmware) then Failure(AddressOverflow) else Success(Firsts(before + Extents(firmware)))
    decreases |firmware|
  {
    if firmware == [] {
      assert before + [] == before;
    } else {
      var d, rest := firmware[0], firmware[1..];
      assert firmware == [d] + rest;
      ConsRunsOver(d, rest);
      if !SomeRunsOver(firmware) { ExtentsCons(d, rest); }
      if d.size == 0 {
        FirmwareMeans(before, rest);
        if !SomeRunsOver(firmware) { assert Extents(firmware) == Extents(rest); }
      } else if !RunsOver(d) {
        var next := before + [AsRange(d).value];
        AppendMeans(before, AsRange(d).value);
        FirmwareMeans(next, rest);
        if !SomeRunsOver(firmware) { assert before + Extents(firmware) == next + Extents(rest); }
      }
    }
  }

  // ------------------------------------------------------------------- initrd

  /** The page boundary at or below `v`, and the one at or above it. */
  function RoundDown(v: int): int { v - v % 4096 }

  function RoundUp(v: int): int { if v % 4096 == 0 then v else RoundDown(v) + 4096 }

  lemma RoundingMeans(v: u64)
    ensures AlignDown(v, PAGE) == RoundDown(v)
    ensures AlignUp(v, PAGE) == if v + 4095 < U64_LIMIT then Some(RoundUp(v)) else None
  {
  }

  /** One listed RAM range holds all of `[start, end)`. */
  predicate OneRamHolds(memory: seq<DiagnosticRange>, start: int, end: int) {
    exists d :: d in memory && d.size != 0 && !RunsOver(d) && d.start <= start && end <= d.start + d.size
  }

  lemma InsideMeans(memory: seq<DiagnosticRange>, start: u64, end: u64)
    ensures InsideRam(memory, start, end) <==> OneRamHolds(memory, start, end)
  {
    if m :| m in memory && m.size != 0 && AsRange(m).Some? && AsRange(m).value.Holds(start, end) { assert m in memory; }
    if d :| d in memory && d.size != 0 && !RunsOver(d) && d.start <= start && end <= d.start + d.size {
      assert AsRange(d).value.Holds(start, end);
    }
  }

  predicate Crosses(lo: int, hi: int, start: int, end: int) { lo < end && start < hi }

  /** `[lo, hi)` crosses low firmware, the kernel, the DTB or a listed range. */
  predicate CrossesReserved(info: Diagnostics, kernel: Range, dtb: Range, lo: int, hi: int) {
    || Crosses(lo, hi, 0, 0x8_0000) || Crosses(lo, hi, kernel.start, kernel.end) || Crosses(lo, hi, dtb.start, dtb.end)
    || exists d :: d in info.reserved && d.size != 0 && Crosses(lo, hi, d.start, d.start + d.size)
  }

  /** What is reserved before the initrd, repeats and all. */
  function Wanted(info: Diagnostics, kernel: Range, dtb: Range): seq<Range>
    requires !SomeRunsOver(info.reserved)
  {
    [Range(0, 0x8_0000), kernel, dtb] + Extents(info.reserved)
  }

  lemma {:induction false} ExtentsListed(ds: seq<DiagnosticRange>, r: Range)
    requires !SomeRunsOver(ds)
    ensures r in Extents(ds) <==> exists d :: d in ds && d.size != 0 && r.start == d.start && r.end == d.start + d.size
  {
    if ds != [] {
      var n := |ds| - 1;
      assert ds == ds[..n] + [ds[n]];
      SnocRunsOver(ds);
      ExtentsListed(ds[..n], r);
    }
  }

  lemma CrossesMeans(info: Diagnostics, kernel: Range, dtb: Range, reservation: Range)
    requires !SomeRunsOver(info.reserved)
    ensures (exists r :: r in Firsts(Wanted(info, kernel, dtb)) && reservation.Overlaps(r))
            <==> CrossesReserved(info, kernel, dtb, reservation.start, reservation.end)
  {
    var wanted, lo, hi := Wanted(info, kernel, dtb), reservation.start, reservation.end;
    if r :| r in Firsts(wanted) && reservation.Overlaps(r) {
      FirstsMembers(wanted, r);
      ExtentsListed(info.reserved, r);
    }
    if CrossesReserved(info, kernel, dtb, lo, hi) {
      var r :| r in wanted && reservation.Overlaps(r) by { CrossesWanted(info, kernel, dtb, reservation); }
      FirstsMembers(wanted, r);
    }
  }

  lemma CrossesWanted(info: Diagnostics, kernel: Range, dtb: Range, reservation: Range)
    requires !SomeRunsOver(info.reserved) && CrossesReserved(info, kernel, dtb, reservation.start, reservation.end)
    ensures exists r :: r in Wanted(info, kernel, dtb) && reservation.Overlaps(r)
  {
    var wanted := Wanted(info, kernel, dtb);
    assert wanted[0] in wanted && wanted[1] in wanted && wanted[2] in wanted;
    if d :| d in info.reserved && d.size != 0 && Crosses(reservation.start, reservation.end, d.start, d.start + d.size) {
      assert !RunsOver(d);
      var r := Range(d.start, d.start + d.size);
      ExtentsListed(info.reserved, r);
      assert r in wanted && reservation.Overlaps(r);
    } else {
      assert reservation.Overlaps(wanted[0]) || reservation.Overlaps(wanted[1]) || reservation.Overlaps(wanted[2]);
    }
  }

  // ------------------------------------------------------------- reservations

  predicate InitrdGiven(info: Diagnostics) { info.initrdStart.Some? && info.initrdEnd.Some? }

  /** Why the reservations cannot be collected, if they cannot. */
  function ReservationFault(info: Diagnostics, kernel: Range, dtb: Range): Option<KernelFailure> {
    if SomeRunsOver(info.reserved) then Some(AddressOverflow)
    else if !InitrdGiven(info) then None
    else
      var start, end := info.initrdStart.value, info.initrdEnd.value;
      if start == 0 || end <= start then Some(InvalidDtbRange)
      else if end + 4095 >= U64_LIMIT then Some(AddressOverflow)
      else if !OneRamHolds(info.memory, start, end) || CrossesReserved(info, kernel, dtb, RoundDown(start), RoundUp(end))
      then Some(InvalidDtbRange)
      else None
  }

  /** The initrd rounded out to pages. */
  function InitrdPages(info: Diagnostics): Range
    requires InitrdGiven(info) && info.initrdEnd.value + 4095 < U64_LIMIT
  {
    Range(RoundDown(info.initrdStart.value), RoundUp(info.initrdEnd.value))
  }

  lemma FixedMeans(kernel: Range, dtb: Range)
    ensures FixedReservations(kernel, dtb) == Success(Firsts([Range(0, 0x8_0000), kernel, dtb]))
    ensures |Firsts([Range(0, 0x8_0000), kernel, dtb])| <= 3
  {
    assert [] + [LOW_FIRMWARE] == [LOW_FIRMWARE];
    AppendMeans([], LOW_FIRMWARE);
    assert [LOW_FIRMWARE] + [kernel] == [LOW_FIRMWARE, kernel];
    AppendMeans([LOW_FIRMWARE], kernel);
    assert [LOW_FIRMWARE, kernel] + [dtb] == [LOW_FIRMWARE, kernel, dtb];
    AppendMeans([LOW_FIRMWARE, kernel], dtb);
  }

  lemma InitrdMeans(info: Diagnostics, kernel: Range, dtb: Range)
    requires InitrdGiven(info) && !SomeRunsOver(info.reserved)
    ensures var fault := ReservationFault(info, kernel, dtb);
            InitrdReservation(info.memory, Firsts(Wanted(info, kernel, dtb)), info.initrdStart.value, info.initrdEnd.value)
            == if fault.Some? then Failure(fault.value) else Success(InitrdPages(info))
  {
    var start, end := info.initrdStart.value, info.initrdEnd.value;
    RoundingMeans(start);
    RoundingMeans(end);
    InsideMeans(info.memory, start, end);
    if end + 4095 < U64_LIMIT { CrossesMeans(info, kernel, dtb, InitrdPages(info)); }
  }

  lemma {:induction false} FirstsLength(rs: seq<Range>)
    ensures |Firsts(rs)| <= |rs|
  {
    if rs != [] { FirstsLength(rs[..|rs| - 1]); }
  }

  lemma {:induction false} ExtentsLength(ds: seq<DiagnosticRange>)
    requires !SomeRunsOver(ds)
    ensures |Extents(ds)| <= |ds|
  {
    if ds != [] {
      SnocRunsOver(ds);
      ExtentsLength(ds[..|ds| - 1]);
    }
  }

  /** All reservations, in the order they are first named. */
  function Reserved(info: Diagnostics, kernel: Range, dtb: Range): seq<Range>
    requires ReservationFault(info, kernel, dtb).None?
  {
    Firsts(Wanted(info, kernel, dtb) + if InitrdGiven(info) then [InitrdPages(info)] else [])
  }

  lemma BeforeInitrd(info: Diagnostics, kernel: Range, dtb: Range)
    ensures FixedReservations(kernel, dtb).Success?
    ensures AddFirmware(FixedReservations(kernel, dtb).value, info.reserved)
            == if SomeRunsOver(info.reserved) then Failure(AddressOverflow) else Success(Firsts(Wanted(info, kernel, dtb)))
  {
    FixedMeans(kernel, dtb);
    FirmwareMeans([Range(0, 0x8_0000), kernel, dtb], info.reserved);
  }

  /** Collecting the reservations fails exactly for the fault of the inputs, and
      otherwise lists low firmware, kernel, DTB, the non-empty firmware ranges and
      the initrd when one is given, each once, in this order. */
  lemma ReservationsMean(info: Diagnostics, kernel: Range, dtb: Range)
    ensures var fault := ReservationFault(info, kernel, dtb);
            Reservations(info, kernel, dtb)
            == if fault.Some? then Failure(fault.value)
               else Success((Reserved(info, kernel, dtb), if InitrdGiven(info) then Some(InitrdPages(info)) else None))
  {
    BeforeInitrd(info, kernel, dtb);
    if !SomeRunsOver(info.reserved) {
      var wanted := Wanted(info, kernel, dtb);
      if InitrdGiven(info) {
        InitrdMeans(info, kernel, dtb);
        if ReservationFault(info, kernel, dtb).None? {
          FirstsLength(wanted);
          ExtentsLength(info.reserved);
          AppendMeans(wanted, InitrdPages(info));
        }
      } else {
        assert wanted + [] == wanted;
      }
    }
  }

  // ----------------------------------------------------------------- the plan

  /** Why planning stops before memory is carved, if it does. */
  function EarlyFault(info: Diagnostics, kernel: Range, dtb: Range): Option<KernelFailure> {
    if kernel.end <= kernel.start then Some(InvalidKernelRange)
    else if dtb.end <= dtb.start then Some(InvalidDtbRange)
    else if info.memoryTruncated || info.reservedTruncated then Some(FirmwareRangesTruncated)
    else if ReservationFault(info, kernel, dtb).Some? then ReservationFault(info, kernel, dtb)
    else if SomeRunsOver(info.memory) then Some(AddressOverflow)
    else None
  }

  /** Which firmware entries are empty. */
  lemma {:induction false} ZeroSizedExact(firmware: seq<DiagnosticRange>, i: nat)
    ensures i in ZeroSized(firmware) <==> i < |firmware| && firmware[i].size == 0
    ensures forall j, k :: 0 <= j < k < |ZeroSized(firmware)| ==> ZeroSized(firmware)[j] < ZeroSized(firmware)[k]
    decreases |firmware|
  {
    if firmware != [] {
      var n := |firmware| - 1;
      var front := ZeroSized(firmware[..n]);
      ZeroSizedExact(firmware[..n], i);
      forall j | 0 <= j < |front| ensures front[j] < n { ZeroSizedExact(firmware[..n], front[j]); }
    }
  }

  /** The plan made of what was carved. */
  ghost predicate Carves(info: Diagnostics, carved: Result<(seq<Range>, Range, Range), KernelFailure>, rs: seq<Range>,
                         initrd: Option<Range>, plan: Result<KernelPlan, KernelFailure>) {
    if carved.Failure? then plan == Failure(carved.error)
    else var (usable, pool, heap) := carved.value;
         plan == Success(KernelPlan(rs, ZeroSized(info.reserved), usable, pool, heap, initrd))
  }

  lemma PlanCarves(info: Diagnostics, kernel: Range, dtb: Range, rs: seq<Range>, initrd: Option<Range>, ram: seq<Range>)
    requires !kernel.IsEmpty() && !dtb.IsEmpty() && !info.memoryTruncated && !info.reservedTruncated
    requires Reservations(info, kernel, dtb) == Success((rs, initrd)) && Ram(info) == Some(ram)
    ensures Carves(info, Carve(ram, rs), rs, initrd, Plan(info, kernel, dtb))
  {
  }

  lemma PlanStops(info: Diagnostics, kernel: Range, dtb: Range, fault: KernelFailure)
    requires kernel.IsEmpty() ==> fault == InvalidKernelRange
    requires !kernel.IsEmpty() && dtb.IsEmpty() ==> fault == InvalidDtbRange
    requires !kernel.IsEmpty() && !dtb.IsEmpty() ==>
               if info.memoryTruncated || info.reservedTruncated then fault == FirmwareRangesTruncated
               else if Reservations(info, kernel, dtb).Failure? then fault == Reservations(info, kernel, dtb).error
               else Ram(info).None? && fault == AddressOverflow
    ensures Plan(info, kernel, dtb) == Failure(fault)
  {
  }

  /** Before memory is carved the plan fails exactly for the fault of the inputs. */
  lemma PlanEarly(info: Diagnostics, kernel: Range, dtb: Range)
    ensures var fault := EarlyFault(info, kernel, dtb);
            if fault.Some? then Plan(info, kernel, dtb) == Failure(fault.value)
            else && Ram(info) == Some(Extents(info.memory))
                 && Carves(info, Carve(Extents(info.memory), Reserved(info, kernel, dtb)), Reserved(info, kernel, dtb),
                           if InitrdGiven(info) then Some(InitrdPages(info)) else None, Plan(info, kernel, dtb))
  {
    ReservationsMean(info, kernel, dtb);
    RamMeans([], info.memory);
    var fault := EarlyFault(info, kernel, dtb);
    if fault.Some? {
      PlanStops(info, kernel, dtb, fault.value);
    } else {
      assert [] + Extents(info.memory) == Extents(info.memory);
      PlanCarves(info, kernel, dtb, Reserved(info, kernel, dtb),
                 if InitrdGiven(info) then Some(InitrdPages(info)) else None, Extents(info.memory));
    }
  }

  /** Every answer of the planner over disjoint RAM below the top of the address
      space: the fault of the inputs; else no pool when no aligned block of its
      size lies in RAM clear of the reservations; else no heap when none is clear
      of the first such pool as well; else a plan. */
  lemma PlanMeans(info: Diagnostics, kernel: Range, dtb: Range)
    requires !SomeRunsOver(info.memory) ==>
               && Disjoint(Extents(info.memory))
               && BelowTop(Extents(info.memory), POOL_SIZE) && BelowTop(Extents(info.memory), HEAP_SIZE)
    ensures var fault, plan := EarlyFault(info, kernel, dtb), Plan(info, kernel, dtb);
            if fault.Some? then plan == Failure(fault.value)
            else var ram, rs := Extents(info.memory), Reserved(info, kernel, dtb);
                 if !PlaceInRam(ram, rs, POOL_SIZE) then plan == Failure(NoPageTablePool)
                 else && FirstPool(ram, rs).Some?
                      && if !PlaceInRam(ram, rs + [FirstPool(ram, rs).value], HEAP_SIZE) then plan == Failure(NoEarlyHeap)
                         else plan.Success? && plan.value.reserved == rs && plan.value.pool == FirstPool(ram, rs).value
  {
    PlanEarly(info, kernel, dtb);
    if EarlyFault(info, kernel, dtb).None? {
      ReservationsMean(info, kernel, dtb);
      PlanRefuses(info, kernel, dtb);
      PoolPlanned(info, kernel, dtb);
    }
  }

  lemma PoolPlanned(info: Diagnostics, kernel: Range, dtb: Range)
    requires EarlyFault(info, kernel, dtb).None? && Disjoint(Extents(info.memory))
    requires BelowTop(Extents(info.memory), POOL_SIZE) && BelowTop(Extents(info.memory), HEAP_SIZE)
    ensures var ram, rs, plan := Extents(info.memory), Reserved(info, kernel, dtb), Plan(info, kernel, dtb);
            && (FirstPool(ram, rs).Some? <==> PlaceInRam(ram, rs, POOL_SIZE))
            && (plan.Success? ==> FirstPool(ram, rs) == Some(plan.value.pool))
  {
    var ram, rs := Extents(info.memory), Reserved(info, kernel, dtb);
    PlanEarly(info, kernel, dtb);
    ReservationsMean(info, kernel, dtb);
    RamFacts(info);
    ReservationsRoom(info, kernel, dtb);
    ReservationsNoneEmpty(info, kernel, dtb);
    PoolRefused(ram, rs);
    CarvedPool(ram, rs);
  }

  lemma CarvedPool(ram: seq<Range>, rs: seq<Range>)
    ensures Carve(ram, rs).Success? ==> FirstPool(ram, rs) == Some(Carve(ram, rs).value.1)
  {
  }
}
