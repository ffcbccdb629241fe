/** A concrete machine on which stage 2A refuses the initrd that stage 1
    reserved: its kernel image carries the device tree, so one range names both. */
module SharedImage {
  import opened Machine
  import opened Stage1Ranges
  import opened KernelPlanner
  import opened KernelPlanProofs
  import opened AllocatorHandoff
  import opened HandoffProofs
  import opened BootComposition

  const SHARED_IMAGE: Range := Range(0x80000, 0x100000)
  const SHARED_INITRD: Range := Range(0x800_0000, 0x900_0000)

  function SharedMachine(): Diagnostics {
    Diagnostics([DiagnosticRange(0, 0x4000_0000)], false, [], false, Some(0x800_0000), Some(0x900_0000), None, None)
  }

  lemma SubtractedOne(c: Range, r: Range)
    ensures Subtracted([c], r) == Kept(c, r) + Spilled(c, r)
  {
    assert [c][..0] == [];
    assert KeptAll([c], r) == [] + Kept(c, r) && SpilledAll([c], r) == [] + Spilled(c, r);
  }

  lemma SubtractedTwo(c: Range, d: Range, r: Range)
    ensures Subtracted([c, d], r) == Kept(c, r) + Kept(d, r) + (Spilled(c, r) + Spilled(d, r))
  {
    assert [c, d][..1] == [c] && [c][..0] == [];
    assert KeptAll([c], r) == [] + Kept(c, r) && SpilledAll([c], r) == [] + Spilled(c, r);
  }

  lemma FitsSmall(s: seq<Range>, r: Range)
    requires 1 <= |s| <= 2
    ensures Fits(s, r, MAX_USABLE)
  {
    assert FitsUpTo(s, r, 0, MAX_USABLE) && FitsUpTo(s, r, 1, MAX_USABLE);
  }

  lemma SharedFree()
    ensures SubtractAll([Range(0, 0x4000_0000)], [LOW_FIRMWARE, SHARED_IMAGE, SHARED_INITRD], MAX_USABLE)
            == Some([Range(0x100000, 0x800_0000), Range(0x900_0000, 0x4000_0000)])
  {
    var r0, r1, r2 := Range(0, 0x4000_0000), Range(0x80000, 0x4000_0000), Range(0x100000, 0x4000_0000);
    SubtractedOne(r0, LOW_FIRMWARE);
    SubtractedOne(r1, SHARED_IMAGE);
    SubtractedOne(r2, SHARED_INITRD);
    assert Subtracted([r0], LOW_FIRMWARE) == [r1] && Subtracted([r1], SHARED_IMAGE) == [r2];
    FitsSmall([r0], LOW_FIRMWARE);
    FitsSmall([r1], SHARED_IMAGE);
    FitsSmall([r2], SHARED_INITRD);
    var rs := [LOW_FIRMWARE, SHARED_IMAGE, SHARED_INITRD];
    assert rs[1..] == [SHARED_IMAGE, SHARED_INITRD];
    assert [SHARED_IMAGE, SHARED_INITRD][1..] == [SHARED_INITRD];
    assert [SHARED_INITRD][1..] == [];
    var last := Subtracted([r2], SHARED_INITRD);
    assert last == [Range(0x100000, 0x800_0000), Range(0x900_0000, 0x4000_0000)];
    assert SubtractAll([r2], [SHARED_INITRD], MAX_USABLE) == Some(last);
    assert SubtractAll([r1], [SHARED_IMAGE, SHARED_INITRD], MAX_USABLE) == Some(last);
  }

  lemma SharedReservations()
    ensures Reservations(SharedMachine(), SHARED_IMAGE, SHARED_IMAGE)
            == Success(([LOW_FIRMWARE, SHARED_IMAGE, SHARED_INITRD], Some(SHARED_INITRD)))
  {
    var info := SharedMachine();
    assert FixedReservations(SHARED_IMAGE, SHARED_IMAGE) == Success([LOW_FIRMWARE, SHARED_IMAGE]) by {
      assert [] + [LOW_FIRMWARE] == [LOW_FIRMWARE];
      assert [LOW_FIRMWARE] + [SHARED_IMAGE] == [LOW_FIRMWARE, SHARED_IMAGE];
    }
    assert AddFirmware([LOW_FIRMWARE, SHARED_IMAGE], info.reserved) == Success([LOW_FIRMWARE, SHARED_IMAGE]);
    assert info.memory[0] in info.memory && AsRange(info.memory[0]) == Some(Range(0, 0x4000_0000));
    assert [LOW_FIRMWARE, SHARED_IMAGE] + [SHARED_INITRD] == [LOW_FIRMWARE, SHARED_IMAGE, SHARED_INITRD];
    assert InitrdReservation(info.memory, [LOW_FIRMWARE, SHARED_IMAGE], 0x800_0000, 0x900_0000) == Success(SHARED_INITRD);
    assert AppendReserved([LOW_FIRMWARE, SHARED_IMAGE], SHARED_INITRD) == Success([LOW_FIRMWARE, SHARED_IMAGE, SHARED_INITRD]);
  }

  lemma SharedRam()
    ensures Ram(SharedMachine()) == Some([Range(0, 0x4000_0000)]) && Disjoint(Ram(SharedMachine()).value)
  {
    var memory := SharedMachine().memory;
    assert memory[1..] == [];
    assert RamFrom([Range(0, 0x4000_0000)], []) == Some([Range(0, 0x4000_0000)]);
    assert [] + [Range(0, 0x4000_0000)] == [Range(0, 0x4000_0000)];
    forall x: int ensures Multiplicity([Range(0, 0x4000_0000)], x) <= 1 {
      HoldersOne(Range(0, 0x4000_0000), x, x + 1);
    }
  }

  const SHARED_POOL: Range := Range(0x100000, 0x140000)
  const SHARED_HEAP: Range := Range(0x140000, 0x340000)

  const SHARED_FREE: seq<Range> := [Range(0x100000, 0x800_0000), Range(0x900_0000, 0x4000_0000)]
  const SHARED_REST: seq<Range> := [Range(0x140000, 0x800_0000), Range(0x900_0000, 0x4000_0000)]
  const SHARED_USABLE: seq<Range> := [Range(0x340000, 0x800_0000), Range(0x900_0000, 0x4000_0000)]

  lemma SharedBlocks()
    ensures Fits(SHARED_FREE, SHARED_POOL, MAX_USABLE) && Subtracted(SHARED_FREE, SHARED_POOL) == SHARED_REST
    ensures Fits(SHARED_REST, SHARED_HEAP, MAX_USABLE) && Subtracted(SHARED_REST, SHARED_HEAP) == SHARED_USABLE
  {
    var d := Range(0x900_0000, 0x4000_0000);
    FitsSmall(SHARED_FREE, SHARED_POOL);
    SubtractedTwo(Range(0x100000, 0x800_0000), d, SHARED_POOL);
    FitsSmall(SHARED_REST, SHARED_HEAP);
    SubtractedTwo(Range(0x140000, 0x800_0000), d, SHARED_HEAP);
  }

  lemma SharedCarve()
    ensures Carve([Range(0, 0x4000_0000)], [LOW_FIRMWARE, SHARED_IMAGE, SHARED_INITRD])
            == Success((SHARED_USABLE, SHARED_POOL, SHARED_HEAP))
  {
    SharedFree();
    SharedBlocks();
    assert Block(SHARED_FREE, POOL_SIZE) == Some(SHARED_POOL);
    assert Block(SHARED_REST, HEAP_SIZE) == Some(SHARED_HEAP);
  }

  function SharedKernelPlan(): KernelPlan {
    KernelPlan([LOW_FIRMWARE, SHARED_IMAGE, SHARED_INITRD], [], SHARED_USABLE, SHARED_POOL, SHARED_HEAP, Some(SHARED_INITRD))
  }

  lemma SharedPlan()
    ensures Plan(SharedMachine(), SHARED_IMAGE, SHARED_IMAGE) == Success(SharedKernelPlan())
  {
    SharedReservations();
    SharedRam();
    SharedCarve();
  }

  lemma SharedFreeAfter()
    ensures SubtractAll([Range(0, 0x4000_0000)], AllTaken(SharedKernelPlan()), MAX_USABLE) == Some(SHARED_USABLE)
  {
    SharedFree();
    SharedBlocks();
    var first, rest := [LOW_FIRMWARE, SHARED_IMAGE, SHARED_INITRD], [SHARED_POOL, SHARED_HEAP];
    SubtractAllConcat([Range(0, 0x4000_0000)], first, rest);
    assert AllTaken(SharedKernelPlan()) == first + rest;
    assert rest[1..] == [SHARED_HEAP] && [SHARED_HEAP][1..] == [];
    assert SubtractAll(SHARED_REST, [SHARED_HEAP], MAX_USABLE) == Some(SHARED_USABLE);
  }

  lemma {:induction false} SubtractAllConcat(free: seq<Range>, rs: seq<Range>, more: seq<Range>)
    ensures SubtractAll(free, rs + more, MAX_USABLE)
            == (var mid := SubtractAll(free, rs, MAX_USABLE);
                if mid.None? then None else SubtractAll(mid.value, more, MAX_USABLE))
    decreases |rs|
  {
    if rs == [] {
      assert rs + more == more;
    } else {
      assert (rs + more)[1..] == rs[1..] + more;
      if Fits(free, rs[0], MAX_USABLE) { SubtractAllConcat(Subtracted(free, rs[0]), rs[1..], more); }
    }
  }

  lemma SharedInteriors()
    ensures InteriorsFrom([], SHARED_USABLE) == Some(SHARED_USABLE) && Sorted(SHARED_USABLE) == SHARED_USABLE
  {
    var c, d := SHARED_USABLE[0], SHARED_USABLE[1];
    assert SHARED_USABLE == [c, d] && [c, d][1..] == [d] && [d][1..] == [];
    assert [] + [c] == [c] && [c] + [d] == [c, d];
    assert Interior(c) == Some(c) && Interior(d) == Some(d);
    assert InteriorsFrom([c], [d]) == Some([c, d]);
    assert [c, d][..1] == [c] && [c][..0] == [];
    assert Sorted([c]) == Insert([], c) == [c];
  }

  lemma SharedHandoff()
    ensures Plan(SharedMachine(), SHARED_IMAGE, SHARED_IMAGE) == Success(SharedKernelPlan())
    ensures Handoff(SharedMachine(), SharedKernelPlan()).Success?
  {
    SharedPlan();
    SharedRam();
    SharedFreeAfter();
    SharedInteriors();
    assert PageSum(SHARED_USABLE) > 0;
    HandoffBranches(SharedMachine(), SHARED_IMAGE, SHARED_IMAGE);
  }

  /** When kernel and DTB are one range the initrd is the third reservation, is
      labelled as the DTB, and stage 2A refuses what stage 1 reserved for it. */
  lemma Stage2ARefusesSharedImage()
    ensures var info := SharedMachine(); var plan := Plan(info, SHARED_IMAGE, SHARED_IMAGE);
            && plan.Success? && plan.value.initrd.Some? && Handoff(info, plan.value).Success?
            && PlanInitrd(info, Handoff(info, plan.value).value) == Failure(OverlapsReserved)
  {
    SharedHandoff();
    Stage2AByCount(SharedMachine(), SHARED_IMAGE, SHARED_IMAGE);
  }
}
