/** What a successful stage-1 plan guarantees, and which failures it rules out. */
module KernelPlanProofs {
  import opened Machine
  import opened Stage1Ranges
  import opened KernelPlanner

  // ------------------------------------------------------ folding subtraction

  lemma {:induction false} SubtractAllHolders(free: seq<Range>, rs: seq<Range>, capacity: nat, a: int, b: int)
    requires a < b && NoneEmpty(rs) && SubtractAll(free, rs, capacity).Some?
    ensures Holders(SubtractAll(free, rs, capacity).value, a, b) == if AllMiss(rs, a, b) then Holders(free, a, b) else 0
    decreases |rs|
  {
    if rs != [] {
      assert rs[0] in rs;
      SubtractedHolders(free, rs[0], a, b);
      SubtractAllHolders(Subtracted(free, rs[0]), rs[1..], capacity, a, b);
      assert rs == [rs[0]] + rs[1..];
    }
  }

  lemma {:induction false} SubtractAllWithin(free: seq<Range>, rs: seq<Range>, capacity: nat, ram: seq<Range>)
    requires Within(free, ram) && NoneEmpty(free) && SubtractAll(free, rs, capacity).Some?
    ensures Within(SubtractAll(free, rs, capacity).value, ram)
    ensures NoneEmpty(SubtractAll(free, rs, capacity).value)
    decreases |rs|
  {
    if rs != [] {
      SubtractedWithin(free, rs[0], ram);
      SubtractAllWithin(Subtracted(free, rs[0]), rs[1..], capacity, ram);
    }
  }

  /** Disjoint lists need one slot per subtraction and stay disjoint. */
  lemma {:induction false} SubtractAllRoom(free: seq<Range>, rs: seq<Range>, capacity: nat)
    requires Disjoint(free) && NoneEmpty(rs) && |free| + |rs| <= capacity
    ensures var left := SubtractAll(free, rs, capacity);
            left.Some? && |left.value| <= |free| + |rs| && Disjoint(left.value)
    decreases |rs|
  {
    if rs != [] {
      assert rs[0] in rs;
      SubtractedGrowth(free, rs[0], capacity);
      SubtractedDisjoint(free, rs[0]);
      SubtractAllRoom(Subtracted(free, rs[0]), rs[1..], capacity);
    }
  }

  // ------------------------------------------------------------- reservations

  /** `r` is one of the non-empty firmware ranges. */
  ghost predicate Listed(firmware: seq<DiagnosticRange>, r: Range) {
    exists d :: d in firmware && d.size != 0 && AsRange(d) == Some(r)
  }

  ghost predicate NoDuplicates(rs: seq<Range>) {
    forall i, j :: 0 <= i < j < |rs| ==> rs[i] != rs[j]
  }

  lemma ListedCons(firmware: seq<DiagnosticRange>, r: Range)
    requires firmware != []
    ensures Listed(firmware, r) <==> (firmware[0].size != 0 && AsRange(firmware[0]) == Some(r)) || Listed(firmware[1..], r)
  {
    assert firmware == [firmware[0]] + firmware[1..];
    if firmware[0].size != 0 && AsRange(firmware[0]) == Some(r) { assert firmware[0] in firmware; }
  }

  lemma {:induction false} AddFirmwareAdds(rs: seq<Range>, firmware: seq<DiagnosticRange>, r: Range)
    requires AddFirmware(rs, firmware).Success? && NoDuplicates(rs)
    ensures var all := AddFirmware(rs, firmware).value;
            && rs <= all && |all| <= |rs| + |firmware| && NoDuplicates(all)
            && (r in all <==> r in rs || Listed(firmware, r))
    decreases |firmware|
  {
    if firmware != [] {
      ListedCons(firmware, r);
      var next := if firmware[0].size == 0 then rs else AppendReserved(rs, AsRange(firmware[0]).value).value;
      AddFirmwareAdds(next, firmware[1..], r);
    }
  }

  lemma {:induction false} AddFirmwareRoom(rs: seq<Range>, firmware: seq<DiagnosticRange>)
    requires |rs| + |firmware| <= MAX_RESERVED
    ensures AddFirmware(rs, firmware).Failure? ==> AddFirmware(rs, firmware).error == AddressOverflow
    decreases |firmware|
  {
    if firmware != [] {
      if firmware[0].size == 0 {
        AddFirmwareRoom(rs, firmware[1..]);
      } else if AsRange(firmware[0]).Some? {
        AddFirmwareRoom(AppendReserved(rs, AsRange(firmware[0]).value).value, firmware[1..]);
      }
    }
  }

  lemma FixedFacts(kernel: Range, dtb: Range)
    ensures var fixed := FixedReservations(kernel, dtb);
            && fixed.Success? && |fixed.value| <= 3 && NoDuplicates(fixed.value)
            && fixed.value[..1] == [LOW_FIRMWARE]
            && (|fixed.value| == 3 <==> kernel != LOW_FIRMWARE && dtb != LOW_FIRMWARE && kernel != dtb)
            && forall r :: r in fixed.value <==> r in {LOW_FIRMWARE, kernel, dtb}
  {
    FixedAre(kernel, dtb);
    ThreeListed(LOW_FIRMWARE, kernel, dtb);
  }

  /** The first, then each of the others unless already listed. */
  function FirstOf(a: Range, b: Range, c: Range): seq<Range> {
    var ab := if b == a then [a] else [a, b];
    if c in ab then ab else ab + [c]
  }

  lemma FixedAre(kernel: Range, dtb: Range)
    ensures FixedReservations(kernel, dtb) == Success(FirstOf(LOW_FIRMWARE, kernel, dtb))
  {
    assert AppendReserved([], LOW_FIRMWARE).value == [LOW_FIRMWARE];
    assert AppendReserved([LOW_FIRMWARE], kernel).value == if kernel == LOW_FIRMWARE then [LOW_FIRMWARE] else [LOW_FIRMWARE, kernel];
  }

  lemma ThreeListed(a: Range, b: Range, c: Range)
    ensures var s := FirstOf(a, b, c);
            && 1 <= |s| <= 3 && NoDuplicates(s) && s[..1] == [a]
            && (|s| == 3 <==> b != a && c != a && b != c)
            && forall r :: r in s <==> r in {a, b, c}
  {
  }

  /** The reservation list is exactly low firmware, kernel, DTB, every
      non-empty firmware range and the initrd, without repeats. */
  lemma ReservationsExact(info: Diagnostics, kernel: Range, dtb: Range, r: Range)
    requires Reservations(info, kernel, dtb).Success?
    ensures var (rs, initrd) := Reservations(info, kernel, dtb).value;
            && NoDuplicates(rs)
            && (r in rs <==> || r in {LOW_FIRMWARE, kernel, dtb} || Listed(info.reserved, r)
                             || (initrd.Some? && r == initrd.value))
  {
    FixedFacts(kernel, dtb);
    AddFirmwareAdds(FixedReservations(kernel, dtb).value, info.reserved, r);
  }

  lemma ReservationsNoneEmpty(info: Diagnostics, kernel: Range, dtb: Range)
    requires Reservations(info, kernel, dtb).Success? && !kernel.IsEmpty() && !dtb.IsEmpty()
    ensures NoneEmpty(Reservations(info, kernel, dtb).value.0)
  {
    forall r | r in Reservations(info, kernel, dtb).value.0 ensures !r.IsEmpty() {
      ReservationsExact(info, kernel, dtb, r);
    }
  }

  /** Three fixed entries, eight firmware entries and the initrd always fit. */
  lemma ReservationsRoom(info: Diagnostics, kernel: Range, dtb: Range)
    ensures Reservations(info, kernel, dtb).Failure? ==> Reservations(info, kernel, dtb).error in {AddressOverflow, InvalidDtbRange}
    ensures Reservations(info, kernel, dtb).Success? ==> |Reservations(info, kernel, dtb).value.0| <= MAX_RESERVED
  {
    FixedFacts(kernel, dtb);
    var first := FixedReservations(kernel, dtb).value;
    AddFirmwareRoom(first, info.reserved);
    if AddFirmware(first, info.reserved).Success? { AddFirmwareAdds(first, info.reserved, kernel); }
  }

  // ---------------------------------------------------------------------- RAM

  lemma {:induction false} RamFromListed(acc: seq<Range>, memory: seq<DiagnosticRange>, r: Range)
    requires RamFrom(acc, memory).Some?
    ensures var ram := RamFrom(acc, memory).value;
            |ram| <= |acc| + |memory| && (r in ram <==> r in acc || Listed(memory, r))
    decreases |memory|
  {
    if memory != [] {
      ListedCons(memory, r);
      RamFromListed(if memory[0].size == 0 then acc else acc + [AsRange(memory[0]).value], memory[1..], r);
    }
  }

  lemma RamFacts(info: Diagnostics)
    requires Ram(info).Some?
    ensures |Ram(info).value| <= 8 && NoneEmpty(Ram(info).value) && Within(Ram(info).value, Ram(info).value)
  {
    var ram := Ram(info).value;
    RamFromListed([], info.memory, LOW_FIRMWARE);
    forall r | r in ram ensures !r.IsEmpty() {
      RamFromListed([], info.memory, r);
    }
    forall r | r in ram ensures exists m :: m in ram && m.Holds(r.start, r.end) {
      assert r.Holds(r.start, r.end);
    }
  }

  // --------------------------------------------------------------- the blocks

  /** A carved block: aligned, of its exact size, inside one RAM range, meeting
      no reservation, and gone from what is left. */
  ghost predicate GoodBlock(block: Range, size: u64, ram: seq<Range>, rs: seq<Range>) {
    && block.start % BLOCK_ALIGNMENT == 0 && block.end == block.start + size
    && (exists m :: m in ram && m.Holds(block.start, block.end))
    && AllMiss(rs, block.start, block.end)
  }

  lemma BlockIsGood(free: seq<Range>, size: u64, ram: seq<Range>, rs: seq<Range>)
    requires size > 0 && Block(free, size).Some? && Within(free, ram)
    requires Clears(free, rs)
    ensures GoodBlock(Block(free, size).value, size, ram, rs)
  {
    FirstFitSound(free, size);
    var c := Block(free, size).value;
    HoldersPositive(free, c.start, c.end);
    var r :| r in free && r.Holds(c.start, c.end);
    var m :| m in ram && m.Holds(r.start, r.end);
    assert m.Holds(c.start, c.end);
  }

  // --------------------------------------------------------------- the theorem

  ghost function AllTaken(plan: KernelPlan): seq<Range> {
    plan.reserved + [plan.pool] + [plan.heap]
  }

  lemma AllMissSplit(rs: seq<Range>, r: Range, a: int, b: int)
    ensures AllMiss(rs + [r], a, b) <==> AllMiss(rs, a, b) && r.Misses(a, b)
  {
    if AllMiss(rs + [r], a, b) {
      assert r in rs + [r];
      assert forall x :: x in rs ==> x in rs + [r];
    }
  }

  /** Carving conserves every interval: whoever misses all that was taken keeps
      all its RAM holders, and the two blocks are good. */
  lemma CarveConserves(ram: seq<Range>, rs: seq<Range>, a: int, b: int)
    requires NoneEmpty(ram) && NoneEmpty(rs) && Within(ram, ram) && Carve(ram, rs).Success? && a < b
    ensures var (usable, pool, heap) := Carve(ram, rs).value;
            Holders(usable, a, b) == if AllMiss(rs + [pool] + [heap], a, b) then Holders(ram, a, b) else 0
  {
    var (usable, pool, heap) := Carve(ram, rs).value;
    var free := SubtractAll(ram, rs, MAX_USABLE).value;
    SubtractAllHolders(ram, rs, MAX_USABLE, a, b);
    FirstFitSound(free, POOL_SIZE);
    SubtractedHolders(free, pool, a, b);
    var rest := Subtracted(free, pool);
    FirstFitSound(rest, HEAP_SIZE);
    SubtractedHolders(rest, heap, a, b);
    AllMissSplit(rs + [pool], heap, a, b);
    AllMissSplit(rs, pool, a, b);
  }

  /** Nothing left over meets what was subtracted. */
  ghost predicate Clears(free: seq<Range>, rs: seq<Range>) {
    forall a: int, b: int :: a < b && Holders(free, a, b) > 0 ==> AllMiss(rs, a, b)
  }

  lemma SubtractAllClears(free: seq<Range>, rs: seq<Range>, capacity: nat)
    requires NoneEmpty(rs) && SubtractAll(free, rs, capacity).Some?
    ensures Clears(SubtractAll(free, rs, capacity).value, rs)
  {
    forall a: int, b: int | a < b && Holders(SubtractAll(free, rs, capacity).value, a, b) > 0 ensures AllMiss(rs, a, b) {
      SubtractAllHolders(free, rs, capacity, a, b);
    }
  }

  lemma SubtractedClears(free: seq<Range>, rs: seq<Range>, r: Range)
    requires Clears(free, rs) && !r.IsEmpty()
    ensures Clears(Subtracted(free, r), rs + [r])
  {
    forall a: int, b: int | a < b && Holders(Subtracted(free, r), a, b) > 0 ensures AllMiss(rs + [r], a, b) {
      SubtractedHolders(free, r, a, b);
      AllMissSplit(rs, r, a, b);
    }
  }

  ghost predicate Remainder(free: seq<Range>, ram: seq<Range>, rs: seq<Range>) {
    Within(free, ram) && NoneEmpty(free) && Clears(free, rs)
  }

  lemma RemainderStep(free: seq<Range>, ram: seq<Range>, rs: seq<Range>, size: u64)
    requires Remainder(free, ram, rs) && size > 0 && Block(free, size).Some?
    ensures var c := Block(free, size).value;
            GoodBlock(c, size, ram, rs) && Remainder(Subtracted(free, c), ram, rs + [c])
  {
    BlockIsGood(free, size, ram, rs);
    SubtractedWithin(free, Block(free, size).value, ram);
    SubtractedClears(free, rs, Block(free, size).value);
  }

  lemma SubtractAllRemainder(ram: seq<Range>, rs: seq<Range>)
    requires NoneEmpty(ram) && NoneEmpty(rs) && Within(ram, ram) && SubtractAll(ram, rs, MAX_USABLE).Some?
    ensures Remainder(SubtractAll(ram, rs, MAX_USABLE).value, ram, rs)
  {
    SubtractAllWithin(ram, rs, MAX_USABLE, ram);
    SubtractAllClears(ram, rs, MAX_USABLE);
  }

  lemma CarveBlocks(ram: seq<Range>, rs: seq<Range>)
    requires NoneEmpty(ram) && NoneEmpty(rs) && Within(ram, ram) && Carve(ram, rs).Success?
    ensures var (usable, pool, heap) := Carve(ram, rs).value;
            && GoodBlock(pool, POOL_SIZE, ram, rs) && GoodBlock(heap, HEAP_SIZE, ram, rs + [pool])
            && Remainder(usable, ram, rs + [pool] + [heap])
  {
    SubtractAllRemainder(ram, rs);
    TwoBlocks(SubtractAll(ram, rs, MAX_USABLE).value, ram, rs);
  }

  lemma TwoBlocks(free: seq<Range>, ram: seq<Range>, rs: seq<Range>)
    requires Remainder(free, ram, rs) && Block(free, POOL_SIZE).Some?
    requires Block(Subtracted(free, Block(free, POOL_SIZE).value), HEAP_SIZE).Some?
    ensures var pool := Block(free, POOL_SIZE).value;
            var rest := Subtracted(free, pool);
            var heap := Block(rest, HEAP_SIZE).value;
            && GoodBlock(pool, POOL_SIZE, ram, rs) && GoodBlock(heap, HEAP_SIZE, ram, rs + [pool])
            && Remainder(Subtracted(rest, heap), ram, rs + [pool] + [heap])
  {
    var pool := Block(free, POOL_SIZE).value;
    RemainderStep(free, ram, rs, POOL_SIZE);
    RemainderStep(Subtracted(free, pool), ram, rs + [pool], HEAP_SIZE);
  }

  /** Whenever planning succeeds: an interval is usable, as often as RAM lists
      it, exactly when it misses every reservation, the pool and the heap. */
  lemma PlanConserves(info: Diagnostics, kernel: Range, dtb: Range, a: int, b: int)
    requires Plan(info, kernel, dtb).Success? && a < b
    ensures var plan := Plan(info, kernel, dtb).value;
            Holders(plan.usable, a, b) == if AllMiss(AllTaken(plan), a, b) then Holders(Ram(info).value, a, b) else 0
  {
    ReservationsNoneEmpty(info, kernel, dtb);
    RamFacts(info);
    CarveConserves(Ram(info).value, Reservations(info, kernel, dtb).value.0, a, b);
  }

  lemma PlanBlocks(info: Diagnostics, kernel: Range, dtb: Range)
    requires Plan(info, kernel, dtb).Success?
    ensures var plan := Plan(info, kernel, dtb).value;
            && GoodBlock(plan.pool, POOL_SIZE, Ram(info).value, plan.reserved)
            && GoodBlock(plan.heap, HEAP_SIZE, Ram(info).value, plan.reserved + [plan.pool])
            && Remainder(plan.usable, Ram(info).value, AllTaken(plan))
  {
    ReservationsNoneEmpty(info, kernel, dtb);
    RamFacts(info);
    CarveBlocks(Ram(info).value, Reservations(info, kernel, dtb).value.0);
  }

  ghost function One(r: Range, x: int): nat { if r.Holds(x, x + 1) then 1 else 0 }

  /** Over disjoint RAM every unreserved address goes to exactly one of the
      usable ranges, the pool and the heap, and no reserved address goes to any. */
  lemma PlanPartitions(info: Diagnostics, kernel: Range, dtb: Range, x: int)
    requires Plan(info, kernel, dtb).Success? && Disjoint(Ram(info).value)
    ensures var plan := Plan(info, kernel, dtb).value;
            Multiplicity(plan.usable, x) + One(plan.pool, x) + One(plan.heap, x)
            == if AllMiss(plan.reserved, x, x + 1) then Multiplicity(Ram(info).value, x) else 0
  {
    var plan, ram := Plan(info, kernel, dtb).value, Ram(info).value;
    PlanConserves(info, kernel, dtb, x, x + 1);
    PlanBlocks(info, kernel, dtb);
    AllMissSplit(plan.reserved + [plan.pool], plan.heap, x, x + 1);
    AllMissSplit(plan.reserved, plan.pool, x, x + 1);
    assert plan.pool in plan.reserved + [plan.pool];
    HoldersPositive(ram, x, x + 1);
    assert Multiplicity(ram, x) <= 1;
    if One(plan.pool, x) > 0 { BlockAddress(plan.pool, POOL_SIZE, ram, plan.reserved, x); }
    if One(plan.heap, x) > 0 { BlockAddress(plan.heap, HEAP_SIZE, ram, plan.reserved + [plan.pool], x); }
  }

  lemma BlockAddress(block: Range, size: u64, ram: seq<Range>, rs: seq<Range>, x: int)
    requires GoodBlock(block, size, ram, rs) && block.Holds(x, x + 1)
    ensures Holders(ram, x, x + 1) > 0 && AllMiss(rs, x, x + 1)
  {
    HoldersPositive(ram, x, x + 1);
    var m :| m in ram && m.Holds(block.start, block.end);
    assert m.Holds(x, x + 1);
  }

  /** Over disjoint RAM neither capacity error is reachable. */
  lemma PlanHasRoom(info: Diagnostics, kernel: Range, dtb: Range)
    requires Ram(info).Some? ==> Disjoint(Ram(info).value)
    ensures Plan(info, kernel, dtb) != Failure(ReservedCapacity)
    ensures Plan(info, kernel, dtb) != Failure(UsableCapacity)
    ensures Plan(info, kernel, dtb).Success? ==> |Plan(info, kernel, dtb).value.usable| <= 22
  {
    ReservationsRoom(info, kernel, dtb);
    if !kernel.IsEmpty() && !dtb.IsEmpty() && Reservations(info, kernel, dtb).Success? && Ram(info).Some? {
      RamFacts(info);
      ReservationsNoneEmpty(info, kernel, dtb);
      CarveRoom(Ram(info).value, Reservations(info, kernel, dtb).value.0);
    }
  }

  lemma CarveRoom(ram: seq<Range>, rs: seq<Range>)
    requires Disjoint(ram) && NoneEmpty(rs) && |ram| <= 8 && |rs| <= MAX_RESERVED
    ensures Carve(ram, rs) != Failure(UsableCapacity) && Carve(ram, rs) != Failure(ReservedCapacity)
    ensures Carve(ram, rs).Success? ==> |Carve(ram, rs).value.0| <= 22
  {
    SubtractAllRoom(ram, rs, MAX_USABLE);
    if Carve(ram, rs).Success? {
      var (usable, pool, heap) := Carve(ram, rs).value;
      var free := SubtractAll(ram, rs, MAX_USABLE).value;
      FirstFitSound(free, POOL_SIZE);
      SubtractedGrowth(free, pool, MAX_USABLE);
      SubtractedDisjoint(free, pool);
      var rest := Subtracted(free, pool);
      FirstFitSound(rest, HEAP_SIZE);
      SubtractedGrowth(rest, heap, MAX_USABLE);
    }
  }
}
