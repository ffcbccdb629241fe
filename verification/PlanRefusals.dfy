/** When the planner finds no place for the page-table pool or the early heap. */
module PlanRefusals {
  import opened Machine
  import opened Stage1Ranges
  import opened KernelPlanner
  import opened KernelPlanProofs

  // ---------------------------------------------------------------- first fit

  /** An aligned block of `size` bytes fits inside the range. */
  ghost predicate RoomIn(r: Range, size: u64) {
    exists a: int :: a % BLOCK_ALIGNMENT == 0 && r.Holds(a, a + size)
  }

  /** Placing the block at the range's first aligned address leaves 64 bits. */
  predicate Wraps(r: Range, size: u64) {
    r.start + (BLOCK_ALIGNMENT - 1) >= U64_LIMIT || AlignUp(r.start, BLOCK_ALIGNMENT).value + size >= U64_LIMIT
  }

  /** Only ranges behind a wrapping one have room. */
  ghost predicate NoPlace(s: seq<Range>, size: u64) {
    forall i :: 0 <= i < |s| && RoomIn(s[i], size) ==> exists j :: 0 <= j < i && Wraps(s[j], size)
  }

  lemma RoomIff(r: Range, size: u64)
    ensures RoomIn(r, size) <==> !Wraps(r, size) && AlignUp(r.start, BLOCK_ALIGNMENT).value + size <= r.end
  {
    if a: int :| a % BLOCK_ALIGNMENT == 0 && r.Holds(a, a + size) {
      LeastMultiple(r.start, a);
    }
    if !Wraps(r, size) && AlignUp(r.start, BLOCK_ALIGNMENT).value + size <= r.end {
      var a := AlignUp(r.start, BLOCK_ALIGNMENT).value;
      assert a % BLOCK_ALIGNMENT == 0 && r.Holds(a, a + size);
    }
  }

  lemma LeastMultiple(start: u64, a: int)
    requires a % BLOCK_ALIGNMENT == 0 && start <= a < U64_LIMIT
    ensures start + (BLOCK_ALIGNMENT - 1) < U64_LIMIT && AlignUp(start, BLOCK_ALIGNMENT).value <= a
  {
    var q := a / BLOCK_ALIGNMENT;
    assert a == BLOCK_ALIGNMENT * q && q < 0x1_0000_0000_0000;
    var m := AlignUp(start, BLOCK_ALIGNMENT).value / BLOCK_ALIGNMENT;
    assert AlignUp(start, BLOCK_ALIGNMENT).value == BLOCK_ALIGNMENT * m;
  }

  /** First fit finds nothing exactly when every range with room stands behind
      one whose aligned block would wrap. */
  lemma {:induction false} FirstFitNone(s: seq<Range>, size: u64)
    ensures FirstFit(s, size, BLOCK_ALIGNMENT).None? <==> NoPlace(s, size)
  {
    if s != [] {
      RoomIff(s[0], size);
      if Wraps(s[0], size) {
        assert forall i :: 0 <= i < |s| && RoomIn(s[i], size) ==> 0 < i;
      } else if !RoomIn(s[0], size) {
        FirstFitNone(s[1..], size);
        NoPlaceTail(s, size);
      }
    }
  }

  /** The block `c` stands at the first aligned address of range `i`, no earlier
      range has room, and none before it wraps. */
  ghost predicate FirstPlace(s: seq<Range>, size: u64, i: nat, c: Range) {
    && i < |s| && (forall j :: 0 <= j < i ==> !RoomIn(s[j], size) && !Wraps(s[j], size))
    && c.start % BLOCK_ALIGNMENT == 0 && s[i].start <= c.start < s[i].start + BLOCK_ALIGNMENT
    && c.end == c.start + size <= s[i].end
  }

  /** First fit takes the first place there is. */
  lemma {:induction false} FirstFitFirst(s: seq<Range>, size: u64) returns (i: nat)
    requires FirstFit(s, size, BLOCK_ALIGNMENT).Some?
    ensures FirstPlace(s, size, i, FirstFit(s, size, BLOCK_ALIGNMENT).value)
  {
    RoomIff(s[0], size);
    if RoomIn(s[0], size) {
      i := 0;
    } else {
      var k := FirstFitFirst(s[1..], size);
      i := k + 1;
      forall j | 0 <= j < i ensures !RoomIn(s[j], size) && !Wraps(s[j], size) {
        if j > 0 { assert s[j] == s[1..][j - 1]; }
      }
    }
  }

  lemma NoPlaceTail(s: seq<Range>, size: u64)
    requires s != [] && !RoomIn(s[0], size) && !Wraps(s[0], size)
    ensures NoPlace(s, size) <==> NoPlace(s[1..], size)
  {
    var t := s[1..];
    if NoPlace(s, size) {
      forall i | 0 <= i < |t| && RoomIn(t[i], size) ensures exists j :: 0 <= j < i && Wraps(t[j], size) {
        assert s[i + 1] == t[i];
        var j :| 0 <= j < i + 1 && Wraps(s[j], size);
        assert t[j - 1] == s[j];
      }
    }
    if NoPlace(t, size) {
      forall i | 0 <= i < |s| && RoomIn(s[i], size) ensures exists j :: 0 <= j < i && Wraps(s[j], size) {
        assert t[i - 1] == s[i];
        var j :| 0 <= j < i - 1 && Wraps(t[j], size);
        assert s[j + 1] == t[j];
      }
    }
  }

  // ----------------------------------------------------------------- carving

  /** With a slot to spare, disjoint ranges never refuse a block for lack of
      list capacity. */
  lemma BlockIsFirstFit(free: seq<Range>, size: u64)
    requires Disjoint(free) && size > 0 && |free| < MAX_USABLE
    ensures Block(free, size) == FirstFit(free, size, BLOCK_ALIGNMENT)
  {
    var fit := FirstFit(free, size, BLOCK_ALIGNMENT);
    if fit.Some? {
      FirstFitSound(free, size);
      SubtractedGrowth(free, fit.value, MAX_USABLE);
    }
  }

  lemma BlockNone(free: seq<Range>, size: u64)
    requires Disjoint(free) && size > 0 && |free| < MAX_USABLE
    ensures Block(free, size).None? <==> NoPlace(free, size)
    ensures Block(free, size).Some? ==>
              var rest := Subtracted(free, Block(free, size).value);
              Disjoint(rest) && |rest| <= |free| + 1
  {
    BlockIsFirstFit(free, size);
    FirstFitNone(free, size);
    if Block(free, size).Some? {
      FirstFitSound(free, size);
      SubtractedGrowth(free, Block(free, size).value, MAX_USABLE);
      SubtractedDisjoint(free, Block(free, size).value);
    }
  }

  /** Over disjoint RAM carving fails exactly when the pool, or after it the
      heap, has no place: a full range list is never the reason. */
  lemma CarveRefuses(ram: seq<Range>, rs: seq<Range>)
    requires Disjoint(ram) && NoneEmpty(rs) && |ram| <= 8 && |rs| <= MAX_RESERVED
    ensures var free := SubtractAll(ram, rs, MAX_USABLE);
            && free.Some?
            && (Carve(ram, rs) == Failure(NoPageTablePool) <==> NoPlace(free.value, POOL_SIZE))
            && (Carve(ram, rs) == Failure(NoEarlyHeap) <==>
                var pool := FirstFit(free.value, POOL_SIZE, BLOCK_ALIGNMENT);
                pool.Some? && NoPlace(Subtracted(free.value, pool.value), HEAP_SIZE))
            && (Carve(ram, rs).Failure? ==> Carve(ram, rs).error in {NoPageTablePool, NoEarlyHeap})
  {
    SubtractAllRoom(ram, rs, MAX_USABLE);
    var free := SubtractAll(ram, rs, MAX_USABLE).value;
    BlockNone(free, POOL_SIZE);
    BlockIsFirstFit(free, POOL_SIZE);
    if Block(free, POOL_SIZE).Some? { BlockNone(Subtracted(free, Block(free, POOL_SIZE).value), HEAP_SIZE); }
  }

  // ------------------------------------------------------------ in RAM's terms

  /** Some aligned block of `size` bytes lies in one RAM range and meets
      nothing taken. */
  ghost predicate PlaceInRam(ram: seq<Range>, taken: seq<Range>, size: u64) {
    exists a: int :: a % BLOCK_ALIGNMENT == 0 && Holders(ram, a, a + size) > 0 && AllMiss(taken, a, a + size)
  }

  /** `free` is what taking `taken` leaves of `ram`, interval by interval. */
  ghost predicate Leaves(ram: seq<Range>, taken: seq<Range>, free: seq<Range>) {
    forall a: int, b: int :: a < b ==> Holders(free, a, b) == if AllMiss(taken, a, b) then Holders(ram, a, b) else 0
  }

  /** No RAM lies so high that an aligned block behind it could wrap. */
  ghost predicate BelowTop(ram: seq<Range>, size: u64) {
    forall r :: r in ram ==> r.end + BLOCK_ALIGNMENT + size <= U64_LIMIT
  }

  lemma PlaceIff(ram: seq<Range>, taken: seq<Range>, free: seq<Range>, size: u64)
    requires size > 0 && Leaves(ram, taken, free)
    ensures PlaceInRam(ram, taken, size) <==> exists r :: r in free && RoomIn(r, size)
  {
    if a: int :| a % BLOCK_ALIGNMENT == 0 && Holders(ram, a, a + size) > 0 && AllMiss(taken, a, a + size) {
      assert Holders(free, a, a + size) > 0;
      HoldersPositive(free, a, a + size);
    }
    if r :| r in free && RoomIn(r, size) {
      var a: int :| a % BLOCK_ALIGNMENT == 0 && r.Holds(a, a + size);
      HoldersPositive(free, a, a + size);
    }
  }

  lemma NeverWraps(ram: seq<Range>, free: seq<Range>, size: u64, r: Range)
    requires BelowTop(ram, size) && Within(free, ram) && NoneEmpty(free) && r in free
    ensures !Wraps(r, size)
  {
    var m :| m in ram && m.Holds(r.start, r.end);
  }

  lemma NoPlaceInRam(ram: seq<Range>, taken: seq<Range>, free: seq<Range>, size: u64)
    requires size > 0 && Leaves(ram, taken, free) && BelowTop(ram, size) && Within(free, ram) && NoneEmpty(free)
    ensures NoPlace(free, size) <==> !PlaceInRam(ram, taken, size)
  {
    PlaceIff(ram, taken, free, size);
    forall r | r in free ensures !Wraps(r, size) { NeverWraps(ram, free, size, r); }
    if r :| r in free && RoomIn(r, size) {
      var i :| 0 <= i < |free| && free[i] == r;
      assert forall j :: 0 <= j < i ==> free[j] in free;
    }
  }

  lemma CarveLeaves(ram: seq<Range>, rs: seq<Range>)
    requires NoneEmpty(ram) && NoneEmpty(rs) && Within(ram, ram) && SubtractAll(ram, rs, MAX_USABLE).Some?
    ensures var free := SubtractAll(ram, rs, MAX_USABLE).value;
            Leaves(ram, rs, free) && Within(free, ram) && NoneEmpty(free)
  {
    forall a: int, b: int | a < b
      ensures Holders(SubtractAll(ram, rs, MAX_USABLE).value, a, b) == if AllMiss(rs, a, b) then Holders(ram, a, b) else 0
    {
      SubtractAllHolders(ram, rs, MAX_USABLE, a, b);
    }
    SubtractAllWithin(ram, rs, MAX_USABLE, ram);
  }

  lemma BlockLeaves(ram: seq<Range>, rs: seq<Range>, free: seq<Range>, block: Range)
    requires Leaves(ram, rs, free) && Within(free, ram) && NoneEmpty(free) && !block.IsEmpty()
    ensures Leaves(ram, rs + [block], Subtracted(free, block))
    ensures Within(Subtracted(free, block), ram) && NoneEmpty(Subtracted(free, block))
  {
    forall a: int, b: int | a < b
      ensures Holders(Subtracted(free, block), a, b) == if AllMiss(rs + [block], a, b) then Holders(ram, a, b) else 0
    {
      SubtractedHolders(free, block, a, b);
      AllMissSplit(rs, block, a, b);
    }
    SubtractedWithin(free, block, ram);
  }

  /** The first fit for the pool in what the reservations leave. */
  ghost function FirstPool(ram: seq<Range>, rs: seq<Range>): Option<Range> {
    var free :- SubtractAll(ram, rs, MAX_USABLE);
    FirstFit(free, POOL_SIZE, BLOCK_ALIGNMENT)
  }

  ghost predicate Carvable(ram: seq<Range>, rs: seq<Range>) {
    && Disjoint(ram) && NoneEmpty(ram) && NoneEmpty(rs) && Within(ram, ram) && |ram| <= 8 && |rs| <= MAX_RESERVED
    && BelowTop(ram, POOL_SIZE) && BelowTop(ram, HEAP_SIZE)
  }

  lemma PoolRefused(ram: seq<Range>, rs: seq<Range>)
    requires Carvable(ram, rs)
    ensures Carve(ram, rs) == Failure(NoPageTablePool) <==> !PlaceInRam(ram, rs, POOL_SIZE)
    ensures FirstPool(ram, rs).Some? <==> PlaceInRam(ram, rs, POOL_SIZE)
  {
    CarveRefuses(ram, rs);
    CarveLeaves(ram, rs);
    var free := SubtractAll(ram, rs, MAX_USABLE).value;
    NoPlaceInRam(ram, rs, free, POOL_SIZE);
    FirstFitNone(free, POOL_SIZE);
  }

  lemma HeapRefused(ram: seq<Range>, rs: seq<Range>)
    requires Carvable(ram, rs)
    ensures Carve(ram, rs) == Failure(NoEarlyHeap) <==>
              FirstPool(ram, rs).Some? && !PlaceInRam(ram, rs + [FirstPool(ram, rs).value], HEAP_SIZE)
  {
    CarveRefuses(ram, rs);
    CarveLeaves(ram, rs);
    var free := SubtractAll(ram, rs, MAX_USABLE).value;
    if FirstPool(ram, rs).Some? {
      FirstFitSound(free, POOL_SIZE);
      HeapPlace(ram, rs, free, FirstPool(ram, rs).value);
    }
  }

  lemma HeapPlace(ram: seq<Range>, rs: seq<Range>, free: seq<Range>, pool: Range)
    requires Leaves(ram, rs, free) && Within(free, ram) && NoneEmpty(free) && !pool.IsEmpty() && BelowTop(ram, HEAP_SIZE)
    ensures NoPlace(Subtracted(free, pool), HEAP_SIZE) <==> !PlaceInRam(ram, rs + [pool], HEAP_SIZE)
  {
    BlockLeaves(ram, rs, free, pool);
    NoPlaceInRam(ram, rs + [pool], Subtracted(free, pool), HEAP_SIZE);
  }

  /** Once the reservations are collected, and over disjoint RAM below the top
      of the address space, the pool is refused exactly when no aligned block
      of its size lies in RAM clear of every reservation, the heap exactly when
      none of its size is clear of the pool as well, and nothing else fails. */
  lemma PlanRefuses(info: Diagnostics, kernel: Range, dtb: Range)
    requires !kernel.IsEmpty() && !dtb.IsEmpty() && !info.memoryTruncated && !info.reservedTruncated
    requires Reservations(info, kernel, dtb).Success? && Ram(info).Some? && Disjoint(Ram(info).value)
    requires BelowTop(Ram(info).value, POOL_SIZE) && BelowTop(Ram(info).value, HEAP_SIZE)
    ensures var ram, rs, plan := Ram(info).value, Reservations(info, kernel, dtb).value.0, Plan(info, kernel, dtb);
            && (plan == Failure(NoPageTablePool) <==> !PlaceInRam(ram, rs, POOL_SIZE))
            && (plan == Failure(NoEarlyHeap) <==>
                FirstPool(ram, rs).Some? && !PlaceInRam(ram, rs + [FirstPool(ram, rs).value], HEAP_SIZE))
            && (plan.Failure? ==> plan.error in {NoPageTablePool, NoEarlyHeap})
  {
    var ram, rs := Ram(info).value, Reservations(info, kernel, dtb).value.0;
    RamFacts(info);
    ReservationsRoom(info, kernel, dtb);
    ReservationsNoneEmpty(info, kernel, dtb);
    PoolRefused(ram, rs);
    HeapRefused(ram, rs);
    CarveRefuses(ram, rs);
  }
}
