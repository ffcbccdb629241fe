/** What the allocator hand-over guarantees after a successful kernel plan. */
module HandoffProofs {
  import opened Machine
  import opened Stage1Ranges
  import opened KernelPlanner
  import opened KernelPlanProofs
  import opened AllocatorHandoff

  // ------------------------------------------------------------- reservations

  lemma {:induction false} LabelFromExact(acc: seq<Reservation>, ranges: seq<Range>, index: nat, initrd: Option<Range>)
    requires index <= |ranges| <= MAX_ALLOC_RESERVED && NoDuplicates(ranges) && NoneEmpty(ranges)
    requires RangesOf(acc) == ranges[..index]
    requires forall i :: 0 <= i < index ==> acc[i].reason == ReasonAt(i, ranges[i], initrd)
    ensures var out := LabelFrom(acc, ranges, index, initrd);
            && out.Success? && RangesOf(out.value) == ranges
            && forall i :: 0 <= i < |ranges| ==> out.value[i].reason == ReasonAt(i, ranges[i], initrd)
    decreases |ranges| - index
  {
    if index < |ranges| {
      var r := ranges[index];
      assert r in ranges;
      assert r !in ranges[..index];
      var next := acc + [Reservation(r, ReasonAt(index, r, initrd))];
      assert RangesOf(next) == ranges[..index + 1];
      LabelFromExact(next, ranges, index + 1, initrd);
    }
  }

  lemma BlockIsNew(rs: seq<Range>, block: Range)
    requires AllMiss(rs, block.start, block.end) && !block.IsEmpty() && NoneEmpty(rs) && NoDuplicates(rs)
    ensures block !in rs && NoDuplicates(rs + [block]) && NoneEmpty(rs + [block])
  {
  }

  /** After a kernel plan the reservations are its own, the pool and the heap. */
  lemma PlanTakenFacts(info: Diagnostics, kernel: Range, dtb: Range)
    requires Plan(info, kernel, dtb).Success?
    ensures var plan := Plan(info, kernel, dtb).value;
            && |plan.reserved| <= MAX_RESERVED && NoDuplicates(plan.reserved) && NoneEmpty(plan.reserved)
            && NoDuplicates(AllTaken(plan)) && NoneEmpty(AllTaken(plan))
            && plan.pool !in plan.reserved && plan.heap !in plan.reserved + [plan.pool]
  {
    var plan := Plan(info, kernel, dtb).value;
    ReservationsRoom(info, kernel, dtb);
    ReservationsNoneEmpty(info, kernel, dtb);
    ReservationsExact(info, kernel, dtb, kernel);
    PlanBlocks(info, kernel, dtb);
    BlockIsNew(plan.reserved, plan.pool);
    BlockIsNew(plan.reserved + [plan.pool], plan.heap);
  }

  lemma LabelledExact(info: Diagnostics, kernel: Range, dtb: Range)
    requires Plan(info, kernel, dtb).Success?
    ensures var plan := Plan(info, kernel, dtb).value; var out := Labelled(plan); var n := |plan.reserved|;
            && out.Success? && RangesOf(out.value) == AllTaken(plan) && |out.value| == n + 2
            && (forall i :: 0 <= i < n ==> out.value[i].reason == ReasonAt(i, plan.reserved[i], plan.initrd))
            && out.value[n].reason == PageTablePool && out.value[n + 1].reason == EarlyHeap
  {
    var plan := Plan(info, kernel, dtb).value;
    PlanTakenFacts(info, kernel, dtb);
    PlanBlocks(info, kernel, dtb);
    LabelFromExact([], plan.reserved, 0, plan.initrd);
    var fixed := LabelFrom([], plan.reserved, 0, plan.initrd).value;
    assert RangesOf(fixed + [Reservation(plan.pool, PageTablePool)]) == plan.reserved + [plan.pool];
  }

  // ---------------------------------------------------------------- interiors

  /** How many ranges hold the whole page at address `p`. */
  ghost function PageHolders(s: seq<Range>, p: int): nat { Holders(s, p, p + PAGE) }

  lemma InteriorHolds(r: Range, p: int)
    requires Interior(r).Some? && p % PAGE == 0
    ensures Interior(r).value.Holds(p, p + PAGE) <==> r.Holds(p, p + PAGE)
    ensures Interior(r).value.Holds(p, p + PAGE) ==> !Interior(r).value.IsEmpty()
  {
  }

  /** Shrinking to whole pages keeps every page's holders. */
  lemma {:induction false} InteriorsHolders(acc: seq<Range>, free: seq<Range>, p: int)
    requires InteriorsFrom(acc, free).Some? && p % PAGE == 0
    ensures Holders(InteriorsFrom(acc, free).value, p, p + PAGE)
            == Holders(acc, p, p + PAGE) + Holders(free, p, p + PAGE)
    decreases |free|
  {
    if free != [] {
      var r := Interior(free[0]).value;
      InteriorHolds(free[0], p);
      HoldersConcat([free[0]], free[1..], p, p + PAGE);
      assert free == [free[0]] + free[1..];
      HoldersOne(free[0], p, p + PAGE);
      HoldersOne(r, p, p + PAGE);
      HoldersConcat(acc, [r], p, p + PAGE);
      InteriorsHolders(if r.IsEmpty() then acc else acc + [r], free[1..], p);
    }
  }

  ghost predicate WholePages(s: seq<Range>) {
    forall r :: r in s ==> r.start % PAGE == 0 && r.end % PAGE == 0 && !r.IsEmpty()
  }

  lemma InteriorWhole(r: Range, inner: Range)
    requires Interior(r) == Some(inner)
    ensures inner.start % PAGE == 0 && inner.end % PAGE == 0 && r.Holds(inner.start, inner.end)
  {
  }

  lemma InteriorAdds(acc: seq<Range>, inner: Range, r: Range, all: seq<Range>)
    requires WholePages(acc) && Within(acc, all) && r in all && r.Holds(inner.start, inner.end)
    requires inner.start % PAGE == 0 && inner.end % PAGE == 0
    ensures !inner.IsEmpty() ==> WholePages(acc + [inner]) && Within(acc + [inner], all)
  {
  }

  lemma {:induction false} InteriorsShape(acc: seq<Range>, free: seq<Range>, all: seq<Range>)
    requires InteriorsFrom(acc, free).Some? && WholePages(acc) && Within(acc, all) && (forall r :: r in free ==> r in all)
    ensures var out := InteriorsFrom(acc, free).value;
            WholePages(out) && Within(out, all) && |out| <= |acc| + |free|
    decreases |free|
  {
    if free != [] {
      var r := Interior(free[0]).value;
      InteriorWhole(free[0], r);
      InteriorAdds(acc, r, free[0], all);
      InteriorsShape(if r.IsEmpty() then acc else acc + [r], free[1..], all);
    }
  }

  // --------------------------------------------------------------------- sort

  lemma {:induction false} InsertHolders(s: seq<Range>, c: Range, a: int, b: int)
    ensures Holders(Insert(s, c), a, b) == Holders(s, a, b) + (if c.Holds(a, b) then 1 else 0)
  {
    if s != [] && s[|s| - 1].start > c.start {
      InsertHolders(s[..|s| - 1], c, a, b);
      HoldersConcat(Insert(s[..|s| - 1], c), [s[|s| - 1]], a, b);
      HoldersOne(s[|s| - 1], a, b);
    } else {
      HoldersConcat(s, [c], a, b);
      HoldersOne(c, a, b);
    }
  }

  lemma {:induction false} SortedHolders(s: seq<Range>, a: int, b: int)
    ensures Holders(Sorted(s), a, b) == Holders(s, a, b)
  {
    if s != [] {
      SortedHolders(s[..|s| - 1], a, b);
      InsertHolders(Sorted(s[..|s| - 1]), s[|s| - 1], a, b);
    }
  }

  ghost predicate Ascending(s: seq<Range>) {
    forall i, j :: 0 <= i < j < |s| ==> s[i].start <= s[j].start
  }

  lemma {:induction false} InsertAscending(s: seq<Range>, c: Range)
    requires Ascending(s)
    ensures Ascending(Insert(s, c))
    ensures forall r :: r in Insert(s, c) ==> r in s || r == c
  {
    if s != [] && s[|s| - 1].start > c.start {
      var front, last := s[..|s| - 1], s[|s| - 1];
      InsertAscending(front, c);
      assert forall r :: r in front ==> r.start <= last.start;
    }
  }

  lemma {:induction false} SortedAscending(s: seq<Range>)
    ensures Ascending(Sorted(s))
  {
    if s != [] {
      SortedAscending(s[..|s| - 1]);
      InsertAscending(Sorted(s[..|s| - 1]), s[|s| - 1]);
    }
  }

  lemma SameMembers(s: seq<Range>, r: Range)
    ensures r in Sorted(s) <==> r in s
  {
    SortedMembers(s);
    assert r in multiset(Sorted(s)) <==> r in multiset(s);
  }

  // -------------------------------------------------------------------- counts

  ghost function PageSum(s: seq<Range>): int {
    if s == [] then 0 else (s[0].end - s[0].start) / PAGE + PageSum(s[1..])
  }

  lemma {:induction false} CountFromTotal(total: u64, usable: seq<Range>, rs: seq<Range>)
    requires NoneEmpty(usable) && (forall r :: r in usable ==> !MeetsReserved(r, rs))
    requires total + |usable| * 0x10_0000_0000_0000 < U64_LIMIT
    ensures CountFrom(total, usable, rs) == Success(total + PageSum(usable))
    decreases |usable|
  {
    if usable != [] {
      assert usable[0] in usable;
      CountFromTotal(total + (usable[0].end - usable[0].start) / PAGE, usable[1..], rs);
    }
  }

  lemma {:induction false} CountFromSound(total: u64, usable: seq<Range>, rs: seq<Range>)
    requires NoneEmpty(usable) && (forall r :: r in usable ==> !MeetsReserved(r, rs))
    ensures CountFrom(total, usable, rs) in {Success(total + PageSum(usable)), Failure(HandoffOverflow)}
    decreases |usable|
  {
    if usable != [] {
      assert usable[0] in usable;
      var next := CheckedAdd(total, (usable[0].end - usable[0].start) / PAGE);
      if next.Some? { CountFromSound(next.value, usable[1..], rs); }
    }
  }

  // --------------------------------------------------------------- the theorems

  ghost function FreeAfter(info: Diagnostics, plan: KernelPlan): Option<seq<Range>>
    requires Ram(info).Some?
  {
    SubtractAll(Ram(info).value, AllTaken(plan), MAX_USABLE)
  }

  /** No usable page range meets a reservation, whatever the overlap test says. */
  lemma InteriorsMissReserved(ram: seq<Range>, rs: seq<Range>, r: Range)
    requires NoneEmpty(rs) && SubtractAll(ram, rs, MAX_USABLE).Some?
    requires InteriorsFrom([], SubtractAll(ram, rs, MAX_USABLE).value).Some?
    requires r in Sorted(InteriorsFrom([], SubtractAll(ram, rs, MAX_USABLE).value).value)
    ensures !MeetsReserved(r, rs)
  {
    var free := SubtractAll(ram, rs, MAX_USABLE).value;
    SameMembers(InteriorsFrom([], free).value, r);
    InteriorsShape([], free, free);
    var f :| f in free && f.Holds(r.start, r.end);
    HoldersPositive(free, r.start, r.end);
    SubtractAllHolders(ram, rs, MAX_USABLE, r.start, r.end);
  }

  /** `UsableOverlapsReserved` and `ReservedCapacity` are never returned for a
      plan the kernel planner made. */
  lemma HandoffNeverOverlaps(info: Diagnostics, kernel: Range, dtb: Range)
    requires Plan(info, kernel, dtb).Success?
    ensures var out := Handoff(info, Plan(info, kernel, dtb).value);
            out.Failure? ==> out.error in {HandoffOverflow, HandoffUsableCapacity, NoUsableFrames}
  {
    var plan := Plan(info, kernel, dtb).value;
    LabelledExact(info, kernel, dtb);
    PlanTakenFacts(info, kernel, dtb);
    var free := FreeAfter(info, plan);
    if free.Some? && InteriorsFrom([], free.value).Some? {
      InteriorsNoneEmpty([], free.value);
      SortedMembers(InteriorsFrom([], free.value).value);
      var usable := Sorted(InteriorsFrom([], free.value).value);
      forall r | r in usable ensures !MeetsReserved(r, AllTaken(plan)) {
        InteriorsMissReserved(Ram(info).value, AllTaken(plan), r);
      }
      CountFromSound(0, usable, AllTaken(plan));
    }
  }

  lemma HandoffBranches(info: Diagnostics, kernel: Range, dtb: Range)
    requires Plan(info, kernel, dtb).Success? && Disjoint(Ram(info).value)
    ensures var plan := Plan(info, kernel, dtb).value; var out := Handoff(info, plan);
            && FreeAfter(info, plan).Some? && |FreeAfter(info, plan).value| <= 22
            && (out == Failure(HandoffOverflow) <==> InteriorsFrom([], FreeAfter(info, plan).value).None?)
            && (out == Failure(NoUsableFrames) <==>
                && InteriorsFrom([], FreeAfter(info, plan).value).Some?
                && PageSum(Sorted(InteriorsFrom([], FreeAfter(info, plan).value).value)) == 0)
            && (out.Failure? ==> out.error in {HandoffOverflow, NoUsableFrames})
  {
    var plan := Plan(info, kernel, dtb).value;
    LabelledExact(info, kernel, dtb);
    PlanTakenFacts(info, kernel, dtb);
    RamFacts(info);
    SubtractAllRoom(Ram(info).value, AllTaken(plan), MAX_USABLE);
    var free := FreeAfter(info, plan).value;
    if InteriorsFrom([], free).Some? {
      InteriorsShape([], free, free);
      SortedMembers(InteriorsFrom([], free).value);
      var usable := Sorted(InteriorsFrom([], free).value);
      forall r | r in usable ensures !MeetsReserved(r, AllTaken(plan)) {
        InteriorsMissReserved(Ram(info).value, AllTaken(plan), r);
      }
      CountFromTotal(0, usable, AllTaken(plan));
    }
  }

  /** `usable` holds page `p`, as often as RAM lists it, exactly when the page
      lies inside one RAM range and misses everything taken. */
  ghost predicate PageExact(usable: seq<Range>, ram: seq<Range>, taken: seq<Range>, p: int) {
    PageHolders(usable, p) == if AllMiss(taken, p, p + PAGE) then PageHolders(ram, p) else 0
  }

  ghost predicate PagesExact(usable: seq<Range>, ram: seq<Range>, taken: seq<Range>) {
    forall p: int :: p % PAGE == 0 ==> PageExact(usable, ram, taken, p)
  }

  /** The handed-over pages are the free ones, which are the whole pages of the
      kernel plan's own usable ranges. */
  lemma HandoffPages(info: Diagnostics, kernel: Range, dtb: Range, p: int)
    requires Plan(info, kernel, dtb).Success? && p % PAGE == 0
    requires Handoff(info, Plan(info, kernel, dtb).value).Success?
    ensures var plan := Plan(info, kernel, dtb).value; var out := Handoff(info, plan).value;
            && PageExact(out.usable, Ram(info).value, AllTaken(plan), p)
            && PageHolders(out.usable, p) == PageHolders(plan.usable, p)
  {
    var plan := Plan(info, kernel, dtb).value;
    LabelledExact(info, kernel, dtb);
    PlanTakenFacts(info, kernel, dtb);
    var free := FreeAfter(info, plan).value;
    SubtractAllHolders(Ram(info).value, AllTaken(plan), MAX_USABLE, p, p + PAGE);
    InteriorsHolders([], free, p);
    SortedHolders(InteriorsFrom([], free).value, p, p + PAGE);
    PlanConserves(info, kernel, dtb, p, p + PAGE);
  }

  /** The handed-over ranges are non-empty whole pages in ascending order. */
  lemma HandoffShape(info: Diagnostics, kernel: Range, dtb: Range)
    requires Plan(info, kernel, dtb).Success?
    requires Handoff(info, Plan(info, kernel, dtb).value).Success?
    ensures var out := Handoff(info, Plan(info, kernel, dtb).value).value;
            WholePages(out.usable) && Ascending(out.usable) && out.totalPages == PageSum(out.usable)
  {
    var plan := Plan(info, kernel, dtb).value;
    LabelledExact(info, kernel, dtb);
    PlanTakenFacts(info, kernel, dtb);
    var free := FreeAfter(info, plan).value;
    var interiors := InteriorsFrom([], free).value;
    InteriorsShape([], free, free);
    SortedMembers(interiors);
    SortedAscending(interiors);
    forall r | r in Sorted(interiors) ensures r in interiors && !MeetsReserved(r, AllTaken(plan)) {
      SameMembers(interiors, r);
      InteriorsMissReserved(Ram(info).value, AllTaken(plan), r);
    }
    CountFromSound(0, Sorted(interiors), AllTaken(plan));
  }

  // ----------------------------------------------------- pages, one by one

  lemma {:induction false} PageOfAddress(s: seq<Range>, x: int)
    requires WholePages(s)
    ensures Multiplicity(s, x) == PageHolders(s, x - x % PAGE)
  {
    if s != [] {
      var r := s[|s| - 1];
      assert r in s;
      WholePageHolds(r, x, x - x % PAGE);
      PageOfAddress(s[..|s| - 1], x);
    }
  }

  /** A range of whole pages holds an address exactly when it holds its page. */
  lemma WholePageHolds(r: Range, x: int, p: int)
    requires r.start % PAGE == 0 && r.end % PAGE == 0 && p % PAGE == 0 && p <= x < p + PAGE
    ensures r.Holds(x, x + 1) <==> r.Holds(p, p + PAGE)
  {
    if r.start <= x { MultipleBelow(r.start, p, x); }
    if x < r.end { MultipleAbove(r.end, p, x); }
  }

  lemma MultipleBelow(m: int, p: int, x: int)
    requires m % PAGE == 0 && p % PAGE == 0 && m <= x < p + PAGE
    ensures m <= p
  {
    var a, b := m / PAGE, p / PAGE;
    assert m == PAGE * a && p == PAGE * b;
  }

  lemma MultipleAbove(m: int, p: int, x: int)
    requires m % PAGE == 0 && p % PAGE == 0 && p <= x < m
    ensures p + PAGE <= m
  {
    var a, b := m / PAGE, p / PAGE;
    assert m == PAGE * a && p == PAGE * b;
  }

  lemma {:induction false} HoldersMonotone(s: seq<Range>, a: int, b: int, a': int, b': int)
    requires a <= a' && b' <= b
    ensures Holders(s, a, b) <= Holders(s, a', b')
  {
    if s != [] { HoldersMonotone(s[..|s| - 1], a, b, a', b'); }
  }

  lemma ExactDisjoint(usable: seq<Range>, ram: seq<Range>, taken: seq<Range>)
    requires WholePages(usable) && PagesExact(usable, ram, taken) && Disjoint(ram)
    ensures Disjoint(usable)
  {
    forall x: int ensures Multiplicity(usable, x) <= 1 {
      var p := x - x % PAGE;
      PageOfAddress(usable, x);
      assert PageExact(usable, ram, taken, p);
      HoldersMonotone(ram, p, p + PAGE, p, p + 1);
      assert Multiplicity(ram, p) <= 1;
    }
  }

  /** The page numbers of the ranges `s`. */
  ghost function PageNumbers(s: seq<Range>): set<int> {
    if s == [] then {} else Span(s[0].start / PAGE, s[0].end / PAGE) + PageNumbers(s[1..])
  }

  ghost function Span(lo: int, hi: int): (s: set<int>)
    ensures forall p :: p in s <==> lo <= p < hi
    ensures lo <= hi ==> |s| == hi - lo
    decreases hi - lo
  {
    if lo < hi then Span(lo, hi - 1) + {hi - 1} else {}
  }

  lemma {:induction false} PageNumbersHeld(s: seq<Range>, n: int)
    requires WholePages(s)
    ensures n in PageNumbers(s) <==> PageHolders(s, n * PAGE) > 0
  {
    if s != [] {
      assert s[0] in s;
      PageNumbersHeld(s[1..], n);
      assert s == [s[0]] + s[1..];
      HoldersConcat([s[0]], s[1..], n * PAGE, n * PAGE + PAGE);
      HoldersOne(s[0], n * PAGE, n * PAGE + PAGE);
    }
  }

  lemma DisjointCons(s: seq<Range>, x: int)
    requires s != [] && Multiplicity(s, x) <= 1
    ensures Multiplicity(s[1..], x) <= 1 && (s[0].Holds(x, x + 1) ==> Multiplicity(s[1..], x) == 0)
  {
    assert s == [s[0]] + s[1..];
    HoldersConcat([s[0]], s[1..], x, x + 1);
    HoldersOne(s[0], x, x + 1);
  }

  lemma HeadPagesApart(s: seq<Range>, n: int)
    requires WholePages(s) && Disjoint(s) && s != [] && s[0].start / PAGE <= n < s[0].end / PAGE
    ensures n !in PageNumbers(s[1..])
  {
    assert s[0] in s && Multiplicity(s, n * PAGE) <= 1;
    DisjointCons(s, n * PAGE);
    PageNumbersHeld(s[1..], n);
    HoldersMonotone(s[1..], n * PAGE, n * PAGE + PAGE, n * PAGE, n * PAGE + 1);
  }

  lemma {:induction false} PageNumbersCount(s: seq<Range>)
    requires WholePages(s) && Disjoint(s)
    ensures |PageNumbers(s)| == PageSum(s)
  {
    if s != [] {
      assert s[0] in s;
      var head, tail := Span(s[0].start / PAGE, s[0].end / PAGE), PageNumbers(s[1..]);
      forall x: int ensures Multiplicity(s[1..], x) <= 1 {
        assert Multiplicity(s, x) <= 1;
        DisjointCons(s, x);
      }
      PageNumbersCount(s[1..]);
      forall n | n in head ensures n !in tail { HeadPagesApart(s, n); }
      assert |head + tail| == |head| + |tail|;
    }
  }

  /** The pages lying wholly inside one RAM range that nothing has taken. */
  ghost function FreePages(ram: seq<Range>, taken: seq<Range>): set<int> {
    set n | 0 <= n < 0x10_0000_0000_0000 && PageHolders(ram, n * PAGE) > 0 && AllMiss(taken, n * PAGE, n * PAGE + PAGE)
  }

  lemma FreePageIff(usable: seq<Range>, ram: seq<Range>, taken: seq<Range>, n: int)
    requires WholePages(usable) && PagesExact(usable, ram, taken)
    ensures n in PageNumbers(usable) <==> n in FreePages(ram, taken)
  {
    PageNumbersHeld(usable, n);
    assert PageExact(usable, ram, taken, n * PAGE);
    HoldersPositive(ram, n * PAGE, n * PAGE + PAGE);
  }

  lemma ExactCount(usable: seq<Range>, ram: seq<Range>, taken: seq<Range>)
    requires WholePages(usable) && PagesExact(usable, ram, taken) && Disjoint(ram)
    ensures PageSum(usable) == |FreePages(ram, taken)|
  {
    ExactDisjoint(usable, ram, taken);
    PageNumbersCount(usable);
    forall n: int ensures n in PageNumbers(usable) <==> n in FreePages(ram, taken) { FreePageIff(usable, ram, taken, n); }
    assert PageNumbers(usable) == FreePages(ram, taken);
  }

  /** Over disjoint RAM the handed-over ranges share no page and `total_pages`
      is the number of free pages. */
  lemma HandoffTotal(info: Diagnostics, kernel: Range, dtb: Range)
    requires Plan(info, kernel, dtb).Success? && Disjoint(Ram(info).value)
    requires Handoff(info, Plan(info, kernel, dtb).value).Success?
    ensures var plan := Plan(info, kernel, dtb).value; var out := Handoff(info, plan).value;
            Disjoint(out.usable) && out.totalPages == |FreePages(Ram(info).value, AllTaken(plan))|
  {
    var plan, usable := Plan(info, kernel, dtb).value, Handoff(info, Plan(info, kernel, dtb).value).value.usable;
    HandoffShape(info, kernel, dtb);
    HandoffPagesExact(info, kernel, dtb);
    ExactDisjoint(usable, Ram(info).value, AllTaken(plan));
    ExactCount(usable, Ram(info).value, AllTaken(plan));
  }

  lemma HandoffPagesExact(info: Diagnostics, kernel: Range, dtb: Range)
    requires Plan(info, kernel, dtb).Success?
    requires Handoff(info, Plan(info, kernel, dtb).value).Success?
    ensures var plan := Plan(info, kernel, dtb).value;
            PagesExact(Handoff(info, plan).value.usable, Ram(info).value, AllTaken(plan))
  {
    forall p: int | p % PAGE == 0
      ensures var plan := Plan(info, kernel, dtb).value;
              PageExact(Handoff(info, plan).value.usable, Ram(info).value, AllTaken(plan), p)
    {
      HandoffPages(info, kernel, dtb, p);
    }
  }

  // ------------------------------------------------------------------ failures

  /** The range starts past the last page boundary, so rounding its start up
      leaves 64 bits. */
  predicate StartsInLastPage(r: Range) { r.start + (PAGE - 1) >= U64_LIMIT }

  lemma {:induction false} InteriorsOverflow(acc: seq<Range>, free: seq<Range>)
    ensures InteriorsFrom(acc, free).None? <==> exists r :: r in free && StartsInLastPage(r)
    decreases |free|
  {
    if free != [] {
      assert free == [free[0]] + free[1..];
      if !StartsInLastPage(free[0]) {
        var r := Interior(free[0]).value;
        InteriorsOverflow(if r.IsEmpty() then acc else acc + [r], free[1..]);
      } else {
        assert free[0] in free;
      }
    }
  }

  lemma InteriorsExact(ram: seq<Range>, taken: seq<Range>, free: seq<Range>)
    requires NoneEmpty(taken) && SubtractAll(ram, taken, MAX_USABLE) == Some(free) && InteriorsFrom([], free).Some?
    ensures PagesExact(Sorted(InteriorsFrom([], free).value), ram, taken)
    ensures WholePages(Sorted(InteriorsFrom([], free).value))
  {
    var interiors := InteriorsFrom([], free).value;
    forall p: int | p % PAGE == 0 ensures PageExact(Sorted(interiors), ram, taken, p) {
      SubtractAllHolders(ram, taken, MAX_USABLE, p, p + PAGE);
      InteriorsHolders([], free, p);
      SortedHolders(interiors, p, p + PAGE);
    }
    InteriorsShape([], free, free);
    forall r | r in Sorted(interiors) ensures r in interiors { SameMembers(interiors, r); }
  }

  /** Over disjoint RAM the hand-over fails exactly when a free range starts
      past the last page boundary, or else when no page is free. */
  lemma HandoffFailures(info: Diagnostics, kernel: Range, dtb: Range)
    requires Plan(info, kernel, dtb).Success? && Disjoint(Ram(info).value)
    ensures var plan := Plan(info, kernel, dtb).value; var out := Handoff(info, plan);
            && FreeAfter(info, plan).Some? && |FreeAfter(info, plan).value| <= 22
            && (out == Failure(HandoffOverflow) <==> exists r :: r in FreeAfter(info, plan).value && StartsInLastPage(r))
            && (out != Failure(HandoffOverflow) ==>
                (out == Failure(NoUsableFrames) <==> FreePages(Ram(info).value, AllTaken(plan)) == {}))
            && (out.Failure? ==> out.error in {HandoffOverflow, NoUsableFrames})
  {
    var plan := Plan(info, kernel, dtb).value;
    HandoffBranches(info, kernel, dtb);
    var free := FreeAfter(info, plan).value;
    InteriorsOverflow([], free);
    if InteriorsFrom([], free).Some? {
      PlanTakenFacts(info, kernel, dtb);
      InteriorsExact(Ram(info).value, AllTaken(plan), free);
      ExactCount(Sorted(InteriorsFrom([], free).value), Ram(info).value, AllTaken(plan));
    }
  }
}
