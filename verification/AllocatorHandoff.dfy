/** The hand-over to the frame allocator: recompute the free ranges from RAM,
    shrink them to whole pages, sort them, and count the pages. */
module AllocatorHandoff {
  import opened Machine
  import opened Stage1Ranges
  import opened KernelPlanner

  const MAX_ALLOC_RESERVED: nat := 14

  datatype Reason = LowFirmware | Kernel | Dtb | FirmwareReserved | PageTablePool | EarlyHeap | Initrd

  datatype Reservation = Reservation(range: Range, reason: Reason)

  datatype HandoffFailure =
    | HandoffOverflow | HandoffReservedCapacity | HandoffUsableCapacity | UsableOverlapsReserved | NoUsableFrames

  datatype AllocatorPlan = AllocatorPlan(reserved: seq<Reservation>, usable: seq<Range>, totalPages: u64)

  function RangesOf(rs: seq<Reservation>): (s: seq<Range>)
    ensures |s| == |rs| && forall i :: 0 <= i < |rs| ==> s[i] == rs[i].range
  {
    seq(|rs|, i requires 0 <= i < |rs| => rs[i].range)
  }

  // ------------------------------------------------------------ reservations

  function ReasonAt(index: nat, range: Range, initrd: Option<Range>): Reason {
    if index == 0 then LowFirmware
    else if index == 1 then Kernel
    else if index == 2 then Dtb
    else if Some(range) == initrd then Initrd
    else FirmwareReserved
  }

  function AppendLabelled(rs: seq<Reservation>, range: Range, reason: Reason): Result<seq<Reservation>, HandoffFailure> {
    if range.IsEmpty() || range in RangesOf(rs) then Success(rs)
    else if |rs| == MAX_ALLOC_RESERVED then Failure(HandoffReservedCapacity)
    else Success(rs + [Reservation(range, reason)])
  }

  function LabelFrom(acc: seq<Reservation>, ranges: seq<Range>, index: nat, initrd: Option<Range>)
    : Result<seq<Reservation>, HandoffFailure>
    requires index <= |ranges|
    decreases |ranges| - index
  {
    if index == |ranges| then Success(acc)
    else
      var next :- AppendLabelled(acc, ranges[index], ReasonAt(index, ranges[index], initrd));
      LabelFrom(next, ranges, index + 1, initrd)
  }

  function Labelled(plan: KernelPlan): Result<seq<Reservation>, HandoffFailure> {
    var fixed :- LabelFrom([], plan.reserved, 0, plan.initrd);
    var withPool :- AppendLabelled(fixed, plan.pool, PageTablePool);
    AppendLabelled(withPool, plan.heap, EarlyHeap)
  }

  // --------------------------------------------------------------- interiors

  /** The whole pages inside a range, as a range. */
  function Interior(r: Range): Option<Range> {
    var start :- AlignUp(r.start, PAGE);
    Some(Range(start, AlignDown(r.end, PAGE)))
  }

  function InteriorsFrom(acc: seq<Range>, free: seq<Range>): Option<seq<Range>>
    decreases |free|
  {
    if free == [] then Some(acc)
    else
      var r :- Interior(free[0]);
      InteriorsFrom(if r.IsEmpty() then acc else acc + [r], free[1..])
  }

  // -------------------------------------------------------------------- sort

  /** `c` shifted left past every later-starting range. */
  function Insert(s: seq<Range>, c: Range): (t: seq<Range>)
    ensures |t| == |s| + 1
  {
    if s != [] && s[|s| - 1].start > c.start
    then Insert(s[..|s| - 1], c) + [s[|s| - 1]]
    else s + [c]
  }

  function Sorted(s: seq<Range>): (t: seq<Range>)
    ensures |t| == |s|
  {
    if s == [] then [] else Insert(Sorted(s[..|s| - 1]), s[|s| - 1])
  }

  // ------------------------------------------------------------------- count

  predicate MeetsReserved(r: Range, rs: seq<Range>) {
    exists q :: q in rs && r.Overlaps(q)
  }

  function CountFrom(total: u64, usable: seq<Range>, rs: seq<Range>): Result<u64, HandoffFailure>
    requires NoneEmpty(usable)
    decreases |usable|
  {
    if usable == [] then Success(total)
    else if MeetsReserved(usable[0], rs) then Failure(UsableOverlapsReserved)
    else
      assert usable[0] in usable;
      var next := CheckedAdd(total, (usable[0].end - usable[0].start) / PAGE);
      if next.None? then Failure(HandoffOverflow) else CountFrom(next.value, usable[1..], rs)
  }

  ghost function Handoff(info: Diagnostics, plan: KernelPlan): Result<AllocatorPlan, HandoffFailure> {
    var reserved :- Labelled(plan);
    if Ram(info).None? then Failure(HandoffOverflow)
    else
      var free := SubtractAll(Ram(info).value, RangesOf(reserved), MAX_USABLE);
      if free.None? then Failure(HandoffUsableCapacity)
      else if InteriorsFrom([], free.value).None? then Failure(HandoffOverflow)
      else
        InteriorsNoneEmpty([], free.value);
        SortedMembers(InteriorsFrom([], free.value).value);
        var usable := Sorted(InteriorsFrom([], free.value).value);
        var total :- CountFrom(0, usable, RangesOf(reserved));
        if total == 0 then Failure(NoUsableFrames)
        else Success(AllocatorPlan(reserved, usable, total))
  }

  // -------------------------------------------------------------- the methods

  method AppendLabelledTo(reserved: array<Reservation>, count: nat, range: Range, reason: Reason)
    returns (outcome: Result<nat, HandoffFailure>)
    requires count <= reserved.Length == MAX_ALLOC_RESERVED
    modifies reserved
    ensures var want := AppendLabelled(old(reserved[..count]), range, reason);
            if want.Failure? then outcome == Failure(want.error)
            else outcome.Success? && outcome.value <= MAX_ALLOC_RESERVED && reserved[..outcome.value] == want.value
  {
    if range.IsEmpty() || range in RangesOf(reserved[..count]) { return Success(count); }
    if count == reserved.Length { return Failure(HandoffReservedCapacity); }
    reserved[count] := Reservation(range, reason);
    assert reserved[..count + 1] == old(reserved[..count]) + [Reservation(range, reason)];
    return Success(count + 1);
  }

  method LabelReservations(plan: KernelPlan, reserved: array<Reservation>)
    returns (outcome: Result<nat, HandoffFailure>)
    requires reserved.Length == MAX_ALLOC_RESERVED
    modifies reserved
    ensures var want := Labelled(plan);
            if want.Failure? then outcome == Failure(want.error)
            else outcome.Success? && outcome.value <= MAX_ALLOC_RESERVED && reserved[..outcome.value] == want.value
  {
    var n: nat := 0;
    assert reserved[..0] == [];
    for index := 0 to |plan.reserved|
      invariant n <= MAX_ALLOC_RESERVED
      invariant LabelFrom(reserved[..n], plan.reserved, index, plan.initrd) == LabelFrom([], plan.reserved, 0, plan.initrd)
    {
      var range := plan.reserved[index];
      var step := AppendLabelledTo(reserved, n, range, ReasonAt(index, range, plan.initrd));
      if step.Failure? { return step; }
      n := step.value;
    }
    var step := AppendLabelledTo(reserved, n, plan.pool, PageTablePool);
    if step.Failure? { return step; }
    outcome := AppendLabelledTo(reserved, step.value, plan.heap, EarlyHeap);
  }

  method CollectInteriors(free: array<Range>, count: nat, usable: array<Range>) returns (kept: Option<nat>)
    requires count <= free.Length == usable.Length && free != usable
    modifies usable
    ensures var want := InteriorsFrom([], old(free[..count]));
            if want.None? then kept.None?
            else kept.Some? && kept.value <= usable.Length && usable[..kept.value] == want.value
  {
    var n: nat := 0;
    var s := free[..count];
    assert usable[..0] == [];
    for index := 0 to count
      invariant n <= index
      invariant InteriorsFrom(usable[..n], s[index..]) == InteriorsFrom([], s)
    {
      assert s[index..][0] == s[index] && s[index..][1..] == s[index + 1..];
      var r := Interior(s[index]);
      if r.None? { return None; }
      if r.value.IsEmpty() { continue; }
      ghost var before := usable[..n];
      usable[n] := r.value;
      n := n + 1;
      assert usable[..n] == before + [r.value];
    }
    return Some(n);
  }

  /** Everything from `position` on starts after `c`. */
  ghost predicate Passed(s: seq<Range>, position: nat, c: Range) {
    position <= |s| && Insert(s, c) == Insert(s[..position], c) + s[position..]
  }

  lemma PassedStart(s: seq<Range>, c: Range)
    ensures Passed(s, |s|, c)
  {
    assert s[..|s|] == s;
  }

  lemma PassedStep(s: seq<Range>, position: nat, c: Range)
    requires Passed(s, position, c) && position > 0 && s[position - 1].start > c.start
    ensures Passed(s, position - 1, c)
  {
    assert s[..position][..position - 1] == s[..position - 1];
    assert s[position - 1..] == [s[position - 1]] + s[position..];
  }

  lemma PassedStop(s: seq<Range>, position: nat, c: Range)
    requires Passed(s, position, c) && (position > 0 ==> s[position - 1].start <= c.start)
    ensures Insert(s, c) == s[..position] + [c] + s[position..]
  {
  }

  /** The slots hold `s` with a gap at `position`. */
  ghost predicate Shifted(a: seq<Range>, s: seq<Range>, position: nat) {
    |a| == |s| + 1 && position <= |s| && a[..position] == s[..position] && a[position + 1..] == s[position..]
  }

  lemma ShiftStep(a: seq<Range>, s: seq<Range>, position: nat)
    requires Shifted(a, s, position) && position > 0
    ensures a[position - 1] == s[position - 1] && Shifted(a[position := a[position - 1]], s, position - 1)
  {
    var b := a[position := a[position - 1]];
    assert a[position - 1] == a[..position][position - 1];
    assert b[..position - 1] == a[..position][..position - 1] == s[..position - 1];
    assert b[position..] == [a[position - 1]] + a[position + 1..] == s[position - 1..];
  }

  lemma ShiftStop(a: seq<Range>, s: seq<Range>, position: nat, c: Range)
    requires Shifted(a, s, position)
    ensures a[position := c] == s[..position] + [c] + s[position..]
  {
    assert a[position := c] == a[..position] + [c] + a[position + 1..];
  }

  /** One insertion: shift later-starting ranges right and drop `current` in. */
  method InsertAt(ranges: array<Range>, index: nat)
    requires index < ranges.Length
    modifies ranges
    ensures ranges[..index + 1] == Insert(old(ranges[..index]), old(ranges[index]))
    ensures ranges[index + 1..] == old(ranges[index + 1..])
  {
    var current := ranges[index];
    ghost var s := ranges[..index];
    var position := index;
    PassedStart(s, current);
    while position > 0 && ranges[position - 1].start > current.start
      invariant position <= index && Passed(s, position, current)
      invariant Shifted(ranges[..index + 1], s, position)
      invariant ranges[index + 1..] == old(ranges[index + 1..])
    {
      PassedStep(s, position, current);
      ShiftStep(ranges[..index + 1], s, position);
      ghost var before := ranges[..index + 1];
      ranges[position] := ranges[position - 1];
      assert ranges[..index + 1] == before[position := before[position - 1]];
      position := position - 1;
    }
    PassedStop(s, position, current);
    ShiftStop(ranges[..index + 1], s, position, current);
    ghost var before := ranges[..index + 1];
    ranges[position] := current;
    assert ranges[..index + 1] == before[position := current];
  }

  /** In-place insertion sort of the first `count` slots. */
  method SortRanges(ranges: array<Range>, count: nat)
    requires count <= ranges.Length
    modifies ranges
    ensures ranges[..count] == Sorted(old(ranges[..count]))
  {
    ghost var s := ranges[..count];
    if count == 0 { return; }
    assert ranges[..1] == Sorted(s[..1]) by { assert s[..1][..0] == []; }
    var index := 1;
    while index < count
      invariant 1 <= index <= count
      invariant ranges[..index] == Sorted(s[..index])
      invariant forall k :: index <= k < count ==> ranges[k] == s[k]
    {
      assert s[..index + 1][..index] == s[..index];
      InsertAt(ranges, index);
      index := index + 1;
    }
    assert s[..count] == s;
  }

  method CountPages(usable: seq<Range>, rs: seq<Range>) returns (total: Result<u64, HandoffFailure>)
    requires NoneEmpty(usable)
    ensures total == CountFrom(0, usable, rs)
  {
    var sum: u64 := 0;
    for index := 0 to |usable|
      invariant CountFrom(sum, usable[index..], rs) == CountFrom(0, usable, rs)
    {
      assert usable[index..][0] == usable[index] && usable[index..][1..] == usable[index + 1..];
      if MeetsReserved(usable[index], rs) { return Failure(UsableOverlapsReserved); }
      assert usable[index] in usable;
      var next := CheckedAdd(sum, (usable[index].end - usable[index].start) / PAGE);
      if next.None? { return Failure(HandoffOverflow); }
      sum := next.value;
    }
    return Success(sum);
  }

  method PlanAllocatorHandoff(info: Diagnostics, plan: KernelPlan)
    returns (outcome: Result<AllocatorPlan, HandoffFailure>)
    ensures outcome == Handoff(info, plan)
  {
    var reserved := new Reservation[MAX_ALLOC_RESERVED](_ => Reservation(Range(0, 0), LowFirmware));
    var labelled := LabelReservations(plan, reserved);
    if labelled.Failure? { return Failure(labelled.error); }
    var rs := reserved[..labelled.value];
    var free := new Range[MAX_USABLE](_ => Range(0, 0));
    var count := CollectRam(info, free);
    if count.None? { return Failure(HandoffOverflow); }
    count := SubtractReservations(free, count.value, RangesOf(rs));
    if count.None? { return Failure(HandoffUsableCapacity); }
    var usable := new Range[MAX_USABLE](_ => Range(0, 0));
    var kept := CollectInteriors(free, count.value, usable);
    if kept.None? { return Failure(HandoffOverflow); }
    ghost var interiors := usable[..kept.value];
    SortRanges(usable, kept.value);
    InteriorsNoneEmpty([], SubtractAll(Ram(info).value, RangesOf(rs), MAX_USABLE).value);
    SortedMembers(interiors);
    var total := CountPages(usable[..kept.value], RangesOf(rs));
    if total.Failure? { return Failure(total.error); }
    if total.value == 0 { return Failure(NoUsableFrames); }
    return Success(AllocatorPlan(rs, usable[..kept.value], total.value));
  }

  lemma {:induction false} InteriorsNoneEmpty(acc: seq<Range>, free: seq<Range>)
    requires NoneEmpty(acc) && InteriorsFrom(acc, free).Some?
    ensures NoneEmpty(InteriorsFrom(acc, free).value)
    decreases |free|
  {
    if free != [] {
      var r := Interior(free[0]).value;
      InteriorsNoneEmpty(if r.IsEmpty() then acc else acc + [r], free[1..]);
    }
  }

  /** Sorting is a permutation. */
  lemma {:induction false} SortedMembers(s: seq<Range>)
    ensures multiset(Sorted(s)) == multiset(s)
    ensures NoneEmpty(s) ==> NoneEmpty(Sorted(s))
  {
    if s != [] {
      var front, last := s[..|s| - 1], s[|s| - 1];
      assert s == front + [last];
      SortedMembers(front);
      InsertMembers(Sorted(front), last);
    }
    if NoneEmpty(s) {
      forall r | r in Sorted(s) ensures !r.IsEmpty() {
        assert r in multiset(Sorted(s));
      }
    }
  }

  lemma {:induction false} InsertMembers(s: seq<Range>, c: Range)
    ensures multiset(Insert(s, c)) == multiset(s) + multiset{c}
  {
    if s != [] && s[|s| - 1].start > c.start {
      InsertMembers(s[..|s| - 1], c);
      assert s == s[..|s| - 1] + [s[|s| - 1]];
    }
  }
}
