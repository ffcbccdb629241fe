/** The stage-2C task planner: page ranges, permissions and zero-fill of an
    accepted ELF plan, beside a fixed stack. */
module InitTask {
  import opened Machine
  import opened Stage1Ranges
  import opened InitElf

  const PAGE_SIZE: u64 := 4096
  const STACK_TOP: u64 := 0x3fe0_0000
  const STACK_PAGES: u64 := 4

  const STACK: Range := Range(STACK_TOP - STACK_PAGES * PAGE_SIZE, STACK_TOP)

  datatype TaskFailure = NoSegments | InvalidPermission | AddressOverflow | StackOverlap | SegmentOverlap | TaskEntryNotExecutable

  datatype Permission = ReadExecute | ReadWrite

  datatype SegmentPlan = SegmentPlan(pages: Range, bss: Option<Range>, permission: Permission)

  datatype TaskPlan = TaskPlan(entry: u64, stack: Range, stackPointer: u64, segments: seq<SegmentPlan>)

  // ------------------------------------------------------------- one segment

  function PermissionOf(flags: nat): Option<Permission> {
    if Executable(flags) && !Writable(flags) then Some(ReadExecute)
    else if Writable(flags) && !Executable(flags) then Some(ReadWrite)
    else None
  }

  function PagesOf(s: Segment): Option<Range> {
    var end :- CheckedAdd(s.vaddr, s.memSize);
    var top :- AlignUp(end, PAGE_SIZE);
    Some(Range(AlignDown(s.vaddr, PAGE_SIZE), top))
  }

  predicate Collides(done: seq<SegmentPlan>, pages: Range) {
    exists k :: 0 <= k < |done| && done[k].pages.Overlaps(pages)
  }

  function Bss(s: Segment): Option<Range>
    requires s.vaddr + s.memSize < U64_LIMIT && s.vaddr + s.fileSize < U64_LIMIT
  {
    if s.memSize > s.fileSize then Some(Range(s.vaddr + s.fileSize, s.vaddr + s.memSize)) else None
  }

  /** One segment after `done`, or why it is refused. */
  function PlanSegment(done: seq<SegmentPlan>, s: Segment): Result<SegmentPlan, TaskFailure> {
    if PermissionOf(s.flags).None? then Failure(InvalidPermission)
    else if PagesOf(s).None? then Failure(AddressOverflow)
    else if PagesOf(s).value.Overlaps(STACK) then Failure(StackOverlap)
    else if Collides(done, PagesOf(s).value) then Failure(SegmentOverlap)
    else if CheckedAdd(s.vaddr, s.fileSize).None? then Failure(AddressOverflow)
    else Success(SegmentPlan(PagesOf(s).value, Bss(s), PermissionOf(s.flags).value))
  }

  predicate EntersTask(s: Segment, entry: u64) {
    PermissionOf(s.flags) == Some(ReadExecute) && s.vaddr <= entry < s.vaddr + s.memSize
  }

  predicate AnyEntersTask(ss: seq<Segment>, entry: u64) { exists k :: 0 <= k < |ss| && EntersTask(ss[k], entry) }

  // ------------------------------------------------------------ specification

  /** The plans of the first segments, or the first refusal. */
  function PlanAll(ss: seq<Segment>): (r: Result<seq<SegmentPlan>, TaskFailure>)
    ensures r.Success? ==> |r.value| == |ss|
  {
    if ss == [] then Success([])
    else
      var done :- PlanAll(ss[..|ss| - 1]);
      var next :- PlanSegment(done, ss[|ss| - 1]);
      Success(done + [next])
  }

  function Task(elf: LoadPlan): Result<TaskPlan, TaskFailure> {
    if elf.segments == [] then Failure(NoSegments)
    else
      var done :- PlanAll(elf.segments);
      if AnyEntersTask(elf.segments, elf.entry) then Success(TaskPlan(elf.entry, STACK, STACK_TOP, done))
      else Failure(TaskEntryNotExecutable)
  }

  // -------------------------------------------------------------------- method

  lemma {:induction false} FailureStays(ss: seq<Segment>, n: nat)
    requires n <= |ss| && PlanAll(ss[..n]).Failure?
    ensures PlanAll(ss) == PlanAll(ss[..n])
    decreases |ss|
  {
    if n < |ss| {
      assert ss[..|ss| - 1][..n] == ss[..n];
      FailureStays(ss[..|ss| - 1], n);
    } else {
      assert ss[..n] == ss;
    }
  }

  lemma PlanAllStep(ss: seq<Segment>, n: nat, done: seq<SegmentPlan>)
    requires n < |ss| && PlanAll(ss[..n]) == Success(done)
    ensures var next := PlanSegment(done, ss[n]);
            PlanAll(ss[..n + 1]) == if next.Success? then Success(done + [next.value]) else Failure(next.error)
  {
    assert ss[..n + 1][..n] == ss[..n];
  }

  lemma EntersStep(ss: seq<Segment>, n: nat, entry: u64)
    requires n < |ss|
    ensures AnyEntersTask(ss[..n + 1], entry) <==> AnyEntersTask(ss[..n], entry) || EntersTask(ss[n], entry)
  {
    if EntersTask(ss[n], entry) { assert EntersTask(ss[..n + 1][n], entry); }
    if AnyEntersTask(ss[..n], entry) {
      var k :| 0 <= k < n && EntersTask(ss[..n][k], entry);
      assert EntersTask(ss[..n + 1][k], entry);
    }
  }

  /** The checks on one segment, against the plans made so far. */
  method CheckSegment(plans: array<SegmentPlan>, count: nat, s: Segment) returns (plan: Result<SegmentPlan, TaskFailure>)
    requires count <= plans.Length
    ensures plan == PlanSegment(plans[..count], s)
  {
    var permission := PermissionOf(s.flags);
    if permission.None? { return Failure(InvalidPermission); }
    var end := CheckedAdd(s.vaddr, s.memSize);
    if end.None? { return Failure(AddressOverflow); }
    var top := AlignUp(end.value, PAGE_SIZE);
    if top.None? { return Failure(AddressOverflow); }
    var pages := Range(AlignDown(s.vaddr, PAGE_SIZE), top.value);
    if pages.Overlaps(STACK) { return Failure(StackOverlap); }
    if exists k :: 0 <= k < count && plans[..count][k].pages.Overlaps(pages) { return Failure(SegmentOverlap); }
    var bssStart := CheckedAdd(s.vaddr, s.fileSize);
    if bssStart.None? { return Failure(AddressOverflow); }
    var bss := if s.memSize > s.fileSize then Some(Range(bssStart.value, end.value)) else None;
    return Success(SegmentPlan(pages, bss, permission.value));
  }

  /** The planner's loop, on an array of segment plans. */
  method PlanInitTask(elf: LoadPlan) returns (plan: Result<TaskPlan, TaskFailure>)
    ensures plan == Task(elf)
  {
    var ss := elf.segments;
    if ss == [] { return Failure(NoSegments); }
    var plans := new SegmentPlan[|ss|](_ => SegmentPlan(STACK, None, ReadWrite));
    var enters := false;
    for i := 0 to |ss|
      invariant PlanAll(ss[..i]) == Success(plans[..i])
      invariant enters <==> AnyEntersTask(ss[..i], elf.entry)
    {
      var next := CheckSegment(plans, i, ss[i]);
      PlanAllStep(ss, i, plans[..i]);
      if next.Failure? {
        FailureStays(ss, i + 1);
        return Failure(next.error);
      }
      EntersStep(ss, i, elf.entry);
      if EntersTask(ss[i], elf.entry) { enters := true; }
      ghost var before := plans[..i];
      plans[i] := next.value;
      assert plans[..i + 1] == before + [next.value];
    }
    assert ss[..|ss|] == ss && plans[..|ss|] == plans[..];
    if !enters { return Failure(TaskEntryNotExecutable); }
    return Success(TaskPlan(elf.entry, STACK, STACK_TOP, plans[..]));
  }

  // ------------------------------------------------------------------- results

  /** A segment that needs no other segment to be judged. */
  predicate Plannable(s: Segment) {
    && PermissionOf(s.flags).Some? && PagesOf(s).Some? && !PagesOf(s).value.Overlaps(STACK)
    && s.vaddr + s.fileSize < U64_LIMIT
  }

  /** Pages of different segments never overlap. */
  predicate PagesApart(ss: seq<Segment>)
    requires forall k :: 0 <= k < |ss| ==> PagesOf(ss[k]).Some?
  {
    forall i, j :: 0 <= i < |ss| && 0 <= j < |ss| && i != j ==> !PagesOf(ss[i]).value.Overlaps(PagesOf(ss[j]).value)
  }

  predicate AllPlannable(ss: seq<Segment>) { forall k :: 0 <= k < |ss| ==> Plannable(ss[k]) }

  /** What an accepted list of plans says of each segment. */
  ghost predicate Follows(ss: seq<Segment>, done: seq<SegmentPlan>)
    requires |ss| == |done|
  {
    forall k :: 0 <= k < |ss| ==>
      Plannable(ss[k]) && done[k] == SegmentPlan(PagesOf(ss[k]).value, Bss(ss[k]), PermissionOf(ss[k].flags).value)
  }

  lemma ApartSnoc(ss: seq<Segment>, s: Segment, done: seq<SegmentPlan>)
    requires |ss| == |done| && Follows(ss, done) && PagesApart(ss) && Plannable(s)
    ensures PagesApart(ss + [s]) <==> !Collides(done, PagesOf(s).value)
  {
    var all := ss + [s];
    if PagesApart(all) {
      forall k | 0 <= k < |done| ensures !done[k].pages.Overlaps(PagesOf(s).value) {
        assert all[k] == ss[k] && all[|ss|] == s;
      }
    }
  }

  lemma FollowsSnoc(ss: seq<Segment>, s: Segment, done: seq<SegmentPlan>)
    requires |ss| == |done| && Follows(ss, done)
    ensures PlanSegment(done, s).Success? <==> Plannable(s) && !Collides(done, PagesOf(s).value)
    ensures PlanSegment(done, s).Success? ==> Follows(ss + [s], done + [PlanSegment(done, s).value])
  {
  }

  lemma ApartFront(ss: seq<Segment>)
    requires ss != [] && AllPlannable(ss) && PagesApart(ss)
    ensures AllPlannable(ss[..|ss| - 1]) && PagesApart(ss[..|ss| - 1])
  {
  }

  /** The loop succeeds exactly when each segment is plannable and their pages
      are pairwise apart. */
  lemma {:induction false} PlanAllAccepts(ss: seq<Segment>)
    ensures PlanAll(ss).Success? <==> AllPlannable(ss) && PagesApart(ss)
    ensures PlanAll(ss).Success? ==> Follows(ss, PlanAll(ss).value)
  {
    if ss != [] {
      var front, s := ss[..|ss| - 1], ss[|ss| - 1];
      PlanAllAccepts(front);
      assert ss == front + [s];
      if PlanAll(front).Success? {
        if Plannable(s) { ApartSnoc(front, s, PlanAll(front).value); }
        FollowsSnoc(front, s, PlanAll(front).value);
      }
      if AllPlannable(ss) && PagesApart(ss) { ApartFront(ss); }
    }
  }

  /** Acceptance of the whole planner, exactly. */
  lemma TaskAccepts(elf: LoadPlan)
    ensures Task(elf).Success? <==>
            && elf.segments != [] && AllPlannable(elf.segments) && PagesApart(elf.segments)
            && AnyEntersTask(elf.segments, elf.entry)
  {
    PlanAllAccepts(elf.segments);
  }

  predicate FitsBesideStack(s: Segment) {
    (Writable(s.flags) || Executable(s.flags)) && PagesOf(s).Some? && !PagesOf(s).value.Overlaps(STACK)
  }

  lemma PlannableIs(s: Segment, fileLen: nat)
    requires GoodSegment(s, fileLen)
    ensures Plannable(s) <==> FitsBesideStack(s)
  {
  }

  lemma EntryTaken(plan: LoadPlan, fileLen: nat)
    requires GoodPlan(plan, fileLen)
    ensures AnyEntersTask(plan.segments, plan.entry)
  {
    var k :| 0 <= k < |plan.segments| && EntersSegment(plan.segments[k], plan.entry);
    assert GoodSegment(plan.segments[k], fileLen) && EntersTask(plan.segments[k], plan.entry);
  }

  predicate AllFit(ss: seq<Segment>) { forall k :: 0 <= k < |ss| ==> FitsBesideStack(ss[k]) }

  lemma AllFitIs(plan: LoadPlan, fileLen: nat)
    requires GoodPlan(plan, fileLen)
    ensures AllPlannable(plan.segments) <==> AllFit(plan.segments)
  {
    forall k | 0 <= k < |plan.segments| ensures Plannable(plan.segments[k]) <==> FitsBesideStack(plan.segments[k]) {
      PlannableIs(plan.segments[k], fileLen);
    }
  }

  /** On a good ELF plan the task planner cannot miss a segment or the entry, and
      it accepts exactly when every segment is writable or executable, its pages
      fit 64 bits, and no pages meet. */
  lemma AfterElf(plan: LoadPlan, fileLen: nat)
    requires GoodPlan(plan, fileLen)
    ensures Task(plan) != Failure(NoSegments) && Task(plan) != Failure(TaskEntryNotExecutable)
    ensures Task(plan).Success? <==> AllFit(plan.segments) && PagesApart(plan.segments)
  {
    AllFitIs(plan, fileLen);
    EntryTaken(plan, fileLen);
    TaskAccepts(plan);
    NeverMissed(plan.segments);
  }

  lemma {:induction false} NeverMissed(ss: seq<Segment>)
    ensures PlanAll(ss) != Failure(NoSegments) && PlanAll(ss) != Failure(TaskEntryNotExecutable)
  {
    if ss != [] { NeverMissed(ss[..|ss| - 1]); }
  }

  // ------------------------------------------------------------- the task image

  /** Address `a` lies in the range. */
  predicate Covers(r: Range, a: int) { r.start <= a < r.end }

  /** Address `a` is zero-filled. */
  predicate ZeroFilled(p: SegmentPlan, a: int) { p.bss.Some? && Covers(p.bss.value, a) }

  /** File bytes first, zero-fill after, nothing shared and nothing left out,
      all of it inside the segment's whole pages. */
  ghost predicate Filled(s: Segment, p: SegmentPlan) {
    && p.pages.start % PAGE_SIZE == 0 && p.pages.end % PAGE_SIZE == 0
    && (forall a: int :: s.vaddr <= a < s.vaddr + s.memSize ==> Covers(p.pages, a))
    && (forall a: int :: s.vaddr <= a < s.vaddr + s.memSize <==>
          s.vaddr <= a < s.vaddr + s.fileSize || ZeroFilled(p, a))
    && (forall a: int :: ZeroFilled(p, a) ==> !(s.vaddr <= a < s.vaddr + s.fileSize))
  }

  lemma PagesAreWhole(s: Segment)
    requires PagesOf(s).Some?
    ensures var r := PagesOf(s).value;
            r.start % PAGE_SIZE == 0 && r.end % PAGE_SIZE == 0 && r.start <= s.vaddr && s.vaddr + s.memSize <= r.end
  {
  }

  lemma SegmentFilled(s: Segment, fileLen: nat)
    requires GoodSegment(s, fileLen) && Plannable(s)
    ensures Filled(s, SegmentPlan(PagesOf(s).value, Bss(s), PermissionOf(s.flags).value))
  {
    PagesAreWhole(s);
  }

  /** An address can be executed from: it lies in a read-execute segment. */
  ghost predicate CanExecute(t: TaskPlan, a: int) {
    exists k :: 0 <= k < |t.segments| && t.segments[k].permission == ReadExecute && Covers(t.segments[k].pages, a)
  }

  /** An address can be written: it lies in a read-write segment or the stack. */
  ghost predicate CanWrite(t: TaskPlan, a: int) {
    || Covers(t.stack, a)
    || exists k :: 0 <= k < |t.segments| && t.segments[k].permission == ReadWrite && Covers(t.segments[k].pages, a)
  }

  /** At most one segment holds address `a`, and then the stack does not. */
  ghost predicate HeldOnce(t: TaskPlan, a: int) {
    forall i, j :: 0 <= i < |t.segments| && 0 <= j < |t.segments| && Covers(t.segments[i].pages, a) && Covers(t.segments[j].pages, a) ==>
      i == j && !Covers(t.stack, a)
  }

  /** The image of an accepted task. */
  ghost predicate Sound(plan: LoadPlan, t: TaskPlan) {
    && |t.segments| == |plan.segments| && t.entry == plan.entry && CanExecute(t, t.entry)
    && (forall k :: 0 <= k < |plan.segments| ==> Filled(plan.segments[k], t.segments[k]))
    && (forall a: int :: HeldOnce(t, a))
    && (forall a: int :: !(CanWrite(t, a) && CanExecute(t, a)))
  }

  lemma HoldersApart(ss: seq<Segment>, t: TaskPlan, a: int)
    requires |ss| == |t.segments| && Follows(ss, t.segments) && PagesApart(ss) && t.stack == STACK
    ensures HeldOnce(t, a)
  {
    forall i, j | 0 <= i < |ss| && 0 <= j < |ss| && Covers(t.segments[i].pages, a) && Covers(t.segments[j].pages, a)
      ensures i == j && !Covers(t.stack, a)
    {
      assert Plannable(ss[i]) && Plannable(ss[j]);
    }
  }

  lemma WriteXorExecute(t: TaskPlan, a: int)
    requires HeldOnce(t, a)
    ensures !(CanWrite(t, a) && CanExecute(t, a))
  {
  }

  lemma EntryExecutes(plan: LoadPlan, t: TaskPlan)
    requires |plan.segments| == |t.segments| && Follows(plan.segments, t.segments) && t.entry == plan.entry
    requires AnyEntersTask(plan.segments, plan.entry)
    ensures CanExecute(t, t.entry)
  {
    var k :| 0 <= k < |plan.segments| && EntersTask(plan.segments[k], plan.entry);
    PagesAreWhole(plan.segments[k]);
    assert Covers(t.segments[k].pages, t.entry);
  }

  lemma AllFilled(ss: seq<Segment>, done: seq<SegmentPlan>, fileLen: nat)
    requires |ss| == |done| && Follows(ss, done) && forall k :: 0 <= k < |ss| ==> GoodSegment(ss[k], fileLen)
    ensures forall k :: 0 <= k < |ss| ==> Filled(ss[k], done[k])
  {
    forall k | 0 <= k < |ss| ensures Filled(ss[k], done[k]) { SegmentFilled(ss[k], fileLen); }
  }

  lemma TaskIsSound(plan: LoadPlan, fileLen: nat, t: TaskPlan)
    requires GoodPlan(plan, fileLen) && Task(plan) == Success(t)
    ensures Sound(plan, t)
  {
    PlanAllAccepts(plan.segments);
    AllFilled(plan.segments, t.segments, fileLen);
    EntryExecutes(plan, t);
    forall a: int ensures HeldOnce(t, a) && !(CanWrite(t, a) && CanExecute(t, a)) {
      HoldersApart(plan.segments, t, a);
      WriteXorExecute(t, a);
    }
  }

  /** Whatever file both planners accept: no address is in two segments or in a
      segment and the stack, none is both writable and executable, every segment
      is filled exactly, and the entry can be executed. */
  lemma InitImage(elf: seq<byte>, plan: LoadPlan, t: TaskPlan)
    requires ElfPlan(elf) == Success(plan) && Task(plan) == Success(t)
    ensures Sound(plan, t)
  {
    PlanIsGood(elf, plan);
    TaskIsSound(plan, |elf|, t);
  }
}
