/** What the task planner decides, segment by segment, in plain arithmetic; and
    where each byte of an accepted file ends up. */
module TaskMeaning {
  import opened Machine
  import opened Bits
  import opened Stage1Ranges
  import opened InitElf
  import opened ElfMeaning
  import opened InitTask

  /** The page-rounded memory of a segment. */
  function Low(s: Segment): int { s.vaddr - s.vaddr % 4096 }

  function High(s: Segment): int { (s.vaddr + s.memSize + 4095) / 4096 * 4096 }

  predicate Meets(s: Segment, start: int, end: int) { Low(s) < end && start < High(s) }

  /** Why segment `k` is refused, given the ones before it. */
  function SegmentFault(ss: seq<Segment>, k: nat): Option<TaskFailure>
    requires k < |ss|
  {
    var s := ss[k];
    if Bit(s.flags, 0) == Bit(s.flags, 1) then Some(InvalidPermission)
    else if s.vaddr + s.memSize + 4095 >= U64_LIMIT then Some(AddressOverflow)
    else if Meets(s, 0x3fdf_c000, 0x3fe0_0000) then Some(StackOverlap)
    else if exists j :: 0 <= j < k && Meets(s, Low(ss[j]), High(ss[j])) then Some(SegmentOverlap)
    else if s.vaddr + s.fileSize >= U64_LIMIT then Some(AddressOverflow)
    else None
  }

  /** The plan of an accepted segment. */
  ghost predicate PlannedAs(s: Segment, p: SegmentPlan) {
    && p.pages.start == Low(s) && p.pages.end == High(s)
    && p.permission == (if Bit(s.flags, 1) then ReadWrite else ReadExecute)
    && (if s.memSize > s.fileSize
        then p.bss.Some? && p.bss.value.start == s.vaddr + s.fileSize && p.bss.value.end == s.vaddr + s.memSize
        else p.bss == None)
  }

  ghost predicate PlannedFirst(ss: seq<Segment>, n: nat, done: seq<SegmentPlan>) {
    && n <= |ss| && |done| == n && (forall k :: 0 <= k < n ==> SegmentFault(ss, k).None? && PlannedAs(ss[k], done[k]))
  }

  lemma RoundUp(v: int, r: int)
    requires 0 <= v && r == (v + 4095) - (v + 4095) % 4096
    ensures r == (v + 4095) / 4096 * 4096
  {
  }

  lemma PagesMean(s: Segment)
    ensures PagesOf(s).Some? <==> s.vaddr + s.memSize + 4095 < U64_LIMIT
    ensures PagesOf(s).Some? ==> PagesOf(s).value.start == Low(s) && PagesOf(s).value.end == High(s)
  {
    if s.vaddr + s.memSize + 4095 < U64_LIMIT {
      var end := s.vaddr + s.memSize;
      RoundUp(end, AlignUp(end, PAGE_SIZE).value);
    }
  }

  lemma PermissionMeans(flags: nat)
    ensures PermissionOf(flags) == if Bit(flags, 0) == Bit(flags, 1) then None
                                   else if Bit(flags, 1) then Some(ReadWrite) else Some(ReadExecute)
  {
    FlagsMean(flags);
  }

  lemma CollidesMeans(ss: seq<Segment>, n: nat, done: seq<SegmentPlan>, pages: Range)
    requires PlannedFirst(ss, n, done) && n < |ss| && pages.start == Low(ss[n]) && pages.end == High(ss[n])
    ensures Collides(done, pages) <==> exists j :: 0 <= j < n && Meets(ss[n], Low(ss[j]), High(ss[j]))
  {
    if j :| 0 <= j < n && Meets(ss[n], Low(ss[j]), High(ss[j])) { assert done[j].pages.Overlaps(pages); }
    if Collides(done, pages) {
      var j :| 0 <= j < |done| && done[j].pages.Overlaps(pages);
      assert Meets(ss[n], Low(ss[j]), High(ss[j]));
    }
  }

  lemma SegmentMeans(ss: seq<Segment>, n: nat, done: seq<SegmentPlan>)
    requires PlannedFirst(ss, n, done) && n < |ss|
    ensures var out, fault := PlanSegment(done, ss[n]), SegmentFault(ss, n);
            if fault.Some? then out == Failure(fault.value) else out.Success? && PlannedAs(ss[n], out.value)
  {
    var s := ss[n];
    PermissionMeans(s.flags);
    PagesMean(s);
    if PagesOf(s).Some? { CollidesMeans(ss, n, done, PagesOf(s).value); }
  }

  /** Segment `k` is the first one with a fault, and `why` is it. */
  ghost predicate FaultFirst(ss: seq<Segment>, k: nat, why: TaskFailure) {
    k < |ss| && SegmentFault(ss, k) == Some(why) && forall j :: 0 <= j < k ==> SegmentFault(ss, j).None?
  }

  lemma FirstStep(ss: seq<Segment>, n: nat, done: seq<SegmentPlan>)
    requires PlannedFirst(ss, n, done) && n < |ss| && PlanAll(ss[..n]) == Success(done)
    ensures var out := PlanAll(ss[..n + 1]);
            if out.Success? then PlannedFirst(ss, n + 1, out.value) else FaultFirst(ss, n, out.error)
  {
    PlanAllStep(ss, n, done);
    SegmentMeans(ss, n, done);
  }

  /** The first refused segment decides; with none, every segment is planned. */
  lemma {:induction false} AllMean(ss: seq<Segment>, n: nat)
    requires n <= |ss|
    ensures var out := PlanAll(ss[..n]);
            if out.Success? then PlannedFirst(ss, n, out.value) else exists k: nat :: FaultFirst(ss, k, out.error)
    decreases n
  {
    if n > 0 {
      AllMean(ss, n - 1);
      if PlanAll(ss[..n - 1]).Success? {
        FirstStep(ss, n - 1, PlanAll(ss[..n - 1]).value);
      } else {
        assert ss[..n][..n - 1] == ss[..n - 1];
        FailureStays(ss[..n], n - 1);
      }
    }
  }

  lemma OneFirst(ss: seq<Segment>, j: nat, a: TaskFailure, k: nat, b: TaskFailure)
    requires FaultFirst(ss, j, a) && FaultFirst(ss, k, b)
    ensures a == b
  {
  }

  ghost predicate EntryIn(s: Segment, entry: u64) { Bit(s.flags, 0) && !Bit(s.flags, 1) && s.vaddr <= entry < s.vaddr + s.memSize }

  lemma EntryMeans(ss: seq<Segment>, entry: u64)
    ensures AnyEntersTask(ss, entry) <==> exists k :: 0 <= k < |ss| && EntryIn(ss[k], entry)
  {
    forall k | 0 <= k < |ss| ensures EntersTask(ss[k], entry) <==> EntryIn(ss[k], entry) { PermissionMeans(ss[k].flags); }
  }

  /** The task plan of any list of segments: refused for the first segment with a
      fault, for having none, or for an entry no read-execute segment holds; else
      every segment is planned, beside a four-page stack with the pointer at its
      top. */
  lemma TaskMeans(elf: LoadPlan)
    ensures elf.segments == [] ==> Task(elf) == Failure(NoSegments)
    ensures forall k: nat, why :: FaultFirst(elf.segments, k, why) ==> Task(elf) == Failure(why)
    ensures elf.segments != [] && (forall k :: 0 <= k < |elf.segments| ==> SegmentFault(elf.segments, k).None?) ==>
              if exists k :: 0 <= k < |elf.segments| && EntryIn(elf.segments[k], elf.entry)
              then var t := Task(elf);
                   && t.Success? && t.value.entry == elf.entry && PlannedFirst(elf.segments, |elf.segments|, t.value.segments)
                   && t.value.stack == Range(0x3fdf_c000, 0x3fe0_0000) && t.value.stackPointer == 0x3fe0_0000
              else Task(elf) == Failure(TaskEntryNotExecutable)
  {
    var ss := elf.segments;
    AllMean(ss, |ss|);
    assert ss[..|ss|] == ss;
    EntryMeans(ss, elf.entry);
    forall k: nat, why | FaultFirst(ss, k, why) ensures Task(elf) == Failure(why) {
      if PlanAll(ss).Failure? {
        var j: nat :| FaultFirst(ss, j, PlanAll(ss).error);
        OneFirst(ss, j, PlanAll(ss).error, k, why);
      }
    }
  }

  /** Address `a` of the header at `at` holds the file byte as far behind the
      header's file offset as `a` is behind its virtual address, or zero past the
      file size. */
  ghost predicate Loaded(elf: seq<byte>, at: nat, s: Segment, p: SegmentPlan, a: nat)
    requires at + 56 <= |elf|
  {
    var behind := a - Field(elf, at + 16, 8);
    && Covers(p.pages, a)
    && if behind < Field(elf, at + 32, 8)
       then && s.fileOffset + (a - s.vaddr) == Field(elf, at + 8, 8) + behind < |elf|
            && !ZeroFilled(p, a)
       else ZeroFilled(p, a)
  }

  lemma SegmentLoaded(elf: seq<byte>, at: nat, s: Segment, p: SegmentPlan, a: nat)
    requires SegmentReads(elf, at, s) && Filled(s, p) && GoodSegment(s, |elf|) && s.vaddr <= a < s.vaddr + s.memSize
    ensures Loaded(elf, at, s, p, a)
  {
    assert Covers(p.pages, a);
    assert ZeroFilled(p, a) || a < s.vaddr + s.fileSize;
  }

  lemma SegmentPlace(elf: seq<byte>, plan: LoadPlan, ats: seq<nat>, k: nat)
    requires HeaderFault(elf).None? && ats == Places(elf, Field(elf, 32, 8), 0, Field(elf, 56, 2)) && PlacesIn(elf, ats)
    requires Planned(elf, ats, Success(plan)) && k < |ats|
    ensures |plan.segments| == |ats| && SegmentReads(elf, ats[k], plan.segments[k])
  {
  }

  /** Where the bytes of an accepted file go, for every address of the `k`-th
      loadable header. */
  lemma ImageBytes(elf: seq<byte>, plan: LoadPlan, t: TaskPlan, ats: seq<nat>, k: nat, a: nat)
    requires ElfPlan(elf) == Success(plan) && Task(plan) == Success(t) && HeaderFault(elf).None?
    requires ats == Places(elf, Field(elf, 32, 8), 0, Field(elf, 56, 2)) && k < |ats| && PlacesIn(elf, ats)
    requires Field(elf, ats[k] + 16, 8) <= a < Field(elf, ats[k] + 16, 8) + Field(elf, ats[k] + 40, 8)
    ensures k < |plan.segments| == |t.segments| && Loaded(elf, ats[k], plan.segments[k], t.segments[k], a)
  {
    PlanMeans(elf);
    SegmentPlace(elf, plan, ats, k);
    PlanIsGood(elf, plan);
    TaskIsSound(plan, |elf|, t);
    SegmentLoaded(elf, ats[k], plan.segments[k], t.segments[k], a);
  }
}
