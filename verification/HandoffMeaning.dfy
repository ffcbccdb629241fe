/** Which reservation carries which reason when memory is handed over. */
module HandoffMeaning {
  import opened Machine
  import opened Stage1Ranges
  import opened KernelPlanner
  import opened KernelPlanProofs
  import opened PlanMeaning
  import opened AllocatorHandoff
  import opened HandoffProofs

  /** Reservation `i` of a plan is labelled by its place; from the fourth on, the
      initrd as such and everything else as reserved by firmware. */
  predicate LabelIs(i: nat, range: Range, initrd: Option<Range>, reason: Reason) {
    && (reason == LowFirmware <==> i == 0) && (reason == Kernel <==> i == 1) && (reason == Dtb <==> i == 2)
    && (reason == Initrd <==> i >= 3 && initrd == Some(range))
    && (reason == FirmwareReserved <==> i >= 3 && initrd != Some(range))
  }

  /** The list starts with `a`, then `b` and `c` as far as they are new. */
  ghost predicate StartsWith(rs: seq<Range>, a: Range, b: Range, c: Range) {
    && |rs| >= 1 && rs[0] == a && (b != a ==> |rs| >= 2 && rs[1] == b)
    && (b != a && c != a && c != b ==> |rs| >= 3 && rs[2] == c)
  }

  lemma TwoFirsts(a: Range, b: Range)
    ensures Firsts([a, b]) == if b == a then [a] else [a, b]
  {
    assert [] + [a] == [a] && [a] + [b] == [a, b];
    FirstsSnoc([], a);
    FirstsSnoc([a], b);
  }

  lemma ThreeFirsts(a: Range, b: Range, c: Range)
    ensures StartsWith(Firsts([a, b, c]), a, b, c)
  {
    assert [a, b] + [c] == [a, b, c];
    TwoFirsts(a, b);
    FirstsSnoc([a, b], c);
  }

  lemma StartsGrow(rs: seq<Range>, more: seq<Range>, a: Range, b: Range, c: Range)
    requires StartsWith(rs, a, b, c) && rs <= more
    ensures StartsWith(more, a, b, c)
  {
  }

  lemma FirstThree(info: Diagnostics, kernel: Range, dtb: Range)
    requires ReservationFault(info, kernel, dtb).None?
    ensures StartsWith(Reserved(info, kernel, dtb), Range(0, 0x8_0000), kernel, dtb)
  {
    var three := [Range(0, 0x8_0000), kernel, dtb];
    var initrd := if InitrdGiven(info) then [InitrdPages(info)] else [];
    ThreeFirsts(Range(0, 0x8_0000), kernel, dtb);
    FirstsGrow(three, Extents(info.reserved) + initrd);
    assert Wanted(info, kernel, dtb) + initrd == three + (Extents(info.reserved) + initrd);
    StartsGrow(Firsts(three), Reserved(info, kernel, dtb), Range(0, 0x8_0000), kernel, dtb);
  }

  lemma {:induction false} FirstsGrow(a: seq<Range>, b: seq<Range>)
    ensures Firsts(a) <= Firsts(a + b)
    decreases |b|
  {
    if b == [] {
      assert a + b == a;
    } else {
      FirstsGrow(a, b[..|b| - 1]);
      assert (a + b)[..|a + b| - 1] == a + b[..|b| - 1];
    }
  }

  /** Each reservation with the label of its place, then the pool and the heap. */
  ghost predicate LabelledAs(plan: KernelPlan, out: seq<Reservation>) {
    var n := |plan.reserved|;
    && |out| == n + 2
    && (forall i :: 0 <= i < n ==> out[i].range == plan.reserved[i] && LabelIs(i, plan.reserved[i], plan.initrd, out[i].reason))
    && out[n] == Reservation(plan.pool, PageTablePool) && out[n + 1] == Reservation(plan.heap, EarlyHeap)
  }

  lemma ByPlace(plan: KernelPlan, out: seq<Reservation>)
    requires RangesOf(out) == AllTaken(plan) && |out| == |plan.reserved| + 2
    requires forall i :: 0 <= i < |plan.reserved| ==> out[i].reason == ReasonAt(i, plan.reserved[i], plan.initrd)
    requires out[|plan.reserved|].reason == PageTablePool && out[|plan.reserved| + 1].reason == EarlyHeap
    ensures LabelledAs(plan, out)
  {
    forall i | 0 <= i < |out| ensures out[i].range == AllTaken(plan)[i] { assert RangesOf(out)[i] == out[i].range; }
  }

  /** After a kernel plan: low firmware first, then kernel and DTB when they are
      ranges of their own, labelled as such; the rest by place; the pool and the
      heap last. */
  lemma LabelsMean(info: Diagnostics, kernel: Range, dtb: Range)
    requires Plan(info, kernel, dtb).Success?
    ensures var plan := Plan(info, kernel, dtb).value;
            && Labelled(plan).Success? && LabelledAs(plan, Labelled(plan).value)
            && StartsWith(plan.reserved, Range(0, 0x8_0000), kernel, dtb)
  {
    var plan := Plan(info, kernel, dtb).value;
    LabelledExact(info, kernel, dtb);
    ByPlace(plan, Labelled(plan).value);
    PlanEarly(info, kernel, dtb);
    FirstThree(info, kernel, dtb);
  }
}
