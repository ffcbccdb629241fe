/** AArch64 CPU admission: a selection loop that numbers CPU nodes in ascending
    affinity order, and the closed form it computes. */
module CpuAdmission {
  import opened Machine

  const MAX_INTERFACES: nat := 8
  const CPU_CEILING: nat := 8
  const DISPATCH_STACKS: nat := 7
  const DISPATCH_STACK_BYTES: nat := 2 * 1024 * 1024
  const MAX_PLANNED: nat := 64

  datatype Exclusion =
    BeyondGicInterfaces | ProductionCeiling | NoLogicalCpu | DuplicateAffinity | NoDispatchStack | NoGicDistributor

  datatype Planned = Planned(affinity: u64, outcome: Result<nat, Exclusion>)

  // -------------------------------------------------------------- pure rules

  /** `mpidr & 0xff_00ff_ffff`: bits 39..32 and 23..0. */
  function Affinity(mpidr: u64): u64 { mpidr % 0x100_0000 + (mpidr / 0x1_0000_0000) % 0x100 * 0x1_0000_0000 }

  function Affinities(cpus: seq<u64>): seq<u64> {
    seq(if |cpus| < MAX_PLANNED then |cpus| else MAX_PLANNED, i requires 0 <= i < |cpus| => Affinity(cpus[i]))
  }

  /** The first free id no CPU may take, and the limit that sets it. */
  function Bound(gicInterfaces: nat, maxCpus: nat): (nat, Exclusion) {
    if gicInterfaces == 0 then (1, NoGicDistributor)
    else if maxCpus < CPU_CEILING && maxCpus < gicInterfaces then (maxCpus, NoLogicalCpu)
    else if gicInterfaces < CPU_CEILING then (gicInterfaces, BeyondGicInterfaces)
    else (CPU_CEILING, ProductionCeiling)
  }

  /** The reassigned pair of the source. */
  method ComputeBound(gicInterfaces: nat, maxCpus: nat) returns (limit: nat, why: Exclusion)
    ensures (limit, why) == Bound(gicInterfaces, maxCpus)
    ensures limit <= CPU_CEILING
    ensures gicInterfaces > 0 ==> limit == Min(CPU_CEILING, Min(gicInterfaces, maxCpus))
  {
    if gicInterfaces == 0 { return 1, NoGicDistributor; }
    var gic := if gicInterfaces < MAX_INTERFACES then gicInterfaces else MAX_INTERFACES;
    var max := if maxCpus < 64 then maxCpus else 64;
    limit, why := CPU_CEILING, ProductionCeiling;
    if gic < limit { limit, why := gic, BeyondGicInterfaces; }
    if max < limit { limit, why := max, NoLogicalCpu; }
  }

  predicate DispatchCapable(cpu: nat, stackBytes: nat) {
    cpu == 0 || (cpu <= DISPATCH_STACKS && stackBytes >= DISPATCH_STACK_BYTES)
  }

  function StackSlot(cpu: nat, slots: nat): Option<nat> {
    if 1 <= cpu <= slots then Some(cpu - 1) else None
  }

  // ------------------------------------------------------------- closed form

  predicate IsFirst(affs: seq<u64>, i: nat)
    requires i < |affs|
  {
    forall j :: 0 <= j < i ==> affs[j] != affs[i]
  }

  /** The distinct affinities of secondaries below `a`. */
  function Below(affs: seq<u64>, boot: u64, a: u64): set<u64> { set x | x in affs && x != boot && x < a }

  /** What the node at `i` is planned as. */
  function Outcome(affs: seq<u64>, boot: u64, limit: nat, why: Exclusion, i: nat): Result<nat, Exclusion>
    requires i < |affs|
  {
    if !IsFirst(affs, i) then Failure(DuplicateAffinity)
    else if affs[i] == boot then Success(0)
    else
      var id := 1 + |Below(affs, boot, affs[i])|;
      if id < limit then Success(id) else Failure(why)
  }

  // ---------------------------------------------------------------- the loop

  /** The distinct secondary affinities the loop has passed. */
  function Passed(affs: seq<u64>, boot: u64, last: Option<u64>): set<u64> {
    set x | x in affs && x != boot && last.Some? && x <= last.value
  }

  /** The next id after `c` distinct affinities. */
  function NextId(c: nat, limit: nat): nat { if 1 + c < limit then 1 + c else if limit > 1 then limit else 1 }

  ghost predicate Done(affs: seq<u64>, boot: u64, limit: nat, why: Exclusion, s: seq<Option<Planned>>, i: nat)
    requires |s| == |affs| && i < |s|
  {
    s[i] == Some(Planned(affs[i], Outcome(affs, boot, limit, why, i)))
  }

  /** Planned nodes are right; unplanned ones are not the boot CPU's first
      listing and not below `last`; equal affinities are planned in listing
      order; `last` and every planned secondary are accounted for. */
  ghost predicate Ordered(affs: seq<u64>, boot: u64, s: seq<Option<Planned>>, last: Option<u64>)
    requires |s| == |affs|
  {
    && (forall i :: 0 <= i < |s| && s[i].None? ==> (affs[i] == boot ==> !IsFirst(affs, i)) && (last.Some? ==> affs[i] >= last.value))
    && (forall i, j :: 0 <= j < i < |s| && affs[j] == affs[i] && s[j].None? ==> s[i].None?)
    && (forall i :: 0 <= i < |s| && s[i].Some? && affs[i] != boot ==> last.Some? && affs[i] <= last.value)
    && (last.Some? ==> exists p :: 0 <= p < |s| && affs[p] == last.value && s[p].Some?)
  }

  ghost predicate Right(affs: seq<u64>, boot: u64, limit: nat, why: Exclusion, s: seq<Option<Planned>>)
    requires |s| == |affs|
  {
    forall i :: 0 <= i < |s| && s[i].Some? ==> Done(affs, boot, limit, why, s, i)
  }

  /** `i` is the first of the least unplanned affinities. */
  ghost predicate Least(affs: seq<u64>, s: seq<Option<Planned>>, i: nat)
    requires |s| == |affs|
  {
    && i < |s| && s[i].None?
    && (forall j :: 0 <= j < |s| && s[j].None? ==> affs[i] <= affs[j])
    && (forall j :: 0 <= j < i && s[j].None? ==> affs[i] < affs[j])
  }

  lemma DuplicateIff(affs: seq<u64>, boot: u64, s: seq<Option<Planned>>, last: Option<u64>, i: nat)
    requires |s| == |affs| && Ordered(affs, boot, s, last) && Least(affs, s, i)
    ensures affs[i] == boot || last == Some(affs[i]) <==> !IsFirst(affs, i)
  {
    if last == Some(affs[i]) {
      var p :| 0 <= p < |s| && affs[p] == last.value && s[p].Some?;
      assert p < i;
    }
    if !IsFirst(affs, i) && affs[i] != boot {
      var j :| 0 <= j < i && affs[j] == affs[i];
      assert s[j].Some?;
    }
  }

  lemma RankIs(affs: seq<u64>, boot: u64, s: seq<Option<Planned>>, last: Option<u64>, i: nat)
    requires |s| == |affs| && Ordered(affs, boot, s, last) && Least(affs, s, i) && last != Some(affs[i])
    ensures Below(affs, boot, affs[i]) == Passed(affs, boot, last)
  {
    forall x ensures x in Below(affs, boot, affs[i]) <==> x in Passed(affs, boot, last) {
      if x in Below(affs, boot, affs[i]) {
        var j :| 0 <= j < |affs| && affs[j] == x;
        assert s[j].Some?;
      }
    }
  }

  lemma PassedMore(affs: seq<u64>, boot: u64, s: seq<Option<Planned>>, last: Option<u64>, i: nat)
    requires |s| == |affs| && Ordered(affs, boot, s, last) && Least(affs, s, i)
    ensures var duplicate := affs[i] == boot || last == Some(affs[i]);
            |Passed(affs, boot, Some(affs[i]))| == |Passed(affs, boot, last)| + if duplicate then 0 else 1
  {
    var a, before, more := affs[i], Passed(affs, boot, last), Passed(affs, boot, Some(affs[i]));
    if last != Some(a) {
      RankIs(affs, boot, s, last, i);
      assert more == before + if a == boot then {} else {a};
      assert a !in before;
    }
  }

  lemma OrderedStep(affs: seq<u64>, boot: u64, s: seq<Option<Planned>>, last: Option<u64>, i: nat, p: Planned)
    requires |s| == |affs| && Ordered(affs, boot, s, last) && Least(affs, s, i)
    ensures Ordered(affs, boot, s[i := Some(p)], Some(affs[i]))
  {
    var s' := s[i := Some(p)];
    assert s'[i].Some?;
  }

  lemma OutcomeIs(affs: seq<u64>, boot: u64, limit: nat, why: Exclusion, s: seq<Option<Planned>>, last: Option<u64>, i: nat, next: nat)
    requires |s| == |affs| && Ordered(affs, boot, s, last) && Least(affs, s, i)
    requires next == NextId(|Passed(affs, boot, last)|, limit)
    ensures Outcome(affs, boot, limit, why, i) ==
            if affs[i] == boot || last == Some(affs[i]) then Failure(DuplicateAffinity)
            else if next >= limit then Failure(why) else Success(next)
  {
    DuplicateIff(affs, boot, s, last, i);
    if affs[i] != boot && last != Some(affs[i]) { RankIs(affs, boot, s, last, i); }
  }

  /** The first pass: the boot CPU's first listing. */
  method PlanBoot(affs: seq<u64>, boot: u64, out: array<Option<Planned>>)
    requires |affs| <= out.Length && forall i :: 0 <= i < out.Length ==> out[i].None?
    modifies out
    ensures forall i :: 0 <= i < out.Length ==>
      out[i] == if i < |affs| && affs[i] == boot && IsFirst(affs, i) then Some(Planned(boot, Success(0))) else None
  {
    var seen := false;
    for i := 0 to |affs|
      invariant seen <==> exists j :: 0 <= j < i && affs[j] == boot
      invariant forall j :: 0 <= j < out.Length ==>
        out[j] == if j < i && affs[j] == boot && IsFirst(affs, j) then Some(Planned(boot, Success(0))) else None
    {
      if affs[i] == boot && !seen {
        seen := true;
        out[i] := Some(Planned(affs[i], Success(0)));
      }
    }
  }

  /** The inner scan: the first of the least unplanned affinities not below
      `last`. */
  method Pick(affs: seq<u64>, s: seq<Option<Planned>>, last: Option<u64>) returns (pick: Option<nat>)
    requires |s| == |affs| && forall i :: 0 <= i < |s| && s[i].None? && last.Some? ==> affs[i] >= last.value
    ensures pick.None? ==> forall i :: 0 <= i < |s| ==> s[i].Some?
    ensures pick.Some? ==> Least(affs, s, pick.value)
  {
    pick := None;
    for i := 0 to |affs|
      invariant pick.None? ==> forall j :: 0 <= j < i ==> s[j].Some?
      invariant pick.Some? ==> Least(affs[..i], s[..i], pick.value)
    {
      assert affs[..i + 1][..i] == affs[..i] && s[..i + 1][..i] == s[..i];
      if s[i].None? && !(last.Some? && affs[i] < last.value) {
        if pick.None? || affs[i] < affs[pick.value] { pick := Some(i); }
      }
    }
    assert affs[..|affs|] == affs && s[..|s|] == s;
  }

  ghost function Unplanned(s: seq<Option<Planned>>): nat {
    if s == [] then 0 else Unplanned(s[..|s| - 1]) + if s[|s| - 1].None? then 1 else 0
  }

  lemma {:induction false} UnplannedLess(s: seq<Option<Planned>>, i: nat, p: Planned)
    requires i < |s| && s[i].None?
    ensures Unplanned(s[i := Some(p)]) == Unplanned(s) - 1
  {
    var n := |s| - 1;
    if i == n {
      assert s[i := Some(p)][..n] == s[..n];
    } else {
      assert s[i := Some(p)][..n] == s[..n][i := Some(p)];
      UnplannedLess(s[..n], i, p);
    }
  }

  ghost predicate State(affs: seq<u64>, boot: u64, limit: nat, why: Exclusion, s: seq<Option<Planned>>, last: Option<u64>, next: nat) {
    && |s| == |affs| && Right(affs, boot, limit, why, s) && Ordered(affs, boot, s, last)
    && next == NextId(|Passed(affs, boot, last)|, limit)
  }

  lemma RightStep(affs: seq<u64>, boot: u64, limit: nat, why: Exclusion, s: seq<Option<Planned>>, i: nat)
    requires |s| == |affs| && Right(affs, boot, limit, why, s) && i < |s|
    ensures Right(affs, boot, limit, why, s[i := Some(Planned(affs[i], Outcome(affs, boot, limit, why, i)))])
  {
    var s' := s[i := Some(Planned(affs[i], Outcome(affs, boot, limit, why, i)))];
    forall k | 0 <= k < |s'| && s'[k].Some? ensures Done(affs, boot, limit, why, s', k) {
      if k != i { assert Done(affs, boot, limit, why, s, k); }
    }
  }

  lemma StateStep(affs: seq<u64>, boot: u64, limit: nat, why: Exclusion, s: seq<Option<Planned>>, last: Option<u64>, next: nat, i: nat)
    requires State(affs, boot, limit, why, s, last, next) && Least(affs, s, i)
    ensures var outcome := Outcome(affs, boot, limit, why, i);
            && outcome == (if affs[i] == boot || last == Some(affs[i]) then Failure(DuplicateAffinity)
                           else if next >= limit then Failure(why) else Success(next))
            && State(affs, boot, limit, why, s[i := Some(Planned(affs[i], outcome))], Some(affs[i]),
                     if outcome.Success? then next + 1 else next)
            && Unplanned(s[i := Some(Planned(affs[i], outcome))]) < Unplanned(s)
  {
    OutcomeIs(affs, boot, limit, why, s, last, i, next);
    PassedMore(affs, boot, s, last, i);
    var p := Planned(affs[i], Outcome(affs, boot, limit, why, i));
    OrderedStep(affs, boot, s, last, i, p);
    RightStep(affs, boot, limit, why, s, i);
    UnplannedLess(s, i, p);
  }

  /** The second pass: every other node, ascending. */
  method PlanRest(affs: seq<u64>, boot: u64, limit: nat, why: Exclusion, out: array<Option<Planned>>)
    requires |affs| <= out.Length && State(affs, boot, limit, why, out[..|affs|], None, 1)
    modifies out
    ensures Right(affs, boot, limit, why, out[..|affs|]) && forall i :: 0 <= i < |affs| ==> out[i].Some?
    ensures out[|affs|..] == old(out[|affs|..])
  {
    var n := |affs|;
    var next: nat, last: Option<u64> := 1, None;
    while true
      invariant out[n..] == old(out[n..]) && State(affs, boot, limit, why, out[..n], last, next)
      decreases Unplanned(out[..n])
    {
      ghost var s := out[..n];
      var pick := Pick(affs, out[..n], last);
      if pick.None? { break; }
      var i := pick.value;
      StateStep(affs, boot, limit, why, s, last, next, i);
      var outcome;
      if affs[i] == boot || last == Some(affs[i]) {
        outcome := Failure(DuplicateAffinity);
      } else if next >= limit {
        outcome := Failure(why);
      } else {
        next := next + 1;
        outcome := Success(next - 1);
      }
      out[i] := Some(Planned(affs[i], outcome));
      assert out[..n] == s[i := Some(Planned(affs[i], outcome))];
      last := Some(affs[i]);
    }
  }

  lemma StartsRight(affs: seq<u64>, boot: u64, limit: nat, why: Exclusion, s: seq<Option<Planned>>)
    requires |s| == |affs|
    requires forall i :: 0 <= i < |s| ==> s[i] == if affs[i] == boot && IsFirst(affs, i) then Some(Planned(boot, Success(0))) else None
    ensures State(affs, boot, limit, why, s, None, 1)
  {
    assert Passed(affs, boot, None) == {};
  }

  /** The plan: every listed node gets its closed form, and nothing else is
      planned. */
  method Plan(cpus: seq<u64>, bootAffinity: u64, gicInterfaces: nat, maxCpus: nat) returns (out: array<Option<Planned>>)
    ensures out.Length == MAX_PLANNED
    ensures var affs, b := Affinities(cpus), Bound(gicInterfaces, maxCpus);
            forall i :: 0 <= i < MAX_PLANNED ==>
              out[i] == if i < |affs| then Some(Planned(affs[i], Outcome(affs, Affinity(bootAffinity), b.0, b.1, i))) else None
  {
    out := new Option<Planned>[MAX_PLANNED](_ => None);
    var boot, affs := Affinity(bootAffinity), Affinities(cpus);
    var limit, why := ComputeBound(gicInterfaces, maxCpus);
    PlanBoot(affs, boot, out);
    StartsRight(affs, boot, limit, why, out[..|affs|]);
    ghost var rest := out[|affs|..];
    PlanRest(affs, boot, limit, why, out);
    forall i | 0 <= i < MAX_PLANNED
      ensures out[i] == if i < |affs| then Some(Planned(affs[i], Outcome(affs, boot, limit, why, i))) else None
    {
      if i < |affs| {
        assert Done(affs, boot, limit, why, out[..|affs|], i);
      } else {
        assert out[i] == out[|affs|..][i - |affs|] == rest[i - |affs|];
      }
    }
  }
}
