/** What the closed form of CPU admission means: a numbering that does not
    depend on the listing order, dense ids, one bit and one stack each. */
module AdmissionProofs {
  import opened Machine
  import opened Bits
  import opened Sets
  import opened CpuAdmission

  /** The affinities of secondaries that are listed. */
  function Secondaries(affs: seq<u64>, boot: u64): set<u64> { set x | x in affs && x != boot }

  /** How many logical CPUs the plan produces, boot CPU included. */
  function CpuCount(affs: seq<u64>, boot: u64, limit: nat): nat { NextId(|Secondaries(affs, boot)|, limit) }

  /** Node `i` takes logical CPU `cpu`. */
  predicate Takes(affs: seq<u64>, boot: u64, limit: nat, why: Exclusion, i: nat, cpu: nat)
    requires i < |affs|
  {
    Outcome(affs, boot, limit, why, i) == Success(cpu)
  }

  // --------------------------------------------------------------- affinities

  lemma PowersAre()
    ensures Pow2(8) == 0x100 && Pow2(24) == 0x100_0000
  {
    assert Pow2(4) == 16;
    assert Pow2(8) == 256;
    assert Pow2(12) == 4096;
    assert Pow2(16) == 65536;
    assert Pow2(20) == 0x10_0000;
  }

  /** The affinity keeps bits 0 to 23 and 32 to 39 of the register, and no other. */
  lemma AffinityBits(mpidr: u64, k: nat)
    ensures Bit(Affinity(mpidr), k) <==> Bit(mpidr, k) && (k < 24 || 32 <= k < 40)
  {
    PowersAre();
    var low, rest := mpidr % 0x100_0000, mpidr / 0x100_0000;
    var middle, high := rest % 0x100, rest / 0x100;
    assert mpidr / 0x1_0000_0000 == high;
    BitSplit(low, rest, 24, k);
    BitSplit(low, (high % 0x100) * 0x100, 24, k);
    assert Affinity(mpidr) == low + (high % 0x100) * 0x100 * 0x100_0000;
    if k >= 24 {
      BitSplit(middle, high, 8, k - 24);
      BitSplit(0, high % 0x100, 8, k - 24);
      ZeroBits(k - 24);
      if k >= 32 {
        BitSplit(high % 0x100, high / 0x100, 8, k - 32);
        BitSplit(high % 0x100, 0, 8, k - 32);
        if k >= 40 { ZeroBits(k - 40); }
      }
    }
  }

  // ------------------------------------------------------------------- order

  lemma BelowIs(affs: seq<u64>, boot: u64, a: u64)
    ensures Below(affs, boot, a) == set x | x in Secondaries(affs, boot) && x < a
  {
  }

  /** The numbering depends only on which affinities are listed. */
  lemma SameSetSameOutcome(affs: seq<u64>, affs': seq<u64>, boot: u64, limit: nat, why: Exclusion, i: nat, i': nat)
    requires (forall x :: x in affs <==> x in affs') && i < |affs| && i' < |affs'|
    requires affs[i] == affs'[i'] && IsFirst(affs, i) && IsFirst(affs', i')
    ensures Outcome(affs, boot, limit, why, i) == Outcome(affs', boot, limit, why, i')
  {
    assert Below(affs, boot, affs[i]) == Below(affs', boot, affs'[i']);
  }

  lemma AffinityListed(cpus: seq<u64>, x: u64)
    requires |cpus| <= MAX_PLANNED
    ensures x in Affinities(cpus) <==> exists c :: c in cpus && Affinity(c) == x
  {
    var affs := Affinities(cpus);
    if x in affs {
      var k :| 0 <= k < |affs| && affs[k] == x;
      assert cpus[k] in cpus && Affinity(cpus[k]) == x;
    }
    if c :| c in cpus && Affinity(c) == x {
      var k :| 0 <= k < |cpus| && cpus[k] == c;
      assert affs[k] == x;
    }
  }

  /** Reordering the nodes renumbers nobody. */
  lemma ReorderInvariant(cpus: seq<u64>, cpus': seq<u64>, boot: u64, limit: nat, why: Exclusion, i: nat, i': nat)
    requires |cpus| <= MAX_PLANNED && multiset(cpus) == multiset(cpus')
    requires |cpus| == |cpus'| && i < |cpus| && i' < |cpus'|
    requires var a, a' := Affinities(cpus), Affinities(cpus'); a[i] == a'[i'] && IsFirst(a, i) && IsFirst(a', i')
    ensures Outcome(Affinities(cpus), boot, limit, why, i) == Outcome(Affinities(cpus'), boot, limit, why, i')
  {
    var affs, affs' := Affinities(cpus), Affinities(cpus');
    forall x ensures x in affs <==> x in affs' {
      if x is u64 {
        AffinityListed(cpus, x);
        AffinityListed(cpus', x);
        assert forall c :: c in cpus <==> c in multiset(cpus);
        assert forall c :: c in cpus' <==> c in multiset(cpus');
      }
    }
    SameSetSameOutcome(affs, affs', boot, limit, why, i, i');
  }

  // -------------------------------------------------------------------- ranks

  function Smaller(s: set<u64>, a: u64): set<u64> { set x | x in s && x < a }

  /** Ranks separate the members of a set. */
  lemma RankGrows(s: set<u64>, a: u64, b: u64)
    requires a in s && a < b
    ensures |Smaller(s, a)| < |Smaller(s, b)|
  {
    assert Smaller(s, a) + {a} <= Smaller(s, b) && a !in Smaller(s, a);
    SubsetSize(Smaller(s, a) + {a}, Smaller(s, b));
  }

  lemma RankBelow(s: set<u64>, a: u64)
    requires a in s
    ensures |Smaller(s, a)| < |s|
  {
    assert Smaller(s, a) + {a} <= s && a !in Smaller(s, a);
    SubsetSize(Smaller(s, a) + {a}, s);
  }

  lemma Largest(s: set<u64>) returns (m: u64)
    requires s != {}
    ensures m in s && forall x :: x in s ==> x <= m
    decreases |s|
  {
    var x :| x in s;
    assert s == s - {x} + {x};
    m := x;
    if s - {x} != {} {
      var m' := Largest(s - {x});
      if x < m' { m := m'; }
    }
  }

  /** Every rank below the size is some member's. */
  lemma RankOnto(s: set<u64>, r: nat) returns (a: u64)
    requires r < |s|
    ensures a in s && |Smaller(s, a)| == r
    decreases |s|
  {
    var m := Largest(s);
    if r == |s| - 1 {
      a := m;
      assert Smaller(s, m) == s - {m};
    } else {
      a := RankOnto(s - {m}, r);
      assert Smaller(s, a) == Smaller(s - {m}, a);
    }
  }

  // ------------------------------------------------------------------ the ids

  lemma OutcomeRank(affs: seq<u64>, boot: u64, limit: nat, why: Exclusion, i: nat)
    requires i < |affs| && IsFirst(affs, i) && affs[i] != boot
    ensures affs[i] in Secondaries(affs, boot)
    ensures var id := 1 + |Smaller(Secondaries(affs, boot), affs[i])|;
            Outcome(affs, boot, limit, why, i) == if id < limit then Success(id) else Failure(why)
  {
    BelowIs(affs, boot, affs[i]);
    assert Below(affs, boot, affs[i]) == Smaller(Secondaries(affs, boot), affs[i]);
  }

  /** Two nodes never take the same logical CPU. */
  lemma IdsDistinct(affs: seq<u64>, boot: u64, limit: nat, why: Exclusion, i: nat, j: nat, cpu: nat)
    requires i < |affs| && j < |affs| && Takes(affs, boot, limit, why, i, cpu) && Takes(affs, boot, limit, why, j, cpu)
    ensures i == j
  {
    if affs[i] != affs[j] {
      if affs[i] != boot { OutcomeRank(affs, boot, limit, why, i); }
      if affs[j] != boot { OutcomeRank(affs, boot, limit, why, j); }
      if affs[i] != boot && affs[j] != boot { RanksDiffer(Secondaries(affs, boot), affs[i], affs[j]); }
    }
  }

  lemma RanksDiffer(s: set<u64>, a: u64, b: u64)
    requires a in s && b in s && a != b
    ensures |Smaller(s, a)| != |Smaller(s, b)|
  {
    if a < b { RankGrows(s, a, b); } else { RankGrows(s, b, a); }
  }

  lemma {:induction false} FirstListing(affs: seq<u64>, k: nat) returns (i: nat)
    requires k < |affs|
    ensures i <= k && affs[i] == affs[k] && IsFirst(affs, i)
  {
    i := k;
    if j :| 0 <= j < k && affs[j] == affs[k] { i := FirstListing(affs, j); }
  }

  /** The secondaries' logical ids are exactly 1 up to the CPU count. */
  lemma IdsDense(affs: seq<u64>, boot: u64, limit: nat, why: Exclusion, cpu: nat)
    requires cpu >= 1
    ensures cpu < CpuCount(affs, boot, limit) <==> exists i :: 0 <= i < |affs| && Takes(affs, boot, limit, why, i, cpu)
  {
    var s := Secondaries(affs, boot);
    if cpu < CpuCount(affs, boot, limit) {
      var a := RankOnto(s, cpu - 1);
      var k :| 0 <= k < |affs| && affs[k] == a;
      var i := FirstListing(affs, k);
      OutcomeRank(affs, boot, limit, why, i);
      assert Takes(affs, boot, limit, why, i, cpu);
    }
    if i :| 0 <= i < |affs| && Takes(affs, boot, limit, why, i, cpu) {
      OutcomeRank(affs, boot, limit, why, i);
      RankBelow(s, affs[i]);
    }
  }

  // --------------------------------------------------------------- the bitmap

  /** Bit `cpu` of the present set: the boot CPU, or some planned node's. */
  ghost predicate Present(planned: seq<Option<Planned>>, cpu: nat) {
    cpu == 0 || exists i :: 0 <= i < |planned| && planned[i].Some? && planned[i].value.outcome == Success(cpu)
  }

  /** The bitmap loop. */
  method PresentBitmap(planned: seq<Option<Planned>>) returns (bits: nat)
    ensures forall cpu: nat :: Bit(bits, cpu) <==> Present(planned, cpu)
  {
    bits := 1;
    OneBit();
    for i := 0 to |planned|
      invariant forall cpu: nat :: Bit(bits, cpu) <==> Present(planned[..i], cpu)
    {
      ghost var before := bits;
      if planned[i].Some? && planned[i].value.outcome.Success? {
        bits := SetBit(bits, planned[i].value.outcome.value);
      }
      forall cpu: nat ensures Bit(bits, cpu) <==> Present(planned[..i + 1], cpu) {
        PresentMore(planned, i, cpu);
        if planned[i].Some? && planned[i].value.outcome.Success? { SetBitExact(before, planned[i].value.outcome.value, cpu); }
      }
    }
    assert planned[..|planned|] == planned;
  }

  lemma OneBit()
    ensures forall cpu: nat :: Bit(1, cpu) <==> cpu == 0
  {
    forall cpu: nat ensures Bit(1, cpu) <==> cpu == 0 { ZeroBits(cpu); if cpu > 0 { ZeroBits(cpu - 1); } }
  }

  lemma PresentMore(planned: seq<Option<Planned>>, i: nat, cpu: nat)
    requires i < |planned|
    ensures Present(planned[..i + 1], cpu) <==>
            Present(planned[..i], cpu) || (planned[i].Some? && planned[i].value.outcome == Success(cpu))
  {
    var s, s' := planned[..i], planned[..i + 1];
    if k :| 0 <= k < |s| && s[k].Some? && s[k].value.outcome == Success(cpu) { assert s'[k] == s[k]; }
    if planned[i].Some? && planned[i].value.outcome == Success(cpu) { assert s'[i] == planned[i]; }
  }

  /** The plan as `Plan` leaves it in the output array. */
  ghost predicate IsPlan(affs: seq<u64>, boot: u64, limit: nat, why: Exclusion, planned: seq<Option<Planned>>) {
    && |affs| <= |planned|
    && forall i :: 0 <= i < |planned| ==>
         planned[i] == if i < |affs| then Some(Planned(affs[i], Outcome(affs, boot, limit, why, i))) else None
  }

  lemma PresentIs(affs: seq<u64>, boot: u64, limit: nat, why: Exclusion, planned: seq<Option<Planned>>, cpu: nat)
    requires IsPlan(affs, boot, limit, why, planned)
    ensures Present(planned, cpu) <==> cpu < CpuCount(affs, boot, limit)
  {
    if cpu > 0 {
      IdsDense(affs, boot, limit, why, cpu);
      if i :| 0 <= i < |affs| && Takes(affs, boot, limit, why, i, cpu) { assert planned[i].value.outcome == Success(cpu); }
      if i :| 0 <= i < |planned| && planned[i].Some? && planned[i].value.outcome == Success(cpu) {
        assert Takes(affs, boot, limit, why, i, cpu);
      }
    }
  }

  /** The present set is `2^k - 1` for the number `k` of logical CPUs. */
  lemma BitmapIsDense(affs: seq<u64>, boot: u64, limit: nat, why: Exclusion, planned: seq<Option<Planned>>, bits: nat)
    requires IsPlan(affs, boot, limit, why, planned)
    requires forall cpu: nat :: Bit(bits, cpu) <==> Present(planned, cpu)
    ensures bits == Pow2(CpuCount(affs, boot, limit)) - 1
  {
    var k := CpuCount(affs, boot, limit);
    forall cpu: nat ensures Bit(bits, cpu) <==> cpu < k {
      PresentIs(affs, boot, limit, why, planned, cpu);
    }
    LowBits(bits, k);
  }

  /** Every admitted secondary has a dispatch stack of its own. */
  lemma StacksDistinct(affs: seq<u64>, boot: u64, gic: nat, maxCpus: nat, i: nat, j: nat, ci: nat, cj: nat)
    requires i < |affs| && j < |affs| && i != j && ci > 0 && cj > 0
    requires var b := Bound(gic, maxCpus); Takes(affs, boot, b.0, b.1, i, ci) && Takes(affs, boot, b.0, b.1, j, cj)
    ensures StackSlot(ci, DISPATCH_STACKS).Some? && StackSlot(cj, DISPATCH_STACKS).Some?
    ensures StackSlot(ci, DISPATCH_STACKS) != StackSlot(cj, DISPATCH_STACKS)
    ensures DispatchCapable(ci, DISPATCH_STACK_BYTES)
  {
    var b := Bound(gic, maxCpus);
    if ci == cj { IdsDistinct(affs, boot, b.0, b.1, i, j, ci); }
  }
}
