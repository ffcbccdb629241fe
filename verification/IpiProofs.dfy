/** What an accepted IPI population means, in terms of the records alone. */
module IpiProofs {
  import opened Machine
  import opened Bits
  import opened IpiPopulation

  // ------------------------------------------------------- what the records say

  predicate IsFresh(r: Rec) { Counted(r) && r.f3 == 0 }

  /** The group numbers opened for a pair, in record order. */
  function Groups(recs: seq<Rec>, p: Pair): seq<nat> {
    if recs == [] then []
    else
      var n := |recs| - 1;
      if IsFresh(recs[n]) && SentPair(recs[n]) == p then Groups(recs[..n], p) + [recs[n].f4] else Groups(recs[..n], p)
  }

  /** The ordinals consumed for a pair, in record order. */
  function Ordinals(recs: seq<Rec>, p: Pair): seq<nat> {
    if recs == [] then []
    else
      var n := |recs| - 1;
      if recs[n].kind == Consumed && TakenPair(recs[n]) == p then Ordinals(recs[..n], p) + [recs[n].f1] else Ordinals(recs[..n], p)
  }

  /** The set bits of all arrival masks. */
  function MaskBits(recs: seq<Rec>): nat {
    if recs == [] then 0
    else MaskBits(recs[..|recs| - 1]) + if recs[|recs| - 1].kind == Arrived then Ones(recs[|recs| - 1].f0) else 0
  }

  /** How many counted publications, and how many of them open a group. */
  function Publications(recs: seq<Rec>): nat {
    if recs == [] then 0 else Publications(recs[..|recs| - 1]) + if Counted(recs[|recs| - 1]) then 1 else 0
  }

  function Openings(recs: seq<Rec>): nat {
    if recs == [] then 0 else Openings(recs[..|recs| - 1]) + if IsFresh(recs[|recs| - 1]) then 1 else 0
  }

  function Consumptions(recs: seq<Rec>): nat {
    if recs == [] then 0 else Consumptions(recs[..|recs| - 1]) + if recs[|recs| - 1].kind == Consumed then 1 else 0
  }

  /** One, two, up to `n`. */
  function UpTo(n: nat): seq<nat> { seq(n, i => i + 1) }

  lemma UpToMore(n: nat)
    ensures UpTo(n) + [n + 1] == UpTo(n + 1)
  {
  }

  // ------------------------------------------------------------ one record

  /** What one accepted record changes, dictionary by dictionary. */
  ghost predicate GroupsMove(st: State, r: Rec, st': State) {
    if IsFresh(r) then r.f4 == Get(st.groups, SentPair(r)) + 1 && st'.groups == st.groups[SentPair(r) := r.f4]
    else st'.groups == st.groups
  }

  ghost predicate TookMoves(st: State, r: Rec, st': State) {
    if r.kind == Consumed then
      && r.f1 == Get(st.took, TakenPair(r)) + 1 && st'.took == st.took[TakenPair(r) := r.f1] && r.f0 < NCPU
      && st'.cons == st.cons + [Consumption(TakenPair(r), r.f1, Owed(st, CpuOf(r)).at)]
    else st'.took == st.took && st'.cons == st.cons
  }

  /** What CPU `cpu` owes: nothing before any record but a consumption; an arrival
      loads its mask and number; a consumption clears the lowest bit. */
  ghost predicate DebtMoves(st: State, r: Rec, st': State, cpu: nat) {
    var b, b' := Owed(st, cpu).bits, Owed(st', cpu).bits;
    && Owed(st', cpu).at == (if CpuOf(r) == cpu && r.kind == Arrived then r.seqNo else Owed(st, cpu).at)
    && if CpuOf(r) != cpu then b' == b
       else if r.kind == Consumed then b != 0 && Lowest(b, r.f0) && b' == ClearBit(b, r.f0)
       else b == 0 && b' == if r.kind == Arrived then r.f0 else 0
  }

  ghost predicate CountsMove(st: State, r: Rec, st': State) {
    && st'.c.published == st.c.published + (if Counted(r) then 1 else 0)
    && st'.c.opening == st.c.opening + (if IsFresh(r) then 1 else 0)
    && st'.c.merged == st.c.merged + (if Counted(r) && !IsFresh(r) then 1 else 0)
    && st'.c.requests == st.c.requests + (if r.kind == Requested then 1 else 0)
    && st'.c.arrivals == st.c.arrivals + (if r.kind == Arrived then 1 else 0)
    && st'.c.empty == st.c.empty + (if r.kind == Arrived && r.f0 == 0 then 1 else 0)
    && st'.c.consumed == st.c.consumed + (if r.kind == Consumed then 1 else 0)
  }

  predicate Takes(r: Rec, cpu: nat) { CpuOf(r) == cpu && (r.kind == ParkReleased || r.kind == Arrived) }

  predicate Asks(r: Rec, cpu: nat) { r.kind == Requested && r.f0 % 64 == cpu }

  ghost predicate RequestsMove(st: State, r: Rec, st': State, cpu: nat) {
    && Get(st'.taken, cpu) == Get(st.taken, cpu) + (if Takes(r, cpu) then 1 else 0)
    && Get(st'.requests, cpu) == Get(st.requests, cpu) + (if Asks(r, cpu) then 1 else 0)
  }

  ghost predicate Moves(st: State, r: Rec, st': State, cpu: nat) {
    && GroupsMove(st, r, st') && TookMoves(st, r, st') && DebtMoves(st, r, st', cpu)
    && CountsMove(st, r, st') && RequestsMove(st, r, st', cpu)
  }

  lemma PublishMoves(st: State, r: Rec, st': State, cpu: nat)
    requires Counted(r) && Owed(st, CpuOf(r)).bits == 0 && Publish(st, r) == Success(st')
    ensures Moves(st, r, st', cpu)
  {
  }

  lemma ConsumeMoves(st: State, r: Rec, st': State, cpu: nat)
    requires r.kind == Consumed && Consume(st, r) == Success(st')
    ensures Moves(st, r, st', cpu)
  {
  }

  lemma ArriveMoves(st: State, r: Rec, cpu: nat)
    requires r.kind == Arrived && Owed(st, CpuOf(r)).bits == 0
    ensures Moves(st, r, Arrive(st, r), cpu)
  {
  }

  lemma OtherMoves(st: State, r: Rec, st': State, cpu: nat)
    requires !Counted(r) && r.kind != Consumed && r.kind != Arrived && Step(st, r) == Success(st')
    ensures Moves(st, r, st', cpu)
  {
  }

  lemma StepMoves(st: State, r: Rec, st': State, cpu: nat)
    requires Step(st, r) == Success(st')
    ensures Moves(st, r, st', cpu)
  {
    if Counted(r) {
      PublishMoves(st, r, st', cpu);
    } else if r.kind == Consumed {
      ConsumeMoves(st, r, st', cpu);
    } else if r.kind == Arrived {
      ArriveMoves(st, r, cpu);
    } else {
      OtherMoves(st, r, st', cpu);
    }
  }

  lemma RunMoves(recs: seq<Rec>, st: State, cpu: nat) returns (before: State, r: Rec)
    requires recs != [] && Run(recs) == Success(st)
    ensures Run(recs[..|recs| - 1]) == Success(before) && r == recs[|recs| - 1]
    ensures Moves(before, r, st, cpu)
  {
    before, r := Run(recs[..|recs| - 1]).value, recs[|recs| - 1];
    StepMoves(before, r, st, cpu);
  }

  // ------------------------------------------------------------------ per pair

  ghost predicate PairKept(recs: seq<Rec>, st: State, p: Pair) {
    Groups(recs, p) == UpTo(Get(st.groups, p)) && Ordinals(recs, p) == UpTo(Get(st.took, p))
  }

  lemma PairStep(recs: seq<Rec>, before: State, st: State, p: Pair)
    requires recs != [] && PairKept(recs[..|recs| - 1], before, p)
    requires GroupsMove(before, recs[|recs| - 1], st) && TookMoves(before, recs[|recs| - 1], st)
    ensures PairKept(recs, st, p)
  {
    UpToMore(Get(before.groups, p));
    UpToMore(Get(before.took, p));
  }

  lemma {:induction false} PairsKept(recs: seq<Rec>, st: State, p: Pair)
    requires Run(recs) == Success(st)
    ensures PairKept(recs, st, p)
  {
    if recs != [] {
      var before, r := RunMoves(recs, st, 0);
      PairsKept(recs[..|recs| - 1], before, p);
      PairStep(recs, before, st, p);
    }
  }

  lemma {:induction false} CountsKept(recs: seq<Rec>, st: State)
    requires Run(recs) == Success(st)
    ensures st.c.published == Publications(recs) == st.c.opening + st.c.merged
    ensures st.c.opening == Openings(recs) && st.c.consumed == Consumptions(recs)
  {
    if recs != [] {
      var before, r := RunMoves(recs, st, 0);
      CountsKept(recs[..|recs| - 1], before);
    }
  }

  /** Every consumption is listed, and the last of each pair is. */
  ghost predicate Listed(st: State, p: Pair) {
    Get(st.took, p) > 0 ==> exists k :: 0 <= k < |st.cons| && st.cons[k].pair == p && st.cons[k].ordinal == Get(st.took, p)
  }

  lemma ListedStep(st: State, r: Rec, st': State, p: Pair)
    requires Listed(st, p) && TookMoves(st, r, st')
    ensures Listed(st', p)
  {
    if r.kind == Consumed && TakenPair(r) == p {
      assert st'.cons[|st.cons|].pair == p && st'.cons[|st.cons|].ordinal == Get(st'.took, p);
    } else if Get(st.took, p) > 0 {
      var k :| 0 <= k < |st.cons| && st.cons[k].pair == p && st.cons[k].ordinal == Get(st.took, p);
      assert st'.cons[k] == st.cons[k];
    }
  }

  lemma {:induction false} AllListed(recs: seq<Rec>, st: State, p: Pair)
    requires Run(recs) == Success(st)
    ensures Listed(st, p)
  {
    if recs != [] {
      var before, r := RunMoves(recs, st, 0);
      AllListed(recs[..|recs| - 1], before, p);
      ListedStep(before, r, st, p);
    }
  }

  /** The last group opened for a pair was opened by some record. */
  lemma {:induction false} OpenedBy(recs: seq<Rec>, p: Pair) returns (i: nat)
    requires Groups(recs, p) != []
    ensures i < |recs| && IsFresh(recs[i]) && SentPair(recs[i]) == p && recs[i].f4 == Groups(recs, p)[|Groups(recs, p)| - 1]
    decreases |recs|
  {
    var n := |recs| - 1;
    if IsFresh(recs[n]) && SentPair(recs[n]) == p {
      i := n;
    } else {
      i := OpenedBy(recs[..n], p);
    }
  }

  lemma SettledPairs(recs: seq<Rec>, st: State, c: Counts, p: Pair)
    requires Run(recs) == Success(st) && Settle(st, recs) == Success(c)
    ensures Get(st.took, p) == Get(st.groups, p)
  {
    PairsKept(recs, st, p);
    AllListed(recs, st, p);
    if Get(st.took, p) > 0 {
      var k :| 0 <= k < |st.cons| && st.cons[k].pair == p && st.cons[k].ordinal == Get(st.took, p);
      assert Opened(st, st.cons[k]);
    }
    if Get(st.groups, p) > 0 {
      var i := OpenedBy(recs, p);
      assert Delivered(st, recs[i]);
    }
  }

  /** In every accepted population the ordinals consumed for a pair are exactly
      one to the number of groups opened for it, in order, as are the groups. */
  lemma OrdinalsExact(recs: seq<Rec>, c: Counts, p: Pair)
    requires Population(recs) == Success(c)
    ensures Ordinals(recs, p) == Groups(recs, p) == UpTo(|Groups(recs, p)|)
  {
    var st := Run(recs).value;
    PairsKept(recs, st, p);
    SettledPairs(recs, st, c, p);
  }

  // ------------------------------------------------------------------ the sums

  /** The pair numbered `k` on the 64 by 64 grid. */
  function PairAt(k: nat): Pair { (k / 64, k % 64) }

  function Sum(m: map<Pair, nat>, n: nat): nat
    decreases |m|, n
  {
    if n == 0 then 0 else Sum(m, n - 1) + Get(m, PairAt(n - 1))
  }

  lemma {:induction false} SumUpdate(m: map<Pair, nat>, p: Pair, v: nat, n: nat)
    requires p.1 < 64
    ensures Sum(m[p := v], n) + Get(m, p) * (if 64 * p.0 + p.1 < n then 1 else 0) ==
            Sum(m, n) + v * (if 64 * p.0 + p.1 < n then 1 else 0)
    decreases n
  {
    if n > 0 {
      SumUpdate(m, p, v, n - 1);
      assert PairAt(n - 1) == p <==> n - 1 == 64 * p.0 + p.1;
    }
  }

  const GRID: nat := 4096

  lemma SumRaise(m: map<Pair, nat>, p: Pair)
    requires p.0 < 64 && p.1 < 64
    ensures Sum(m[p := Get(m, p) + 1], GRID) == Sum(m, GRID) + 1
  {
    SumUpdate(m, p, Get(m, p) + 1, GRID);
  }

  lemma {:induction false} SumEmpty(n: nat)
    ensures Sum(map[], n) == 0
  {
    if n > 0 { SumEmpty(n - 1); }
  }

  lemma {:induction false} SumSame(a: map<Pair, nat>, b: map<Pair, nat>, n: nat)
    requires forall p: Pair :: Get(a, p) == Get(b, p)
    ensures Sum(a, n) == Sum(b, n)
    decreases n
  {
    if n > 0 { SumSame(a, b, n - 1); }
  }

  ghost predicate SumKept(recs: seq<Rec>, st: State) {
    Sum(st.groups, GRID) == Openings(recs) && Sum(st.took, GRID) == Consumptions(recs)
  }

  lemma SumStep(recs: seq<Rec>, before: State, st: State)
    requires recs != [] && SumKept(recs[..|recs| - 1], before)
    requires GroupsMove(before, recs[|recs| - 1], st) && TookMoves(before, recs[|recs| - 1], st)
    ensures SumKept(recs, st)
  {
    var r := recs[|recs| - 1];
    if IsFresh(r) { SumRaise(before.groups, SentPair(r)); }
    if r.kind == Consumed { SumRaise(before.took, TakenPair(r)); }
  }

  lemma {:induction false} SumsKept(recs: seq<Rec>, st: State)
    requires Run(recs) == Success(st)
    ensures SumKept(recs, st)
  {
    if recs == [] {
      SumEmpty(GRID);
    } else {
      var before, r := RunMoves(recs, st, 0);
      SumsKept(recs[..|recs| - 1], before);
      SumStep(recs, before, st);
    }
  }

  // ---------------------------------------------------------------- the debts

  /** The bits owed by the CPUs below `n`. */
  function Debts(st: State, n: nat): nat
    decreases |st.owed|, n
  {
    if n == 0 then 0 else Debts(st, n - 1) + Ones(Owed(st, n - 1).bits)
  }

  lemma {:induction false} DebtsMove(st: State, st': State, cpu: nat, n: nat)
    requires forall j: nat :: j != cpu ==> Owed(st', j).bits == Owed(st, j).bits
    ensures Debts(st', n) + (if cpu < n then Ones(Owed(st, cpu).bits) else 0) ==
            Debts(st, n) + (if cpu < n then Ones(Owed(st', cpu).bits) else 0)
    decreases n
  {
    if n > 0 { DebtsMove(st, st', cpu, n - 1); }
  }

  lemma {:induction false} LowestIsSet(bits: nat, k: nat)
    requires Lowest(bits, k)
    ensures Bit(bits, k)
    decreases k
  {
    if k > 0 { LowestIsSet(bits / 2, k - 1); }
  }

  lemma OthersKeep(st: State, r: Rec, st': State)
    requires Step(st, r) == Success(st')
    ensures forall j: nat :: j != CpuOf(r) ==> Owed(st', j).bits == Owed(st, j).bits
  {
    forall j: nat | j != CpuOf(r) ensures Owed(st', j).bits == Owed(st, j).bits { StepMoves(st, r, st', j); }
  }

  lemma DebtStep(st: State, r: Rec, st': State)
    requires DebtMoves(st, r, st', CpuOf(r))
    requires forall j: nat :: j != CpuOf(r) ==> Owed(st', j).bits == Owed(st, j).bits
    ensures Debts(st', NCPU) + (if r.kind == Consumed then 1 else 0) ==
            Debts(st, NCPU) + (if r.kind == Arrived then Ones(r.f0) else 0)
  {
    DebtsMove(st, st', CpuOf(r), NCPU);
    if r.kind == Consumed {
      LowestIsSet(Owed(st, CpuOf(r)).bits, r.f0);
      ClearBitOnes(Owed(st, CpuOf(r)).bits, r.f0);
    }
  }

  lemma {:induction false} NoDebts(st: State, n: nat)
    requires forall cpu :: 0 <= cpu < n ==> Owed(st, cpu).bits == 0
    ensures Debts(st, n) == 0
  {
    if n > 0 { NoDebts(st, n - 1); }
  }

  /** Conservation: every bit of every arrival mask is consumed or still owed. */
  lemma {:induction false} BitsConserved(recs: seq<Rec>, st: State)
    requires Run(recs) == Success(st)
    ensures Consumptions(recs) + Debts(st, NCPU) == MaskBits(recs)
  {
    if recs == [] {
      NoDebts(st, NCPU);
    } else {
      var n := |recs| - 1;
      var before, r := RunMoves(recs, st, CpuOf(recs[n]));
      BitsConserved(recs[..n], before);
      OthersKeep(before, r, st);
      DebtStep(before, r, st);
    }
  }

  /** The accounts of every accepted population: publications are openings and
      merges, and openings, consumptions and set mask bits are one number. */
  lemma AccountsBalance(recs: seq<Rec>, c: Counts)
    requires Population(recs) == Success(c)
    ensures c.published == Publications(recs) == c.opening + c.merged
    ensures c.opening == c.consumed == Openings(recs) == Consumptions(recs) == MaskBits(recs)
  {
    var st := Run(recs).value;
    CountsKept(recs, st);
    SumsKept(recs, st);
    BitsConserved(recs, st);
    NoDebts(st, NCPU);
    forall p: Pair ensures Get(st.took, p) == Get(st.groups, p) { SettledPairs(recs, st, c, p); }
    SumSame(st.took, st.groups, GRID);
  }

  // -------------------------------------------------------------- the requests

  /** How often CPU `cpu` arrived or was released. */
  function Takings(recs: seq<Rec>, cpu: nat): nat {
    if recs == [] then 0
    else Takings(recs[..|recs| - 1], cpu) + if Takes(recs[|recs| - 1], cpu) then 1 else 0
  }

  /** How many interrupts were requested of CPU `cpu`. */
  function RequestsOf(recs: seq<Rec>, cpu: nat): nat {
    if recs == [] then 0
    else RequestsOf(recs[..|recs| - 1], cpu) + if Asks(recs[|recs| - 1], cpu) then 1 else 0
  }

  lemma {:induction false} RequestsKept(recs: seq<Rec>, st: State, cpu: nat)
    requires Run(recs) == Success(st)
    ensures Get(st.taken, cpu) == Takings(recs, cpu) && Get(st.requests, cpu) == RequestsOf(recs, cpu)
  {
    if recs != [] {
      var before, r := RunMoves(recs, st, cpu);
      RequestsKept(recs[..|recs| - 1], before, cpu);
    }
  }

  /** In every accepted population no CPU arrives or is released more often than
      it was asked to. */
  lemma ArrivalsExplained(recs: seq<Rec>, c: Counts, cpu: nat)
    requires Population(recs) == Success(c) && cpu < NCPU
    ensures Takings(recs, cpu) <= RequestsOf(recs, cpu)
  {
    var st := Run(recs).value;
    RequestsKept(recs, st, cpu);
    assert Explained(st, cpu);
  }

  // ------------------------------------------------------------- the discharge

  /** The set bits of a mask, ascending, counted from `base`. */
  function BitsFrom(mask: nat, base: nat): seq<nat>
    decreases mask
  {
    if mask == 0 then []
    else if mask % 2 == 1 then [base] + BitsFrom(mask / 2, base + 1)
    else BitsFrom(mask / 2, base + 1)
  }

  lemma {:induction false} BitsAscend(mask: nat, base: nat)
    ensures forall v :: v in BitsFrom(mask, base) ==> v >= base
    ensures forall i, j :: 0 <= i < j < |BitsFrom(mask, base)| ==> BitsFrom(mask, base)[i] < BitsFrom(mask, base)[j]
    decreases mask
  {
    if mask != 0 {
      var all, rest := BitsFrom(mask, base), BitsFrom(mask / 2, base + 1);
      BitsAscend(mask / 2, base + 1);
      forall i, j | mask % 2 == 1 && 0 <= i < j < |all| ensures all[i] < all[j] {
        assert all[j] == rest[j - 1] && rest[j - 1] in rest;
        if i > 0 { assert all[i] == rest[i - 1]; }
      }
    }
  }

  /** They are exactly the set bits. */
  lemma {:induction false} BitsFromExact(mask: nat, base: nat, v: nat)
    requires v >= base
    ensures v in BitsFrom(mask, base) <==> Bit(mask, v - base)
    decreases mask
  {
    if mask == 0 {
      ZeroBits(v - base);
    } else {
      BitsAscend(mask / 2, base + 1);
      if v > base { BitsFromExact(mask / 2, base + 1, v); }
    }
  }

  /** The records of one CPU, in order. */
  function OnCpu(recs: seq<Rec>, cpu: nat): seq<Rec> {
    if recs == [] then []
    else
      var n := |recs| - 1;
      if CpuOf(recs[n]) == cpu then OnCpu(recs[..n], cpu) + [recs[n]] else OnCpu(recs[..n], cpu)
  }

  /** A CPU's records as a queue: an arrival loads its mask's bits in ascending
      order, a consumption takes the head, and anything else needs it empty. */
  function Queue(s: seq<Rec>): Option<seq<nat>> {
    if s == [] then Some([])
    else
      var q :- Queue(s[..|s| - 1]);
      var r := s[|s| - 1];
      if r.kind == Consumed then (if q != [] && q[0] == r.f0 then Some(q[1..]) else None)
      else if q != [] then None
      else Some(if r.kind == Arrived then BitsFrom(r.f0, 0) else [])
  }

  lemma ClearHalf(mask: nat)
    requires mask % 2 == 1
    ensures ClearBit(mask, 0) == mask - 1 && (mask - 1) / 2 == mask / 2 && (mask - 1) % 2 == 0
  {
  }

  lemma {:induction false} LowestFirst(mask: nat, k: nat, base: nat)
    requires Lowest(mask, k)
    ensures mask != 0 && BitsFrom(mask, base) == [base + k] + BitsFrom(ClearBit(mask, k), base)
    decreases k
  {
    if k == 0 {
      ClearHalf(mask);
    } else {
      LowestFirst(mask / 2, k - 1, base + 1);
      DoubledBits(ClearBit(mask / 2, k - 1), base);
    }
  }

  lemma DoubledBits(half: nat, base: nat)
    ensures BitsFrom(2 * half, base) == BitsFrom(half, base + 1)
  {
  }

  lemma QueueStep(s: seq<Rec>, r: Rec, b: nat, b': nat)
    requires Queue(s) == Some(BitsFrom(b, 0))
    requires if r.kind == Consumed then b != 0 && Lowest(b, r.f0) && b' == ClearBit(b, r.f0)
             else b == 0 && b' == if r.kind == Arrived then r.f0 else 0
    ensures Queue(s + [r]) == Some(BitsFrom(b', 0))
  {
    assert (s + [r])[..|s|] == s;
    if r.kind == Consumed { LowestFirst(b, r.f0, 0); }
  }

  lemma {:induction false} QueueKept(recs: seq<Rec>, st: State, cpu: nat)
    requires Run(recs) == Success(st)
    ensures Queue(OnCpu(recs, cpu)) == Some(BitsFrom(Owed(st, cpu).bits, 0))
  {
    if recs != [] {
      var n := |recs| - 1;
      var before, r := RunMoves(recs, st, cpu);
      QueueKept(recs[..n], before, cpu);
      if CpuOf(r) == cpu { QueueStep(OnCpu(recs[..n], cpu), r, Owed(before, cpu).bits, Owed(st, cpu).bits); }
    }
  }

  lemma {:induction false} QueueNone(s: seq<Rec>, n: nat)
    requires n <= |s| && Queue(s[..n]).None?
    ensures Queue(s).None?
    decreases |s|
  {
    if n < |s| {
      assert s[..|s| - 1][..n] == s[..n];
      QueueNone(s[..|s| - 1], n);
    } else {
      assert s[..n] == s;
    }
  }

  lemma QueueNext(s: seq<Rec>, m: nat, q: seq<nat>)
    requires Queue(s) == Some([]) && m <= |s| && Queue(s[..m]) == Some(q) && q != []
    ensures m < |s| && s[m].kind == Consumed && s[m].f0 == q[0] && Queue(s[..m + 1]) == Some(q[1..])
  {
    assert s[..|s|] == s;
    if Queue(s[..m + 1]).None? { QueueNone(s, m + 1); }
    assert s[..m + 1][..m] == s[..m];
  }

  /** From `m` on the records are the consumptions of `q`, in order. */
  ghost predicate Drains(s: seq<Rec>, m: nat, q: seq<nat>)
    decreases |q|
  {
    q == [] || (m < |s| && s[m].kind == Consumed && s[m].f0 == q[0] && Drains(s, m + 1, q[1..]))
  }

  lemma {:induction false} QueueDrains(s: seq<Rec>, m: nat, q: seq<nat>)
    requires Queue(s) == Some([]) && m <= |s| && Queue(s[..m]) == Some(q)
    ensures Drains(s, m, q)
    decreases |q|
  {
    if q != [] {
      QueueNext(s, m, q);
      QueueDrains(s, m + 1, q[1..]);
    }
  }

  /** In a queue that ends empty, an arrival is followed at once by the
      consumptions of its bits, in ascending order. */
  lemma QueueDischarges(s: seq<Rec>, i: nat)
    requires Queue(s) == Some([]) && i < |s| && s[i].kind == Arrived
    ensures Drains(s, i + 1, BitsFrom(s[i].f0, 0))
  {
    if Queue(s[..i + 1]).None? { QueueNone(s, i + 1); }
    assert s[..i + 1][..i] == s[..i];
    QueueDrains(s, i + 1, BitsFrom(s[i].f0, 0));
  }

  lemma QueueEmpty(recs: seq<Rec>, c: Counts, cpu: nat)
    requires Population(recs) == Success(c) && cpu < NCPU
    ensures Queue(OnCpu(recs, cpu)) == Some([])
  {
    QueueKept(recs, Run(recs).value, cpu);
  }

  /** In every accepted population each arrival's mask is consumed bit by bit, in
      ascending order, before its CPU's next record of any other kind. */
  lemma MasksDischarged(recs: seq<Rec>, c: Counts, cpu: nat, i: nat)
    requires Population(recs) == Success(c) && cpu < NCPU
    requires i < |OnCpu(recs, cpu)| && OnCpu(recs, cpu)[i].kind == Arrived
    ensures Drains(OnCpu(recs, cpu), i + 1, BitsFrom(OnCpu(recs, cpu)[i].f0, 0))
  {
    QueueEmpty(recs, c, cpu);
    QueueDischarges(OnCpu(recs, cpu), i);
  }
}
