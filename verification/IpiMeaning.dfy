/** Which IPI populations are accepted, and what the others are refused for, by
    scanning the records alone. */
module IpiMeaning {
  import opened Machine
  import opened Bits
  import opened IpiPopulation
  import opened IpiProofs

  // ------------------------------------------------------------------- scanning

  /** A wake or kick published by CPU `s` for CPU `d`. */
  predicate Publishes(r: Rec, s: nat, d: nat) {
    r.kind == Published && (r.f2 == 0 || r.f2 == 2) && r.cpu % 64 == s && r.f0 % 64 == d
  }

  /** CPU `d` consumes from CPU `s`. */
  predicate ConsumesFrom(r: Rec, s: nat, d: nat) { r.kind == Consumed && r.f0 == s && r.cpu % 64 == d }

  /** The last group opened from `s` to `d`, zero if there is none. */
  function LastGroup(recs: seq<Rec>, s: nat, d: nat): nat {
    if recs == [] then 0
    else
      var n := |recs| - 1;
      if Publishes(recs[n], s, d) && recs[n].f3 == 0 then recs[n].f4 else LastGroup(recs[..n], s, d)
  }

  /** The last ordinal `d` consumed from `s`, zero if there is none. */
  function LastTaken(recs: seq<Rec>, s: nat, d: nat): nat {
    if recs == [] then 0
    else
      var n := |recs| - 1;
      if ConsumesFrom(recs[n], s, d) then recs[n].f1 else LastTaken(recs[..n], s, d)
  }

  /** The mask of `cpu`'s last arrival without the bits consumed since. */
  function Outstanding(recs: seq<Rec>, cpu: nat): nat {
    if recs == [] then 0
    else
      var n := |recs| - 1;
      if recs[n].cpu % 64 != cpu then Outstanding(recs[..n], cpu)
      else if recs[n].kind == Arrived then recs[n].f0
      else if recs[n].kind == Consumed then ClearBit(Outstanding(recs[..n], cpu), recs[n].f0)
      else Outstanding(recs[..n], cpu)
  }

  /** The number of `cpu`'s last arrival. */
  function ArrivalOf(recs: seq<Rec>, cpu: nat): nat {
    if recs == [] then 0
    else
      var n := |recs| - 1;
      if recs[n].cpu % 64 == cpu && recs[n].kind == Arrived then recs[n].seqNo else ArrivalOf(recs[..n], cpu)
  }

  function Arrivals(recs: seq<Rec>, cpu: nat): nat {
    if recs == [] then 0
    else
      var n := |recs| - 1;
      Arrivals(recs[..n], cpu)
      + if recs[n].cpu % 64 == cpu && (recs[n].kind == ParkReleased || recs[n].kind == Arrived) then 1 else 0
  }

  function Requests(recs: seq<Rec>, cpu: nat): nat {
    if recs == [] then 0
    else
      var n := |recs| - 1;
      Requests(recs[..n], cpu) + if recs[n].kind == Kind.Requested && recs[n].f0 % 64 == cpu then 1 else 0
  }

  // ----------------------------------------------------------------- the rules

  /** Bit `k` is the lowest one set. */
  ghost predicate LowestSet(mask: nat, k: nat) { Bit(mask, k) && forall j: nat :: j < k ==> !Bit(mask, j) }

  /** Why record `r` is refused after the records `before`, if it is. */
  ghost function RecordFault(before: seq<Rec>, r: Rec): Option<Refusal> {
    var cpu := r.cpu % 64;
    var left := Outstanding(before, cpu);
    if r.kind == Consumed then
      var had := LastTaken(before, r.f0, cpu);
      if left == 0 || r.f0 >= 64 || !LowestSet(left, r.f0) then Some(ConsumptionUnbound(r.seqNo))
      else if r.f1 <= had then Some(DuplicateAttribution(r.seqNo))
      else if r.f1 != had + 1 then Some(ConsumptionUnbound(r.seqNo))
      else None
    else if left != 0 then Some(ConsumptionUnbound(ArrivalOf(before, cpu)))
    else if Publishes(r, cpu, r.f0 % 64) then
      var group := LastGroup(before, cpu, r.f0 % 64);
      if (r.f3 == 0 && r.f4 == group + 1) || (r.f3 == 1 && r.f4 == group && group != 0) then None
      else Some(GroupInconsistent(r.seqNo))
    else if r.kind == Kind.Requested && r.f3 != 0 then Some(FirmwareRefused(r.seqNo))
    else None
  }

  // ------------------------------------------------------------ state and scans

  ghost predicate FitsPair(recs: seq<Rec>, st: State, s: nat, d: nat) {
    Get(st.groups, (s, d)) == LastGroup(recs, s, d) && Get(st.took, (s, d)) == LastTaken(recs, s, d)
  }

  ghost predicate FitsCpu(recs: seq<Rec>, st: State, cpu: nat) {
    && Owed(st, cpu).bits == Outstanding(recs, cpu) && (Owed(st, cpu).bits != 0 ==> Owed(st, cpu).at == ArrivalOf(recs, cpu))
    && Get(st.taken, cpu) == Arrivals(recs, cpu) && Get(st.requests, cpu) == Requests(recs, cpu)
  }

  lemma {:induction false} PairFits(recs: seq<Rec>, st: State, s: nat, d: nat)
    requires Run(recs) == Success(st)
    ensures FitsPair(recs, st, s, d)
  {
    if recs != [] {
      var before, r := RunMoves(recs, st, 0);
      PairFits(recs[..|recs| - 1], before, s, d);
    }
  }

  lemma {:induction false} CpuFits(recs: seq<Rec>, st: State, cpu: nat)
    requires Run(recs) == Success(st)
    ensures FitsCpu(recs, st, cpu)
  {
    if recs != [] {
      var before, r := RunMoves(recs, st, cpu);
      CpuFits(recs[..|recs| - 1], before, cpu);
    }
  }

  lemma {:induction false} LowestMeans(mask: nat, k: nat)
    ensures Lowest(mask, k) <==> LowestSet(mask, k)
    decreases k
  {
    if k > 0 {
      LowestMeans(mask / 2, k - 1);
      if LowestSet(mask, k) {
        assert !Bit(mask, 0);
        forall j: nat | j < k - 1 ensures !Bit(mask / 2, j) { assert !Bit(mask, j + 1); }
      }
      if Lowest(mask, k) {
        forall j: nat | j < k ensures !Bit(mask, j) {
          if j > 0 { assert !Bit(mask / 2, j - 1); }
        }
      }
    }
  }

  /** A record is refused exactly for its fault. */
  lemma RecordMeans(before: seq<Rec>, st: State, r: Rec)
    requires Run(before) == Success(st)
    ensures var fault := RecordFault(before, r);
            if fault.Some? then Step(st, r) == Failure(fault.value) else Step(st, r).Success?
  {
    var cpu := r.cpu % 64;
    CpuFits(before, st, cpu);
    PairFits(before, st, cpu, r.f0 % 64);
    PairFits(before, st, r.f0, cpu);
    LowestMeans(Outstanding(before, cpu), r.f0);
  }

  /** Record `n` is the first one refused, for `why`. */
  ghost predicate RefusedAt(recs: seq<Rec>, n: nat, why: Refusal) {
    && n < |recs| && RecordFault(recs[..n], recs[n]) == Some(why)
    && forall j :: 0 <= j < n ==> RecordFault(recs[..j], recs[j]).None?
  }

  lemma {:induction false} RunMeans(recs: seq<Rec>, n: nat)
    requires n <= |recs|
    ensures var out := Run(recs[..n]);
            if out.Success? then forall j :: 0 <= j < n ==> RecordFault(recs[..j], recs[j]).None?
            else exists k: nat :: RefusedAt(recs, k, out.error)
    decreases n
  {
    if n > 0 {
      var k := n - 1;
      RunMeans(recs, k);
      assert recs[..n][..k] == recs[..k];
      if Run(recs[..k]).Success? {
        RecordMeans(recs[..k], Run(recs[..k]).value, recs[k]);
        if RecordFault(recs[..k], recs[k]).Some? { assert RefusedAt(recs, k, Run(recs[..n]).error); }
      }
    }
  }

  // ---------------------------------------------------------------- at the end

  /** What is left undone at the end on CPU `cpu`. */
  ghost predicate Unconsumed(recs: seq<Rec>, cpu: nat) { cpu < 64 && Outstanding(recs, cpu) != 0 }

  /** Record `n` consumes a group its sender never opened. */
  ghost predicate Unopened(recs: seq<Rec>, n: nat) {
    n < |recs| && recs[n].kind == Consumed && recs[n].f1 > LastGroup(recs, recs[n].f0, recs[n].cpu % 64)
  }

  /** Record `n` opens a group that is never consumed. */
  ghost predicate NeverTaken(recs: seq<Rec>, n: nat) {
    && n < |recs| && Publishes(recs[n], recs[n].cpu % 64, recs[n].f0 % 64) && recs[n].f3 == 0
    && recs[n].f4 > LastTaken(recs, recs[n].cpu % 64, recs[n].f0 % 64)
  }

  ghost predicate Unasked(recs: seq<Rec>, cpu: nat) { cpu < 64 && Arrivals(recs, cpu) > Requests(recs, cpu) }

  ghost predicate FirstUnconsumed(recs: seq<Rec>, cpu: nat) { Unconsumed(recs, cpu) && forall j: nat :: j < cpu ==> !Unconsumed(recs, j) }

  ghost predicate FirstUnopenedAt(recs: seq<Rec>, n: nat) { Unopened(recs, n) && forall j: nat :: j < n ==> !Unopened(recs, j) }

  ghost predicate FirstNeverTaken(recs: seq<Rec>, n: nat) { NeverTaken(recs, n) && forall j: nat :: j < n ==> !NeverTaken(recs, j) }

  ghost predicate FirstUnasked(recs: seq<Rec>, cpu: nat) { Unasked(recs, cpu) && forall j: nat :: j < cpu ==> !Unasked(recs, j) }

  ghost predicate AllConsumed(recs: seq<Rec>) { forall cpu: nat :: !Unconsumed(recs, cpu) }

  ghost predicate AllOpened(recs: seq<Rec>) { forall n: nat :: !Unopened(recs, n) }

  ghost predicate AllTaken(recs: seq<Rec>) { forall n: nat :: !NeverTaken(recs, n) }

  ghost predicate AllAsked(recs: seq<Rec>) { forall cpu: nat :: !Unasked(recs, cpu) }

  /** What a run without refused records is refused for at the end: an unconsumed
      arrival, else an unopened group, else an untaken one, else an arrival nobody
      asked for; the first of its kind each time. */
  ghost predicate SettledAs(recs: seq<Rec>, why: Refusal) {
    || (exists cpu: nat :: FirstUnconsumed(recs, cpu) && why == ConsumptionUnbound(ArrivalOf(recs, cpu)))
    || (&& AllConsumed(recs)
        && exists n: nat :: FirstUnopenedAt(recs, n) && why == UnexplainedArrival(ArrivalOf(recs[..n], recs[n].cpu % 64)))
    || (&& AllConsumed(recs) && AllOpened(recs) && exists n: nat :: FirstNeverTaken(recs, n) && why == Undelivered(recs[n].seqNo))
    || (&& AllConsumed(recs) && AllOpened(recs) && AllTaken(recs)
        && exists cpu: nat :: FirstUnasked(recs, cpu) && why == ArrivalsExceedRequests(cpu))
  }

  /** The places of the consumptions. */
  function Places(recs: seq<Rec>): seq<nat> {
    if recs == [] then []
    else
      var n := |recs| - 1;
      Places(recs[..n]) + if recs[n].kind == Consumed then [n] else []
  }

  /** A place is listed exactly when a consumption stands there, in order. */
  lemma {:induction false} PlacesExact(recs: seq<Rec>, i: nat)
    ensures i in Places(recs) <==> i < |recs| && recs[i].kind == Consumed
    ensures forall j, k :: 0 <= j < k < |Places(recs)| ==> Places(recs)[j] < Places(recs)[k]
    decreases |recs|
  {
    if recs != [] {
      var n := |recs| - 1;
      var front := Places(recs[..n]);
      PlacesExact(recs[..n], i);
      forall j | 0 <= j < |front| ensures front[j] < n { PlacesExact(recs[..n], front[j]); }
    }
  }

  ghost predicate ConsumptionIs(recs: seq<Rec>, n: nat, e: Consumption) {
    && n < |recs| && e.pair == (recs[n].f0, recs[n].cpu % 64) && e.ordinal == recs[n].f1
    && e.at == ArrivalOf(recs[..n], recs[n].cpu % 64)
  }

  ghost predicate ConsumptionsFit(recs: seq<Rec>, ps: seq<nat>, cons: seq<Consumption>) {
    |ps| == |cons| && forall k :: 0 <= k < |cons| ==> ConsumptionIs(recs, ps[k], cons[k])
  }

  lemma ConsumptionsGrow(recs: seq<Rec>, ps: seq<nat>, cons: seq<Consumption>)
    requires recs != [] && ConsumptionsFit(recs[..|recs| - 1], ps, cons)
    ensures ConsumptionsFit(recs, ps, cons)
  {
    var front := recs[..|recs| - 1];
    forall k | 0 <= k < |cons| ensures ConsumptionIs(recs, ps[k], cons[k]) {
      assert ConsumptionIs(front, ps[k], cons[k]);
      assert front[..ps[k]] == recs[..ps[k]];
    }
  }

  lemma {:induction false} ConsFit(recs: seq<Rec>, st: State)
    requires Run(recs) == Success(st)
    ensures ConsumptionsFit(recs, Places(recs), st.cons)
  {
    if recs != [] {
      var n := |recs| - 1;
      var before, r := RunMoves(recs, st, CpuOf(recs[n]));
      ConsFit(recs[..n], before);
      ConsumptionsGrow(recs, Places(recs[..n]), before.cons);
      if r.kind == Consumed {
        CpuFits(recs[..n], before, CpuOf(r));
        assert ConsumptionIs(recs, n, st.cons[|before.cons|]);
      }
    }
  }

  lemma FirstOwingMeans(recs: seq<Rec>, st: State)
    requires Run(recs) == Success(st)
    ensures FirstOwing(st, 0) < NCPU ==> FirstUnconsumed(recs, FirstOwing(st, 0))
                                         && Owed(st, FirstOwing(st, 0)).at == ArrivalOf(recs, FirstOwing(st, 0))
    ensures FirstOwing(st, 0) == NCPU ==> AllConsumed(recs)
  {
    forall cpu: nat ensures Owed(st, cpu).bits == Outstanding(recs, cpu) { CpuFits(recs, st, cpu); }
    CpuFits(recs, st, FirstOwing(st, 0));
  }

  lemma OpenedMeans(recs: seq<Rec>, st: State, k: nat)
    requires Run(recs) == Success(st) && k < |st.cons|
    ensures |Places(recs)| == |st.cons| && (Opened(st, st.cons[k]) <==> !Unopened(recs, Places(recs)[k]))
    ensures ConsumptionIs(recs, Places(recs)[k], st.cons[k])
  {
    ConsFit(recs, st);
    var n := Places(recs)[k];
    assert ConsumptionIs(recs, n, st.cons[k]);
    PairFits(recs, st, recs[n].f0, recs[n].cpu % 64);
    PlacesExact(recs, n);
  }

  /** Unopened consumptions stand at listed places, the first at the first. */
  lemma FirstUnopenedMeans(recs: seq<Rec>, st: State)
    requires Run(recs) == Success(st)
    ensures FirstUnopened(st, 0) < |st.cons| ==>
              exists n: nat :: FirstUnopenedAt(recs, n) && st.cons[FirstUnopened(st, 0)].at == ArrivalOf(recs[..n], recs[n].cpu % 64)
    ensures FirstUnopened(st, 0) == |st.cons| ==> AllOpened(recs)
  {
    var f, ps := FirstUnopened(st, 0), Places(recs);
    ConsFit(recs, st);
    forall j: nat | Unopened(recs, j) ensures f < |st.cons| && ps[f] <= j {
      PlacesExact(recs, j);
      var k :| 0 <= k < |ps| && ps[k] == j;
      OpenedMeans(recs, st, k);
      if f < k { assert ps[f] < ps[k]; }
    }
    if f < |st.cons| {
      OpenedMeans(recs, st, f);
      assert FirstUnopenedAt(recs, ps[f]);
    }
  }

  lemma DeliveredMeans(recs: seq<Rec>, st: State, n: nat)
    requires Run(recs) == Success(st) && n < |recs|
    ensures Delivered(st, recs[n]) <==> !NeverTaken(recs, n)
  {
    PairFits(recs, st, recs[n].cpu % 64, recs[n].f0 % 64);
  }

  lemma FirstUntakenMeans(recs: seq<Rec>, st: State)
    requires Run(recs) == Success(st)
    ensures FirstUntaken(st, recs, 0) < |recs| ==> FirstNeverTaken(recs, FirstUntaken(st, recs, 0))
    ensures FirstUntaken(st, recs, 0) == |recs| ==> AllTaken(recs)
  {
    forall n: nat | n < |recs| ensures Delivered(st, recs[n]) <==> !NeverTaken(recs, n) { DeliveredMeans(recs, st, n); }
  }

  lemma FirstExcessMeans(recs: seq<Rec>, st: State)
    requires Run(recs) == Success(st)
    ensures FirstExcess(st, 0) < NCPU ==> FirstUnasked(recs, FirstExcess(st, 0))
    ensures FirstExcess(st, 0) == NCPU ==> AllAsked(recs)
  {
    forall cpu: nat ensures Explained(st, cpu) <==> Arrivals(recs, cpu) <= Requests(recs, cpu) { CpuFits(recs, st, cpu); }
  }

  lemma SettleMeans(recs: seq<Rec>, st: State)
    requires Run(recs) == Success(st)
    ensures var out := Settle(st, recs);
            if out.Success? then AllConsumed(recs) && AllOpened(recs) && AllTaken(recs) && AllAsked(recs)
            else SettledAs(recs, out.error)
  {
    FirstOwingMeans(recs, st);
    if FirstOwing(st, 0) == NCPU {
      FirstUnopenedMeans(recs, st);
      if FirstUnopened(st, 0) == |st.cons| {
        FirstUntakenMeans(recs, st);
        if FirstUntaken(st, recs, 0) == |recs| { FirstExcessMeans(recs, st); }
      }
    }
  }

  // -------------------------------------------------------------- the population

  /** Every record is allowed where it stands. */
  ghost predicate AllAllowed(recs: seq<Rec>) { forall n :: 0 <= n < |recs| ==> RecordFault(recs[..n], recs[n]).None? }

  /** A population is accepted exactly when every record is allowed where it
      stands and nothing is left unconsumed, unopened, untaken or unasked; else
      it is refused for its first refused record, or for what is left. */
  lemma PopulationMeans(recs: seq<Rec>)
    ensures Population(recs).Success? <==> AllAllowed(recs) && AllConsumed(recs) && AllOpened(recs) && AllTaken(recs) && AllAsked(recs)
    ensures Population(recs).Failure? ==>
              if AllAllowed(recs) then SettledAs(recs, Population(recs).error)
              else exists n: nat :: RefusedAt(recs, n, Population(recs).error)
  {
    RunMeans(recs, |recs|);
    assert recs[..|recs|] == recs;
    if Run(recs).Success? {
      SettleMeans(recs, Run(recs).value);
      SettledNot(recs);
    }
  }

  /** A run refused at the end does not settle. */
  lemma SettledNot(recs: seq<Rec>)
    ensures forall why :: SettledAs(recs, why) ==> !(AllConsumed(recs) && AllOpened(recs) && AllTaken(recs) && AllAsked(recs))
  {
  }

  datatype Tally = Publications | Openings | Merges | Requested | Arrivals | EmptyArrivals | Consumptions

  predicate Tallied(what: Tally, r: Rec) {
    match what
    case Publications => Publishes(r, r.cpu % 64, r.f0 % 64)
    case Openings => Publishes(r, r.cpu % 64, r.f0 % 64) && r.f3 == 0
    case Merges => Publishes(r, r.cpu % 64, r.f0 % 64) && r.f3 != 0
    case Requested => r.kind == Kind.Requested
    case Arrivals => r.kind == Arrived
    case EmptyArrivals => r.kind == Arrived && r.f0 == 0
    case Consumptions => r.kind == Consumed
  }

  /** How many records are tallied. */
  function Number(recs: seq<Rec>, what: Tally): nat {
    if recs == [] then 0 else Number(recs[..|recs| - 1], what) + if Tallied(what, recs[|recs| - 1]) then 1 else 0
  }

  /** The counts of an accepted run are numbers of records. */
  lemma {:induction false} CountsMean(recs: seq<Rec>, st: State)
    requires Run(recs) == Success(st)
    ensures st.c == Counts(Number(recs, Publications), Number(recs, Openings), Number(recs, Merges), Number(recs, Tally.Requested),
                           Number(recs, Tally.Arrivals), Number(recs, EmptyArrivals), Number(recs, Consumptions))
  {
    if recs != [] {
      var before, r := RunMoves(recs, st, 0);
      CountsMean(recs[..|recs| - 1], before);
    }
  }
}
