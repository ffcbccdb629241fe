/** The IPI population pass: one walk over the records that keeps the mailbox
    groups opened and taken, the bits each CPU still owes, and the counts. */
module IpiPopulation {
  import opened Machine
  import opened Bits

  const NCPU: nat := 64
  const PUB_WAKE: nat := 0
  const PUB_KICK: nat := 2

  datatype Kind = Published | Requested | ParkReleased | Arrived | Consumed | Other

  datatype Rec = Rec(seqNo: nat, cpu: nat, kind: Kind, f0: nat, f1: nat, f2: nat, f3: nat, f4: nat)

  type Pair = (nat, nat)

  datatype Refusal =
    | ConsumptionUnbound(at: nat)
    | GroupInconsistent(at: nat)
    | FirmwareRefused(at: nat)
    | DuplicateAttribution(at: nat)
    | UnexplainedArrival(at: nat)
    | Undelivered(at: nat)
    | ArrivalsExceedRequests(cpu: nat)

  datatype Counts = Counts(published: nat, opening: nat, merged: nat, requests: nat, arrivals: nat, empty: nat, consumed: nat)

  /** One consumption: its pair, its ordinal, and the arrival it belongs to. */
  datatype Consumption = Consumption(pair: Pair, ordinal: nat, at: nat)

  /** What a CPU owes: the bits not consumed yet, and the arrival they came with. */
  datatype Debt = Debt(bits: nat, at: nat)

  datatype State = State(groups: map<Pair, nat>, took: map<Pair, nat>, owed: map<nat, Debt>,
                         requests: map<nat, nat>, taken: map<nat, nat>, cons: seq<Consumption>, c: Counts)

  const START: State := State(map[], map[], map[], map[], map[], [], Counts(0, 0, 0, 0, 0, 0, 0))

  function Get<K>(m: map<K, nat>, k: K): nat { if k in m then m[k] else 0 }

  function Owed(st: State, cpu: nat): Debt { if cpu in st.owed then st.owed[cpu] else Debt(0, 0) }

  function CpuOf(r: Rec): nat { r.cpu % 64 }

  /** A publication the mailbox groups count. */
  predicate Counted(r: Rec) { r.kind == Published && (r.f2 == PUB_WAKE || r.f2 == PUB_KICK) }

  function SentPair(r: Rec): Pair { (CpuOf(r), r.f0 % 64) }

  function TakenPair(r: Rec): Pair { (r.f0, CpuOf(r)) }

  /** `bits & ((1 << k) | ((1 << k) - 1)) == 1 << k`: bit `k` is set and none
      below it. */
  predicate Lowest(bits: nat, k: nat)
    decreases k
  {
    if k == 0 then bits % 2 == 1 else bits % 2 == 0 && Lowest(bits / 2, k - 1)
  }

  // ------------------------------------------------------------ specification

  function Publish(st: State, r: Rec): Result<State, Refusal> {
    var key := SentPair(r);
    var g := Get(st.groups, key);
    if r.f3 == 0 then
      if r.f4 != g + 1 then Failure(GroupInconsistent(r.seqNo))
      else Success(st.(groups := st.groups[key := r.f4], c := st.c.(published := st.c.published + 1, opening := st.c.opening + 1)))
    else if r.f3 != 1 || r.f4 == 0 || r.f4 != g then Failure(GroupInconsistent(r.seqNo))
    else Success(st.(c := st.c.(published := st.c.published + 1, merged := st.c.merged + 1)))
  }

  function Consume(st: State, r: Rec): Result<State, Refusal> {
    var cpu, src := CpuOf(r), r.f0;
    var debt, had := Owed(st, cpu), Get(st.took, TakenPair(r));
    if debt.bits == 0 || src >= NCPU || !Lowest(debt.bits, src) then Failure(ConsumptionUnbound(r.seqNo))
    else if r.f1 <= had then Failure(DuplicateAttribution(r.seqNo))
    else if r.f1 != had + 1 then Failure(ConsumptionUnbound(r.seqNo))
    else Success(st.(owed := st.owed[cpu := Debt(ClearBit(debt.bits, src), debt.at)],
                     took := st.took[TakenPair(r) := r.f1],
                     cons := st.cons + [Consumption(TakenPair(r), r.f1, debt.at)],
                     c := st.c.(consumed := st.c.consumed + 1)))
  }

  function Arrive(st: State, r: Rec): State {
    var cpu := CpuOf(r);
    st.(taken := st.taken[cpu := Get(st.taken, cpu) + 1],
        owed := st.owed[cpu := Debt(r.f0, r.seqNo)],
        c := st.c.(arrivals := st.c.arrivals + 1, empty := if r.f0 == 0 then st.c.empty + 1 else st.c.empty))
  }

  function Step(st: State, r: Rec): Result<State, Refusal> {
    var cpu := CpuOf(r);
    if Owed(st, cpu).bits != 0 && r.kind != Consumed then Failure(ConsumptionUnbound(Owed(st, cpu).at))
    else if Counted(r) then Publish(st, r)
    else if r.kind == Requested then
      if r.f3 != 0 then Failure(FirmwareRefused(r.seqNo))
      else Success(st.(requests := st.requests[r.f0 % 64 := Get(st.requests, r.f0 % 64) + 1],
                       c := st.c.(requests := st.c.requests + 1)))
    else if r.kind == ParkReleased then Success(st.(taken := st.taken[cpu := Get(st.taken, cpu) + 1]))
    else if r.kind == Arrived then Success(Arrive(st, r))
    else if r.kind == Consumed then Consume(st, r)
    else Success(st)
  }

  function Run(recs: seq<Rec>): Result<State, Refusal> {
    if recs == [] then Success(START)
    else
      var st :- Run(recs[..|recs| - 1]);
      Step(st, recs[|recs| - 1])
  }

  /** The first CPU from `cpu` on that still owes bits. */
  function FirstOwing(st: State, cpu: nat): (k: nat)
    requires cpu <= NCPU
    ensures cpu <= k <= NCPU && (k < NCPU ==> Owed(st, k).bits != 0) && forall j :: cpu <= j < k ==> Owed(st, j).bits == 0
    decreases |st.owed|, NCPU - cpu
  {
    if cpu == NCPU || Owed(st, cpu).bits != 0 then cpu else FirstOwing(st, cpu + 1)
  }

  predicate Opened(st: State, e: Consumption) { e.ordinal <= Get(st.groups, e.pair) }

  /** The first consumption whose group was never opened. */
  function FirstUnopened(st: State, i: nat): (k: nat)
    requires i <= |st.cons|
    ensures i <= k <= |st.cons| && (k < |st.cons| ==> !Opened(st, st.cons[k])) && forall j :: i <= j < k ==> Opened(st, st.cons[j])
    decreases |st.cons| - i
  {
    if i == |st.cons| || !Opened(st, st.cons[i]) then i else FirstUnopened(st, i + 1)
  }

  predicate Delivered(st: State, r: Rec) { Counted(r) && r.f3 == 0 ==> r.f4 <= Get(st.took, SentPair(r)) }

  /** The first fresh publication whose group was never taken. */
  function FirstUntaken(st: State, recs: seq<Rec>, i: nat): (k: nat)
    requires i <= |recs|
    ensures i <= k <= |recs| && (k < |recs| ==> !Delivered(st, recs[k])) && forall j :: i <= j < k ==> Delivered(st, recs[j])
    decreases |recs| - i
  {
    if i == |recs| || !Delivered(st, recs[i]) then i else FirstUntaken(st, recs, i + 1)
  }

  predicate Explained(st: State, cpu: nat) { Get(st.taken, cpu) <= Get(st.requests, cpu) }

  /** The first CPU that took more than was requested of it. */
  function FirstExcess(st: State, cpu: nat): (k: nat)
    requires cpu <= NCPU
    ensures cpu <= k <= NCPU && (k < NCPU ==> !Explained(st, k)) && forall j :: cpu <= j < k ==> Explained(st, j)
    decreases |st.taken|, NCPU - cpu
  {
    if cpu == NCPU || !Explained(st, cpu) then cpu else FirstExcess(st, cpu + 1)
  }

  function Settle(st: State, recs: seq<Rec>): Result<Counts, Refusal> {
    if FirstOwing(st, 0) < NCPU then Failure(ConsumptionUnbound(Owed(st, FirstOwing(st, 0)).at))
    else if FirstUnopened(st, 0) < |st.cons| then Failure(UnexplainedArrival(st.cons[FirstUnopened(st, 0)].at))
    else if FirstUntaken(st, recs, 0) < |recs| then Failure(Undelivered(recs[FirstUntaken(st, recs, 0)].seqNo))
    else if FirstExcess(st, 0) < NCPU then Failure(ArrivalsExceedRequests(FirstExcess(st, 0)))
    else Success(st.c)
  }

  function Population(recs: seq<Rec>): Result<Counts, Refusal> {
    var st :- Run(recs);
    Settle(st, recs)
  }

  // ------------------------------------------------------------------ methods

  lemma RunStep(recs: seq<Rec>, i: nat, st: State)
    requires i < |recs| && Run(recs[..i]) == Success(st)
    ensures Run(recs[..i + 1]) == Step(st, recs[i])
  {
    assert recs[..i + 1][..i] == recs[..i];
  }

  lemma {:induction false} FailureStays(recs: seq<Rec>, i: nat)
    requires i <= |recs| && Run(recs[..i]).Failure?
    ensures Run(recs) == Run(recs[..i])
    decreases |recs|
  {
    if i < |recs| {
      assert recs[..|recs| - 1][..i] == recs[..i];
      FailureStays(recs[..|recs| - 1], i);
    } else {
      assert recs[..i] == recs;
    }
  }

  /** The walk over the records. */
  method Walk(recs: seq<Rec>) returns (r: Result<State, Refusal>)
    ensures r == Run(recs)
  {
    var st := START;
    for i := 0 to |recs|
      invariant Run(recs[..i]) == Success(st)
    {
      RunStep(recs, i, st);
      var next := Step(st, recs[i]);
      if next.Failure? {
        FailureStays(recs, i + 1);
        return Failure(next.error);
      }
      st := next.value;
    }
    assert recs[..|recs|] == recs;
    return Success(st);
  }

  /** The four closing loops. */
  method Close(st: State, recs: seq<Rec>) returns (r: Result<Counts, Refusal>)
    ensures r == Settle(st, recs)
  {
    for cpu := 0 to NCPU
      invariant FirstOwing(st, 0) == FirstOwing(st, cpu)
    {
      if Owed(st, cpu).bits != 0 { return Failure(ConsumptionUnbound(Owed(st, cpu).at)); }
    }
    for i := 0 to |st.cons|
      invariant FirstUnopened(st, 0) == FirstUnopened(st, i)
    {
      if st.cons[i].ordinal > Get(st.groups, st.cons[i].pair) { return Failure(UnexplainedArrival(st.cons[i].at)); }
    }
    for i := 0 to |recs|
      invariant FirstUntaken(st, recs, 0) == FirstUntaken(st, recs, i)
    {
      if !Delivered(st, recs[i]) { return Failure(Undelivered(recs[i].seqNo)); }
    }
    for cpu := 0 to NCPU
      invariant FirstExcess(st, 0) == FirstExcess(st, cpu)
    {
      if Get(st.taken, cpu) > Get(st.requests, cpu) { return Failure(ArrivalsExceedRequests(cpu)); }
    }
    return Success(st.c);
  }

  /** The whole pass. */
  method CheckPopulation(recs: seq<Rec>) returns (r: Result<Counts, Refusal>)
    ensures r == Population(recs)
  {
    var st := Walk(recs);
    if st.Failure? { return Failure(st.error); }
    r := Close(st.value, recs);
  }
}
