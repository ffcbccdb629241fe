/** The lock witness's ownership checker: acquire and release records replayed
    in record order, and the two checks that use the recorded intervals. */
module LockOwnership {
  import opened Machine

  datatype Kind = Acquire | Release | Contended | Other

  datatype Event = Event(seqNo: nat, hart: nat, kind: Kind, round: int, id: nat)

  /** One acquisition: who, which round, when acquired and when released. */
  datatype Acquisition = Acquisition(cpu: nat, round: int, acquired: nat, released: Option<nat>)

  datatype Fault =
    | DuplicateId(at: nat, id: nat)
    | OverlappingOwners(at: nat, id: nat, owner: nat)
    | UnscheduledRound(at: nat, round: int)
    | ReleaseWithoutOwner(at: nat, id: nat)
    | MismatchedRelease(at: nat, id: nat, owner: nat)
    | NeverReleased(owner: nat)
    | ContendedWhileOwning(at: nat, owner: nat)

  datatype State = State(acqs: map<nat, Acquisition>, owner: Option<nat>) {
    /** The owner is recorded. */
    predicate Valid() { owner.Some? ==> owner.value in acqs }
  }

  const START: State := State(map[], None)

  predicate InRange(round: int, rounds: int) { 1 <= round <= rounds }

  predicate Ends(e: Event, owner: nat, a: Acquisition) { e.id == owner && e.hart == a.cpu && e.round == a.round }

  // ------------------------------------------------------------- specification

  function Next(st: State, e: Event): (st': State)
    requires st.Valid()
    ensures st'.Valid()
  {
    if e.kind == Acquire then
      if e.id in st.acqs then st
      else State(st.acqs[e.id := Acquisition(e.hart, e.round, e.seqNo, None)], Some(e.id))
    else if e.kind == Release && st.owner.Some? then
      State(st.acqs[st.owner.value := st.acqs[st.owner.value].(released := Some(e.seqNo))], None)
    else st
  }

  function FaultsOf(st: State, e: Event, rounds: int): seq<Fault>
    requires st.Valid()
  {
    if e.kind == Acquire then
      if e.id in st.acqs then [DuplicateId(e.seqNo, e.id)]
      else (if st.owner.Some? then [OverlappingOwners(e.seqNo, e.id, st.owner.value)] else [])
           + (if InRange(e.round, rounds) then [] else [UnscheduledRound(e.seqNo, e.round)])
    else if e.kind == Release then
      if st.owner.None? then [ReleaseWithoutOwner(e.seqNo, e.id)]
      else if Ends(e, st.owner.value, st.acqs[st.owner.value]) then []
      else [MismatchedRelease(e.seqNo, e.id, st.owner.value)]
    else []
  }

  function Final(ev: seq<Event>, st: State): (st': State)
    requires st.Valid()
    ensures st'.Valid()
  {
    if ev == [] then st else Final(ev[1..], Next(st, ev[0]))
  }

  function Faults(ev: seq<Event>, st: State, rounds: int): seq<Fault>
    requires st.Valid()
  {
    if ev == [] then (if st.owner.Some? then [NeverReleased(st.owner.value)] else [])
    else FaultsOf(st, ev[0], rounds) + Faults(ev[1..], Next(st, ev[0]), rounds)
  }

  // ------------------------------------------------------------------ methods

  /** One record: the new dictionary and owner, and what it reports. */
  method Replay(st: State, e: Event, rounds: int) returns (st': State, faults: seq<Fault>)
    requires st.Valid()
    ensures st' == Next(st, e) && faults == FaultsOf(st, e, rounds)
  {
    st', faults := st, [];
    if e.kind == Acquire {
      if e.id in st.acqs { return st, [DuplicateId(e.seqNo, e.id)]; }
      if st.owner.Some? { faults := faults + [OverlappingOwners(e.seqNo, e.id, st.owner.value)]; }
      if !InRange(e.round, rounds) { faults := faults + [UnscheduledRound(e.seqNo, e.round)]; }
      st' := State(st.acqs[e.id := Acquisition(e.hart, e.round, e.seqNo, None)], Some(e.id));
    } else if e.kind == Release {
      if st.owner.None? { return st, [ReleaseWithoutOwner(e.seqNo, e.id)]; }
      var owner := st.owner.value;
      if !Ends(e, owner, st.acqs[owner]) { faults := [MismatchedRelease(e.seqNo, e.id, owner)]; }
      st' := State(st.acqs[owner := st.acqs[owner].(released := Some(e.seqNo))], None);
    }
  }

  /** The whole pass. */
  method Ownership(ev: seq<Event>, rounds: int) returns (acqs: map<nat, Acquisition>, faults: seq<Fault>)
    ensures acqs == Final(ev, START).acqs && faults == Faults(ev, START, rounds)
  {
    var st := START;
    faults := [];
    for i := 0 to |ev|
      invariant st.Valid() && Final(ev[i..], st) == Final(ev, START)
      invariant faults + Faults(ev[i..], st, rounds) == Faults(ev, START, rounds)
    {
      assert ev[i..][1..] == ev[i + 1..];
      var found;
      ghost var before := st;
      st, found := Replay(st, ev[i], rounds);
      Associate(faults, found, Faults(ev[i + 1..], st, rounds));
      faults := faults + found;
    }
    if st.owner.Some? { faults := faults + [NeverReleased(st.owner.value)]; }
    acqs := st.acqs;
  }

  lemma Associate(a: seq<Fault>, b: seq<Fault>, c: seq<Fault>)
    ensures (a + b) + c == a + (b + c)
  {
  }

  /** The CPU that made acquisition `id` wrote `e` while still holding the lock. */
  predicate Inside(acqs: map<nat, Acquisition>, e: Event, id: nat) {
    && id in acqs && acqs[id].released.Some? && acqs[id].cpu == e.hart
    && acqs[id].acquired < e.seqNo < acqs[id].released.value
  }

  /** The acquisition ids in the order the dictionary first met them. */
  function InsertionOrder(ev: seq<Event>): seq<nat> {
    if ev == [] then []
    else
      var ids, e := InsertionOrder(ev[..|ev| - 1]), ev[|ev| - 1];
      if e.kind == Acquire && e.id !in ids then ids + [e.id] else ids
  }

  /** The acquisitions, among the first listed, that `c` falls inside. */
  function OwnReports(acqs: map<nat, Acquisition>, ids: seq<nat>, c: Event): seq<Fault> {
    if ids == [] then []
    else
      var k := |ids| - 1;
      OwnReports(acqs, ids[..k], c) + if Inside(acqs, c, ids[k]) then [ContendedWhileOwning(c.seqNo, ids[k])] else []
  }

  /** What one contended record is reported for. */
  function ContentionReports(acqs: map<nat, Acquisition>, ids: seq<nat>, c: Event, rounds: int): seq<Fault> {
    (if InRange(c.round, rounds) then [] else [UnscheduledRound(c.seqNo, c.round)]) + OwnReports(acqs, ids, c)
  }

  function AllReports(ev: seq<Event>, acqs: map<nat, Acquisition>, ids: seq<nat>, rounds: int): seq<Fault> {
    if ev == [] then []
    else
      var k := |ev| - 1;
      AllReports(ev[..k], acqs, ids, rounds) + if ev[k].kind == Contended then ContentionReports(acqs, ids, ev[k], rounds) else []
  }

  /** The reports of every contended record, the dictionary walked in the order
      `ids`. */
  method ContentionOutsideOwn(ev: seq<Event>, acqs: map<nat, Acquisition>, ids: seq<nat>, rounds: int)
    returns (faults: seq<Fault>)
    requires forall id :: id in ids ==> id in acqs
    ensures faults == AllReports(ev, acqs, ids, rounds)
  {
    faults := [];
    for i := 0 to |ev|
      invariant faults == AllReports(ev[..i], acqs, ids, rounds)
    {
      assert ev[..i + 1][..i] == ev[..i];
      if ev[i].kind == Contended {
        var found := OwnContentions(acqs, ids, ev[i]);
        faults := faults + ((if InRange(ev[i].round, rounds) then [] else [UnscheduledRound(ev[i].seqNo, ev[i].round)]) + found);
      }
    }
    assert ev[..|ev|] == ev;
  }

  method OwnContentions(acqs: map<nat, Acquisition>, ids: seq<nat>, c: Event) returns (faults: seq<Fault>)
    requires forall id :: id in ids ==> id in acqs
    ensures faults == OwnReports(acqs, ids, c)
  {
    faults := [];
    for k := 0 to |ids|
      invariant faults == OwnReports(acqs, ids[..k], c)
    {
      assert ids[..k + 1][..k] == ids[..k];
      assert ids[k] in ids;
      var a := acqs[ids[k]];
      if a.cpu == c.hart && a.released.Some? && a.acquired < c.seqNo < a.released.value {
        faults := faults + [ContendedWhileOwning(c.seqNo, ids[k])];
      }
    }
    assert ids[..|ids|] == ids;
  }
}
