/** The replay's verdict: the list of impossible events and the list of
    obligations left open, and when each list is empty. */
module KThreadVerdict {
  import opened Machine
  import opened KThread

  // ---------------------------------------------------------- specification

  /** Every listed thread is known. */
  predicate Known(st: State, kids: seq<nat>) { forall i :: 0 <= i < |kids| ==> kids[i] in st.th }

  function Duplicates(st: State, kids: seq<nat>): seq<Fault>
    requires Known(st, kids)
  {
    if kids == [] then []
    else
      var k := |kids| - 1;
      Duplicates(st, kids[..k]) + if |st.th[kids[k]].finals| > 1 then [FinalDuplicate(kids[k])] else []
  }

  function UnknownRoles(st: State, kids: seq<nat>): seq<Fault>
    requires Known(st, kids)
  {
    if kids == [] then []
    else
      var k := |kids| - 1;
      UnknownRoles(st, kids[..k]) + if st.th[kids[k]].role !in KNOWN_ROLES then [UnknownRole(kids[k])] else []
  }

  function GapsOf(t: Thread, kid: nat): seq<Gap> {
    (if t.finals == [] then [FinalMissing(kid)]
     else if t.finals[0] != 0 then [LeftBehind(kid)]
     else if t.phase != Reclaimed then [NotReclaimed(kid)]
     else [])
    + if t.runs == 0 && |t.finals| == 1 && t.finals[0] == 0 then [NeverDispatched(kid)] else []
  }

  function Gaps(st: State, kids: seq<nat>): seq<Gap>
    requires Known(st, kids)
  {
    if kids == [] then []
    else
      var k := |kids| - 1;
      Gaps(st, kids[..k]) + GapsOf(st.th[kids[k]], kids[k])
  }

  function Count(st: State, kids: seq<nat>, role: nat): nat
    requires Known(st, kids)
  {
    if kids == [] then 0
    else
      var k := |kids| - 1;
      Count(st, kids[..k], role) + if st.th[kids[k]].role == role then 1 else 0
  }

  /** The role counts the contract fixes; alternators and sleepers are not here. */
  function PopulationGaps(st: State, kids: seq<nat>, manyCpus: bool): seq<Gap>
    requires Known(st, kids)
  {
    var helpers := if manyCpus then 1 else 0;
    (if Count(st, kids, R_WAKER) != helpers then [WakerPopulation] else [])
    + (if Count(st, kids, R_LOSTWAKE) != 1 then [LostWakePopulation] else [])
    + (if Count(st, kids, R_BLIP) != CYCLES + 1 then [CyclePopulation] else [])
    + (if st.exhaust != Some(Count(st, kids, R_HOLDER)) then [HolderPopulation] else [])
    + (if Count(st, kids, R_PLAINHOLD) != helpers then [PlainHolderPopulation] else [])
  }

  /** What the replay of `recs` reports: impossible events, open obligations. */
  ghost function Verdict(recs: seq<Rec>): (seq<Fault>, seq<Gap>) {
    if !OnlyAt(recs, Pop, 0) then ([PopulationNotFirst], [])
    else if !OnlyAt(recs, Director, 1) then ([DirectorNotDeclared], [])
    else
      var d, st := SetupOf(recs), After(SetupOf(recs), Begin(recs), recs);
      AfterListed(d, Begin(recs), recs);
      (st.bad + Duplicates(st, st.order) + UnknownRoles(st, st.order),
       Gaps(st, st.order) + PopulationGaps(st, st.order, |d.cpus| > 1))
  }

  // ------------------------------------------------------------ creation order

  /** The creation order lists the known threads, each once. */
  ghost predicate Listed(st: State) {
    && (forall kid :: kid in st.th <==> kid in st.order)
    && forall i, j :: 0 <= i < j < |st.order| ==> st.order[i] != st.order[j]
  }

  ghost predicate SameThreads(st: State, st': State) { st'.order == st.order && st'.th.Keys == st.th.Keys }

  lemma SlotThreads(d: Setup, st: State, kid: nat)
    ensures SameThreads(st, SlotFaults(d, st, kid))
  {
  }

  lemma RegisterThreads(st: State, kid: nat, t: Thread)
    ensures var st' := Register(st, kid, t);
            st'.order == st.order + [kid] && st'.th.Keys == st.th.Keys + {kid}
  {
  }

  lemma PlacedThreads(d: Setup, st: State, r: Rec)
    ensures var st' := Placed(d, st, r);
            st'.order == st.order + [r.f0] && st'.th.Keys == st.th.Keys + {r.f0}
  {
    var st1 := Flag(st, r.f2 !in d.cpus, CreateHome);
    var st2 := Flag(st1, r.f4 - r.f3 != STACK_BYTES || r.f3 - Slot(r.f0) * d.stride != d.base, CreateStack);
    SlotThreads(d, st2, r.f0);
    RegisterThreads(SlotFaults(d, st2, r.f0), r.f0, Thread(r.f1, r.f2, Created, [], 0, r.f3, r.f4));
  }

  lemma CreateThreads(d: Setup, st: State, r: Rec)
    ensures var st' := OnCreate(d, st, r);
            if KidOk(r.f0) && r.f0 !in st.th
            then st'.order == st.order + [r.f0] && st'.th.Keys == st.th.Keys + {r.f0}
            else SameThreads(st, st')
  {
    PlacedThreads(d, Flag(st, r.cpu != d.home || r.res != d.kid, CreateNotByDirector), r);
  }

  lemma ListedMore(st: State, st': State, kid: nat)
    requires Listed(st) && kid !in st.th && st'.order == st.order + [kid] && st'.th.Keys == st.th.Keys + {kid}
    ensures Listed(st')
  {
    forall x: nat ensures x in st'.th <==> x in st'.order {
      assert x in st'.th.Keys <==> x in st.th.Keys || x == kid;
    }
  }

  lemma SameListed(st: State, st': State)
    requires Listed(st) && SameThreads(st, st')
    ensures Listed(st')
  {
    forall x: nat ensures x in st'.th <==> x in st'.order { assert x in st'.th.Keys <==> x in st.th.Keys; }
  }

  lemma DispatchThreads(st: State, r: Rec)
    requires r.f0 in st.th
    ensures SameThreads(st, OnDispatch(st, r))
  {
  }

  lemma SwitchThreads(st: State, r: Rec)
    requires r.f0 in st.th
    ensures SameThreads(st, OnSwitch(st, r))
  {
  }

  lemma ReclaimThreads(st: State, r: Rec)
    requires r.f0 in st.th
    ensures SameThreads(st, OnReclaim(st, r))
  {
  }

  lemma LifecycleThreads(st: State, r: Rec)
    requires r.kind in {Dispatch, Switch, Reclaim}
    ensures SameThreads(st, OnLifecycle(st, r))
  {
    if r.f0 in st.th {
      var t := st.th[r.f0];
      var roleField := if r.kind == Dispatch then r.f1 else if r.kind == Switch then r.f3 else r.f4;
      var st1 := Flag(Flag(st, r.cpu != t.home, OffHome), roleField != t.role, RoleChanged);
      if r.kind == Dispatch {
        DispatchThreads(st1, r);
      } else if r.kind == Switch {
        SwitchThreads(st1, r);
      } else {
        ReclaimThreads(st1, r);
      }
    }
  }

  lemma DirectorThreads(d: Setup, st: State, r: Rec)
    ensures SameThreads(st, OnDirectorOnly(d, st, r))
  {
  }

  lemma InThreadThreads(st: State, r: Rec)
    ensures SameThreads(st, OnInThread(st, r))
  {
  }

  lemma ReaderThreads(d: Setup, st: State, r: Rec)
    ensures SameThreads(st, OnProbe(d, st, r)) && SameThreads(st, OnWake(d, st, r)) && SameThreads(st, OnUser(d, st, r))
  {
  }

  lemma OtherKindThreads(d: Setup, st: State, r: Rec)
    requires r.kind != Create
    ensures SameThreads(st, ByKind(d, st, r))
  {
    if r.kind in {Dispatch, Switch, Reclaim} {
      LifecycleThreads(st, r);
    } else if InThread(r) {
      InThreadThreads(st, r);
    } else if r.kind in {Exhaust, Final, User} {
      DirectorThreads(d, st, r);
    } else {
      ReaderThreads(d, st, r);
    }
  }

  lemma KindListed(d: Setup, st: State, r: Rec, st': State)
    requires Listed(st) && st' == ByKind(d, st, r)
    ensures Listed(st')
  {
    if r.kind == Create {
      CreateThreads(d, st, r);
      if KidOk(r.f0) && r.f0 !in st.th { ListedMore(st, st', r.f0); } else { SameListed(st, st'); }
    } else {
      OtherKindThreads(d, st, r);
      SameListed(st, st');
    }
  }

  lemma FrontThreads(d: Setup, st: State, r: Rec)
    ensures SameThreads(st, Residency(d, Ordinal(st, r), r))
  {
  }

  lemma StepListed(d: Setup, st: State, r: Rec)
    requires Listed(st)
    ensures Listed(Step(d, st, r))
  {
    FrontThreads(d, st, r);
    var seen := Residency(d, Ordinal(st, r), r);
    SameListed(st, seen);
    KindListed(d, seen, r, Step(d, st, r));
  }

  lemma {:induction false} AfterListed(d: Setup, st: State, recs: seq<Rec>)
    requires Listed(st)
    ensures Listed(After(d, st, recs)) && Known(After(d, st, recs), After(d, st, recs).order)
  {
    if recs != [] {
      var k := |recs| - 1;
      AfterListed(d, st, recs[..k]);
      StepListed(d, After(d, st, recs[..k]), recs[k]);
    }
  }

  // ------------------------------------------------------------------- method

  /** The checker: the record loop, then the loops over the threads. */
  method Replay(recs: seq<Rec>) returns (bad: seq<Fault>, incomplete: seq<Gap>)
    ensures (bad, incomplete) == Verdict(recs)
  {
    if !OnlyAt(recs, Pop, 0) { return [PopulationNotFirst], []; }
    if !OnlyAt(recs, Director, 1) { return [DirectorNotDeclared], []; }
    var d := SetupOf(recs);
    var st := Begin(recs);
    for i := 0 to |recs|
      invariant st == After(d, Begin(recs), recs[..i])
    {
      assert recs[..i + 1][..i] == recs[..i];
      st := Step(d, st, recs[i]);
    }
    assert recs[..|recs|] == recs;
    AfterListed(d, Begin(recs), recs);
    var twice, roles, gaps := CheckThreads(st);
    return st.bad + twice + roles, gaps + PopulationGaps(st, st.order, |d.cpus| > 1);
  }

  method CheckThreads(st: State) returns (twice: seq<Fault>, roles: seq<Fault>, gaps: seq<Gap>)
    requires Known(st, st.order)
    ensures twice == Duplicates(st, st.order) && roles == UnknownRoles(st, st.order) && gaps == Gaps(st, st.order)
  {
    twice, roles, gaps := [], [], [];
    for k := 0 to |st.order|
      invariant twice == Duplicates(st, st.order[..k]) && roles == UnknownRoles(st, st.order[..k]) && gaps == Gaps(st, st.order[..k])
    {
      var kid := st.order[k];
      assert st.order[..k + 1][..k] == st.order[..k];
      if |st.th[kid].finals| > 1 { twice := twice + [FinalDuplicate(kid)]; }
      if st.th[kid].role !in KNOWN_ROLES { roles := roles + [UnknownRole(kid)]; }
      gaps := gaps + GapsOf(st.th[kid], kid);
    }
    assert st.order[..|st.order|] == st.order;
  }

  // ------------------------------------------------------------------ meaning

  /** The created threads with this role. */
  ghost function WithRole(st: State, role: nat): set<nat> { set kid | kid in st.th && st.th[kid].role == role }

  /** One waker and one plain holder when there is another CPU, one lost-wake
      probe, one more churned thread than cycles, and the holders declared. */
  ghost predicate Populated(st: State, cpus: set<nat>) {
    && |WithRole(st, R_WAKER)| == (if |cpus| > 1 then 1 else 0)
    && |WithRole(st, R_LOSTWAKE)| == 1
    && |WithRole(st, R_BLIP)| == CYCLES + 1
    && st.exhaust == Some(|WithRole(st, R_HOLDER)|)
    && |WithRole(st, R_PLAINHOLD)| == (if |cpus| > 1 then 1 else 0)
  }

  ghost function Among(st: State, kids: seq<nat>, role: nat): set<nat>
    requires Known(st, kids)
  {
    set kid | kid in kids && st.th[kid].role == role
  }

  lemma AmongLast(st: State, kids: seq<nat>, role: nat)
    requires Known(st, kids) && kids != []
    ensures var front, last := kids[..|kids| - 1], kids[|kids| - 1];
            Among(st, kids, role) == Among(st, front, role) + if st.th[last].role == role then {last} else {}
  {
    var front, last := kids[..|kids| - 1], kids[|kids| - 1];
    assert kids == front + [last];
  }

  lemma {:induction false} CountIs(st: State, kids: seq<nat>, role: nat)
    requires Known(st, kids) && forall i, j :: 0 <= i < j < |kids| ==> kids[i] != kids[j]
    ensures Count(st, kids, role) == |Among(st, kids, role)|
    decreases |kids|
  {
    if kids != [] {
      var k := |kids| - 1;
      CountIs(st, kids[..k], role);
      AmongLast(st, kids, role);
      assert kids[k] !in Among(st, kids[..k], role);
    }
  }

  lemma CountExact(st: State, role: nat)
    requires Listed(st) && Known(st, st.order)
    ensures Count(st, st.order, role) == |WithRole(st, role)|
  {
    CountIs(st, st.order, role);
    assert Among(st, st.order, role) == WithRole(st, role);
  }

  lemma {:induction false} ListsEmpty(st: State, kids: seq<nat>)
    requires Known(st, kids)
    ensures Duplicates(st, kids) == [] <==> forall kid :: kid in kids ==> |st.th[kid].finals| <= 1
    ensures UnknownRoles(st, kids) == [] <==> forall kid :: kid in kids ==> st.th[kid].role in KNOWN_ROLES
    ensures Gaps(st, kids) == [] <==> forall kid :: kid in kids ==> GapsOf(st.th[kid], kid) == []
    decreases |kids|
  {
    if kids != [] {
      var k := |kids| - 1;
      ListsEmpty(st, kids[..k]);
      assert kids == kids[..k] + [kids[k]];
    }
  }

  lemma PopulationMeans(st: State, cpus: set<nat>)
    requires Listed(st) && Known(st, st.order)
    ensures PopulationGaps(st, st.order, |cpus| > 1) == [] <==> Populated(st, cpus)
  {
    CountExact(st, R_WAKER);
    CountExact(st, R_LOSTWAKE);
    CountExact(st, R_BLIP);
    CountExact(st, R_HOLDER);
    CountExact(st, R_PLAINHOLD);
  }

  lemma ThreadsMean(st: State)
    requires Listed(st) && Known(st, st.order)
    ensures Duplicates(st, st.order) == [] <==> FinalsUnique(st)
    ensures UnknownRoles(st, st.order) == [] <==> RolesKnown(st)
    ensures Gaps(st, st.order) == [] <==> Complete(st)
  {
    ListsEmpty(st, st.order);
  }

  /** Nothing is impossible exactly when the records are `Possible`; a declared
      run leaves nothing open exactly when every thread's life is complete and
      every role has the number of threads the contract fixes. */
  lemma VerdictMeans(recs: seq<Rec>)
    ensures Verdict(recs).0 == [] <==> Possible(recs)
    ensures Declared(recs) ==>
              var st := After(SetupOf(recs), Begin(recs), recs);
              Verdict(recs).1 == [] <==> Complete(st) && Populated(st, SetupOf(recs).cpus)
  {
    if Declared(recs) {
      AfterListed(SetupOf(recs), Begin(recs), recs);
      ThreadsMean(After(SetupOf(recs), Begin(recs), recs));
      PopulationMeans(After(SetupOf(recs), Begin(recs), recs), SetupOf(recs).cpus);
    }
  }
}
