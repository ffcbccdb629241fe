/** On records without a fault the replay's state is what the scans find. */
module KThreadScan {
  import opened Machine
  import opened Bits
  import opened KThread
  import opened KThreadMoves
  import opened KThreadLegal

  /** The setup and the empty state the two declarations give. */
  ghost predicate SetupIs(pop: Rec, dir: Rec, d: Setup) {
    && d.kid == dir.f0 && d.home == dir.f1 && d.stride == Stride(dir)
    && d.base == dir.f2 - (dir.f0 % 0x1_0000) * Stride(dir)
    && forall c: nat :: c in d.cpus <==> c < 8 && Bit(pop.f0, c)
  }

  ghost function Empty(dir: Rec): State {
    State(map[], [], map[dir.f0 % 0x1_0000 := dir.f0], map[], map[], {}, None, None, [])
  }

  // ------------------------------------------------- ordinals, marks, the waker

  ghost predicate SameMarks(st: State, st': State) { st'.curOrd == st.curOrd && st'.recorded == st.recorded }

  ghost predicate SameWaker(st: State, st': State) {
    SameMarks(st, st') && st'.waker == st.waker && st'.exhaust == st.exhaust
  }

  lemma LifecycleMarks(st: State, r: Rec)
    requires r.kind in {Dispatch, Switch, Reclaim} && OnLifecycle(st, r).bad == []
    ensures SameWaker(st, OnLifecycle(st, r))
  {
    LifecycleClean(st, r);
    if r.kind == Dispatch {
      DispatchClean(st, r);
    } else if r.kind == Switch {
      SwitchClean(st, r);
    } else {
      ReclaimClean(st, r);
    }
  }

  lemma DirectorMarks(d: Setup, st: State, r: Rec)
    ensures SameMarks(st, OnDirectorOnly(d, st, r)) && OnDirectorOnly(d, st, r).waker == st.waker
    ensures OnDirectorOnly(d, st, r).exhaust == if r.kind == Exhaust then Some(r.f0) else st.exhaust
  {
  }

  lemma PlacedMarks(d: Setup, st: State, r: Rec)
    requires Placed(d, st, r).bad == []
    ensures SameMarks(st, Placed(d, st, r)) && Placed(d, st, r).exhaust == st.exhaust
    ensures Placed(d, st, r).waker == if r.f1 == 4 then Some(r.f0) else st.waker
  {
    var st2 := Flag(st, r.f2 !in d.cpus, CreateHome);
    SlotClean(d, Flag(st2, r.f4 - r.f3 != STACK_BYTES || r.f3 - Slot(r.f0) * d.stride != d.base, CreateStack), r.f0);
  }

  lemma CreateMarks(d: Setup, st: State, r: Rec)
    requires OnCreate(d, st, r).bad == []
    ensures SameMarks(st, OnCreate(d, st, r))
    ensures OnCreate(d, st, r).waker == (if r.f1 == 4 then Some(r.f0) else st.waker)
    ensures OnCreate(d, st, r).exhaust == st.exhaust
  {
    var st1 := Flag(st, r.cpu != d.home || r.res != d.kid, CreateNotByDirector);
    if !KidOk(r.f0) {
      FlagClean(st1, true, CreateIdentity);
    } else if r.f0 in st1.th {
      FlagClean(st1, true, CreateDuplicate);
    } else {
      PlacedMarks(d, st1, r);
    }
  }

  lemma KindMarks(d: Setup, st: State, r: Rec)
    requires ByKind(d, st, r).bad == []
    ensures SameMarks(st, ByKind(d, st, r))
    ensures ByKind(d, st, r).waker == (if r.kind == Create && r.f1 == 4 then Some(r.f0) else st.waker)
    ensures ByKind(d, st, r).exhaust == if r.kind == Exhaust then Some(r.f0) else st.exhaust
  {
    if r.kind == Create {
      CreateMarks(d, st, r);
    } else if r.kind in {Dispatch, Switch, Reclaim} {
      LifecycleMarks(st, r);
    } else if r.kind in {Exhaust, Final, User} {
      DirectorMarks(d, st, r);
    } else {
      OtherClean(d, st, r);
    }
  }

  /** What a step that flags nothing does to ordinals, marks and the waker. */
  ghost predicate MarksMove(st: State, r: Rec, st': State) {
    && (r.cpu in st.curOrd ==> r.ord >= st.curOrd[r.cpu])
    && st'.curOrd == st.curOrd[r.cpu := r.ord]
    && st'.recorded == (if r.cpu in st.curOrd && r.ord == st.curOrd[r.cpu] then st.recorded
                        else if r.kind == Dispatch then st.recorded + {r.cpu} else st.recorded - {r.cpu})
    && st'.waker == (if r.kind == Create && r.f1 == 4 then Some(r.f0) else st.waker)
    && st'.exhaust == if r.kind == Exhaust then Some(r.f0) else st.exhaust
  }

  lemma OrdinalMarks(st: State, r: Rec)
    requires Ordinal(st, r).bad == []
    ensures var st' := Ordinal(st, r);
            && (r.cpu in st.curOrd ==> r.ord >= st.curOrd[r.cpu]) && st'.curOrd == st.curOrd[r.cpu := r.ord]
            && st'.recorded == (if r.cpu in st.curOrd && r.ord == st.curOrd[r.cpu] then st.recorded
                                else if r.kind == Dispatch then st.recorded + {r.cpu} else st.recorded - {r.cpu})
            && st'.waker == st.waker && st'.exhaust == st.exhaust
  {
    if r.cpu in st.curOrd && r.ord == st.curOrd[r.cpu] { assert st.curOrd[r.cpu := r.ord] == st.curOrd; }
  }

  lemma StepMarks(d: Setup, st: State, r: Rec)
    requires Step(d, st, r).bad == []
    ensures MarksMove(st, r, Step(d, st, r))
  {
    var st1 := Ordinal(st, r);
    var st2 := Residency(d, st1, r);
    KindClean(d, st2, r);
    ResidencyClean(d, st1, r);
    OrdinalMarks(st, r);
    KindMarks(d, st2, r);
  }

  // ----------------------------------------------------------- state and scans

  ghost predicate FitsThread(recs: seq<Rec>, st: State, kid: nat) {
    && (kid in st.th <==> CreateOf(recs, kid).Some?)
    && (kid in st.th ==> && st.th[kid].role == CreateOf(recs, kid).value.f1 && st.th[kid].home == CreateOf(recs, kid).value.f2
                         && PhaseOf(recs, kid) == Some(st.th[kid].phase))
    && (kid !in st.th ==> PhaseOf(recs, kid) == None)
  }

  ghost predicate FitsCpu(recs: seq<Rec>, st: State, cpu: nat) {
    && Owner(st, cpu) == OwnerOf(recs, cpu)
    && OrdOf(recs, cpu) == (if cpu in st.curOrd then Some(st.curOrd[cpu]) else None)
    && (cpu in st.recorded <==> OpenedByDispatch(recs, cpu))
  }

  ghost predicate FitsSlot(dir: Rec, recs: seq<Rec>, st: State, slot: nat) {
    SlotUser(recs, dir.f0, slot) == if slot in st.holder then Some(st.holder[slot]) else None
  }

  ghost predicate CleanRun(d: Setup, dir: Rec, recs: seq<Rec>, st: State) {
    After(d, Empty(dir), recs) == st && st.bad == []
  }

  lemma LastStep(d: Setup, dir: Rec, recs: seq<Rec>, st: State) returns (before: State, r: Rec)
    requires recs != [] && CleanRun(d, dir, recs, st)
    ensures CleanRun(d, dir, recs[..|recs| - 1], before) && r == recs[|recs| - 1]
    ensures Moves(d, before, r, st) && MarksMove(before, r, st)
  {
    before, r := After(d, Empty(dir), recs[..|recs| - 1]), recs[|recs| - 1];
    StepClean(d, before, r);
    StepMarks(d, before, r);
  }

  lemma ThreadStep(d: Setup, recs: seq<Rec>, before: State, st: State, kid: nat)
    requires recs != [] && FitsThread(recs[..|recs| - 1], before, kid) && Moves(d, before, recs[|recs| - 1], st)
    ensures FitsThread(recs, st, kid)
  {
  }

  lemma {:induction false} ThreadFits(d: Setup, dir: Rec, recs: seq<Rec>, st: State, kid: nat)
    requires CleanRun(d, dir, recs, st)
    ensures FitsThread(recs, st, kid)
    decreases |recs|
  {
    if recs != [] {
      var before, r := LastStep(d, dir, recs, st);
      ThreadFits(d, dir, recs[..|recs| - 1], before, kid);
      ThreadStep(d, recs, before, st, kid);
    }
  }

  lemma CpuStep(d: Setup, recs: seq<Rec>, before: State, st: State, cpu: nat)
    requires recs != [] && FitsCpu(recs[..|recs| - 1], before, cpu)
    requires Moves(d, before, recs[|recs| - 1], st) && MarksMove(before, recs[|recs| - 1], st)
    ensures FitsCpu(recs, st, cpu)
  {
  }

  lemma {:induction false} CpuFits(d: Setup, dir: Rec, recs: seq<Rec>, st: State, cpu: nat)
    requires CleanRun(d, dir, recs, st)
    ensures FitsCpu(recs, st, cpu)
    decreases |recs|
  {
    if recs != [] {
      var before, r := LastStep(d, dir, recs, st);
      CpuFits(d, dir, recs[..|recs| - 1], before, cpu);
      CpuStep(d, recs, before, st, cpu);
    }
  }

  lemma SlotStep(d: Setup, dir: Rec, recs: seq<Rec>, before: State, st: State, slot: nat)
    requires recs != [] && FitsSlot(dir, recs[..|recs| - 1], before, slot) && Moves(d, before, recs[|recs| - 1], st)
    ensures FitsSlot(dir, recs, st, slot)
  {
  }

  lemma {:induction false} SlotFits(d: Setup, dir: Rec, recs: seq<Rec>, st: State, slot: nat)
    requires CleanRun(d, dir, recs, st)
    ensures FitsSlot(dir, recs, st, slot)
    decreases |recs|
  {
    if recs != [] {
      var before, r := LastStep(d, dir, recs, st);
      SlotFits(d, dir, recs[..|recs| - 1], before, slot);
      SlotStep(d, dir, recs, before, st, slot);
    }
  }

  lemma {:induction false} WakerFits(d: Setup, dir: Rec, recs: seq<Rec>, st: State)
    requires CleanRun(d, dir, recs, st)
    ensures st.waker == WakerOf(recs)
    decreases |recs|
  {
    if recs != [] {
      var before, r := LastStep(d, dir, recs, st);
      WakerFits(d, dir, recs[..|recs| - 1], before);
    }
  }
}
