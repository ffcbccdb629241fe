/** A step that flags nothing is one of six simple moves. */
module KThreadMoves {
  import opened Machine
  import opened KThread

  /** The state apart from ordinals and faults is unchanged. */
  ghost predicate SameThreads(st: State, st': State) {
    st'.th == st.th && st'.holder == st.holder && st'.owner == st.owner
  }

  ghost predicate CreateMove(d: Setup, st: State, r: Rec, st': State) {
    && r.cpu == d.home && r.res == d.kid && KidOk(r.f0) && r.f0 !in st.th && r.f2 in d.cpus
    && r.f4 - r.f3 == STACK_BYTES && r.f3 - Slot(r.f0) * d.stride == d.base
    && (Slot(r.f0) in st.holder ==>
          var prev := st.holder[Slot(r.f0)];
          prev != d.kid && (prev in st.th ==> st.th[prev].phase == Reclaimed) && Gen(prev) < Gen(r.f0))
    && st'.th == st.th[r.f0 := Thread(r.f1, r.f2, Created, [], 0, r.f3, r.f4)]
    && st'.holder == st.holder[Slot(r.f0) := r.f0] && st'.owner == st.owner
  }

  ghost predicate DispatchMove(st: State, r: Rec, st': State) {
    && r.f0 in st.th && r.cpu == st.th[r.f0].home && st.th[r.f0].phase in {Created, Off} && r.res == r.f0
    && r.cpu !in st.owner
    && st'.th == st.th[r.f0 := st.th[r.f0].(phase := Running, runs := st.th[r.f0].runs + 1)]
    && st'.holder == st.holder && st'.owner == st.owner[r.cpu := r.f0]
  }

  ghost predicate SwitchMove(st: State, r: Rec, st': State) {
    && r.f0 in st.th && r.cpu == st.th[r.f0].home && st.th[r.f0].phase == Running
    && Owner(st, r.cpu) == Some(r.f0) && r.f1 in {1, 2, 3}
    && st'.th == st.th[r.f0 := st.th[r.f0].(phase := if r.f1 == 3 then Exited else Off)]
    && st'.holder == st.holder && st'.owner == st.owner - {r.cpu}
  }

  ghost predicate ReclaimMove(st: State, r: Rec, st': State) {
    && r.f0 in st.th && r.cpu == st.th[r.f0].home && st.th[r.f0].phase == Exited && r.cpu !in st.owner
    && st'.th == st.th[r.f0 := st.th[r.f0].(phase := Reclaimed)]
    && st'.holder == st.holder && st'.owner == st.owner
  }

  ghost predicate FinalMove(st: State, r: Rec, st': State) {
    && r.f0 in st.th && st'.holder == st.holder && st'.owner == st.owner
    && st'.th == st.th[r.f0 := st.th[r.f0].(finals := st.th[r.f0].finals + [r.f1])]
  }

  /** A self-written record comes from the running owner of its CPU. */
  ghost predicate InThreadMove(st: State, r: Rec) {
    r.f0 in st.th && st.th[r.f0].phase == Running && r.cpu == st.th[r.f0].home && r.res == r.f0
  }

  ghost predicate Moves(d: Setup, st: State, r: Rec, st': State) {
    if r.kind == Create then CreateMove(d, st, r, st')
    else if r.kind == Dispatch then DispatchMove(st, r, st')
    else if r.kind == Switch then SwitchMove(st, r, st')
    else if r.kind == Reclaim then ReclaimMove(st, r, st')
    else if r.kind == Final then FinalMove(st, r, st')
    else SameThreads(st, st') && (InThread(r) ==> InThreadMove(st, r))
  }

  lemma FlagClean(st: State, wrong: bool, fault: Fault)
    requires Flag(st, wrong, fault).bad == []
    ensures !wrong && Flag(st, wrong, fault) == st
  {
  }

  lemma OrdinalClean(st: State, r: Rec)
    requires Ordinal(st, r).bad == []
    ensures st.bad == [] && SameThreads(st, Ordinal(st, r))
    ensures r.kind == Dispatch ==> r.cpu !in st.owner
  {
    if r.cpu !in st.owner { assert st.owner - {r.cpu} == st.owner; }
  }

  lemma ResidencyClean(d: Setup, st: State, r: Rec)
    requires Residency(d, st, r).bad == []
    ensures Residency(d, st, r) == st && (r.kind == Dispatch ==> r.res == r.f0)
  {
    if r.kind == Dispatch {
      FlagClean(st, r.res != r.f0, DispatchResidentMismatch);
    } else if r.res == 0 {
      FlagClean(st, r.kind !in {Switch, Reclaim} + USER_KINDS, RecordWithoutResident);
    } else if r.res == d.kid {
      FlagClean(st, r.cpu != d.home || r.cpu in st.recorded, DirectorOutsideItsInterval);
    } else {
      FlagClean(st, Owner(st, r.cpu) != Some(r.res), ResidentNotTheOwner);
    }
  }

  lemma SlotClean(d: Setup, st: State, kid: nat)
    requires SlotFaults(d, st, kid).bad == []
    ensures SlotFaults(d, st, kid) == st
    ensures Slot(kid) in st.holder ==>
              var prev := st.holder[Slot(kid)];
              prev != d.kid && (prev in st.th ==> st.th[prev].phase == Reclaimed) && Gen(prev) < Gen(kid)
  {
    if Slot(kid) in st.holder {
      var prev := st.holder[Slot(kid)];
      if prev == d.kid {
        FlagClean(st, true, CreateInDirectorSlot);
      } else if prev in st.th && st.th[prev].phase != Reclaimed {
        FlagClean(st, true, SlotReusedBeforeReclaim);
      } else {
        FlagClean(st, Gen(kid) <= Gen(prev), GenerationNotNewer);
      }
    }
  }

  lemma CreateClean(d: Setup, st: State, r: Rec)
    requires r.kind == Create && OnCreate(d, st, r).bad == []
    ensures st.bad == [] && CreateMove(d, st, r, OnCreate(d, st, r))
  {
    var st1 := Flag(st, r.cpu != d.home || r.res != d.kid, CreateNotByDirector);
    if !KidOk(r.f0) {
      FlagClean(st1, true, CreateIdentity);
    } else if r.f0 in st1.th {
      FlagClean(st1, true, CreateDuplicate);
    } else {
      var st2 := Flag(st1, r.f2 !in d.cpus, CreateHome);
      var st3 := Flag(st2, r.f4 - r.f3 != STACK_BYTES || r.f3 - Slot(r.f0) * d.stride != d.base, CreateStack);
      SlotClean(d, st3, r.f0);
      FlagClean(st2, r.f4 - r.f3 != STACK_BYTES || r.f3 - Slot(r.f0) * d.stride != d.base, CreateStack);
      FlagClean(st1, r.f2 !in d.cpus, CreateHome);
      FlagClean(st, r.cpu != d.home || r.res != d.kid, CreateNotByDirector);
    }
  }

  ghost function RoleField(r: Rec): nat {
    if r.kind == Dispatch then r.f1 else if r.kind == Switch then r.f3 else r.f4
  }

  /** The common checks of the three lifecycle records pass unnoticed. */
  lemma LifecycleClean(st: State, r: Rec)
    requires r.kind in {Dispatch, Switch, Reclaim} && OnLifecycle(st, r).bad == []
    ensures st.bad == [] && r.f0 in st.th && r.cpu == st.th[r.f0].home
    ensures OnLifecycle(st, r)
            == if r.kind == Dispatch then OnDispatch(st, r) else if r.kind == Switch then OnSwitch(st, r) else OnReclaim(st, r)
  {
    if r.f0 !in st.th {
      FlagClean(st, true, UnknownThread);
    } else {
      var t := st.th[r.f0];
      var st1 := Flag(st, r.cpu != t.home, OffHome);
      var st2 := Flag(st1, RoleField(r) != t.role, RoleChanged);
      if r.kind == Dispatch {
        DispatchClean(st2, r);
      } else if r.kind == Switch {
        SwitchClean(st2, r);
      } else {
        ReclaimClean(st2, r);
      }
      FlagClean(st1, RoleField(r) != t.role, RoleChanged);
      FlagClean(st, r.cpu != t.home, OffHome);
    }
  }

  lemma DispatchClean(st: State, r: Rec)
    requires r.f0 in st.th && OnDispatch(st, r).bad == []
    ensures st.bad == [] && st.th[r.f0].phase in {Created, Off}
  {
    if st.th[r.f0].phase !in {Created, Off} { FlagClean(st, true, DispatchWhile); }
  }

  lemma SwitchClean(st: State, r: Rec)
    requires r.f0 in st.th && OnSwitch(st, r).bad == []
    ensures st.bad == [] && st.th[r.f0].phase == Running && Owner(st, r.cpu) == Some(r.f0) && r.f1 in {1, 2, 3}
    ensures OnSwitch(st, r) == WithPhase(st, r.f0, if r.f1 == 3 then Exited else Off).(owner := st.owner - {r.cpu})
  {
    var owned := Owner(st, r.cpu) == Some(r.f0);
    var st0 := Flag(st, !owned, SwitchByNonOwner);
    var st1 := st0.(owner := if owned then st.owner - {r.cpu} else st.owner);
    if st1.th[r.f0].phase != Running {
      FlagClean(st1, true, SwitchWhile);
    } else {
      var st2 := Flag(st1, r.f2 != 0, SwitchedOutWhileResident);
      FlagClean(st2, r.f1 !in {1, 2, 3}, SwitchReason);
      FlagClean(st1, r.f2 != 0, SwitchedOutWhileResident);
      FlagClean(st, !owned, SwitchByNonOwner);
    }
  }

  lemma ReclaimClean(st: State, r: Rec)
    requires r.f0 in st.th && OnReclaim(st, r).bad == []
    ensures st.bad == [] && st.th[r.f0].phase == Exited && r.cpu !in st.owner
    ensures OnReclaim(st, r) == WithPhase(st, r.f0, Reclaimed)
  {
    var st1 := Flag(st, r.cpu in st.owner || r.res != 0, ReclaimedWhileOwned);
    if st1.th[r.f0].phase != Exited {
      FlagClean(st1, true, ReclaimedBeforeSwitchAway);
    } else {
      FlagClean(st1, r.f1 != Slot(r.f0) || r.f2 != Gen(r.f0), ReclaimIdentity);
      FlagClean(st, r.cpu in st.owner || r.res != 0, ReclaimedWhileOwned);
    }
  }

  lemma LifecycleMoves(st: State, r: Rec)
    requires r.kind in {Dispatch, Switch, Reclaim} && OnLifecycle(st, r).bad == []
    requires r.kind == Dispatch ==> r.cpu !in st.owner && r.res == r.f0
    ensures r.kind == Dispatch ==> DispatchMove(st, r, OnLifecycle(st, r))
    ensures r.kind == Switch ==> SwitchMove(st, r, OnLifecycle(st, r))
    ensures r.kind == Reclaim ==> ReclaimMove(st, r, OnLifecycle(st, r))
  {
    LifecycleClean(st, r);
    if r.kind == Dispatch {
      DispatchClean(st, r);
    } else if r.kind == Switch {
      SwitchClean(st, r);
    } else {
      ReclaimClean(st, r);
    }
  }

  lemma DirectorOnlyClean(d: Setup, st: State, r: Rec)
    requires r.kind in {Exhaust, Final, User} && OnDirectorOnly(d, st, r).bad == []
    ensures st.bad == []
    ensures if r.kind == Final then FinalMove(st, r, OnDirectorOnly(d, st, r)) else SameThreads(st, OnDirectorOnly(d, st, r))
  {
    var st1 := Flag(st, r.cpu != d.home || r.res != d.kid, NotByDirector);
    if r.kind == Final {
      if r.f0 !in st1.th {
        FlagClean(st1, true, FinalUnknown);
      } else {
        var t := st1.th[r.f0];
        var st2 := Flag(st1, r.f1 == 0 && t.phase !in {Exited, Reclaimed}, FinalGone);
        FlagClean(st2, r.f2 != t.role, RoleChanged);
        FlagClean(st1, r.f1 == 0 && t.phase !in {Exited, Reclaimed}, FinalGone);
      }
    }
    FlagClean(st, r.cpu != d.home || r.res != d.kid, NotByDirector);
  }

  lemma InThreadClean(st: State, r: Rec)
    requires OnInThread(st, r).bad == []
    ensures OnInThread(st, r) == st && InThreadMove(st, r)
  {
    if r.f0 !in st.th {
      FlagClean(st, true, UnknownThread);
    } else if st.th[r.f0].phase != Running || r.cpu != st.th[r.f0].home || r.res != r.f0 {
      FlagClean(st, true, OutsideRunningInterval);
    } else {
      FlagClean(st, r.kind == Blip && (r.f1 != Slot(r.f0) || r.f2 != Gen(r.f0)), BlipIdentity);
    }
  }

  lemma ProbeClean(d: Setup, st: State, r: Rec)
    requires OnProbe(d, st, r).bad == []
    ensures OnProbe(d, st, r) == st
  {
    var st1 := Flag(st, r.cpu != d.home || r.res != d.kid, ProbeNotByDirector);
    if r.f1 in {1, 2, 5, 6} {
      FlagClean(st1, r.f0 != d.kid, ProbeNotByDirector);
    } else if r.f1 == 3 {
      FlagClean(st1, r.f0 !in st1.th || st1.th[r.f0].phase != Reclaimed, StaleProbe);
    } else {
      FlagClean(st1, true, ProbeKind);
    }
    FlagClean(st, r.cpu != d.home || r.res != d.kid, ProbeNotByDirector);
  }

  lemma TwoFlagsClean(st: State, wrong: bool, fault: Fault, wrong': bool, fault': Fault)
    requires Flag(Flag(st, wrong, fault), wrong', fault').bad == []
    ensures Flag(Flag(st, wrong, fault), wrong', fault') == st
  {
    FlagClean(Flag(st, wrong, fault), wrong', fault');
    FlagClean(st, wrong, fault);
  }

  lemma WakeClean(d: Setup, st: State, r: Rec)
    requires OnWake(d, st, r).bad == []
    ensures OnWake(d, st, r) == st
  {
    var byWaker := && st.waker.Some? && r.res == st.waker.value && st.waker.value in st.th
                   && r.cpu == st.th[st.waker.value].home && st.th[st.waker.value].phase == Running;
    TwoFlagsClean(st, r.res != d.kid && !byWaker, IssuerNotRunning,
                  r.f0 !in st.th || st.th[r.f0].role != R_SLEEPER, SubjectNotASleeper);
  }

  lemma UserClean(d: Setup, st: State, r: Rec)
    requires OnUser(d, st, r).bad == []
    ensures OnUser(d, st, r) == st
  {
    TwoFlagsClean(st, r.f0 != P_TID || r.cpu !in d.cpus, UserIdentity, r.res != 0 || r.cpu in st.owner, UserWhileOwned);
  }

  lemma OtherClean(d: Setup, st: State, r: Rec)
    requires r.kind !in {Create, Dispatch, Switch, Reclaim, Exhaust, Final, User} && ByKind(d, st, r).bad == []
    ensures ByKind(d, st, r) == st && (InThread(r) ==> InThreadMove(st, r))
  {
    if r.kind in {Pop, Director} {
    } else if InThread(r) {
      InThreadClean(st, r);
    } else if r.kind == Probe {
      ProbeClean(d, st, r);
    } else if r.kind in {WakeReq, Wake} {
      WakeClean(d, st, r);
    } else if r.kind in USER_KINDS {
      UserClean(d, st, r);
    } else {
      FlagClean(st, true, UnexpectedRecord);
    }
  }

  lemma StepClean(d: Setup, st: State, r: Rec)
    requires Step(d, st, r).bad == []
    ensures st.bad == [] && Moves(d, st, r, Step(d, st, r))
  {
    var st1 := Ordinal(st, r);
    var st2 := Residency(d, st1, r);
    KindClean(d, st2, r);
    ResidencyClean(d, st1, r);
    OrdinalClean(st, r);
    KindMoves(d, st1, r);
  }

  lemma KindClean(d: Setup, st: State, r: Rec)
    requires ByKind(d, st, r).bad == []
    ensures st.bad == []
  {
    if r.kind == Create {
      CreateClean(d, st, r);
    } else if r.kind in {Dispatch, Switch, Reclaim} {
      LifecycleClean(st, r);
    } else if r.kind in {Exhaust, Final, User} {
      DirectorOnlyClean(d, st, r);
    } else {
      OtherClean(d, st, r);
    }
  }

  lemma CreateKind(d: Setup, st: State, r: Rec)
    requires r.kind == Create && ByKind(d, st, r).bad == []
    ensures Moves(d, st, r, ByKind(d, st, r))
  {
    CreateClean(d, st, r);
  }

  lemma LifecycleKind(d: Setup, st: State, r: Rec)
    requires r.kind in {Dispatch, Switch, Reclaim} && ByKind(d, st, r).bad == []
    requires r.kind == Dispatch ==> r.cpu !in st.owner && r.res == r.f0
    ensures Moves(d, st, r, ByKind(d, st, r))
  {
    LifecycleMoves(st, r);
  }

  lemma DirectorKind(d: Setup, st: State, r: Rec)
    requires r.kind in {Exhaust, Final, User} && ByKind(d, st, r).bad == []
    ensures Moves(d, st, r, ByKind(d, st, r))
  {
    DirectorOnlyClean(d, st, r);
  }

  lemma KindMoves(d: Setup, st: State, r: Rec)
    requires ByKind(d, st, r).bad == []
    requires r.kind == Dispatch ==> r.cpu !in st.owner && r.res == r.f0
    ensures Moves(d, st, r, ByKind(d, st, r))
  {
    if r.kind == Create {
      CreateKind(d, st, r);
    } else if r.kind in {Dispatch, Switch, Reclaim} {
      LifecycleKind(d, st, r);
    } else if r.kind in {Exhaust, Final, User} {
      DirectorKind(d, st, r);
    } else {
      OtherClean(d, st, r);
    }
  }

  /** A run with no fault at the end had none anywhere. */
  lemma {:induction false} CleanPrefix(d: Setup, st: State, recs: seq<Rec>, k: nat)
    requires k <= |recs| && After(d, st, recs).bad == []
    ensures After(d, st, recs[..k]).bad == []
    decreases |recs|
  {
    if k < |recs| {
      StepClean(d, After(d, st, recs[..|recs| - 1]), recs[|recs| - 1]);
      assert recs[..|recs| - 1][..k] == recs[..k];
      CleanPrefix(d, st, recs[..|recs| - 1], k);
    } else {
      assert recs[..k] == recs;
    }
  }

  /** The states a sequence passes through, one clean move at a time. */
  ghost predicate Trace(d: Setup, sts: seq<State>, recs: seq<Rec>) {
    |sts| == |recs| + 1 && forall i :: 0 <= i < |recs| ==> MovesAt(d, sts, recs, i)
  }

  ghost predicate MovesAt(d: Setup, sts: seq<State>, recs: seq<Rec>, i: nat)
    requires |sts| == |recs| + 1 && i < |recs|
  {
    Moves(d, sts[i], recs[i], sts[i + 1])
  }

  ghost function States(recs: seq<Rec>): (sts: seq<State>)
    requires Declared(recs)
    ensures |sts| == |recs| + 1
  {
    seq(|recs| + 1, k requires 0 <= k <= |recs| => After(SetupOf(recs), Begin(recs), recs[..k]))
  }

  lemma MoveAt(recs: seq<Rec>, i: nat)
    requires Possible(recs) && i < |recs|
    ensures MovesAt(SetupOf(recs), States(recs), recs, i)
  {
    CleanPrefix(SetupOf(recs), Begin(recs), recs, i + 1);
    AfterMoves(SetupOf(recs), Begin(recs), recs, i);
  }

  lemma AfterMoves(d: Setup, st: State, recs: seq<Rec>, i: nat)
    requires i < |recs| && After(d, st, recs[..i + 1]).bad == []
    ensures Moves(d, After(d, st, recs[..i]), recs[i], After(d, st, recs[..i + 1]))
  {
    assert recs[..i + 1][..i] == recs[..i];
    StepClean(d, After(d, st, recs[..i]), recs[i]);
  }

  lemma PossibleTrace(recs: seq<Rec>)
    requires Possible(recs)
    ensures Trace(SetupOf(recs), States(recs), recs)
    ensures States(recs)[0] == Begin(recs) && States(recs)[|recs|] == After(SetupOf(recs), Begin(recs), recs)
    ensures Begin(recs).bad == []
  {
    forall i | 0 <= i < |recs| ensures MovesAt(SetupOf(recs), States(recs), recs, i) {
      MoveAt(recs, i);
    }
    assert recs[..|recs|] == recs && recs[..0] == [];
    CleanPrefix(SetupOf(recs), Begin(recs), recs, 0);
  }
}
