/** The replay flags exactly what the scans say: which kernel-thread runs are
    possible, as a condition on their records. */
module KThreadFaults {
  import opened Machine
  import opened Bits
  import opened KThread
  import opened KThreadMoves
  import opened KThreadLegal
  import opened KThreadScan
  import opened KThreadVerdict
  import Sets

  lemma FlagSays(st: State, wrong: bool, fault: Fault)
    ensures Flag(st, wrong, fault) == st.(bad := st.bad + When(wrong, fault))
  {
    assert st.bad + [] == st.bad;
  }

  lemma OrdinalSays(before: seq<Rec>, st: State, r: Rec)
    requires FitsCpu(before, st, r.cpu) && st.bad == []
    ensures var st' := Ordinal(st, r);
            && st'.bad == OrdinalFaults(before, r) && Owner(st', r.cpu) == OwnerNow(before, r)
            && (r.cpu in st'.recorded <==> Dispatched(before, r))
            && st'.th == st.th && st'.holder == st.holder && st'.waker == st.waker
  {
  }

  lemma ResidencySays(d: Setup, dir: Rec, before: seq<Rec>, st: State, r: Rec)
    requires d.kid == dir.f0 && d.home == dir.f1
    requires Owner(st, r.cpu) == OwnerNow(before, r) && (r.cpu in st.recorded <==> Dispatched(before, r))
    ensures Residency(d, st, r) == st.(bad := st.bad + ResidentFaults(dir, before, r))
  {
    FlagSays(st, r.res != r.f0, DispatchResidentMismatch);
    FlagSays(st, r.kind !in {Switch, Reclaim} + USER_KINDS, RecordWithoutResident);
    FlagSays(st, r.cpu != d.home || r.cpu in st.recorded, DirectorOutsideItsInterval);
    FlagSays(st, Owner(st, r.cpu) != Some(r.res), ResidentNotTheOwner);
  }

  // -------------------------------------------------------------- by their kind

  /** The thread `kid` as the scans see it. */
  ghost predicate Seen(before: seq<Rec>, st: State, kid: nat) { FitsThread(before, st, kid) }

  lemma SlotSays(d: Setup, dir: Rec, before: seq<Rec>, st: State, kid: nat)
    requires d.kid == dir.f0 && FitsSlot(dir, before, st, kid % 0x1_0000)
    requires Slot(kid) in st.holder ==> st.holder[Slot(kid)] == d.kid || (st.holder[Slot(kid)] in st.th && Seen(before, st, st.holder[Slot(kid)]))
    ensures SlotFaults(d, st, kid) == st.(bad := st.bad + SlotFaultsOf(dir, before, kid))
  {
    assert st.bad + [] == st.bad;
    if Slot(kid) in st.holder {
      var prev := st.holder[Slot(kid)];
      FlagSays(st, true, CreateInDirectorSlot);
      FlagSays(st, true, SlotReusedBeforeReclaim);
      FlagSays(st, Gen(kid) <= Gen(prev), GenerationNotNewer);
    }
  }

  lemma PlacedSays(d: Setup, pop: Rec, dir: Rec, before: seq<Rec>, st: State, r: Rec)
    requires SetupIs(pop, dir, d) && FitsSlot(dir, before, st, r.f0 % 0x1_0000)
    requires Slot(r.f0) in st.holder ==>
               st.holder[Slot(r.f0)] == d.kid || (st.holder[Slot(r.f0)] in st.th && Seen(before, st, st.holder[Slot(r.f0)]))
    ensures Placed(d, st, r).bad
            == st.bad + When(!(r.f2 < 8 && Bit(pop.f0, r.f2)), CreateHome) + When(!StackFits(dir, r.f0, r.f3, r.f4), CreateStack)
               + SlotFaultsOf(dir, before, r.f0)
  {
    var st1 := Flag(st, r.f2 !in d.cpus, CreateHome);
    FlagSays(st, r.f2 !in d.cpus, CreateHome);
    var wrong := r.f4 - r.f3 != STACK_BYTES || r.f3 - Slot(r.f0) * d.stride != d.base;
    assert wrong <==> !StackFits(dir, r.f0, r.f3, r.f4);
    FlagSays(st1, wrong, CreateStack);
    SlotSays(d, dir, before, Flag(st1, wrong, CreateStack), r.f0);
  }

  lemma CreateSays(d: Setup, pop: Rec, dir: Rec, before: seq<Rec>, st: State, r: Rec)
    requires SetupIs(pop, dir, d) && Seen(before, st, r.f0) && FitsSlot(dir, before, st, r.f0 % 0x1_0000)
    requires Slot(r.f0) in st.holder ==>
               st.holder[Slot(r.f0)] == d.kid || (st.holder[Slot(r.f0)] in st.th && Seen(before, st, st.holder[Slot(r.f0)]))
    ensures OnCreate(d, st, r).bad == CreateFaults(pop, dir, before, r, st.bad)
  {
    var notBy := r.cpu != d.home || r.res != d.kid;
    var st0 := Flag(st, notBy, CreateNotByDirector);
    FlagSays(st, notBy, CreateNotByDirector);
    if KidOk(r.f0) && r.f0 !in st0.th { PlacedSays(d, pop, dir, before, st0, r); }
  }

  lemma DispatchSays(before: seq<Rec>, st: State, r: Rec)
    requires r.f0 in st.th && Seen(before, st, r.f0)
    ensures OnDispatch(st, r).bad == DispatchFaults(before, r, st.bad)
  {
    assert st.bad + [] == st.bad;
  }

  lemma SwitchSays(before: seq<Rec>, st: State, r: Rec)
    requires r.f0 in st.th && Seen(before, st, r.f0) && Owner(st, r.cpu) == OwnerNow(before, r)
    ensures OnSwitch(st, r).bad == SwitchFaults(before, r, st.bad)
  {
    var owned := Owner(st, r.cpu) == Some(r.f0);
    FlagSays(st, !owned, SwitchByNonOwner);
    var st1 := Flag(st, !owned, SwitchByNonOwner).(owner := if owned then st.owner - {r.cpu} else st.owner);
    if st1.th[r.f0].phase == Running {
      FlagSays(st1, r.f2 != 0, SwitchedOutWhileResident);
      FlagSays(Flag(st1, r.f2 != 0, SwitchedOutWhileResident), r.f1 !in {1, 2, 3}, SwitchReason);
    }
  }

  lemma ReclaimSays(before: seq<Rec>, st: State, r: Rec)
    requires r.f0 in st.th && Seen(before, st, r.f0) && Owner(st, r.cpu) == OwnerNow(before, r)
    ensures OnReclaim(st, r).bad == ReclaimFaults(before, r, st.bad)
  {
    var owned := r.cpu in st.owner || r.res != 0;
    FlagSays(st, owned, ReclaimedWhileOwned);
    var st1 := Flag(st, owned, ReclaimedWhileOwned);
    if st1.th[r.f0].phase == Exited { FlagSays(st1, r.f1 != Slot(r.f0) || r.f2 != Gen(r.f0), ReclaimIdentity); }
  }

  lemma LifeSays(before: seq<Rec>, st: State, r: Rec)
    requires r.kind in {Dispatch, Switch, Reclaim} && Seen(before, st, r.f0) && Owner(st, r.cpu) == OwnerNow(before, r)
    ensures OnLifecycle(st, r).bad == LifeFaults(before, r, st.bad)
  {
    if r.f0 in st.th {
      var t := st.th[r.f0];
      FlagSays(st, r.cpu != t.home, OffHome);
      var st1 := Flag(st, r.cpu != t.home, OffHome);
      FlagSays(st1, RoleField(r) != t.role, RoleChanged);
      var st2 := Flag(st1, RoleField(r) != t.role, RoleChanged);
      if r.kind == Dispatch {
        DispatchSays(before, st2, r);
      } else if r.kind == Switch {
        SwitchSays(before, st2, r);
      } else {
        ReclaimSays(before, st2, r);
      }
    }
  }

  lemma SelfSays(before: seq<Rec>, st: State, r: Rec)
    requires Seen(before, st, r.f0)
    ensures OnInThread(st, r).bad == SelfFaults(before, r, st.bad)
  {
    FlagSays(st, r.kind == Blip && (r.f1 != Slot(r.f0) || r.f2 != Gen(r.f0)), BlipIdentity);
  }

  lemma ProbeSays(d: Setup, dir: Rec, before: seq<Rec>, st: State, r: Rec)
    requires d.kid == dir.f0 && d.home == dir.f1 && Seen(before, st, r.f0)
    ensures OnProbe(d, st, r).bad == ProbeFaults(dir, before, r, st.bad)
  {
    var notBy := r.cpu != d.home || r.res != d.kid;
    FlagSays(st, notBy, ProbeNotByDirector);
    var st1 := Flag(st, notBy, ProbeNotByDirector);
    FlagSays(st1, r.f0 != d.kid, ProbeNotByDirector);
    FlagSays(st1, r.f0 !in st1.th || st1.th[r.f0].phase != Reclaimed, StaleProbe);
  }

  lemma WakeSays(d: Setup, dir: Rec, before: seq<Rec>, st: State, r: Rec)
    requires d.kid == dir.f0 && Seen(before, st, r.f0) && st.waker == WakerOf(before)
    requires st.waker.Some? ==> Seen(before, st, st.waker.value)
    ensures OnWake(d, st, r).bad == WakeFaults(dir, before, r, st.bad)
  {
    var byWaker := && st.waker.Some? && r.res == st.waker.value && st.waker.value in st.th
                   && r.cpu == st.th[st.waker.value].home && st.th[st.waker.value].phase == Running;
    assert byWaker <==> IssuedByWaker(before, r);
    FlagSays(st, r.res != d.kid && !byWaker, IssuerNotRunning);
    var st1 := Flag(st, r.res != d.kid && !byWaker, IssuerNotRunning);
    FlagSays(st1, r.f0 !in st1.th || st1.th[r.f0].role != R_SLEEPER, SubjectNotASleeper);
  }

  lemma UserSays(d: Setup, pop: Rec, dir: Rec, before: seq<Rec>, st: State, r: Rec)
    requires SetupIs(pop, dir, d) && Owner(st, r.cpu) == OwnerNow(before, r)
    ensures OnUser(d, st, r).bad == UserFaults(pop, before, r, st.bad)
  {
    FlagSays(st, r.f0 != P_TID || r.cpu !in d.cpus, UserIdentity);
    FlagSays(Flag(st, r.f0 != P_TID || r.cpu !in d.cpus, UserIdentity), r.res != 0 || r.cpu in st.owner, UserWhileOwned);
  }

  lemma FinalSays(d: Setup, dir: Rec, before: seq<Rec>, st: State, r: Rec)
    requires r.kind in {Exhaust, Final, User} && d.kid == dir.f0 && d.home == dir.f1 && Seen(before, st, r.f0)
    ensures OnDirectorOnly(d, st, r).bad
            == if r.kind == Final then FinalFaults(dir, before, r, st.bad) else st.bad + When(!ByDirector(dir, r), NotByDirector)
  {
    var notBy := r.cpu != d.home || r.res != d.kid;
    FlagSays(st, notBy, NotByDirector);
    var st1 := Flag(st, notBy, NotByDirector);
    if r.kind == Final && r.f0 in st1.th {
      var t := st1.th[r.f0];
      FlagSays(st1, r.f1 == 0 && t.phase !in {Exited, Reclaimed}, FinalGone);
      FlagSays(Flag(st1, r.f1 == 0 && t.phase !in {Exited, Reclaimed}, FinalGone), r.f2 != t.role, RoleChanged);
    }
  }

  // ------------------------------------------------------------------- one step

  /** Everything the checks of record `r` look at is what the scans find. */
  ghost predicate Ready(d: Setup, pop: Rec, dir: Rec, before: seq<Rec>, st: State, r: Rec) {
    && SetupIs(pop, dir, d) && Seen(before, st, r.f0) && FitsSlot(dir, before, st, r.f0 % 0x1_0000)
    && (Slot(r.f0) in st.holder ==>
          st.holder[Slot(r.f0)] == d.kid || (st.holder[Slot(r.f0)] in st.th && Seen(before, st, st.holder[Slot(r.f0)])))
    && st.waker == WakerOf(before) && (st.waker.Some? ==> Seen(before, st, st.waker.value))
  }

  predicate Lifecycle(r: Rec) { r.kind == Create || r.kind == Dispatch || r.kind == Switch || r.kind == Reclaim }

  lemma LifecycleSays(d: Setup, pop: Rec, dir: Rec, before: seq<Rec>, st: State, r: Rec)
    requires Lifecycle(r) && Ready(d, pop, dir, before, st, r) && Owner(st, r.cpu) == OwnerNow(before, r)
    ensures ByKind(d, st, r).bad == KindFaults(pop, dir, before, r, st.bad)
  {
    if r.kind == Create { CreateSays(d, pop, dir, before, st, r); } else { LifeSays(before, st, r); }
  }

  lemma WitnessSays(d: Setup, pop: Rec, dir: Rec, before: seq<Rec>, st: State, r: Rec)
    requires SelfWritten(r) || r.kind == Probe || r.kind == WakeReq || r.kind == Wake
    requires Ready(d, pop, dir, before, st, r)
    ensures ByKind(d, st, r).bad == KindFaults(pop, dir, before, r, st.bad)
  {
    if SelfWritten(r) {
      SelfSays(before, st, r);
    } else if r.kind == Probe {
      ProbeSays(d, dir, before, st, r);
    } else {
      WakeSays(d, dir, before, st, r);
    }
  }

  lemma UserKindSays(d: Setup, pop: Rec, dir: Rec, before: seq<Rec>, st: State, r: Rec)
    requires UserKind(r.kind) && SetupIs(pop, dir, d) && Owner(st, r.cpu) == OwnerNow(before, r)
    ensures ByKind(d, st, r).bad == KindFaults(pop, dir, before, r, st.bad)
  {
    UserSays(d, pop, dir, before, st, r);
  }

  lemma DirectorSays(d: Setup, pop: Rec, dir: Rec, before: seq<Rec>, st: State, r: Rec)
    requires r.kind == Exhaust || r.kind == Final || r.kind == User
    requires SetupIs(pop, dir, d) && Seen(before, st, r.f0)
    ensures ByKind(d, st, r).bad == KindFaults(pop, dir, before, r, st.bad)
  {
    FinalSays(d, dir, before, st, r);
  }

  predicate Witness(r: Rec) { SelfWritten(r) || r.kind == Probe || r.kind == WakeReq || r.kind == Wake }

  predicate DirectorsOwn(r: Rec) { r.kind == Exhaust || r.kind == Final || r.kind == User }

  lemma DeclaredSays(d: Setup, st: State, r: Rec)
    requires r.kind == Pop || r.kind == Director
    ensures ByKind(d, st, r) == st
  {
  }

  lemma UnknownSays(d: Setup, st: State, r: Rec)
    requires r.kind == Unknown
    ensures ByKind(d, st, r).bad == st.bad + [UnexpectedRecord]
  {
  }

  lemma RestSays(d: Setup, pop: Rec, dir: Rec, before: seq<Rec>, st: State, r: Rec)
    requires r.kind == Pop || r.kind == Director || r.kind == Unknown
    ensures KindFaults(pop, dir, before, r, st.bad) == if r.kind == Unknown then st.bad + [UnexpectedRecord] else st.bad
  {
  }

  lemma KindSays(d: Setup, pop: Rec, dir: Rec, before: seq<Rec>, st: State, r: Rec)
    requires Ready(d, pop, dir, before, st, r) && Owner(st, r.cpu) == OwnerNow(before, r)
    ensures ByKind(d, st, r).bad == KindFaults(pop, dir, before, r, st.bad)
  {
    if Lifecycle(r) {
      LifecycleSays(d, pop, dir, before, st, r);
    } else if Witness(r) {
      WitnessSays(d, pop, dir, before, st, r);
    } else if UserKind(r.kind) {
      UserKindSays(d, pop, dir, before, st, r);
    } else if DirectorsOwn(r) {
      DirectorSays(d, pop, dir, before, st, r);
    } else {
      RestSays(d, pop, dir, before, st, r);
      if r.kind == Unknown { UnknownSays(d, st, r); } else { DeclaredSays(d, st, r); }
    }
  }

  lemma {:induction false} UserWasCreated(recs: seq<Rec>, director: nat, slot: nat)
    requires SlotUser(recs, director, slot).Some?
    ensures var kid := SlotUser(recs, director, slot).value; kid == director || CreateOf(recs, kid).Some?
  {
    if recs != [] && !(recs[|recs| - 1].kind == Create && recs[|recs| - 1].f0 % 0x1_0000 == slot) {
      UserWasCreated(recs[..|recs| - 1], director, slot);
    }
  }

  lemma RunReady(d: Setup, pop: Rec, dir: Rec, before: seq<Rec>, st: State, r: Rec)
    requires SetupIs(pop, dir, d) && CleanRun(d, dir, before, st)
    ensures Ready(d, pop, dir, before, st, r)
  {
    ThreadFits(d, dir, before, st, r.f0);
    SlotFits(d, dir, before, st, r.f0 % 0x1_0000);
    if Slot(r.f0) in st.holder {
      UserWasCreated(before, dir.f0, r.f0 % 0x1_0000);
      ThreadFits(d, dir, before, st, st.holder[Slot(r.f0)]);
    }
    WakerFits(d, dir, before, st);
    if st.waker.Some? { ThreadFits(d, dir, before, st, st.waker.value); }
  }

  /** After records without a fault, the next one is flagged exactly for its
      faults. */
  lemma StepSays(d: Setup, pop: Rec, dir: Rec, before: seq<Rec>, st: State, r: Rec)
    requires SetupIs(pop, dir, d) && CleanRun(d, dir, before, st)
    ensures Step(d, st, r).bad == RecordFaults(pop, dir, before, r)
  {
    RunReady(d, pop, dir, before, st, r);
    CpuFits(d, dir, before, st, r.cpu);
    OrdinalSays(before, st, r);
    var st1 := Ordinal(st, r);
    ResidencySays(d, dir, before, st1, r);
    KindSays(d, pop, dir, before, Residency(d, st1, r), r);
  }

  // -------------------------------------------------------------------- whole runs

  /** No declaration and no record is flagged where it stands. */
  ghost predicate Unflagged(recs: seq<Rec>)
    requires |recs| >= 2
  {
    DeclarationFaults(recs[0], recs[1]) == [] && forall k :: 0 <= k < |recs| ==> FaultsAt(recs, k) == []
  }

  lemma SetupSays(recs: seq<Rec>)
    requires Declared(recs)
    ensures SetupIs(recs[0], recs[1], SetupOf(recs))
    ensures Begin(recs) == Empty(recs[1]).(bad := DeclarationFaults(recs[0], recs[1]))
  {
    var pop, d, st := recs[0], recs[1], Empty(recs[1]);
    FlagSays(st, pop.f2 != CAPACITY || pop.f3 != STACK_BYTES || pop.f4 != ROUNDS, ContractMismatch);
    var st1 := Flag(st, pop.f2 != CAPACITY || pop.f3 != STACK_BYTES || pop.f4 != ROUNDS, ContractMismatch);
    FlagSays(st1, !KidOk(d.f0) || d.cpu != d.f1 || d.f3 - d.f2 != STACK_BYTES, DirectorIdentity);
    var st2 := Flag(st1, !KidOk(d.f0) || d.cpu != d.f1 || d.f3 - d.f2 != STACK_BYTES, DirectorIdentity);
    FlagSays(st2, d.f4 !in {STACK_BYTES, KSTACK_STRIDE}, DirectorStackStride);
  }

  lemma AfterNext(d: Setup, st: State, recs: seq<Rec>, n: nat)
    requires n < |recs|
    ensures After(d, st, recs[..n + 1]) == Step(d, After(d, st, recs[..n]), recs[n])
  {
    assert recs[..n + 1][..n] == recs[..n];
  }

  /** The first flagged record is flagged exactly for its faults. */
  lemma FirstFlagged(recs: seq<Rec>, n: nat)
    requires Declared(recs) && n < |recs| && After(SetupOf(recs), Begin(recs), recs[..n]).bad == []
    requires DeclarationFaults(recs[0], recs[1]) == []
    ensures After(SetupOf(recs), Begin(recs), recs[..n + 1]).bad == RecordFaults(recs[0], recs[1], recs[..n], recs[n])
  {
    var d, st := SetupOf(recs), Begin(recs);
    SetupSays(recs);
    AfterNext(d, st, recs, n);
    StepSays(d, recs[0], recs[1], recs[..n], After(d, st, recs[..n]), recs[n]);
  }

  lemma FlagsStay(d: Setup, st: State, recs: seq<Rec>, n: nat)
    requires n < |recs| && After(d, st, recs[..n + 1]).bad == []
    ensures After(d, st, recs[..n]).bad == []
  {
    AfterNext(d, st, recs, n);
    StepClean(d, After(d, st, recs[..n]), recs[n]);
  }

  /** While nothing is flagged, record `k` is flagged for `faults[k]`. */
  lemma {:induction false} CleanUpTo(bads: seq<seq<Fault>>, faults: seq<seq<Fault>>, n: nat)
    requires n < |bads| && n <= |faults|
    requires forall k :: 0 <= k < n && bads[k] == [] ==> bads[k + 1] == faults[k]
    requires forall k :: 0 <= k < n && bads[k + 1] == [] ==> bads[k] == []
    ensures bads[n] == [] <==> bads[0] == [] && forall k :: 0 <= k < n ==> faults[k] == []
    decreases n
  {
    if n > 0 {
      CleanUpTo(bads, faults, n - 1);
      assert bads[n - 1] == [] ==> bads[n - 1 + 1] == faults[n - 1];
      assert bads[n - 1 + 1] == [] ==> bads[n - 1] == [];
    }
  }

  /** What is flagged before record `k`. */
  ghost function BadBefore(d: Setup, st: State, recs: seq<Rec>, k: nat): seq<Fault>
    requires k <= |recs|
  {
    After(d, st, recs[..k]).bad
  }

  /** The faults of record `k` where it stands. */
  function FaultsAt(recs: seq<Rec>, k: nat): seq<Fault> {
    if |recs| >= 2 && k < |recs| then RecordFaults(recs[0], recs[1], recs[..k], recs[k]) else []
  }

  lemma BadNext(recs: seq<Rec>, bads: seq<seq<Fault>>, faults: seq<seq<Fault>>, k: nat)
    requires Declared(recs) && Begin(recs).bad == [] && DeclarationFaults(recs[0], recs[1]) == [] && k < |recs|
    requires |bads| == |recs| + 1 && |faults| == |recs| && faults[k] == FaultsAt(recs, k)
    requires bads[k] == BadBefore(SetupOf(recs), Begin(recs), recs, k)
    requires bads[k + 1] == BadBefore(SetupOf(recs), Begin(recs), recs, k + 1)
    ensures bads[k] == [] ==> bads[k + 1] == faults[k]
    ensures bads[k + 1] == [] ==> bads[k] == []
  {
    if bads[k] == [] { FirstFlagged(recs, k); }
    if bads[k + 1] == [] { FlagsStay(SetupOf(recs), Begin(recs), recs, k); }
  }

  lemma RunFaults(recs: seq<Rec>, bads: seq<seq<Fault>>, faults: seq<seq<Fault>>)
    requires Declared(recs) && Begin(recs).bad == [] && DeclarationFaults(recs[0], recs[1]) == []
    requires |bads| == |recs| + 1 && forall k :: 0 <= k <= |recs| ==> bads[k] == BadBefore(SetupOf(recs), Begin(recs), recs, k)
    requires |faults| == |recs| && forall k :: 0 <= k < |recs| ==> faults[k] == FaultsAt(recs, k)
    ensures bads[|recs|] == [] <==> forall k :: 0 <= k < |recs| ==> faults[k] == []
  {
    forall k | 0 <= k < |recs| ensures (bads[k] == [] ==> bads[k + 1] == faults[k]) && (bads[k + 1] == [] ==> bads[k] == []) {
      BadNext(recs, bads, faults, k);
    }
    assert recs[..0] == [] && bads[0] == BadBefore(SetupOf(recs), Begin(recs), recs, 0);
    CleanUpTo(bads, faults, |recs|);
  }

  /** Nothing in the declared run is flagged exactly when the declarations are in
      order and no record has a fault where it stands. */
  lemma RunSays(recs: seq<Rec>)
    requires Declared(recs)
    ensures After(SetupOf(recs), Begin(recs), recs).bad == [] <==> Unflagged(recs)
  {
    var d, st, n := SetupOf(recs), Begin(recs), |recs|;
    SetupSays(recs);
    assert recs[..n] == recs && recs[..0] == [];
    if After(d, st, recs).bad == [] { CleanPrefix(d, st, recs, 0); }
    if st.bad == [] {
      var bads := seq(n + 1, k requires 0 <= k <= n => BadBefore(d, st, recs, k));
      var faults := seq(n, k requires 0 <= k < n => FaultsAt(recs, k));
      RunFaults(recs, bads, faults);
      assert bads[n] == After(d, st, recs).bad;
      assert forall k :: 0 <= k < n ==> faults[k] == FaultsAt(recs, k);
    }
  }

  // ------------------------------------------------------------ at the end of it

  ghost predicate FitsReports(recs: seq<Rec>, st: State, kid: nat) {
    kid in st.th ==> st.th[kid].finals == FinalsOf(recs, kid) && st.th[kid].runs == DispatchesOf(recs, kid)
  }

  /** Nothing is said of a thread before it is created. */
  ghost predicate Unheard(recs: seq<Rec>, st: State, kid: nat) {
    kid !in st.th ==> FinalsOf(recs, kid) == [] && DispatchesOf(recs, kid) == 0
  }

  lemma ReportsStep(d: Setup, recs: seq<Rec>, before: State, st: State, kid: nat)
    requires recs != [] && FitsReports(recs[..|recs| - 1], before, kid) && Unheard(recs[..|recs| - 1], before, kid)
    requires Moves(d, before, recs[|recs| - 1], st)
    ensures FitsReports(recs, st, kid) && Unheard(recs, st, kid)
  {
    assert FinalsOf(recs[..|recs| - 1], kid) + [] == FinalsOf(recs[..|recs| - 1], kid);
  }

  lemma {:induction false} ReportsFit(d: Setup, dir: Rec, recs: seq<Rec>, st: State, kid: nat)
    requires CleanRun(d, dir, recs, st)
    ensures FitsReports(recs, st, kid) && Unheard(recs, st, kid)
    decreases |recs|
  {
    if recs != [] {
      var before, r := LastStep(d, dir, recs, st);
      ReportsFit(d, dir, recs[..|recs| - 1], before, kid);
      ReportsStep(d, recs, before, st, kid);
    }
  }

  lemma RoleStep(d: Setup, before: State, r: Rec, st: State, role: nat)
    requires Moves(d, before, r, st)
    ensures |WithRole(st, role)| == |WithRole(before, role)| + if r.kind == Create && r.f1 == role then 1 else 0
  {
    if r.kind == Create && r.f1 == role {
      assert WithRole(st, role) == WithRole(before, role) + {r.f0} && r.f0 !in WithRole(before, role);
    } else {
      assert WithRole(st, role) == WithRole(before, role);
    }
  }

  lemma {:induction false} RolesFit(d: Setup, dir: Rec, recs: seq<Rec>, st: State, role: nat)
    requires CleanRun(d, dir, recs, st)
    ensures |WithRole(st, role)| == CreatedAs(recs, role)
    decreases |recs|
  {
    if recs == [] {
      assert WithRole(st, role) == {};
    } else {
      var before, r := LastStep(d, dir, recs, st);
      RolesFit(d, dir, recs[..|recs| - 1], before, role);
      RoleStep(d, before, r, st, role);
    }
  }

  lemma {:induction false} ExhaustFits(d: Setup, dir: Rec, recs: seq<Rec>, st: State)
    requires CleanRun(d, dir, recs, st)
    ensures st.exhaust == Exhausted(recs)
    decreases |recs|
  {
    if recs != [] {
      var before, r := LastStep(d, dir, recs, st);
      ExhaustFits(d, dir, recs[..|recs| - 1], before);
    }
  }

  // --------------------------------------------------------------- the verdict

  /** The created thread has one of the seven roles and is not reported twice. */
  ghost predicate WellReported(recs: seq<Rec>, kid: nat) {
    CreateOf(recs, kid).Some? ==> |FinalsOf(recs, kid)| <= 1 && 2 <= CreateOf(recs, kid).value.f1 <= 8
  }

  /** The created thread was dispatched, exited, was reclaimed, and is reported
      gone. */
  ghost predicate Finished(recs: seq<Rec>, kid: nat) {
    CreateOf(recs, kid).Some? ==>
      && FinalsOf(recs, kid) != [] && FinalsOf(recs, kid)[0] == 0 && PhaseOf(recs, kid) == Some(Reclaimed)
      && (|FinalsOf(recs, kid)| == 1 ==> DispatchesOf(recs, kid) > 0)
  }

  /** A run that can happen. */
  ghost predicate PossibleRun(recs: seq<Rec>) {
    Declared(recs) && Unflagged(recs) && forall kid: nat :: WellReported(recs, kid)
  }

  /** The run declares more than one CPU. */
  ghost predicate ManyCpus(pop: Rec) { exists b: nat, c: nat :: b < c < 8 && Bit(pop.f0, b) && Bit(pop.f0, c) }

  ghost predicate FinishedRun(recs: seq<Rec>)
    requires |recs| >= 2
  {
    var helpers := if ManyCpus(recs[0]) then 1 else 0;
    && (forall kid: nat :: Finished(recs, kid))
    && CreatedAs(recs, 4) == helpers && CreatedAs(recs, 6) == 1 && CreatedAs(recs, 5) == 7
    && Exhausted(recs) == Some(CreatedAs(recs, 7)) && CreatedAs(recs, 8) == helpers
  }

  lemma OneOrMany(cpus: set<nat>)
    ensures |cpus| > 1 <==> exists b: nat, c: nat :: b < c && b in cpus && c in cpus
  {
    if |cpus| > 1 {
      var b :| b in cpus;
      assert |cpus - {b}| >= 1;
      var c :| c in cpus - {b};
      if b < c { assert b in cpus && c in cpus; } else { assert c < b && c in cpus && b in cpus; }
    }
    if b: nat, c: nat :| b < c && b in cpus && c in cpus { assert |cpus| >= |{b, c}| by { Sets.SubsetSize({b, c}, cpus); } }
  }

  lemma ManySays(pop: Rec, dir: Rec, d: Setup)
    requires SetupIs(pop, dir, d)
    ensures |d.cpus| > 1 <==> ManyCpus(pop)
  {
    OneOrMany(d.cpus);
    if ManyCpus(pop) {
      var b: nat, c: nat :| b < c < 8 && Bit(pop.f0, b) && Bit(pop.f0, c);
      assert b in d.cpus && c in d.cpus;
    }
    if b: nat, c: nat :| b < c && b in d.cpus && c in d.cpus { assert c < 8 && Bit(pop.f0, b) && Bit(pop.f0, c); }
  }

  ghost predicate ThreadReported(st: State, kid: nat) {
    kid in st.th ==> |st.th[kid].finals| <= 1 && st.th[kid].role in KNOWN_ROLES
  }

  ghost predicate ThreadFinished(st: State, kid: nat) {
    kid in st.th ==>
      && |st.th[kid].finals| != 0 && st.th[kid].finals[0] == 0 && st.th[kid].phase == Reclaimed
      && (|st.th[kid].finals| == 1 ==> st.th[kid].runs != 0)
  }

  lemma FitsSay(recs: seq<Rec>, st: State, kid: nat)
    requires FitsThread(recs, st, kid) && FitsReports(recs, st, kid)
    ensures ThreadReported(st, kid) <==> WellReported(recs, kid)
    ensures ThreadFinished(st, kid) <==> Finished(recs, kid)
  {
  }

  lemma ThreadSays(d: Setup, dir: Rec, recs: seq<Rec>, st: State, kid: nat)
    requires CleanRun(d, dir, recs, st)
    ensures ThreadReported(st, kid) <==> WellReported(recs, kid)
    ensures ThreadFinished(st, kid) <==> Finished(recs, kid)
  {
    ThreadFits(d, dir, recs, st, kid);
    ReportsFit(d, dir, recs, st, kid);
    FitsSay(recs, st, kid);
  }

  lemma ByThread(st: State)
    ensures FinalsUnique(st) && RolesKnown(st) <==> forall kid: nat :: ThreadReported(st, kid)
    ensures Complete(st) <==> forall kid: nat :: ThreadFinished(st, kid)
  {
    if forall kid: nat :: ThreadReported(st, kid) {
      forall kid | kid in st.th ensures |st.th[kid].finals| <= 1 && st.th[kid].role in KNOWN_ROLES { assert ThreadReported(st, kid); }
    }
    if forall kid: nat :: ThreadFinished(st, kid) {
      forall kid | kid in st.th
        ensures && |st.th[kid].finals| != 0 && st.th[kid].finals[0] == 0 && st.th[kid].phase == Reclaimed
                && (|st.th[kid].finals| == 1 ==> st.th[kid].runs != 0)
      {
        assert ThreadFinished(st, kid);
      }
    }
  }

  lemma EndSays(d: Setup, dir: Rec, recs: seq<Rec>, st: State)
    requires CleanRun(d, dir, recs, st)
    ensures FinalsUnique(st) && RolesKnown(st) <==> forall kid: nat :: WellReported(recs, kid)
    ensures Complete(st) <==> forall kid: nat :: Finished(recs, kid)
  {
    ByThread(st);
    forall kid: nat
      ensures (ThreadReported(st, kid) <==> WellReported(recs, kid)) && (ThreadFinished(st, kid) <==> Finished(recs, kid))
    {
      ThreadSays(d, dir, recs, st, kid);
    }
  }

  lemma PopulationSays(d: Setup, pop: Rec, dir: Rec, recs: seq<Rec>, st: State)
    requires SetupIs(pop, dir, d) && CleanRun(d, dir, recs, st)
    ensures Populated(st, d.cpus) <==>
              var helpers := if ManyCpus(pop) then 1 else 0;
              && CreatedAs(recs, 4) == helpers && CreatedAs(recs, 6) == 1 && CreatedAs(recs, 5) == 7
              && Exhausted(recs) == Some(CreatedAs(recs, 7)) && CreatedAs(recs, 8) == helpers
  {
    ManySays(pop, dir, d);
    RolesFit(d, dir, recs, st, 4);
    RolesFit(d, dir, recs, st, 5);
    RolesFit(d, dir, recs, st, 6);
    RolesFit(d, dir, recs, st, 7);
    RolesFit(d, dir, recs, st, 8);
    ExhaustFits(d, dir, recs, st);
  }

  lemma CleanVerdict(recs: seq<Rec>)
    requires Declared(recs) && After(SetupOf(recs), Begin(recs), recs).bad == []
    ensures var st := After(SetupOf(recs), Begin(recs), recs);
            && (FinalsUnique(st) && RolesKnown(st) <==> forall kid: nat :: WellReported(recs, kid))
            && (Complete(st) && Populated(st, SetupOf(recs).cpus) <==> FinishedRun(recs))
  {
    var d, st := SetupOf(recs), After(SetupOf(recs), Begin(recs), recs);
    SetupSays(recs);
    CleanPrefix(d, Begin(recs), recs, 0);
    assert recs[..0] == [];
    EndSays(d, recs[1], recs, st);
    PopulationSays(d, recs[0], recs[1], recs, st);
  }

  /** The replay's verdict, as a condition on the records: nothing is impossible
      exactly when the run can happen, and then nothing is left open exactly when
      every thread is finished and every role has its number of threads. */
  lemma VerdictSays(recs: seq<Rec>)
    ensures Verdict(recs).0 == [] <==> PossibleRun(recs)
    ensures PossibleRun(recs) ==> (Verdict(recs).1 == [] <==> FinishedRun(recs))
  {
    VerdictMeans(recs);
    if Declared(recs) {
      RunSays(recs);
      if After(SetupOf(recs), Begin(recs), recs).bad == [] { CleanVerdict(recs); }
    }
  }
}
