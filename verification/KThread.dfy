/** The KTHREAD1 checker's replay: every lifecycle record of every kernel thread
    in sequence order, flagging every impossible event. */
module KThread {
  import opened Machine
  import opened Bits

  const CAPACITY: nat := 32
  const STACK_BYTES: nat := 16384
  const ROUNDS: nat := 5
  const KSTACK_STRIDE: nat := 0x100_0000
  const KID_TAG: nat := 0x4B54
  const P_TID: nat := 9600

  const CYCLES: nat := 6

  const R_SLEEPER: nat := 3
  const R_WAKER: nat := 4
  const R_BLIP: nat := 5
  const R_LOSTWAKE: nat := 6
  const R_HOLDER: nat := 7
  const R_PLAINHOLD: nat := 8
  const KNOWN_ROLES: set<nat> := {2, 3, 4, 5, 6, 7, 8}

  datatype Kind =
    | Pop | Director | Create | Dispatch | Switch | Reclaim
    | Run | Yield | Decide | Resched | Blip | Woken | Irq
    | Probe | WakeReq | Wake | UWork | UArm | UTimeout | Exhaust | Final | User | Unknown

  datatype Rec = Rec(no: nat, kind: Kind, cpu: nat, f0: nat, f1: nat, f2: nat, f3: nat, f4: nat, res: nat, ord: nat)

  const USER_KINDS: set<Kind> := {UWork, UArm, UTimeout}
  const IN_THREAD: set<Kind> := {Run, Yield, Decide, Resched, Blip, Woken, Irq}

  // A thread id packs a tag, a generation and a slot.

  function Slot(kid: nat): nat { kid % 0x1_0000 }

  function Gen(kid: nat): nat { (kid / 0x1_0000) % 0x1_0000_0000 }

  predicate KidOk(kid: nat) {
    (kid / 0x1_0000_0000_0000) % 0x1_0000 == KID_TAG && Slot(kid) < CAPACITY && Gen(kid) != 0
  }

  datatype Phase = Created | Running | Off | Exited | Reclaimed

  /** `low` and `high` are the stack the create record declared. */
  datatype Thread = Thread(role: nat, home: nat, phase: Phase, finals: seq<nat>, runs: nat, low: nat, high: nat)

  datatype Fault =
    | ContractMismatch | DirectorIdentity | DirectorStackStride
    | OrdBackwards | IntervalEndedWithoutSwitch | DispatchWithoutNewInterval
    | DispatchResidentMismatch | RecordWithoutResident | DirectorOutsideItsInterval | ResidentNotTheOwner
    | CreateNotByDirector | CreateIdentity | CreateDuplicate | CreateHome | CreateStack
    | CreateInDirectorSlot | SlotReusedBeforeReclaim | GenerationNotNewer
    | UnknownThread | OffHome | RoleChanged | DispatchWhile | SwitchByNonOwner | SwitchWhile
    | SwitchedOutWhileResident | SwitchReason | ReclaimedWhileOwned | ReclaimedBeforeSwitchAway | ReclaimIdentity
    | OutsideRunningInterval | BlipIdentity | ProbeNotByDirector | StaleProbe | ProbeKind
    | IssuerNotRunning | SubjectNotASleeper | UserIdentity | UserWhileOwned
    | NotByDirector | FinalUnknown | FinalGone | UnexpectedRecord
    | FinalDuplicate(kid: nat) | UnknownRole(kid: nat) | PopulationNotFirst | DirectorNotDeclared

  /** An obligation the records do not discharge. */
  datatype Gap =
    | FinalMissing(kid: nat) | LeftBehind(kid: nat) | NotReclaimed(kid: nat) | NeverDispatched(kid: nat)
    | WakerPopulation | LostWakePopulation | CyclePopulation | HolderPopulation | PlainHolderPopulation

  /** What the run declares about itself: its CPUs and its director thread. */
  datatype Setup = Setup(cpus: set<nat>, kid: nat, home: nat, base: int, stride: nat)

  /** `order` lists the threads as they were created. */
  datatype State = State(th: map<nat, Thread>, order: seq<nat>, holder: map<nat, nat>, owner: map<nat, nat>, curOrd: map<nat, nat>,
                         recorded: set<nat>, waker: Option<nat>, exhaust: Option<nat>, bad: seq<Fault>)

  function Flag(st: State, wrong: bool, fault: Fault): State {
    if wrong then st.(bad := st.bad + [fault]) else st
  }

  function Owner(st: State, c: nat): Option<nat> { if c in st.owner then Some(st.owner[c]) else None }

  function WithPhase(st: State, kid: nat, phase: Phase): State
    requires kid in st.th
  {
    st.(th := st.th[kid := st.th[kid].(phase := phase)])
  }

  // ------------------------------------------------------ ordinals, residency

  /** When a CPU's dispatch ordinal moves on, its owner must have left already. */
  function Ordinal(st: State, r: Rec): State {
    var c := r.cpu;
    if c in st.curOrd && r.ord < st.curOrd[c] then Flag(st, true, OrdBackwards)
    else if c !in st.curOrd || r.ord != st.curOrd[c] then
      Flag(st, c in st.owner, IntervalEndedWithoutSwitch)
        .(owner := st.owner - {c}, curOrd := st.curOrd[c := r.ord],
          recorded := if r.kind == Dispatch then st.recorded + {c} else st.recorded - {c})
    else Flag(st, r.kind == Dispatch, DispatchWithoutNewInterval)
  }

  /** The resident stamp must fit the owner, the director or an idle CPU. */
  function Residency(d: Setup, st: State, r: Rec): State {
    if r.kind == Dispatch then Flag(st, r.res != r.f0, DispatchResidentMismatch)
    else if r.res == 0 then Flag(st, r.kind !in {Switch, Reclaim} + USER_KINDS, RecordWithoutResident)
    else if r.res == d.kid then Flag(st, r.cpu != d.home || r.cpu in st.recorded, DirectorOutsideItsInterval)
    else Flag(st, Owner(st, r.cpu) != Some(r.res), ResidentNotTheOwner)
  }

  // ---------------------------------------------------------------- lifecycle

  function SlotFaults(d: Setup, st: State, kid: nat): State {
    if Slot(kid) !in st.holder then st
    else
      var prev := st.holder[Slot(kid)];
      if prev == d.kid then Flag(st, true, CreateInDirectorSlot)
      else if prev in st.th && st.th[prev].phase != Reclaimed then Flag(st, true, SlotReusedBeforeReclaim)
      else Flag(st, Gen(kid) <= Gen(prev), GenerationNotNewer)
  }

  function Register(st: State, kid: nat, t: Thread): State {
    st.(holder := st.holder[Slot(kid) := kid], th := st.th[kid := t], order := st.order + [kid],
        waker := if t.role == R_WAKER then Some(kid) else st.waker)
  }

  function OnCreate(d: Setup, st0: State, r: Rec): State {
    var kid := r.f0;
    var st := Flag(st0, r.cpu != d.home || r.res != d.kid, CreateNotByDirector);
    if !KidOk(kid) then Flag(st, true, CreateIdentity)
    else if kid in st.th then Flag(st, true, CreateDuplicate)
    else Placed(d, st, r)
  }

  /** The new thread's home, stack and slot. */
  function Placed(d: Setup, st: State, r: Rec): State {
    var kid, role, home, low, high := r.f0, r.f1, r.f2, r.f3, r.f4;
    var st1 := Flag(st, home !in d.cpus, CreateHome);
    var st2 := Flag(st1, high - low != STACK_BYTES || low - Slot(kid) * d.stride != d.base, CreateStack);
    Register(SlotFaults(d, st2, kid), kid, Thread(role, home, Created, [], 0, low, high))
  }

  function OnDispatch(st: State, r: Rec): State
    requires r.f0 in st.th
  {
    var t := st.th[r.f0];
    if t.phase !in {Created, Off} then Flag(st, true, DispatchWhile)
    else st.(th := st.th[r.f0 := t.(phase := Running, runs := t.runs + 1)], owner := st.owner[r.cpu := r.f0])
  }

  function OnSwitch(st0: State, r: Rec): State
    requires r.f0 in st0.th
  {
    var owned := Owner(st0, r.cpu) == Some(r.f0);
    var st := Flag(st0, !owned, SwitchByNonOwner).(owner := if owned then st0.owner - {r.cpu} else st0.owner);
    if st.th[r.f0].phase != Running then Flag(st, true, SwitchWhile)
    else
      var st1 := Flag(st, r.f2 != 0, SwitchedOutWhileResident);
      var st2 := Flag(st1, r.f1 !in {1, 2, 3}, SwitchReason);
      WithPhase(st2, r.f0, if r.f1 == 3 then Exited else Off)
  }

  function OnReclaim(st0: State, r: Rec): State
    requires r.f0 in st0.th
  {
    var st := Flag(st0, r.cpu in st0.owner || r.res != 0, ReclaimedWhileOwned);
    if st.th[r.f0].phase != Exited then Flag(st, true, ReclaimedBeforeSwitchAway)
    else
      WithPhase(Flag(st, r.f1 != Slot(r.f0) || r.f2 != Gen(r.f0), ReclaimIdentity), r.f0, Reclaimed)
  }

  function OnLifecycle(st0: State, r: Rec): State
    requires r.kind in {Dispatch, Switch, Reclaim}
  {
    if r.f0 !in st0.th then Flag(st0, true, UnknownThread)
    else
      var t := st0.th[r.f0];
      var st := Flag(st0, r.cpu != t.home, OffHome);
      var roleField := if r.kind == Dispatch then r.f1 else if r.kind == Switch then r.f3 else r.f4;
      var st1 := Flag(st, roleField != t.role, RoleChanged);
      if r.kind == Dispatch then OnDispatch(st1, r)
      else if r.kind == Switch then OnSwitch(st1, r)
      else OnReclaim(st1, r)
  }

  /** A record the thread wrote about itself. */
  predicate InThread(r: Rec) { r.kind in IN_THREAD || (r.kind == Probe && r.f1 == 4) }

  function OnInThread(st: State, r: Rec): State {
    if r.f0 !in st.th then Flag(st, true, UnknownThread)
    else if st.th[r.f0].phase != Running || r.cpu != st.th[r.f0].home || r.res != r.f0
    then Flag(st, true, OutsideRunningInterval)
    else Flag(st, r.kind == Blip && (r.f1 != Slot(r.f0) || r.f2 != Gen(r.f0)), BlipIdentity)
  }

  function OnProbe(d: Setup, st0: State, r: Rec): State {
    var st := Flag(st0, r.cpu != d.home || r.res != d.kid, ProbeNotByDirector);
    if r.f1 in {1, 2, 5, 6} then Flag(st, r.f0 != d.kid, ProbeNotByDirector)
    else if r.f1 == 3 then Flag(st, r.f0 !in st.th || st.th[r.f0].phase != Reclaimed, StaleProbe)
    else Flag(st, true, ProbeKind)
  }

  function OnWake(d: Setup, st0: State, r: Rec): State {
    var byWaker := && st0.waker.Some? && r.res == st0.waker.value && st0.waker.value in st0.th
                   && r.cpu == st0.th[st0.waker.value].home && st0.th[st0.waker.value].phase == Running;
    var st := Flag(st0, r.res != d.kid && !byWaker, IssuerNotRunning);
    Flag(st, r.f0 !in st.th || st.th[r.f0].role != R_SLEEPER, SubjectNotASleeper)
  }

  function OnUser(d: Setup, st0: State, r: Rec): State {
    var st := Flag(st0, r.f0 != P_TID || r.cpu !in d.cpus, UserIdentity);
    Flag(st, r.res != 0 || r.cpu in st.owner, UserWhileOwned)
  }

  function OnDirectorOnly(d: Setup, st0: State, r: Rec): State {
    var st := Flag(st0, r.cpu != d.home || r.res != d.kid, NotByDirector);
    if r.kind == Final then
      if r.f0 !in st.th then Flag(st, true, FinalUnknown)
      else
        var t := st.th[r.f0];
        var st1 := Flag(st, r.f1 == 0 && t.phase !in {Exited, Reclaimed}, FinalGone);
        Flag(st1, r.f2 != t.role, RoleChanged).(th := st.th[r.f0 := t.(finals := t.finals + [r.f1])])
    else if r.kind == Exhaust then st.(exhaust := Some(r.f0))
    else st
  }

  function ByKind(d: Setup, st: State, r: Rec): State {
    if r.kind in {Pop, Director} then st
    else if r.kind == Create then OnCreate(d, st, r)
    else if r.kind in {Dispatch, Switch, Reclaim} then OnLifecycle(st, r)
    else if InThread(r) then OnInThread(st, r)
    else if r.kind == Probe then OnProbe(d, st, r)
    else if r.kind in {WakeReq, Wake} then OnWake(d, st, r)
    else if r.kind in USER_KINDS then OnUser(d, st, r)
    else if r.kind in {Exhaust, Final, User} then OnDirectorOnly(d, st, r)
    else Flag(st, true, UnexpectedRecord)
  }

  function Step(d: Setup, st: State, r: Rec): State {
    ByKind(d, Residency(d, Ordinal(st, r), r), r)
  }

  // ------------------------------------------------------------------- replay

  /** The population record comes first, the director's second, each once. */
  predicate Declared(recs: seq<Rec>) { OnlyAt(recs, Pop, 0) && OnlyAt(recs, Director, 1) }

  /** The one record of this kind has sequence number `k`. */
  predicate OnlyAt(recs: seq<Rec>, kind: Kind, k: nat) {
    k < |recs| && recs[k].kind == kind && recs[k].no == k && forall i :: 0 <= i < |recs| && i != k ==> recs[i].kind != kind
  }

  function StrideOf(declared: nat): nat { if declared in {STACK_BYTES, KSTACK_STRIDE} then declared else STACK_BYTES }

  function SetupOf(recs: seq<Rec>): Setup
    requires Declared(recs)
  {
    var pop, d := recs[0], recs[1];
    Setup((set c | 0 <= c < 8 && Bit(pop.f0, c)), d.f0, d.f1, d.f2 - Slot(d.f0) * StrideOf(d.f4), StrideOf(d.f4))
  }

  function Begin(recs: seq<Rec>): State
    requires Declared(recs)
  {
    var pop, d := recs[0], recs[1];
    var st := State(map[], [], map[Slot(d.f0) := d.f0], map[], map[], {}, None, None, []);
    var st1 := Flag(st, pop.f2 != CAPACITY || pop.f3 != STACK_BYTES || pop.f4 != ROUNDS, ContractMismatch);
    var st2 := Flag(st1, !KidOk(d.f0) || d.cpu != d.f1 || d.f3 - d.f2 != STACK_BYTES, DirectorIdentity);
    Flag(st2, d.f4 !in {STACK_BYTES, KSTACK_STRIDE}, DirectorStackStride)
  }

  function After(d: Setup, st: State, recs: seq<Rec>): State {
    if recs == [] then st else Step(d, After(d, st, recs[..|recs| - 1]), recs[|recs| - 1])
  }

  predicate RolesKnown(st: State) { forall kid :: kid in st.th ==> st.th[kid].role in KNOWN_ROLES }

  predicate FinalsUnique(st: State) { forall kid :: kid in st.th ==> |st.th[kid].finals| <= 1 }

  /** Each thread's life is over and its one final report says so. */
  predicate Complete(st: State) {
    forall kid :: kid in st.th ==>
      && |st.th[kid].finals| != 0 && st.th[kid].finals[0] == 0 && st.th[kid].phase == Reclaimed
      && (|st.th[kid].finals| == 1 ==> st.th[kid].runs != 0)
  }

  /** Nothing in the sequence is an impossible event. */
  predicate Possible(recs: seq<Rec>) {
    && Declared(recs)
    && After(SetupOf(recs), Begin(recs), recs).bad == []
    && FinalsUnique(After(SetupOf(recs), Begin(recs), recs))
    && RolesKnown(After(SetupOf(recs), Begin(recs), recs))
  }
}
