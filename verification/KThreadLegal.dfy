/** Which kernel-thread records are impossible where they stand, by scanning the
    records before them: what the replay flags, said without its state. */
module KThreadLegal {
  import opened Machine
  import opened Bits
  import opened KThread

  // ------------------------------------------------------------------- scanning

  /** The record that created the thread. */
  function CreateOf(recs: seq<Rec>, kid: nat): Option<Rec> {
    if recs == [] then None
    else
      var r := recs[|recs| - 1];
      if r.kind == Create && r.f0 == kid then Some(r) else CreateOf(recs[..|recs| - 1], kid)
  }

  /** Where the thread's last lifecycle record left it. */
  function PhaseOf(recs: seq<Rec>, kid: nat): Option<Phase> {
    if recs == [] then None
    else
      var r := recs[|recs| - 1];
      if r.f0 == kid && r.kind == Create then Some(Created)
      else if r.f0 == kid && r.kind == Dispatch then Some(Running)
      else if r.f0 == kid && r.kind == Switch then Some(if r.f1 == 3 then Exited else Off)
      else if r.f0 == kid && r.kind == Reclaim then Some(Reclaimed)
      else PhaseOf(recs[..|recs| - 1], kid)
  }

  /** The thread a CPU's last dispatch put there, unless it was switched out. */
  function OwnerOf(recs: seq<Rec>, cpu: nat): Option<nat> {
    if recs == [] then None
    else
      var r := recs[|recs| - 1];
      if r.cpu == cpu && r.kind == Dispatch then Some(r.f0)
      else if r.cpu == cpu && r.kind == Switch then None
      else OwnerOf(recs[..|recs| - 1], cpu)
  }

  /** The dispatch ordinal of a CPU's last record. */
  function OrdOf(recs: seq<Rec>, cpu: nat): Option<nat> {
    if recs == [] then None
    else
      var r := recs[|recs| - 1];
      if r.cpu == cpu then Some(r.ord) else OrdOf(recs[..|recs| - 1], cpu)
  }

  /** The first record of the CPU's current ordinal is a dispatch. */
  predicate OpenedByDispatch(recs: seq<Rec>, cpu: nat) {
    recs != [] &&
    var r, front := recs[|recs| - 1], recs[..|recs| - 1];
    if r.cpu == cpu && OrdOf(front, cpu) != Some(r.ord) then r.kind == Dispatch else OpenedByDispatch(front, cpu)
  }

  /** The last thread created in the slot; the director sits in its own. */
  function SlotUser(recs: seq<Rec>, director: nat, slot: nat): Option<nat> {
    if recs == [] then (if director % 0x1_0000 == slot then Some(director) else None)
    else
      var r := recs[|recs| - 1];
      if r.kind == Create && r.f0 % 0x1_0000 == slot then Some(r.f0) else SlotUser(recs[..|recs| - 1], director, slot)
  }

  /** The last thread created as the waker. */
  function WakerOf(recs: seq<Rec>): Option<nat> {
    if recs == [] then None
    else
      var r := recs[|recs| - 1];
      if r.kind == Create && r.f1 == 4 then Some(r.f0) else WakerOf(recs[..|recs| - 1])
  }

  /** What the director's final records say of a thread, in order. */
  function FinalsOf(recs: seq<Rec>, kid: nat): seq<nat> {
    if recs == [] then []
    else
      var r := recs[|recs| - 1];
      FinalsOf(recs[..|recs| - 1], kid) + if r.kind == Final && r.f0 == kid then [r.f1] else []
  }

  function DispatchesOf(recs: seq<Rec>, kid: nat): nat {
    if recs == [] then 0
    else
      var r := recs[|recs| - 1];
      DispatchesOf(recs[..|recs| - 1], kid) + if r.kind == Dispatch && r.f0 == kid then 1 else 0
  }

  /** How many threads were created with this role. */
  function CreatedAs(recs: seq<Rec>, role: nat): nat {
    if recs == [] then 0
    else
      var r := recs[|recs| - 1];
      CreatedAs(recs[..|recs| - 1], role) + if r.kind == Create && r.f1 == role then 1 else 0
  }

  /** The holder count the last exhaustion record declares. */
  function Exhausted(recs: seq<Rec>): Option<nat> {
    if recs == [] then None
    else
      var r := recs[|recs| - 1];
      if r.kind == Exhaust then Some(r.f0) else Exhausted(recs[..|recs| - 1])
  }

  // ------------------------------------------------------------------- the rules

  function When(wrong: bool, fault: Fault): seq<Fault> { if wrong then [fault] else [] }

  /** Bits 16 to 47 of a thread id. */
  function Generation(kid: nat): nat { (kid / 0x1_0000) % 0x1_0000_0000 }

  /** Tag 0x4B54 on top, a slot below 32, and a generation other than zero. */
  predicate WellFormed(kid: nat) {
    (kid / 0x1_0000_0000_0000) % 0x1_0000 == 0x4B54 && kid % 0x1_0000 < 32 && Generation(kid) != 0
  }

  predicate Backwards(before: seq<Rec>, r: Rec) { OrdOf(before, r.cpu).Some? && r.ord < OrdOf(before, r.cpu).value }

  predicate NewInterval(before: seq<Rec>, r: Rec) { !Backwards(before, r) && OrdOf(before, r.cpu) != Some(r.ord) }

  function OwnerNow(before: seq<Rec>, r: Rec): Option<nat> { if NewInterval(before, r) then None else OwnerOf(before, r.cpu) }

  /** The interval the record lies in was opened by a dispatch. */
  predicate Dispatched(before: seq<Rec>, r: Rec) {
    if NewInterval(before, r) then r.kind == Dispatch else OpenedByDispatch(before, r.cpu)
  }

  function OrdinalFaults(before: seq<Rec>, r: Rec): seq<Fault> {
    if Backwards(before, r) then [OrdBackwards]
    else if NewInterval(before, r) then When(OwnerOf(before, r.cpu).Some?, IntervalEndedWithoutSwitch)
    else When(r.kind == Dispatch, DispatchWithoutNewInterval)
  }

  predicate UserKind(kind: Kind) { kind == UWork || kind == UArm || kind == UTimeout }

  /** The director's record is `dir`: its thread is `dir.f0`, its CPU `dir.f1`. */
  function ResidentFaults(dir: Rec, before: seq<Rec>, r: Rec): seq<Fault> {
    if r.kind == Dispatch then When(r.res != r.f0, DispatchResidentMismatch)
    else if r.res == 0 then When(r.kind != Switch && r.kind != Reclaim && !UserKind(r.kind), RecordWithoutResident)
    else if r.res == dir.f0 then When(r.cpu != dir.f1 || Dispatched(before, r), DirectorOutsideItsInterval)
    else When(OwnerNow(before, r) != Some(r.res), ResidentNotTheOwner)
  }

  predicate ByDirector(dir: Rec, r: Rec) { r.cpu == dir.f1 && r.res == dir.f0 }

  /** The stack stride the director declared, or 16 KiB. */
  function Stride(dir: Rec): nat { if dir.f4 == 0x100_0000 then 0x100_0000 else 0x4000 }

  /** The slot's stack is 16 KiB and stands one stride per slot from the director's. */
  predicate StackFits(dir: Rec, kid: nat, low: nat, high: nat) {
    && high - low == 0x4000
    && low - (kid % 0x1_0000) * Stride(dir) == dir.f2 - (dir.f0 % 0x1_0000) * Stride(dir)
  }

  function SlotFaultsOf(dir: Rec, before: seq<Rec>, kid: nat): seq<Fault> {
    var prev := SlotUser(before, dir.f0, kid % 0x1_0000);
    if prev.None? then []
    else if prev.value == dir.f0 then [CreateInDirectorSlot]
    else if PhaseOf(before, prev.value) != Some(Reclaimed) then [SlotReusedBeforeReclaim]
    else When(Generation(kid) <= Generation(prev.value), GenerationNotNewer)
  }

  function CreateFaults(pop: Rec, dir: Rec, before: seq<Rec>, r: Rec, acc: seq<Fault>): seq<Fault> {
    var all := acc + When(!ByDirector(dir, r), CreateNotByDirector);
    if !WellFormed(r.f0) then all + [CreateIdentity]
    else if CreateOf(before, r.f0).Some? then all + [CreateDuplicate]
    else all + When(!(r.f2 < 8 && Bit(pop.f0, r.f2)), CreateHome) + When(!StackFits(dir, r.f0, r.f3, r.f4), CreateStack)
         + SlotFaultsOf(dir, before, r.f0)
  }

  function DispatchFaults(before: seq<Rec>, r: Rec, acc: seq<Fault>): seq<Fault> {
    acc + When(PhaseOf(before, r.f0) != Some(Created) && PhaseOf(before, r.f0) != Some(Off), DispatchWhile)
  }

  function SwitchFaults(before: seq<Rec>, r: Rec, acc: seq<Fault>): seq<Fault> {
    var all := acc + When(OwnerNow(before, r) != Some(r.f0), SwitchByNonOwner);
    if PhaseOf(before, r.f0) != Some(Running) then all + [SwitchWhile]
    else all + When(r.f2 != 0, SwitchedOutWhileResident) + When(r.f1 < 1 || r.f1 > 3, SwitchReason)
  }

  function ReclaimFaults(before: seq<Rec>, r: Rec, acc: seq<Fault>): seq<Fault> {
    var all := acc + When(OwnerNow(before, r).Some? || r.res != 0, ReclaimedWhileOwned);
    if PhaseOf(before, r.f0) != Some(Exited) then all + [ReclaimedBeforeSwitchAway]
    else all + When(r.f1 != r.f0 % 0x1_0000 || r.f2 != Generation(r.f0), ReclaimIdentity)
  }

  function LifeFaults(before: seq<Rec>, r: Rec, acc: seq<Fault>): seq<Fault> {
    var made := CreateOf(before, r.f0);
    if made.None? then acc + [UnknownThread]
    else
      var role := if r.kind == Dispatch then r.f1 else if r.kind == Switch then r.f3 else r.f4;
      var all := acc + When(r.cpu != made.value.f2, OffHome) + When(role != made.value.f1, RoleChanged);
      if r.kind == Dispatch then DispatchFaults(before, r, all)
      else if r.kind == Switch then SwitchFaults(before, r, all)
      else ReclaimFaults(before, r, all)
  }

  /** Records of a thread about its own running. */
  predicate SelfWritten(r: Rec) {
    || r.kind == Run || r.kind == Yield || r.kind == Decide || r.kind == Resched || r.kind == Blip
    || r.kind == Woken || r.kind == Irq || (r.kind == Probe && r.f1 == 4)
  }

  function SelfFaults(before: seq<Rec>, r: Rec, acc: seq<Fault>): seq<Fault> {
    var made := CreateOf(before, r.f0);
    if made.None? then acc + [UnknownThread]
    else if PhaseOf(before, r.f0) != Some(Running) || r.cpu != made.value.f2 || r.res != r.f0 then acc + [OutsideRunningInterval]
    else acc + When(r.kind == Blip && (r.f1 != r.f0 % 0x1_0000 || r.f2 != Generation(r.f0)), BlipIdentity)
  }

  function ProbeFaults(dir: Rec, before: seq<Rec>, r: Rec, acc: seq<Fault>): seq<Fault> {
    var all := acc + When(!ByDirector(dir, r), ProbeNotByDirector);
    if r.f1 == 1 || r.f1 == 2 || r.f1 == 5 || r.f1 == 6 then all + When(r.f0 != dir.f0, ProbeNotByDirector)
    else if r.f1 == 3 then all + When(PhaseOf(before, r.f0) != Some(Reclaimed), StaleProbe)
    else all + [ProbeKind]
  }

  /** The waker, running on its home CPU, issues the record. */
  predicate IssuedByWaker(before: seq<Rec>, r: Rec) {
    var waker := WakerOf(before);
    && waker.Some? && r.res == waker.value && PhaseOf(before, waker.value) == Some(Running)
    && CreateOf(before, waker.value).Some? && r.cpu == CreateOf(before, waker.value).value.f2
  }

  function WakeFaults(dir: Rec, before: seq<Rec>, r: Rec, acc: seq<Fault>): seq<Fault> {
    var made := CreateOf(before, r.f0);
    acc + When(r.res != dir.f0 && !IssuedByWaker(before, r), IssuerNotRunning)
    + When(made.None? || made.value.f1 != 3, SubjectNotASleeper)
  }

  function UserFaults(pop: Rec, before: seq<Rec>, r: Rec, acc: seq<Fault>): seq<Fault> {
    acc + When(r.f0 != 9600 || !(r.cpu < 8 && Bit(pop.f0, r.cpu)), UserIdentity)
    + When(r.res != 0 || OwnerNow(before, r).Some?, UserWhileOwned)
  }

  function FinalFaults(dir: Rec, before: seq<Rec>, r: Rec, acc: seq<Fault>): seq<Fault> {
    var made, all := CreateOf(before, r.f0), acc + When(!ByDirector(dir, r), NotByDirector);
    if made.None? then all + [FinalUnknown]
    else
      all + When(r.f1 == 0 && PhaseOf(before, r.f0) != Some(Exited) && PhaseOf(before, r.f0) != Some(Reclaimed), FinalGone)
      + When(r.f2 != made.value.f1, RoleChanged)
  }

  function KindFaults(pop: Rec, dir: Rec, before: seq<Rec>, r: Rec, acc: seq<Fault>): seq<Fault> {
    if r.kind == Pop || r.kind == Director then acc
    else if r.kind == Create then CreateFaults(pop, dir, before, r, acc)
    else if r.kind == Dispatch || r.kind == Switch || r.kind == Reclaim then LifeFaults(before, r, acc)
    else if SelfWritten(r) then SelfFaults(before, r, acc)
    else if r.kind == Probe then ProbeFaults(dir, before, r, acc)
    else if r.kind == WakeReq || r.kind == Wake then WakeFaults(dir, before, r, acc)
    else if UserKind(r.kind) then UserFaults(pop, before, r, acc)
    else if r.kind == Final then FinalFaults(dir, before, r, acc)
    else if r.kind == Exhaust || r.kind == User then acc + When(!ByDirector(dir, r), NotByDirector)
    else acc + [UnexpectedRecord]
  }

  /** Everything record `r` is flagged for after the unflagged records `before`. */
  function RecordFaults(pop: Rec, dir: Rec, before: seq<Rec>, r: Rec): seq<Fault> {
    KindFaults(pop, dir, before, r, OrdinalFaults(before, r) + ResidentFaults(dir, before, r))
  }

  /** What the two declarations themselves are flagged for. */
  function DeclarationFaults(pop: Rec, dir: Rec): seq<Fault> {
    When(pop.f2 != 32 || pop.f3 != 0x4000 || pop.f4 != 5, ContractMismatch)
    + When(!WellFormed(dir.f0) || dir.cpu != dir.f1 || dir.f3 - dir.f2 != 0x4000, DirectorIdentity)
    + When(dir.f4 != 0x4000 && dir.f4 != 0x100_0000, DirectorStackStride)
  }
}
