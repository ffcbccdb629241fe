/** Slot reuse, generations and stacks in every record sequence the KTHREAD1
    replay finds possible. */
module KThreadSlots {
  import opened KThread
  import opened KThreadMoves
  import opened Sets

  /** Every created thread is its slot's holder, or reclaimed and outdated by it;
      the director keeps its own slot. */
  ghost predicate SlotsHeld(d: Setup, st: State) {
    && Slot(d.kid) in st.holder && st.holder[Slot(d.kid)] == d.kid
    && (forall s :: s in st.holder ==> Slot(st.holder[s]) == s && (s == Slot(d.kid) || st.holder[s] in st.th))
    && forall kid :: kid in st.th ==> SlotOk(d, st, kid)
  }

  ghost predicate SlotOk(d: Setup, st: State, kid: nat)
    requires kid in st.th
  {
    && KidOk(kid) && Slot(kid) != Slot(d.kid) && Slot(kid) in st.holder
    && (st.holder[Slot(kid)] != kid ==>
          st.th[kid].phase == Reclaimed && Gen(kid) < Gen(st.holder[Slot(kid)]))
    && st.th[kid].low - Slot(kid) * d.stride == d.base && st.th[kid].high - st.th[kid].low == STACK_BYTES
  }

  lemma CreateSlots(d: Setup, st: State, r: Rec, st': State)
    requires SlotsHeld(d, st) && CreateMove(d, st, r, st')
    ensures SlotsHeld(d, st')
  {
    forall kid | kid in st'.th ensures SlotOk(d, st', kid) {
      if kid != r.f0 { assert SlotOk(d, st, kid); }
    }
  }

  lemma PhaseSlots(d: Setup, st: State, kid: nat, t: Thread, st': State)
    requires SlotsHeld(d, st) && kid in st.th && st'.holder == st.holder && st'.th == st.th[kid := t]
    requires t.low == st.th[kid].low && t.high == st.th[kid].high
    requires st.th[kid].phase == Reclaimed ==> t.phase == Reclaimed
    ensures SlotsHeld(d, st')
  {
    forall k | k in st'.th ensures SlotOk(d, st', k) { assert SlotOk(d, st, k); }
  }

  lemma MovesSlots(d: Setup, st: State, r: Rec, st': State)
    requires SlotsHeld(d, st) && Moves(d, st, r, st')
    ensures SlotsHeld(d, st')
  {
    if r.kind == Create {
      CreateSlots(d, st, r, st');
    } else if r.kind in {Dispatch, Switch, Reclaim, Final} {
      PhaseSlots(d, st, r.f0, st'.th[r.f0], st');
    } else {
      forall k | k in st'.th ensures SlotOk(d, st', k) { assert SlotOk(d, st, k); }
    }
  }

  lemma SlotsAt(d: Setup, sts: seq<State>, recs: seq<Rec>, i: nat)
    requires Trace(d, sts, recs) && i < |recs| && SlotsHeld(d, sts[i])
    ensures SlotsHeld(d, sts[i + 1])
  {
    assert MovesAt(d, sts, recs, i);
    MovesSlots(d, sts[i], recs[i], sts[i + 1]);
  }

  lemma {:induction false} TraceSlots(d: Setup, sts: seq<State>, recs: seq<Rec>, k: nat)
    requires Trace(d, sts, recs) && SlotsHeld(d, sts[0]) && k <= |recs|
    ensures SlotsHeld(d, sts[k])
  {
    if k > 0 {
      TraceSlots(d, sts, recs, k - 1);
      SlotsAt(d, sts, recs, k - 1);
    }
  }

  lemma PossibleSlots(recs: seq<Rec>, k: nat)
    requires Possible(recs) && k <= |recs|
    ensures SlotsHeld(SetupOf(recs), States(recs)[k])
  {
    PossibleTrace(recs);
    TraceSlots(SetupOf(recs), States(recs), recs, k);
  }

  ghost predicate Live(st: State, kid: nat) { kid in st.th && st.th[kid].phase != Reclaimed }

  /** At every prefix a slot has at most one unreclaimed incarnation, and none
      in the director's slot. */
  lemma OneIncarnationPerSlot(recs: seq<Rec>, k: nat, kid: nat, kid': nat)
    requires Possible(recs) && k <= |recs|
    requires Live(States(recs)[k], kid) && Live(States(recs)[k], kid') && Slot(kid) == Slot(kid')
    ensures kid == kid' && Slot(kid) != Slot(SetupOf(recs).kid)
  {
    PossibleSlots(recs, k);
    LiveSlotUnique(SetupOf(recs), States(recs)[k], kid, kid');
  }

  lemma LiveSlotUnique(d: Setup, st: State, kid: nat, kid': nat)
    requires SlotsHeld(d, st) && Live(st, kid) && Live(st, kid') && Slot(kid) == Slot(kid')
    ensures kid == kid' && Slot(kid) != Slot(d.kid) && Slot(kid) < CAPACITY
  {
    assert SlotOk(d, st, kid) && SlotOk(d, st, kid');
  }

  // -------------------------------------------------------------- generations

  lemma {:induction false} ThreadsStay(d: Setup, sts: seq<State>, recs: seq<Rec>, i: nat, k: nat, kid: nat)
    requires Trace(d, sts, recs) && i <= k <= |recs| && kid in sts[i].th
    ensures kid in sts[k].th
  {
    if i < k {
      ThreadsStay(d, sts, recs, i, k - 1, kid);
      assert MovesAt(d, sts, recs, k - 1);
    }
  }

  lemma NewestHolds(d: Setup, st: State, kid: nat)
    requires SlotsHeld(d, st) && kid in st.th
    ensures Slot(kid) in st.holder && Gen(kid) <= Gen(st.holder[Slot(kid)])
  {
    assert SlotOk(d, st, kid);
  }

  lemma TraceGenerations(d: Setup, sts: seq<State>, recs: seq<Rec>, i: nat, j: nat)
    requires Trace(d, sts, recs) && SlotsHeld(d, sts[0])
    requires i < j < |recs| && recs[i].kind == Create && recs[j].kind == Create && Slot(recs[i].f0) == Slot(recs[j].f0)
    ensures Gen(recs[i].f0) < Gen(recs[j].f0)
  {
    assert MovesAt(d, sts, recs, i);
    ThreadsStay(d, sts, recs, i + 1, j, recs[i].f0);
    TraceSlots(d, sts, recs, j);
    NewestHolds(d, sts[j], recs[i].f0);
    assert MovesAt(d, sts, recs, j);
  }

  /** Later creations in a slot carry strictly newer generations. */
  lemma GenerationsIncrease(recs: seq<Rec>, i: nat, j: nat)
    requires Possible(recs) && i < j < |recs| && recs[i].kind == Create && recs[j].kind == Create
    requires Slot(recs[i].f0) == Slot(recs[j].f0)
    ensures Gen(recs[i].f0) < Gen(recs[j].f0)
  {
    PossibleTrace(recs);
    TraceGenerations(SetupOf(recs), States(recs), recs, i, j);
  }

  // ------------------------------------------------------------------- counts

  ghost function SlotsUsed(kids: set<nat>): set<nat> { set kid | kid in kids :: Slot(kid) }

  lemma {:induction false} InjectiveSlots(kids: set<nat>)
    requires forall a, b :: a in kids && b in kids && Slot(a) == Slot(b) ==> a == b
    ensures |SlotsUsed(kids)| == |kids|
  {
    if kids != {} {
      var x :| x in kids;
      var rest := kids - {x};
      InjectiveSlots(rest);
      assert SlotsUsed(kids) == SlotsUsed(rest) + {Slot(x)};
      assert Slot(x) !in SlotsUsed(rest);
    } else {
      assert SlotsUsed(kids) == {};
    }
  }

  ghost function Below(n: nat): (s: set<nat>)
    ensures |s| == n && forall i: nat :: i in s <==> i < n
  {
    if n == 0 then {} else Below(n - 1) + {n - 1}
  }

  ghost function LiveThreads(st: State): set<nat> { set kid | kid in st.th && Live(st, kid) }

  lemma SlotCount(kids: set<nat>, taken: nat, slots: nat)
    requires taken < slots
    requires forall a, b :: a in kids && b in kids && Slot(a) == Slot(b) ==> a == b
    requires forall a :: a in kids ==> Slot(a) < slots && Slot(a) != taken
    ensures |kids| <= slots - 1
  {
    InjectiveSlots(kids);
    var free := Below(slots) - {taken};
    assert |free| == slots - 1;
    assert SlotsUsed(kids) <= free;
    SubsetSize(SlotsUsed(kids), free);
  }

  lemma LiveBoundHeld(d: Setup, st: State)
    requires SlotsHeld(d, st) && KidOk(d.kid)
    ensures |LiveThreads(st)| <= CAPACITY - 1
  {
    var live := LiveThreads(st);
    forall a, b | a in live && b in live && Slot(a) == Slot(b) ensures a == b { LiveSlotUnique(d, st, a, b); }
    forall a | a in live ensures Slot(a) < CAPACITY && Slot(a) != Slot(d.kid) { LiveSlotUnique(d, st, a, a); }
    SlotCount(live, Slot(d.kid), CAPACITY);
  }

  /** At every prefix at most 31 created threads are live: the director holds
      one of the 32 slots. */
  lemma LiveBound(recs: seq<Rec>, k: nat)
    requires Possible(recs) && k <= |recs|
    ensures |LiveThreads(States(recs)[k])| <= CAPACITY - 1
  {
    PossibleSlots(recs, k);
    PossibleTrace(recs);
    DirectorKid(recs);
    LiveBoundHeld(SetupOf(recs), States(recs)[k]);
  }

  lemma DirectorKid(recs: seq<Rec>)
    requires Declared(recs) && Begin(recs).bad == []
    ensures KidOk(SetupOf(recs).kid) && recs[1].f3 - recs[1].f2 == STACK_BYTES && recs[1].f4 in {STACK_BYTES, KSTACK_STRIDE}
    ensures SetupOf(recs).stride == recs[1].f4 && SetupOf(recs).base == recs[1].f2 - Slot(recs[1].f0) * recs[1].f4
  {
  }

  // ------------------------------------------------------------------- stacks

  /** Two slots' stacks share no byte, whichever permitted stride is used. */
  lemma StacksApart(base: int, stride: nat, a: nat, b: nat)
    requires stride in {STACK_BYTES, KSTACK_STRIDE} && a < b
    ensures base + a * stride + STACK_BYTES <= base + b * stride
  {
    assert (a + 1) * stride <= b * stride;
  }

  ghost predicate Apart(low: int, high: int, low': int, high': int) { high <= low' || high' <= low }

  /** At every prefix the stacks of all live threads and of the director are
      pairwise disjoint. */
  lemma StacksDisjoint(recs: seq<Rec>, k: nat, kid: nat, kid': nat)
    requires Possible(recs) && k <= |recs| && Live(States(recs)[k], kid)
    ensures var t := States(recs)[k].th[kid];
            && Apart(t.low, t.high, recs[1].f2, recs[1].f3)
            && (Live(States(recs)[k], kid') && kid != kid' ==>
                  Apart(t.low, t.high, States(recs)[k].th[kid'].low, States(recs)[k].th[kid'].high))
  {
    var d, st := SetupOf(recs), States(recs)[k];
    PossibleTrace(recs);
    PossibleSlots(recs, k);
    DirectorKid(recs);
    assert SlotOk(d, st, kid);
    SlotStacks(d, Slot(kid), Slot(d.kid));
    if Live(st, kid') && kid != kid' {
      assert SlotOk(d, st, kid');
      if Slot(kid) == Slot(kid') { OneIncarnationPerSlot(recs, k, kid, kid'); }
      SlotStacks(d, Slot(kid), Slot(kid'));
    }
  }

  lemma SlotStacks(d: Setup, a: nat, b: nat)
    requires d.stride in {STACK_BYTES, KSTACK_STRIDE} && a != b
    ensures Apart(d.base + a * d.stride, d.base + a * d.stride + STACK_BYTES, d.base + b * d.stride, d.base + b * d.stride + STACK_BYTES)
  {
    if a < b { StacksApart(d.base, d.stride, a, b); } else { StacksApart(d.base, d.stride, b, a); }
  }
}
