/** Execution ownership and life cycles in every record sequence the KTHREAD1
    replay finds possible. */
module KThreadLife {
  import opened Machine
  import opened KThread
  import opened KThreadMoves

  // ---------------------------------------------------------------- ownership

  /** A CPU's owner is a running thread at home there, and a running thread
      owns its home CPU. */
  ghost predicate OwnersRun(st: State) {
    && (forall c :: c in st.owner ==>
          st.owner[c] in st.th && st.th[st.owner[c]].phase == Running && st.th[st.owner[c]].home == c)
    && (forall kid :: kid in st.th && st.th[kid].phase == Running ==> Owner(st, st.th[kid].home) == Some(kid))
  }

  lemma CreateOwners(d: Setup, st: State, r: Rec, st': State)
    requires OwnersRun(st) && CreateMove(d, st, r, st')
    ensures OwnersRun(st')
  {
  }

  lemma DispatchOwners(st: State, r: Rec, st': State)
    requires OwnersRun(st) && DispatchMove(st, r, st')
    ensures OwnersRun(st')
  {
  }

  lemma SwitchOwners(st: State, r: Rec, st': State)
    requires OwnersRun(st) && SwitchMove(st, r, st')
    ensures OwnersRun(st')
  {
  }

  lemma ReclaimOwners(st: State, r: Rec, st': State)
    requires OwnersRun(st) && ReclaimMove(st, r, st')
    ensures OwnersRun(st')
  {
  }

  lemma MovesOwners(d: Setup, st: State, r: Rec, st': State)
    requires OwnersRun(st) && Moves(d, st, r, st')
    ensures OwnersRun(st')
  {
    if r.kind == Create {
      CreateOwners(d, st, r, st');
    } else if r.kind == Dispatch {
      DispatchOwners(st, r, st');
    } else if r.kind == Switch {
      SwitchOwners(st, r, st');
    } else if r.kind == Reclaim {
      ReclaimOwners(st, r, st');
    }
  }

  lemma OwnersAt(d: Setup, sts: seq<State>, recs: seq<Rec>, i: nat)
    requires Trace(d, sts, recs) && i < |recs| && OwnersRun(sts[i])
    ensures OwnersRun(sts[i + 1])
  {
    assert MovesAt(d, sts, recs, i);
    MovesOwners(d, sts[i], recs[i], sts[i + 1]);
  }

  lemma {:induction false} TraceOwners(d: Setup, sts: seq<State>, recs: seq<Rec>, k: nat)
    requires Trace(d, sts, recs) && OwnersRun(sts[0]) && k <= |recs|
    ensures OwnersRun(sts[k])
  {
    if k > 0 {
      TraceOwners(d, sts, recs, k - 1);
      OwnersAt(d, sts, recs, k - 1);
    }
  }

  /** In a possible sequence, at every prefix, a thread is running exactly when
      it owns its home CPU; hence no CPU runs two threads. */
  lemma RunningIffOwner(recs: seq<Rec>, k: nat, kid: nat, kid': nat)
    requires Possible(recs) && k <= |recs|
    ensures var st := States(recs)[k];
            && (kid in st.th ==> (st.th[kid].phase == Running <==> Owner(st, st.th[kid].home) == Some(kid)))
            && (&& kid in st.th && kid' in st.th && st.th[kid].phase == Running && st.th[kid'].phase == Running
                && st.th[kid].home == st.th[kid'].home
                ==> kid == kid')
  {
    PossibleTrace(recs);
    TraceOwners(SetupOf(recs), States(recs), recs, k);
  }

  // ---------------------------------------------------------------- intervals

  /** A record that opens or closes an execution interval of CPU `c`. */
  predicate Boundary(r: Rec, c: nat) { r.cpu == c && r.kind in {Dispatch, Switch} }

  /** Thread `kid` was dispatched on `c` at `i` and nothing else was dispatched
      or switched there before `k`. */
  ghost predicate OpenSince(recs: seq<Rec>, i: nat, k: nat, c: nat, kid: nat) {
    && i < k <= |recs| && recs[i].kind == Dispatch && recs[i].cpu == c && recs[i].f0 == kid
    && forall j :: i < j < k ==> !Boundary(recs[j], c)
  }

  lemma MovesKeepOwner(d: Setup, st: State, r: Rec, st': State, c: nat)
    requires Moves(d, st, r, st') && !Boundary(r, c) && OwnersRun(st)
    ensures Owner(st', c) == Owner(st, c)
  {
  }

  lemma BoundaryOpens(d: Setup, st: State, r: Rec, st': State, c: nat)
    requires Moves(d, st, r, st') && Boundary(r, c) && c in st'.owner
    ensures r.kind == Dispatch && r.f0 == st'.owner[c]
  {
  }

  lemma OwnerFrom(d: Setup, sts: seq<State>, recs: seq<Rec>, i: nat, c: nat)
    requires Trace(d, sts, recs) && i < |recs| && OwnersRun(sts[i]) && c in sts[i + 1].owner
    ensures if Boundary(recs[i], c) then recs[i].kind == Dispatch && recs[i].f0 == sts[i + 1].owner[c]
            else Owner(sts[i], c) == Owner(sts[i + 1], c)
  {
    assert MovesAt(d, sts, recs, i);
    if Boundary(recs[i], c) {
      BoundaryOpens(d, sts[i], recs[i], sts[i + 1], c);
    } else {
      MovesKeepOwner(d, sts[i], recs[i], sts[i + 1], c);
    }
  }

  lemma {:induction false} OwnerOpened(d: Setup, sts: seq<State>, recs: seq<Rec>, k: nat, c: nat)
    requires Trace(d, sts, recs) && sts[0].owner == map[] && OwnersRun(sts[0]) && k <= |recs| && c in sts[k].owner
    ensures exists i: nat :: OpenSince(recs, i, k, c, sts[k].owner[c])
  {
    assert k > 0;
    var r := recs[k - 1];
    TraceOwners(d, sts, recs, k - 1);
    OwnerFrom(d, sts, recs, k - 1, c);
    if Boundary(r, c) {
      assert OpenSince(recs, k - 1, k, c, sts[k].owner[c]);
    } else {
      OwnerOpened(d, sts, recs, k - 1, c);
      var i: nat :| OpenSince(recs, i, k - 1, c, sts[k].owner[c]);
      assert OpenSince(recs, i, k, c, sts[k].owner[c]);
    }
  }

  lemma InThreadOwns(d: Setup, sts: seq<State>, recs: seq<Rec>, m: nat)
    requires Trace(d, sts, recs) && OwnersRun(sts[0]) && m < |recs| && InThread(recs[m])
    ensures Owner(sts[m], recs[m].cpu) == Some(recs[m].f0) && !Boundary(recs[m], recs[m].cpu)
  {
    TraceOwners(d, sts, recs, m);
    assert MovesAt(d, sts, recs, m);
  }

  /** Every record a thread writes about itself lies after a dispatch of that
      thread on that CPU with no dispatch or switch of the CPU in between. */
  lemma InThreadInsideInterval(recs: seq<Rec>, m: nat)
    requires Possible(recs) && m < |recs| && InThread(recs[m])
    ensures exists i: nat :: OpenSince(recs, i, m, recs[m].cpu, recs[m].f0)
  {
    PossibleTrace(recs);
    InThreadOwns(SetupOf(recs), States(recs), recs, m);
    OwnerOpened(SetupOf(recs), States(recs), recs, m, recs[m].cpu);
  }

  /** From `m` on, the first dispatch or switch on the CPU is the thread's own switch. */
  ghost predicate ClosedAt(recs: seq<Rec>, m: nat, j: nat, c: nat, kid: nat) {
    && m <= j < |recs| && recs[j].kind == Switch && recs[j].cpu == c && recs[j].f0 == kid
    && forall i :: m <= i < j ==> !Boundary(recs[i], c)
  }

  lemma BoundaryCloses(d: Setup, st: State, r: Rec, st': State, c: nat, kid: nat)
    requires Moves(d, st, r, st') && OwnersRun(st) && Boundary(r, c) && Owner(st, c) == Some(kid)
    ensures r.kind == Switch && r.f0 == kid
  {
  }

  lemma OwnerAt(d: Setup, sts: seq<State>, recs: seq<Rec>, m: nat, c: nat, kid: nat)
    requires Trace(d, sts, recs) && m < |recs| && OwnersRun(sts[m]) && Owner(sts[m], c) == Some(kid)
    ensures if Boundary(recs[m], c) then recs[m].kind == Switch && recs[m].f0 == kid else Owner(sts[m + 1], c) == Some(kid)
  {
    assert MovesAt(d, sts, recs, m);
    if Boundary(recs[m], c) {
      BoundaryCloses(d, sts[m], recs[m], sts[m + 1], c, kid);
    } else {
      MovesKeepOwner(d, sts[m], recs[m], sts[m + 1], c);
    }
  }

  lemma {:induction false} OwnerCloses(d: Setup, sts: seq<State>, recs: seq<Rec>, m: nat, c: nat, kid: nat)
    requires Trace(d, sts, recs) && OwnersRun(sts[0]) && m <= |recs|
    requires Owner(sts[m], c) == Some(kid) && Owner(sts[|recs|], c) != Some(kid)
    ensures exists j: nat :: ClosedAt(recs, m, j, c, kid)
    decreases |recs| - m
  {
    assert m < |recs|;
    TraceOwners(d, sts, recs, m);
    OwnerAt(d, sts, recs, m, c, kid);
    if Boundary(recs[m], c) {
      assert ClosedAt(recs, m, m, c, kid);
    } else {
      OwnerCloses(d, sts, recs, m + 1, c, kid);
      var j: nat :| ClosedAt(recs, m + 1, j, c, kid);
      assert ClosedAt(recs, m, j, c, kid);
    }
  }

  lemma CompleteUnowned(st: State, c: nat)
    requires OwnersRun(st) && Complete(st)
    ensures Owner(st, c) == None
  {
  }

  /** When nothing is incomplete, that interval is closed by the same thread's
      own switch. */
  lemma InThreadIntervalCloses(recs: seq<Rec>, m: nat)
    requires Possible(recs) && m < |recs| && InThread(recs[m])
    requires Complete(After(SetupOf(recs), Begin(recs), recs))
    ensures exists j: nat :: ClosedAt(recs, m, j, recs[m].cpu, recs[m].f0)
  {
    PossibleTrace(recs);
    var d, sts := SetupOf(recs), States(recs);
    InThreadOwns(d, sts, recs, m);
    TraceOwners(d, sts, recs, |recs|);
    CompleteUnowned(sts[|recs|], recs[m].cpu);
    OwnerCloses(d, sts, recs, m, recs[m].cpu, recs[m].f0);
  }

  // --------------------------------------------------------------------- words

  datatype Event = Born | Entered | Left(reason: nat) | Freed

  /** The life-cycle event, if any, that a record is for thread `kid`. */
  ghost function EventOf(r: Rec, kid: nat): seq<Event> {
    if r.f0 != kid then []
    else match r.kind
      case Create => [Born]
      case Dispatch => [Entered]
      case Switch => [Left(r.f1)]
      case Reclaim => [Freed]
      case _ => []
  }

  ghost function Word(recs: seq<Rec>, kid: nat): seq<Event> {
    if recs == [] then [] else Word(recs[..|recs| - 1], kid) + EventOf(recs[|recs| - 1], kid)
  }

  datatype Life = Unborn | Alive(phase: Phase) | Broken

  ghost function NextLife(l: Life, e: Event): Life {
    match (l, e)
    case (Unborn, Born) => Alive(Created)
    case (Alive(Created), Entered) => Alive(Running)
    case (Alive(Off), Entered) => Alive(Running)
    case (Alive(Running), Left(reason)) => if reason == 3 then Alive(Exited) else if reason in {1, 2} then Alive(Off) else Broken
    case (Alive(Exited), Freed) => Alive(Reclaimed)
    case _ => Broken
  }

  ghost function LifeOf(w: seq<Event>): Life {
    if w == [] then Unborn else NextLife(LifeOf(w[..|w| - 1]), w[|w| - 1])
  }

  ghost function Tracked(st: State, kid: nat): Life { if kid in st.th then Alive(st.th[kid].phase) else Unborn }

  lemma MovesTrack(d: Setup, st: State, r: Rec, st': State, kid: nat)
    requires Moves(d, st, r, st')
    ensures var ev := EventOf(r, kid);
            Tracked(st', kid) == if ev == [] then Tracked(st, kid) else NextLife(Tracked(st, kid), ev[0])
  {
  }

  lemma LifeAppend(w: seq<Event>, e: Event)
    ensures LifeOf(w + [e]) == NextLife(LifeOf(w), e)
  {
    assert (w + [e])[..|w|] == w;
  }

  lemma {:induction false} WordTracks(d: Setup, sts: seq<State>, recs: seq<Rec>, k: nat, kid: nat)
    requires Trace(d, sts, recs) && sts[0].th == map[] && k <= |recs|
    ensures LifeOf(Word(recs[..k], kid)) == Tracked(sts[k], kid)
  {
    if k > 0 {
      WordTracks(d, sts, recs, k - 1, kid);
      assert MovesAt(d, sts, recs, k - 1);
      MovesTrack(d, sts[k - 1], recs[k - 1], sts[k], kid);
      assert recs[..k][..k - 1] == recs[..k - 1];
      var w, ev := Word(recs[..k - 1], kid), EventOf(recs[k - 1], kid);
      if ev == [] { assert w + ev == w; } else { assert ev == [ev[0]]; LifeAppend(w, ev[0]); }
    }
  }

  /** create, then turns of (dispatch, yield or block switch), up to length `n`. */
  ghost predicate Turns(w: seq<Event>, n: nat) {
    && n <= |w| && (n > 0 ==> w[0] == Born)
    && forall i :: 1 <= i < n ==> if i % 2 == 1 then w[i] == Entered else w[i] in {Left(1), Left(2)}
  }

  /** A whole life: create, turns, one last dispatch, the exit switch, one reclaim. */
  ghost predicate WholeLife(w: seq<Event>) {
    var n := |w|;
    && n >= 4 && n % 2 == 0 && Turns(w, n - 2) && w[n - 3] == Entered && w[n - 2] == Left(3) && w[n - 1] == Freed
  }

  lemma {:induction false} LifeShape(w: seq<Event>)
    ensures LifeOf(w) == Unborn ==> w == []
    ensures LifeOf(w) == Alive(Created) ==> w == [Born]
    ensures LifeOf(w) == Alive(Running) ==> |w| >= 2 && |w| % 2 == 0 && Turns(w, |w|)
    ensures LifeOf(w) == Alive(Off) ==> |w| >= 3 && |w| % 2 == 1 && Turns(w, |w|)
    ensures LifeOf(w) == Alive(Exited) ==> |w| >= 3 && |w| % 2 == 1 && Turns(w, |w| - 1) && w[|w| - 1] == Left(3)
    ensures LifeOf(w) == Alive(Reclaimed) ==> WholeLife(w)
  {
    if w != [] {
      var k := |w| - 1;
      LifeShape(w[..k]);
      assert w == w[..k] + [w[k]];
    }
  }

  /** If nothing is incomplete each thread's word is a whole life. */
  lemma EveryLifeWhole(recs: seq<Rec>, kid: nat)
    requires Possible(recs) && kid in After(SetupOf(recs), Begin(recs), recs).th
    requires Complete(After(SetupOf(recs), Begin(recs), recs))
    ensures WholeLife(Word(recs, kid))
  {
    PossibleTrace(recs);
    WordTracks(SetupOf(recs), States(recs), recs, |recs|, kid);
    assert recs[..|recs|] == recs;
    LifeShape(Word(recs, kid));
  }

  /** At every prefix each thread's word is a prefix of a legal life. */
  lemma NoLifeBroken(recs: seq<Rec>, k: nat, kid: nat)
    requires Possible(recs) && k <= |recs|
    ensures LifeOf(Word(recs[..k], kid)) == Tracked(States(recs)[k], kid)
    ensures LifeOf(Word(recs[..k], kid)) != Broken
  {
    PossibleTrace(recs);
    WordTracks(SetupOf(recs), States(recs), recs, k, kid);
  }
}
