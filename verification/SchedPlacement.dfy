/** In every accepted SCHED-LOCK1 trace each task but 0 has at most one
    placement after every section, though a section re-checks only the tasks it
    touches. */
module SchedPlacement {
  import opened Machine
  import opened SchedTrace

  ghost predicate PlacedAt(cur: seq<Option<nat>>, q: seq<map<nat, nat>>, tid: nat, p: Place) {
    match p
    case OnCpu(c) => c < |cur| && cur[c] == Some(tid)
    case InQueue(c) => c < |q| && tid in q[c]
  }

  lemma {:induction false} CurrentOnExact(cur: seq<Option<nat>>, tid: nat, p: Place)
    ensures p in CurrentOn(cur, tid) <==> p.OnCpu? && p.cpu < |cur| && cur[p.cpu] == Some(tid)
  {
    if cur != [] { CurrentOnExact(cur[..|cur| - 1], tid, p); }
  }

  lemma {:induction false} QueuedOnExact(q: seq<map<nat, nat>>, tid: nat, p: Place)
    ensures p in QueuedOn(q, tid) <==> p.InQueue? && p.cpu < |q| && tid in q[p.cpu]
  {
    if q != [] { QueuedOnExact(q[..|q| - 1], tid, p); }
  }

  lemma PlacementsExact(cur: seq<Option<nat>>, q: seq<map<nat, nat>>, tid: nat, p: Place)
    ensures p in Placements(cur, q, tid) <==> PlacedAt(cur, q, tid, p)
  {
    CurrentOnExact(cur, tid, p);
    QueuedOnExact(q, tid, p);
  }

  lemma {:induction false} CurrentOnSame(cur: seq<Option<nat>>, cur': seq<Option<nat>>, tid: nat)
    requires |cur| == |cur'| && forall c :: 0 <= c < |cur| ==> (cur[c] == Some(tid) <==> cur'[c] == Some(tid))
    ensures CurrentOn(cur, tid) == CurrentOn(cur', tid)
  {
    if cur != [] { CurrentOnSame(cur[..|cur| - 1], cur'[..|cur| - 1], tid); }
  }

  lemma {:induction false} QueuedOnSame(q: seq<map<nat, nat>>, q': seq<map<nat, nat>>, tid: nat)
    requires |q| == |q'| && forall c :: 0 <= c < |q| ==> (tid in q[c] <==> tid in q'[c])
    ensures QueuedOn(q, tid) == QueuedOn(q', tid)
  {
    if q != [] { QueuedOnSame(q[..|q| - 1], q'[..|q| - 1], tid); }
  }

  ghost predicate AllPlacedOnce(st: State) {
    forall tid: nat :: tid != 0 ==> |Placements(st.cur, st.q, tid)| <= 1
  }

  /** A task the section does not touch keeps its placements. */
  lemma UntouchedKeeps(st: State, s: Section, n: nat, tid: nat)
    requires Shaped(st, n) && s.cpu < n && Step(st, s).Success? && tid != 0 && tid !in Touched(s)
    ensures var st' := Step(st, s).value;
            Placements(st'.cur, st'.q, tid) == Placements(st.cur, st.q, tid)
  {
    var st' := Step(st, s).value;
    CurrentOnSame(st.cur, st'.cur, tid);
    QueuedOnSame(st.q, st'.q, tid);
  }

  lemma StepPlacedOnce(st: State, s: Section, n: nat)
    requires Shaped(st, n) && s.cpu < n && Step(st, s).Success? && AllPlacedOnce(st)
    ensures AllPlacedOnce(Step(st, s).value)
  {
    var st' := Step(st, s).value;
    forall tid: nat | tid != 0 ensures |Placements(st'.cur, st'.q, tid)| <= 1 {
      if tid !in Touched(s) { UntouchedKeeps(st, s, n, tid); }
    }
  }

  lemma SnapAllPlacedOnce(cur: seq<Option<nat>>, q: seq<map<nat, nat>>)
    requires SnapPlacedOnce(cur, q)
    ensures AllPlacedOnce(Start(cur, q))
  {
    forall tid: nat | tid != 0 ensures |Placements(cur, q, tid)| <= 1 {
      if Placements(cur, q, tid) != [] { PlacementsExact(cur, q, tid, Placements(cur, q, tid)[0]); }
    }
  }

  lemma {:induction false} ReplayPlacedOnce(st: State, secs: seq<Section>, n: nat)
    requires Shaped(st, n) && CpusBelow(secs, n) && AllPlacedOnce(st) && Replay(st, secs, n).Success?
    ensures AllPlacedOnce(Replay(st, secs, n).value)
  {
    if secs != [] {
      var k := |secs| - 1;
      ReplayPlacedOnce(st, secs[..k], n);
      StepPlacedOnce(Replay(st, secs[..k], n).value, secs[k], n);
    }
  }

  lemma {:induction false} ReplayPrefix(st: State, secs: seq<Section>, n: nat, k: nat)
    requires Shaped(st, n) && CpusBelow(secs, n) && k <= |secs| && Replay(st, secs, n).Success?
    ensures Replay(st, secs[..k], n).Success?
  {
    if Replay(st, secs[..k], n).Failure? { ReplayStops(st, secs, n, k); }
  }

  lemma SamePlace(st: State, tid: nat, p: Place, p': Place)
    requires AllPlacedOnce(st) && tid != 0
    requires PlacedAt(st.cur, st.q, tid, p) && PlacedAt(st.cur, st.q, tid, p')
    ensures p == p'
  {
    PlacementsExact(st.cur, st.q, tid, p);
    PlacementsExact(st.cur, st.q, tid, p');
  }

  /** After every section of an accepted trace a task other than 0 is current on
      at most one CPU or queued on at most one CPU, never both. */
  lemma PlacedOnceThroughout(snap: Snapshot, census: Snapshot, body: seq<Rec>, n: nat, g: Graded, k: nat)
    requires SnapshotFor(snap, n) && SnapshotFor(census, n) && Framed(body, n)
    requires Accepted(snap, census, body, n, g) && k <= |g.secs|
    ensures var st := Replay(Start(snap.cur, snap.q), g.secs[..k], n);
            && st.Success?
            && forall tid: nat, p: Place, p': Place ::
                 tid != 0 && PlacedAt(st.value.cur, st.value.q, tid, p) && PlacedAt(st.value.cur, st.value.q, tid, p') ==> p == p'
  {
    var start := Start(snap.cur, snap.q);
    ReplayPrefix(start, g.secs, n, k);
    SnapAllPlacedOnce(snap.cur, snap.q);
    ReplayPlacedOnce(start, g.secs[..k], n);
    var st := Replay(start, g.secs[..k], n).value;
    forall tid: nat, p: Place, p': Place | tid != 0 && PlacedAt(st.cur, st.q, tid, p) && PlacedAt(st.cur, st.q, tid, p')
      ensures p == p'
    {
      SamePlace(st, tid, p, p');
    }
  }

  /** The census of an accepted trace too places every task at most once. */
  lemma CensusPlacedOnce(snap: Snapshot, census: Snapshot, body: seq<Rec>, n: nat, g: Graded)
    requires SnapshotFor(snap, n) && SnapshotFor(census, n) && Framed(body, n) && Accepted(snap, census, body, n, g)
    ensures SnapPlacedOnce(census.cur, census.q)
  {
    SnapAllPlacedOnce(snap.cur, snap.q);
    ReplayPlacedOnce(Start(snap.cur, snap.q), g.secs, n);
  }
}
