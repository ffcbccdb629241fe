/** Which sections can be replayed, and where a replay ends, by scanning the
    records: the scheduler's state is never mentioned. */
module SchedReplay {
  import opened Machine
  import opened SchedTrace
  import opened SchedPlacement
  import opened SchedInstalls
  import opened SchedRecords

  // ------------------------------------------------------------------- scanning

  function TaskOf(v: nat): Option<nat> { if v == 0 then None else Some(v - 1) }

  /** CPU `c`'s current task before record `k`: what its last SEC record left. */
  function CurrentAt(snap: Snapshot, body: seq<Rec>, k: nat, c: nat): Option<nat>
    requires k <= |body| && c < |snap.cur|
  {
    if k == 0 then snap.cur[c]
    else if body[k - 1].kind == Sec && body[k - 1].cpu == c then TaskOf(body[k - 1].f2)
    else CurrentAt(snap, body, k - 1, c)
  }

  /** The priority of the task in CPU `c`'s queue before record `k`: what the last
      ADD or REM record of it says. */
  function QueuedAt(snap: Snapshot, body: seq<Rec>, k: nat, c: nat, tid: nat): Option<nat>
    requires k <= |body| && c < |snap.q|
  {
    if k == 0 then (if tid in snap.q[c] then Some(snap.q[c][tid]) else None)
    else
      var r := body[k - 1];
      if r.kind == Add && r.cpu == c && r.f1 == tid then Some(r.f2)
      else if r.kind == Rem && r.cpu == c && r.f1 == tid then None
      else QueuedAt(snap, body, k - 1, c, tid)
  }

  /** A SEC record that changes the current task. */
  predicate Changes(r: Rec) { r.kind == Sec && r.f1 != r.f2 }

  /** One that leaves the CPU a task, and not task 0. */
  predicate Makes(r: Rec) { Changes(r) && r.f2 >= 2 }

  /** The number of the installation in force on CPU `c` before record `k`. */
  function InForceOn(body: seq<Rec>, k: nat, c: nat): Option<nat>
    requires k <= |body|
  {
    if k == 0 then None
    else if Changes(body[k - 1]) && body[k - 1].cpu == c then (if body[k - 1].f2 >= 2 then Some(body[k - 1].no) else None)
    else InForceOn(body, k - 1, c)
  }

  // ------------------------------------------------------------------- the rules

  /** Before record `k` the task stands at this place. */
  predicate StandsAt(snap: Snapshot, body: seq<Rec>, k: nat, tid: nat, p: Place)
    requires k <= |body| && |snap.cur| == |snap.q|
  {
    match p
    case OnCpu(c) => c < |snap.cur| && CurrentAt(snap, body, k, c) == Some(tid)
    case InQueue(c) => c < |snap.q| && QueuedAt(snap, body, k, c, tid).Some?
  }

  ghost predicate StandsTwice(snap: Snapshot, body: seq<Rec>, k: nat, tid: nat)
    requires k <= |body| && |snap.cur| == |snap.q|
  {
    exists p: Place, p': Place :: p != p' && StandsAt(snap, body, k, tid, p) && StandsAt(snap, body, k, tid, p')
  }

  predicate RemovedBy(body: seq<Rec>, m: nat, tid: nat)
    requires m < |body| && HasMembers(body, m)
  {
    exists i :: m + body[m].f3 < i < Behind(body, m) && body[i].f1 == tid
  }

  /** A queue change that cannot be: removing what is not queued, queuing what is. */
  ghost predicate BadMember(snap: Snapshot, body: seq<Rec>, m: nat)
    requires m < |body| && HasMembers(body, m) && body[m].cpu < |snap.q|
  {
    exists i :: m < i < Behind(body, m) &&
      (body[i].kind == Rem) == QueuedAt(snap, body, m, body[m].cpu, body[i].f1).None?
  }

  /** The task stands on a CPU before the section, or in a queue after it. */
  predicate StandsAcross(snap: Snapshot, body: seq<Rec>, m: nat, tid: nat, p: Place)
    requires m < |body| && HasMembers(body, m) && |snap.cur| == |snap.q|
  {
    StandsAt(snap, body, if p.OnCpu? then m else Behind(body, m), tid, p)
  }

  ghost predicate StandsElsewhere(snap: Snapshot, body: seq<Rec>, m: nat, tid: nat)
    requires m < |body| && HasMembers(body, m) && |snap.cur| == |snap.q|
  {
    exists p: Place :: StandsAcross(snap, body, m, tid, p)
  }

  /** The task made current is not taken from this queue and stands elsewhere. */
  ghost predicate TakenElsewhere(snap: Snapshot, body: seq<Rec>, m: nat)
    requires m < |body| && HasMembers(body, m) && |snap.cur| == |snap.q|
  {
    && Makes(body[m]) && !RemovedBy(body, m, body[m].f2 - 1)
    && StandsElsewhere(snap, body, m, body[m].f2 - 1)
  }

  /** The UNINSTALL record is there exactly when the section ends what is in
      force, and then names that installation and its task. */
  predicate EndFits(body: seq<Rec>, m: nat)
    requires m < |body|
  {
    var inForce := InForceOn(body, m, body[m].cpu);
    if inForce.Some? && Changes(body[m])
    then EndFollows(body, m) && Some(body[Behind(body, m)].f1) == TaskOf(body[m].f1) && body[Behind(body, m)].f2 == inForce.value
    else !EndFollows(body, m)
  }

  /** The section speaks of the task. */
  ghost predicate Mentions(body: seq<Rec>, m: nat, tid: nat)
    requires m < |body| && HasMembers(body, m)
  {
    || TaskOf(body[m].f1) == Some(tid) || TaskOf(body[m].f2) == Some(tid)
    || exists i :: m < i < Behind(body, m) && body[i].f1 == tid
  }

  /** A task it speaks of, other than 0, stands in two places after it. */
  ghost predicate MentionedTwice(snap: Snapshot, body: seq<Rec>, m: nat)
    requires m < |body| && HasMembers(body, m) && |snap.cur| == |snap.q|
  {
    exists tid: nat :: tid != 0 && Mentions(body, m, tid) && StandsTwice(snap, body, Behind(body, m), tid)
  }

  /** Why the section at `m` cannot follow the records before it, if it cannot. */
  ghost function ReplayFault(snap: Snapshot, body: seq<Rec>, m: nat): Option<Obligation>
    requires m < |body| && HasMembers(body, m) && |snap.cur| == |snap.q| && body[m].cpu < |snap.q|
  {
    if TaskOf(body[m].f1) != CurrentAt(snap, body, m, body[m].cpu) then Some(Natural)
    else if BadMember(snap, body, m) then Some(Natural)
    else if TakenElsewhere(snap, body, m) then Some(Natural)
    else if !EndFits(body, m) then Some(Installation)
    else if MentionedTwice(snap, body, m) then Some(Natural)
    else None
  }

  // ----------------------------------------------------- scans across records

  lemma {:induction false} CurrentSkip(snap: Snapshot, body: seq<Rec>, a: nat, b: nat, c: nat)
    requires NoSecIn(body, a, b) && c < |snap.cur|
    ensures CurrentAt(snap, body, b, c) == CurrentAt(snap, body, a, c)
    decreases b - a
  {
    if a < b { CurrentSkip(snap, body, a, b - 1, c); }
  }

  lemma {:induction false} InForceSkip(body: seq<Rec>, a: nat, b: nat, c: nat)
    requires NoSecIn(body, a, b)
    ensures InForceOn(body, b, c) == InForceOn(body, a, c)
    decreases b - a
  {
    if a < b { InForceSkip(body, a, b - 1, c); }
  }

  /** No ADD or REM record of this task on this CPU. */
  predicate Unmoved(body: seq<Rec>, a: nat, b: nat, c: nat, tid: nat) {
    a <= b <= |body| && forall i :: a <= i < b ==> !((body[i].kind == Add || body[i].kind == Rem) && body[i].cpu == c && body[i].f1 == tid)
  }

  lemma {:induction false} QueuedSkip(snap: Snapshot, body: seq<Rec>, a: nat, b: nat, c: nat, tid: nat)
    requires Unmoved(body, a, b, c, tid) && c < |snap.q|
    ensures QueuedAt(snap, body, b, c, tid) == QueuedAt(snap, body, a, c, tid)
    decreases b - a
  {
    if a < b { QueuedSkip(snap, body, a, b - 1, c, tid); }
  }

  /** The section's members are its own and name each task once. */
  ghost predicate OwnMembers(body: seq<Rec>, m: nat) {
    && m < |body| && body[m].kind == Sec && HasMembers(body, m)
    && (forall i :: m < i < Behind(body, m) ==> body[i].cpu == body[m].cpu)
    && forall i, j :: m < i < j < Behind(body, m) ==> body[i].f1 != body[j].f1
  }

  lemma SectionNoSec(body: seq<Rec>, m: nat)
    requires OwnMembers(body, m)
    ensures m < Behind(body, m) <= |body| && NoSecIn(body, m + 1, Behind(body, m))
  {
  }

  lemma CurrentAfter(snap: Snapshot, body: seq<Rec>, m: nat, c: nat)
    requires OwnMembers(body, m) && c < |snap.cur|
    ensures Behind(body, m) <= |body|
    ensures CurrentAt(snap, body, Behind(body, m), c)
            == if c == body[m].cpu then TaskOf(body[m].f2) else CurrentAt(snap, body, m, c)
  {
    SectionNoSec(body, m);
    CurrentSkip(snap, body, m + 1, Behind(body, m), c);
  }

  lemma InForceAfter(body: seq<Rec>, m: nat, c: nat)
    requires OwnMembers(body, m)
    ensures Behind(body, m) <= |body|
    ensures InForceOn(body, Behind(body, m), c)
            == if c == body[m].cpu && Changes(body[m]) then (if body[m].f2 >= 2 then Some(body[m].no) else None)
               else InForceOn(body, m, c)
  {
    SectionNoSec(body, m);
    InForceSkip(body, m + 1, Behind(body, m), c);
  }

  lemma OthersUnmoved(body: seq<Rec>, m: nat, i: nat)
    requires OwnMembers(body, m) && m < i < Behind(body, m)
    ensures Unmoved(body, m, i, body[m].cpu, body[i].f1) && Unmoved(body, i + 1, Behind(body, m), body[m].cpu, body[i].f1)
  {
    forall j | m < j < Behind(body, m) && j != i ensures body[j].f1 != body[i].f1 {
      assert if i < j then body[i].f1 != body[j].f1 else body[j].f1 != body[i].f1;
    }
  }

  lemma QueuedMember(snap: Snapshot, body: seq<Rec>, m: nat, i: nat)
    requires OwnMembers(body, m) && m < i < Behind(body, m) && body[m].cpu < |snap.q|
    ensures Behind(body, m) <= |body|
    ensures QueuedAt(snap, body, Behind(body, m), body[m].cpu, body[i].f1) == if body[i].kind == Add then Some(body[i].f2) else None
    ensures QueuedAt(snap, body, i, body[m].cpu, body[i].f1) == QueuedAt(snap, body, m, body[m].cpu, body[i].f1)
  {
    OthersUnmoved(body, m, i);
    QueuedSkip(snap, body, m, i, body[m].cpu, body[i].f1);
    QueuedSkip(snap, body, i + 1, Behind(body, m), body[m].cpu, body[i].f1);
    assert body[i].cpu == body[m].cpu && (body[i].kind == Add || body[i].kind == Rem);
  }

  lemma QueuedStays(snap: Snapshot, body: seq<Rec>, m: nat, c: nat, tid: nat)
    requires OwnMembers(body, m) && c < |snap.q|
    requires c != body[m].cpu || forall i :: m < i < Behind(body, m) ==> body[i].f1 != tid
    ensures Behind(body, m) <= |body| && QueuedAt(snap, body, Behind(body, m), c, tid) == QueuedAt(snap, body, m, c, tid)
  {
    QueuedSkip(snap, body, m, Behind(body, m), c, tid);
  }

  // -------------------------------------------------------------- state and scans

  ghost function QueueOf(q: map<nat, nat>, tid: nat): Option<nat> { if tid in q then Some(q[tid]) else None }

  /** The state is what the scans find before record `k`. */
  ghost predicate FitsAt(snap: Snapshot, body: seq<Rec>, k: nat, st: State, n: nat) {
    && k <= |body| && |snap.cur| == |snap.q| == n && Shaped(st, n)
    && (forall c :: 0 <= c < n ==> st.cur[c] == CurrentAt(snap, body, k, c))
    && (forall c, tid: nat :: 0 <= c < n ==> QueueOf(st.q[c], tid) == QueuedAt(snap, body, k, c, tid))
    && forall c :: 0 <= c < n ==> st.inForce[c] == InForceOn(body, k, c)
  }

  lemma RemMeans(body: seq<Rec>, m: nat, s: Section, tid: nat)
    requires Describes(body, m, s)
    ensures tid in s.rem <==> RemovedBy(body, m, tid)
  {
  }

  lemma AddMeans(body: seq<Rec>, m: nat, s: Section, tid: nat)
    requires Describes(body, m, s)
    ensures tid in s.add <==> exists i :: m < i <= m + body[m].f3 && body[i].f1 == tid
    ensures forall i :: m < i <= m + body[m].f3 && body[i].f1 == tid ==> tid in s.add && s.add[tid] == body[i].f2
  {
    forall i | m < i <= m + body[m].f3 && body[i].f1 == tid ensures tid in s.add && s.add[tid] == body[i].f2 {
      assert AddListed(body, m, tid, body[i].f2);
      assert Maps(s.add, tid, body[i].f2);
    }
    if tid in s.add {
      assert Maps(s.add, tid, s.add[tid]);
      assert AddListed(body, m, tid, s.add[tid]);
    }
  }

  /** The queue a section leaves is what the scan finds behind its members. */
  lemma QueueMeans(snap: Snapshot, body: seq<Rec>, m: nat, st: State, n: nat, s: Section, tid: nat)
    requires FitsAt(snap, body, m, st, n) && OwnMembers(body, m) && Describes(body, m, s) && body[m].cpu < n
    ensures Behind(body, m) <= |body|
    ensures QueueOf((st.q[s.cpu] - s.rem) + s.add, tid) == QueuedAt(snap, body, Behind(body, m), s.cpu, tid)
  {
    RemMeans(body, m, s, tid);
    AddMeans(body, m, s, tid);
    assert QueueOf(st.q[s.cpu], tid) == QueuedAt(snap, body, m, s.cpu, tid);
    if i :| m < i < Behind(body, m) && body[i].f1 == tid {
      QueuedMember(snap, body, m, i);
    } else {
      QueuedStays(snap, body, m, s.cpu, tid);
    }
  }

  lemma MembersFit(snap: Snapshot, body: seq<Rec>, m: nat, st: State, n: nat, s: Section)
    requires FitsAt(snap, body, m, st, n) && OwnMembers(body, m) && Describes(body, m, s) && body[m].cpu < n
    ensures Queued(st.q[s.cpu], s) == if BadMember(snap, body, m) then Failure(Natural) else Success((st.q[s.cpu] - s.rem) + s.add)
  {
    var q := st.q[s.cpu];
    forall tid: nat ensures tid in q <==> QueuedAt(snap, body, m, s.cpu, tid).Some? {
      assert QueueOf(q, tid) == QueuedAt(snap, body, m, s.cpu, tid);
    }
    if BadMember(snap, body, m) {
      var i :| m < i < Behind(body, m) && (body[i].kind == Rem) == QueuedAt(snap, body, m, s.cpu, body[i].f1).None?;
      RemMeans(body, m, s, body[i].f1);
      AddMeans(body, m, s, body[i].f1);
      if body[i].kind == Rem {
        assert body[i].f1 in s.rem && body[i].f1 !in q;
      } else {
        assert body[i].f1 in s.add && body[i].f1 in q && body[i].f1 !in s.rem;
        assert body[i].f1 in (q.Keys - s.rem) * s.add.Keys;
      }
    } else {
      forall tid | tid in s.rem ensures tid in q {
        RemMeans(body, m, s, tid);
        var i :| m + body[m].f3 < i < Behind(body, m) && body[i].f1 == tid;
        assert body[i].kind == Rem;
      }
      forall tid | tid in s.add ensures tid !in q {
        AddMeans(body, m, s, tid);
        var i :| m < i <= m + body[m].f3 && body[i].f1 == tid;
        assert body[i].kind == Add;
      }
    }
  }

  // ------------------------------------------------------------------- placements

  ghost predicate NoRepeats(ps: seq<Place>) { forall i, j :: 0 <= i < j < |ps| ==> ps[i] != ps[j] }

  lemma {:induction false} CurrentOnce(cur: seq<Option<nat>>, tid: nat)
    ensures NoRepeats(CurrentOn(cur, tid))
  {
    if cur != [] {
      var c := |cur| - 1;
      CurrentOnce(cur[..c], tid);
      CurrentOnExact(cur[..c], tid, OnCpu(c));
    }
  }

  lemma {:induction false} QueuedOnce(q: seq<map<nat, nat>>, tid: nat)
    ensures NoRepeats(QueuedOn(q, tid))
  {
    if q != [] {
      var c := |q| - 1;
      QueuedOnce(q[..c], tid);
      QueuedOnExact(q[..c], tid, InQueue(c));
    }
  }

  lemma PlacementsOnce(cur: seq<Option<nat>>, q: seq<map<nat, nat>>, tid: nat)
    ensures NoRepeats(Placements(cur, q, tid))
  {
    CurrentOnce(cur, tid);
    QueuedOnce(q, tid);
    forall i, j | 0 <= i < |CurrentOn(cur, tid)| && 0 <= j < |QueuedOn(q, tid)|
      ensures CurrentOn(cur, tid)[i] != QueuedOn(q, tid)[j]
    {
      CurrentOnExact(cur, tid, CurrentOn(cur, tid)[i]);
      QueuedOnExact(q, tid, QueuedOn(q, tid)[j]);
    }
  }

  ghost predicate TwoPlaces(cur: seq<Option<nat>>, q: seq<map<nat, nat>>, tid: nat) {
    exists p: Place, p': Place :: p != p' && PlacedAt(cur, q, tid, p) && PlacedAt(cur, q, tid, p')
  }

  /** More than one placement listed is more than one place. */
  lemma PlacedMore(cur: seq<Option<nat>>, q: seq<map<nat, nat>>, tid: nat)
    ensures |Placements(cur, q, tid)| > 1 <==> TwoPlaces(cur, q, tid)
  {
    var ps := Placements(cur, q, tid);
    if |ps| > 1 {
      PlacementsOnce(cur, q, tid);
      PlacementsExact(cur, q, tid, ps[0]);
      PlacementsExact(cur, q, tid, ps[1]);
    }
    if TwoPlaces(cur, q, tid) {
      var p, p' :| p != p' && PlacedAt(cur, q, tid, p) && PlacedAt(cur, q, tid, p');
      PlacementsExact(cur, q, tid, p);
      PlacementsExact(cur, q, tid, p');
    }
  }

  // ------------------------------------------------------------------ one section

  /** The state the section would leave: its CPU's current task and queue. */
  ghost predicate LeftBy(st: State, s: Section, cur: seq<Option<nat>>, q: seq<map<nat, nat>>) {
    s.cpu < |st.cur| == |st.q| && cur == st.cur[s.cpu := s.after] && q == st.q[s.cpu := (st.q[s.cpu] - s.rem) + s.add]
  }

  lemma LeftQueued(snap: Snapshot, body: seq<Rec>, m: nat, st: State, n: nat, s: Section, q: seq<map<nat, nat>>, c: nat, tid: nat)
    requires FitsAt(snap, body, m, st, n) && OwnMembers(body, m) && Describes(body, m, s) && body[m].cpu < n
    requires LeftBy(st, s, st.cur[s.cpu := s.after], q) && c < n
    ensures Behind(body, m) <= |body| && QueueOf(q[c], tid) == QueuedAt(snap, body, Behind(body, m), c, tid)
  {
    if c == s.cpu {
      QueueMeans(snap, body, m, st, n, s, tid);
    } else {
      QueuedStays(snap, body, m, c, tid);
      assert QueueOf(st.q[c], tid) == QueuedAt(snap, body, m, c, tid);
    }
  }

  lemma LeftPlaces(snap: Snapshot, body: seq<Rec>, m: nat, st: State, n: nat, s: Section,
                   cur: seq<Option<nat>>, q: seq<map<nat, nat>>, tid: nat, p: Place)
    requires FitsAt(snap, body, m, st, n) && OwnMembers(body, m) && Describes(body, m, s) && body[m].cpu < n && LeftBy(st, s, cur, q)
    ensures Behind(body, m) <= |body|
    ensures PlacedAt(cur, q, tid, p) <==> StandsAt(snap, body, Behind(body, m), tid, p)
    ensures PlacedAt(st.cur, q, tid, p) <==>
              if p.OnCpu? then StandsAt(snap, body, m, tid, p) else StandsAt(snap, body, Behind(body, m), tid, p)
  {
    match p
    case OnCpu(c) => if c < n { CurrentAfter(snap, body, m, c); }
    case InQueue(c) => if c < n { LeftQueued(snap, body, m, st, n, s, q, c, tid); }
  }

  lemma AcrossMeans(snap: Snapshot, body: seq<Rec>, m: nat, st: State, n: nat, s: Section, q: seq<map<nat, nat>>, tid: nat)
    requires FitsAt(snap, body, m, st, n) && OwnMembers(body, m) && Describes(body, m, s) && body[m].cpu < n
    requires LeftBy(st, s, st.cur[s.cpu := s.after], q)
    ensures Placements(st.cur, q, tid) != [] <==> StandsElsewhere(snap, body, m, tid)
  {
    if Placements(st.cur, q, tid) != [] {
      var p := Placements(st.cur, q, tid)[0];
      PlacementsExact(st.cur, q, tid, p);
      LeftPlaces(snap, body, m, st, n, s, st.cur[s.cpu := s.after], q, tid, p);
      assert StandsAcross(snap, body, m, tid, p);
    }
    if p: Place :| StandsAcross(snap, body, m, tid, p) {
      LeftPlaces(snap, body, m, st, n, s, st.cur[s.cpu := s.after], q, tid, p);
      PlacementsExact(st.cur, q, tid, p);
    }
  }

  lemma RestoresCase(snap: Snapshot, body: seq<Rec>, m: nat, s: Section, cur: seq<Option<nat>>, q: seq<map<nat, nat>>)
    requires m < |body| && body[m].kind == Sec && HasMembers(body, m) && |snap.cur| == |snap.q|
    requires Task(body[m].f1, s.before) && Task(body[m].f2, s.after)
    requires body[m].f2 > 0 ==>
               && (body[m].f2 - 1 in s.rem <==> RemovedBy(body, m, body[m].f2 - 1))
               && (Placements(cur, q, body[m].f2 - 1) != [] <==> StandsElsewhere(snap, body, m, body[m].f2 - 1))
    ensures RestoresPlaced(cur, q, s) <==> TakenElsewhere(snap, body, m)
  {
  }

  lemma RestoresMeans(snap: Snapshot, body: seq<Rec>, m: nat, st: State, n: nat, s: Section, q: seq<map<nat, nat>>)
    requires FitsAt(snap, body, m, st, n) && OwnMembers(body, m) && Describes(body, m, s) && body[m].cpu < n
    requires LeftBy(st, s, st.cur[s.cpu := s.after], q)
    ensures RestoresPlaced(st.cur, q, s) <==> TakenElsewhere(snap, body, m)
  {
    if body[m].f2 > 0 {
      RemMeans(body, m, s, body[m].f2 - 1);
      AcrossMeans(snap, body, m, st, n, s, q, body[m].f2 - 1);
    }
    RestoresCase(snap, body, m, s, st.cur, q);
  }

  lemma EndMeans(snap: Snapshot, body: seq<Rec>, m: nat, st: State, n: nat, s: Section)
    requires FitsAt(snap, body, m, st, n) && InForceCurrent(st) && Describes(body, m, s) && body[m].cpu < n
    requires st.cur[s.cpu] == s.before
    ensures EndRecorded(st, s) <==> EndFits(body, m)
  {
    assert st.inForce[s.cpu] == InForceOn(body, m, s.cpu);
  }

  lemma TouchedMeans(body: seq<Rec>, m: nat, s: Section, tid: nat)
    requires Describes(body, m, s)
    ensures tid in Touched(s) <==> tid != 0 && Mentions(body, m, tid)
  {
    RemMeans(body, m, s, tid);
    AddMeans(body, m, s, tid);
  }

  lemma TwiceMeans(snap: Snapshot, body: seq<Rec>, m: nat, st: State, n: nat, s: Section,
                   cur: seq<Option<nat>>, q: seq<map<nat, nat>>, tid: nat)
    requires FitsAt(snap, body, m, st, n) && OwnMembers(body, m) && Describes(body, m, s) && body[m].cpu < n && LeftBy(st, s, cur, q)
    ensures Behind(body, m) <= |body|
    ensures |Placements(cur, q, tid)| > 1 <==> StandsTwice(snap, body, Behind(body, m), tid)
  {
    PlacedMore(cur, q, tid);
    forall p: Place ensures PlacedAt(cur, q, tid, p) <==> StandsAt(snap, body, Behind(body, m), tid, p) {
      LeftPlaces(snap, body, m, st, n, s, cur, q, tid, p);
    }
  }

  lemma PlacedTwiceMeans(snap: Snapshot, body: seq<Rec>, m: nat, st: State, n: nat, s: Section,
                         cur: seq<Option<nat>>, q: seq<map<nat, nat>>)
    requires FitsAt(snap, body, m, st, n) && OwnMembers(body, m) && Describes(body, m, s) && body[m].cpu < n && LeftBy(st, s, cur, q)
    ensures PlacedTwice(cur, q, s) <==> MentionedTwice(snap, body, m)
  {
    forall tid: nat
      ensures tid in Touched(s) <==> tid != 0 && Mentions(body, m, tid)
      ensures |Placements(cur, q, tid)| > 1 <==> StandsTwice(snap, body, Behind(body, m), tid)
    {
      TouchedMeans(body, m, s, tid);
      TwiceMeans(snap, body, m, st, n, s, cur, q, tid);
    }
  }

  lemma LeftFits(snap: Snapshot, body: seq<Rec>, m: nat, st: State, n: nat, s: Section)
    requires FitsAt(snap, body, m, st, n) && InForceCurrent(st) && OwnMembers(body, m) && Describes(body, m, s) && body[m].cpu < n
    requires Step(st, s).Success?
    ensures FitsAt(snap, body, Behind(body, m), Step(st, s).value, n)
  {
    var st' := Step(st, s).value;
    var e := Behind(body, m);
    StepShaped(st, s, n);
    StepShape(st, s, n);
    assert LeftBy(st, s, st'.cur, st'.q);
    forall c | 0 <= c < n ensures st'.cur[c] == CurrentAt(snap, body, e, c) && st'.inForce[c] == InForceOn(body, e, c) {
      CurrentAfter(snap, body, m, c);
      InForceAfter(body, m, c);
    }
    forall c, tid: nat | 0 <= c < n ensures QueueOf(st'.q[c], tid) == QueuedAt(snap, body, e, c, tid) {
      LeftQueued(snap, body, m, st, n, s, st'.q, c, tid);
    }
  }

  /** A section replays exactly when its records may follow those before it, and
      fails for the reason the records give. */
  lemma StepMeans(snap: Snapshot, body: seq<Rec>, m: nat, st: State, n: nat, s: Section)
    requires FitsAt(snap, body, m, st, n) && InForceCurrent(st) && OwnMembers(body, m) && Describes(body, m, s) && body[m].cpu < n
    ensures ReplayFault(snap, body, m) == if Step(st, s).Failure? then Some(Step(st, s).error) else None
    ensures Step(st, s).Success? ==> FitsAt(snap, body, Behind(body, m), Step(st, s).value, n)
  {
    if st.cur[s.cpu] == s.before {
      MembersFit(snap, body, m, st, n, s);
      if !BadMember(snap, body, m) {
        var q := st.q[s.cpu := (st.q[s.cpu] - s.rem) + s.add];
        RestoresMeans(snap, body, m, st, n, s, q);
        EndMeans(snap, body, m, st, n, s);
        PlacedTwiceMeans(snap, body, m, st, n, s, st.cur[s.cpu := s.after], q);
      }
    }
    if Step(st, s).Success? { LeftFits(snap, body, m, st, n, s); }
  }

  // -------------------------------------------------------------- all the sections

  ghost predicate Ascending(ps: seq<nat>) { forall a, b :: 0 <= a < b < |ps| ==> ps[a] < ps[b] }

  ghost predicate AllOwn(body: seq<Rec>, ps: seq<nat>) { forall j :: 0 <= j < |ps| ==> OwnMembers(body, ps[j]) }

  ghost predicate AllPlaces(body: seq<Rec>, ps: seq<nat>) {
    forall i: nat :: i < |body| && body[i].kind == Sec ==> i in ps
  }

  ghost predicate NoStray(body: seq<Rec>) {
    forall i: nat :: i < |body| && (body[i].kind == Add || body[i].kind == Rem) ==> Covered(body, i)
  }

  /** The places of the SEC records, in order; no member stands outside the
      sections that start there. */
  ghost predicate Laid(body: seq<Rec>, ps: seq<nat>) {
    Ascending(ps) && AllOwn(body, ps) && AllPlaces(body, ps) && NoStray(body)
  }

  /** No record from `a` up to `b` bears on the replay. */
  ghost predicate Quiet(body: seq<Rec>, a: nat, b: nat) {
    NoSecIn(body, a, b) && forall i :: a <= i < b ==> body[i].kind != Add && body[i].kind != Rem
  }

  lemma QuietFits(snap: Snapshot, body: seq<Rec>, a: nat, b: nat, st: State, n: nat)
    requires Quiet(body, a, b) && FitsAt(snap, body, a, st, n)
    ensures FitsAt(snap, body, b, st, n)
  {
    forall c | 0 <= c < n ensures st.cur[c] == CurrentAt(snap, body, b, c) && st.inForce[c] == InForceOn(body, b, c) {
      CurrentSkip(snap, body, a, b, c);
      InForceSkip(body, a, b, c);
    }
    forall c, tid: nat | 0 <= c < n ensures QueueOf(st.q[c], tid) == QueuedAt(snap, body, b, c, tid) {
      QueuedSkip(snap, body, a, b, c, tid);
      assert QueueOf(st.q[c], tid) == QueuedAt(snap, body, a, c, tid);
    }
  }

  /** Where the next section starts once `k` are done. */
  ghost function NextPlace(body: seq<Rec>, ps: seq<nat>, k: nat): nat
    requires k <= |ps|
  {
    if k == |ps| then |body| else ps[k]
  }

  lemma EndsBefore(body: seq<Rec>, m: nat, p: nat)
    requires OwnMembers(body, m) && m < p < |body| && body[p].kind == Sec
    ensures SectionEnd(body, m) <= p
  {
  }

  lemma PlacesApart(body: seq<Rec>, ps: seq<nat>, j: nat, k: nat)
    requires Ascending(ps) && AllOwn(body, ps) && j < k < |ps|
    ensures OwnMembers(body, ps[j]) && ps[k] < |body| && SectionEnd(body, ps[j]) <= ps[k]
  {
    assert OwnMembers(body, ps[k]);
    EndsBefore(body, ps[j], ps[k]);
  }

  /** A SEC record before the next section's is that of a section already done. */
  lemma SecBefore(body: seq<Rec>, ps: seq<nat>, k: nat, i: nat) returns (j: nat)
    requires Ascending(ps) && AllPlaces(body, ps) && k <= |ps| && i < |body| && body[i].kind == Sec && i < NextPlace(body, ps, k)
    ensures j < k && ps[j] == i
  {
    j :| 0 <= j < |ps| && ps[j] == i;
  }

  lemma SecDone(body: seq<Rec>, ps: seq<nat>, k: nat, i: nat)
    requires Ascending(ps) && AllPlaces(body, ps) && k <= |ps| && i < |body| && body[i].kind == Sec && i < NextPlace(body, ps, k)
    ensures 0 < k && i <= ps[k - 1]
  {
    var j := SecBefore(body, ps, k, i);
  }

  /** The section a member belongs to. */
  lemma SectionOf(body: seq<Rec>, i: nat) returns (m: nat)
    requires NoStray(body) && i < |body| && (body[i].kind == Add || body[i].kind == Rem)
    ensures m < i && body[m].kind == Sec && i < Behind(body, m)
  {
    assert Covered(body, i);
    m :| m < i && m < |body| && body[m].kind == Sec && i < SectionEnd(body, m);
  }

  lemma MemberDone(body: seq<Rec>, ps: seq<nat>, k: nat, i: nat)
    requires Laid(body, ps) && k <= |ps| && i < |body| && i < NextPlace(body, ps, k)
    requires body[i].kind == Add || body[i].kind == Rem
    ensures 0 < k && ps[k - 1] < |body| && i < Behind(body, ps[k - 1])
  {
    var m := SectionOf(body, i);
    var j := SecBefore(body, ps, k, m);
    LastDone(body, ps, j, k, i);
  }

  lemma LastDone(body: seq<Rec>, ps: seq<nat>, j: nat, k: nat, i: nat)
    requires Ascending(ps) && AllOwn(body, ps) && j < k <= |ps| && ps[j] < |body| && i < Behind(body, ps[j])
    ensures ps[k - 1] < |body| && i < Behind(body, ps[k - 1])
  {
    if j < k - 1 { PlacesApart(body, ps, j, k - 1); }
  }

  /** Where the records of the first `k` sections end, UNINSTALL aside. */
  ghost function DonePlace(body: seq<Rec>, ps: seq<nat>, k: nat): nat
    requires k <= |ps| && AllOwn(body, ps)
  {
    if k == 0 then 0 else assert OwnMembers(body, ps[k - 1]); Behind(body, ps[k - 1])
  }

  lemma GapQuiet(body: seq<Rec>, ps: seq<nat>, k: nat)
    requires Laid(body, ps) && k <= |ps|
    ensures Quiet(body, DonePlace(body, ps, k), NextPlace(body, ps, k))
  {
    var a, b := DonePlace(body, ps, k), NextPlace(body, ps, k);
    assert a <= b <= |body| by {
      if k < |ps| { assert OwnMembers(body, ps[k]); }
      if 0 < k { assert OwnMembers(body, ps[k - 1]); }
      if 0 < k < |ps| { PlacesApart(body, ps, k - 1, k); }
    }
    forall i | a <= i < b ensures body[i].kind != Sec && body[i].kind != Add && body[i].kind != Rem {
      GapRecord(body, ps, k, i);
    }
  }

  lemma GapRecord(body: seq<Rec>, ps: seq<nat>, k: nat, i: nat)
    requires Laid(body, ps) && k <= |ps| && DonePlace(body, ps, k) <= i < NextPlace(body, ps, k) && i < |body|
    ensures body[i].kind != Sec && body[i].kind != Add && body[i].kind != Rem
  {
    if body[i].kind == Sec { SecDone(body, ps, k, i); }
    if body[i].kind == Add || body[i].kind == Rem { MemberDone(body, ps, k, i); }
  }

  /** The record at `m` is a SEC record whose section cannot follow. */
  ghost predicate FaultyAt(snap: Snapshot, body: seq<Rec>, m: nat, o: Obligation) {
    && m < |body| && body[m].kind == Sec && HasMembers(body, m) && |snap.cur| == |snap.q| && body[m].cpu < |snap.q|
    && ReplayFault(snap, body, m) == Some(o)
  }

  /** Every SEC record before `k` can follow the records before it. */
  ghost predicate FollowsTo(snap: Snapshot, body: seq<Rec>, k: nat) {
    forall m: nat, o :: m < k ==> !FaultyAt(snap, body, m, o)
  }

  /** What the replay of the first `k` sections answers. */
  ghost predicate ReplayedAs(snap: Snapshot, body: seq<Rec>, k: nat, r: Result<State, Obligation>, n: nat) {
    if r.Success? then FitsAt(snap, body, k, r.value, n) && InForceCurrent(r.value) && FollowsTo(snap, body, k)
    else exists m: nat :: m < k && FaultyAt(snap, body, m, r.error) && FollowsTo(snap, body, m)
  }

  lemma QuietFollows(snap: Snapshot, body: seq<Rec>, a: nat, b: nat)
    requires FollowsTo(snap, body, a) && NoSecIn(body, a, b)
    ensures FollowsTo(snap, body, b)
  {
  }

  lemma SectionReplayed(snap: Snapshot, body: seq<Rec>, n: nat, m: nat, st: State, s: Section)
    requires FitsAt(snap, body, m, st, n) && InForceCurrent(st) && FollowsTo(snap, body, m)
    requires OwnMembers(body, m) && Describes(body, m, s) && body[m].cpu < n
    ensures Step(st, s).Success? ==> FitsAt(snap, body, Behind(body, m), Step(st, s).value, n) && FollowsTo(snap, body, Behind(body, m))
    ensures Step(st, s).Failure? ==> FaultyAt(snap, body, m, Step(st, s).error)
  {
    StepMeans(snap, body, m, st, n, s);
    SectionNoSec(body, m);
    if Step(st, s).Success? { QuietFollows(snap, body, m + 1, Behind(body, m)); }
  }

  lemma GapReplayed(snap: Snapshot, body: seq<Rec>, n: nat, ps: seq<nat>, k: nat, st: State)
    requires Laid(body, ps) && k <= |ps| && FitsAt(snap, body, DonePlace(body, ps, k), st, n)
    requires InForceCurrent(st) && FollowsTo(snap, body, DonePlace(body, ps, k))
    ensures ReplayedAs(snap, body, NextPlace(body, ps, k), Success(st), n)
  {
    GapQuiet(body, ps, k);
    QuietFits(snap, body, DonePlace(body, ps, k), NextPlace(body, ps, k), st, n);
    QuietFollows(snap, body, DonePlace(body, ps, k), NextPlace(body, ps, k));
  }

  /** One more section, after those before it replayed. */
  lemma NextReplayed(snap: Snapshot, body: seq<Rec>, n: nat, ps: seq<nat>, k: nat, st: State, s: Section)
    requires Laid(body, ps) && k < |ps| && ReplayedAs(snap, body, NextPlace(body, ps, k), Success(st), n)
    requires Describes(body, ps[k], s) && s.cpu < n
    requires Step(st, s).Success? ==> InForceCurrent(Step(st, s).value)
    ensures ReplayedAs(snap, body, NextPlace(body, ps, k + 1), Step(st, s), n)
  {
    SectionReplayed(snap, body, n, ps[k], st, s);
    if Step(st, s).Success? {
      GapReplayed(snap, body, n, ps, k + 1, Step(st, s).value);
    } else {
      NextLater(body, ps, k);
    }
  }

  lemma NextLater(body: seq<Rec>, ps: seq<nat>, k: nat)
    requires Laid(body, ps) && k < |ps|
    ensures NextPlace(body, ps, k) < NextPlace(body, ps, k + 1)
  {
    assert OwnMembers(body, ps[k]);
  }

  /** `r` is what one more section makes of `before`. */
  ghost predicate Follows(before: Result<State, Obligation>, s: Section, r: Result<State, Obligation>, n: nat) {
    && s.cpu < n && (before.Failure? ==> r == before)
    && (before.Success? ==> Shaped(before.value, n) && r == Step(before.value, s))
    && (r.Success? ==> InForceCurrent(r.value))
  }

  lemma MoreReplayed(snap: Snapshot, body: seq<Rec>, n: nat, ps: seq<nat>, k: nat,
                     before: Result<State, Obligation>, s: Section, r: Result<State, Obligation>)
    requires Laid(body, ps) && k < |ps| && ReplayedAs(snap, body, NextPlace(body, ps, k), before, n)
    requires Describes(body, ps[k], s) && Follows(before, s, r, n)
    ensures ReplayedAs(snap, body, NextPlace(body, ps, k + 1), r, n)
  {
    if before.Success? { NextReplayed(snap, body, n, ps, k, before.value, s); } else { NextLater(body, ps, k); }
  }

  lemma StartReplayed(snap: Snapshot, body: seq<Rec>, n: nat, ps: seq<nat>)
    requires SnapshotFor(snap, n) && Laid(body, ps)
    ensures Inv(Start(snap.cur, snap.q), [], n)
    ensures ReplayedAs(snap, body, NextPlace(body, ps, 0), Success(Start(snap.cur, snap.q)), n)
  {
    var start := Start(snap.cur, snap.q);
    assert FitsAt(snap, body, 0, start, n);
    GapReplayed(snap, body, n, ps, 0, start);
  }

  lemma ReplayOne(start: State, secs: seq<Section>, n: nat, k: nat)
    requires Inv(start, [], n) && CpusBelow(secs, n) && Ordered(secs) && 0 < k <= |secs|
    ensures var before, r := Replay(start, secs[..k - 1], n), Replay(start, secs[..k], n);
            && (before.Failure? ==> r == before)
            && (before.Success? ==> r == Step(before.value, secs[k - 1]))
            && (r.Success? ==> InForceCurrent(r.value))
  {
    assert secs[..k][..k - 1] == secs[..k - 1];
    if Replay(start, secs[..k], n).Success? { ReplayInv(start, secs[..k], n); }
  }

  /** Each result follows from the one before it by one section. */
  ghost predicate Chained(rs: seq<Result<State, Obligation>>, secs: seq<Section>, n: nat) {
    |rs| == |secs| + 1 && forall k :: 0 <= k < |secs| ==> Follows(rs[k], secs[k], rs[k + 1], n)
  }

  lemma ReplayChain(start: State, secs: seq<Section>, n: nat) returns (rs: seq<Result<State, Obligation>>)
    requires Inv(start, [], n) && CpusBelow(secs, n) && Ordered(secs)
    ensures Chained(rs, secs, n) && rs[0] == Success(start) && rs[|secs|] == Replay(start, secs, n)
  {
    rs := seq(|secs| + 1, k requires 0 <= k <= |secs| => Replay(start, secs[..k], n));
    forall k | 0 <= k < |secs| ensures Follows(rs[k], secs[k], rs[k + 1], n) { ReplayOne(start, secs, n, k + 1); }
    assert secs[..|secs|] == secs;
  }

  lemma {:induction false} PrefixMeans(snap: Snapshot, body: seq<Rec>, n: nat, ps: seq<nat>, secs: seq<Section>,
                                       rs: seq<Result<State, Obligation>>, k: nat)
    requires Laid(body, ps) && AllDescribed(body, ps, secs) && Chained(rs, secs, n) && k <= |secs|
    requires ReplayedAs(snap, body, NextPlace(body, ps, 0), rs[0], n)
    ensures ReplayedAs(snap, body, NextPlace(body, ps, k), rs[k], n)
    decreases k
  {
    if k > 0 {
      PrefixMeans(snap, body, n, ps, secs, rs, k - 1);
      assert Follows(rs[k - 1], secs[k - 1], rs[k - 1 + 1], n);
      MoreReplayed(snap, body, n, ps, k - 1, rs[k - 1], secs[k - 1], rs[k]);
    }
  }

  lemma OwnFine(body: seq<Rec>, m: nat, gens: seq<nat>, cells: seq<nat>)
    requires m < |body| && body[m].kind == Sec && |gens| == |cells| && body[m].cpu < |cells| && SectionFault(body, m, gens, cells).None?
    ensures OwnMembers(body, m)
  {
  }

  /** A body with nothing at fault is laid out section by section. */
  lemma LaidFine(body: seq<Rec>, gens: seq<nat>, cells: seq<nat>)
    requires |gens| == |cells| && InRange(body, |cells|) && Fine(body, gens, cells, 0, |body|)
    ensures Laid(body, Places(body, 0))
  {
    var ps := Places(body, 0);
    PlacesExact(body, 0, 0);
    forall j | 0 <= j < |ps| ensures OwnMembers(body, ps[j]) {
      PlacesExact(body, 0, ps[j]);
      assert RecordFault(body, ps[j], gens, cells).None?;
      OwnFine(body, ps[j], gens, cells);
    }
    forall i: nat | i < |body| && body[i].kind == Sec ensures i in ps { PlacesExact(body, 0, i); }
    forall i: nat | i < |body| && (body[i].kind == Add || body[i].kind == Rem) ensures Covered(body, i) {
      assert RecordFault(body, i, gens, cells).None?;
    }
  }

  lemma Framing(body: seq<Rec>, n: nat)
    requires Framed(body, n)
    ensures InRange(body, n) && forall r :: r in body ==> r.cpu < n
  {
  }

  /** The replay succeeds exactly when every section can follow the records
      before it, and then ends in the state the scans find; else the first
      section that cannot follow says why. */
  lemma ReplayMeans(snap: Snapshot, body: seq<Rec>, n: nat, secs: seq<Section>)
    requires SnapshotFor(snap, n) && Framed(body, n) && ParseFrom(body, 0, snap.gens, snap.cells) == Success(secs)
    ensures CpusBelow(secs, n) && Ordered(secs) && Shaped(Start(snap.cur, snap.q), n)
    ensures ReplayedAs(snap, body, |body|, Replay(Start(snap.cur, snap.q), secs, n), n)
    ensures Laid(body, Places(body, 0)) && AllDescribed(body, Places(body, 0), secs)
  {
    Framing(body, n);
    ParsedCpus(body, 0, snap.gens, snap.cells);
    ParseOrdered(body, 0, snap.gens, snap.cells);
    ParseMeans(body, snap.gens, snap.cells);
    LaidFine(body, snap.gens, snap.cells);
    StartReplayed(snap, body, n, Places(body, 0));
    var rs := ReplayChain(Start(snap.cur, snap.q), secs, n);
    PrefixMeans(snap, body, n, Places(body, 0), secs, rs, |secs|);
  }

  // ------------------------------------------------------------ conservation

  ghost predicate Queues(r: Rec, kind: Kind, c: nat, tid: nat) { r.kind == kind && r.cpu == c && r.f1 == tid }

  /** The records before `k` of this kind that name the task on this CPU. */
  ghost function Times(body: seq<Rec>, k: nat, kind: Kind, c: nat, tid: nat): nat
    requires k <= |body|
  {
    if k == 0 then 0 else Times(body, k - 1, kind, c, tid) + if Queues(body[k - 1], kind, c, tid) then 1 else 0
  }

  ghost function Held(t: Option<nat>): nat { if t.Some? then 1 else 0 }

  /** A laid-out body each of whose sections can follow. */
  ghost predicate Sound(snap: Snapshot, body: seq<Rec>, n: nat) {
    SnapshotFor(snap, n) && InRange(body, n) && Laid(body, Places(body, 0)) && FollowsTo(snap, body, |body|)
  }

  /** A member finds the task queued exactly when it removes it. */
  ghost predicate MemberFinds(snap: Snapshot, body: seq<Rec>, i: nat)
    requires i < |body|
  {
    body[i].kind == Add || body[i].kind == Rem ==>
      body[i].cpu < |snap.q| && (QueuedAt(snap, body, i, body[i].cpu, body[i].f1).Some? <==> body[i].kind == Rem)
  }

  lemma MembersFind(snap: Snapshot, body: seq<Rec>, n: nat, i: nat)
    requires Sound(snap, body, n) && i < |body|
    ensures MemberFinds(snap, body, i)
  {
    if body[i].kind == Add || body[i].kind == Rem {
      var m := SectionOf(body, i);
      assert m in Places(body, 0);
      assert OwnMembers(body, m);
      SoundFollows(snap, body, n, m);
      GoodMember(snap, body, m, i);
    }
  }

  lemma GoodMember(snap: Snapshot, body: seq<Rec>, m: nat, i: nat)
    requires OwnMembers(body, m) && m < i < Behind(body, m) && body[m].cpu < |snap.q| && !BadMember(snap, body, m)
    ensures MemberFinds(snap, body, i)
  {
    QueuedMember(snap, body, m, i);
  }

  lemma SoundFollows(snap: Snapshot, body: seq<Rec>, n: nat, m: nat)
    requires Sound(snap, body, n) && m < |body| && body[m].kind == Sec && HasMembers(body, m)
    ensures ReplayFault(snap, body, m).None? && !BadMember(snap, body, m)
  {
    if ReplayFault(snap, body, m).Some? { assert FaultyAt(snap, body, m, ReplayFault(snap, body, m).value); }
  }

  lemma {:induction false} QueuedBalance(snap: Snapshot, body: seq<Rec>, k: nat, c: nat, tid: nat)
    requires k <= |body| && c < |snap.q| && forall i :: 0 <= i < |body| ==> MemberFinds(snap, body, i)
    ensures Held(QueuedAt(snap, body, k, c, tid)) + Times(body, k, Rem, c, tid)
            == Held(QueuedAt(snap, body, 0, c, tid)) + Times(body, k, Add, c, tid)
  {
    if k > 0 {
      QueuedBalance(snap, body, k - 1, c, tid);
      assert MemberFinds(snap, body, k - 1);
    }
  }

  /** No wake is lost, duplicated or invented. After every replay a task is
      queued on a CPU exactly as often as SNAP and the ADD records outnumber the
      REM records, with the priority of its last ADD record, and a CPU's current
      task is the one its last SEC record left. */
  lemma WakesConserved(snap: Snapshot, body: seq<Rec>, n: nat, g: Graded, c: nat, tid: nat)
    requires SnapshotFor(snap, n) && Framed(body, n) && Replayed(snap, body, n, g) && c < n
    ensures Shaped(g.final, n) && g.final.cur[c] == CurrentAt(snap, body, |body|, c)
    ensures QueueOf(g.final.q[c], tid) == QueuedAt(snap, body, |body|, c, tid)
    ensures Held(QueueOf(g.final.q[c], tid)) + Times(body, |body|, Rem, c, tid)
            == Held(QueueOf(snap.q[c], tid)) + Times(body, |body|, Add, c, tid)
  {
    ReplayMeans(snap, body, n, g.secs);
    Framing(body, n);
    forall i | 0 <= i < |body| ensures MemberFinds(snap, body, i) { MembersFind(snap, body, n, i); }
    QueuedBalance(snap, body, |body|, c, tid);
  }

  /** The same of the census of an accepted trace. */
  lemma CensusConserved(snap: Snapshot, census: Snapshot, body: seq<Rec>, n: nat, g: Graded, c: nat, tid: nat)
    requires SnapshotFor(snap, n) && SnapshotFor(census, n) && Framed(body, n) && Accepted(snap, census, body, n, g)
    requires c < n
    ensures census.cur[c] == CurrentAt(snap, body, |body|, c)
    ensures QueueOf(census.q[c], tid) == QueuedAt(snap, body, |body|, c, tid)
    ensures Held(QueueOf(census.q[c], tid)) + Times(body, |body|, Rem, c, tid)
            == Held(QueueOf(snap.q[c], tid)) + Times(body, |body|, Add, c, tid)
  {
    WakesConserved(snap, body, n, g, c, tid);
  }
}
