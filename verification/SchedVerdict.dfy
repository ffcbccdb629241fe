/** The SCHED-LOCK1 checker run over a whole trace, and its verdict said on the
    records alone. */
module SchedVerdict {
  import opened Machine
  import opened SchedTrace
  import opened SchedPlacement
  import opened SchedInstalls
  import opened SchedNotify
  import opened SchedRecords
  import opened SchedReplay

  // -------------------------------------------------------------- notifications

  /** A section run by another CPU that queues something. */
  predicate Remote(r: Rec) { r.kind == Sec && r.exec != r.cpu && r.f3 > 0 }

  predicate SamePair(r: Rec, r': Rec) { r.exec == r'.exec && r.cpu == r'.cpu }

  /** The NOTIFY records from `a` up to `b` with this executor and target. */
  function Notified(body: seq<Rec>, a: nat, b: nat, r: Rec): nat
    requires b <= |body|
    decreases b
  {
    if b <= a then 0
    else Notified(body, a, b - 1, r) + if body[b - 1].kind == Notify && SamePair(body[b - 1], r) then 1 else 0
  }

  /** The remote additions before `k` with this executor and target that no
      NOTIFY has answered yet, oldest answered first. */
  function Backlog(body: seq<Rec>, k: nat, r: Rec): nat
    requires k <= |body|
  {
    if k == 0 then 0
    else
      var before := Backlog(body, k - 1, r);
      if !SamePair(body[k - 1], r) then before
      else if Remote(body[k - 1]) then before + 1
      else if body[k - 1].kind == Notify && before > 0 then before - 1
      else before
  }

  /** The remote addition at `a` is still unanswered before record `k`. */
  predicate OpenAt(body: seq<Rec>, a: nat, k: nat)
    requires a < k <= |body|
  {
    Notified(body, a + 1, k, body[a]) <= Backlog(body, a, body[a])
  }

  /** An addition left unanswered is the last section its executor ran. */
  predicate AnsweredOrLast(body: seq<Rec>, a: nat)
    requires a < |body|
  {
    Remote(body[a]) && OpenAt(body, a, |body|) ==>
      forall m :: a < m < |body| && body[m].kind == Sec ==> body[m].exec != body[a].exec
  }

  // The queue of pending additions, place by place.

  ghost predicate PendingAt(body: seq<Rec>, k: nat, a: nat, w: seq<nat>)
    requires a < k <= |body|
  {
    if OpenAt(body, a, k)
    then var i := Backlog(body, a, body[a]) - Notified(body, a + 1, k, body[a]); i < |w| && w[i] == body[a].no
    else body[a].no !in w
  }

  ghost predicate PendingFits(body: seq<Rec>, k: nat, r: Rec, w: seq<nat>)
    requires k <= |body|
  {
    && |w| == Backlog(body, k, r)
    && forall a: nat :: a < k && Remote(body[a]) && SamePair(body[a], r) ==> PendingAt(body, k, a, w)
  }

  lemma {:induction false} PairAlike(body: seq<Rec>, k: nat, r: Rec, r': Rec)
    requires k <= |body| && SamePair(r, r')
    ensures Backlog(body, k, r) == Backlog(body, k, r')
  {
    if k > 0 { PairAlike(body, k - 1, r, r'); }
  }

  lemma {:induction false} NotifiedAlike(body: seq<Rec>, a: nat, b: nat, r: Rec, r': Rec)
    requires b <= |body| && SamePair(r, r')
    ensures Notified(body, a, b, r) == Notified(body, a, b, r')
    decreases b
  {
    if a < b { NotifiedAlike(body, a, b - 1, r, r'); }
  }

  /** One more record: an older addition. */
  lemma PendingStep(body: seq<Rec>, k: nat, a: nat, w: seq<nat>, w': seq<nat>)
    requires a < k < |body| && Numbered(body) && PendingAt(body, k, a, w)
    requires forall i, j :: 0 <= i < j < |w| ==> w[i] < w[j]
    requires var r := body[k];
             if SamePair(r, body[a]) && Remote(r) then w' == w + [r.no]
             else if SamePair(r, body[a]) && r.kind == Notify && w != [] then w' == w[1..]
             else w' == w
    ensures PendingAt(body, k + 1, a, w')
  {
    var r := body[k];
    assert body[a].no < r.no;
    var open := Backlog(body, a, body[a]) - Notified(body, a + 1, k, body[a]);
    if SamePair(r, body[a]) && r.kind == Notify && w != [] {
      if open == 0 {
        assert w[0] == body[a].no && !OpenAt(body, a, k + 1);
      }
    }
  }

  lemma {:induction false} PostFits(body: seq<Rec>, k: nat, r: Rec)
    requires Numbered(body) && k <= |body|
    ensures PendingFits(body, k, r, Waiting(Post(body[..k]), (r.exec, r.cpu)))
  {
    if k > 0 {
      var key, last := (r.exec, r.cpu), body[k - 1];
      var m := Post(body[..k - 1]);
      PostFits(body, k - 1, r);
      assert body[..k][..k - 1] == body[..k - 1];
      WaitingStep(m, last, key);
      PostOk(body[..k - 1]);
      assert QueueOk(body[..k - 1], m, key);
      PendingMore(body, k - 1, r, Waiting(m, key), Waiting(MailStep(m, last), key));
    }
  }

  lemma PendingMore(body: seq<Rec>, k: nat, r: Rec, w: seq<nat>, w': seq<nat>)
    requires k < |body| && Numbered(body) && PendingFits(body, k, r, w)
    requires forall i, j :: 0 <= i < j < |w| ==> w[i] < w[j]
    requires if !SamePair(body[k], r) then w' == w
             else if Remote(body[k]) then w' == w + [body[k].no]
             else if body[k].kind == Notify && w != [] then w' == w[1..]
             else w' == w
    ensures PendingFits(body, k + 1, r, w')
  {
    forall a: nat | a < k + 1 && Remote(body[a]) && SamePair(body[a], r) ensures PendingAt(body, k + 1, a, w') {
      PairAlike(body, k, body[a], r);
      if a < k { PendingStep(body, k, a, w, w'); }
    }
  }

  lemma LaterPlace(body: seq<Rec>, n: nat, a: nat, m: nat)
    requires Framed(body, n) && a < |body| && m < |body| && body[a].no < body[m].no
    ensures a < m
  {
  }

  /** The SEC records after the addition's, among the sections after its number. */
  lemma LaterMeans(snap: Snapshot, body: seq<Rec>, n: nat, secs: seq<Section>, a: nat)
    requires SnapshotFor(snap, n) && Framed(body, n) && ParseFrom(body, 0, snap.gens, snap.cells) == Success(secs) && a < |body|
    ensures LaterSection(secs, body[a].exec, body[a].no) <==>
              exists m :: a < m < |body| && body[m].kind == Sec && body[m].exec == body[a].exec
  {
    if LaterSection(secs, body[a].exec, body[a].no) {
      ParseOrdered(body, 0, snap.gens, snap.cells);
      var i :| 0 <= i < |secs| && secs[i].exec == body[a].exec && secs[i].no > body[a].no;
      assert ParsedFrom(body, 0, secs[i]);
      var m: nat :| 0 <= m && ParsedAt(body, m, secs[i]);
      LaterPlace(body, n, a, m);
    }
    if m :| a < m < |body| && body[m].kind == Sec && body[m].exec == body[a].exec {
      ParseComplete(body, 0, snap.gens, snap.cells, m);
    }
  }

  ghost predicate AllAnswered(body: seq<Rec>) { forall a: nat :: a < |body| ==> AnsweredOrLast(body, a) }

  /** What waits at the end is what stayed open. */
  lemma WaitingMeans(body: seq<Rec>, a: nat)
    requires Numbered(body) && a < |body| && Remote(body[a])
    ensures body[a].no in Waiting(Post(body), (body[a].exec, body[a].cpu)) <==> OpenAt(body, a, |body|)
  {
    PostFits(body, |body|, body[a]);
    assert body[..|body|] == body;
    assert PendingAt(body, |body|, a, Waiting(Post(body), (body[a].exec, body[a].cpu)));
  }

  /** The notification pass, on the records. */
  lemma AnsweredMeans(snap: Snapshot, body: seq<Rec>, n: nat, secs: seq<Section>)
    requires SnapshotFor(snap, n) && Framed(body, n) && ParseFrom(body, 0, snap.gens, snap.cells) == Success(secs)
    ensures AllNotified(Post(body), secs) <==> AllAnswered(body)
  {
    var m := Post(body);
    PostOk(body);
    if AllNotified(m, secs) {
      forall a: nat | a < |body| ensures AnsweredOrLast(body, a) {
        if Remote(body[a]) && OpenAt(body, a, |body|) {
          WaitingMeans(body, a);
          LaterMeans(snap, body, n, secs, a);
          var key := (body[a].exec, body[a].cpu);
          var i :| 0 <= i < |Waiting(m, key)| && Waiting(m, key)[i] == body[a].no;
          assert key in m.pending;
        }
      }
    }
    if AllAnswered(body) {
      forall key, i | key in m.pending && 0 <= i < |m.pending[key]| ensures !LaterSection(secs, key.0, m.pending[key][i]) {
        assert QueueOk(body, m, key) && Waiting(m, key) == m.pending[key];
        var a: nat :| AddAt(body, a, key, m.pending[key][i]);
        WaitingMeans(body, a);
        LaterMeans(snap, body, n, secs, a);
        assert AnsweredOrLast(body, a);
      }
    }
  }

  // -------------------------------------------------------------- installations

  /** The SEC record before `k` that ends the installation made at `j`: the next
      on its CPU that changes the current task. */
  function EndOf(body: seq<Rec>, j: nat, k: nat): Option<nat>
    requires j < k <= |body|
    decreases k
  {
    if k == j + 1 then None
    else if EndOf(body, j, k - 1).Some? then EndOf(body, j, k - 1)
    else if Changes(body[k - 1]) && body[k - 1].cpu == body[j].cpu then Some(k - 1)
    else None
  }

  /** The section at `m` says it ends an installation seen running. */
  predicate SeenRunning(body: seq<Rec>, m: nat)
    requires m < |body|
  {
    EndFollows(body, m) && body[Behind(body, m)].f3 == 1
  }

  lemma {:induction false} EndOfBelow(body: seq<Rec>, j: nat, k: nat)
    requires j < k <= |body| && EndOf(body, j, k).Some?
    ensures j < EndOf(body, j, k).value < k && Changes(body[EndOf(body, j, k).value])
    decreases k
  {
    if EndOf(body, j, k - 1).Some? { EndOfBelow(body, j, k - 1); }
  }

  lemma {:induction false} EndOfSkip(body: seq<Rec>, j: nat, a: nat, b: nat)
    requires j < a && NoSecIn(body, a, b)
    ensures EndOf(body, j, b) == EndOf(body, j, a)
    decreases b - a
  {
    if a < b { EndOfSkip(body, j, a, b - 1); }
  }

  /** Installation `x` is the one made at `j`, as it stands before record `k`. */
  ghost predicate IsInstall(body: seq<Rec>, j: nat, k: nat, x: Install)
    requires j < k <= |body|
  {
    && x.cpu == body[j].cpu && x.tid + 1 == body[j].f2 && x.gen == body[j].f0
    && match EndOf(body, j, k)
       case None => x.end == None
       case Some(e) => e < |body| && x.end == Some(body[e].no) && x.endGen == body[e].f0 && x.observed == SeenRunning(body, e)
  }

  ghost predicate InstalledAt(body: seq<Rec>, j: nat, k: nat, installs: map<nat, Install>)
    requires j < k <= |body|
  {
    body[j].no in installs && IsInstall(body, j, k, installs[body[j].no])
  }

  ghost predicate InstallsFit(body: seq<Rec>, k: nat, installs: map<nat, Install>)
    requires k <= |body|
  {
    && (forall j: nat :: j < k && Makes(body[j]) ==> InstalledAt(body, j, k, installs))
    && forall i :: i in installs ==> exists j: nat :: j < k && Makes(body[j]) && body[j].no == i
  }

  /** Across one section: an installation made before it. */
  lemma OlderInstall(body: seq<Rec>, m: nat, st: State, n: nat, s: Section, j: nat)
    requires Shaped(st, n) && InForceCurrent(st) && OpenInForce(st) && s.cpu < n && Step(st, s).Success? && Fresh(st, s)
    requires Describes(body, m, s) && j < m && Makes(body[j]) && InstalledAt(body, j, m, st.installs)
    ensures InstalledAt(body, j, m + 1, Step(st, s).value.installs)
  {
    var i := body[j].no;
    StepShape(st, s, n);
    InstallAfter(st, s, n, i);
    if EndOf(body, j, m).Some? { EndOfBelow(body, j, m); }
  }

  lemma NewInstall(body: seq<Rec>, m: nat, st: State, n: nat, s: Section)
    requires Shaped(st, n) && InForceCurrent(st) && s.cpu < n && Step(st, s).Success? && Fresh(st, s)
    requires Describes(body, m, s) && Makes(body[m])
    ensures InstalledAt(body, m, m + 1, Step(st, s).value.installs)
  {
    InstallAfter(st, s, n, s.no);
  }

  lemma StepInstalls(body: seq<Rec>, m: nat, st: State, n: nat, s: Section)
    requires Shaped(st, n) && InForceCurrent(st) && OpenInForce(st) && s.cpu < n && Step(st, s).Success? && Fresh(st, s)
    requires Describes(body, m, s) && InstallsFit(body, m, st.installs)
    ensures InstallsFit(body, m + 1, Step(st, s).value.installs)
  {
    var next := Step(st, s).value.installs;
    forall j: nat | j < m + 1 && Makes(body[j]) ensures InstalledAt(body, j, m + 1, next) {
      if j < m { OlderInstall(body, m, st, n, s, j); } else { NewInstall(body, m, st, n, s); }
    }
    forall i | i in next ensures exists j: nat :: j < m + 1 && Makes(body[j]) && body[j].no == i {
      InstallAfter(st, s, n, i);
      if i !in st.installs { assert Makes(body[m]) && body[m].no == i; }
    }
  }

  lemma SkipInstalls(body: seq<Rec>, a: nat, b: nat, installs: map<nat, Install>)
    requires NoSecIn(body, a, b) && InstallsFit(body, a, installs)
    ensures InstallsFit(body, b, installs)
  {
    forall j: nat | j < b && Makes(body[j]) ensures InstalledAt(body, j, b, installs) {
      assert j < a;
      EndOfSkip(body, j, a, b);
      assert InstalledAt(body, j, a, installs);
    }
  }

  lemma NextNoSec(body: seq<Rec>, ps: seq<nat>, k: nat)
    requires Laid(body, ps) && k < |ps|
    ensures ps[k] < |body| && NoSecIn(body, ps[k] + 1, NextPlace(body, ps, k + 1))
  {
    assert OwnMembers(body, ps[k]);
    SectionNoSec(body, ps[k]);
    GapQuiet(body, ps, k + 1);
  }

  lemma FreshNext(st: State, secs: seq<Section>, n: nat, k: nat)
    requires k < |secs| && Ordered(secs) && Inv(st, secs[..k], n)
    ensures Fresh(st, secs[k])
  {
    assert secs[..k] + [secs[k]] == secs[..k + 1];
    DocumentedFresh(st, secs[..k], secs[k]);
  }

  lemma OneInstalls(body: seq<Rec>, n: nat, m: nat, b: nat, st: State, s: Section, r: Result<State, Obligation>)
    requires Describes(body, m, s) && s.cpu < n && InstallsFit(body, m, st.installs) && NoSecIn(body, m + 1, b)
    requires Shaped(st, n) && InForceCurrent(st) && OpenInForce(st) && Fresh(st, s) && r == Step(st, s) && r.Success?
    ensures InstallsFit(body, b, r.value.installs)
  {
    StepInstalls(body, m, st, n, s);
    SkipInstalls(body, m + 1, b, r.value.installs);
  }

  lemma StartInstalls(body: seq<Rec>, ps: seq<nat>)
    requires Laid(body, ps)
    ensures NextPlace(body, ps, 0) <= |body| && InstallsFit(body, NextPlace(body, ps, 0), map[])
  {
    GapQuiet(body, ps, 0);
    SkipInstalls(body, 0, NextPlace(body, ps, 0), map[]);
  }

  /** What the replay of the first `k` sections stands on. */
  lemma ReplayUpTo(start: State, secs: seq<Section>, n: nat, k: nat)
    requires Inv(start, [], n) && CpusBelow(secs, n) && Ordered(secs) && k < |secs| && Replay(start, secs[..k + 1], n).Success?
    ensures var before := Replay(start, secs[..k], n);
            && before.Success? && Inv(before.value, secs[..k], n) && Fresh(before.value, secs[k])
            && Replay(start, secs[..k + 1], n) == Step(before.value, secs[k])
  {
    ReplayOne(start, secs, n, k + 1);
    ReplayInv(start, secs[..k], n);
    FreshNext(Replay(start, secs[..k], n).value, secs, n, k);
  }

  lemma {:induction false} PrefixInstalls(start: State, body: seq<Rec>, n: nat, ps: seq<nat>, secs: seq<Section>, k: nat)
    requires Inv(start, [], n) && start.installs == map[] && Laid(body, ps) && AllDescribed(body, ps, secs)
    requires CpusBelow(secs, n) && Ordered(secs) && k <= |secs| && Replay(start, secs[..k], n).Success?
    ensures NextPlace(body, ps, k) <= |body|
    ensures InstallsFit(body, NextPlace(body, ps, k), Replay(start, secs[..k], n).value.installs)
    decreases k
  {
    if k == 0 {
      StartInstalls(body, ps);
    } else {
      ReplayUpTo(start, secs, n, k - 1);
      PrefixInstalls(start, body, n, ps, secs, k - 1);
      NextNoSec(body, ps, k - 1);
      OneInstalls(body, n, ps[k - 1], NextPlace(body, ps, k), Replay(start, secs[..k - 1], n).value, secs[k - 1],
                  Replay(start, secs[..k], n));
    }
  }

  /** The installations a replay ends with are those the SEC records make, each
      ended by the next SEC record on its CPU that changes the current task. */
  lemma InstallsMean(snap: Snapshot, body: seq<Rec>, n: nat, g: Graded)
    requires SnapshotFor(snap, n) && Framed(body, n) && Replayed(snap, body, n, g)
    ensures InstallsFit(body, |body|, g.final.installs)
  {
    ReplayMeans(snap, body, n, g.secs);
    StartReplayed(snap, body, n, Places(body, 0));
    assert g.secs[..|g.secs|] == g.secs;
    PrefixInstalls(Start(snap.cur, snap.q), body, n, Places(body, 0), g.secs, |g.secs|);
  }

  // ------------------------------------------------------------------ executions

  /** The RUN record at `m` is one of the installation made at `j`. */
  predicate RunsFrom(body: seq<Rec>, j: nat, m: nat)
    requires j < m < |body|
  {
    var r, i := body[m], body[j];
    && Makes(i) && i.no == r.f4 && i.cpu == r.cpu == r.exec && i.f0 == r.f2 <= r.f3 && i.f2 == r.f0 + 1
    && r.f1 != 0 && (r.f5 == 1 || r.f5 == 2)
    && match EndOf(body, j, |body|)
       case None => true
       case Some(e) => e < |body| && SeenRunning(body, e) && r.f3 <= body[e].f0
  }

  predicate RunFits(body: seq<Rec>, m: nat)
    requires m < |body|
  {
    exists j :: 0 <= j < m && RunsFrom(body, j, m)
  }

  /** The installation made at `j` is ended by a section that saw it running. */
  predicate EndsSeen(body: seq<Rec>, j: nat)
    requires j < |body|
  {
    match EndOf(body, j, |body|)
    case None => false
    case Some(e) => e < |body| && SeenRunning(body, e)
  }

  predicate RunNamed(body: seq<Rec>, no: nat) { exists m :: 0 <= m < |body| && body[m].kind == Run && body[m].f4 == no }

  /** One RUN: the replayed state accepts it exactly when the records do. */
  lemma RunMeans(snap: Snapshot, body: seq<Rec>, n: nat, g: Graded, m: nat)
    requires SnapshotFor(snap, n) && Framed(body, n) && Replayed(snap, body, n, g) && InstallsFit(body, |body|, g.final.installs)
    requires m < |body| && body[m].kind == Run
    ensures NamesInstall(g.final, body[m]) && AgreesWithTimeline(g.final, body[m]) <==> RunFits(body, m)
  {
    var st, r := g.final, body[m];
    if NamesInstall(st, r) && AgreesWithTimeline(st, r) {
      var j: nat :| j < |body| && Makes(body[j]) && body[j].no == r.f4;
      assert InstalledAt(body, j, |body|, st.installs);
      assert RunsFrom(body, j, m);
    }
    if RunFits(body, m) {
      var j :| 0 <= j < m && RunsFrom(body, j, m);
      assert InstalledAt(body, j, |body|, st.installs);
      assert body[j].no < body[m].no;
      assert NamesInstall(st, r);
      var x := st.installs[r.f4];
      if !(x.end.Some? && x.end.value < r.no) { InForceTestRedundant(snap, body, n, g, m); }
    }
  }

  ghost predicate RunAccepted(st: State, r: Rec) { r.cpu < |st.timeline| && NamesInstall(st, r) && AgreesWithTimeline(st, r) }

  /** The RUN pass goes through when each RUN is right and no two are alike. */
  lemma {:induction false} RunsGoThrough(st: State, body: seq<Rec>, k: nat)
    requires k <= |body| && (forall i :: 0 <= i < |body| ==> body[i].cpu < |st.timeline|)
    requires forall m: nat :: m < |body| && body[m].kind == Run ==> RunAccepted(st, body[m])
    requires RunsApart(body)
    ensures Runs(st, body[..k]).Some?
  {
    if k > 0 {
      RunsGoThrough(st, body, k - 1);
      assert body[..k][..k - 1] == body[..k - 1];
      RunsExact(st, body[..k - 1], body[k - 1].f4);
    }
  }

  lemma EachRun(snap: Snapshot, body: seq<Rec>, n: nat, g: Graded)
    requires SnapshotFor(snap, n) && Framed(body, n) && Replayed(snap, body, n, g) && InstallsFit(body, |body|, g.final.installs)
    ensures forall m: nat :: m < |body| && body[m].kind == Run ==> (RunAccepted(g.final, body[m]) <==> RunFits(body, m))
  {
    forall m: nat | m < |body| && body[m].kind == Run ensures RunAccepted(g.final, body[m]) <==> RunFits(body, m) {
      RunMeans(snap, body, n, g, m);
    }
  }

  /** No two RUN records name the same installation. */
  ghost predicate RunsApart(body: seq<Rec>) {
    forall m: nat, m': nat :: m < m' < |body| && body[m].kind == Run && body[m'].kind == Run ==> body[m].f4 != body[m'].f4
  }

  /** The RUN pass goes through exactly when each RUN is right and no two alike. */
  lemma RunsPass(st: State, body: seq<Rec>)
    requires forall i :: 0 <= i < |body| ==> body[i].cpu < |st.timeline|
    ensures Runs(st, body).Some? <==>
              (forall m: nat :: m < |body| && body[m].kind == Run ==> RunAccepted(st, body[m])) && RunsApart(body)
  {
    assert body[..|body|] == body;
    if Runs(st, body).Some? {
      forall m: nat | m < |body| && body[m].kind == Run ensures RunAccepted(st, body[m]) {
        RunsExact(st, body, body[m].f4);
        assert RunOf(body, m, body[m].f4);
      }
      forall m: nat, m': nat | m < m' < |body| && body[m].kind == Run && body[m'].kind == Run ensures body[m].f4 != body[m'].f4 {
        RunsExact(st, body, body[m].f4);
        assert RunOf(body, m, body[m].f4);
        assert body[m].f4 == body[m'].f4 ==> RunOf(body, m', body[m].f4);
      }
    } else if (forall m: nat :: m < |body| && body[m].kind == Run ==> RunAccepted(st, body[m])) && RunsApart(body) {
      RunsGoThrough(st, body, |body|);
    }
  }

  /** Every installation seen running has its RUN. */
  ghost predicate SeenNamed(body: seq<Rec>) {
    forall j: nat :: j < |body| && Makes(body[j]) && EndsSeen(body, j) ==> RunNamed(body, body[j].no)
  }

  lemma SeenMeans(st: State, body: seq<Rec>)
    requires (forall i :: 0 <= i < |body| ==> body[i].cpu < |st.timeline|) && Runs(st, body).Some?
    requires InstallsFit(body, |body|, st.installs)
    ensures ObservedSeen(st, Runs(st, body).value) <==> SeenNamed(body)
  {
    if ObservedSeen(st, Runs(st, body).value) {
      forall j: nat | j < |body| && Makes(body[j]) && EndsSeen(body, j) ensures RunNamed(body, body[j].no) {
        assert InstalledAt(body, j, |body|, st.installs);
        NamedMeans(st, body, body[j].no);
      }
    }
    if SeenNamed(body) {
      forall i | i in st.installs && st.installs[i].end.Some? && st.installs[i].observed ensures i in Runs(st, body).value {
        var j: nat :| j < |body| && Makes(body[j]) && body[j].no == i;
        assert InstalledAt(body, j, |body|, st.installs);
        NamedMeans(st, body, i);
      }
    }
  }

  lemma NamedMeans(st: State, body: seq<Rec>, no: nat)
    requires (forall i :: 0 <= i < |body| ==> body[i].cpu < |st.timeline|) && Runs(st, body).Some?
    ensures no in Runs(st, body).value <==> RunNamed(body, no)
  {
    RunsExact(st, body, no);
    if RunNamed(body, no) {
      var m :| 0 <= m < |body| && body[m].kind == Run && body[m].f4 == no;
      assert RunOf(body, m, no);
    }
  }

  /** Every RUN fits an installation, no two the same one, and every installation
      seen running has its RUN. */
  ghost predicate RunsRight(body: seq<Rec>) {
    (forall m: nat :: m < |body| && body[m].kind == Run ==> RunFits(body, m)) && RunsApart(body) && SeenNamed(body)
  }

  /** The execution pass, on the records. */
  lemma RunsMean(snap: Snapshot, body: seq<Rec>, n: nat, g: Graded)
    requires SnapshotFor(snap, n) && Framed(body, n) && Replayed(snap, body, n, g)
    ensures Runs(g.final, body).Some? && ObservedSeen(g.final, Runs(g.final, body).value) <==> RunsRight(body)
  {
    InstallsMean(snap, body, n, g);
    EachRun(snap, body, n, g);
    RunsPass(g.final, body);
    if Runs(g.final, body).Some? { SeenMeans(g.final, body); }
  }

  // ----------------------------------------------------------------- the verdict

  /** No task but 0 stands in two places of the snapshot. */
  ghost predicate SnapOnce(snap: Snapshot) { forall tid: nat :: tid != 0 ==> !TwoPlaces(snap.cur, snap.q, tid) }

  lemma SnapMeans(snap: Snapshot)
    ensures SnapPlacedOnce(snap.cur, snap.q) <==> SnapOnce(snap)
  {
    forall tid: nat ensures |Placements(snap.cur, snap.q, tid)| > 1 <==> TwoPlaces(snap.cur, snap.q, tid) {
      PlacedMore(snap.cur, snap.q, tid);
    }
    if SnapPlacedOnce(snap.cur, snap.q) { SnapAllPlacedOnce(snap.cur, snap.q); }
  }

  /** The census holds what the SEC, ADD and REM records leave. */
  ghost predicate CensusRight(snap: Snapshot, census: Snapshot, body: seq<Rec>, n: nat)
    requires SnapshotFor(snap, n) && SnapshotFor(census, n)
  {
    && (forall c :: 0 <= c < n ==> census.cur[c] == CurrentAt(snap, body, |body|, c))
    && forall c, tid: nat :: 0 <= c < n ==> QueueOf(census.q[c], tid) == QueuedAt(snap, body, |body|, c, tid)
  }

  lemma SameQueue(q: map<nat, nat>, q': map<nat, nat>)
    requires forall tid: nat :: QueueOf(q, tid) == QueueOf(q', tid)
    ensures q == q'
  {
    forall tid: nat ensures tid in q <==> tid in q' { assert QueueOf(q, tid) == QueueOf(q', tid); }
    forall tid | tid in q ensures q[tid] == q'[tid] { assert QueueOf(q, tid) == QueueOf(q', tid); }
  }

  lemma CensusMeans(snap: Snapshot, census: Snapshot, body: seq<Rec>, n: nat, st: State)
    requires SnapshotFor(snap, n) && SnapshotFor(census, n) && FitsAt(snap, body, |body|, st, n)
    ensures st.cur == census.cur && st.q == census.q <==> CensusRight(snap, census, body, n)
  {
    if CensusRight(snap, census, body, n) {
      forall c | 0 <= c < n ensures st.q[c] == census.q[c] {
        forall tid: nat ensures QueueOf(st.q[c], tid) == QueueOf(census.q[c], tid) {
          assert QueueOf(st.q[c], tid) == QueuedAt(snap, body, |body|, c, tid) == QueueOf(census.q[c], tid);
        }
        SameQueue(st.q[c], census.q[c]);
      }
    }
  }

  /** What is said of the trace: nothing, or the one obligation it fails. */
  ghost predicate VerdictIs(snap: Snapshot, census: Snapshot, body: seq<Rec>, n: nat, v: Option<Obligation>)
    requires SnapshotFor(snap, n) && SnapshotFor(census, n) && Framed(body, n)
  {
    Framing(body, n);
    if !Fine(body, snap.gens, snap.cells, 0, |body|) then v.Some? && exists i: nat :: FaultFirst(body, snap.gens, snap.cells, 0, i, v.value)
    else if !SnapOnce(snap) then v == Some(Natural)
    else if !FollowsTo(snap, body, |body|) then v.Some? && exists m: nat :: FaultyAt(snap, body, m, v.value) && FollowsTo(snap, body, m)
    else if !CensusRight(snap, census, body, n) || !AllAnswered(body) then v == Some(Natural)
    else if !RunsRight(body) then v == Some(Execution)
    else v == None
  }

  lemma FirstFault(body: seq<Rec>, gens: seq<nat>, cells: seq<nat>, i: nat, o: Obligation, i': nat, o': Obligation)
    requires |gens| == |cells| && InRange(body, |cells|)
    requires FaultFirst(body, gens, cells, 0, i, o) && FaultFirst(body, gens, cells, 0, i', o')
    ensures o == o'
  {
  }

  lemma FirstFaulty(snap: Snapshot, body: seq<Rec>, m: nat, o: Obligation, m': nat, o': Obligation)
    requires FaultyAt(snap, body, m, o) && FollowsTo(snap, body, m)
    requires FaultyAt(snap, body, m', o') && FollowsTo(snap, body, m')
    ensures o == o'
  {
  }

  /** The records determine what is said. */
  lemma VerdictUnique(snap: Snapshot, census: Snapshot, body: seq<Rec>, n: nat, v: Option<Obligation>, v': Option<Obligation>)
    requires SnapshotFor(snap, n) && SnapshotFor(census, n) && Framed(body, n)
    requires VerdictIs(snap, census, body, n, v) && VerdictIs(snap, census, body, n, v')
    ensures v == v'
  {
    Framing(body, n);
    if !Fine(body, snap.gens, snap.cells, 0, |body|) {
      var i: nat :| FaultFirst(body, snap.gens, snap.cells, 0, i, v.value);
      var i': nat :| FaultFirst(body, snap.gens, snap.cells, 0, i', v'.value);
      FirstFault(body, snap.gens, snap.cells, i, v.value, i', v'.value);
    } else if SnapOnce(snap) && !FollowsTo(snap, body, |body|) {
      var m: nat :| FaultyAt(snap, body, m, v.value) && FollowsTo(snap, body, m);
      var m': nat :| FaultyAt(snap, body, m', v'.value) && FollowsTo(snap, body, m');
      FirstFaulty(snap, body, m, v.value, m', v'.value);
    }
  }

  /** The body does not parse: the first record at fault says why. */
  lemma ParseVerdict(snap: Snapshot, census: Snapshot, body: seq<Rec>, n: nat, o: Obligation)
    requires SnapshotFor(snap, n) && SnapshotFor(census, n) && Framed(body, n)
    requires (forall r :: r in body ==> r.cpu < n) && ParseFrom(body, 0, snap.gens, snap.cells) == Failure(o)
    ensures VerdictIs(snap, census, body, n, Some(o))
  {
    Framing(body, n);
    ParseMeans(body, snap.gens, snap.cells);
    var i: nat :| FaultFirst(body, snap.gens, snap.cells, 0, i, o);
    assert RecordFault(body, i, snap.gens, snap.cells).Some?;
  }

  lemma ParsedFine(snap: Snapshot, body: seq<Rec>, n: nat, secs: seq<Section>)
    requires SnapshotFor(snap, n) && Framed(body, n) && ParseFrom(body, 0, snap.gens, snap.cells) == Success(secs)
    ensures InRange(body, n) && Fine(body, snap.gens, snap.cells, 0, |body|)
  {
    Framing(body, n);
    ParseMeans(body, snap.gens, snap.cells);
  }

  /** The checker. It accepts exactly the traces with nothing to say against
      them on the records, and otherwise names what the records fail. */
  method Grade(snap: Snapshot, census: Snapshot, body: seq<Rec>, n: nat) returns (verdict: Result<Graded, Obligation>)
    requires SnapshotFor(snap, n) && SnapshotFor(census, n) && Framed(body, n)
    ensures verdict.Success? ==> Accepted(snap, census, body, n, verdict.value)
    ensures verdict.Failure? ==> forall g :: !Accepted(snap, census, body, n, g)
    ensures VerdictIs(snap, census, body, n, if verdict.Success? then None else Some(verdict.error))
  {
    Framing(body, n);
    var parsed := ParseSections(body, snap.gens, snap.cells);
    if parsed.Failure? {
      ParseVerdict(snap, census, body, n, parsed.error);
      return Failure(parsed.error);
    }
    var secs := parsed.value;
    ParsedFine(snap, body, n, secs);
    ReplayMeans(snap, body, n, secs);
    SnapMeans(snap);
    if !SnapPlacedOnce(snap.cur, snap.q) { return Failure(Natural); }
    var replayed := ReplaySections(Start(snap.cur, snap.q), secs, n);
    if replayed.Failure? { return Failure(replayed.error); }
    var final := replayed.value;
    ghost var g := Graded(secs, final);
    assert Replayed(snap, body, n, g);
    CensusMeans(snap, census, body, n, final);
    if final.cur != census.cur || final.q != census.q { return Failure(Natural); }
    AnsweredMeans(snap, body, n, secs);
    var ok, _ := MatchNotifications(body, secs);
    if !ok { return Failure(Natural); }
    RunsMean(snap, body, n, g);
    ok := CheckRuns(final, body);
    if !ok { return Failure(Execution); }
    return Success(Graded(secs, final));
  }
}
