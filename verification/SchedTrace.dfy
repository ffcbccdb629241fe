/** The passes of the SCHED-LOCK1 checker: parse the trace between SNAP and
    CENSUS into scheduling sections, replay them, match remote additions with
    notifications, and check every observed execution against the timeline. */
module SchedTrace {
  import opened Machine

  /** Record kinds the four passes look at; every other kind is `Other`. */
  datatype Kind = Sec | Add | Rem | Uninstall | Notify | Run | Other

  datatype Rec = Rec(no: nat, kind: Kind, cpu: nat, exec: nat, f0: nat, f1: nat, f2: nat, f3: nat, f4: nat, f5: nat)

  datatype Obligation = Validity | LockInstance | NoOpSection | Natural | Installation | Execution

  /** Transport checks done before the passes: numbers ascend, CPUs in range. */
  ghost predicate Framed(body: seq<Rec>, n: nat) {
    && (forall i, j :: 0 <= i < j < |body| ==> body[i].no < body[j].no)
    && forall i :: 0 <= i < |body| ==> body[i].cpu < n && body[i].exec < n
  }

  function Dec(v: nat): Option<nat> { if v == 0 then None else Some(v - 1) }

  // ----------------------------------------------------------------- sections

  datatype End = End(tid: nat, iseq: nat, observed: bool)

  datatype Section = Section(no: nat, cpu: nat, exec: nat, gen: nat, before: Option<nat>, after: Option<nat>,
                             add: map<nat, nat>, rem: set<nat>, end: Option<End>)

  /** The `na` ADD and `nr` REM records after position `k` belong to its section. */
  predicate MembersOk(body: seq<Rec>, k: nat, na: nat, nr: nat)
    requires k < |body|
  {
    && k + 1 + na + nr <= |body|
    && (forall i :: k < i <= k + na ==> body[i].kind == Add)
    && (forall i :: k + na < i <= k + na + nr ==> body[i].kind == Rem)
  }

  predicate Belongs(p: Rec, r: Rec) { p.cpu == r.cpu && p.exec == r.exec && p.f0 == r.f0 }

  predicate DistinctTids(part: seq<Rec>) {
    forall i, j :: 0 <= i < j < |part| ==> part[i].f1 != part[j].f1
  }

  function Added(part: seq<Rec>): map<nat, nat> {
    if part == [] then map[] else Added(part[..|part| - 1])[part[|part| - 1].f1 := part[|part| - 1].f2]
  }

  function Removed(part: seq<Rec>): set<nat> { set p | p in part :: p.f1 }

  predicate EndsAt(body: seq<Rec>, u: nat) { u < |body| && body[u].kind == Uninstall }

  /** The section whose SEC record stands at `k`, and how many records it spans. */
  function ParseSection(body: seq<Rec>, k: nat, lastGen: nat, cell: nat): Result<(Section, nat), Obligation>
    requires k < |body|
  {
    var r := body[k];
    var na, nr := r.f3, r.f4;
    if !MembersOk(body, k, na, nr) then Failure(Validity)
    else
      var part := body[k + 1..k + 1 + na + nr];
      if exists p :: p in part && !Belongs(p, r) then Failure(Validity)
      else if !DistinctTids(part) then Failure(Validity)
      else if r.f0 <= lastGen then Failure(Validity)
      else if r.f5 != cell then Failure(LockInstance)
      else if r.f1 == r.f2 && na == 0 && nr == 0 then Failure(NoOpSection)
      else
        var u := k + 1 + na + nr;
        if EndsAt(body, u) && (!Belongs(body[u], r) || body[u].f3 !in {0, 1}) then Failure(Validity)
        else
          var end := if EndsAt(body, u) then Some(End(body[u].f1, body[u].f2, body[u].f3 == 1)) else None;
          Success((Section(r.no, r.cpu, r.exec, r.f0, Dec(r.f1), Dec(r.f2), Added(part[..na]), Removed(part[na..]), end),
                   1 + na + nr + if end.Some? then 1 else 0))
  }

  function ParseFrom(body: seq<Rec>, k: nat, lastGen: seq<nat>, cells: seq<nat>): Result<seq<Section>, Obligation>
    requires k <= |body| && |lastGen| == |cells|
    requires forall r :: r in body ==> r.cpu < |cells|
    decreases |body| - k
  {
    if k == |body| then Success([])
    else
      var r := body[k];
      if r.kind in {Add, Rem, Uninstall} then Failure(Validity)
      else if r.kind != Sec then ParseFrom(body, k + 1, lastGen, cells)
      else
        var (s, span) :- ParseSection(body, k, lastGen[r.cpu], cells[r.cpu]);
        var rest :- ParseFrom(body, k + span, lastGen[r.cpu := s.gen], cells);
        Success([s] + rest)
  }

  function Prepend(done: seq<Section>, rest: Result<seq<Section>, Obligation>): Result<seq<Section>, Obligation> {
    match rest
    case Success(s) => Success(done + s)
    case Failure(e) => Failure(e)
  }

  method ParseSections(body: seq<Rec>, gens: seq<nat>, cells: seq<nat>)
    returns (outcome: Result<seq<Section>, Obligation>)
    requires |gens| == |cells| && forall r :: r in body ==> r.cpu < |cells|
    ensures outcome == ParseFrom(body, 0, gens, cells)
  {
    var secs: seq<Section> := [];
    var k: nat := 0;
    var lastGen: seq<nat> := gens;
    assert Prepend([], ParseFrom(body, 0, gens, cells)) == ParseFrom(body, 0, gens, cells) by { PrependNone(ParseFrom(body, 0, gens, cells)); }
    while k < |body|
      invariant k <= |body| && |lastGen| == |cells|
      invariant ParseFrom(body, 0, gens, cells) == Prepend(secs, ParseFrom(body, k, lastGen, cells))
      decreases |body| - k
    {
      var r := body[k];
      if r.kind in {Add, Rem, Uninstall} { return Failure(Validity); }
      if r.kind != Sec {
        k := k + 1;
        continue;
      }
      var parsed := ParseSection(body, k, lastGen[r.cpu], cells[r.cpu]);
      if parsed.Failure? { return Failure(parsed.error); }
      var (s, span) := parsed.value;
      PrependMore(secs, s, ParseFrom(body, k + span, lastGen[r.cpu := s.gen], cells));
      secs := secs + [s];
      lastGen := lastGen[r.cpu := s.gen];
      k := k + span;
    }
    assert secs + [] == secs;
    return Success(secs);
  }

  lemma PrependNone(rest: Result<seq<Section>, Obligation>)
    ensures Prepend([], rest) == rest
  {
    if rest.Success? { assert [] + rest.value == rest.value; }
  }

  lemma PrependMore(done: seq<Section>, s: Section, rest: Result<seq<Section>, Obligation>)
    ensures Prepend(done, Prepend([s], rest)) == Prepend(done + [s], rest)
  {
    if rest.Success? { assert done + ([s] + rest.value) == done + [s] + rest.value; }
  }

  // ------------------------------------------------------------------- replay

  /** An installation: a section gave a CPU a new current task, not task 0. */
  datatype Install = Install(cpu: nat, tid: nat, gen: nat, end: Option<nat>, endGen: nat, observed: bool)

  datatype Mark = Mark(no: nat, inForce: Option<nat>, current: Option<nat>)

  datatype State = State(cur: seq<Option<nat>>, q: seq<map<nat, nat>>, inForce: seq<Option<nat>>,
                         installs: map<nat, Install>, timeline: seq<seq<Mark>>)

  ghost predicate Shaped(st: State, n: nat) {
    && |st.cur| == n && |st.q| == n && |st.inForce| == n && |st.timeline| == n
    && forall c :: 0 <= c < n && st.inForce[c].Some? ==> st.inForce[c].value in st.installs
  }

  datatype Place = OnCpu(cpu: nat) | InQueue(cpu: nat)

  function CurrentOn(cur: seq<Option<nat>>, tid: nat): seq<Place> {
    if cur == [] then []
    else
      var c := |cur| - 1;
      CurrentOn(cur[..c], tid) + if cur[c] == Some(tid) then [OnCpu(c)] else []
  }

  function QueuedOn(q: seq<map<nat, nat>>, tid: nat): seq<Place> {
    if q == [] then []
    else
      var c := |q| - 1;
      QueuedOn(q[..c], tid) + if tid in q[c] then [InQueue(c)] else []
  }

  /** Everywhere a task is placed: as some CPU's current, in some CPU's queue. */
  function Placements(cur: seq<Option<nat>>, q: seq<map<nat, nat>>, tid: nat): seq<Place> {
    CurrentOn(cur, tid) + QueuedOn(q, tid)
  }

  function Named(t: Option<nat>): set<nat> { if t.Some? then {t.value} else {} }

  function Touched(s: Section): set<nat> { (Named(s.before) + Named(s.after) + s.add.Keys + s.rem) - {0} }

  /** The queue a section leaves on its CPU. */
  function Queued(queue: map<nat, nat>, s: Section): Result<map<nat, nat>, Obligation> {
    if !(s.rem <= queue.Keys) then Failure(Natural)
    else if (queue.Keys - s.rem) * s.add.Keys != {} then Failure(Natural)
    else Success((queue - s.rem) + s.add)
  }

  predicate Installs(s: Section) { s.after != s.before && s.after.Some? && s.after.value != 0 }

  /** Restoring a task that was not queued here requires it to be nowhere. */
  predicate RestoresPlaced(cur: seq<Option<nat>>, q: seq<map<nat, nat>>, s: Section) {
    Installs(s) && s.after.value !in s.rem && Placements(cur, q, s.after.value) != []
  }

  predicate Ends(st: State, s: Section)
    requires s.cpu < |st.inForce| && (st.inForce[s.cpu].Some? ==> st.inForce[s.cpu].value in st.installs)
  {
    && st.inForce[s.cpu].Some? && s.before == Some(st.installs[st.inForce[s.cpu].value].tid)
    && s.after != s.before
  }

  /** The section records the end of an installation exactly when it ends one. */
  predicate EndRecorded(st: State, s: Section)
    requires s.cpu < |st.inForce| && (st.inForce[s.cpu].Some? ==> st.inForce[s.cpu].value in st.installs)
  {
    if Ends(st, s)
    then && s.end.Some? && s.end.value.tid == st.installs[st.inForce[s.cpu].value].tid
         && s.end.value.iseq == st.inForce[s.cpu].value
    else s.end.None?
  }

  /** The installations after the section: one ended, one begun. */
  function Reinstall(st: State, s: Section): (map<nat, Install>, Option<nat>)
    requires s.cpu < |st.inForce| && (st.inForce[s.cpu].Some? ==> st.inForce[s.cpu].value in st.installs)
    requires EndRecorded(st, s)
  {
    var ended := if Ends(st, s)
                 then var i := st.inForce[s.cpu].value;
                      st.installs[i := st.installs[i].(end := Some(s.no), endGen := s.gen, observed := s.end.value.observed)]
                 else st.installs;
    var left := if Ends(st, s) then None else st.inForce[s.cpu];
    if Installs(s)
    then (ended[s.no := Install(s.cpu, s.after.value, s.gen, None, 0, false)], Some(s.no))
    else (ended, left)
  }

  predicate PlacedTwice(cur: seq<Option<nat>>, q: seq<map<nat, nat>>, s: Section) {
    exists tid :: tid in Touched(s) && |Placements(cur, q, tid)| > 1
  }

  function Step(st: State, s: Section): Result<State, Obligation>
    requires s.cpu < |st.cur| == |st.q| == |st.inForce| == |st.timeline|
    requires st.inForce[s.cpu].Some? ==> st.inForce[s.cpu].value in st.installs
  {
    var c := s.cpu;
    if st.cur[c] != s.before then Failure(Natural)
    else
      var queue :- Queued(st.q[c], s);
      var q := st.q[c := queue];
      if RestoresPlaced(st.cur, q, s) then Failure(Natural)
      else
        var cur := st.cur[c := s.after];
        if !EndRecorded(st, s) then Failure(Installation)
        else
          var (installs, left) := Reinstall(st, s);
          if PlacedTwice(cur, q, s) then Failure(Natural)
          else Success(State(cur, q, st.inForce[c := left], installs,
                             st.timeline[c := st.timeline[c] + [Mark(s.no, left, s.after)]]))
  }

  ghost predicate CpusBelow(secs: seq<Section>, n: nat) { forall i :: 0 <= i < |secs| ==> secs[i].cpu < n }

  lemma StepShaped(st: State, s: Section, n: nat)
    requires Shaped(st, n) && s.cpu < n && Step(st, s).Success?
    ensures Shaped(Step(st, s).value, n)
  {
  }

  /** The run over all sections, front to back. */
  ghost function Replay(st: State, secs: seq<Section>, n: nat): (r: Result<State, Obligation>)
    requires Shaped(st, n) && CpusBelow(secs, n)
    ensures r.Success? ==> Shaped(r.value, n)
  {
    if secs == [] then Success(st)
    else
      var k := |secs| - 1;
      var prev :- Replay(st, secs[..k], n);
      assert secs[k].cpu < n;
      if Step(prev, secs[k]).Success? then (StepShaped(prev, secs[k], n); Step(prev, secs[k])) else Step(prev, secs[k])
  }

  lemma {:induction false} ReplayStops(st: State, secs: seq<Section>, n: nat, k: nat)
    requires Shaped(st, n) && CpusBelow(secs, n) && k <= |secs| && Replay(st, secs[..k], n).Failure?
    ensures Replay(st, secs, n) == Replay(st, secs[..k], n)
    decreases |secs|
  {
    if k < |secs| {
      assert secs[..|secs| - 1][..k] == secs[..k];
      ReplayStops(st, secs[..|secs| - 1], n, k);
    } else {
      assert secs[..k] == secs;
    }
  }

  method ReplaySections(start: State, secs: seq<Section>, n: nat) returns (outcome: Result<State, Obligation>)
    requires Shaped(start, n) && CpusBelow(secs, n)
    ensures outcome == Replay(start, secs, n)
  {
    var st := start;
    for k := 0 to |secs|
      invariant Replay(start, secs[..k], n) == Success(st)
    {
      var s := secs[k];
      assert secs[..k + 1][..k] == secs[..k] && secs[..k + 1][k] == s;
      var step := Step(st, s);
      if step.Failure? {
        ReplayStops(start, secs, n, k + 1);
        return step;
      }
      st := step.value;
    }
    assert secs[..|secs|] == secs;
    return Success(st);
  }

  /** SNAP: every task but 0 that is placed at all is placed once. */
  predicate SnapPlacedOnce(cur: seq<Option<nat>>, q: seq<map<nat, nat>>) {
    && (forall c :: 0 <= c < |cur| && cur[c].Some? && cur[c].value != 0 ==> |Placements(cur, q, cur[c].value)| <= 1)
    && forall c, tid :: 0 <= c < |q| && tid in q[c] && tid != 0 ==> |Placements(cur, q, tid)| <= 1
  }

  function Start(cur: seq<Option<nat>>, q: seq<map<nat, nat>>): State {
    State(cur, q, seq(|cur|, _ => None), map[], seq(|cur|, _ => []))
  }

  // ------------------------------------------------------------ notifications

  /** One remote addition and the notification that answered it. */
  datatype Match = Match(key: (nat, nat), added: nat, notified: nat)

  datatype Mail = Mail(pending: map<(nat, nat), seq<nat>>, matched: seq<Match>)

  predicate RemoteAdd(r: Rec) { r.kind == Sec && r.exec != r.cpu && r.f3 > 0 }

  function Waiting(m: Mail, key: (nat, nat)): seq<nat> { if key in m.pending then m.pending[key] else [] }

  function MailStep(m: Mail, r: Rec): Mail {
    var key := (r.exec, r.cpu);
    if RemoteAdd(r) then m.(pending := m.pending[key := Waiting(m, key) + [r.no]])
    else if r.kind == Notify && Waiting(m, key) != []
    then Mail(m.pending[key := Waiting(m, key)[1..]], m.matched + [Match(key, Waiting(m, key)[0], r.no)])
    else m
  }

  function Post(body: seq<Rec>): Mail {
    if body == [] then Mail(map[], []) else MailStep(Post(body[..|body| - 1]), body[|body| - 1])
  }

  predicate LaterSection(secs: seq<Section>, e: nat, no: nat) {
    exists i :: 0 <= i < |secs| && secs[i].exec == e && secs[i].no > no
  }

  /** Nothing left pending was followed by another section of the same CPU. */
  predicate AllNotified(m: Mail, secs: seq<Section>) {
    forall key, i :: key in m.pending && 0 <= i < |m.pending[key]| ==> !LaterSection(secs, key.0, m.pending[key][i])
  }

  method MatchNotifications(body: seq<Rec>, secs: seq<Section>) returns (ok: bool, mail: Mail)
    ensures mail == Post(body) && ok == AllNotified(mail, secs)
  {
    mail := Mail(map[], []);
    for k := 0 to |body|
      invariant mail == Post(body[..k])
    {
      assert body[..k + 1][..k] == body[..k];
      mail := MailStep(mail, body[k]);
    }
    assert body[..|body|] == body;
    ok := AllNotified(mail, secs);
  }

  // --------------------------------------------------------------- executions

  /** CPU `c`'s last mark at or before record `no`. */
  function InForceAt(marks: seq<Mark>, no: nat): Option<nat> {
    if marks == [] then None
    else
      var last := marks[|marks| - 1];
      if last.no <= no then last.inForce else InForceAt(marks[..|marks| - 1], no)
  }

  /** The installation RUN names exists, for this task and CPU, and came first. */
  predicate NamesInstall(st: State, r: Rec) {
    && r.f4 in st.installs
    && st.installs[r.f4].cpu == r.cpu && st.installs[r.f4].gen == r.f2 && st.installs[r.f4].tid == r.f0
    && r.f4 < r.no && r.f3 >= r.f2 && r.exec == r.cpu && r.f1 != 0 && r.f5 in {1, 2}
  }

  /** RUN agrees with the timeline of the installation it names. */
  predicate AgreesWithTimeline(st: State, r: Rec)
    requires r.f4 in st.installs && r.cpu < |st.timeline|
  {
    var i := st.installs[r.f4];
    var afterEnd := i.end.Some? && i.end.value < r.no;
    && (afterEnd ==> i.observed)
    && (!afterEnd ==> InForceAt(st.timeline[r.cpu], r.no) == Some(r.f4))
    && (!afterEnd && i.end.Some? ==> i.observed)
    && (i.end.Some? ==> r.f3 <= i.endGen)
  }

  function RunStep(st: State, seen: set<nat>, r: Rec): Option<set<nat>>
    requires r.cpu < |st.timeline|
  {
    if r.kind != Run then Some(seen)
    else if !NamesInstall(st, r) || r.f4 in seen || !AgreesWithTimeline(st, r) then None
    else Some(seen + {r.f4})
  }

  /** The installations observed running, or `None` at the first bad RUN. */
  function Runs(st: State, body: seq<Rec>): Option<set<nat>>
    requires forall i :: 0 <= i < |body| ==> body[i].cpu < |st.timeline|
  {
    if body == [] then Some({})
    else
      var k := |body| - 1;
      var seen :- Runs(st, body[..k]);
      RunStep(st, seen, body[k])
  }

  /** Every end that reports its installation observed has its RUN. */
  predicate ObservedSeen(st: State, seen: set<nat>) {
    forall i :: i in st.installs && st.installs[i].end.Some? && st.installs[i].observed ==> i in seen
  }

  lemma {:induction false} RunsStop(st: State, body: seq<Rec>, k: nat)
    requires k <= |body| && forall i :: 0 <= i < |body| ==> body[i].cpu < |st.timeline|
    requires Runs(st, body[..k]).None?
    ensures Runs(st, body).None?
    decreases |body|
  {
    if k < |body| {
      assert body[..|body| - 1][..k] == body[..k];
      RunsStop(st, body[..|body| - 1], k);
    } else {
      assert body[..k] == body;
    }
  }

  method CheckRuns(st: State, body: seq<Rec>) returns (ok: bool)
    requires forall i :: 0 <= i < |body| ==> body[i].cpu < |st.timeline|
    ensures ok <==> Runs(st, body).Some? && ObservedSeen(st, Runs(st, body).value)
  {
    var seen: set<nat> := {};
    for k := 0 to |body|
      invariant Runs(st, body[..k]) == Some(seen)
    {
      assert body[..k + 1][..k] == body[..k];
      var step := RunStep(st, seen, body[k]);
      if step.None? {
        RunsStop(st, body, k + 1);
        return false;
      }
      seen := step.value;
    }
    assert body[..|body|] == body;
    return ObservedSeen(st, seen);
  }

  // ------------------------------------------------------------------ acceptance

  datatype Snapshot = Snapshot(cur: seq<Option<nat>>, gens: seq<nat>, q: seq<map<nat, nat>>, cells: seq<nat>)

  ghost predicate SnapshotFor(s: Snapshot, n: nat) { |s.cur| == |s.gens| == |s.q| == |s.cells| == n }

  datatype Graded = Graded(secs: seq<Section>, final: State)

  /** The sections parse and replay from SNAP. */
  ghost predicate Replayed(snap: Snapshot, body: seq<Rec>, n: nat, g: Graded)
    requires SnapshotFor(snap, n) && Framed(body, n)
  {
    && ParseFrom(body, 0, snap.gens, snap.cells) == Success(g.secs)
    && CpusBelow(g.secs, n)
    && SnapPlacedOnce(snap.cur, snap.q)
    && Shaped(Start(snap.cur, snap.q), n)
    && Replay(Start(snap.cur, snap.q), g.secs, n) == Success(g.final)
    && |g.final.timeline| == n
  }

  /** Everything a graded trace has passed. */
  ghost predicate Accepted(snap: Snapshot, census: Snapshot, body: seq<Rec>, n: nat, g: Graded)
    requires SnapshotFor(snap, n) && SnapshotFor(census, n) && Framed(body, n)
  {
    && Replayed(snap, body, n, g)
    && g.final.cur == census.cur && g.final.q == census.q
    && AllNotified(Post(body), g.secs)
    && Runs(g.final, body).Some? && ObservedSeen(g.final, Runs(g.final, body).value)
  }

  lemma {:induction false} ParsedCpus(body: seq<Rec>, k: nat, lastGen: seq<nat>, cells: seq<nat>)
    requires k <= |body| && |lastGen| == |cells|
    requires forall r :: r in body ==> r.cpu < |cells|
    ensures var out := ParseFrom(body, k, lastGen, cells);
            out.Success? ==> CpusBelow(out.value, |cells|)
    decreases |body| - k
  {
    if k < |body| && body[k].kind !in {Add, Rem, Uninstall} {
      if body[k].kind != Sec {
        ParsedCpus(body, k + 1, lastGen, cells);
      } else {
        var parsed := ParseSection(body, k, lastGen[body[k].cpu], cells[body[k].cpu]);
        if parsed.Success? {
          ParsedCpus(body, k + parsed.value.1, lastGen[body[k].cpu := parsed.value.0.gen], cells);
        }
      }
    }
  }
}
