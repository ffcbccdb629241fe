/** Installation intervals in an accepted SCHED-LOCK1 trace, and the observed
    executions inside them. */
module SchedInstalls {
  import opened Machine
  import opened SchedTrace
  import opened SchedPlacement

  // ------------------------------------------------------- order of sections

  /** Record numbers ascend, and so do the generations of one CPU. */
  ghost predicate Ordered(secs: seq<Section>) {
    forall i, j :: 0 <= i < j < |secs| ==>
      secs[i].no < secs[j].no && (secs[i].cpu == secs[j].cpu ==> secs[i].gen < secs[j].gen)
  }

  /** The SEC record a section was parsed from. */
  ghost predicate ParsedAt(body: seq<Rec>, m: nat, s: Section) {
    && m < |body| && body[m].kind == Sec && body[m].no == s.no
    && body[m].cpu == s.cpu && body[m].exec == s.exec && body[m].f0 == s.gen
  }

  ghost predicate ParsedFrom(body: seq<Rec>, k: nat, s: Section) {
    exists m: nat :: k <= m && ParsedAt(body, m, s)
  }

  ghost predicate Origins(body: seq<Rec>, k: nat, lastGen: seq<nat>, secs: seq<Section>) {
    forall i :: 0 <= i < |secs| ==>
      ParsedFrom(body, k, secs[i]) && secs[i].cpu < |lastGen| && lastGen[secs[i].cpu] < secs[i].gen
  }

  lemma OriginsEarlier(body: seq<Rec>, k: nat, k': nat, lastGen: seq<nat>, secs: seq<Section>)
    requires k <= k' && Origins(body, k', lastGen, secs)
    ensures Origins(body, k, lastGen, secs)
  {
    forall i | 0 <= i < |secs|
      ensures ParsedFrom(body, k, secs[i])
      ensures secs[i].cpu < |lastGen| && lastGen[secs[i].cpu] < secs[i].gen
    {
      assert ParsedFrom(body, k', secs[i]);
      var m: nat :| k' <= m && ParsedAt(body, m, secs[i]);
    }
  }

  lemma OriginsCons(body: seq<Rec>, k: nat, span: nat, lastGen: seq<nat>, s: Section, rest: seq<Section>)
    requires k < |body| && ParsedAt(body, k, s) && span > 0 && s.cpu < |lastGen| && lastGen[s.cpu] < s.gen
    requires Origins(body, k + span, lastGen[s.cpu := s.gen], rest)
    ensures Origins(body, k, lastGen, [s] + rest)
  {
    forall i | 0 <= i < |[s] + rest|
      ensures ParsedFrom(body, k, ([s] + rest)[i])
      ensures ([s] + rest)[i].cpu < |lastGen| && lastGen[([s] + rest)[i].cpu] < ([s] + rest)[i].gen
    {
      if i == 0 {
        assert ParsedAt(body, k, ([s] + rest)[0]);
      } else {
        assert ([s] + rest)[i] == rest[i - 1];
        assert ParsedFrom(body, k + span, rest[i - 1]);
        var m: nat :| k + span <= m && ParsedAt(body, m, rest[i - 1]);
        assert ParsedAt(body, m, ([s] + rest)[i]);
      }
    }
  }

  lemma OrderedCons(body: seq<Rec>, n: nat, k: nat, span: nat, lastGen: seq<nat>, s: Section, rest: seq<Section>)
    requires Framed(body, n) && ParsedAt(body, k, s) && span > 0 && s.cpu < |lastGen|
    requires Ordered(rest) && Origins(body, k + span, lastGen[s.cpu := s.gen], rest)
    ensures Ordered([s] + rest)
  {
    forall j | 0 <= j < |rest| ensures s.no < rest[j].no && (s.cpu == rest[j].cpu ==> s.gen < rest[j].gen) {
      assert ParsedFrom(body, k + span, rest[j]);
      var m: nat :| k + span <= m && ParsedAt(body, m, rest[j]);
      assert body[k].no < body[m].no;
    }
    var all := [s] + rest;
    forall i, j | 0 <= i < j < |all| ensures all[i].no < all[j].no && (all[i].cpu == all[j].cpu ==> all[i].gen < all[j].gen) {
      assert all[j] == rest[j - 1];
      if i > 0 { assert all[i] == rest[i - 1]; }
    }
  }

  lemma {:induction false} ParseOrdered(body: seq<Rec>, k: nat, lastGen: seq<nat>, cells: seq<nat>)
    requires k <= |body| && |lastGen| == |cells| && Framed(body, |cells|)
    ensures var out := ParseFrom(body, k, lastGen, cells);
            out.Success? ==> Ordered(out.value) && Origins(body, k, lastGen, out.value)
    decreases |body| - k
  {
    if k < |body| && ParseFrom(body, k, lastGen, cells).Success? {
      if body[k].kind != Sec {
        ParseOrdered(body, k + 1, lastGen, cells);
        OriginsEarlier(body, k, k + 1, lastGen, ParseFrom(body, k + 1, lastGen, cells).value);
      } else {
        var (s, span) := ParseSection(body, k, lastGen[body[k].cpu], cells[body[k].cpu]).value;
        var next := lastGen[s.cpu := s.gen];
        ParseOrdered(body, k + span, next, cells);
        var rest := ParseFrom(body, k + span, next, cells).value;
        assert ParsedAt(body, k, s);
        OriginsCons(body, k, span, lastGen, s, rest);
        OrderedCons(body, |cells|, k, span, lastGen, s, rest);
      }
    }
  }

  // -------------------------------------------------------------- the invariant

  /** The section that made installation `i`. */
  ghost predicate MadeBy(secs: seq<Section>, k: nat, i: nat, x: Install) {
    && k < |secs| && secs[k].no == i && secs[k].cpu == x.cpu && secs[k].gen == x.gen
    && Installs(secs[k]) && secs[k].after == Some(x.tid)
  }

  /** The section that ended it: one that began with its task current and left
      another, and recorded whether the task had been observed running. */
  ghost predicate EndedBy(secs: seq<Section>, k: nat, i: nat, x: Install) {
    && k < |secs| && Some(secs[k].no) == x.end && secs[k].cpu == x.cpu && secs[k].gen == x.endGen
    && secs[k].before == Some(x.tid) && secs[k].after != secs[k].before
    && secs[k].end == Some(End(x.tid, i, x.observed))
  }

  /** What is in force on a CPU is open and names the CPU's current task. */
  ghost predicate InForceCurrent(st: State) {
    |st.cur| == |st.inForce| && forall c :: 0 <= c < |st.inForce| && st.inForce[c].Some? ==>
      && st.inForce[c].value in st.installs && st.installs[st.inForce[c].value].cpu == c
      && st.installs[st.inForce[c].value].end.None? && st.cur[c] == Some(st.installs[st.inForce[c].value].tid)
  }

  /** Every open installation is in force on its CPU. */
  ghost predicate OpenInForce(st: State) {
    forall i :: i in st.installs ==>
      && st.installs[i].cpu < |st.inForce| && st.installs[i].tid != 0
      && (st.installs[i].end.None? ==> st.inForce[st.installs[i].cpu] == Some(i))
  }

  ghost predicate Documented(st: State, secs: seq<Section>) {
    forall i :: i in st.installs ==>
      && (exists k: nat :: MadeBy(secs, k, i, st.installs[i]))
      && (st.installs[i].end.Some? ==> exists k: nat :: EndedBy(secs, k, i, st.installs[i]))
  }

  /** Installation intervals on one CPU do not overlap. */
  ghost predicate Apart(st: State) {
    forall i, j :: i in st.installs && j in st.installs && i < j && st.installs[i].cpu == st.installs[j].cpu ==>
      st.installs[i].end.Some? && st.installs[i].end.value <= j
  }

  ghost predicate EndsLater(st: State) {
    forall i :: i in st.installs && st.installs[i].end.Some? ==>
      i < st.installs[i].end.value && st.installs[i].gen < st.installs[i].endGen
  }

  ghost predicate Inv(st: State, secs: seq<Section>, n: nat) {
    && Shaped(st, n) && InForceCurrent(st) && OpenInForce(st) && Documented(st, secs) && Apart(st) && EndsLater(st)
  }

  /** The section number and generation exceed everything recorded so far. */
  ghost predicate Fresh(st: State, s: Section) {
    forall i :: i in st.installs ==>
      && i < s.no && (st.installs[i].end.Some? ==> st.installs[i].end.value < s.no)
      && (st.installs[i].cpu == s.cpu ==> st.installs[i].gen < s.gen)
  }

  lemma DocumentedFresh(st: State, secs: seq<Section>, s: Section)
    requires Documented(st, secs) && Ordered(secs + [s])
    ensures Fresh(st, s)
  {
    var all := secs + [s];
    assert all[|secs|] == s;
    forall i | i in st.installs
      ensures i < s.no && (st.installs[i].end.Some? ==> st.installs[i].end.value < s.no)
      ensures st.installs[i].cpu == s.cpu ==> st.installs[i].gen < s.gen
    {
      var k: nat :| MadeBy(secs, k, i, st.installs[i]);
      assert all[k] == secs[k];
      if st.installs[i].end.Some? {
        var e: nat :| EndedBy(secs, e, i, st.installs[i]);
        assert all[e] == secs[e];
      }
    }
  }

  ghost function Left(st: State, s: Section): Option<nat>
    requires s.cpu < |st.inForce|
  {
    if Installs(s) then Some(s.no) else if s.after != s.before then None else st.inForce[s.cpu]
  }

  /** With the invariant, a section ends what is in force exactly when it
      changes the current task. */
  lemma StepShape(st: State, s: Section, n: nat)
    requires Shaped(st, n) && InForceCurrent(st) && s.cpu < n && Step(st, s).Success?
    ensures Ends(st, s) <==> st.inForce[s.cpu].Some? && s.after != s.before
    ensures EndRecorded(st, s)
    ensures var st' := Step(st, s).value;
            && st'.cur == st.cur[s.cpu := s.after] && st'.inForce == st.inForce[s.cpu := Left(st, s)]
            && st'.installs == Reinstall(st, s).0
            && st'.timeline == st.timeline[s.cpu := st.timeline[s.cpu] + [Mark(s.no, Left(st, s), s.after)]]
  {
  }

  /** Installation `i` after the section, in terms of before. */
  lemma InstallAfter(st: State, s: Section, n: nat, i: nat)
    requires Shaped(st, n) && InForceCurrent(st) && s.cpu < n && Step(st, s).Success? && Fresh(st, s)
    ensures var next := Step(st, s).value.installs;
            && (i in next <==> i in st.installs || (Installs(s) && i == s.no))
            && (Installs(s) && i == s.no ==> next[i] == Install(s.cpu, s.after.value, s.gen, None, 0, false))
            && (i in st.installs ==>
                  && i != s.no
                  && next[i] == (if Ends(st, s) && st.inForce[s.cpu] == Some(i)
                                 then st.installs[i].(end := Some(s.no), endGen := s.gen, observed := s.end.value.observed)
                                 else st.installs[i]))
  {
    StepShape(st, s, n);
  }

  lemma StepInForceCurrent(st: State, s: Section, n: nat)
    requires Shaped(st, n) && InForceCurrent(st) && s.cpu < n && Step(st, s).Success? && Fresh(st, s)
    ensures InForceCurrent(Step(st, s).value)
  {
    var st' := Step(st, s).value;
    StepShape(st, s, n);
    forall c | 0 <= c < |st'.inForce| && st'.inForce[c].Some?
      ensures var i := st'.inForce[c].value;
              && i in st'.installs && st'.installs[i].cpu == c
              && st'.installs[i].end.None? && st'.cur[c] == Some(st'.installs[i].tid)
    {
      InstallAfter(st, s, n, st'.inForce[c].value);
    }
  }

  lemma StepOpenInForce(st: State, s: Section, n: nat)
    requires Shaped(st, n) && InForceCurrent(st) && OpenInForce(st) && s.cpu < n && Step(st, s).Success? && Fresh(st, s)
    ensures OpenInForce(Step(st, s).value)
  {
    var st' := Step(st, s).value;
    StepShape(st, s, n);
    forall i | i in st'.installs
      ensures st'.installs[i].cpu < |st'.inForce| && st'.installs[i].tid != 0
      ensures st'.installs[i].end.None? ==> st'.inForce[st'.installs[i].cpu] == Some(i)
    {
      InstallAfter(st, s, n, i);
    }
  }

  lemma StepDocumented(st: State, secs: seq<Section>, s: Section, n: nat)
    requires Shaped(st, n) && InForceCurrent(st) && s.cpu < n && Step(st, s).Success? && Fresh(st, s)
    requires Documented(st, secs)
    ensures Documented(Step(st, s).value, secs + [s])
  {
    var st', all := Step(st, s).value, secs + [s];
    assert all[|secs|] == s;
    StepShape(st, s, n);
    forall i | i in st'.installs
      ensures exists k: nat :: MadeBy(all, k, i, st'.installs[i])
      ensures st'.installs[i].end.Some? ==> exists k: nat :: EndedBy(all, k, i, st'.installs[i])
    {
      InstallAfter(st, s, n, i);
      if i in st.installs {
        DocumentedLater(st, secs, s, i, st'.installs[i]);
        if Ends(st, s) && st.inForce[s.cpu] == Some(i) { assert EndedBy(all, |secs|, i, st'.installs[i]); }
      } else {
        assert MadeBy(all, |secs|, i, st'.installs[i]);
      }
    }
  }

  lemma DocumentedLater(st: State, secs: seq<Section>, s: Section, i: nat, x: Install)
    requires Documented(st, secs) && i in st.installs
    requires x.cpu == st.installs[i].cpu && x.gen == st.installs[i].gen && x.tid == st.installs[i].tid
    ensures exists k: nat :: MadeBy(secs + [s], k, i, x)
    ensures x == st.installs[i] && x.end.Some? ==> exists k: nat :: EndedBy(secs + [s], k, i, x)
  {
    var k: nat :| MadeBy(secs, k, i, st.installs[i]);
    assert (secs + [s])[k] == secs[k];
    assert MadeBy(secs + [s], k, i, x);
    if x == st.installs[i] && x.end.Some? {
      var e: nat :| EndedBy(secs, e, i, x);
      assert (secs + [s])[e] == secs[e];
      assert EndedBy(secs + [s], e, i, x);
    }
  }

  lemma StepApart(st: State, s: Section, n: nat)
    requires Shaped(st, n) && InForceCurrent(st) && OpenInForce(st) && s.cpu < n && Step(st, s).Success? && Fresh(st, s)
    requires Apart(st) && EndsLater(st)
    ensures Apart(Step(st, s).value) && EndsLater(Step(st, s).value)
  {
    var st' := Step(st, s).value;
    StepShape(st, s, n);
    forall i, j | i in st'.installs && j in st'.installs && i < j && st'.installs[i].cpu == st'.installs[j].cpu
      ensures st'.installs[i].end.Some? && st'.installs[i].end.value <= j
    {
      InstallAfter(st, s, n, i);
      InstallAfter(st, s, n, j);
    }
    forall i | i in st'.installs && st'.installs[i].end.Some?
      ensures i < st'.installs[i].end.value && st'.installs[i].gen < st'.installs[i].endGen
    {
      InstallAfter(st, s, n, i);
    }
  }

  lemma StepInv(st: State, secs: seq<Section>, s: Section, n: nat)
    requires Inv(st, secs, n) && s.cpu < n && Step(st, s).Success? && Ordered(secs + [s])
    ensures Inv(Step(st, s).value, secs + [s], n)
  {
    DocumentedFresh(st, secs, s);
    StepShaped(st, s, n);
    StepInForceCurrent(st, s, n);
    StepOpenInForce(st, s, n);
    StepDocumented(st, secs, s, n);
    StepApart(st, s, n);
  }

  lemma {:induction false} ReplayInv(st: State, secs: seq<Section>, n: nat)
    requires Inv(st, [], n) && CpusBelow(secs, n) && Ordered(secs) && Replay(st, secs, n).Success?
    ensures Inv(Replay(st, secs, n).value, secs, n)
  {
    if secs != [] {
      var k := |secs| - 1;
      ReplayInv(st, secs[..k], n);
      assert secs == secs[..k] + [secs[k]];
      StepInv(Replay(st, secs[..k], n).value, secs[..k], secs[k], n);
    }
  }

  lemma ReplayedInv(snap: Snapshot, body: seq<Rec>, n: nat, g: Graded, k: nat)
    requires SnapshotFor(snap, n) && Framed(body, n) && Replayed(snap, body, n, g)
    requires k <= |g.secs|
    ensures Ordered(g.secs)
    ensures var st := Replay(Start(snap.cur, snap.q), g.secs[..k], n);
            st.Success? && Inv(st.value, g.secs[..k], n)
  {
    var start := Start(snap.cur, snap.q);
    ParseOrdered(body, 0, snap.gens, snap.cells);
    ReplayPrefix(start, g.secs, n, k);
    ReplayInv(start, g.secs[..k], n);
  }

  /** In every accepted trace, after every section: the installation in force on
      a CPU names its current task, every open installation is in force, and
      installation intervals on one CPU never overlap. */
  lemma InstallationIntervals(snap: Snapshot, body: seq<Rec>, n: nat, g: Graded, k: nat)
    requires SnapshotFor(snap, n) && Framed(body, n) && Replayed(snap, body, n, g)
    requires k <= |g.secs|
    ensures var st := Replay(Start(snap.cur, snap.q), g.secs[..k], n);
            && st.Success? && InForceCurrent(st.value) && OpenInForce(st.value) && Apart(st.value) && EndsLater(st.value)
            && Documented(st.value, g.secs[..k])
  {
    ReplayedInv(snap, body, n, g, k);
  }

  // ----------------------------------------------------------------- timeline

  /** Installation `i` is in force on CPU `c` at record `no`. */
  ghost predicate Spans(st: State, c: nat, i: nat, no: nat) {
    && i in st.installs && st.installs[i].cpu == c && i <= no
    && (st.installs[i].end.Some? ==> no < st.installs[i].end.value)
  }

  /** The recorded timeline answers exactly by installation interval. */
  ghost predicate TimelineExact(st: State) {
    forall c, no: nat, i: nat :: 0 <= c < |st.timeline| ==>
      (InForceAt(st.timeline[c], no) == Some(i) <==> Spans(st, c, i, no))
  }

  lemma MarkAppended(marks: seq<Mark>, m: Mark, no: nat)
    ensures InForceAt(marks + [m], no) == if m.no <= no then m.inForce else InForceAt(marks, no)
  {
    assert (marks + [m])[..|marks|] == marks;
  }

  lemma SpansAfter(st: State, secs: seq<Section>, s: Section, n: nat, c: nat, no: nat, i: nat)
    requires Inv(st, secs, n) && s.cpu < n && Step(st, s).Success? && Fresh(st, s) && c < n
    ensures Spans(Step(st, s).value, c, i, no) <==>
            if c == s.cpu && s.no <= no then Left(st, s) == Some(i) else Spans(st, c, i, no)
  {
    StepShape(st, s, n);
    InstallAfter(st, s, n, i);
  }

  lemma StepTimeline(st: State, secs: seq<Section>, s: Section, n: nat)
    requires Inv(st, secs, n) && s.cpu < n && Step(st, s).Success? && Fresh(st, s) && TimelineExact(st)
    ensures TimelineExact(Step(st, s).value)
  {
    var st' := Step(st, s).value;
    StepShape(st, s, n);
    forall c, no: nat, i: nat | 0 <= c < |st'.timeline|
      ensures InForceAt(st'.timeline[c], no) == Some(i) <==> Spans(st', c, i, no)
    {
      SpansAfter(st, secs, s, n, c, no, i);
      if c == s.cpu { MarkAppended(st.timeline[c], Mark(s.no, Left(st, s), s.after), no); }
    }
  }

  lemma {:induction false} ReplayTimeline(st: State, secs: seq<Section>, n: nat)
    requires Inv(st, [], n) && TimelineExact(st) && CpusBelow(secs, n) && Ordered(secs) && Replay(st, secs, n).Success?
    ensures TimelineExact(Replay(st, secs, n).value)
  {
    if secs != [] {
      var k := |secs| - 1;
      var st' := Replay(st, secs[..k], n).value;
      ReplayTimeline(st, secs[..k], n);
      ReplayInv(st, secs[..k], n);
      assert secs == secs[..k] + [secs[k]];
      DocumentedFresh(st', secs[..k], secs[k]);
      StepTimeline(st', secs[..k], secs[k], n);
    }
  }

  lemma ReplayedTimeline(snap: Snapshot, body: seq<Rec>, n: nat, g: Graded)
    requires SnapshotFor(snap, n) && Framed(body, n) && Replayed(snap, body, n, g)
    ensures TimelineExact(g.final)
  {
    var start := Start(snap.cur, snap.q);
    ParseOrdered(body, 0, snap.gens, snap.cells);
    ReplayTimeline(start, g.secs, n);
  }

  // ---------------------------------------------------------------- executions

  /** `body[m]` is a RUN of installation `i`. */
  ghost predicate RunOf(body: seq<Rec>, m: nat, i: nat) {
    m < |body| && body[m].kind == Run && body[m].f4 == i
  }

  lemma {:induction false} RunsExact(st: State, body: seq<Rec>, i: nat)
    requires (forall k :: 0 <= k < |body| ==> body[k].cpu < |st.timeline|) && Runs(st, body).Some?
    ensures i in Runs(st, body).value <==> exists m: nat :: RunOf(body, m, i)
    ensures forall m: nat, m': nat :: RunOf(body, m, i) && RunOf(body, m', i) ==> m == m'
    ensures forall m: nat :: RunOf(body, m, i) ==> NamesInstall(st, body[m]) && AgreesWithTimeline(st, body[m])
  {
    if body != [] {
      var k := |body| - 1;
      var front := body[..k];
      RunsExact(st, front, i);
      assert forall m: nat :: m < k ==> (RunOf(front, m, i) <==> RunOf(body, m, i));
      if i in Runs(st, front).value {
        var m: nat :| RunOf(front, m, i);
        assert RunOf(body, m, i);
      }
      if body[k].kind == Run && body[k].f4 == i { assert RunOf(body, k, i); }
    }
  }

  /** For each ended installation of an accepted trace, its end reports
      "observed" exactly when a RUN names it; that RUN is unique, comes after
      the installation, and its generation lies between the installing and the
      ending section's. */
  lemma ObservedIffRun(snap: Snapshot, census: Snapshot, body: seq<Rec>, n: nat, g: Graded, i: nat)
    requires SnapshotFor(snap, n) && SnapshotFor(census, n) && Framed(body, n) && Accepted(snap, census, body, n, g)
    requires i in g.final.installs && g.final.installs[i].end.Some?
    ensures g.final.installs[i].observed <==> exists m: nat :: RunOf(body, m, i)
    ensures forall m: nat, m': nat :: RunOf(body, m, i) && RunOf(body, m', i) ==> m == m'
    ensures forall m: nat :: RunOf(body, m, i) ==>
              && i < body[m].no && body[m].cpu == body[m].exec == g.final.installs[i].cpu
              && body[m].f0 == g.final.installs[i].tid
              && g.final.installs[i].gen <= body[m].f3 <= g.final.installs[i].endGen
  {
    RunsExact(g.final, body, i);
  }

  /** A section's number is no RUN's number. */
  lemma SectionIsNotRun(snap: Snapshot, body: seq<Rec>, n: nat, g: Graded, k: nat, m: nat)
    requires SnapshotFor(snap, n) && Framed(body, n) && Replayed(snap, body, n, g)
    requires k < |g.secs| && m < |body| && body[m].kind == Run
    ensures g.secs[k].no != body[m].no
  {
    ParseOrdered(body, 0, snap.gens, snap.cells);
    assert ParsedFrom(body, 0, g.secs[k]);
    var o: nat :| 0 <= o && ParsedAt(body, o, g.secs[k]);
    if o < m { assert body[o].no < body[m].no; } else { assert m < o && body[m].no < body[o].no; }
  }

  /** The "in force at the RUN" test is never the one that fails: once a RUN
      names an installation that has not ended before it, the replayed timeline
      has that installation in force. */
  lemma InForceTestRedundant(snap: Snapshot, body: seq<Rec>, n: nat, g: Graded, m: nat)
    requires SnapshotFor(snap, n) && Framed(body, n) && Replayed(snap, body, n, g)
    requires m < |body| && body[m].kind == Run && NamesInstall(g.final, body[m])
    requires var x := g.final.installs[body[m].f4]; !(x.end.Some? && x.end.value < body[m].no)
    ensures body[m].cpu < |g.final.timeline|
    ensures InForceAt(g.final.timeline[body[m].cpu], body[m].no) == Some(body[m].f4)
  {
    ReplayedTimeline(snap, body, n, g);
    ReplayedInv(snap, body, n, g, |g.secs|);
    assert g.secs[..|g.secs|] == g.secs;
    var x := g.final.installs[body[m].f4];
    if x.end.Some? {
      var k: nat :| EndedBy(g.secs, k, body[m].f4, x);
      SectionIsNotRun(snap, body, n, g, k, m);
    }
    assert Spans(g.final, body[m].cpu, body[m].f4, body[m].no);
  }
}
