/** Which bodies parse into sections, and what each section takes from the
    records, said without the parser. */
module SchedRecords {
  import opened Machine
  import opened SchedTrace

  // ------------------------------------------------------- one section's records

  /** The SEC record at `m` is followed by its `f3` ADD and `f4` REM records. */
  predicate HasMembers(body: seq<Rec>, m: nat)
    requires m < |body|
  {
    var na, nr := body[m].f3, body[m].f4;
    && m + na + nr < |body|
    && (forall i :: m < i <= m + na ==> body[i].kind == Add)
    && (forall i :: m + na < i <= m + na + nr ==> body[i].kind == Rem)
  }

  /** The place right behind the members. */
  function Behind(body: seq<Rec>, m: nat): nat
    requires m < |body|
  {
    m + body[m].f3 + body[m].f4 + 1
  }

  predicate EndFollows(body: seq<Rec>, m: nat)
    requires m < |body|
  {
    Behind(body, m) < |body| && body[Behind(body, m)].kind == Uninstall
  }

  /** Where the section of the SEC record at `m` ends. */
  function SectionEnd(body: seq<Rec>, m: nat): nat
    requires m < |body|
  {
    if EndFollows(body, m) then Behind(body, m) + 1 else Behind(body, m)
  }

  /** Same CPU, executor and generation. */
  predicate SameSection(p: Rec, r: Rec) { p.cpu == r.cpu && p.exec == r.exec && p.f0 == r.f0 }

  /** The generation of the CPU's last SEC record before `m`, or of the snapshot. */
  function GenBefore(body: seq<Rec>, m: nat, c: nat, gens: seq<nat>): nat
    requires m <= |body| && c < |gens|
  {
    if m == 0 then gens[c]
    else if body[m - 1].kind == Sec && body[m - 1].cpu == c then body[m - 1].f0
    else GenBefore(body, m - 1, c, gens)
  }

  /** What is wrong with the section of the SEC record at `m`, if anything. */
  function SectionFault(body: seq<Rec>, m: nat, gens: seq<nat>, cells: seq<nat>): Option<Obligation>
    requires m < |body| && |gens| == |cells| && body[m].cpu < |cells|
  {
    var r := body[m];
    if !HasMembers(body, m) then Some(Validity)
    else if exists i :: m < i < Behind(body, m) && !SameSection(body[i], r) then Some(Validity)
    else if exists i, j :: m < i < j < Behind(body, m) && body[i].f1 == body[j].f1 then Some(Validity)
    else if r.f0 <= GenBefore(body, m, r.cpu, gens) then Some(Validity)
    else if r.f5 != cells[r.cpu] then Some(LockInstance)
    else if r.f1 == r.f2 && r.f3 == 0 && r.f4 == 0 then Some(NoOpSection)
    else if EndFollows(body, m) && (!SameSection(body[Behind(body, m)], r) || body[Behind(body, m)].f3 > 1) then Some(Validity)
    else None
  }

  /** Some section that starts before `i` reaches past it. */
  ghost predicate Covered(body: seq<Rec>, i: nat) {
    exists m: nat :: m < i && m < |body| && body[m].kind == Sec && i < SectionEnd(body, m)
  }

  /** What record `i` fails, if anything: a bad section at a SEC record, or a
      member outside any section. */
  ghost function RecordFault(body: seq<Rec>, i: nat, gens: seq<nat>, cells: seq<nat>): Option<Obligation>
    requires i < |body| && |gens| == |cells| && body[i].cpu < |cells|
  {
    if body[i].kind == Sec then SectionFault(body, i, gens, cells)
    else if (body[i].kind == Add || body[i].kind == Rem || body[i].kind == Uninstall) && !Covered(body, i) then Some(Validity)
    else None
  }

  // --------------------------------------------------------- what a section reads

  /** Zero stands for no task, a number for the task below it. */
  predicate Task(v: nat, t: Option<nat>) { if v == 0 then t == None else t == Some(v - 1) }

  /** One of the section's ADD records gives the task this priority. */
  ghost predicate AddListed(body: seq<Rec>, m: nat, tid: nat, priority: nat)
    requires m < |body| && HasMembers(body, m)
  {
    exists i :: m < i <= m + body[m].f3 && body[i].f1 == tid && body[i].f2 == priority
  }

  predicate Maps(add: map<nat, nat>, tid: nat, priority: nat) { tid in add && add[tid] == priority }

  ghost predicate AddsRead(body: seq<Rec>, m: nat, add: map<nat, nat>)
    requires m < |body| && HasMembers(body, m)
  {
    forall tid: nat, priority: nat :: Maps(add, tid, priority) <==> AddListed(body, m, tid, priority)
  }

  ghost predicate RemsRead(body: seq<Rec>, m: nat, rem: set<nat>)
    requires m < |body| && HasMembers(body, m)
  {
    forall tid: nat :: tid in rem <==> exists i :: m + body[m].f3 < i < Behind(body, m) && body[i].f1 == tid
  }

  /** Section `s` is the one the records at `m` describe. */
  ghost predicate Describes(body: seq<Rec>, m: nat, s: Section) {
    && m < |body| && body[m].kind == Sec && HasMembers(body, m)
    && s.no == body[m].no && s.cpu == body[m].cpu && s.exec == body[m].exec && s.gen == body[m].f0
    && Task(body[m].f1, s.before) && Task(body[m].f2, s.after)
    && AddsRead(body, m, s.add) && RemsRead(body, m, s.rem)
    && if EndFollows(body, m)
       then var u := body[Behind(body, m)]; s.end == Some(End(u.f1, u.f2, u.f3 == 1))
       else s.end == None
  }

  lemma {:induction false} AddedMeans(part: seq<Rec>, tid: nat, priority: nat)
    requires DistinctTids(part)
    ensures tid in Added(part) && Added(part)[tid] == priority <==>
              exists i :: 0 <= i < |part| && part[i].f1 == tid && part[i].f2 == priority
  {
    if part != [] {
      var k := |part| - 1;
      AddedMeans(part[..k], tid, priority);
      if i :| 0 <= i < k && part[..k][i].f1 == tid && part[..k][i].f2 == priority { assert part[i].f1 == tid && part[i].f2 == priority; }
      if i :| 0 <= i < |part| && part[i].f1 == tid && part[i].f2 == priority {
        if i < k { assert part[..k][i].f1 == tid && part[..k][i].f2 == priority; }
      }
    }
  }

  lemma AddsMean(body: seq<Rec>, m: nat, part: seq<Rec>)
    requires m < |body| && HasMembers(body, m) && part == body[m + 1..Behind(body, m)] && DistinctTids(part)
    ensures AddsRead(body, m, Added(part[..body[m].f3]))
  {
    var na := body[m].f3;
    forall tid: nat, priority: nat
      ensures Maps(Added(part[..na]), tid, priority) <==> AddListed(body, m, tid, priority)
    {
      AddedMeans(part[..na], tid, priority);
      if i :| 0 <= i < na && part[..na][i].f1 == tid && part[..na][i].f2 == priority {
        assert body[m + 1 + i].f1 == tid && body[m + 1 + i].f2 == priority;
      }
      if i :| m < i <= m + na && body[i].f1 == tid && body[i].f2 == priority {
        assert part[..na][i - m - 1].f1 == tid && part[..na][i - m - 1].f2 == priority;
      }
    }
  }

  lemma RemsMean(body: seq<Rec>, m: nat, part: seq<Rec>)
    requires m < |body| && HasMembers(body, m) && part == body[m + 1..Behind(body, m)]
    ensures RemsRead(body, m, Removed(part[body[m].f3..]))
  {
    var na := body[m].f3;
    forall tid: nat
      ensures tid in Removed(part[na..]) <==> exists i :: m + na < i < Behind(body, m) && body[i].f1 == tid
    {
      if tid in Removed(part[na..]) {
        var p :| p in part[na..] && p.f1 == tid;
        var j :| 0 <= j < |part[na..]| && part[na..][j] == p;
        assert body[m + 1 + na + j].f1 == tid;
      }
      if i :| m + na < i < Behind(body, m) && body[i].f1 == tid {
        assert part[na..][i - m - 1 - na] == body[i] && body[i] in part[na..];
      }
    }
  }

  lemma MembersMean(body: seq<Rec>, m: nat)
    requires m < |body|
    ensures MembersOk(body, m, body[m].f3, body[m].f4) <==> HasMembers(body, m)
  {
  }

  lemma ForeignMeans(body: seq<Rec>, m: nat, part: seq<Rec>)
    requires m < |body| && HasMembers(body, m) && part == body[m + 1..Behind(body, m)]
    ensures (exists p :: p in part && !Belongs(p, body[m])) <==> exists i :: m < i < Behind(body, m) && !SameSection(body[i], body[m])
    ensures DistinctTids(part) <==> !exists i, j :: m < i < j < Behind(body, m) && body[i].f1 == body[j].f1
  {
    if p :| p in part && !Belongs(p, body[m]) {
      var j :| 0 <= j < |part| && part[j] == p;
      assert !SameSection(body[m + 1 + j], body[m]);
    }
    if i :| m < i < Behind(body, m) && !SameSection(body[i], body[m]) { assert part[i - m - 1] == body[i] && body[i] in part; }
    if i, j :| 0 <= i < j < |part| && part[i].f1 == part[j].f1 { assert body[m + 1 + i].f1 == body[m + 1 + j].f1; }
    if i, j :| m < i < j < Behind(body, m) && body[i].f1 == body[j].f1 { assert part[i - m - 1].f1 == part[j - m - 1].f1; }
  }

  /** A section is read exactly as its records describe it, or refused for what
      is wrong with them. */
  lemma SectionMeans(body: seq<Rec>, m: nat, gens: seq<nat>, cells: seq<nat>)
    requires m < |body| && body[m].kind == Sec && |gens| == |cells| && body[m].cpu < |cells|
    ensures var out := ParseSection(body, m, GenBefore(body, m, body[m].cpu, gens), cells[body[m].cpu]);
            var fault := SectionFault(body, m, gens, cells);
            if fault.Some? then out == Failure(fault.value)
            else out.Success? && Describes(body, m, out.value.0) && m + out.value.1 == SectionEnd(body, m)
  {
    MembersMean(body, m);
    if HasMembers(body, m) {
      var part := body[m + 1..Behind(body, m)];
      ForeignMeans(body, m, part);
      if DistinctTids(part) {
        AddsMean(body, m, part);
        RemsMean(body, m, part);
      }
    }
  }

  // ------------------------------------------------------------- the whole body

  /** The places of the SEC records from `k` on. */
  function Places(body: seq<Rec>, k: nat): seq<nat>
    requires k <= |body|
    decreases |body| - k
  {
    if k == |body| then [] else (if body[k].kind == Sec then [k] else []) + Places(body, k + 1)
  }

  /** A place is listed exactly when a SEC record stands there, and they ascend. */
  lemma {:induction false} PlacesExact(body: seq<Rec>, k: nat, i: nat)
    requires k <= |body|
    ensures i in Places(body, k) <==> k <= i < |body| && body[i].kind == Sec
    ensures forall a, b :: 0 <= a < b < |Places(body, k)| ==> Places(body, k)[a] < Places(body, k)[b]
    decreases |body| - k
  {
    if k < |body| {
      PlacesExact(body, k + 1, i);
      var rest := Places(body, k + 1);
      forall a | 0 <= a < |rest| ensures k < rest[a] { PlacesExact(body, k + 1, rest[a]); }
    }
  }

  ghost predicate NoSecIn(body: seq<Rec>, a: nat, b: nat) { a <= b <= |body| && forall i :: a <= i < b ==> body[i].kind != Sec }

  lemma {:induction false} PlacesSkip(body: seq<Rec>, a: nat, b: nat)
    requires NoSecIn(body, a, b)
    ensures Places(body, a) == Places(body, b)
    decreases b - a
  {
    if a < b { PlacesSkip(body, a + 1, b); }
  }

  lemma {:induction false} GenSkip(body: seq<Rec>, a: nat, b: nat, c: nat, gens: seq<nat>)
    requires NoSecIn(body, a, b) && c < |gens|
    ensures GenBefore(body, b, c, gens) == GenBefore(body, a, c, gens)
    decreases b - a
  {
    if a < b { GenSkip(body, a, b - 1, c, gens); }
  }

  ghost predicate InRange(body: seq<Rec>, n: nat) { forall i :: 0 <= i < |body| ==> body[i].cpu < n }

  /** Nothing is wrong with the records from `a` up to `b`. */
  ghost predicate Fine(body: seq<Rec>, gens: seq<nat>, cells: seq<nat>, a: nat, b: nat)
    requires |gens| == |cells| && InRange(body, |cells|)
  {
    a <= b <= |body| && forall i :: a <= i < b ==> RecordFault(body, i, gens, cells).None?
  }

  /** The parser stands between sections, with every CPU's last generation. */
  ghost predicate Boundary(body: seq<Rec>, k: nat, lastGen: seq<nat>, gens: seq<nat>) {
    && k <= |body| && |lastGen| == |gens|
    && (forall c :: 0 <= c < |gens| ==> lastGen[c] == GenBefore(body, k, c, gens))
    && forall m :: 0 <= m < k && body[m].kind == Sec ==> SectionEnd(body, m) <= k
  }

  lemma SkipBoundary(body: seq<Rec>, k: nat, lastGen: seq<nat>, gens: seq<nat>)
    requires Boundary(body, k, lastGen, gens) && k < |body| && body[k].kind != Sec
    ensures Boundary(body, k + 1, lastGen, gens)
  {
  }

  lemma MembersCovered(body: seq<Rec>, k: nat, gens: seq<nat>, cells: seq<nat>)
    requires |gens| == |cells| && InRange(body, |cells|) && k < |body| && body[k].kind == Sec && HasMembers(body, k)
    ensures k < SectionEnd(body, k) <= |body| && NoSecIn(body, k + 1, SectionEnd(body, k))
    ensures Fine(body, gens, cells, k + 1, SectionEnd(body, k))
  {
    forall i | k < i < SectionEnd(body, k) ensures body[i].kind != Sec && Covered(body, i) { assert k < i && body[k].kind == Sec; }
  }

  lemma SectionBoundary(body: seq<Rec>, k: nat, lastGen: seq<nat>, gens: seq<nat>)
    requires Boundary(body, k, lastGen, gens) && k < |body| && body[k].kind == Sec && HasMembers(body, k) && body[k].cpu < |gens|
    requires NoSecIn(body, k + 1, SectionEnd(body, k))
    ensures Boundary(body, SectionEnd(body, k), lastGen[body[k].cpu := body[k].f0], gens)
  {
    var e := SectionEnd(body, k);
    forall c | 0 <= c < |gens| ensures lastGen[body[k].cpu := body[k].f0][c] == GenBefore(body, e, c, gens) {
      GenSkip(body, k + 1, e, c, gens);
    }
  }

  /** The first record at fault from `k` on, and what it fails. */
  ghost predicate FaultFirst(body: seq<Rec>, gens: seq<nat>, cells: seq<nat>, k: nat, i: nat, o: Obligation)
    requires |gens| == |cells| && InRange(body, |cells|)
  {
    k <= i < |body| && RecordFault(body, i, gens, cells) == Some(o) && Fine(body, gens, cells, k, i)
  }

  lemma FaultLater(body: seq<Rec>, gens: seq<nat>, cells: seq<nat>, k: nat, k': nat, i: nat, o: Obligation)
    requires |gens| == |cells| && InRange(body, |cells|)
    requires Fine(body, gens, cells, k, k') && FaultFirst(body, gens, cells, k', i, o)
    ensures FaultFirst(body, gens, cells, k, i, o)
  {
  }

  /** The sections are those the records at the places describe. */
  ghost predicate AllDescribed(body: seq<Rec>, ps: seq<nat>, secs: seq<Section>) {
    |ps| == |secs| && forall j :: 0 <= j < |secs| ==> Describes(body, ps[j], secs[j])
  }

  lemma DescribedCons(body: seq<Rec>, p: nat, s: Section, ps: seq<nat>, secs: seq<Section>)
    requires Describes(body, p, s) && AllDescribed(body, ps, secs)
    ensures AllDescribed(body, [p] + ps, [s] + secs)
  {
  }

  /** What the parser answers from `k` on. */
  ghost predicate ParsedAs(body: seq<Rec>, gens: seq<nat>, cells: seq<nat>, k: nat, out: Result<seq<Section>, Obligation>)
    requires |gens| == |cells| && InRange(body, |cells|) && k <= |body|
  {
    if out.Success? then Fine(body, gens, cells, k, |body|) && AllDescribed(body, Places(body, k), out.value)
    else exists i: nat :: FaultFirst(body, gens, cells, k, i, out.error)
  }

  lemma NotCovered(body: seq<Rec>, k: nat, lastGen: seq<nat>, gens: seq<nat>)
    requires Boundary(body, k, lastGen, gens)
    ensures !Covered(body, k)
  {
  }

  lemma SkipParsed(body: seq<Rec>, gens: seq<nat>, cells: seq<nat>, k: nat, out: Result<seq<Section>, Obligation>)
    requires |gens| == |cells| && InRange(body, |cells|) && k < |body| && body[k].kind != Sec
    requires RecordFault(body, k, gens, cells).None? && ParsedAs(body, gens, cells, k + 1, out)
    ensures ParsedAs(body, gens, cells, k, out)
  {
    if out.Failure? {
      var i: nat :| FaultFirst(body, gens, cells, k + 1, i, out.error);
      FaultLater(body, gens, cells, k, k + 1, i, out.error);
    }
  }

  lemma ConsParsed(body: seq<Rec>, gens: seq<nat>, cells: seq<nat>, k: nat, s: Section, rest: Result<seq<Section>, Obligation>,
                   out: Result<seq<Section>, Obligation>)
    requires |gens| == |cells| && InRange(body, |cells|) && k < |body| && body[k].kind == Sec && Describes(body, k, s)
    requires RecordFault(body, k, gens, cells).None? && SectionEnd(body, k) <= |body|
    requires ParsedAs(body, gens, cells, SectionEnd(body, k), rest)
    requires out == if rest.Success? then Success([s] + rest.value) else Failure(rest.error)
    ensures ParsedAs(body, gens, cells, k, out)
  {
    var e := SectionEnd(body, k);
    MembersCovered(body, k, gens, cells);
    PlacesSkip(body, k + 1, e);
    assert Fine(body, gens, cells, k, e);
    if rest.Success? {
      DescribedCons(body, k, s, Places(body, e), rest.value);
    } else {
      var i: nat :| FaultFirst(body, gens, cells, e, i, rest.error);
      FaultLater(body, gens, cells, k, e, i, rest.error);
    }
  }

  lemma SecParsed(body: seq<Rec>, k: nat, lastGen: seq<nat>, gens: seq<nat>, cells: seq<nat>) returns (s: Section)
    requires |gens| == |cells| && InRange(body, |cells|) && Boundary(body, k, lastGen, gens)
    requires k < |body| && body[k].kind == Sec && SectionFault(body, k, gens, cells).None?
    ensures Describes(body, k, s) && s.gen == body[k].f0
    ensures k < SectionEnd(body, k) <= |body|
    ensures Boundary(body, SectionEnd(body, k), lastGen[body[k].cpu := body[k].f0], gens)
    ensures ParseSection(body, k, lastGen[body[k].cpu], cells[body[k].cpu]) == Success((s, SectionEnd(body, k) - k))
  {
    SectionMeans(body, k, gens, cells);
    MembersCovered(body, k, gens, cells);
    SectionBoundary(body, k, lastGen, gens);
    s := ParseSection(body, k, lastGen[body[k].cpu], cells[body[k].cpu]).value.0;
  }

  lemma ParseSec(body: seq<Rec>, k: nat, lastGen: seq<nat>, cells: seq<nat>, s: Section, e: nat)
    requires k < e <= |body| && |lastGen| == |cells| && (forall r :: r in body ==> r.cpu < |cells|) && body[k].kind == Sec
    requires ParseSection(body, k, lastGen[body[k].cpu], cells[body[k].cpu]) == Success((s, e - k))
    ensures var rest := ParseFrom(body, e, lastGen[body[k].cpu := s.gen], cells);
            ParseFrom(body, k, lastGen, cells) == if rest.Success? then Success([s] + rest.value) else Failure(rest.error)
  {
  }

  lemma {:induction false} ParseFromMeans(body: seq<Rec>, k: nat, lastGen: seq<nat>, gens: seq<nat>, cells: seq<nat>)
    requires |gens| == |cells| && InRange(body, |cells|) && Boundary(body, k, lastGen, gens)
    requires forall r :: r in body ==> r.cpu < |cells|
    ensures ParsedAs(body, gens, cells, k, ParseFrom(body, k, lastGen, cells))
    decreases |body| - k, 1
  {
    if k < |body| {
      if body[k].kind in {Add, Rem, Uninstall} {
        NotCovered(body, k, lastGen, gens);
        assert FaultFirst(body, gens, cells, k, k, Validity);
      } else if body[k].kind != Sec {
        SkipBoundary(body, k, lastGen, gens);
        ParseFromMeans(body, k + 1, lastGen, gens, cells);
        SkipParsed(body, gens, cells, k, ParseFrom(body, k + 1, lastGen, cells));
      } else if SectionFault(body, k, gens, cells).Some? {
        SectionMeans(body, k, gens, cells);
        assert FaultFirst(body, gens, cells, k, k, SectionFault(body, k, gens, cells).value);
      } else {
        SecFromMeans(body, k, lastGen, gens, cells);
      }
    }
  }

  lemma {:induction false} SecFromMeans(body: seq<Rec>, k: nat, lastGen: seq<nat>, gens: seq<nat>, cells: seq<nat>)
    requires |gens| == |cells| && InRange(body, |cells|) && Boundary(body, k, lastGen, gens)
    requires forall r :: r in body ==> r.cpu < |cells|
    requires k < |body| && body[k].kind == Sec && SectionFault(body, k, gens, cells).None?
    ensures ParsedAs(body, gens, cells, k, ParseFrom(body, k, lastGen, cells))
    decreases |body| - k, 0
  {
    var s := SecParsed(body, k, lastGen, gens, cells);
    var e, next := SectionEnd(body, k), lastGen[body[k].cpu := s.gen];
    ParseSec(body, k, lastGen, cells, s, e);
    ParseFromMeans(body, e, next, gens, cells);
    ConsParsed(body, gens, cells, k, s, ParseFrom(body, e, next, cells), ParseFrom(body, k, lastGen, cells));
  }

  /** A body parses exactly when no record of it is at fault, and then into one
      section per SEC record, in order, each as its records describe it; else it
      fails what its first record at fault fails. */
  lemma ParseMeans(body: seq<Rec>, gens: seq<nat>, cells: seq<nat>)
    requires |gens| == |cells| && InRange(body, |cells|) && forall r :: r in body ==> r.cpu < |cells|
    ensures ParsedAs(body, gens, cells, 0, ParseFrom(body, 0, gens, cells))
  {
    ParseFromMeans(body, 0, gens, gens, cells);
  }
}
