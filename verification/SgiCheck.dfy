/** The SGI check as it runs: dictionaries of lists walked in any order, with the
    earliest failure kept. */
module SgiCheck {
  import opened Machine
  import opened SgiPopulation
  import opened SgiGroups

  // --------------------------------------------------------- the earliest note

  predicate Noted(best: Option<Outcome>) { best.Some? ==> !best.value.Ok? }

  /** `note`: keep the report with the smaller record number, the older on a tie. */
  function Sooner(best: Option<Outcome>, v: Outcome): Option<Outcome>
    requires !v.Ok? && Noted(best)
  {
    if best.None? || v.at < best.value.at then Some(v) else best
  }

  /** `best` reports index `i`, the least of the indices noted as unexplained or
      incomplete so far, and names it unexplained if it was noted so. */
  ghost predicate Best(recs: seq<Rec>, u: set<nat>, c: set<nat>, best: Option<Outcome>, i: nat) {
    && (forall j :: j in u || j in c ==> j < |recs|)
    && if best.None? then u == {} && c == {}
       else (i in u || i in c) && (forall j :: j in u || j in c ==> i <= j)
            && best.value == if i in u then Unexplained(recs[i].seqNo) else Completion(recs[i].seqNo)
  }

  function Tag(sends: bool, at: nat): Outcome { if sends then Undelivered(at) else Unexplained(at) }

  /** `best` reports index `i`, the least noted so far. */
  ghost predicate Least(recs: seq<Rec>, noted: set<nat>, best: Option<Outcome>, i: nat, sends: bool) {
    && (forall j :: j in noted ==> j < |recs|)
    && if best.None? then noted == {}
       else i in noted && (forall j :: j in noted ==> i <= j) && best.value == Tag(sends, recs[i].seqNo)
  }

  lemma NoteOne(recs: seq<Rec>, noted: set<nat>, best: Option<Outcome>, i: nat, k: nat, sends: bool)
    requires Increasing(recs) && Least(recs, noted, best, i, sends) && k < |recs|
    ensures Least(recs, noted + {k}, Sooner(best, Tag(sends, recs[k].seqNo)), if best.None? || k < i then k else i, sends)
  {
  }

  lemma LeastIsBest(recs: seq<Rec>, u: set<nat>, best: Option<Outcome>, i: nat)
    requires Least(recs, u, best, i, false)
    ensures Best(recs, u, {}, best, i)
  {
  }

  lemma NoteCompletion(recs: seq<Rec>, u: set<nat>, c: set<nat>, best: Option<Outcome>, i: nat, k: nat)
    requires Increasing(recs) && Best(recs, u, c, best, i) && k < |recs|
    ensures Best(recs, u, c + {k}, Sooner(best, Completion(recs[k].seqNo)), if best.None? || k < i then k else i)
  {
  }

  // ------------------------------------------------------------------ the lists

  /** The dictionary lists the selected records of every pair that has any. */
  ghost predicate Lists(m: map<Pair, seq<Rec>>, recs: seq<Rec>, sends: bool) {
    forall p: Pair :: ListOf(m, p) == Of(recs, if sends then Sends(p) else Arrivals(p)) && (p in m ==> m[p] != [])
  }

  function ListOf(m: map<Pair, seq<Rec>>, p: Pair): seq<Rec> { if p in m then m[p] else [] }

  lemma ListsMore(m: map<Pair, seq<Rec>>, recs: seq<Rec>, sends: bool, i: nat, p: Pair)
    requires i < |recs| && Lists(m, recs[..i], sends)
    requires forall q: Pair :: Selects(if sends then Sends(q) else Arrivals(q), recs[i]) <==> q == p
    ensures Lists(m[p := ListOf(m, p) + [recs[i]]], recs[..i + 1], sends)
  {
    forall q: Pair ensures ListOf(m[p := ListOf(m, p) + [recs[i]]], q) == Of(recs[..i + 1], if sends then Sends(q) else Arrivals(q)) {
      OfStep(recs, if sends then Sends(q) else Arrivals(q), i);
    }
  }

  lemma ListsSame(m: map<Pair, seq<Rec>>, recs: seq<Rec>, sends: bool, i: nat)
    requires i < |recs| && Lists(m, recs[..i], sends)
    requires recs[i].kind != if sends then Sent else Arrived
    ensures Lists(m, recs[..i + 1], sends)
  {
    forall q: Pair ensures ListOf(m, q) == Of(recs[..i + 1], if sends then Sends(q) else Arrivals(q)) {
      OfStep(recs, if sends then Sends(q) else Arrivals(q), i);
    }
  }

  method Collect(recs: seq<Rec>) returns (sends: map<Pair, seq<Rec>>, arrivals: map<Pair, seq<Rec>>)
    ensures Lists(sends, recs, true) && Lists(arrivals, recs, false)
  {
    sends, arrivals := map[], map[];
    for i := 0 to |recs|
      invariant Lists(sends, recs[..i], true) && Lists(arrivals, recs[..i], false)
    {
      var r := recs[i];
      if r.kind == Sent {
        ListsMore(sends, recs, true, i, (r.cpu, r.f0));
        ListsSame(arrivals, recs, false, i);
        sends := sends[(r.cpu, r.f0) := ListOf(sends, (r.cpu, r.f0)) + [r]];
      } else if r.kind == Arrived {
        ListsMore(arrivals, recs, false, i, PairOf(r));
        ListsSame(sends, recs, true, i);
        arrivals := arrivals[PairOf(r) := ListOf(arrivals, PairOf(r)) + [r]];
      } else {
        ListsSame(sends, recs, true, i);
        ListsSame(arrivals, recs, false, i);
      }
    }
    assert recs[..|recs|] == recs;
  }

  // ------------------------------------------------------------- one pair's sends

  lemma CountRule(recs: seq<Rec>, p: Pair, j: nat)
    requires Increasing(recs) && j < |recs| && Selects(Arrivals(p), recs[j])
    ensures UnexplainedAt(recs, j) <==> CountBelow(Of(recs, Sends(p)), recs[j].seqNo) < |Of(recs[..j], Arrivals(p))| + 1
  {
    assert recs[..|recs|] == recs;
    CountBelowIs(recs, Sends(p), |recs|, j);
    OfStep(recs, Arrivals(p), j);
  }

  lemma LaterListed(recs: seq<Rec>, sel: Selector, i: nat, j: nat)
    requires i < |recs| && j < |recs| && Selects(sel, recs[j]) && |Of(recs[..i], sel)| <= |Of(recs[..j], sel)|
    ensures i <= j
  {
    if j < i {
      OfStep(recs, sel, j);
      assert recs[..i][..j + 1] == recs[..j + 1];
      OfPrefix(recs[..i], sel, j + 1);
    }
  }

  /** The least failing index of a pair, if any. */
  ghost predicate FirstOfPair(recs: seq<Rec>, sel: Selector, bad: nat -> bool, found: Option<nat>, i: nat) {
    if found.None? then forall j :: 0 <= j < |recs| && Selects(sel, recs[j]) ==> !bad(j)
    else && i < |recs| && Selects(sel, recs[i]) && bad(i) && recs[i].seqNo == found.value
         && forall j :: 0 <= j < |recs| && Selects(sel, recs[j]) && bad(j) ==> i <= j
  }

  ghost function Unexplaineds(recs: seq<Rec>): nat -> bool { (i: nat) => i < |recs| && UnexplainedAt(recs, i) }

  ghost function Undelivereds(recs: seq<Rec>): nat -> bool { (i: nat) => i < |recs| && UndeliveredAt(recs, i) }

  method CheckArrivals(ghost recs: seq<Rec>, ghost p: Pair, ss: seq<Rec>, arr: seq<Rec>) returns (found: Option<nat>, ghost i: nat)
    requires Increasing(recs) && ss == Of(recs, Sends(p)) && arr == Of(recs, Arrivals(p))
    ensures FirstOfPair(recs, Arrivals(p), Unexplaineds(recs), found, i)
  {
    i := 0;
    for k := 0 to |arr|
      invariant forall m :: 0 <= m < k ==> CountBelow(ss, arr[m].seqNo) >= m + 1
    {
      if CountBelow(ss, arr[k].seqNo) < k + 1 {
        i := Located(recs, Arrivals(p), k);
        CountRule(recs, p, i);
        forall j | 0 <= j < |recs| && Selects(Arrivals(p), recs[j]) && UnexplainedAt(recs, j) ensures i <= j {
          Placed(recs, Arrivals(p), j);
          CountRule(recs, p, j);
          LaterListed(recs, Arrivals(p), i, j);
        }
        return Some(arr[k].seqNo), i;
      }
    }
    forall j | 0 <= j < |recs| && Selects(Arrivals(p), recs[j]) ensures !UnexplainedAt(recs, j) {
      Placed(recs, Arrivals(p), j);
      CountRule(recs, p, j);
    }
    found := None;
  }

  lemma LastRule(recs: seq<Rec>, p: Pair, j: nat)
    requires Increasing(recs) && j < |recs| && Selects(Sends(p), recs[j])
    ensures var arr := Of(recs, Arrivals(p));
            UndeliveredAt(recs, j) <==> recs[j].seqNo > if arr == [] then -1 else arr[|arr| - 1].seqNo
  {
    var arr := Of(recs, Arrivals(p));
    DeliveredAt(recs, p, j);
    if arr != [] {
      var i := Located(recs, Arrivals(p), |arr| - 1);
      assert i != j;
    }
  }

  method CheckSends(ghost recs: seq<Rec>, ghost p: Pair, ss: seq<Rec>, arr: seq<Rec>) returns (found: Option<nat>, ghost i: nat)
    requires Increasing(recs) && ss == Of(recs, Sends(p)) && arr == Of(recs, Arrivals(p))
    ensures FirstOfPair(recs, Sends(p), Undelivereds(recs), found, i)
  {
    i := 0;
    var last: int := if arr == [] then -1 else arr[|arr| - 1].seqNo;
    for k := 0 to |ss|
      invariant forall m :: 0 <= m < k ==> ss[m].seqNo <= last
    {
      if ss[k].seqNo > last {
        i := Located(recs, Sends(p), k);
        LastRule(recs, p, i);
        forall j | 0 <= j < |recs| && Selects(Sends(p), recs[j]) && UndeliveredAt(recs, j) ensures i <= j {
          Placed(recs, Sends(p), j);
          LastRule(recs, p, j);
          LaterListed(recs, Sends(p), i, j);
        }
        return Some(ss[k].seqNo), i;
      }
    }
    forall j | 0 <= j < |recs| && Selects(Sends(p), recs[j]) ensures !UndeliveredAt(recs, j) {
      Placed(recs, Sends(p), j);
      LastRule(recs, p, j);
    }
    found := None;
  }

  // ------------------------------------------------------------- all the pairs

  ghost predicate CoveredBy(s: set<nat>, j: nat) { exists k :: k in s && k <= j }

  /** Every noted index fails, and every failing index of a pair no longer in
      `left` is at or after a noted one. */
  ghost predicate Covers(recs: seq<Rec>, noted: set<nat>, bad: nat -> bool, left: set<Pair>, key: Rec -> Pair) {
    && (forall j :: j in noted ==> j < |recs| && bad(j))
    && (forall j :: 0 <= j < |recs| && bad(j) && key(recs[j]) !in left ==> CoveredBy(noted, j))
  }

  lemma CoversPair(recs: seq<Rec>, noted: set<nat>, bad: nat -> bool, left: set<Pair>, key: Rec -> Pair, sel: Selector, p: Pair,
                   found: Option<nat>, i: nat)
    requires Covers(recs, noted, bad, left, key) && FirstOfPair(recs, sel, bad, found, i)
    requires forall j :: 0 <= j < |recs| && bad(j) && key(recs[j]) == p ==> Selects(sel, recs[j])
    ensures Covers(recs, if found.Some? then noted + {i} else noted, bad, left - {p}, key)
  {
    var noted' := if found.Some? then noted + {i} else noted;
    forall j | 0 <= j < |recs| && bad(j) && key(recs[j]) !in left - {p} ensures CoveredBy(noted', j) {
      if key(recs[j]) == p {
        assert i in noted' && i <= j;
      } else {
        assert CoveredBy(noted, j);
        var k :| k in noted && k <= j;
        assert k in noted';
      }
    }
  }

  ghost function SendPair(): Rec -> Pair { (r: Rec) => (r.cpu, r.f0) }

  ghost function ArrivalPair(): Rec -> Pair { (r: Rec) => PairOf(r) }

  /** One pair of the first loop. */
  method NotePair(ghost recs: seq<Rec>, sends: map<Pair, seq<Rec>>, arrivals: map<Pair, seq<Rec>>, p: Pair, start: Option<Outcome>,
                  ghost u0: set<nat>, ghost i0: nat, ghost left: set<Pair>)
    returns (first: Option<Outcome>, ghost u: set<nat>, ghost i: nat)
    requires Increasing(recs) && Lists(sends, recs, true) && Lists(arrivals, recs, false) && p in arrivals
    requires Least(recs, u0, start, i0, false) && Covers(recs, u0, Unexplaineds(recs), left, ArrivalPair())
    ensures Least(recs, u, first, i, false) && Covers(recs, u, Unexplaineds(recs), left - {p}, ArrivalPair())
  {
    first, u, i := start, u0, i0;
    assert ListOf(arrivals, p) == Of(recs, Arrivals(p)) && ListOf(sends, p) == Of(recs, Sends(p));
    var found;
    ghost var k;
    found, k := CheckArrivals(recs, p, ListOf(sends, p), arrivals[p]);
    CoversPair(recs, u, Unexplaineds(recs), left, ArrivalPair(), Arrivals(p), p, found, k);
    if found.Some? {
      NoteOne(recs, u, first, i, k, false);
      i := if first.None? || k < i then k else i;
      u := u + {k};
      first := Sooner(first, Unexplained(found.value));
    }
  }

  /** The first loop: the earliest unexplained arrival of each pair. */
  method NoteArrivals(ghost recs: seq<Rec>, sends: map<Pair, seq<Rec>>, arrivals: map<Pair, seq<Rec>>)
    returns (first: Option<Outcome>, ghost u: set<nat>, ghost i: nat)
    requires Increasing(recs) && Lists(sends, recs, true) && Lists(arrivals, recs, false)
    ensures Least(recs, u, first, i, false) && Covers(recs, u, Unexplaineds(recs), {}, ArrivalPair())
  {
    first, u, i := None, {}, 0;
    var left := arrivals.Keys;
    AllListed(recs, arrivals);
    while left != {}
      invariant left <= arrivals.Keys && Least(recs, u, first, i, false)
      invariant Covers(recs, u, Unexplaineds(recs), left, ArrivalPair())
      decreases |left|
    {
      var p :| p in left;
      first, u, i := NotePair(recs, sends, arrivals, p, first, u, i, left);
      left := left - {p};
    }
  }

  lemma AllListed(recs: seq<Rec>, arrivals: map<Pair, seq<Rec>>)
    requires Lists(arrivals, recs, false)
    ensures Covers(recs, {}, Unexplaineds(recs), arrivals.Keys, ArrivalPair())
  {
    forall j | 0 <= j < |recs| && UnexplainedAt(recs, j) ensures PairOf(recs[j]) in arrivals {
      Placed(recs, Arrivals(PairOf(recs[j])), j);
      assert ListOf(arrivals, PairOf(recs[j])) == Of(recs, Arrivals(PairOf(recs[j])));
    }
  }

  lemma AllSendsListed(recs: seq<Rec>, sends: map<Pair, seq<Rec>>)
    requires Lists(sends, recs, true)
    ensures Covers(recs, {}, Undelivereds(recs), sends.Keys, SendPair())
  {
    forall j | 0 <= j < |recs| && UndeliveredAt(recs, j) ensures (recs[j].cpu, recs[j].f0) in sends {
      var p := (recs[j].cpu, recs[j].f0);
      Placed(recs, Sends(p), j);
      assert ListOf(sends, p) == Of(recs, Sends(p));
    }
  }

  /** One pair of the second loop. */
  method NoteSendPair(ghost recs: seq<Rec>, sends: map<Pair, seq<Rec>>, arrivals: map<Pair, seq<Rec>>, p: Pair, start: Option<Outcome>,
                      ghost noted0: set<nat>, ghost i0: nat, ghost left: set<Pair>)
    returns (best: Option<Outcome>, ghost noted: set<nat>, ghost i: nat)
    requires Increasing(recs) && Lists(sends, recs, true) && Lists(arrivals, recs, false) && p in sends
    requires Least(recs, noted0, start, i0, true) && Covers(recs, noted0, Undelivereds(recs), left, SendPair())
    ensures Least(recs, noted, best, i, true) && Covers(recs, noted, Undelivereds(recs), left - {p}, SendPair())
  {
    best, noted, i := start, noted0, i0;
    assert ListOf(arrivals, p) == Of(recs, Arrivals(p)) && ListOf(sends, p) == Of(recs, Sends(p));
    var found;
    ghost var k;
    found, k := CheckSends(recs, p, sends[p], ListOf(arrivals, p));
    CoversPair(recs, noted, Undelivereds(recs), left, SendPair(), Sends(p), p, found, k);
    if found.Some? {
      NoteOne(recs, noted, best, i, k, true);
      i := if best.None? || k < i then k else i;
      noted := noted + {k};
      best := Sooner(best, Undelivered(found.value));
    }
  }

  /** The second loop: the earliest undelivered send of each pair. */
  method NoteSends(ghost recs: seq<Rec>, sends: map<Pair, seq<Rec>>, arrivals: map<Pair, seq<Rec>>)
    returns (best: Option<Outcome>, ghost noted: set<nat>, ghost i: nat)
    requires Increasing(recs) && Lists(sends, recs, true) && Lists(arrivals, recs, false)
    ensures Least(recs, noted, best, i, true) && Covers(recs, noted, Undelivereds(recs), {}, SendPair())
  {
    best, noted, i := None, {}, 0;
    var left := sends.Keys;
    AllSendsListed(recs, sends);
    while left != {}
      invariant left <= sends.Keys && Least(recs, noted, best, i, true)
      invariant Covers(recs, noted, Undelivereds(recs), left, SendPair())
      decreases |left|
    {
      var p :| p in left;
      best, noted, i := NoteSendPair(recs, sends, arrivals, p, best, noted, i, left);
      left := left - {p};
    }
  }

  // --------------------------------------------------------------- completions

  /** The indices of the arrivals on `cpu`. */
  function IndicesOn(recs: seq<Rec>, cpu: nat): seq<nat> {
    if recs == [] then []
    else
      var n := |recs| - 1;
      if Selects(ArrivalsOn(cpu), recs[n]) then IndicesOn(recs[..n], cpu) + [n] else IndicesOn(recs[..n], cpu)
  }

  ghost predicate Indexes(idx: seq<nat>, recs: seq<Rec>, cpu: nat) {
    && (forall n :: 0 <= n < |idx| ==> idx[n] < |recs| && Selects(ArrivalsOn(cpu), recs[idx[n]]))
    && (forall m, n :: 0 <= m < n < |idx| ==> idx[m] < idx[n])
    && (forall j :: 0 <= j < |recs| && Selects(ArrivalsOn(cpu), recs[j]) ==> j in idx)
  }

  lemma {:induction false} IndicesRight(recs: seq<Rec>, cpu: nat)
    ensures Indexes(IndicesOn(recs, cpu), recs, cpu)
  {
    if recs != [] {
      var n := |recs| - 1;
      IndicesRight(recs[..n], cpu);
      forall j | 0 <= j < |recs| && Selects(ArrivalsOn(cpu), recs[j]) ensures j in IndicesOn(recs, cpu) {
        if j < n { assert recs[..n][j] == recs[j]; }
      }
    }
  }

  lemma {:induction false} NextIs(recs: seq<Rec>, cpu: nat, j: nat, e: nat)
    requires j <= e <= |recs| && (e < |recs| ==> Selects(ArrivalsOn(cpu), recs[e]))
    requires forall k :: j <= k < e ==> !Selects(ArrivalsOn(cpu), recs[k])
    ensures NextArrival(recs, cpu, j) == e
    decreases e - j
  {
    if j < e { NextIs(recs, cpu, j + 1, e); }
  }

  lemma NextListed(recs: seq<Rec>, cpu: nat, idx: seq<nat>, n: nat)
    requires Indexes(idx, recs, cpu) && n < |idx|
    ensures NextArrival(recs, cpu, idx[n] + 1) == if n + 1 < |idx| then idx[n + 1] else |recs|
  {
    var e := if n + 1 < |idx| then idx[n + 1] else |recs|;
    forall k | idx[n] + 1 <= k < e ensures !Selects(ArrivalsOn(cpu), recs[k]) {
      if Selects(ArrivalsOn(cpu), recs[k]) { NotBetween(idx, n, k, e); }
    }
    NextIs(recs, cpu, idx[n] + 1, e);
  }

  lemma NotBetween(idx: seq<nat>, n: nat, k: nat, e: nat)
    requires (forall m, n :: 0 <= m < n < |idx| ==> idx[m] < idx[n]) && n < |idx| && idx[n] < k
    requires n + 1 < |idx| ==> k < idx[n + 1]
    ensures k !in idx
  {
    if m :| 0 <= m < |idx| && idx[m] == k {
      if m <= n { assert false; } else { assert false; }
    }
  }

  function IndicesIn(m: map<nat, seq<nat>>, cpu: nat): seq<nat> { if cpu in m then m[cpu] else [] }

  ghost predicate Indexed(m: map<nat, seq<nat>>, recs: seq<Rec>) {
    forall cpu: nat :: IndicesIn(m, cpu) == IndicesOn(recs, cpu)
  }

  lemma IndexMore(m: map<nat, seq<nat>>, recs: seq<Rec>, i: nat)
    requires i < |recs| && Indexed(m, recs[..i])
    ensures Indexed(if recs[i].kind == Arrived then m[recs[i].cpu := IndicesIn(m, recs[i].cpu) + [i]] else m, recs[..i + 1])
  {
    var m' := if recs[i].kind == Arrived then m[recs[i].cpu := IndicesIn(m, recs[i].cpu) + [i]] else m;
    forall cpu: nat ensures IndicesIn(m', cpu) == IndicesOn(recs[..i + 1], cpu) {
      assert recs[..i + 1][..i] == recs[..i];
      assert IndicesIn(m, cpu) == IndicesOn(recs[..i], cpu);
    }
  }

  method IndexCpus(recs: seq<Rec>) returns (byCpu: map<nat, seq<nat>>)
    ensures Indexed(byCpu, recs)
  {
    byCpu := map[];
    for i := 0 to |recs|
      invariant Indexed(byCpu, recs[..i])
    {
      IndexMore(byCpu, recs, i);
      if recs[i].kind == Arrived { byCpu := byCpu[recs[i].cpu := IndicesIn(byCpu, recs[i].cpu) + [i]]; }
    }
    assert recs[..|recs|] == recs;
  }

  /** The noted completions so far: `before` and the failing arrivals of `cpu`
      below `idx[n]`. */
  ghost predicate NotedOn(recs: seq<Rec>, idx: seq<nat>, n: nat, before: set<nat>, c: set<nat>)
    requires n <= |idx| && forall k :: 0 <= k < |idx| ==> idx[k] < |recs|
  {
    forall j :: j in c <==> j in before || exists k :: 0 <= k < n && idx[k] == j && BadCompletion(recs, j)
  }

  /** One arrival against the completions before its CPU's next arrival. */
  method NoteArrival(recs: seq<Rec>, cpu: nat, idx: seq<nat>, n: nat, start: Option<Outcome>,
                     ghost u: set<nat>, ghost before: set<nat>, ghost i0: nat)
    returns (first: Option<Outcome>, ghost c: set<nat>, ghost i: nat)
    requires Increasing(recs) && Indexes(idx, recs, cpu) && n < |idx| && Noted(start) && Best(recs, u, before, start, i0)
    ensures Noted(first) && Best(recs, u, c, first, i) && c == if BadCompletion(recs, idx[n]) then before + {idx[n]} else before
  {
    first, c, i := start, before, i0;
    var k := idx[n];
    NextListed(recs, cpu, idx, n);
    var end := if n + 1 < |idx| then idx[n + 1] else |recs|;
    var done := Of(recs[k + 1..end], CompletionsOn(cpu));
    if |done| != 1 || done[0].f0 != recs[k].f0 {
      NoteCompletion(recs, u, c, first, i, k);
      i := if first.None? || k < i then k else i;
      c := c + {k};
      first := Sooner(first, Completion(recs[k].seqNo));
    }
  }

  lemma NotedMore(recs: seq<Rec>, idx: seq<nat>, n: nat, before: set<nat>, c: set<nat>, c': set<nat>)
    requires n < |idx| && (forall k :: 0 <= k < |idx| ==> idx[k] < |recs|) && NotedOn(recs, idx, n, before, c)
    requires c' == if BadCompletion(recs, idx[n]) then c + {idx[n]} else c
    ensures NotedOn(recs, idx, n + 1, before, c')
  {
  }

  /** The arrivals of one CPU. */
  method NoteCpu(recs: seq<Rec>, cpu: nat, idx: seq<nat>, start: Option<Outcome>, ghost u: set<nat>, ghost before: set<nat>, ghost i0: nat)
    returns (first: Option<Outcome>, ghost c: set<nat>, ghost i: nat)
    requires Increasing(recs) && Indexes(idx, recs, cpu) && Noted(start) && Best(recs, u, before, start, i0)
    ensures Noted(first) && Best(recs, u, c, first, i) && NotedOn(recs, idx, |idx|, before, c)
  {
    first, c, i := start, before, i0;
    for n := 0 to |idx|
      invariant Noted(first) && Best(recs, u, c, first, i) && NotedOn(recs, idx, n, before, c)
    {
      ghost var c0 := c;
      first, c, i := NoteArrival(recs, cpu, idx, n, first, u, c, i);
      NotedMore(recs, idx, n, before, c0, c);
    }
  }

  /** Exactly the failing arrivals of CPUs not in `left` are noted. */
  ghost predicate Completed(recs: seq<Rec>, c: set<nat>, left: set<nat>) {
    forall j :: j in c <==> 0 <= j < |recs| && BadCompletion(recs, j) && recs[j].cpu !in left
  }

  lemma CpuDone(recs: seq<Rec>, cpu: nat, idx: seq<nat>, before: set<nat>, c: set<nat>, left: set<nat>)
    requires Indexes(idx, recs, cpu) && Completed(recs, before, left) && NotedOn(recs, idx, |idx|, before, c)
    ensures Completed(recs, c, left - {cpu})
  {
    forall j ensures j in c <==> 0 <= j < |recs| && BadCompletion(recs, j) && recs[j].cpu !in left - {cpu} {
      if 0 <= j < |recs| && BadCompletion(recs, j) && recs[j].cpu == cpu {
        assert Selects(ArrivalsOn(cpu), recs[j]);
        var k :| 0 <= k < |idx| && idx[k] == j;
      }
    }
  }

  lemma CpusListed(recs: seq<Rec>, byCpu: map<nat, seq<nat>>)
    requires Indexed(byCpu, recs)
    ensures Completed(recs, {}, byCpu.Keys)
  {
    forall j | 0 <= j < |recs| && BadCompletion(recs, j) ensures recs[j].cpu in byCpu {
      IndicesRight(recs, recs[j].cpu);
      assert Selects(ArrivalsOn(recs[j].cpu), recs[j]);
      assert IndicesIn(byCpu, recs[j].cpu) == IndicesOn(recs, recs[j].cpu);
    }
  }

  /** The third loop: every CPU's arrivals. */
  method NoteCompletions(recs: seq<Rec>, byCpu: map<nat, seq<nat>>, start: Option<Outcome>, ghost u: set<nat>, ghost i0: nat)
    returns (first: Option<Outcome>, ghost c: set<nat>, ghost i: nat)
    requires Increasing(recs) && Indexed(byCpu, recs) && Noted(start) && Best(recs, u, {}, start, i0)
    ensures Noted(first) && Best(recs, u, c, first, i) && Completed(recs, c, {})
  {
    first, c, i := start, {}, i0;
    var left := byCpu.Keys;
    CpusListed(recs, byCpu);
    while left != {}
      invariant left <= byCpu.Keys && Noted(first) && Best(recs, u, c, first, i) && Completed(recs, c, left)
      decreases |left|
    {
      var cpu :| cpu in left;
      IndicesRight(recs, cpu);
      assert IndicesIn(byCpu, cpu) == IndicesOn(recs, cpu);
      ghost var before := c;
      first, c, i := NoteCpu(recs, cpu, byCpu[cpu], first, u, c, i);
      CpuDone(recs, cpu, byCpu[cpu], before, c, left);
      left := left - {cpu};
    }
  }

  // ----------------------------------------------------------------- the verdict

  lemma LeastCovers(recs: seq<Rec>, u: set<nat>, c: set<nat>, first: Option<Outcome>, i: nat, a: nat)
    requires Best(recs, u, c, first, i) && (CoveredBy(u, a) || a in c)
    ensures first.Some? && i <= a && (i == a && CoveredBy(u, a) ==> a in u)
  {
  }

  lemma BadNoted(recs: seq<Rec>, u: set<nat>, c: set<nat>, a: nat)
    requires Completed(recs, c, {}) && Covers(recs, u, Unexplaineds(recs), {}, ArrivalPair())
    requires a < |recs| && BadArrival(recs, a)
    ensures if UnexplainedAt(recs, a) then CoveredBy(u, a) else a in c
  {
    if UnexplainedAt(recs, a) { assert Unexplaineds(recs)(a); }
  }

  lemma NotedFails(recs: seq<Rec>, u: set<nat>, c: set<nat>, i: nat)
    requires Completed(recs, c, {}) && Covers(recs, u, Unexplaineds(recs), {}, ArrivalPair()) && (i in u || i in c)
    ensures i < |recs| && BadArrival(recs, i) && (i in u ==> UnexplainedAt(recs, i))
  {
    if i in u { assert Unexplaineds(recs)(i); }
  }

  lemma FirstIs(recs: seq<Rec>, u: set<nat>, c: set<nat>, first: Option<Outcome>, i: nat)
    requires Best(recs, u, c, first, i) && Completed(recs, c, {}) && Covers(recs, u, Unexplaineds(recs), {}, ArrivalPair())
    ensures first.None? ==> FirstBad(recs, 0) == |recs|
    ensures first.Some? ==> && i < |recs| && FirstBad(recs, 0) == i
                            && first.value == if UnexplainedAt(recs, i) then Unexplained(recs[i].seqNo) else Completion(recs[i].seqNo)
  {
    var a := FirstBad(recs, 0);
    if a < |recs| {
      BadNoted(recs, u, c, a);
      LeastCovers(recs, u, c, first, i, a);
    }
    if first.Some? {
      NotedFails(recs, u, c, i);
      BadNoted(recs, u, c, i);
      LeastCovers(recs, u, c, first, i, i);
    }
  }

  lemma SendIs(recs: seq<Rec>, noted: set<nat>, best: Option<Outcome>, i: nat)
    requires Least(recs, noted, best, i, true) && Covers(recs, noted, Undelivereds(recs), {}, SendPair())
    ensures best.None? ==> FirstUndelivered(recs, 0) == |recs|
    ensures best.Some? ==> i < |recs| && FirstUndelivered(recs, 0) == i && best.value == Undelivered(recs[i].seqNo)
  {
    var a := FirstUndelivered(recs, 0);
    if a < |recs| {
      assert Undelivereds(recs)(a) && CoveredBy(noted, a);
      var k :| k in noted && k <= a;
      assert Undelivereds(recs)(k);
    }
    if best.Some? { assert Undelivereds(recs)(i); }
  }

  /** The whole check: whatever order the dictionaries are walked in, the verdict
      is the one the records determine. */
  method Check(recs: seq<Rec>) returns (v: Outcome)
    requires Increasing(recs)
    ensures v == Verdict(recs)
  {
    var sends, arrivals := Collect(recs);
    var first, undelivered;
    ghost var u, i, noted, k, c;
    first, u, i := NoteArrivals(recs, sends, arrivals);
    LeastIsBest(recs, u, first, i);
    undelivered, noted, k := NoteSends(recs, sends, arrivals);
    SendIs(recs, noted, undelivered, k);
    var byCpu := IndexCpus(recs);
    first, c, i := NoteCompletions(recs, byCpu, first, u, i);
    FirstIs(recs, u, c, first, i);
    if first.Some? { return first.value; }
    if undelivered.Some? { return undelivered.value; }
    return Ok;
  }
}
