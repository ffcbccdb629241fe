/** The SGI population check: sends, arrivals and completions of each CPU pair,
    in record order, and the verdict it reports. */
module SgiPopulation {

  datatype Kind = Sent | Arrived | Completed | Other

  /** `target` of a send; `token` and `source` of an arrival; `token` of a
      completion. */
  datatype Rec = Rec(kind: Kind, seqNo: nat, cpu: nat, f0: nat, f1: nat)

  type Pair = (nat, nat)

  datatype Outcome = Ok | Unexplained(at: nat) | Undelivered(at: nat) | Completion(at: nat)

  // ---------------------------------------------------------------- selections

  /** Which records a list holds. */
  datatype Selector = Sends(pair: Pair) | Arrivals(pair: Pair) | ArrivalsOn(on: nat) | CompletionsOn(on: nat)

  predicate Selects(sel: Selector, r: Rec) {
    match sel
    case Sends(pair) => r.kind == Sent && (r.cpu, r.f0) == pair
    case Arrivals(pair) => r.kind == Arrived && (r.f1, r.cpu) == pair
    case ArrivalsOn(cpu) => r.kind == Arrived && r.cpu == cpu
    case CompletionsOn(cpu) => r.kind == Completed && r.cpu == cpu
  }

  /** The selected records, in order. */
  function Of(recs: seq<Rec>, sel: Selector): seq<Rec> {
    if recs == [] then []
    else
      var n := |recs| - 1;
      if Selects(sel, recs[n]) then Of(recs[..n], sel) + [recs[n]] else Of(recs[..n], sel)
  }

  predicate Increasing(recs: seq<Rec>) { forall i, j :: 0 <= i < j < |recs| ==> recs[i].seqNo < recs[j].seqNo }

  /** How many of the records come before number `x`. */
  function CountBelow(ss: seq<Rec>, x: nat): nat {
    if ss == [] then 0 else CountBelow(ss[..|ss| - 1], x) + if ss[|ss| - 1].seqNo < x then 1 else 0
  }

  // -------------------------------------------------------------- the failures

  function PairOf(arrival: Rec): Pair { (arrival.f1, arrival.cpu) }

  /** Fewer sends than arrivals of the pair up to arrival `i`. */
  predicate UnexplainedAt(recs: seq<Rec>, i: nat)
    requires i < |recs|
  {
    && recs[i].kind == Arrived
    && |Of(recs[..i], Sends(PairOf(recs[i])))| < |Of(recs[..i + 1], Arrivals(PairOf(recs[i])))|
  }

  /** No arrival of the pair after send `i`. */
  predicate UndeliveredAt(recs: seq<Rec>, i: nat)
    requires i < |recs|
  {
    && recs[i].kind == Sent
    && |Of(recs, Arrivals((recs[i].cpu, recs[i].f0)))| == |Of(recs[..i], Arrivals((recs[i].cpu, recs[i].f0)))|
  }

  /** The first arrival on `cpu` from `j` on, or the end. */
  function NextArrival(recs: seq<Rec>, cpu: nat, j: nat): (e: nat)
    requires j <= |recs|
    ensures j <= e <= |recs|
    decreases |recs| - j
  {
    if j == |recs| || Selects(ArrivalsOn(cpu), recs[j]) then j else NextArrival(recs, cpu, j + 1)
  }

  /** The completions between arrival `i` and the CPU's next arrival are not
      exactly one with its token. */
  predicate BadCompletion(recs: seq<Rec>, i: nat)
    requires i < |recs|
  {
    && recs[i].kind == Arrived
    && var done := Of(recs[i + 1..NextArrival(recs, recs[i].cpu, i + 1)], CompletionsOn(recs[i].cpu));
       |done| != 1 || done[0].f0 != recs[i].f0
  }

  predicate BadArrival(recs: seq<Rec>, i: nat)
    requires i < |recs|
  {
    UnexplainedAt(recs, i) || BadCompletion(recs, i)
  }

  /** The first failing arrival from `i` on, or the end. */
  function FirstBad(recs: seq<Rec>, i: nat): (k: nat)
    requires i <= |recs|
    ensures i <= k <= |recs| && (k < |recs| ==> BadArrival(recs, k)) && forall j :: i <= j < k ==> !BadArrival(recs, j)
    decreases |recs| - i
  {
    if i == |recs| || BadArrival(recs, i) then i else FirstBad(recs, i + 1)
  }

  /** The first undelivered send from `i` on, or the end. */
  function FirstUndelivered(recs: seq<Rec>, i: nat): (k: nat)
    requires i <= |recs|
    ensures i <= k <= |recs| && (k < |recs| ==> UndeliveredAt(recs, k)) && forall j :: i <= j < k ==> !UndeliveredAt(recs, j)
    decreases |recs| - i
  {
    if i == |recs| || UndeliveredAt(recs, i) then i else FirstUndelivered(recs, i + 1)
  }

  /** What the check must report: the earliest failing arrival, unexplained
      before incomplete; else the earliest undelivered send; else nothing. */
  function Verdict(recs: seq<Rec>): Outcome {
    var a, s := FirstBad(recs, 0), FirstUndelivered(recs, 0);
    if a < |recs| then (if UnexplainedAt(recs, a) then Unexplained(recs[a].seqNo) else Completion(recs[a].seqNo))
    else if s < |recs| then Undelivered(recs[s].seqNo)
    else Ok
  }

  // -------------------------------------------------------------- list lemmas

  lemma {:induction false} OfPrefix(recs: seq<Rec>, sel: Selector, n: nat)
    requires n <= |recs|
    ensures Of(recs[..n], sel) <= Of(recs, sel)
    decreases |recs|
  {
    if n < |recs| {
      assert recs[..|recs| - 1][..n] == recs[..n];
      OfPrefix(recs[..|recs| - 1], sel, n);
    } else {
      assert recs[..n] == recs;
    }
  }

  lemma OfStep(recs: seq<Rec>, sel: Selector, i: nat)
    requires i < |recs|
    ensures Of(recs[..i + 1], sel) == if Selects(sel, recs[i]) then Of(recs[..i], sel) + [recs[i]] else Of(recs[..i], sel)
  {
    assert recs[..i + 1][..i] == recs[..i];
  }

  /** Element `k` of a selection stands at some index, after `k` others. */
  lemma {:induction false} Located(recs: seq<Rec>, sel: Selector, k: nat) returns (i: nat)
    requires k < |Of(recs, sel)|
    ensures i < |recs| && recs[i] == Of(recs, sel)[k] && Selects(sel, recs[i]) && |Of(recs[..i], sel)| == k
    decreases |recs|
  {
    var n := |recs| - 1;
    if k < |Of(recs[..n], sel)| {
      i := Located(recs[..n], sel, k);
      assert recs[..n][..i] == recs[..i];
    } else {
      i := n;
    }
  }

  /** A selected record is the element its prefix counts. */
  lemma Placed(recs: seq<Rec>, sel: Selector, i: nat)
    requires i < |recs| && Selects(sel, recs[i])
    ensures var k := |Of(recs[..i], sel)|; k < |Of(recs, sel)| && Of(recs, sel)[k] == recs[i]
  {
    OfStep(recs, sel, i);
    OfPrefix(recs, sel, i + 1);
  }

  lemma {:induction false} CountBelowIs(recs: seq<Rec>, sel: Selector, n: nat, i: nat)
    requires Increasing(recs) && i < |recs| && n <= |recs|
    ensures CountBelow(Of(recs[..n], sel), recs[i].seqNo) == |Of(recs[..if n < i then n else i], sel)|
    decreases n
  {
    if n > 0 {
      OfStep(recs, sel, n - 1);
      CountBelowIs(recs, sel, n - 1, i);
      if Selects(sel, recs[n - 1]) { CountSnoc(Of(recs[..n - 1], sel), recs[n - 1], recs[i].seqNo); }
    }
  }

  lemma CountSnoc(ss: seq<Rec>, r: Rec, x: nat)
    ensures CountBelow(ss + [r], x) == CountBelow(ss, x) + if r.seqNo < x then 1 else 0
  {
    assert (ss + [r])[..|ss|] == ss;
  }

  lemma OfIncreasing(recs: seq<Rec>, sel: Selector, i: nat, j: nat)
    requires Increasing(recs) && i < j < |Of(recs, sel)|
    ensures Of(recs, sel)[i].seqNo < Of(recs, sel)[j].seqNo
  {
    var a := Located(recs, sel, i);
    var b := Located(recs, sel, j);
    if b <= a {
      assert recs[..a][..b] == recs[..b];
      OfPrefix(recs[..a], sel, b);
    }
  }
}
