/** The counting rule of the SGI check and the grouping it stands for. */
module SgiGroups {
  import opened SgiPopulation

  /** Cut at `cuts`, the sends fall into runs of at least one send, one run per
      arrival, all of it recorded before that arrival. */
  ghost predicate GroupsBy(ss: seq<Rec>, arr: seq<Rec>, cuts: seq<nat>) {
    && |cuts| == |arr| + 1 && cuts[0] == 0 && cuts[|arr|] == |ss|
    && (forall k :: 0 <= k < |arr| ==> Group(ss, arr, cuts, k))
  }

  /** Group `k` is not empty and all of it comes before arrival `k`. */
  ghost predicate Group(ss: seq<Rec>, arr: seq<Rec>, cuts: seq<nat>, k: nat)
    requires |cuts| == |arr| + 1 && k < |arr|
  {
    cuts[k] < cuts[k + 1] <= |ss| && forall m :: cuts[k] <= m < cuts[k + 1] ==> ss[m].seqNo < arr[k].seqNo
  }

  ghost predicate Grouped(recs: seq<Rec>, p: Pair) {
    exists cuts :: GroupsBy(Of(recs, Sends(p)), Of(recs, Arrivals(p)), cuts)
  }

  ghost predicate NoneUnexplained(recs: seq<Rec>, p: Pair) {
    forall i :: 0 <= i < |recs| && Selects(Arrivals(p), recs[i]) ==> !UnexplainedAt(recs, i)
  }

  ghost predicate NoneUndelivered(recs: seq<Rec>, p: Pair) {
    forall i :: 0 <= i < |recs| && Selects(Sends(p), recs[i]) ==> !UndeliveredAt(recs, i)
  }

  // -------------------------------------------------------- counts and positions

  /** Element `k` comes before record `i` exactly when more than `k` are selected
      before it. */
  lemma BeforeIff(recs: seq<Rec>, sel: Selector, k: nat, i: nat)
    requires Increasing(recs) && k < |Of(recs, sel)| && i < |recs| && !Selects(sel, recs[i])
    ensures Of(recs, sel)[k].seqNo < recs[i].seqNo <==> |Of(recs[..i], sel)| > k
  {
    var j := Located(recs, sel, k);
    if j < i {
      OfStep(recs, sel, j);
      assert recs[..i][..j + 1] == recs[..j + 1];
      OfPrefix(recs[..i], sel, j + 1);
    } else {
      assert recs[..j][..i] == recs[..i];
      OfPrefix(recs[..j], sel, i);
    }
  }

  /** Every arrival has a send of its own before it. */
  ghost predicate Each(ss: seq<Rec>, arr: seq<Rec>) {
    |arr| <= |ss| && forall k :: 0 <= k < |arr| ==> ss[k].seqNo < arr[k].seqNo
  }

  /** Every send comes before the last arrival. */
  ghost predicate Drained(ss: seq<Rec>, arr: seq<Rec>) {
    ss != [] ==> arr != [] && ss[|ss| - 1].seqNo < arr[|arr| - 1].seqNo
  }

  lemma ExplainedAt(recs: seq<Rec>, p: Pair, k: nat, i: nat)
    requires Increasing(recs) && i < |recs| && Selects(Arrivals(p), recs[i]) && |Of(recs[..i], Arrivals(p))| == k
    ensures var ss := Of(recs, Sends(p)); !UnexplainedAt(recs, i) <==> k < |ss| && ss[k].seqNo < recs[i].seqNo
  {
    OfStep(recs, Arrivals(p), i);
    OfPrefix(recs, Sends(p), i);
    if k < |Of(recs, Sends(p))| { BeforeIff(recs, Sends(p), k, i); }
  }

  lemma NoneUnexplainedIff(recs: seq<Rec>, p: Pair)
    requires Increasing(recs)
    ensures NoneUnexplained(recs, p) <==> Each(Of(recs, Sends(p)), Of(recs, Arrivals(p)))
  {
    var ss, arr := Of(recs, Sends(p)), Of(recs, Arrivals(p));
    if NoneUnexplained(recs, p) {
      forall k | 0 <= k < |arr| ensures k < |ss| && ss[k].seqNo < arr[k].seqNo {
        var i := Located(recs, Arrivals(p), k);
        ExplainedAt(recs, p, k, i);
      }
      if arr != [] {
        var last := |arr| - 1;
        assert arr[last].seqNo > ss[last].seqNo;
      }
    }
    if Each(ss, arr) {
      forall i | 0 <= i < |recs| && Selects(Arrivals(p), recs[i]) ensures !UnexplainedAt(recs, i) {
        Placed(recs, Arrivals(p), i);
        ExplainedAt(recs, p, |Of(recs[..i], Arrivals(p))|, i);
      }
    }
  }

  lemma DeliveredAt(recs: seq<Rec>, p: Pair, i: nat)
    requires Increasing(recs) && i < |recs| && Selects(Sends(p), recs[i])
    ensures var arr := Of(recs, Arrivals(p)); !UndeliveredAt(recs, i) <==> arr != [] && recs[i].seqNo < arr[|arr| - 1].seqNo
  {
    var arr := Of(recs, Arrivals(p));
    OfPrefix(recs, Arrivals(p), i);
    if arr != [] {
      BeforeIff(recs, Arrivals(p), |arr| - 1, i);
      var j := Located(recs, Arrivals(p), |arr| - 1);
      assert i != j;
    }
  }

  lemma NoneUndeliveredIff(recs: seq<Rec>, p: Pair)
    requires Increasing(recs)
    ensures NoneUndelivered(recs, p) <==> Drained(Of(recs, Sends(p)), Of(recs, Arrivals(p)))
  {
    var ss, arr := Of(recs, Sends(p)), Of(recs, Arrivals(p));
    if NoneUndelivered(recs, p) && ss != [] {
      var i := Located(recs, Sends(p), |ss| - 1);
      DeliveredAt(recs, p, i);
    }
    if Drained(ss, arr) {
      forall i | 0 <= i < |recs| && Selects(Sends(p), recs[i]) ensures !UndeliveredAt(recs, i) {
        Placed(recs, Sends(p), i);
        var k := |Of(recs[..i], Sends(p))|;
        if k < |ss| - 1 { OfIncreasing(recs, Sends(p), k, |ss| - 1); }
        DeliveredAt(recs, p, i);
      }
    }
  }

  // ----------------------------------------------------------------- grouping

  /** One send for each arrival but the last, which takes the rest. */
  function Greedy(n: nat, total: nat): seq<nat> { seq(n + 1, k => if 0 <= k < n then k else total) }

  lemma GreedyGroups(ss: seq<Rec>, arr: seq<Rec>)
    requires Each(ss, arr) && Drained(ss, arr) && Increasing(ss)
    ensures GroupsBy(ss, arr, Greedy(|arr|, |ss|))
  {
    var n, cuts := |arr|, Greedy(|arr|, |ss|);
    forall k | 0 <= k < n ensures Group(ss, arr, cuts, k) {
      if k == n - 1 {
        forall m | k <= m < |ss| ensures ss[m].seqNo < arr[k].seqNo { assert ss[m].seqNo <= ss[|ss| - 1].seqNo; }
      }
    }
  }

  lemma {:induction false} CutsGrow(arr: seq<Rec>, ss: seq<Rec>, cuts: seq<nat>, k: nat)
    requires GroupsBy(ss, arr, cuts) && k <= |arr|
    ensures cuts[k] >= k
  {
    if k > 0 {
      CutsGrow(arr, ss, cuts, k - 1);
      assert Group(ss, arr, cuts, k - 1);
    }
  }

  lemma GroupsExplain(ss: seq<Rec>, arr: seq<Rec>, cuts: seq<nat>)
    requires GroupsBy(ss, arr, cuts) && Increasing(ss) && Increasing(arr)
    ensures Each(ss, arr) && Drained(ss, arr)
  {
    CutsGrow(arr, ss, cuts, |arr|);
    forall k | 0 <= k < |arr| ensures k < |ss| && ss[k].seqNo < arr[k].seqNo {
      CutsGrow(arr, ss, cuts, k + 1);
      assert Group(ss, arr, cuts, k);
      assert ss[cuts[k + 1] - 1].seqNo < arr[k].seqNo;
    }
    if ss != [] {
      var n := |arr| - 1;
      assert arr != [] && Group(ss, arr, cuts, n);
    }
  }

  lemma SelectionsIncrease(recs: seq<Rec>, sel: Selector)
    requires Increasing(recs)
    ensures Increasing(Of(recs, sel))
  {
    forall i, j | 0 <= i < j < |Of(recs, sel)| ensures Of(recs, sel)[i].seqNo < Of(recs, sel)[j].seqNo { OfIncreasing(recs, sel, i, j); }
  }

  /** No arrival of a pair is unexplained and no send undelivered exactly when the
      sends can be cut into runs of at least one send, one run per arrival in
      order, all of it recorded before that arrival. */
  lemma GroupedIff(recs: seq<Rec>, p: Pair)
    requires Increasing(recs)
    ensures NoneUnexplained(recs, p) && NoneUndelivered(recs, p) <==> Grouped(recs, p)
  {
    var ss, arr := Of(recs, Sends(p)), Of(recs, Arrivals(p));
    NoneUnexplainedIff(recs, p);
    NoneUndeliveredIff(recs, p);
    SelectionsIncrease(recs, Sends(p));
    SelectionsIncrease(recs, Arrivals(p));
    if Each(ss, arr) && Drained(ss, arr) { GreedyGroups(ss, arr); }
    if cuts :| GroupsBy(ss, arr, cuts) { GroupsExplain(ss, arr, cuts); }
  }

  predicate Clean(recs: seq<Rec>) { forall i :: 0 <= i < |recs| ==> !UnexplainedAt(recs, i) && !UndeliveredAt(recs, i) }

  lemma CleanIff(recs: seq<Rec>)
    requires Increasing(recs)
    ensures Clean(recs) <==> forall p :: Grouped(recs, p)
  {
    if Clean(recs) {
      forall p ensures Grouped(recs, p) { GroupedIff(recs, p); }
    } else {
      var i :| 0 <= i < |recs| && (UnexplainedAt(recs, i) || UndeliveredAt(recs, i));
      var p := if UnexplainedAt(recs, i) then PairOf(recs[i]) else (recs[i].cpu, recs[i].f0);
      GroupedIff(recs, p);
      assert !Grouped(recs, p);
    }
  }

  lemma VerdictOk(recs: seq<Rec>)
    ensures Verdict(recs) == Ok <==> Clean(recs) && forall i :: 0 <= i < |recs| ==> !BadCompletion(recs, i)
  {
    var a, s := FirstBad(recs, 0), FirstUndelivered(recs, 0);
    if Verdict(recs) == Ok {
      forall i | 0 <= i < |recs| ensures !UnexplainedAt(recs, i) && !UndeliveredAt(recs, i) && !BadCompletion(recs, i) {
        assert !BadArrival(recs, i);
      }
    }
  }

  /** The check reports nothing exactly when every pair's sends are grouped by its
      arrivals and every arrival has its one completion. */
  lemma OkIff(recs: seq<Rec>)
    requires Increasing(recs)
    ensures Verdict(recs) == Ok <==>
            (forall p :: Grouped(recs, p)) && forall i :: 0 <= i < |recs| ==> !BadCompletion(recs, i)
  {
    VerdictOk(recs);
    CleanIff(recs);
  }
}
