/** What a silent ownership checker means: matched pairs, ordered intervals, one
    owner at a time. */
module LockProofs {
  import opened Machine
  import opened LockOwnership

  // ------------------------------------------------------------ matched pairs

  predicate IsLock(e: Event) { e.kind == Acquire || e.kind == Release }

  /** The acquire and release records, in order. */
  function Locks(ev: seq<Event>): seq<Event> {
    if ev == [] then [] else if IsLock(ev[0]) then [ev[0]] + Locks(ev[1..]) else Locks(ev[1..])
  }

  predicate Pair(a: Event, r: Event, rounds: int) {
    && a.kind == Acquire && r.kind == Release && 1 <= a.round <= rounds
    && a.id == r.id && a.hart == r.hart && a.round == r.round
  }

  /** A concatenation of matched pairs whose ids are new. */
  predicate Matched(s: seq<Event>, used: set<nat>, rounds: int) {
    s == [] || (|s| >= 2 && Pair(s[0], s[1], rounds) && s[0].id !in used && Matched(s[2..], used + {s[0].id}, rounds))
  }

  /** While `owner` holds the lock the next record must be its release. */
  predicate Closes(s: seq<Event>, owner: nat, a: Acquisition, used: set<nat>, rounds: int) {
    s != [] && s[0].kind == Release && Ends(s[0], owner, a) && Matched(s[1..], used, rounds)
  }

  lemma {:induction false} SilentIff(ev: seq<Event>, st: State, rounds: int)
    requires st.Valid()
    ensures Faults(ev, st, rounds) == [] <==>
            if st.owner.None? then Matched(Locks(ev), st.acqs.Keys, rounds)
            else Closes(Locks(ev), st.owner.value, st.acqs[st.owner.value], st.acqs.Keys, rounds)
  {
    if ev != [] {
      var e, rest := ev[0], ev[1..];
      SilentIff(rest, Next(st, e), rounds);
      if IsLock(e) {
        assert Locks(ev)[1..] == Locks(rest);
        if e.kind == Acquire { AcquireCase(e, rest, st, rounds); } else { ReleaseCase(e, rest, st, rounds); }
      }
    }
  }

  lemma AcquireCase(e: Event, rest: seq<Event>, st: State, rounds: int)
    requires st.Valid() && e.kind == Acquire
    ensures var st', s := Next(st, e), [e] + Locks(rest);
            && st'.Valid()
            && (st.owner.None? && e.id !in st.acqs ==>
                  (Matched(s, st.acqs.Keys, rounds) <==>
                     1 <= e.round <= rounds && Closes(Locks(rest), e.id, st'.acqs[e.id], st'.acqs.Keys, rounds)))
            && (st.owner.None? && e.id in st.acqs ==> !Matched(s, st.acqs.Keys, rounds))
  {
    var s := [e] + Locks(rest);
    if |s| >= 2 {
      assert s[2..] == Locks(rest)[1..];
      if e.id !in st.acqs { assert Next(st, e).acqs.Keys == st.acqs.Keys + {e.id}; }
    }
  }

  lemma ReleaseCase(e: Event, rest: seq<Event>, st: State, rounds: int)
    requires st.Valid() && e.kind == Release
    ensures var st', s := Next(st, e), [e] + Locks(rest);
            && st'.acqs.Keys == st.acqs.Keys
            && (st.owner.Some? ==>
                  (Closes(s, st.owner.value, st.acqs[st.owner.value], st.acqs.Keys, rounds) <==>
                     Ends(e, st.owner.value, st.acqs[st.owner.value]) && Matched(Locks(rest), st.acqs.Keys, rounds)))
            && (st.owner.None? ==> !Matched(s, st.acqs.Keys, rounds))
  {
    var s := [e] + Locks(rest);
    assert s[1..] == Locks(rest);
  }

  /** The checker reports nothing exactly when the acquire and release records
      are a concatenation of matched pairs with distinct ids. */
  lemma SilentIffMatched(ev: seq<Event>, rounds: int)
    ensures Faults(ev, START, rounds) == [] <==> Matched(Locks(ev), {}, rounds)
  {
    assert START.acqs.Keys == {};
    SilentIff(ev, START, rounds);
  }

  // ---------------------------------------------------------------- intervals

  predicate Increasing(ev: seq<Event>) { forall i, j :: 0 <= i < j < |ev| ==> ev[i].seqNo < ev[j].seqNo }

  /** Everything recorded so far happened before `t`, and only the owner's
      acquisition is open. */
  predicate Before(st: State, t: nat) {
    && st.Valid()
    && (forall id :: id in st.acqs ==> st.acqs[id].acquired < t)
    && (forall id :: id in st.acqs && st.acqs[id].released.Some? ==> st.acqs[id].released.value < t)
    && (forall id :: id in st.acqs ==> (st.acqs[id].released.None? <==> st.owner == Some(id)))
  }

  lemma BeforeStep(st: State, e: Event, t: nat, rounds: int)
    requires Before(st, e.seqNo) && e.seqNo < t && FaultsOf(st, e, rounds) == []
    ensures Before(Next(st, e), t)
  {
  }

  /** From `st` on: what was recorded of `id` stays, an open acquisition is
      closed by a record from `t` on, and a new one starts from `t` on. */
  ghost predicate ExtendsAt(st: State, fin: State, t: nat, id: nat) {
    if id in st.acqs then
      && id in fin.acqs && fin.acqs[id].released.Some?
      && fin.acqs[id].(released := None) == st.acqs[id].(released := None)
      && (if st.owner == Some(id) then fin.acqs[id].released.value >= t else fin.acqs[id].released == st.acqs[id].released)
    else id in fin.acqs ==> fin.acqs[id].acquired >= t && fin.acqs[id].released.Some?
  }

  ghost predicate Extends(st: State, fin: State, t: nat) { forall id :: ExtendsAt(st, fin, t, id) }

  lemma ExtendsStep(st: State, e: Event, fin: State, t: nat, rounds: int, id: nat)
    requires Before(st, e.seqNo) && e.seqNo < t && FaultsOf(st, e, rounds) == [] && ExtendsAt(Next(st, e), fin, t, id)
    ensures ExtendsAt(st, fin, e.seqNo, id)
  {
  }

  lemma ExtendsAll(st: State, e: Event, fin: State, t: nat, rounds: int)
    requires Before(st, t) && t <= e.seqNo && FaultsOf(st, e, rounds) == [] && Extends(Next(st, e), fin, e.seqNo + 1)
    ensures Extends(st, fin, t)
  {
    forall id ensures ExtendsAt(st, fin, t, id) {
      assert ExtendsAt(Next(st, e), fin, e.seqNo + 1, id);
      ExtendsStep(st, e, fin, e.seqNo + 1, rounds, id);
    }
  }

  lemma {:induction false} FinalExtends(ev: seq<Event>, st: State, rounds: int, t: nat)
    requires Increasing(ev) && Before(st, t) && (ev != [] ==> t <= ev[0].seqNo) && Faults(ev, st, rounds) == []
    ensures Extends(st, Final(ev, st), t)
  {
    if ev != [] {
      var e, rest := ev[0], ev[1..];
      assert Before(st, e.seqNo);
      BeforeStep(st, e, e.seqNo + 1, rounds);
      FinalExtends(rest, Next(st, e), rounds, e.seqNo + 1);
      ExtendsAll(st, e, Final(rest, Next(st, e)), t, rounds);
    }
  }

  /** Two different acquisitions of a silent run: one ends before the other
      starts. */
  ghost predicate Apart(a: Acquisition, b: Acquisition) {
    a.released.Some? && b.released.Some? && (a.released.value < b.acquired || b.released.value < a.acquired)
  }

  predicate Overlaps(a: Acquisition, t: nat) { a.acquired <= t && (a.released.None? || t <= a.released.value) }

  /** Closed acquisitions are pairwise apart, and before the open one. */
  ghost predicate AllApart(st: State) {
    && (forall x :: x in st.acqs && st.acqs[x].released.Some? ==> st.acqs[x].acquired < st.acqs[x].released.value)
    && (forall x, y :: x in st.acqs && y in st.acqs && x != y && st.owner != Some(x) && st.owner != Some(y) ==>
          Apart(st.acqs[x], st.acqs[y]))
  }

  ghost predicate OwnerLast(st: State) {
    st.owner.Some? && st.owner.value in st.acqs ==>
      forall x :: x in st.acqs && x != st.owner.value ==>
        st.acqs[x].released.Some? && st.acqs[x].released.value < st.acqs[st.owner.value].acquired
  }

  lemma ApartStep(st: State, e: Event, rounds: int)
    requires Before(st, e.seqNo) && AllApart(st) && OwnerLast(st) && FaultsOf(st, e, rounds) == []
    ensures AllApart(Next(st, e)) && OwnerLast(Next(st, e))
  {
  }

  lemma {:induction false} FinalApart(ev: seq<Event>, st: State, rounds: int, t: nat)
    requires Increasing(ev) && Before(st, t) && (ev != [] ==> t <= ev[0].seqNo) && Faults(ev, st, rounds) == []
    requires AllApart(st) && OwnerLast(st)
    ensures Final(ev, st).owner.None? && AllApart(Final(ev, st))
  {
    if ev != [] {
      var e := ev[0];
      BeforeStep(st, e, e.seqNo + 1, rounds);
      ApartStep(st, e, rounds);
      FinalApart(ev[1..], Next(st, e), rounds, e.seqNo + 1);
    }
  }

  /** No two CPUs ever hold the lock at once: the intervals of a silent run are
      closed, totally ordered, and no record number lies in two of them. */
  lemma OneOwnerAtATime(ev: seq<Event>, rounds: int)
    requires Increasing(ev) && Faults(ev, START, rounds) == []
    ensures forall x :: x in Final(ev, START).acqs ==> Final(ev, START).acqs[x].released.Some?
    ensures var acqs := Final(ev, START).acqs;
            forall x, y :: x in acqs && y in acqs && x != y ==>
              Apart(acqs[x], acqs[y]) && forall t: nat :: !(Overlaps(acqs[x], t) && Overlaps(acqs[y], t))
  {
    FinalExtends(ev, START, rounds, 0);
    FinalApart(ev, START, rounds, 0);
    var acqs := Final(ev, START).acqs;
    forall x | x in acqs ensures acqs[x].released.Some? { assert ExtendsAt(START, Final(ev, START), 0, x); }
    forall x, y | x in acqs && y in acqs && x != y
      ensures Apart(acqs[x], acqs[y]) && forall t: nat :: !(Overlaps(acqs[x], t) && Overlaps(acqs[y], t))
    {
      assert ExtendsAt(START, Final(ev, START), 0, x) && ExtendsAt(START, Final(ev, START), 0, y);
      ApartTimes(acqs[x], acqs[y]);
    }
  }

  lemma ApartTimes(a: Acquisition, b: Acquisition)
    requires Apart(a, b) && a.acquired <= a.released.value && b.acquired <= b.released.value
    ensures forall t: nat :: !(Overlaps(a, t) && Overlaps(b, t))
  {
  }

  // --------------------------------------------------- records inside intervals

  /** Record number `at` lies strictly inside the recorded interval. */
  predicate Spans(acqs: map<nat, Acquisition>, id: nat, at: nat) {
    id in acqs && acqs[id].released.Some? && acqs[id].acquired < at < acqs[id].released.value
  }

  lemma SpansHere(st: State, fin: State, t: nat, at: nat, id: nat)
    requires Before(st, t) && t <= at && Extends(st, fin, at + 1)
    ensures st.owner == Some(id) <==> Spans(fin.acqs, id, at)
  {
    assert ExtendsAt(st, fin, at + 1, id);
  }

  lemma {:induction false} OwnerSpans(ev: seq<Event>, st: State, rounds: int, t: nat, n: nat, id: nat)
    requires Increasing(ev) && Before(st, t) && n < |ev| && t <= ev[0].seqNo && Faults(ev, st, rounds) == []
    requires !IsLock(ev[n])
    ensures Final(ev[..n], st).owner == Some(id) <==> Spans(Final(ev, st).acqs, id, ev[n].seqNo)
    decreases n
  {
    var e, rest := ev[0], ev[1..];
    BeforeStep(st, e, e.seqNo + 1, rounds);
    if n == 0 {
      FinalExtends(rest, st, rounds, e.seqNo + 1);
      SpansHere(st, Final(rest, st), t, e.seqNo, id);
    } else {
      assert ev[..n][1..] == rest[..n - 1] && rest[n - 1] == ev[n];
      OwnerSpans(rest, Next(st, e), rounds, e.seqNo + 1, n - 1, id);
    }
  }

  /** In a silent run `Inside` says exactly that the replay's owner at that
      record is this acquisition and the recording CPU is its owner. */
  lemma InsideIsOwning(ev: seq<Event>, rounds: int, n: nat, id: nat)
    requires Increasing(ev) && Faults(ev, START, rounds) == [] && n < |ev| && !IsLock(ev[n])
    ensures var acqs := Final(ev, START).acqs;
            Inside(acqs, ev[n], id) <==>
              Final(ev[..n], START).owner == Some(id) && id in acqs && acqs[id].cpu == ev[n].hart
  {
    OwnerSpans(ev, START, rounds, 0, n, id);
  }

  lemma {:induction false} FinalKeys(ev: seq<Event>, st: State, id: nat)
    requires st.Valid()
    ensures id in Final(ev, st).acqs <==> id in st.acqs || exists i :: 0 <= i < |ev| && ev[i].kind == Acquire && ev[i].id == id
    decreases |ev|
  {
    if ev != [] {
      FinalKeys(ev[1..], Next(st, ev[0]), id);
      if i :| 0 <= i < |ev| && ev[i].kind == Acquire && ev[i].id == id {
        if i > 0 { assert ev[1..][i - 1] == ev[i]; }
      }
    }
  }

  lemma {:induction false} OrderKeys(ev: seq<Event>, id: nat)
    ensures id in InsertionOrder(ev) <==> exists i :: 0 <= i < |ev| && ev[i].kind == Acquire && ev[i].id == id
    decreases |ev|
  {
    if ev != [] {
      var front := ev[..|ev| - 1];
      OrderKeys(front, id);
      if i :| 0 <= i < |ev| && ev[i].kind == Acquire && ev[i].id == id {
        if i < |front| { assert front[i] == ev[i]; }
      }
    }
  }

  /** The insertion order lists the recorded acquisitions, each once. */
  lemma {:induction false} OrderExact(ev: seq<Event>)
    ensures forall id :: id in InsertionOrder(ev) <==> id in Final(ev, START).acqs
    ensures forall i, j :: 0 <= i < j < |InsertionOrder(ev)| ==> InsertionOrder(ev)[i] != InsertionOrder(ev)[j]
    decreases |ev|
  {
    forall id: nat ensures id in InsertionOrder(ev) <==> id in Final(ev, START).acqs {
      OrderKeys(ev, id);
      FinalKeys(ev, START, id);
    }
    if ev != [] { OrderExact(ev[..|ev| - 1]); }
  }

  lemma {:induction false} OwnReportsExact(acqs: map<nat, Acquisition>, ids: seq<nat>, c: Event, f: Fault)
    ensures f in OwnReports(acqs, ids, c) <==>
              f.ContendedWhileOwning? && f.at == c.seqNo && f.owner in ids && Inside(acqs, c, f.owner)
    decreases |ids|
  {
    if ids != [] {
      var k := |ids| - 1;
      OwnReportsExact(acqs, ids[..k], c, f);
      assert ids == ids[..k] + [ids[k]];
    }
  }

  /** A contended record of a silent run is reported for exactly two things: a
      round that is not scheduled, and its own CPU owning the lock at that
      record, and then for that acquisition alone. */
  lemma ContentionMeans(ev: seq<Event>, rounds: int, n: nat, f: Fault)
    requires Increasing(ev) && Faults(ev, START, rounds) == [] && n < |ev| && ev[n].kind == Contended
    ensures var acqs, owner := Final(ev, START).acqs, Final(ev[..n], START).owner;
            f in ContentionReports(acqs, InsertionOrder(ev), ev[n], rounds) <==>
              || (f == UnscheduledRound(ev[n].seqNo, ev[n].round) && !(1 <= ev[n].round <= rounds))
              || (&& owner.Some? && f == ContendedWhileOwning(ev[n].seqNo, owner.value)
                  && owner.value in acqs && acqs[owner.value].cpu == ev[n].hart)
  {
    var acqs, owner := Final(ev, START).acqs, Final(ev[..n], START).owner;
    OrderExact(ev);
    OwnReportsExact(acqs, InsertionOrder(ev), ev[n], f);
    if owner.Some? { InsideIsOwning(ev, rounds, n, owner.value); }
    if f.ContendedWhileOwning? { InsideIsOwning(ev, rounds, n, f.owner); }
  }
}
