/** Remote additions and the notifications that answer them. */
module SchedNotify {
  import opened Machine
  import opened SchedTrace

  ghost predicate AddAt(body: seq<Rec>, a: nat, key: (nat, nat), no: nat) {
    a < |body| && RemoteAdd(body[a]) && (body[a].exec, body[a].cpu) == key && body[a].no == no
  }

  ghost predicate NotifyAt(body: seq<Rec>, b: nat, key: (nat, nat), no: nat) {
    b < |body| && body[b].kind == Notify && (body[b].exec, body[b].cpu) == key && body[b].no == no
  }

  /** The addition, and after it the notification, are in the trace. */
  ghost predicate Genuine(body: seq<Rec>, x: Match) {
    exists a: nat, b: nat :: a < b && AddAt(body, a, x.key, x.added) && NotifyAt(body, b, x.key, x.notified)
  }

  ghost predicate Matched(m: Mail, key: (nat, nat), no: nat) {
    exists i :: 0 <= i < |m.matched| && m.matched[i].key == key && m.matched[i].added == no
  }

  ghost predicate Recorded(body: seq<Rec>, key: (nat, nat), no: nat) { exists a: nat :: AddAt(body, a, key, no) }

  /** Pending numbers come from the trace, ascend, and exceed those matched. */
  ghost predicate PendingOk(body: seq<Rec>, m: Mail) {
    forall key: (nat, nat) :: QueueOk(body, m, key)
  }

  ghost predicate QueueOk(body: seq<Rec>, m: Mail, key: (nat, nat)) {
    var w := Waiting(m, key);
    && (forall i, j :: 0 <= i < j < |w| ==> w[i] < w[j])
    && (forall i :: 0 <= i < |w| ==> Recorded(body, key, w[i]))
    && forall i, j :: 0 <= i < |m.matched| && 0 <= j < |w| && m.matched[i].key == key ==> m.matched[i].added < w[j]
  }

  /** Matches are genuine, and ordered: notifications ascend, and so do the
      additions of one executor and target. */
  ghost predicate MatchesOk(body: seq<Rec>, m: Mail) {
    && (forall i :: 0 <= i < |m.matched| ==> Genuine(body, m.matched[i]))
    && forall i, j :: 0 <= i < j < |m.matched| ==>
         && m.matched[i].notified < m.matched[j].notified
         && (m.matched[i].key == m.matched[j].key ==> m.matched[i].added < m.matched[j].added)
  }

  /** Every remote addition is pending or matched. */
  ghost predicate NoneLost(body: seq<Rec>, m: Mail) {
    forall a: nat, key: (nat, nat), no: nat :: AddAt(body, a, key, no) ==> no in Waiting(m, key) || Matched(m, key, no)
  }

  ghost predicate Numbered(body: seq<Rec>) {
    forall i, j :: 0 <= i < j < |body| ==> body[i].no < body[j].no
  }

  lemma RecordedBelow(front: seq<Rec>, r: Rec, key: (nat, nat), no: nat)
    requires Numbered(front + [r]) && Recorded(front, key, no)
    ensures no < r.no && Recorded(front + [r], key, no)
  {
    var body := front + [r];
    var a: nat :| AddAt(front, a, key, no);
    assert body[a] == front[a] && body[|front|] == r;
    assert AddAt(body, a, key, no);
  }

  lemma GenuineLater(front: seq<Rec>, r: Rec, x: Match)
    requires Numbered(front + [r]) && Genuine(front, x)
    ensures Genuine(front + [r], x) && x.notified < r.no
  {
    var body := front + [r];
    var a: nat, b: nat :| a < b && AddAt(front, a, x.key, x.added) && NotifyAt(front, b, x.key, x.notified);
    assert body[a] == front[a] && body[b] == front[b] && body[|front|] == r;
    assert AddAt(body, a, x.key, x.added) && NotifyAt(body, b, x.key, x.notified);
  }

  /** What a queue holds one record later, and that all of it is older. */
  ghost predicate Carried(body: seq<Rec>, m: Mail, key: (nat, nat), no: nat) {
    && QueueOk(body, m, key)
    && (forall i :: 0 <= i < |Waiting(m, key)| ==> Waiting(m, key)[i] < no)
    && forall i :: 0 <= i < |m.matched| ==> m.matched[i].added < no
  }

  lemma CarryQueue(front: seq<Rec>, r: Rec, m: Mail, key: (nat, nat))
    requires Numbered(front + [r]) && PendingOk(front, m) && MatchesOk(front, m)
    ensures Carried(front + [r], m, key, r.no)
  {
    var w := Waiting(m, key);
    assert QueueOk(front, m, key);
    forall i | 0 <= i < |w| ensures w[i] < r.no && Recorded(front + [r], key, w[i]) { RecordedBelow(front, r, key, w[i]); }
    forall i | 0 <= i < |m.matched| ensures m.matched[i].added < r.no {
      var x := m.matched[i];
      var a: nat, b: nat :| a < b && AddAt(front, a, x.key, x.added) && NotifyAt(front, b, x.key, x.notified);
      RecordedBelow(front, r, x.key, x.added);
    }
  }

  lemma WaitingStep(m: Mail, r: Rec, key: (nat, nat))
    ensures var w, w' := Waiting(m, key), Waiting(MailStep(m, r), key);
            if key != (r.exec, r.cpu) then w' == w
            else if RemoteAdd(r) then w' == w + [r.no]
            else if r.kind == Notify && w != [] then w' == w[1..] && MailStep(m, r).matched == m.matched + [Match(key, w[0], r.no)]
            else w' == w
  {
  }

  lemma AddQueue(body: seq<Rec>, r: Rec, m: Mail, key: (nat, nat))
    requires body != [] && body[|body| - 1] == r && RemoteAdd(r) && Carried(body, m, key, r.no)
    ensures QueueOk(body, MailStep(m, r), key)
  {
    WaitingStep(m, r, key);
    if key == (r.exec, r.cpu) { assert AddAt(body, |body| - 1, key, r.no); }
  }

  lemma NotifyQueue(body: seq<Rec>, r: Rec, m: Mail, key: (nat, nat))
    requires !RemoteAdd(r) && Carried(body, m, key, r.no)
    ensures QueueOk(body, MailStep(m, r), key)
  {
    WaitingStep(m, r, key);
  }

  lemma StepQueue(front: seq<Rec>, r: Rec, m: Mail, key: (nat, nat))
    requires Numbered(front + [r]) && PendingOk(front, m) && MatchesOk(front, m)
    ensures QueueOk(front + [r], MailStep(m, r), key)
  {
    CarryQueue(front, r, m, key);
    if RemoteAdd(r) { AddQueue(front + [r], r, m, key); } else { NotifyQueue(front + [r], r, m, key); }
  }

  lemma StepMatches(front: seq<Rec>, r: Rec, m: Mail)
    requires Numbered(front + [r]) && PendingOk(front, m) && MatchesOk(front, m)
    ensures MatchesOk(front + [r], MailStep(m, r))
  {
    var body, m' := front + [r], MailStep(m, r);
    assert body[|front|] == r;
    forall i | 0 <= i < |m.matched| ensures Genuine(body, m.matched[i]) && m.matched[i].notified < r.no {
      GenuineLater(front, r, m.matched[i]);
    }
    var key := (r.exec, r.cpu);
    if !RemoteAdd(r) && r.kind == Notify && Waiting(m, key) != [] {
      var w := Waiting(m, key);
      assert QueueOk(front, m, key);
      var a: nat :| AddAt(front, a, key, w[0]);
      assert body[a] == front[a];
      assert AddAt(body, a, key, w[0]) && NotifyAt(body, |front|, key, r.no);
      assert Genuine(body, Match(key, w[0], r.no));
    }
  }

  lemma StepNoneLost(front: seq<Rec>, r: Rec, m: Mail)
    requires NoneLost(front, m)
    ensures NoneLost(front + [r], MailStep(m, r))
  {
    var body, m' := front + [r], MailStep(m, r);
    forall a: nat, key: (nat, nat), no: nat | AddAt(body, a, key, no)
      ensures no in Waiting(m', key) || Matched(m', key, no)
    {
      if a < |front| {
        assert body[a] == front[a];
        assert AddAt(front, a, key, no);
        StillHeld(m, r, key, no);
      } else {
        assert Waiting(m', key)[|Waiting(m, key)|] == no;
      }
    }
  }

  lemma StillHeld(m: Mail, r: Rec, key: (nat, nat), no: nat)
    requires no in Waiting(m, key) || Matched(m, key, no)
    ensures no in Waiting(MailStep(m, r), key) || Matched(MailStep(m, r), key, no)
  {
    var m', w := MailStep(m, r), Waiting(m, key);
    if Matched(m, key, no) {
      var i :| 0 <= i < |m.matched| && m.matched[i].key == key && m.matched[i].added == no;
      assert m'.matched[i] == m.matched[i];
    } else if !RemoteAdd(r) && r.kind == Notify && key == (r.exec, r.cpu) && w != [] && no == w[0] {
      assert m'.matched[|m.matched|] == Match(key, no, r.no);
    } else if w != [] {
      assert w == [w[0]] + w[1..];
    }
  }

  lemma {:induction false} PostOk(body: seq<Rec>)
    requires Numbered(body)
    ensures PendingOk(body, Post(body)) && MatchesOk(body, Post(body)) && NoneLost(body, Post(body))
  {
    if body != [] {
      var front, r := body[..|body| - 1], body[|body| - 1];
      assert body == front + [r];
      PostOk(front);
      forall key: (nat, nat) ensures QueueOk(body, Post(body), key) { StepQueue(front, r, Post(front), key); }
      StepMatches(front, r, Post(front));
      StepNoneLost(front, r, Post(front));
    }
  }

  // ------------------------------------------------- what may stay unanswered

  ghost predicate HasSection(secs: seq<Section>, r: Rec) {
    exists i :: 0 <= i < |secs| && secs[i].no == r.no && secs[i].exec == r.exec && secs[i].cpu == r.cpu
  }

  /** Every SEC record becomes a section. */
  lemma {:induction false} ParseComplete(body: seq<Rec>, k: nat, lastGen: seq<nat>, cells: seq<nat>, m: nat)
    requires k <= m < |body| && |lastGen| == |cells| && Framed(body, |cells|) && body[m].kind == Sec
    requires ParseFrom(body, k, lastGen, cells).Success?
    ensures HasSection(ParseFrom(body, k, lastGen, cells).value, body[m])
    decreases |body| - k
  {
    if body[k].kind != Sec {
      ParseComplete(body, k + 1, lastGen, cells, m);
    } else {
      var (s, span) := ParseSection(body, k, lastGen[body[k].cpu], cells[body[k].cpu]).value;
      var rest := ParseFrom(body, k + span, lastGen[s.cpu := s.gen], cells).value;
      var all := [s] + rest;
      if m == k {
        assert all[0].no == body[m].no;
      } else {
        SpanHasNoSec(body, k, lastGen[body[k].cpu], cells[body[k].cpu], m);
        ParseComplete(body, k + span, lastGen[s.cpu := s.gen], cells, m);
        var i :| 0 <= i < |rest| && rest[i].no == body[m].no && rest[i].exec == body[m].exec && rest[i].cpu == body[m].cpu;
        assert all[i + 1] == rest[i];
      }
    }
  }

  lemma SpanHasNoSec(body: seq<Rec>, k: nat, lastGen: nat, cell: nat, m: nat)
    requires k < m < |body| && body[m].kind == Sec && ParseSection(body, k, lastGen, cell).Success?
    ensures k + ParseSection(body, k, lastGen, cell).value.1 <= m
  {
    assert MembersOk(body, k, body[k].f3, body[k].f4);
  }

  /** The addition left unanswered by `e`, if any, is the last section `e` ran. */
  ghost predicate LastOf(secs: seq<Section>, e: nat, no: nat) {
    forall i :: 0 <= i < |secs| && secs[i].exec == e ==> secs[i].no <= no
  }

  /** In every accepted trace a remote addition is answered by a later NOTIFY of
      the same executor and target, injectively and in order, unless it is the
      last section its CPU executed. */
  lemma RemoteAddsNotified(snap: Snapshot, census: Snapshot, body: seq<Rec>, n: nat, g: Graded,
                           a: nat, key: (nat, nat), no: nat)
    requires SnapshotFor(snap, n) && SnapshotFor(census, n) && Framed(body, n) && Accepted(snap, census, body, n, g)
    requires AddAt(body, a, key, no)
    ensures MatchesOk(body, Post(body))
    ensures Matched(Post(body), key, no) || (no in Waiting(Post(body), key) && LastOf(g.secs, key.0, no))
    ensures !(Matched(Post(body), key, no) && no in Waiting(Post(body), key))
  {
    var m := Post(body);
    PostOk(body);
    assert QueueOk(body, m, key);
    if no in Waiting(m, key) {
      var i :| 0 <= i < |Waiting(m, key)| && Waiting(m, key)[i] == no;
      assert !LaterSection(g.secs, key.0, no);
    }
  }

  /** At most one addition per executing CPU stays unanswered. */
  lemma OneUnanswered(snap: Snapshot, census: Snapshot, body: seq<Rec>, n: nat, g: Graded,
                      a: nat, key: (nat, nat), no: nat, a': nat, key': (nat, nat), no': nat)
    requires SnapshotFor(snap, n) && SnapshotFor(census, n) && Framed(body, n) && Accepted(snap, census, body, n, g)
    requires AddAt(body, a, key, no) && AddAt(body, a', key', no') && key.0 == key'.0
    requires !Matched(Post(body), key, no) && !Matched(Post(body), key', no')
    ensures a == a'
  {
    RemoteAddsNotified(snap, census, body, n, g, a, key, no);
    RemoteAddsNotified(snap, census, body, n, g, a', key', no');
    ParseComplete(body, 0, snap.gens, snap.cells, a);
    ParseComplete(body, 0, snap.gens, snap.cells, a');
    SameNumber(body, n, a, a');
  }

  lemma SameNumber(body: seq<Rec>, n: nat, a: nat, b: nat)
    requires Framed(body, n) && a < |body| && b < |body| && body[a].no == body[b].no
    ensures a == b
  {
  }

  /** Two matches never share an addition or a notification. */
  lemma MatchingInjective(body: seq<Rec>, n: nat, i: nat, j: nat)
    requires Framed(body, n) && i < j < |Post(body).matched|
    ensures Post(body).matched[i].notified != Post(body).matched[j].notified
    ensures Post(body).matched[i].added != Post(body).matched[j].added
  {
    PostOk(body);
    var x, y := Post(body).matched[i], Post(body).matched[j];
    var a: nat, b: nat :| a < b && AddAt(body, a, x.key, x.added) && NotifyAt(body, b, x.key, x.notified);
    var c: nat, d: nat :| c < d && AddAt(body, c, y.key, y.added) && NotifyAt(body, d, y.key, y.notified);
    assert a < c ==> body[a].no < body[c].no;
    assert c < a ==> body[c].no < body[a].no;
  }
}
