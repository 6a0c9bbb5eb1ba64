/** An acknowledgement is exactly about the current occurrence and one actor, and decides nothing. */
module Acknowledgements {
  import opened Time
  import opened Events
  import opened EngineModel
  import opened Scope
  import opened Runs
  import opened Handoff

  /** A new occurrence of the condition `k`. */
  predicate Occurs(e: Entry, k: Key) {
    e.Said? && (e.out.Raised? || e.out.Repeated?) && e.out.key == k
  }

  /** Whether an actor acknowledged a condition after its latest occurrence, read off the log alone. */
  predicate AckedSince(log: seq<Entry>, actor: ActorId, k: Key) {
    if log == [] then false
    else
      var e := log[|log| - 1];
      if e == Acked(actor, k) then true
      else if Occurs(e, k) then false
      else AckedSince(log[..|log| - 1], actor, k)
  }

  /** The revision an actor last acknowledged, and nought when it has acknowledged none. */
  function AckRevision(acks: Acks, actor: ActorId, k: Key): nat {
    if actor in acks && k in acks[actor] then acks[actor][k].revision else 0
  }

  /** Revisions are above nought and never past the counter, so a fresh one is above every acknowledgement. */
  ghost predicate AckExact(w: World, actor: ActorId, k: Key) {
    && AckRevision(w.acks, actor, k) <= w.core.nextRevision
    && (k in w.core.items ==>
          && 0 < w.core.items[k].revision
          && (AckRevision(w.acks, actor, k) >= w.core.items[k].revision <==> AckedSince(w.log, actor, k)))
  }

  ghost predicate AcksExact(w: World) {
    forall actor, k :: AckExact(w, actor, k)
  }

  lemma {:induction false} AckedSinceGrows(log: seq<Entry>, more: seq<Entry>, actor: ActorId, k: Key)
    requires |more| <= 1
    ensures AckedSince(log + more, actor, k) ==
            if more == [] then AckedSince(log, actor, k)
            else more[0] == Acked(actor, k) || (!Occurs(more[0], k) && AckedSince(log, actor, k))
  {
    LogGrows(log, more);
  }

  lemma {:induction false} AckedAt(log: seq<Entry>, actor: ActorId, k: Key) returns (x: nat)
    requires AckedSince(log, actor, k)
    ensures x < |log| && log[x] == Acked(actor, k) && forall y :: x < y < |log| ==> !Occurs(log[y], k)
    decreases |log|
  {
    x := |log| - 1;
    if log[x] != Acked(actor, k) {
      var rest := log[..|log| - 1];
      x := AckedAt(rest, actor, k);
      assert forall y :: 0 <= y < |rest| ==> rest[y] == log[y];
    }
  }

  lemma {:induction false} AckedIsSince(log: seq<Entry>, actor: ActorId, k: Key, x: nat)
    requires x < |log| && log[x] == Acked(actor, k) && forall y :: x < y < |log| ==> !Occurs(log[y], k)
    ensures AckedSince(log, actor, k)
    decreases |log|
  {
    if x < |log| - 1 {
      AckedIsSince(log[..|log| - 1], actor, k, x);
    }
  }

  lemma {:induction false} AcksElsewhere(w: World, act: Act, actor: ActorId, k: Key)
    requires !Touches(act, k)
    ensures AckRevision(w.Do(act).acks, actor, k) == AckRevision(w.acks, actor, k)
    ensures w.core.nextRevision <= w.Do(act).core.nextRevision
  {
  }

  lemma {:induction false} UntouchedKeepsAck(w: World, act: Act, actor: ActorId, k: Key)
    requires AckExact(w, actor, k) && !Touches(act, k)
    ensures AckExact(w.Do(act), actor, k)
  {
    var note := Note(w.core, act, w.now);
    Untouched(w.core, act, w.now, k);
    AcksElsewhere(w, act, actor, k);
    AckedSinceGrows(w.log, note, actor, k);
    assert forall e :: e in note ==> e != Acked(actor, k) && !Occurs(e, k);
  }

  lemma {:induction false} EditKeepsAck(w: World, actor: ActorId, k: Key, edit: Edit)
    requires AckExact(w, actor, k) && k in w.core.items
    ensures AckExact(w.Do(Change(k, edit)), actor, k)
  {
    AckedSinceGrows(w.log, Note(w.core, Change(k, edit), w.now), actor, k);
    if !edit.Repeat? { EditKeepsRevision(w.core, k, edit, w.now); }
  }

  lemma {:induction false} EditKeepsRevision(c: Core, k: Key, edit: Edit, r: Reading)
    requires k in c.items && !edit.Repeat?
    ensures var d := Apply(c, Change(k, edit), r);
            k in d.items && d.items[k].revision == c.items[k].revision && d.nextRevision == c.nextRevision
    ensures forall e :: e in Note(c, Change(k, edit), r) ==> !Occurs(e, k) && !e.Acked?
  {
  }

  lemma {:induction false} AckingKeepsAck(w: World, act: Act, actor: ActorId, k: Key)
    requires AckExact(w, actor, k) && Enabled(w.core, act, w.now) && act.Ack? && act.key == k
    requires k in w.core.items ==> w.core.items[k].revision <= w.core.nextRevision
    ensures AckExact(w.Do(act), actor, k)
  {
    AckedSinceGrows(w.log, Note(w.core, act, w.now), actor, k);
  }

  lemma {:induction false} ActKeepsAck(w: World, act: Act, actor: ActorId, k: Key)
    requires AckExact(w, actor, k) && Enabled(w.core, act, w.now)
    requires k in w.core.items ==> w.core.items[k].revision <= w.core.nextRevision
    ensures AckExact(w.Do(act), actor, k)
  {
    if !Touches(act, k) { UntouchedKeepsAck(w, act, actor, k); }
    else if act.Change? { EditKeepsAck(w, actor, k, act.edit); }
    else if act.Ack? { AckingKeepsAck(w, act, actor, k); }
    else { AckedSinceGrows(w.log, Note(w.core, act, w.now), actor, k); }
  }

  lemma {:induction false} ActKeepsAcks(w: World, act: Act)
    requires AcksExact(w) && Consistent(w.core, w.now) && Enabled(w.core, act, w.now)
    ensures AcksExact(w.Do(act))
  {
    forall actor, k ensures AckExact(w.Do(act), actor, k) {
      assert AckExact(w, actor, k);
      ActKeepsAck(w, act, actor, k);
    }
  }

  lemma {:induction false} RestartKeepsAcks(w: World, r: Reading)
    requires AcksExact(w)
    ensures AcksExact(w.(core := Reanchored(w.core, r), now := r))
  {
    forall actor, k ensures AckExact(w.(core := Reanchored(w.core, r), now := r), actor, k) {
      assert AckExact(w, actor, k);
    }
  }

  /** An actor has an item acknowledged exactly when it acknowledged the item after its latest
      occurrence, whatever repeated, ended, came back or was let go in between. */
  lemma {:induction false} AcknowledgedExactly(w: World, actor: ActorId, k: Key)
    requires AcksExact(w) && Consistent(w.core, w.now) && k in w.core.items
    ensures IsAcknowledged(w.acks, actor, w.core.items[k]) <==> AckedSince(w.log, actor, k)
  {
    assert AckExact(w, actor, k);
    assert w.core.items[k].key == k;
  }

  // ---- an acknowledgement decides nothing --------------------------------------------------

  predicate IsAcknowledgement(op: Op) {
    op.Acknowledge? || op.AcknowledgeCurrent?
  }

  lemma {:induction false} AckActsLeaveCore(c: Core, actor: ActorId, viewer: Viewer, requested: seq<(Key, nat)>, r: Reading)
    ensures Exec(c, AckActs(c, actor, viewer, requested), r) == c
    ensures Outcomes(Trace(c, AckActs(c, actor, viewer, requested), r)) == []
    decreases |requested|
  {
    if requested != [] {
      AckActsLeaveCore(c, actor, viewer, requested[1..], r);
      var rest := AckActs(c, actor, viewer, requested[1..]);
      if Current(c, viewer, requested[0]) {
        assert ([Ack(actor, requested[0].0, requested[0].1)] + rest)[1..] == rest;
      } else {
        assert [] + rest == rest;
      }
    }
  }

  lemma {:induction false} StepDecides(w: World, op: Op)
    requires IsAcknowledgement(op)
    ensures Step(w, op).core == w.core && Step(w, op).now == op.r && Outcomes(Step(w, op).log) == Outcomes(w.log)
  {
    var acts := ActsOf(w.core, op, op.r);
    PerformIsExec(w.(now := op.r), acts);
    OutcomesConcat(w.log, Trace(w.core, acts, op.r));
    AckingDecidesNothing(w.core, op);
    assert Outcomes(w.log) + [] == Outcomes(w.log);
  }

  lemma {:induction false} AckingDecidesNothing(c: Core, op: Op)
    requires IsAcknowledgement(op)
    ensures Exec(c, ActsOf(c, op, op.r), op.r) == c && Outcomes(Trace(c, ActsOf(c, op, op.r), op.r)) == []
  {
    if op.Acknowledge? {
      AckActsLeaveCore(c, op.actor, op.viewer, op.requested, op.r);
    } else if op.key in c.items {
      assert ActsOf(c, op, op.r) == [Ack(op.actor, op.key, c.items[op.key].revision)];
    }
  }

  /** Two runs of one host that differ only in who acknowledged what. */
  ghost predicate SameButAcknowledgements(a: seq<Op>, b: seq<Op>) {
    && |a| == |b|
    && forall i :: 0 <= i < |a| ==>
         a[i] == b[i] || (IsAcknowledgement(a[i]) && IsAcknowledgement(b[i]) && a[i].r == b[i].r)
  }

  lemma {:induction false} SameStep(v: World, w: World, op: Op)
    requires v.core == w.core && v.now == w.now && Outcomes(v.log) == Outcomes(w.log)
    ensures Step(v, op).core == Step(w, op).core && Step(v, op).now == Step(w, op).now
    ensures Outcomes(Step(v, op).log) == Outcomes(Step(w, op).log)
  {
    if !op.Restart? {
      var r := ReadingOf(v.now, op);
      var acts := ActsOf(v.core, op, r);
      PerformIsExec(v.(now := r), acts);
      PerformIsExec(w.(now := r), acts);
      OutcomesConcat(v.log, Trace(v.core, acts, r));
      OutcomesConcat(w.log, Trace(v.core, acts, r));
    }
  }

  /** Whoever acknowledges whatever, the engine says the same and stands in the same state, so its
      deadlines are the same too. */
  lemma {:induction false} AcknowledgementsDecideNothing(v: World, w: World, a: seq<Op>, b: seq<Op>)
    requires v.core == w.core && v.now == w.now && Outcomes(v.log) == Outcomes(w.log)
    requires SameButAcknowledgements(a, b)
    ensures Run(v, a).core == Run(w, b).core
    ensures Outcomes(Run(v, a).log) == Outcomes(Run(w, b).log)
    decreases |a|
  {
    if a != [] {
      if a[0] == b[0] {
        SameStep(v, w, a[0]);
      } else {
        StepDecides(v, a[0]);
        StepDecides(w, b[0]);
      }
      AcknowledgementsDecideNothing(Step(v, a[0]), Step(w, b[0]), a[1..], b[1..]);
    }
  }
}
