/** What each call of the host writes in the log of a run, and that nothing else writes it: so that a
    promise read off the log is a promise about the events consumed and the calls made. */
module Calls {
  import opened Common
  import opened Time
  import opened Events
  import opened EngineModel
  import opened Scope
  import opened Runs

  // ---- entries and the acts that write them ------------------------------------------------

  /** The act that writes an entry which is not an outcome. */
  predicate Writes(act: Act, e: Entry) {
    match e
    case Said(_, _) => false
    case Acked(actor, k) => act.Ack? && act.actor == actor && act.key == k
    case Settled(k, n) => act == Change(k, Settle(n))
    case Took(cursor, asked) => act == Advance(cursor, asked)
    case Answered(q) => act == Unask(q, true)
    case LetGo(q) => act == Unask(q, false)
    case Reminded(q, _, certified) => act == Remind(q, certified)
    case Closed(s) => act == Close(s)
  }

  lemma {:induction false} NoteIsOfItsAct(c: Core, act: Act, r: Reading, e: Entry)
    requires e in Note(c, act, r) && !e.Said?
    ensures Writes(act, e)
  {
  }

  lemma {:induction false} WrittenByAnAct(c: Core, acts: seq<Act>, r: Reading, e: Entry)
    requires e in Trace(c, acts, r) && !e.Said?
    ensures exists act :: act in acts && Writes(act, e)
    decreases |acts|
  {
    if e in Note(c, acts[0], r) {
      NoteIsOfItsAct(c, acts[0], r, e);
      assert acts[0] in acts;
    } else {
      WrittenByAnAct(Apply(c, acts[0], r), acts[1..], r, e);
      var act :| act in acts[1..] && Writes(act, e);
      assert act in acts;
    }
  }

  /** Taking a record, dropping a wait and closing a session are always written. */
  lemma {:induction false} ActIsWritten(c: Core, acts: seq<Act>, r: Reading, act: Act, e: Entry)
    requires act in acts && Writes(act, e) && (act.Advance? || act.Unask? || act.Close?)
    ensures e in Trace(c, acts, r)
    decreases |acts|
  {
    if acts[0] == act {
      assert e in Note(c, act, r);
    } else {
      assert act in acts[1..];
      ActIsWritten(Apply(c, acts[0], r), acts[1..], r, act, e);
    }
  }

  lemma {:induction false} InboxWritesOutcomesAndSettlements(c: Core, acts: seq<Act>, r: Reading)
    requires forall act :: act in acts ==> OnInbox(act)
    ensures forall e :: e in Trace(c, acts, r) ==> e.Said? || e.Settled?
  {
    forall e | e in Trace(c, acts, r) && !e.Said? ensures e.Settled? {
      WrittenByAnAct(c, acts, r, e);
    }
  }

  // ---- consuming an event ------------------------------------------------------------------

  /** A taken event that makes a question pending, with the host's word that it is. */
  predicate Asks(c: Core, op: Op, q: QuestionId) {
    && op.Consume? && Takes(c, op.event.cursor)
    && op.event.kind.QuestionPending? && op.event.kind.verified && op.event.kind.question == q
  }

  /** A taken event that says a question is resolved, one way or another. */
  predicate Answers(c: Core, op: Op, q: QuestionId) {
    && op.Consume? && Takes(c, op.event.cursor)
    && op.event.kind.QuestionResolved? && op.event.kind.question == q
  }

  /** Where the wait an event began is counted from: what its anchor measures, on this boot's clock. */
  function BeganAt(e: Event, r: Reading): Anchor
    requires e.kind.QuestionPending?
  {
    AnchorOf(Waited(e.kind.pendingAnchor, r), r)
  }

  /** The request an event makes, when it makes one. */
  function RequestIn(e: Event, r: Reading): Option<Asked> {
    if e.kind.QuestionPending? && e.kind.verified then
      Some(Asked(e.kind.question,
                 Wait(e.kind.session, e.cursor, e.kind.pendingSince,
                      Elapsed(Waited(e.kind.pendingAnchor, r), r.ms), false, Some(BeganAt(e, r)))))
    else None
  }

  /** A plan takes its own record, with the request the event makes. */
  lemma {:induction false} PlanTakes(c: Core, e: Event, r: Reading, mode: Mode, act: Act)
    requires act.Advance?
    ensures act in PlanActs(c, e.cursor, PlanOf(c.digest, e), r, mode) <==> act == Advance(e.cursor, RequestIn(e, r))
  {
    EventAsks(c.digest, e, r);
    TakenOnce(c, e.cursor, PlanOf(c.digest, e), r, mode, act);
  }

  /** The request a plan adds, when it adds one. */
  function RequestOf(cursor: Cursor, plan: Plan, r: Reading): Option<Asked> {
    if plan.AskOne? then Some(AskedBy(cursor, plan, r)) else None
  }

  lemma {:induction false} EventAsks(digest: Subject -> nat, e: Event, r: Reading)
    ensures RequestOf(e.cursor, PlanOf(digest, e), r) == RequestIn(e, r)
  {
  }

  lemma {:induction false} TakenOnce(c: Core, cursor: Cursor, plan: Plan, r: Reading, mode: Mode, act: Act)
    requires act.Advance?
    ensures act in PlanActs(c, cursor, plan, r, mode) <==> act == Advance(cursor, RequestOf(cursor, plan, r))
  {
    if plan.AskOne? { AskTakes(c, cursor, plan, r, mode, act); }
  }

  lemma {:induction false} AskTakes(c: Core, cursor: Cursor, plan: Plan, r: Reading, mode: Mode, act: Act)
    requires act.Advance? && plan.AskOne?
    ensures act in PlanActs(c, cursor, plan, r, mode) <==> act == Advance(cursor, Some(AskedBy(cursor, plan, r)))
  {
    BoundUnasksUnanswered(c, plan.question, r);
  }

  /** A plan answers the question its event says is resolved, and no other. */
  lemma {:induction false} PlanAnswers(c: Core, e: Event, r: Reading, mode: Mode, q: QuestionId)
    ensures Unask(q, true) in PlanActs(c, e.cursor, PlanOf(c.digest, e), r, mode) <==>
            e.kind.QuestionResolved? && e.kind.question == q
  {
    var plan := PlanOf(c.digest, e);
    if plan.AskOne? { BoundUnasksUnanswered(c, plan.question, r); }
  }

  lemma {:induction false} BoundUnasksUnanswered(c: Core, keep: QuestionId, r: Reading)
    ensures forall act :: act in PendingBoundActs(c, keep, r) ==> act.Unask? && !act.answered
    decreases |c.pending|
  {
    var oldest := Oldest(c, keep);
    if oldest.Some? {
      FewerPending(c, oldest.value, r);
      BoundUnasksUnanswered(Apply(c, Unask(oldest.value, false), r), keep, r);
    }
  }

  lemma {:induction false} ConsumeActsAre(c: Core, e: Event, r: Reading, mode: Mode, act: Act)
    requires act.Advance? || (act.Unask? && act.answered)
    ensures act in ConsumeActs(c, e, r, mode) <==>
            Takes(c, e.cursor) && (act == Advance(e.cursor, RequestIn(e, r)) ||
                                   (e.kind.QuestionResolved? && act == Unask(e.kind.question, true)))
  {
    if Takes(c, e.cursor) {
      var c1 := Exec(c, MissedActs(c, e.cursor), r);
      if act.Advance? { PlanTakes(c1, e, r, mode, act); } else { PlanAnswers(c1, e, r, mode, act.question); }
    }
  }

  /** Consuming an event takes its record, and answers the question the event says is resolved; an event
      not taken does neither. */
  lemma {:induction false} EventIsWritten(c: Core, e: Event, r: Reading, mode: Mode, x: Entry)
    requires x.Took? || x.Answered?
    ensures x in Trace(c, ConsumeActs(c, e, r, mode), r) <==>
            Takes(c, e.cursor) && (x == Took(e.cursor, RequestIn(e, r)) ||
                                   (e.kind.QuestionResolved? && x == Answered(e.kind.question)))
  {
    var acts := ConsumeActs(c, e, r, mode);
    var act := if x.Took? then Advance(x.cursor, x.asked) else Unask(x.question, true);
    ConsumeActsAre(c, e, r, mode, act);
    if x in Trace(c, acts, r) {
      WrittenByAnAct(c, acts, r, x);
    } else if act in acts {
      ActIsWritten(c, acts, r, act, x);
    }
  }

  lemma {:induction false} ConsumeNeverCloses(c: Core, e: Event, r: Reading, mode: Mode)
    ensures forall act :: act in ConsumeActs(c, e, r, mode) ==>
              OnInbox(act) || act.Unask? || act.Advance? || act.RecordGap?
  {
  }

  // ---- a tick ------------------------------------------------------------------------------

  lemma {:induction false} InboxKeepsWaits(c: Core, acts: seq<Act>, r: Reading)
    requires forall act :: act in acts ==> OnInbox(act)
    ensures var d := Exec(c, acts, r);
            d.pending == c.pending && d.finalised == c.finalised && d.digest == c.digest
    decreases |acts|
  {
    if acts != [] {
      assert OnInbox(acts[0]);
      InboxKeepsWaits(Apply(c, acts[0], r), acts[1..], r);
    }
  }

  /** Reminding of one question writes that, and outcomes. */
  lemma {:induction false} RemindingOneWrites(c: Core, q: QuestionId, r: Reading, certified: map<Origin, nat>, e: Entry)
    requires q in c.pending && ReminderDue(c, r, certified, q) && e.Reminded?
    ensures e in Trace(c, RemindOneActs(c, q, r, certified), r) <==>
            e == Reminded(q, c.pending[q].record, CertifiedAt(c, r, certified, c.pending[q].record.origin).value)
  {
    var acts := RemindOneActs(c, q, r, certified);
    var c1 := Apply(c, acts[0], r);
    assert forall act :: act in acts[1..] ==> OnInbox(act);
    InboxWritesOutcomesAndSettlements(c1, acts[1..], r);
    assert Trace(c, acts, r) == Note(c, acts[0], r) + Trace(c1, acts[1..], r);
  }

  /** Reminding of one question marks its wait and leaves every other as it was. */
  lemma {:induction false} RemindingOneMarks(c: Core, q: QuestionId, r: Reading, certified: map<Origin, nat>)
    requires q in c.pending && ReminderDue(c, r, certified, q)
    ensures var d := Exec(c, RemindOneActs(c, q, r, certified), r);
            && d.pending == c.pending[q := c.pending[q].(reminded := true)]
            && d.finalised == c.finalised && d.digest == c.digest
  {
    var acts := RemindOneActs(c, q, r, certified);
    var c1 := Apply(c, acts[0], r);
    assert forall act :: act in acts[1..] ==> OnInbox(act);
    InboxKeepsWaits(c1, acts[1..], r);
    assert Exec(c, acts, r) == Exec(c1, acts[1..], r);
  }

  /** A reminder as the engine writes it is one due at this reading, under its origin's certificate. */
  ghost predicate IsDue(c: Core, r: Reading, certified: map<Origin, nat>, e: Entry) {
    && e.Reminded? && e.question in c.pending && c.pending[e.question].record == e.record
    && ReminderDue(c, r, certified, e.question)
    && CertifiedAt(c, r, certified, e.record.origin) == Some(e.certified)
  }

  /** Once one question is reminded of, what is due is what was due, but for it. */
  lemma {:induction false} DueAfterOne(c: Core, q: QuestionId, r: Reading, certified: map<Origin, nat>, e: Entry)
    requires q in c.pending && ReminderDue(c, r, certified, q) && e.Reminded?
    ensures var d := Exec(c, RemindOneActs(c, q, r, certified), r);
            IsDue(d, r, certified, e) <==> IsDue(c, r, certified, e) && e.question != q
  {
    RemindingOneMarks(c, q, r, certified);
  }

  lemma {:induction false} RemindActsFirst(c: Core, qs: seq<QuestionId>, r: Reading, certified: map<Origin, nat>)
    requires qs != []
    ensures RemindActs(c, qs, r, certified) ==
            if qs[0] in c.pending && ReminderDue(c, r, certified, qs[0])
            then RemindOneActs(c, qs[0], r, certified)
                 + RemindActs(Exec(c, RemindOneActs(c, qs[0], r, certified), r), qs[1..], r, certified)
            else RemindActs(c, qs[1..], r, certified)
  {
  }

  lemma {:induction false} RemindersWritten(c: Core, qs: seq<QuestionId>, r: Reading, certified: map<Origin, nat>, e: Entry)
    requires e.Reminded?
    ensures e in Trace(c, RemindActs(c, qs, r, certified), r) <==> e.question in qs && IsDue(c, r, certified, e)
    decreases |qs|
  {
    if qs != [] {
      var q := qs[0];
      RemindActsFirst(c, qs, r, certified);
      if q !in c.pending || !ReminderDue(c, r, certified, q) {
        RemindersWritten(c, qs[1..], r, certified, e);
      } else {
        var acts := RemindOneActs(c, q, r, certified);
        var d := Exec(c, acts, r);
        RemindingOneWrites(c, q, r, certified, e);
        DueAfterOne(c, q, r, certified, e);
        RemindersWritten(d, qs[1..], r, certified, e);
        ExecConcat(c, map[], acts, RemindActs(d, qs[1..], r, certified), r);
      }
    }
  }

  /** A tick reminds of exactly the requests due under their origins' certificates. */
  lemma {:induction false} TickReminds(c: Core, r: Reading, certified: map<Origin, nat>, e: Entry)
    requires e.Reminded?
    ensures e in Trace(c, TickActs(c, r, certified), r) <==> IsDue(c, r, certified, e)
  {
    var qs := SortedQuestions(DueQuestions(c, r, certified));
    var reminders := RemindActs(c, qs, r, certified);
    var c1 := Exec(c, reminders, r);
    RemindersWritten(c, qs, r, certified, e);
    var rest := TickRest(c1, r, certified);
    TickSplits(c, r, certified);
    ExecConcat(c, map[], reminders, rest, r);
    InboxWritesOutcomesAndSettlements(c1, rest, r);
  }

  /** What a tick does once it has reminded. */
  ghost function TickRest(c1: Core, r: Reading, certified: map<Origin, nat>): (acts: seq<Act>)
    ensures forall act :: act in acts ==> OnInbox(act)
  {
    var climbs := ClimbActs(c1, SortedKeys(c1.items.Keys), r, certified);
    var c2 := Exec(c1, climbs, r);
    var due := DueActs(c2, SortedKeys(c2.items.Keys), r, certified);
    climbs + due + BoundActs(Exec(c2, due, r), r)
  }

  lemma {:induction false} TickSplits(c: Core, r: Reading, certified: map<Origin, nat>)
    ensures var reminders := RemindActs(c, SortedQuestions(DueQuestions(c, r, certified)), r, certified);
            TickActs(c, r, certified) == reminders + TickRest(Exec(c, reminders, r), r, certified)
  {
    var reminders := RemindActs(c, SortedQuestions(DueQuestions(c, r, certified)), r, certified);
    var c1 := Exec(c, reminders, r);
    var climbs := ClimbActs(c1, SortedKeys(c1.items.Keys), r, certified);
    var c2 := Exec(c1, climbs, r);
    var due := DueActs(c2, SortedKeys(c2.items.Keys), r, certified);
    FourInARow(reminders, climbs, due, BoundActs(Exec(c2, due, r), r));
  }

  lemma {:induction false} FourInARow(a: seq<Act>, b: seq<Act>, c: seq<Act>, d: seq<Act>)
    ensures a + b + c + d == a + (b + c + d)
  {
  }

  // ---- the host's other calls --------------------------------------------------------------

  /** Closing a session is written, and its closure writes nothing else but what it ended. */
  lemma {:induction false} FinaliseCloses(c: Core, session: SessionId, r: Reading, e: Entry)
    requires !e.Said?
    ensures e in Trace(c, FinaliseActs(c, session), r) <==> e == Closed(session)
  {
    var acts := FinaliseActs(c, session);
    assert acts[0] == Close(session);
    if e in Trace(c, acts, r) {
      WrittenByAnAct(c, acts, r, e);
    } else if e == Closed(session) {
      ActIsWritten(c, acts, r, Close(session), e);
    }
  }

  lemma {:induction false} SettlementsWritten(c0: Core, c: Core, settled: seq<(Key, nat)>, r: Reading, e: Entry)
    requires c.items.Keys == c0.items.Keys && !e.Said?
    ensures e in Trace(c, SettleActs(c0, settled), r) <==>
            e.Settled? && (e.key, e.number) in settled && e.key in c0.items
    decreases |settled|
  {
    if settled != [] {
      var first, rest := settled[0], SettleActs(c0, settled[1..]);
      if first.0 in c.items {
        var act := Change(first.0, Settle(first.1));
        var d := Apply(c, act, r);
        SettlementsWritten(c0, d, settled[1..], r, e);
        assert SettleActs(c0, settled)[1..] == rest;
        assert Trace(c, SettleActs(c0, settled), r) == [Settled(first.0, first.1)] + Trace(d, rest, r);
      } else {
        SettlementsWritten(c0, c, settled[1..], r, e);
        assert SettleActs(c0, settled) == rest;
      }
    }
  }

  lemma {:induction false} SettlementsAreSilent(c0: Core, c: Core, settled: seq<(Key, nat)>, r: Reading)
    ensures forall e :: e in Trace(c, SettleActs(c0, settled), r) ==> !e.Said?
    decreases |settled|
  {
    if settled != [] {
      var first, rest := settled[0], SettleActs(c0, settled[1..]);
      if first.0 in c0.items {
        var act := Change(first.0, Settle(first.1));
        SettlementsAreSilent(c0, Apply(c, act, r), settled[1..], r);
        assert SettleActs(c0, settled)[1..] == rest;
      } else {
        SettlementsAreSilent(c0, c, settled[1..], r);
        assert SettleActs(c0, settled) == rest;
      }
    }
  }

  lemma {:induction false} ExecKeepsDigest(c: Core, acts: seq<Act>, r: Reading)
    ensures Exec(c, acts, r).digest == c.digest
    decreases |acts|
  {
    if acts != [] { ExecKeepsDigest(Apply(c, acts[0], r), acts[1..], r); }
  }

  /** Whether a call acknowledges one item for one actor: it is that actor's own, it is not refused, and
      it names an item the actor is shown at the revision the item stands at. */
  ghost predicate Acknowledges(c: Core, op: Op, actor: ActorId, k: Key) {
    || (&& op.Acknowledge? && op.actor == actor && !Refused(c, op.viewer, op.requested)
        && k in c.items && ShownTo(c, op.viewer, c.items[k]) && (k, c.items[k].revision) in op.requested)
    || (op.AcknowledgeCurrent? && op.actor == actor && op.key == k && k in c.items)
  }

  lemma {:induction false} AcksWritten(c: Core, actor: ActorId, viewer: Viewer, requested: seq<(Key, nat)>, r: Reading, e: Entry)
    ensures e in Trace(c, AckActs(c, actor, viewer, requested), r) <==>
            && e.Acked? && e.actor == actor && e.key in c.items && ShownTo(c, viewer, c.items[e.key])
            && (e.key, c.items[e.key].revision) in requested
    decreases |requested|
  {
    if requested != [] {
      var first, rest := requested[0], AckActs(c, actor, viewer, requested[1..]);
      AcksWritten(c, actor, viewer, requested[1..], r, e);
      if Current(c, viewer, first) {
        var act := Ack(actor, first.0, first.1);
        assert AckActs(c, actor, viewer, requested)[1..] == rest;
        assert Trace(c, AckActs(c, actor, viewer, requested), r) == [Acked(actor, first.0)] + Trace(c, rest, r);
      } else {
        assert AckActs(c, actor, viewer, requested) == rest;
      }
    }
  }

  lemma {:induction false} AcksAreSilent(c: Core, acts: seq<Act>, r: Reading)
    requires forall act :: act in acts ==> act.Ack?
    ensures forall e :: e in Trace(c, acts, r) ==> e.Acked?
    decreases |acts|
  {
    if acts != [] {
      assert acts[0].Ack?;
      AcksAreSilent(Apply(c, acts[0], r), acts[1..], r);
    }
  }

  // ---- every call --------------------------------------------------------------------------

  /** What a call writes in the log. */
  ghost function Wrote(w: World, op: Op): seq<Entry> {
    if op.Restart? then []
    else
      var r := ReadingOf(w.now, op);
      Trace(w.core, ActsOf(w.core, op, r), r)
  }

  lemma {:induction false} StepWrites(w: World, op: Op)
    ensures Step(w, op).log == w.log + Wrote(w, op) && Step(w, op).epoch == w.epoch
  {
    if op.Restart? {
      assert w.log + [] == w.log;
    } else {
      var at := w.(now := ReadingOf(w.now, op));
      PerformIsExec(at, ActsOf(at.core, op, at.now));
    }
  }

  lemma {:induction false} StepKeepsDigest(w: World, op: Op)
    ensures Step(w, op).core.digest == w.core.digest
  {
    if !op.Restart? {
      var at := w.(now := ReadingOf(w.now, op));
      PerformIsExec(at, ActsOf(at.core, op, at.now));
      ExecKeepsDigest(at.core, ActsOf(at.core, op, at.now), at.now);
    }
  }

  /** Which call an entry that is no outcome is written by, and that such a call always writes it. */
  ghost predicate Caused(w: World, op: Op, e: Entry) {
    match e
    case Said(_, _) => false
    case Acked(actor, k) => Acknowledges(w.core, op, actor, k)
    case Settled(k, n) => op.SettleAnnouncements? && (k, n) in op.settled && k in w.core.items
    case Took(cursor, asked) =>
      op.Consume? && Takes(w.core, op.event.cursor) && cursor == op.event.cursor && asked == RequestIn(op.event, op.r)
    case Answered(q) => Answers(w.core, op, q)
    case LetGo(_) => op.Consume?
    case Reminded(_, _, _) => op.Tick? && IsDue(w.core, op.r, op.certified, e)
    case Closed(s) => op == Finalise(s)
  }

  /** Every entry that is no outcome is written by the call it stands for and by no other; but for what
      the bound on requests forgets, every such call writes it. */
  lemma {:induction false} CallsAreWritten(w: World, op: Op, e: Entry)
    requires !e.Said?
    ensures e in Wrote(w, op) ==> Caused(w, op, e)
    ensures Caused(w, op, e) && !e.LetGo? ==> e in Wrote(w, op)
  {
    var r := ReadingOf(w.now, op);
    match op
    case Consume(event, _, mode) => ConsumeIsWritten(w, op, e);
    case Tick(_, certified) => TickIsWritten(w, op, e);
    case Finalise(session) => FinaliseCloses(w.core, session, r, e);
    case SettleAnnouncements(settled) => SettlementsWritten(w.core, w.core, settled, r, e);
    case Acknowledge(actor, viewer, requested, _) => AcksWritten(w.core, actor, viewer, requested, r, e);
    case AcknowledgeCurrent(_, _, _) => CurrentIsWritten(w, op, e);
    case _ => OthersWriteNothing(w, op, e);
  }

  lemma {:induction false} ConsumeIsWritten(w: World, op: Op, e: Entry)
    requires op.Consume? && !e.Said?
    ensures e in Wrote(w, op) ==> Caused(w, op, e)
    ensures Caused(w, op, e) && !e.LetGo? ==> e in Wrote(w, op)
  {
    if e.Took? || e.Answered? {
      EventIsWritten(w.core, op.event, op.r, op.mode, e);
    } else if e in Wrote(w, op) {
      WrittenByAnAct(w.core, ConsumeActs(w.core, op.event, op.r, op.mode), op.r, e);
      ConsumeNeverCloses(w.core, op.event, op.r, op.mode);
      ConsumeOnlyRaises(w.core, op.event, op.r, op.mode);
    }
  }

  lemma {:induction false} ConsumeOnlyRaises(c: Core, e: Event, r: Reading, mode: Mode)
    ensures forall act :: act in ConsumeActs(c, e, r, mode) ==> Raises(act)
  {
    if Takes(c, e.cursor) {
      var c1 := Exec(c, MissedActs(c, e.cursor), r);
      PlanOnlyRaises(c1, e.cursor, PlanOf(c1.digest, e), r, mode);
    }
  }

  /** An act that edits an item, if it does, only as raising a condition does. */
  predicate Raises(act: Act) {
    act.Change? ==> act.edit.Repeat? || act.edit.Undecide? || act.edit.Suppress? || act.edit.Announce?
  }

  predicate Settles(act: Act) {
    act.Change? && act.edit.Settle?
  }

  lemma {:induction false} PlanOnlyRaises(c: Core, cursor: Cursor, plan: Plan, r: Reading, mode: Mode)
    ensures forall act :: act in PlanActs(c, cursor, plan, r, mode) ==> Raises(act)
  {
    if plan.RaiseOne? {
      RaiseOnlyRaises(Apply(c, Advance(cursor, None), r), plan.raise, r, mode);
    } else if plan.AskOne? {
      var asks := PendingBoundActs(c, plan.question, r) + [Advance(cursor, Some(AskedBy(cursor, plan, r)))];
      RaiseOnlyRaises(Exec(c, asks, r), plan.raise, r, mode);
    }
  }

  lemma {:induction false} RaiseOnlyRaises(c: Core, raise: Raise, r: Reading, mode: Mode)
    ensures forall act :: act in RaiseActs(c, raise, r, mode) ==> Raises(act)
  {
  }

  lemma {:induction false} ClimbsAndDueOnlyEdit(c: Core, keys: seq<Key>, r: Reading, certified: map<Origin, nat>)
    requires forall k :: k in keys ==> k in c.items
    ensures forall act :: act in ClimbActs(c, keys, r, certified) ==> act.Change? && act.edit.Climb?
    ensures forall act :: act in DueActs(c, keys, r, certified) ==> act.Change? && act.edit.Announce?
    decreases |keys|
  {
    if keys != [] {
      ClimbsAndDueOnlyEdit(c, keys[1..], r, certified);
    }
  }

  lemma {:induction false} TickWritesNothingElse(c: Core, r: Reading, certified: map<Origin, nat>, e: Entry)
    requires !e.Said? && !e.Reminded?
    ensures e !in Trace(c, TickActs(c, r, certified), r)
  {
    TickNeverSettles(c, r, certified);
    OnlyThoseWrite(c, TickActs(c, r, certified), r, e);
  }

  lemma {:induction false} OnlyThoseWrite(c: Core, acts: seq<Act>, r: Reading, e: Entry)
    requires forall act :: act in acts ==> (OnInbox(act) || act.Remind?) && !Settles(act)
    requires !e.Said? && !e.Reminded?
    ensures e !in Trace(c, acts, r)
  {
    if e in Trace(c, acts, r) { WrittenByAnAct(c, acts, r, e); }
  }

  lemma {:induction false} TickIsWritten(w: World, op: Op, e: Entry)
    requires op.Tick? && !e.Said?
    ensures e in Wrote(w, op) <==> Caused(w, op, e)
  {
    TickWrote(w, op);
    if e.Reminded? {
      TickReminds(w.core, op.r, op.certified, e);
      CausedByTick(w, op, e);
    } else {
      TickWritesNothingElse(w.core, op.r, op.certified, e);
      OnlyRemindersCausedByTick(w, op, e);
    }
  }

  lemma {:induction false} TickWrote(w: World, op: Op)
    requires op.Tick?
    ensures Wrote(w, op) == Trace(w.core, TickActs(w.core, op.r, op.certified), op.r)
  {
  }

  lemma {:induction false} CausedByTick(w: World, op: Op, e: Entry)
    requires op.Tick? && e.Reminded?
    ensures Caused(w, op, e) <==> IsDue(w.core, op.r, op.certified, e)
  {
  }

  lemma {:induction false} OnlyRemindersCausedByTick(w: World, op: Op, e: Entry)
    requires op.Tick? && !e.Reminded?
    ensures !Caused(w, op, e)
  {
  }

  lemma {:induction false} TickNeverSettles(c: Core, r: Reading, certified: map<Origin, nat>)
    ensures forall act :: act in TickActs(c, r, certified) ==> !Settles(act)
  {
    var qs := SortedQuestions(DueQuestions(c, r, certified));
    var reminders := RemindActs(c, qs, r, certified);
    RemindersOnlyRaise(c, qs, r, certified);
    TickSplits(c, r, certified);
    RestNeverSettles(Exec(c, reminders, r), r, certified);
  }

  lemma {:induction false} RestNeverSettles(c1: Core, r: Reading, certified: map<Origin, nat>)
    ensures forall act :: act in TickRest(c1, r, certified) ==> !Settles(act)
  {
    var keys := SortedKeys(c1.items.Keys);
    ClimbsAndDueOnlyEdit(c1, keys, r, certified);
    var c2 := Exec(c1, ClimbActs(c1, keys, r, certified), r);
    ClimbsAndDueOnlyEdit(c2, SortedKeys(c2.items.Keys), r, certified);
  }

  lemma {:induction false} RemindOneOnlyRaises(c: Core, q: QuestionId, r: Reading, certified: map<Origin, nat>)
    requires q in c.pending && ReminderDue(c, r, certified, q)
    ensures forall act :: act in RemindOneActs(c, q, r, certified) ==> Raises(act)
  {
    var acts := RemindOneActs(c, q, r, certified);
    var raise := ReminderOf(c.digest, q, c.pending[q].session, c.pending[q].record, r);
    RaiseOnlyRaises(Apply(c, acts[0], r), raise, r, Live);
    assert acts == [acts[0]] + RaiseActs(Apply(c, acts[0], r), raise, r, Live);
  }

  lemma {:induction false} RemindersOnlyRaise(c: Core, qs: seq<QuestionId>, r: Reading, certified: map<Origin, nat>)
    ensures forall act :: act in RemindActs(c, qs, r, certified) ==> Raises(act)
    decreases |qs|
  {
    if qs != [] {
      RemindActsFirst(c, qs, r, certified);
      if qs[0] in c.pending && ReminderDue(c, r, certified, qs[0]) {
        RemindOneOnlyRaises(c, qs[0], r, certified);
        RemindersOnlyRaise(Exec(c, RemindOneActs(c, qs[0], r, certified), r), qs[1..], r, certified);
      } else {
        RemindersOnlyRaise(c, qs[1..], r, certified);
      }
    }
  }

  lemma {:induction false} CurrentIsWritten(w: World, op: Op, e: Entry)
    requires op.AcknowledgeCurrent? && !e.Said?
    ensures e in Wrote(w, op) <==> Caused(w, op, e)
  {
    if op.key in w.core.items {
      var act := Ack(op.actor, op.key, w.core.items[op.key].revision);
      assert AcknowledgeCurrentActs(w.core, op.actor, op.key) == [act];
      assert Trace(w.core, [act], op.r) == [Acked(op.actor, op.key)] + [];
    }
  }

  lemma {:induction false} OthersWriteNothing(w: World, op: Op, e: Entry)
    requires op.NoteGap? || op.StartFrom? || op.SetQuietHours? || op.Restart?
    requires !e.Said?
    ensures e !in Wrote(w, op) && !Caused(w, op, e)
  {
    if e in Wrote(w, op) {
      var r := ReadingOf(w.now, op);
      WrittenByAnAct(w.core, ActsOf(w.core, op, r), r, e);
    }
  }
}
