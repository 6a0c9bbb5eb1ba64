/** What a session's closure ends, and that nothing of the session is asked about afterwards. */
module Closures {
  import opened Common
  import opened Time
  import opened Rules
  import opened Events
  import opened EngineModel
  import opened Runs
  import opened Calls
  import opened Conditions
  import opened Standings
  import opened Reminders
  import opened RunLog
  import opened Soundness

  // ---- only a closure ends -----------------------------------------------------------------

  lemma {:induction false} EndedByLeaving(c: Core, acts: seq<Act>, r: Reading, e: Entry)
    requires e in Trace(c, acts, r) && e.Said? && e.out.Ended?
    ensures Leave(e.out.key, End) in acts
    decreases |acts|
  {
    if e !in Note(c, acts[0], r) { EndedByLeaving(Apply(c, acts[0], r), acts[1..], r, e); }
  }

  /** An act that takes an item out of the inbox by ending it. */
  predicate IsEnding(act: Act) {
    act.Leave? && act.how.End?
  }

  lemma {:induction false} RaisingEndsNothing(c: Core, raise: Raise, r: Reading, mode: Mode)
    ensures forall act :: act in RaiseActs(c, raise, r, mode) ==> !IsEnding(act)
  {
  }

  lemma {:induction false} PlanEndsNothing(c: Core, cursor: Cursor, plan: Plan, r: Reading, mode: Mode)
    ensures forall act :: act in PlanActs(c, cursor, plan, r, mode) ==> !IsEnding(act)
  {
    if plan.RaiseOne? {
      RaisingEndsNothing(Apply(c, Advance(cursor, None), r), plan.raise, r, mode);
    } else if plan.AskOne? {
      var asks := PendingBoundActs(c, plan.question, r) + [Advance(cursor, Some(AskedBy(cursor, plan, r)))];
      RaisingEndsNothing(Exec(c, asks, r), plan.raise, r, mode);
    }
  }

  lemma {:induction false} ConsumeEndsNothing(c: Core, e: Event, r: Reading, mode: Mode)
    ensures forall act :: act in ConsumeActs(c, e, r, mode) ==> !IsEnding(act)
  {
    if Takes(c, e.cursor) {
      var c1 := Exec(c, MissedActs(c, e.cursor), r);
      PlanEndsNothing(c1, e.cursor, PlanOf(c1.digest, e), r, mode);
    }
  }

  lemma {:induction false} RemindersEndNothing(c: Core, qs: seq<QuestionId>, r: Reading, certified: map<Origin, nat>)
    ensures forall act :: act in RemindActs(c, qs, r, certified) ==> !IsEnding(act)
    decreases |qs|
  {
    if qs != [] {
      RemindActsFirst(c, qs, r, certified);
      if qs[0] in c.pending && ReminderDue(c, r, certified, qs[0]) {
        var acts := RemindOneActs(c, qs[0], r, certified);
        var raise := ReminderOf(c.digest, qs[0], c.pending[qs[0]].session, c.pending[qs[0]].record, r);
        RaisingEndsNothing(Apply(c, acts[0], r), raise, r, Live);
        assert acts == [acts[0]] + RaiseActs(Apply(c, acts[0], r), raise, r, Live);
        RemindersEndNothing(Exec(c, acts, r), qs[1..], r, certified);
      } else {
        RemindersEndNothing(c, qs[1..], r, certified);
      }
    }
  }

  lemma {:induction false} TickEndsNothing(c: Core, r: Reading, certified: map<Origin, nat>)
    ensures forall act :: act in TickActs(c, r, certified) ==> !IsEnding(act)
  {
    var qs := SortedQuestions(DueQuestions(c, r, certified));
    RemindersEndNothing(c, qs, r, certified);
    TickSplits(c, r, certified);
    RestClimbsAndDecides(Exec(c, RemindActs(c, qs, r, certified), r), r, certified);
  }

  /** Nothing but a closure says that a condition ended. */
  lemma {:induction false} OnlyClosuresEnd(w: World, op: Op, e: Entry)
    requires e in Wrote(w, op) && e.Said? && e.out.Ended?
    ensures op.Finalise?
  {
    var r := ReadingOf(w.now, op);
    EndedByLeaving(w.core, ActsOf(w.core, op, r), r, e);
    OnlyFinaliseEnds(w.core, op, r, Leave(e.out.key, End));
  }

  lemma {:induction false} OnlyFinaliseEnds(c: Core, op: Op, r: Reading, act: Act)
    requires act in ActsOf(c, op, r) && IsEnding(act)
    ensures op.Finalise?
  {
    match op
    case Consume(e, _, mode) => ConsumeEndsNothing(c, e, r, mode);
    case Tick(_, certified) => TickEndsNothing(c, r, certified);
    case _ =>
  }

  lemma {:induction false} ClosureStep(w: World, op: Op, k: Key)
    requires Consistent(w.core, w.now) && op.Finalise?
    ensures var c, d := w.core, Step(w, op).core;
            && (k in d.items <==> k in c.items && !EndedBy(k, c.items[k].about, op.session))
            && (k in d.items ==> d.items[k] == c.items[k])
  {
    StepIsExec(w, op);
    if k in w.core.items { NamedByItsKey(w.core, w.now, k); }
    ClosureEnds(w.core, op.session, w.now, k);
  }

  /** A call says that a condition ended exactly when it closes a session the condition is a request of. */
  lemma {:induction false} EndedInACall(w: World, op: Op, k: Key)
    requires Consistent(w.core, w.now)
    ensures (exists e :: e in Wrote(w, op) && e.Said? && e.out == Ended(k)) <==>
            op.Finalise? && k in w.core.items && EndedBy(k, w.core.items[k].about, op.session)
  {
    forall e | e in Wrote(w, op) && e.Said? && e.out == Ended(k) ensures op.Finalise? { OnlyClosuresEnd(w, op, e); }
    if op.Finalise? { EndedInAClosure(w, op, k); }
  }

  lemma {:induction false} EndedInAClosure(w: World, op: Op, k: Key)
    requires Consistent(w.core, w.now) && op.Finalise?
    ensures (exists e :: e in Wrote(w, op) && e.Said? && e.out == Ended(k)) <==>
            k in w.core.items && EndedBy(k, w.core.items[k].about, op.session)
  {
    forall x | x in w.core.items ensures w.core.items[x].about.rule == x.rule { NamedByItsKey(w.core, w.now, x); }
    forall e: Entry | e.Said? && e.out == Ended(k)
      ensures e in Wrote(w, op) <==> e.at == w.now && k in w.core.items && EndedBy(k, w.core.items[k].about, op.session)
    {
      ClosureSays(w.core, op.session, w.now, e);
    }
    assert Said(Ended(k), w.now) in Wrote(w, op) <==> k in w.core.items && EndedBy(k, w.core.items[k].about, op.session);
  }

  // ---- a closed session asks nothing -------------------------------------------------------

  lemma {:induction false} NothingCloses(c: Core, acts: seq<Act>, r: Reading)
    requires forall act :: act in acts ==> !act.Close?
    ensures Exec(c, acts, r).finalised == c.finalised
    decreases |acts|
  {
    if acts != [] {
      assert acts[0] in acts;
      NothingCloses(Apply(c, acts[0], r), acts[1..], r);
    }
  }

  lemma {:induction false} OnlyFinaliseCloses(c: Core, op: Op, r: Reading)
    requires !op.Finalise?
    ensures forall act :: act in ActsOf(c, op, r) ==> !act.Close?
  {
    if op.Consume? { ConsumeNeverCloses(c, op.event, r, op.mode); }
  }

  lemma {:induction false} ClosingCloses(c: Core, session: SessionId, r: Reading)
    ensures Exec(c, FinaliseActs(c, session), r).finalised == c.finalised + {session}
  {
    var acts := FinaliseActs(c, session);
    NothingCloses(Apply(c, acts[0], r), acts[1..], r);
  }

  /** A closure closes its session, and nothing else closes one or opens one again. */
  lemma {:induction false} StepCloses(w: World, op: Op)
    ensures Step(w, op).core.finalised == if op.Finalise? then w.core.finalised + {op.session} else w.core.finalised
  {
    if !op.Restart? {
      var r := ReadingOf(w.now, op);
      StepIsExec(w, op);
      if op.Finalise? {
        ClosingCloses(w.core, op.session, r);
      } else {
        OnlyFinaliseCloses(w.core, op, r);
        NothingCloses(w.core, ActsOf(w.core, op, r), r);
      }
    }
  }

  /** No request in the inbox came from the records of a session that has closed. */
  ghost predicate OpenRequests(c: Core) {
    forall k :: k in c.items && IsRequest(k.rule) ==> !IsFinalised(c, c.items[k].about.origin)
  }

  lemma {:induction false} RemindedOrigin(
    before: Option<Standing>, log: seq<Entry>, digest: Subject -> nat, waits: map<QuestionId, Wait>, at: nat, k: Key)
    requires AfterReminders(before, log, digest, waits, at, k).Some?
    ensures var origin := AfterReminders(before, log, digest, waits, at, k).value.about.origin;
            || (before.Some? && origin == before.value.about.origin)
            || (exists e :: e in log && e.Reminded? && e.record.origin == origin)
    decreases |log|
  {
    if log != [] {
      var rest, last := log[..|log| - 1], log[|log| - 1];
      assert last in log && forall e :: e in rest ==> e in log;
      if AfterReminders(before, rest, digest, waits, at, k).Some? { RemindedOrigin(before, rest, digest, waits, at, k); }
    }
  }

  lemma {:induction false} RemindedIsOpen(w: World, op: Op, e: Entry)
    requires Reminding(w) && op.Tick? && e in Wrote(w, op) && e.Reminded?
    ensures !IsFinalised(w.core, e.record.origin)
  {
    TickWrote(w, op);
    TickReminds(w.core, op.r, op.certified, e);
  }

  /** Where a request stands after a call, its record's session was open before the call, and was not closed by it. */
  lemma {:induction false} StandsOpen(w: World, op: Op, before: Option<Standing>, k: Key)
    requires Reminding(w) && IsRequest(k.rule) && StandsAfter(w, op, before, k).Some?
    requires before.Some? ==> !IsFinalised(w.core, before.value.about.origin)
    ensures var origin := StandsAfter(w, op, before, k).value.about.origin;
            !IsFinalised(w.core, origin) && (op.Finalise? ==> origin != Session(op.session))
  {
    if op.Tick? && k.rule == InputIdleReminder {
      RemindedOrigin(before, Wrote(w, op), w.core.digest, w.core.pending, op.r.wall, k);
      var origin := StandsAfter(w, op, before, k).value.about.origin;
      if !(before.Some? && origin == before.value.about.origin) {
        var e :| e in Wrote(w, op) && e.Reminded? && e.record.origin == origin;
        RemindedIsOpen(w, op, e);
      }
    }
  }

  lemma {:induction false} StepKeepsOpenRequests(w: World, op: Op)
    requires Consistent(w.core, w.now) && Timely(w, op) && Reminding(w) && OpenRequests(w.core)
    ensures OpenRequests(Step(w, op).core)
  {
    StepCloses(w, op);
    forall k | k in Step(w, op).core.items && IsRequest(k.rule)
      ensures !IsFinalised(Step(w, op).core, Step(w, op).core.items[k].about.origin)
    {
      CallOnStanding(w, op, k);
      StandsOpen(w, op, StandingOf(w.core, k), k);
    }
  }

  lemma {:induction false} OpenBefore(start: World, ops: seq<Op>, n: nat)
    requires FromEmpty(start, ops) && n <= |ops|
    ensures OpenRequests(Before(start, ops, n).core)
    decreases n
  {
    if n == 0 {
      assert ops[..0] == [];
    } else {
      OpenBefore(start, ops, n - 1);
      OpenNext(start, ops, n - 1);
    }
  }

  lemma {:induction false} OpenNext(start: World, ops: seq<Op>, n: nat)
    requires FromEmpty(start, ops) && n < |ops| && OpenRequests(Before(start, ops, n).core)
    ensures OpenRequests(Before(start, ops, n + 1).core)
  {
    SoundBefore(start, ops, n);
    TimelyAt(start, ops, n);
    StepAt(start, ops, n);
    StepKeepsOpenRequests(Before(start, ops, n), ops[n]);
  }

  lemma {:induction false} ClosedNext(start: World, ops: seq<Op>, n: nat)
    requires n < |ops|
    ensures Before(start, ops, n).core.finalised <= Before(start, ops, n + 1).core.finalised
    ensures ops[n].Finalise? ==> ops[n].session in Before(start, ops, n + 1).core.finalised
  {
    StepAt(start, ops, n);
    StepCloses(Before(start, ops, n), ops[n]);
  }

  /** What has closed stays closed. */
  lemma {:induction false} StaysClosed(start: World, ops: seq<Op>, n: nat, m: nat)
    requires n < m <= |ops| && ops[n].Finalise?
    ensures ops[n].session in Before(start, ops, m).core.finalised
    decreases m
  {
    ClosedNext(start, ops, m - 1);
    if n < m - 1 { StaysClosed(start, ops, n, m - 1); }
  }
}
