/** The inbox is what the events consumed and the calls made say it is: each call's effect on a condition,
    and so which conditions stand after any run, since when, and what is said of them. */
module Standings {
  import opened Common
  import opened Time
  import opened Rules
  import opened Events
  import opened EngineModel
  import opened Runs
  import opened Guards
  import opened Calls
  import opened Conditions
  import opened RunLog
  import opened Soundness

  // ---- a tick ------------------------------------------------------------------------------

  /** What a reminder says of the request it is of. */
  function ReminderAbout(record: Cursor, session: SessionId): About {
    About(InputIdleReminder, record.source, record.origin, Some(session), Record(record), None, None, OwnerPolicy)
  }

  /** The reminder under a key as a stretch of the log leaves it: raised, afresh or again, by each reminding of
      a question it is the reminder of. */
  function AfterReminders(before: Option<Standing>, log: seq<Entry>, digest: Subject -> nat, waits: map<QuestionId, Wait>, at: nat, k: Key): Option<Standing> {
    if log == [] then before
    else
      var last, earlier := log[|log| - 1], AfterReminders(before, log[..|log| - 1], digest, waits, at, k);
      if last.Reminded? && last.question in waits && k == KeyFor(digest, InputIdleReminder, QuestionOf(last.question))
      then Some(Again(earlier, ReminderAbout(last.record, waits[last.question].session), at))
      else earlier
  }

  lemma {:induction false} RemindedInTurn(
    before: Option<Standing>, a: seq<Entry>, b: seq<Entry>, digest: Subject -> nat, waits: map<QuestionId, Wait>, at: nat, k: Key)
    ensures AfterReminders(before, a + b, digest, waits, at, k) ==
            AfterReminders(AfterReminders(before, a, digest, waits, at, k), b, digest, waits, at, k)
    decreases |b|
  {
    if b == [] {
      assert a + b == a;
    } else {
      assert (a + b)[..|a + b| - 1] == a + b[..|b| - 1];
      RemindedInTurn(before, a, b[..|b| - 1], digest, waits, at, k);
    }
  }

  lemma {:induction false} NothingReminded(
    before: Option<Standing>, log: seq<Entry>, digest: Subject -> nat, waits: map<QuestionId, Wait>, at: nat, k: Key)
    requires forall e :: e in log ==> !e.Reminded?
    ensures AfterReminders(before, log, digest, waits, at, k) == before
    decreases |log|
  {
    if log != [] { NothingReminded(before, log[..|log| - 1], digest, waits, at, k); }
  }

  /** Reminding of one question raises its reminder, and nothing else. */
  lemma {:induction false} RemindOneOnStanding(c: Core, q: QuestionId, r: Reading, certified: map<Origin, nat>, k: Key)
    requires q in c.pending && ReminderDue(c, r, certified, q)
    ensures var raise := ReminderOf(c.digest, q, c.pending[q].session, c.pending[q].record, r);
            Makes(c, RemindOneActs(c, q, r, certified), r, k, if raise.key == k then Some(raise) else None, false)
  {
    var remind := Remind(q, CertifiedAt(c, r, certified, c.pending[q].record.origin).value);
    var raise := ReminderOf(c.digest, q, c.pending[q].session, c.pending[q].record, r);
    assert Exec(c, [remind], r) == Apply(c, remind, r);
    RaiseOnStanding(Apply(c, remind, r), raise, r, Live, k);
    MakesAfter(c, [remind], RaiseActs(Apply(c, remind, r), raise, r, Live), r, k,
                if raise.key == k then Some(raise) else None, false);
  }

  /** The same, as the log says it. */
  lemma {:induction false} RemindOneAsWritten(
    c: Core, q: QuestionId, r: Reading, certified: map<Origin, nat>, waits: map<QuestionId, Wait>, k: Key)
    requires q in c.pending && ReminderDue(c, r, certified, q) && q in waits && waits[q].session == c.pending[q].session
    requires Said(Dropped(k), r) !in Trace(c, RemindOneActs(c, q, r, certified), r)
    ensures StandingOf(Exec(c, RemindOneActs(c, q, r, certified), r), k) ==
            AfterReminders(StandingOf(c, k), Trace(c, RemindOneActs(c, q, r, certified), r), c.digest, waits, r.wall, k)
  {
    var remind := Remind(q, CertifiedAt(c, r, certified, c.pending[q].record.origin).value);
    var raise := ReminderOf(c.digest, q, c.pending[q].session, c.pending[q].record, r);
    var raising := RaiseActs(Apply(c, remind, r), raise, r, Live);
    RemindOneOnStanding(c, q, r, certified, k);
    InboxWritesOutcomesAndSettlements(Apply(c, remind, r), raising, r);
    assert ([remind] + raising)[1..] == raising;
    var first, rest := Note(c, remind, r), Trace(Apply(c, remind, r), raising, r);
    RemindedInTurn(StandingOf(c, k), first, rest, c.digest, waits, r.wall, k);
    NothingReminded(AfterReminders(StandingOf(c, k), first, c.digest, waits, r.wall, k), rest, c.digest, waits, r.wall, k);
    assert first[..0] == [];
  }

  lemma {:induction false} RemindersAsWritten(
    c: Core, qs: seq<QuestionId>, r: Reading, certified: map<Origin, nat>, waits: map<QuestionId, Wait>, k: Key)
    requires forall q :: q in c.pending ==> q in waits && waits[q].session == c.pending[q].session
    requires Said(Dropped(k), r) !in Trace(c, RemindActs(c, qs, r, certified), r)
    ensures StandingOf(Exec(c, RemindActs(c, qs, r, certified), r), k) ==
            AfterReminders(StandingOf(c, k), Trace(c, RemindActs(c, qs, r, certified), r), c.digest, waits, r.wall, k)
    decreases |qs|
  {
    if qs != [] {
      RemindActsFirst(c, qs, r, certified);
      if qs[0] in c.pending && ReminderDue(c, r, certified, qs[0]) {
        var acts := RemindOneActs(c, qs[0], r, certified);
        var d := Exec(c, acts, r);
        var rest := RemindActs(d, qs[1..], r, certified);
        ExecConcat(c, map[], acts, rest, r);
        RemindOneAsWritten(c, qs[0], r, certified, waits, k);
        RemindingOneMarks(c, qs[0], r, certified);
        RemindersAsWritten(d, qs[1..], r, certified, waits, k);
        RemindedInTurn(StandingOf(c, k), Trace(c, acts, r), Trace(d, rest, r), c.digest, waits, r.wall, k);
      } else {
        RemindersAsWritten(c, qs[1..], r, certified, waits, k);
      }
    }
  }

  lemma {:induction false} RemindersLeaveOthers(c: Core, qs: seq<QuestionId>, r: Reading, certified: map<Origin, nat>, k: Key)
    requires !k.rule.InputIdleReminder?
    ensures forall act :: act in RemindActs(c, qs, r, certified) ==> LeavesAlone(act, k)
    decreases |qs|
  {
    if qs != [] {
      RemindActsFirst(c, qs, r, certified);
      if qs[0] in c.pending && ReminderDue(c, r, certified, qs[0]) {
        var acts := RemindOneActs(c, qs[0], r, certified);
        var raise := ReminderOf(c.digest, qs[0], c.pending[qs[0]].session, c.pending[qs[0]].record, r);
        RaisingLeavesOthers(Apply(c, acts[0], r), raise, r, Live, k);
        assert acts == [acts[0]] + RaiseActs(Apply(c, acts[0], r), raise, r, Live);
        RemindersLeaveOthers(Exec(c, acts, r), qs[1..], r, certified, k);
      } else {
        RemindersLeaveOthers(c, qs[1..], r, certified, k);
      }
    }
  }

  lemma {:induction false} RestLeavesAlone(c1: Core, r: Reading, certified: map<Origin, nat>, k: Key)
    ensures forall act :: act in TickRest(c1, r, certified) ==> LeavesAlone(act, k)
  {
    RestClimbsAndDecides(c1, r, certified);
    LeftAlone(TickRest(c1, r, certified), k);
  }

  /** An act of a tick once it has reminded. */
  predicate ClimbsOrDecides(act: Act) {
    (act.Change? && (act.edit.Climb? || act.edit.Announce?)) || (act.Leave? && act.how.Drop?)
  }

  lemma {:induction false} RestClimbsAndDecides(c1: Core, r: Reading, certified: map<Origin, nat>)
    ensures forall act :: act in TickRest(c1, r, certified) ==> ClimbsOrDecides(act)
  {
    var keys := SortedKeys(c1.items.Keys);
    ClimbsAndDueOnlyEdit(c1, keys, r, certified);
    var c2 := Exec(c1, ClimbActs(c1, keys, r, certified), r);
    ClimbsAndDueOnlyEdit(c2, SortedKeys(c2.items.Keys), r, certified);
  }

  lemma {:induction false} LeftAlone(acts: seq<Act>, k: Key)
    requires forall act :: act in acts ==> ClimbsOrDecides(act)
    ensures forall act :: act in acts ==> LeavesAlone(act, k)
  {
  }

  /** Only a record is ever let go of by the bound: never a request, nor a fault that stands. */
  lemma {:induction false} OnlyRecordsAreDropped(c: Core, acts: seq<Act>, r: Reading, k: Key)
    requires Consistent(c, r) && AllEnabled(c, acts, r) && !Policy(k.rule).droppable
    ensures Said(Dropped(k), r) !in Trace(c, acts, r)
    decreases |acts|
  {
    if acts != [] {
      ActKeepsConsistent(c, acts[0], r);
      OnlyRecordsAreDropped(Apply(c, acts[0], r), acts[1..], r, k);
      if k in c.items { NamedByItsKey(c, r, k); }
      NotDropped(c, acts[0], r, k);
    }
  }

  lemma {:induction false} NamedByItsKey(c: Core, r: Reading, k: Key)
    requires Consistent(c, r) && k in c.items
    ensures c.items[k].key == k && c.items[k].about.rule == k.rule
  {
    assert ItemNamed(c, k);
  }

  lemma {:induction false} NotDropped(c: Core, act: Act, r: Reading, k: Key)
    requires k in c.items ==> c.items[k].key == k
    requires Enabled(c, act, r) && !Policy(k.rule).droppable
    ensures Said(Dropped(k), r) !in Note(c, act, r)
  {
  }

  /** A tick raises reminders and drops records, and otherwise leaves what stands as it was. */
  lemma {:induction false} TickOnStanding(c: Core, r: Reading, certified: map<Origin, nat>, k: Key)
    requires Consistent(c, r)
    ensures var log := Trace(c, TickActs(c, r, certified), r);
            StandingOf(Exec(c, TickActs(c, r, certified), r), k) ==
            if k.rule.InputIdleReminder? then AfterReminders(StandingOf(c, k), log, c.digest, c.pending, r.wall, k)
            else if Said(Dropped(k), r) in log then None
            else StandingOf(c, k)
  {
    if k.rule.InputIdleReminder? {
      TickOnReminder(c, r, certified, k);
    } else {
      var qs := SortedQuestions(DueQuestions(c, r, certified));
      TickSplits(c, r, certified);
      RemindersLeaveOthers(c, qs, r, certified, k);
      RestLeavesAlone(Exec(c, RemindActs(c, qs, r, certified), r), r, certified, k);
      StandsUnlessDropped(c, TickActs(c, r, certified), r, k);
    }
  }

  lemma {:induction false} TickOnReminder(c: Core, r: Reading, certified: map<Origin, nat>, k: Key)
    requires Consistent(c, r) && k.rule.InputIdleReminder?
    ensures StandingOf(Exec(c, TickActs(c, r, certified), r), k) ==
            AfterReminders(StandingOf(c, k), Trace(c, TickActs(c, r, certified), r), c.digest, c.pending, r.wall, k)
    ensures Said(Dropped(k), r) !in Trace(c, TickActs(c, r, certified), r)
  {
    var reminders := RemindActs(c, SortedQuestions(DueQuestions(c, r, certified)), r, certified);
    var c1 := Exec(c, reminders, r);
    var rest := TickRest(c1, r, certified);
    TickIsEnabled(c, r, certified);
    OnlyRecordsAreDropped(c, TickActs(c, r, certified), r, k);
    TickSplits(c, r, certified);
    ExecConcat(c, map[], reminders, rest, r);
    RemindersAsWritten(c, SortedQuestions(DueQuestions(c, r, certified)), r, certified, c.pending, k);
    RestOnReminder(c1, r, certified, k);
    RemindedInTurn(StandingOf(c, k), Trace(c, reminders, r), Trace(c1, rest, r), c.digest, c.pending, r.wall, k);
    NothingReminded(StandingOf(c1, k), Trace(c1, rest, r), c.digest, c.pending, r.wall, k);
  }

  lemma {:induction false} TickIsEnabled(c: Core, r: Reading, certified: map<Origin, nat>)
    requires Consistent(c, r)
    ensures AllEnabled(c, TickActs(c, r, certified), r)
  {
    TickEnabled(c, r, certified);
  }

  lemma {:induction false} RestOnReminder(c1: Core, r: Reading, certified: map<Origin, nat>, k: Key)
    ensures forall e :: e in Trace(c1, TickRest(c1, r, certified), r) ==> !e.Reminded?
    ensures Said(Dropped(k), r) !in Trace(c1, TickRest(c1, r, certified), r) ==>
              StandingOf(Exec(c1, TickRest(c1, r, certified), r), k) == StandingOf(c1, k)
  {
    InboxWritesOutcomesAndSettlements(c1, TickRest(c1, r, certified), r);
    RestLeavesAlone(c1, r, certified, k);
    StandsUnlessDropped(c1, TickRest(c1, r, certified), r, k);
  }

  // ---- a closure ---------------------------------------------------------------------------

  /** A request of a session, by the origin of its record or by the session it names. */
  predicate EndedBy(k: Key, about: About, session: SessionId) {
    IsRequest(k.rule) && (about.origin == Session(session) || about.session == Some(session))
  }

  /** Ending the conditions of some keys takes those away and leaves every other item as it was. */
  lemma {:induction false} EndingEnds(c: Core, keys: seq<Key>, r: Reading, k: Key)
    requires NoDuplicates(keys) && forall x :: x in keys ==> x in c.items
    ensures var d := Exec(c, EndActs(keys), r);
            && (k in d.items <==> k in c.items && k !in keys) && (k in d.items ==> d.items[k] == c.items[k])
    decreases |keys|
  {
    if keys != [] {
      var d := Apply(c, Leave(keys[0], End), r);
      assert d.items == c.items - {keys[0]};
      assert forall x :: x in keys[1..] ==> x in keys && x != keys[0];
      EndingEnds(d, keys[1..], r, k);
      assert EndActs(keys)[1..] == EndActs(keys[1..]);
    }
  }

  /** Ending the conditions of some keys says so of each, and nothing else. */
  lemma {:induction false} EndingSays(c: Core, keys: seq<Key>, r: Reading, e: Entry)
    requires NoDuplicates(keys) && forall x :: x in keys ==> x in c.items
    ensures e in Trace(c, EndActs(keys), r) <==> e.Said? && e.out.Ended? && e.at == r && e.out.key in keys
    decreases |keys|
  {
    if keys != [] {
      var act := Leave(keys[0], End);
      var d, rest := Apply(c, act, r), EndActs(keys[1..]);
      assert d.items == c.items - {keys[0]};
      assert forall x :: x in keys[1..] ==> x in keys && x != keys[0];
      EndingSays(d, keys[1..], r, e);
      assert EndActs(keys)[1..] == rest;
      FirstEnds(c, keys[0], r);
      if e.Said? && e.out.Ended? { FirstOrLater(keys, e.out.key); }
    }
  }

  lemma {:induction false} FirstEnds(c: Core, k: Key, r: Reading)
    requires k in c.items
    ensures Note(c, Leave(k, End), r) == [Said(Ended(k), r)]
  {
  }

  lemma {:induction false} FirstOrLater(keys: seq<Key>, k: Key)
    requires keys != []
    ensures k in keys <==> k == keys[0] || k in keys[1..]
  {
  }

  /** A closure ends exactly the requests that are its session's by their record or by name, and leaves every
      other item as it was. */
  lemma {:induction false} ClosureEnds(c: Core, session: SessionId, r: Reading, k: Key)
    requires k in c.items ==> c.items[k].about.rule == k.rule
    ensures var d := Exec(c, FinaliseActs(c, session), r);
            && (k in d.items <==> k in c.items && !EndedBy(k, c.items[k].about, session))
            && (k in d.items ==> d.items[k] == c.items[k])
  {
    var keys := SortedKeys(set x | x in c.items && EndsWith(c.items[x], session));
    EndingEnds(Apply(c, Close(session), r), keys, r, k);
    assert FinaliseActs(c, session)[1..] == EndActs(keys);
  }

  /** A closure says of exactly those requests that they ended, and says nothing else. */
  lemma {:induction false} ClosureSays(c: Core, session: SessionId, r: Reading, e: Entry)
    requires (forall k :: k in c.items ==> c.items[k].about.rule == k.rule) && e.Said?
    ensures e in Trace(c, FinaliseActs(c, session), r) <==>
            && e.out.Ended? && e.at == r && e.out.key in c.items
            && EndedBy(e.out.key, c.items[e.out.key].about, session)
  {
    var keys := SortedKeys(set x | x in c.items && EndsWith(c.items[x], session));
    var d := Apply(c, Close(session), r);
    EndingSays(d, keys, r, e);
    assert FinaliseActs(c, session)[1..] == EndActs(keys);
    assert Trace(c, FinaliseActs(c, session), r) == [Closed(session)] + Trace(d, EndActs(keys), r);
  }

  // ---- every call --------------------------------------------------------------------------

  /** A call that is about no condition. */
  predicate Indifferent(op: Op) {
    !op.Consume? && !op.Tick? && !op.Finalise?
  }

  lemma {:induction false} IndifferentActs(c: Core, op: Op, r: Reading, k: Key)
    requires Indifferent(op)
    ensures forall act :: act in ActsOf(c, op, r) ==> RaiseIn(act, k).None? && !(act.Leave? && act.key == k)
  {
    if op.SettleAnnouncements? { SettlingRaisesNothing(c, op.settled, k); }
  }

  lemma {:induction false} SettlingRaisesNothing(c: Core, settled: seq<(Key, nat)>, k: Key)
    ensures forall act :: act in SettleActs(c, settled) ==> RaiseIn(act, k).None? && !(act.Leave? && act.key == k)
    decreases |settled|
  {
    if settled != [] { SettlingRaisesNothing(c, settled[1..], k); }
  }

  lemma {:induction false} RestartOnStanding(c: Core, r: Reading, k: Key)
    ensures StandingOf(Reanchored(c, r), k) == StandingOf(c, k)
  {
  }

  /** What a call makes of a condition, from the event it consumes, the reminders it writes, the session it
      closes and what it drops. */
  ghost function StandsAfter(w: World, op: Op, before: Option<Standing>, k: Key): Option<Standing> {
    var digest := w.core.digest;
    match op
    case Consume(e, r, _) =>
      if Takes(w.core, e.cursor) && Starts(digest, e, k) then Some(Again(before, AboutIn(digest, e, k), e.at))
      else if Takes(w.core, e.cursor) && Stops(digest, e, k) then None
      else if Said(Dropped(k), r) in Wrote(w, op) then None
      else before
    case Tick(r, _) =>
      if k.rule == InputIdleReminder then AfterReminders(before, Wrote(w, op), digest, w.core.pending, r.wall, k)
      else if Said(Dropped(k), r) in Wrote(w, op) then None
      else before
    case Finalise(session) => if before.Some? && EndedBy(k, before.value.about, session) then None else before
    case _ => before
  }

  /** Each call leaves in the inbox exactly that. */
  lemma {:induction false} CallOnStanding(w: World, op: Op, k: Key)
    requires Consistent(w.core, w.now) && Timely(w, op)
    ensures StandingOf(Step(w, op).core, k) == StandsAfter(w, op, StandingOf(w.core, k), k)
  {
    if op.Restart? {
      RestartOnStanding(w.core, op.r, k);
    } else {
      var r := ReadingOf(w.now, op);
      StepIsExec(w, op);
      match op
      case Consume(e, _, mode) => ConsumeOnStanding(w.core, e, r, mode, k);
      case Tick(_, certified) => TickStep(w, op, k);
      case Finalise(session) => FinaliseStep(w, op, k);
      case _ =>
        IndifferentActs(w.core, op, r, k);
        StandsThrough(w.core, ActsOf(w.core, op, r), r, k);
    }
  }

  lemma {:induction false} TickStep(w: World, op: Op, k: Key)
    requires Consistent(w.core, w.now) && Timely(w, op) && op.Tick?
    ensures StandingOf(Exec(w.core, TickActs(w.core, op.r, op.certified), op.r), k) == StandsAfter(w, op, StandingOf(w.core, k), k)
  {
    LaterKeepsConsistent(w.core, w.now, op.r);
    TickWrote(w, op);
    TickOnStanding(w.core, op.r, op.certified, k);
  }

  lemma {:induction false} FinaliseStep(w: World, op: Op, k: Key)
    requires Consistent(w.core, w.now) && op.Finalise?
    ensures StandingOf(Exec(w.core, FinaliseActs(w.core, op.session), w.now), k) == StandsAfter(w, op, StandingOf(w.core, k), k)
  {
    if k in w.core.items { NamedByItsKey(w.core, w.now, k); }
    ClosureEnds(w.core, op.session, w.now, k);
  }

  // ---- every run ---------------------------------------------------------------------------

  /** What a run's calls, up to place `n`, say of a condition. */
  ghost function StandsBy(start: World, ops: seq<Op>, n: nat, k: Key): Option<Standing>
    requires n <= |ops|
    decreases n
  {
    if n == 0 then None
    else StandsAfter(Before(start, ops, n - 1), ops[n - 1], StandsBy(start, ops, n - 1, k), k)
  }

  lemma {:induction false} CallOfTheRun(start: World, ops: seq<Op>, n: nat, k: Key)
    requires FromEmpty(start, ops) && n < |ops|
    ensures var w := Before(start, ops, n);
            StandingOf(Before(start, ops, n + 1).core, k) == StandsAfter(w, ops[n], StandingOf(w.core, k), k)
  {
    SoundBefore(start, ops, n);
    TimelyAt(start, ops, n);
    StepAt(start, ops, n);
    CallOnStanding(Before(start, ops, n), ops[n], k);
  }

  /** The inbox holds of every condition exactly what the run's calls said of it. */
  lemma {:induction false} InboxIsWhatWasSaid(start: World, ops: seq<Op>, n: nat, k: Key)
    requires FromEmpty(start, ops) && n <= |ops|
    ensures StandingOf(Before(start, ops, n).core, k) == StandsBy(start, ops, n, k)
    decreases n
  {
    if n == 0 {
      assert ops[..0] == [];
    } else {
      InboxIsWhatWasSaid(start, ops, n - 1, k);
      CallOfTheRun(start, ops, n - 1, k);
    }
  }

  /** A call that raises a condition: it takes an event of the kind that raises it, or is a tick that reminds of
      the question the condition is the reminder of. */
  ghost predicate CallRaises(w: World, op: Op, k: Key) {
    || (op.Consume? && Takes(w.core, op.event.cursor) && Starts(w.core.digest, op.event, k))
    || (op.Tick? && k.rule == InputIdleReminder && RemindsOf(w.core.digest, Wrote(w, op), k))
  }

  ghost predicate RemindsOf(digest: Subject -> nat, log: seq<Entry>, k: Key) {
    exists e :: e in log && e.Reminded? && k == KeyFor(digest, InputIdleReminder, QuestionOf(e.question))
  }

  /** A call that ends a condition that stands as `about` says: it takes an event of the kind that ends it,
      closes the session of a request, or drops a record. */
  ghost predicate CallEnds(w: World, op: Op, about: About, k: Key) {
    || (op.Consume? && Takes(w.core, op.event.cursor) && Stops(w.core.digest, op.event, k))
    || (op.Finalise? && EndedBy(k, about, op.session))
    || ((op.Consume? || (op.Tick? && k.rule != InputIdleReminder)) && Said(Dropped(k), op.r) in Wrote(w, op))
  }

  lemma {:induction false} RemindedStands(
    before: Option<Standing>, log: seq<Entry>, digest: Subject -> nat, waits: map<QuestionId, Wait>, at: nat, k: Key)
    requires forall e :: e in log && e.Reminded? ==> e.question in waits
    ensures AfterReminders(before, log, digest, waits, at, k).Some? <==> (k.rule == InputIdleReminder && RemindsOf(digest, log, k)) || before.Some?
    decreases |log|
  {
    if log != [] {
      var rest, last := log[..|log| - 1], log[|log| - 1];
      RemindedStands(before, rest, digest, waits, at, k);
      assert forall e :: e in log <==> e in rest || e == last;
    }
  }

  lemma {:induction false} RemindedArePending(w: World, op: Op)
    requires op.Tick?
    ensures forall e :: e in Wrote(w, op) && e.Reminded? ==> e.question in w.core.pending
  {
    TickWrote(w, op);
    forall e | e in Wrote(w, op) && e.Reminded? ensures e.question in w.core.pending {
      TickReminds(w.core, op.r, op.certified, e);
    }
  }

  /** A condition stands after a call exactly when the call raised it, or it stood and the call did not end it. */
  lemma {:induction false} CallKeepsStanding(w: World, op: Op, before: Option<Standing>, k: Key)
    ensures StandsAfter(w, op, before, k).Some? <==>
            CallRaises(w, op, k) || (before.Some? && !CallEnds(w, op, before.value.about, k))
  {
    match op
    case Consume(_, _, _) => EventStandsOn(w, op, before, k);
    case Tick(_, _) => TickStandsOn(w, op, before, k);
    case _ =>
  }

  lemma {:induction false} EventStandsOn(w: World, op: Op, before: Option<Standing>, k: Key)
    requires op.Consume?
    ensures StandsAfter(w, op, before, k).Some? <==>
            CallRaises(w, op, k) || (before.Some? && !CallEnds(w, op, before.value.about, k))
  {
  }

  lemma {:induction false} TickStandsOn(w: World, op: Op, before: Option<Standing>, k: Key)
    requires op.Tick?
    ensures StandsAfter(w, op, before, k).Some? <==>
            CallRaises(w, op, k) || (before.Some? && !CallEnds(w, op, before.value.about, k))
  {
    RemindedArePending(w, op);
    RemindedStands(before, Wrote(w, op), w.core.digest, w.core.pending, op.r.wall, k);
  }

  /** The call at place `n` of a run ends a condition that stands. */
  ghost predicate OverAt(start: World, ops: seq<Op>, n: nat, k: Key)
    requires n < |ops|
  {
    var w := Before(start, ops, n);
    k in w.core.items && CallEnds(w, ops[n], w.core.items[k].about, k)
  }

  ghost predicate BegunAt(start: World, ops: seq<Op>, n: nat, k: Key)
    requires n < |ops|
  {
    CallRaises(Before(start, ops, n), ops[n], k)
  }

  /** The call at place `i` raised a condition, and none since, up to place `n`, ended it. */
  ghost predicate StandsSince(start: World, ops: seq<Op>, i: nat, n: nat, k: Key) {
    i < n <= |ops| && BegunAt(start, ops, i, k) && forall m :: i < m < n ==> !OverAt(start, ops, m, k)
  }

  /** Whether the inbox holds a condition before the call at place `n`. */
  ghost predicate HeldAt(start: World, ops: seq<Op>, n: nat, k: Key)
    requires n <= |ops|
  {
    k in Before(start, ops, n).core.items
  }

  lemma {:induction false} HeldNext(start: World, ops: seq<Op>, n: nat, k: Key)
    requires FromEmpty(start, ops) && n < |ops|
    ensures HeldAt(start, ops, n + 1, k) <==>
            BegunAt(start, ops, n, k) || (HeldAt(start, ops, n, k) && !OverAt(start, ops, n, k))
  {
    CallOfTheRun(start, ops, n, k);
    CallKeepsStanding(Before(start, ops, n), ops[n], StandingOf(Before(start, ops, n).core, k), k);
  }

  lemma {:induction false} StandsStill(start: World, ops: seq<Op>, i: nat, n: nat, k: Key)
    requires StandsSince(start, ops, i, n, k) && n < |ops| && !OverAt(start, ops, n, k)
    ensures StandsSince(start, ops, i, n + 1, k)
  {
    forall m | i < m < n + 1 ensures !OverAt(start, ops, m, k) {
      if m == n { assert !OverAt(start, ops, n, k); }
    }
  }

  lemma {:induction false} NothingHeldAtFirst(start: World, ops: seq<Op>, k: Key)
    requires FromEmpty(start, ops)
    ensures !HeldAt(start, ops, 0, k)
  {
    assert ops[..0] == [];
  }

  /** What the inbox holds was raised by a call, and ended by none since. */
  lemma {:induction false} RaisedBy(start: World, ops: seq<Op>, n: nat, k: Key) returns (i: nat)
    requires FromEmpty(start, ops) && n <= |ops| && HeldAt(start, ops, n, k)
    ensures StandsSince(start, ops, i, n, k)
    decreases n
  {
    NothingHeldAtFirst(start, ops, k);
    assert n > 0;
    var last := n - 1;
    HeldNext(start, ops, last, k);
    if BegunAt(start, ops, last, k) {
      i := last;
    } else {
      i := RaisedBy(start, ops, last, k);
      StandsStill(start, ops, i, last, k);
    }
  }

  lemma {:induction false} HeldOnceRaised(start: World, ops: seq<Op>, n: nat, k: Key)
    requires FromEmpty(start, ops) && n < |ops| && BegunAt(start, ops, n, k)
    ensures HeldAt(start, ops, n + 1, k)
  {
    HeldNext(start, ops, n, k);
  }

  /** What the inbox no longer holds after a call that found it there, the call ended. */
  lemma {:induction false} EndedByIts(start: World, ops: seq<Op>, n: nat, k: Key)
    requires FromEmpty(start, ops) && n < |ops| && HeldAt(start, ops, n, k) && !HeldAt(start, ops, n + 1, k)
    ensures OverAt(start, ops, n, k)
  {
    HeldNext(start, ops, n, k);
  }

  ghost function HeldThroughout(start: World, ops: seq<Op>, k: Key): (held: seq<bool>)
    ensures |held| == |ops| + 1 && forall n :: 0 <= n <= |ops| ==> held[n] == HeldAt(start, ops, n, k)
  {
    seq(|ops| + 1, n requires 0 <= n <= |ops| => HeldAt(start, ops, n, k))
  }

  /** Where a list that holds at one place and not at a later one stops holding. */
  lemma {:induction false} WhereItStops(held: seq<bool>, a: nat, b: nat) returns (m: nat)
    requires a < b < |held| && held[a] && !held[b]
    ensures a <= m < b && held[m] && !held[m + 1]
    decreases b
  {
    m := b - 1;
    if !held[m] { m := WhereItStops(held, a, m); }
  }

  lemma {:induction false} EndedBetween(start: World, ops: seq<Op>, a: nat, b: nat, k: Key) returns (m: nat)
    requires FromEmpty(start, ops) && a < b <= |ops| && HeldAt(start, ops, a, k) && !HeldAt(start, ops, b, k)
    ensures a <= m < b && OverAt(start, ops, m, k)
  {
    m := WhereItStops(HeldThroughout(start, ops, k), a, b);
    EndedByIts(start, ops, m, k);
  }

  /** What a call raised, and none since ended, the inbox holds. */
  lemma {:induction false} StandsOnceRaised(start: World, ops: seq<Op>, i: nat, n: nat, k: Key)
    requires FromEmpty(start, ops) && StandsSince(start, ops, i, n, k)
    ensures HeldAt(start, ops, n, k)
  {
    HeldOnceRaised(start, ops, i, k);
    HeldUnlessEnded(start, ops, i + 1, n, k);
  }

  lemma {:induction false} HeldUnlessEnded(start: World, ops: seq<Op>, a: nat, b: nat, k: Key)
    requires FromEmpty(start, ops) && a <= b <= |ops| && HeldAt(start, ops, a, k)
    ensures HeldAt(start, ops, b, k) || exists m :: a <= m < b && OverAt(start, ops, m, k)
  {
    if !HeldAt(start, ops, b, k) {
      var m := EndedBetween(start, ops, a, b, k);
    }
  }

  // ---- what says nothing, and what is let go of --------------------------------------------

  lemma {:induction false} NothingPlanned(c: Core, e: Event, r: Reading, mode: Mode, k: Key)
    requires PlanOf(c.digest, e).Nothing?
    ensures StandingOf(Exec(c, ConsumeActs(c, e, r, mode), r), k) == StandingOf(c, k)
  {
    if Takes(c, e.cursor) {
      var missed := MissedActs(c, e.cursor);
      ExecKeepsDigest(c, missed, r);
      StandsThrough(c, missed + [Advance(e.cursor, None)], r, k);
      assert ConsumeActs(c, e, r, mode) == missed + [Advance(e.cursor, None)];
    }
  }

  lemma {:induction false} NothingSaid(w: World, op: Op, k: Key)
    requires op.Consume?
    requires var kind := op.event.kind;
             || kind.Observed? || kind.ChangeSetCaptured? || (kind.CommandCompleted? && kind.exitCode == 0)
             || (kind.QuestionPending? && !kind.verified)
    ensures StandingOf(Step(w, op).core, k) == StandingOf(w.core, k)
  {
    StepIsExec(w, op);
    PlansNothing(w.core.digest, op.event);
    NothingPlanned(w.core, op.event, op.r, op.mode, k);
  }

  lemma {:induction false} PlansNothing(digest: Subject -> nat, e: Event)
    requires || e.kind.Observed? || e.kind.ChangeSetCaptured? || (e.kind.CommandCompleted? && e.kind.exitCode == 0)
             || (e.kind.QuestionPending? && !e.kind.verified)
    ensures PlanOf(digest, e).Nothing?
  {
  }

  lemma {:induction false} DroppedIsARecord(w: World, op: Op, e: Entry)
    requires Consistent(w.core, w.now) && Timely(w, op) && e in Wrote(w, op) && e.Said? && e.out.Dropped?
    ensures e.out.key.rule == CommandFailed || e.out.key.rule == ReviewReady || e.out.key.rule == ApplicationNotice
  {
    var r := ReadingOf(w.now, op);
    LaterKeepsConsistent(w.core, w.now, r);
    OperationsAreEnabled(w.core, op, r);
    SaidAtItsReading(w.core, ActsOf(w.core, op, r), r, e);
    DroppableIsARecord(e.out.key.rule);
    if !Policy(e.out.key.rule).droppable { OnlyRecordsAreDropped(w.core, ActsOf(w.core, op, r), r, e.out.key); }
  }

  lemma {:induction false} DroppableIsARecord(rule: RuleId)
    ensures Policy(rule).droppable <==> rule == CommandFailed || rule == ReviewReady || rule == ApplicationNotice
  {
  }

  lemma {:induction false} SaidAtItsReading(c: Core, acts: seq<Act>, r: Reading, e: Entry)
    requires e in Trace(c, acts, r) && e.Said?
    ensures e.at == r
    decreases |acts|
  {
    if e !in Note(c, acts[0], r) { SaidAtItsReading(Apply(c, acts[0], r), acts[1..], r, e); }
  }

  // ---- whose words an item points at -------------------------------------------------------

  /** An item's text, where it is a record's, is read from a record of the origin the item names; a pause of
      automation is in the host's own words. */
  predicate WordsOfItsOrigin(about: About) {
    && (about.text.Record? ==> about.text.cursor.origin == about.origin)
    && (about.automation.Some? ==> about.text == HostWords)
  }

  predicate WellWorded(standing: Option<Standing>) {
    standing.Some? ==> WordsOfItsOrigin(standing.value.about)
  }

  lemma {:induction false} RemindersAreWellWorded(
    before: Option<Standing>, log: seq<Entry>, digest: Subject -> nat, waits: map<QuestionId, Wait>, at: nat, k: Key)
    requires WellWorded(before) && (before.Some? ==> before.value.about.automation.None?)
    ensures var after := AfterReminders(before, log, digest, waits, at, k);
            WellWorded(after) && (after.Some? ==> after.value.about.automation.None?)
    decreases |log|
  {
    if log != [] { RemindersAreWellWorded(before, log[..|log| - 1], digest, waits, at, k); }
  }

  /** What one call leaves standing is worded so, if what it found was. */
  lemma {:induction false} CallsWordWell(w: World, op: Op, before: Option<Standing>, k: Key)
    requires WellWorded(before) && (before.Some? ==> (before.value.about.automation.Some? <==> k.rule == AutomationPaused))
    ensures var after := StandsAfter(w, op, before, k);
            WellWorded(after) && (after.Some? ==> (after.value.about.automation.Some? <==> k.rule == AutomationPaused))
  {
    if op.Tick? && k.rule == InputIdleReminder {
      RemindersAreWellWorded(before, Wrote(w, op), w.core.digest, w.core.pending, op.r.wall, k);
    }
  }

  lemma {:induction false} RunsWordWell(start: World, ops: seq<Op>, n: nat, k: Key)
    requires n <= |ops|
    ensures var standing := StandsBy(start, ops, n, k);
            WellWorded(standing) && (standing.Some? ==> (standing.value.about.automation.Some? <==> k.rule == AutomationPaused))
    decreases n
  {
    if n > 0 {
      RunsWordWell(start, ops, n - 1, k);
      CallsWordWell(Before(start, ops, n - 1), ops[n - 1], StandsBy(start, ops, n - 1, k), k);
    }
  }
}
