/** Timers are late, never early: what a tick escalates or announces again fell due by a reading its
    origin's records have been read up to, counted from when the condition was raised or last announced. */
module Timers {
  import opened Common
  import opened Time
  import opened Rules
  import opened Events
  import opened EngineModel
  import opened Runs
  import opened Guards
  import opened Calls
  import opened Certificates
  import opened RunLog
  import opened Soundness

  // ---- what an escalation is decided on ----------------------------------------------------

  lemma {:induction false} EscalatedByClimbing(c: Core, acts: seq<Act>, r: Reading, e: Entry)
    requires e in Trace(c, acts, r) && e.Said? && e.out.Escalated?
    ensures exists steps :: Change(e.out.key, Climb(e.out.to, steps)) in acts
    decreases |acts|
  {
    if e in Note(c, acts[0], r) {
      assert acts[0] == Change(e.out.key, Climb(e.out.to, acts[0].edit.steps));
    } else {
      EscalatedByClimbing(Apply(c, acts[0], r), acts[1..], r, e);
      var steps :| Change(e.out.key, Climb(e.out.to, steps)) in acts[1..];
      assert Change(e.out.key, Climb(e.out.to, steps)) in acts;
    }
  }

  lemma {:induction false} ClimbActIs(c: Core, keys: seq<Key>, r: Reading, certified: map<Origin, nat>, act: Act)
    requires (forall k :: k in keys ==> k in c.items) && act in ClimbActs(c, keys, r, certified)
    ensures act.Change? && act.key in keys && act.edit.Climb?
    ensures ClimbOf(c, act.key, r, certified) == Some((act.edit.level, act.edit.steps))
    decreases |keys|
  {
    var climb := ClimbOf(c, keys[0], r, certified);
    if !(climb.Some? && act == Change(keys[0], Climb(climb.value.0, climb.value.1))) {
      ClimbActIs(c, keys[1..], r, certified, act);
    }
  }

  lemma {:induction false} ClimbIsOfThePass(c: Core, r: Reading, certified: map<Origin, nat>, k: Key, to: Level, steps: nat)
    requires Change(k, Climb(to, steps)) in TickActs(c, r, certified)
    ensures var c1 := Passes(c, r, certified).reminded;
            k in c1.items && ClimbOf(c1, k, r, certified) == Some((to, steps))
  {
    var act := Change(k, Climb(to, steps));
    var qs := SortedQuestions(DueQuestions(c, r, certified));
    var c1 := Exec(c, RemindActs(c, qs, r, certified), r);
    TickSplits(c, r, certified);
    RemindersOnlyRaise(c, qs, r, certified);
    assert act in TickRest(c1, r, certified);
    var keys := SortedKeys(c1.items.Keys);
    var c2 := Exec(c1, ClimbActs(c1, keys, r, certified), r);
    ClimbsAndDueOnlyEdit(c2, SortedKeys(c2.items.Keys), r, certified);
    ClimbActIs(c1, keys, r, certified, act);
  }

  /** The reading a tick decides an origin's timers at: the present for a session that has closed, and
      otherwise no later than what the host has read up to, which it has to say. */
  ghost predicate DecidedAt(c: Core, r: Reading, certified: map<Origin, nat>, origin: Origin, at: Reading) {
    if IsFinalised(c, origin) then at == r
    else origin in certified && at == r.AtOrBefore(certified[origin])
  }

  /** An escalation is to the level of a step whose threshold the item's age has passed by the reading its
      origin's timers are decided at. */
  lemma {:induction false} EscalationFellDue(c: Core, r: Reading, certified: map<Origin, nat>, e: Entry)
    returns (at: Reading, step: nat)
    requires e in Trace(c, TickActs(c, r, certified), r) && e.Said? && e.out.Escalated?
    ensures var c1, k := Passes(c, r, certified).reminded, e.out.key;
            && k in c1.items && DecidedAt(c1, r, certified, c1.items[k].about.origin, at)
            && step < |Policy(k.rule).steps| && Policy(k.rule).steps[step].level == e.out.to
            && c1.items[k].age.Ms(at) >= Policy(k.rule).steps[step].after
  {
    var k := e.out.key;
    EscalatedByClimbing(c, TickActs(c, r, certified), r, e);
    var steps :| Change(k, Climb(e.out.to, steps)) in TickActs(c, r, certified);
    ClimbIsOfThePass(c, r, certified, k, e.out.to, steps);
    at, step := ClimbMeans(Passes(c, r, certified).reminded, k, r, certified);
  }

  lemma {:induction false} ClimbMeans(c: Core, k: Key, r: Reading, certified: map<Origin, nat>) returns (at: Reading, step: nat)
    requires k in c.items && ClimbOf(c, k, r, certified).Some?
    ensures DecidedAt(c, r, certified, c.items[k].about.origin, at)
    ensures step < |Policy(k.rule).steps| && Policy(k.rule).steps[step].level == ClimbOf(c, k, r, certified).value.0
    ensures c.items[k].age.Ms(at) >= Policy(k.rule).steps[step].after
  {
    at := CertifiedAt(c, r, certified, c.items[k].about.origin).value;
    step := ClimbOf(c, k, r, certified).value.1 - 1;
    assert StepsPassed(Policy(k.rule).steps, c.items[k].age.Ms(at)) == step + 1;
  }

  // ---- when a condition was raised ---------------------------------------------------------

  /** A condition started afresh in a stretch of the log. */
  ghost predicate RaisedIn(log: seq<Entry>, k: Key) {
    exists e :: e in log && e.Said? && e.out.Raised? && e.out.key == k
  }

  /** The moment a call's own conditions are counted from: what its event's anchor measures, or the tick. */
  function BornAt(op: Op, now: Reading): Anchor {
    match op
    case Consume(e, r, _) => AnchorOf(Waited(e.atAnchor, r), r)
    case _ => ReadingOf(now, op).Anchored()
  }

  lemma {:induction false} RaisingEnters(c: Core, raise: Raise, r: Reading, mode: Mode)
    ensures forall act :: act in RaiseActs(c, raise, r, mode) && act.Enter? ==> act.raise == raise
  {
  }

  lemma {:induction false} EventsAreAnchored(digest: Subject -> nat, e: Event)
    ensures var plan := PlanOf(digest, e);
            plan.RaiseOne? || plan.AskOne? ==> plan.raise.atAnchor == e.atAnchor
  {
  }

  lemma {:induction false} PlanEnters(c: Core, cursor: Cursor, plan: Plan, r: Reading, mode: Mode)
    ensures forall act :: act in PlanActs(c, cursor, plan, r, mode) && act.Enter? ==>
              (plan.RaiseOne? || plan.AskOne?) && act.raise == plan.raise
  {
    if plan.RaiseOne? {
      RaisingEnters(Apply(c, Advance(cursor, None), r), plan.raise, r, mode);
    } else if plan.AskOne? {
      var asks := PendingBoundActs(c, plan.question, r) + [Advance(cursor, Some(AskedBy(cursor, plan, r)))];
      RaisingEnters(Exec(c, asks, r), plan.raise, r, mode);
    }
  }

  lemma {:induction false} RemindersEnter(c: Core, qs: seq<QuestionId>, r: Reading, certified: map<Origin, nat>)
    ensures forall act :: act in RemindActs(c, qs, r, certified) && act.Enter? ==> act.raise.atAnchor == Some(r.Anchored())
    decreases |qs|
  {
    if qs != [] {
      RemindActsFirst(c, qs, r, certified);
      if qs[0] in c.pending && ReminderDue(c, r, certified, qs[0]) {
        var acts := RemindOneActs(c, qs[0], r, certified);
        var raise := ReminderOf(c.digest, qs[0], c.pending[qs[0]].session, c.pending[qs[0]].record, r);
        RaisingEnters(Apply(c, acts[0], r), raise, r, Live);
        assert acts == [acts[0]] + RaiseActs(Apply(c, acts[0], r), raise, r, Live);
        RemindersEnter(Exec(c, acts, r), qs[1..], r, certified);
      } else {
        RemindersEnter(c, qs[1..], r, certified);
      }
    }
  }

  /** Every condition a call brings in is counted from where the call's own are. */
  lemma {:induction false} CallsBear(c: Core, op: Op, now: Reading)
    ensures var r := ReadingOf(now, op);
            forall act :: act in ActsOf(c, op, r) && act.Enter? ==> AnchorOf(Waited(act.raise.atAnchor, r), r) == BornAt(op, now)
  {
    var r := ReadingOf(now, op);
    if op.Consume? {
      ConsumeEnters(c, op.event, r, op.mode);
    } else if op.Tick? {
      TickEnters(c, r, op.certified);
    }
  }

  lemma {:induction false} ConsumeEnters(c: Core, e: Event, r: Reading, mode: Mode)
    ensures forall act :: act in ConsumeActs(c, e, r, mode) && act.Enter? ==> act.raise.atAnchor == e.atAnchor
  {
    if Takes(c, e.cursor) {
      var c1 := Exec(c, MissedActs(c, e.cursor), r);
      PlanEnters(c1, e.cursor, PlanOf(c1.digest, e), r, mode);
      EventsAreAnchored(c1.digest, e);
    }
  }

  lemma {:induction false} TickEnters(c: Core, r: Reading, certified: map<Origin, nat>)
    ensures forall act :: act in TickActs(c, r, certified) && act.Enter? ==> act.raise.atAnchor == Some(r.Anchored())
  {
    var qs := SortedQuestions(DueQuestions(c, r, certified));
    RemindersEnter(c, qs, r, certified);
    TickSplits(c, r, certified);
    RestNeverEnters(Exec(c, RemindActs(c, qs, r, certified), r), r, certified);
  }

  lemma {:induction false} RestNeverEnters(c1: Core, r: Reading, certified: map<Origin, nat>)
    ensures forall act :: act in TickRest(c1, r, certified) ==> !act.Enter?
  {
  }

  /** An act leaves an item's age alone unless it brings the item in. */
  lemma {:induction false} ActOnAge(c: Core, act: Act, r: Reading, k: Key)
    requires k in Apply(c, act, r).items
    ensures if act.Enter? && act.raise.key == k && k !in c.items
            then RaisedIn(Note(c, act, r), k) && Apply(c, act, r).items[k].age == Elapsed(Waited(act.raise.atAnchor, r), r.ms)
            else k in c.items && Apply(c, act, r).items[k].age == c.items[k].age && !RaisedIn(Note(c, act, r), k)
  {
    if act.Enter? && act.raise.key == k && k !in c.items {
      assert Note(c, act, r)[0].Said? && Note(c, act, r)[0] in Note(c, act, r);
    }
  }

  lemma {:induction false} RaisedInEither(a: seq<Entry>, b: seq<Entry>, k: Key)
    ensures RaisedIn(a + b, k) <==> RaisedIn(a, k) || RaisedIn(b, k)
  {
  }

  lemma {:induction false} AgeAfter(c: Core, acts: seq<Act>, r: Reading, k: Key, born: Anchor)
    requires k in Exec(c, acts, r).items
    requires forall act :: act in acts && act.Enter? ==> AnchorOf(Waited(act.raise.atAnchor, r), r) == born
    ensures var age := Exec(c, acts, r).items[k].age;
            if RaisedIn(Trace(c, acts, r), k) then Anchor(r.boot, Monus(age.anchor, age.already)) == born
            else k in c.items && age == c.items[k].age
    decreases |acts|
  {
    if acts != [] {
      var d := Apply(c, acts[0], r);
      assert acts[0] in acts;
      AgeAfter(d, acts[1..], r, k, born);
      RaisedInEither(Note(c, acts[0], r), Trace(d, acts[1..], r), k);
      if !RaisedIn(Trace(d, acts[1..], r), k) { ActOnAge(c, acts[0], r, k); }
    }
  }

  /** The physical moment an item's age is counted from. */
  ghost function CountedFrom(w: World, k: Key): nat
    requires k in w.core.items
  {
    w.At(w.now.boot, Monus(w.core.items[k].age.anchor, w.core.items[k].age.already))
  }

  /** The physical moment a call's own conditions are counted from. */
  ghost function BirthIn(w: World, op: Op): nat {
    w.At(BornAt(op, w.now).boot, BornAt(op, w.now).ms)
  }

  /** One call either raises an item, which is then counted from where the call says, or leaves it counted
      from where it was, or from later. */
  lemma {:induction false} StepOnBirth(w: World, op: Op, k: Key)
    requires k in Step(w, op).core.items && Timely(w, op)
    requires k in w.core.items ==> ItemTimed(w.core.items[k], w.now)
    ensures if RaisedIn(Wrote(w, op), k) then CountedFrom(Step(w, op), k) == BirthIn(w, op)
            else k in w.core.items && CountedFrom(w, k) <= CountedFrom(Step(w, op), k)
  {
    StepWrites(w, op);
    if op.Restart? {
      AgeAcrossRestart(w, op.r, k);
    } else {
      var r := ReadingOf(w.now, op);
      StepIsExec(w, op);
      CallsBear(w.core, op, w.now);
      AgeAfter(w.core, ActsOf(w.core, op, r), r, k, BornAt(op, w.now));
    }
  }

  lemma {:induction false} AgeAcrossRestart(w: World, r: Reading, k: Key)
    requires k in w.core.items && ItemTimed(w.core.items[k], w.now) && w.Of(w.now) <= w.Of(r)
    ensures CountedFrom(w, k) <= CountedFrom(w.(core := Reanchored(w.core, r), now := r), k)
  {
  }

  /** The call at place `n` of a run raised an item. */
  ghost predicate RaisedAt(start: World, ops: seq<Op>, n: nat, k: Key)
    requires n < |ops|
  {
    RaisedIn(Wrote(Before(start, ops, n), ops[n]), k)
  }

  ghost predicate UnraisedSince(start: World, ops: seq<Op>, i: nat, n: nat, k: Key)
    requires n <= |ops|
  {
    forall m :: i < m < n ==> !RaisedAt(start, ops, m, k)
  }

  lemma {:induction false} StillUnraised(start: World, ops: seq<Op>, i: nat, n: nat, k: Key)
    requires n < |ops| && UnraisedSince(start, ops, i, n, k) && !RaisedAt(start, ops, n, k)
    ensures UnraisedSince(start, ops, i, n + 1, k)
  {
    forall m | i < m < n + 1 ensures !RaisedAt(start, ops, m, k) {
      if m == n { assert !RaisedAt(start, ops, n, k); }
    }
  }

  /** The call at place `i` raised an item, none before place `n` raised it again, and at place `n` it is
      counted from no earlier than that call says. */
  ghost predicate Bears(start: World, ops: seq<Op>, i: nat, n: nat, k: Key) {
    && i < n <= |ops| && k in Before(start, ops, n).core.items
    && RaisedAt(start, ops, i, k)
    && UnraisedSince(start, ops, i, n, k)
    && BirthIn(Before(start, ops, i), ops[i]) <= CountedFrom(Before(start, ops, n), k)
  }

  lemma {:induction false} BirthAt(start: World, ops: seq<Op>, n: nat, k: Key)
    requires FromEmpty(start, ops) && n < |ops| && k in Before(start, ops, n + 1).core.items
    ensures var w := Before(start, ops, n);
            if RaisedIn(Wrote(w, ops[n]), k) then CountedFrom(Before(start, ops, n + 1), k) == BirthIn(w, ops[n])
            else k in w.core.items && CountedFrom(w, k) <= CountedFrom(Before(start, ops, n + 1), k)
  {
    StepAt(start, ops, n);
    SoundBefore(start, ops, n);
    TimelyAt(start, ops, n);
    StepOnBirth(Before(start, ops, n), ops[n], k);
  }

  /** Every item was raised by a call, and is counted from no earlier than that call says. */
  lemma {:induction false} BornBy(start: World, ops: seq<Op>, n: nat, k: Key) returns (i: nat)
    requires FromEmpty(start, ops) && n <= |ops| && k in Before(start, ops, n).core.items
    ensures Bears(start, ops, i, n, k)
    decreases n
  {
    NothingAtFirst(start, ops, n, k);
    var last := n - 1;
    BirthAt(start, ops, last, k);
    if RaisedAt(start, ops, last, k) {
      i := last;
    } else {
      i := BornBy(start, ops, last, k);
      StillBears(start, ops, i, last, k);
    }
  }

  lemma {:induction false} StillBears(start: World, ops: seq<Op>, i: nat, n: nat, k: Key)
    requires n < |ops| && Bears(start, ops, i, n, k) && !RaisedAt(start, ops, n, k)
    requires k in Before(start, ops, n + 1).core.items
    requires CountedFrom(Before(start, ops, n), k) <= CountedFrom(Before(start, ops, n + 1), k)
    ensures Bears(start, ops, i, n + 1, k)
  {
    StillUnraised(start, ops, i, n, k);
  }

  lemma {:induction false} NothingAtFirst(start: World, ops: seq<Op>, n: nat, k: Key)
    requires FromEmpty(start, ops) && n <= |ops| && k in Before(start, ops, n).core.items
    ensures n > 0
  {
    assert ops[..0] == [];
  }

  // ---- escalations -------------------------------------------------------------------------

  /** Only a tick escalates. */
  lemma {:induction false} OnlyTicksEscalate(w: World, op: Op, e: Entry)
    requires e in Wrote(w, op) && e.Said? && e.out.Escalated?
    ensures op.Tick?
  {
    var r := ReadingOf(w.now, op);
    EscalatedByClimbing(w.core, ActsOf(w.core, op, r), r, e);
    var steps :| Change(e.out.key, Climb(e.out.to, steps)) in ActsOf(w.core, op, r);
    OnlyTicksClimb(w.core, op, r, Change(e.out.key, Climb(e.out.to, steps)));
  }

  lemma {:induction false} OnlyTicksClimb(c: Core, op: Op, r: Reading, act: Act)
    requires act in ActsOf(c, op, r) && act.Change? && act.edit.Climb?
    ensures op.Tick?
  {
    match op
    case Consume(event, _, mode) => ConsumeOnlyRaises(c, event, r, mode);
    case SettleAnnouncements(settled) => SettlingOnlySettles(c, settled);
    case _ =>
  }

  lemma {:induction false} StepsTakeTime(rule: RuleId, i: nat)
    requires i < |Policy(rule).steps|
    ensures Policy(rule).steps[i].after > 0
  {
  }

  /** An interval that has run so long at a reading started so long before it. */
  lemma {:induction false} RanSoLong(e: Elapsed, at: Reading, after: nat)
    requires e.already <= e.anchor && after > 0 && e.Ms(at) >= after
    ensures Monus(e.anchor, e.already) + after <= at.ms
  {
  }

  /** The state a tick climbs in: what its reminders left. */
  ghost function Climbing(w: World, op: Op): Core
    requires op.Tick?
  {
    Passes(w.core, op.r, op.certified).reminded
  }

  /** The physical moment the item a tick is about to climb is counted from. */
  ghost function ClimbedFrom(w: World, op: Op, k: Key): nat
    requires op.Tick? && k in Climbing(w, op).items
  {
    w.At(op.r.boot, Monus(Climbing(w, op).items[k].age.anchor, Climbing(w, op).items[k].age.already))
  }

  lemma {:induction false} BirthInTheTick(w: World, op: Op, k: Key)
    requires op.Tick? && Timely(w, op) && k in Climbing(w, op).items
    ensures || (k in w.core.items && ClimbedFrom(w, op, k) == CountedFrom(w, k))
            || (RaisedIn(Wrote(w, op), k) && ClimbedFrom(w, op, k) == BirthIn(w, op))
  {
    AgeInTheTick(w.core, op.r, op.certified, k);
  }

  /** The call that raised an item as a tick climbs it: an earlier one, or the tick itself. */
  lemma {:induction false} BornByTheClimb(start: World, ops: seq<Op>, n: nat, k: Key) returns (i: nat)
    requires FromEmpty(start, ops) && n < |ops| && ops[n].Tick? && k in Climbing(Before(start, ops, n), ops[n]).items
    ensures i <= n && RaisedAt(start, ops, i, k)
    ensures forall m :: i < m < n ==> !RaisedAt(start, ops, m, k)
    ensures BirthIn(Before(start, ops, i), ops[i]) <= ClimbedFrom(Before(start, ops, n), ops[n], k)
  {
    var w := Before(start, ops, n);
    TimelyAt(start, ops, n);
    BirthInTheTick(w, ops[n], k);
    if k in w.core.items && ClimbedFrom(w, ops[n], k) == CountedFrom(w, k) {
      i := BornBy(start, ops, n, k);
    } else {
      i := n;
    }
  }

  /** An item a tick is about to climb is one it has just raised, or is counted from where it was. */
  lemma {:induction false} AgeInTheTick(c: Core, r: Reading, certified: map<Origin, nat>, k: Key)
    requires k in Passes(c, r, certified).reminded.items
    ensures var age := Passes(c, r, certified).reminded.items[k].age;
            if k in c.items && age == c.items[k].age then true
            else RaisedIn(Trace(c, TickActs(c, r, certified), r), k) && Monus(age.anchor, age.already) == r.ms
  {
    var qs := SortedQuestions(DueQuestions(c, r, certified));
    var reminders := RemindActs(c, qs, r, certified);
    RemindersEnter(c, qs, r, certified);
    AgeAfter(c, reminders, r, k, r.Anchored());
    TickSplits(c, r, certified);
    var c1 := Exec(c, reminders, r);
    ExecConcat(c, map[], reminders, TickRest(c1, r, certified), r);
    RaisedInEither(Trace(c, reminders, r), Trace(c1, TickRest(c1, r, certified), r), k);
  }

  /** What an escalation says of the tick that wrote it: the reading it is decided at, the step it takes,
      and that the item's age, on the physical time line, had passed the step's threshold by then. */
  lemma {:induction false} EscalatedInTime(w: World, op: Op, e: Entry) returns (at: Reading, step: nat)
    requires Consistent(w.core, w.now) && Timely(w, op) && op.Tick?
    requires e in Wrote(w, op) && e.Said? && e.out.Escalated?
    ensures var c, k := Climbing(w, op), e.out.key;
            && k in c.items && DecidedAt(c, op.r, op.certified, c.items[k].about.origin, at)
            && step < |Policy(k.rule).steps| && Policy(k.rule).steps[step].level == e.out.to
            && ClimbedFrom(w, op, k) + Policy(k.rule).steps[step].after <= w.Of(at)
  {
    at, step := EscalationFellDue(w.core, op.r, op.certified, e);
    LaterKeepsConsistent(w.core, w.now, op.r);
    TickEnabled(w.core, op.r, op.certified);
    var k := e.out.key;
    StepsTakeTime(k.rule, step);
    RanSoLong(Climbing(w, op).items[k].age, at, Policy(k.rule).steps[step].after);
  }

  // ---- restarts ----------------------------------------------------------------------------

  /** A restart in the same boot keeps where an item's age and its last announcement are counted from; one in
      another boot counts both from the restart. */
  lemma {:induction false} RestartKeepsIntervals(item: Item, now: Reading, r: Reading)
    requires ItemTimed(item, now) && (r.boot == now.boot ==> now.ms <= r.ms)
    ensures var after := ReanchoredItem(item, r);
            && after.age.Began(r.ms) && after.age.Start() == (if r.boot == now.boot then item.age.Start() else r.ms)
            && (after.ann.since.Some? <==> item.ann.since.Some?)
            && (item.ann.since.Some? ==>
                  && after.ann.since.value.Began(r.ms)
                  && after.ann.since.value.Start() == (if r.boot == now.boot then item.ann.since.value.Start() else r.ms))
            && after == item.(age := after.age, anchor := after.anchor, ann := item.ann.(since := after.ann.since, anchor := after.ann.anchor))
  {
  }
}
