/** A run of the engine after which a device is shown a reminder and not the question it is dated by, so
    that the hidden question is not to the device as if it were absent. */
module HiddenQuestion {
  import opened Common
  import opened Time
  import opened Rules
  import opened Events
  import opened EngineModel
  import opened Scope
  import opened Runs
  import opened Guards
  import opened Calls
  import opened LiveReplay
  import opened Disclosure
  import opened RunLog
  import opened Soundness

  // ---- what asking and ticking leave -------------------------------------------------------

  /** What a raise leaves of the item it raises. */
  function RaisedAs(c: Core, raise: Raise): (About, nat) {
    if raise.key in c.items
    then (c.items[raise.key].about.(text := raise.about.text, routing := raise.about.routing,
                                    source := raise.about.source, origin := raise.about.origin),
          c.items[raise.key].firstSeen)
    else (raise.about, raise.at)
  }

  /** Everything but announcing is as one raise leaves it. */
  ghost predicate LeftBy(c: Core, d: Core, raise: Raise) {
    && d.items.Keys == c.items.Keys + {raise.key} && d.pending == c.pending
    && d.consumed == c.consumed && d.finalised == c.finalised
    && (d.items[raise.key].about, d.items[raise.key].firstSeen) == RaisedAs(c, raise)
    && forall k :: k in c.items && k != raise.key ==>
         d.items[k].about == c.items[k].about && d.items[k].firstSeen == c.items[k].firstSeen
  }

  lemma {:induction false} PlainRaiseLeaves(c: Core, raise: Raise, r: Reading)
    ensures var act := if raise.key in c.items then Change(raise.key, Repeat(raise)) else Enter(raise);
            LeftBy(c, Apply(c, act, r), raise)
  {
  }

  lemma {:induction false} AgreeingIsLeft(c: Core, d: Core, e: Core, raise: Raise)
    requires LeftBy(c, d, raise) && Agree(e, d)
    ensures LeftBy(c, e, raise)
  {
  }

  lemma {:induction false} RaiseLeaves(c: Core, raise: Raise, r: Reading, mode: Mode)
    requires |c.items| < MAX_ITEMS
    ensures LeftBy(c, Exec(c, RaiseActs(c, raise, r, mode), r), raise)
  {
    var act := if raise.key in c.items then Change(raise.key, Repeat(raise)) else Enter(raise);
    RaiseIsPlain(c, raise, r, mode);
    PlainRaiseLeaves(c, raise, r);
    AgreeingIsLeft(c, Apply(c, act, r), Exec(c, RaiseActs(c, raise, r, mode), r), raise);
  }

  /** The raise a question's event stands for. */
  function QuestionRaise(digest: Subject -> nat, e: Event): Raise
    requires e.kind.QuestionPending? && e.cursor.origin.Session?
  {
    Raise(KeyFor(digest, PendingInput, QuestionOf(e.kind.question)),
          About(PendingInput, e.cursor.source, e.cursor.origin, Some(e.kind.session), Record(e.cursor), None, None, OwnerPolicy),
          e.at, e.atAnchor)
  }

  lemma {:induction false} AskingLeaves(c: Core, e: Event, r: Reading, mode: Mode)
    requires e.kind.QuestionPending? && e.kind.verified && e.cursor.origin.Session?
    requires Takes(c, e.cursor) && e.cursor.sequence <= NextSequence(c, e.cursor.origin, e.cursor.source)
    requires |c.items| < MAX_ITEMS && |c.pending| < MAX_PENDING
    ensures var d := Exec(c, ConsumeActs(c, e, r, mode), r);
            var raise := QuestionRaise(c.digest, e);
            && d.items.Keys == c.items.Keys + {raise.key}
            && d.pending == c.pending[e.kind.question := RequestIn(e, r).value.wait]
            && d.consumed == c.consumed[(e.cursor.origin, e.cursor.source) := e.cursor.sequence]
            && d.finalised == c.finalised
            && (d.items[raise.key].about, d.items[raise.key].firstSeen) == RaisedAs(c, raise)
  {
    var raise := QuestionRaise(c.digest, e);
    var plan := PlanOf(c.digest, e);
    assert plan.raise == raise && plan.AskOne?;
    var asked := Advance(e.cursor, Some(AskedBy(e.cursor, plan, r)));
    assert AskedBy(e.cursor, plan, r) == RequestIn(e, r).value;
    var c1 := Apply(c, asked, r);
    assert MissedActs(c, e.cursor) == [] && PendingBoundActs(c, e.kind.question, r) == [];
    AskActs(c, e, r, mode, asked);
    RaiseLeaves(c1, raise, r, mode);
    OneExec(c, asked, RaiseActs(c1, raise, r, mode), r);
  }

  lemma {:induction false} AskActs(c: Core, e: Event, r: Reading, mode: Mode, asked: Act)
    requires e.kind.QuestionPending? && e.kind.verified && Takes(c, e.cursor)
    requires MissedActs(c, e.cursor) == [] && PendingBoundActs(c, e.kind.question, r) == []
    requires asked == Advance(e.cursor, Some(AskedBy(e.cursor, PlanOf(c.digest, e), r)))
    ensures ConsumeActs(c, e, r, mode) ==
            [asked] + RaiseActs(Apply(c, asked, r), PlanOf(c.digest, e).raise, r, mode)
  {
    var plan := PlanOf(c.digest, e);
    assert [] + [asked] == [asked];
    OneExec(c, asked, [], r);
    assert [asked] + [] == [asked];
    assert PlanActs(c, e.cursor, plan, r, mode) == [asked] + RaiseActs(Apply(c, asked, r), plan.raise, r, mode);
    assert [] + PlanActs(c, e.cursor, plan, r, mode) == PlanActs(c, e.cursor, plan, r, mode);
  }

  /** A tick with one request due, in a small inbox, adds its reminder and keeps what everything is about. */
  lemma {:induction false} TickLeaves(c: Core, q: QuestionId, r: Reading, certified: map<Origin, nat>)
    requires Consistent(c, r) && |c.items| < MAX_ITEMS - 1 && DueQuestions(c, r, certified) == {q}
    ensures var d := Exec(c, TickActs(c, r, certified), r);
            var raise := ReminderOf(c.digest, q, c.pending[q].session, c.pending[q].record, r);
            && d.items.Keys == c.items.Keys + {raise.key}
            && (raise.key !in c.items ==> d.items[raise.key].about == raise.about)
            && forall k :: k in c.items && k != raise.key ==>
                 d.items[k].about == c.items[k].about && d.items[k].firstSeen == c.items[k].firstSeen
  {
    var p := Passes(c, r, certified);
    TickEnabled(c, r, certified);
    RemindPassLeaves(c, q, r, certified);
    PassesKeepWhatItIsAbout(p, r, certified);
    NothingToLetGo(c, p.decided, ReminderOf(c.digest, q, c.pending[q].session, c.pending[q].record, r).key, r);
  }

  lemma {:induction false} NothingToLetGo(c: Core, d: Core, k: Key, r: Reading)
    requires d.items.Keys == c.items.Keys + {k} && |c.items| < MAX_ITEMS
    ensures Exec(d, BoundActs(d, r), r) == d
  {
    assert |d.items.Keys| <= |c.items.Keys| + 1;
  }

  lemma {:induction false} RemindPassLeaves(c: Core, q: QuestionId, r: Reading, certified: map<Origin, nat>)
    requires |c.items| < MAX_ITEMS - 1 && DueQuestions(c, r, certified) == {q}
    ensures var d := Passes(c, r, certified).reminded;
            var raise := ReminderOf(c.digest, q, c.pending[q].session, c.pending[q].record, r);
            && d.items.Keys == c.items.Keys + {raise.key}
            && (raise.key !in c.items ==> d.items[raise.key].about == raise.about)
            && forall k :: k in c.items && k != raise.key ==>
                 d.items[k].about == c.items[k].about && d.items[k].firstSeen == c.items[k].firstSeen
  {
    assert q in DueQuestions(c, r, certified);
    var acts := RemindOneActs(c, q, r, certified);
    OnlyQuestion(q);
    RemindActsFirst(c, [q], r, certified);
    assert [q][1..] == [] && RemindActs(c, [q], r, certified) == acts + [] && acts + [] == acts;
    var remind := acts[0];
    var raise := ReminderOf(c.digest, q, c.pending[q].session, c.pending[q].record, r);
    RaiseLeaves(Apply(c, remind, r), raise, r, Live);
    OneExec(c, remind, RaiseActs(Apply(c, remind, r), raise, r, Live), r);
  }

  lemma {:induction false} OnlyQuestion(q: QuestionId)
    ensures SortedQuestions({q}) == [q]
  {
    assert forall x :: LeastQuestion({q}, x) <==> x == q;
    assert {q} - {q} == {};
  }

  lemma {:induction false} PassesKeepWhatItIsAbout(p: TickStates, r: Reading, certified: map<Origin, nat>)
    requires PassesDone(p, r, certified)
    ensures p.decided.items.Keys == p.reminded.items.Keys
    ensures forall k :: k in p.reminded.items ==>
              && p.decided.items[k].about == p.reminded.items[k].about
              && p.decided.items[k].firstSeen == p.reminded.items[k].firstSeen
  {
    forall k | k in p.reminded.items
      ensures k in p.decided.items && p.decided.items[k].about == p.reminded.items[k].about
      ensures p.decided.items[k].firstSeen == p.reminded.items[k].firstSeen
    {
      assert p.climbed.items[k] == Climbed(p.reminded, k, r, certified);
      assert Visited(p.climbed, p.decided.items[k], k, r, certified);
    }
  }

  // ---- the run -----------------------------------------------------------------------------

  const ASKED := Cursor(Session(1), Questions, 1)
  const ASKED_AGAIN := Cursor(Session(1), Questions, 2)
  const BEGINNING := Reading(0, 0, 0, true, None)
  const IDLE := Reading(0, IDLE_REMINDER_MS, IDLE_REMINDER_MS, true, None)

  /** A question recorded in session 1, first said to be session 2's and then session 1's own; and a tick
      once it has waited out its interval. */
  ghost predicate TwiceAsked(ops: seq<Op>) {
    && |ops| == 3
    && ops[0] == Op.Consume(Event(ASKED, 0, None, QuestionPending(0, 2, true, 0, None)), BEGINNING, Live)
    && ops[1] == Op.Consume(Event(ASKED_AGAIN, 0, None, QuestionPending(0, 1, true, 0, None)), BEGINNING, Live)
    && ops[2] == Op.Tick(IDLE, map[Session(1) := IDLE_REMINDER_MS])
  }

  function QuestionKey(digest: Subject -> nat): Key { KeyFor(digest, PendingInput, QuestionOf(0)) }
  function ReminderKey(digest: Subject -> nat): Key { KeyFor(digest, InputIdleReminder, QuestionOf(0)) }

  lemma {:induction false} RunOfThree(start: World, ops: seq<Op>)
    requires |ops| == 3
    ensures Run(start, ops[..2]) == Step(Step(start, ops[0]), ops[1])
    ensures Run(start, ops) == Step(Run(start, ops[..2]), ops[2])
  {
    RunLast(start, ops);
    RunLast(start, ops[..2]);
    RunLast(start, ops[..1]);
    assert ops[..2][..1] == ops[..1] && ops[..1][..0] == [];
  }

  lemma {:induction false} TwiceAskedIsTimely(start: World, ops: seq<Op>)
    requires start.now == BEGINNING && TwiceAsked(ops)
    ensures TimelyRun(start, ops)
  {
    var w1 := Step(start, ops[0]);
    var w2 := Step(w1, ops[1]);
    StepIsExec(start, ops[0]);
    StepIsExec(w1, ops[1]);
    assert TimelyRun(Step(w2, ops[2]), []);
    assert ops[1..][1..][1..] == [] && ops[1..][1..][0] == ops[2] && ops[1..][0] == ops[1];
    assert TimelyRun(w2, ops[1..][1..]);
    assert TimelyRun(w1, ops[1..]);
  }

  lemma {:induction false} AfterFirstAsking(start: World, ops: seq<Op>)
    requires start == Start(start.core.digest, BEGINNING, start.epoch) && TwiceAsked(ops)
    ensures var w := Step(start, ops[0]);
            var q := QuestionKey(start.core.digest);
            && |w.core.items| == 1 && w.core.items.Keys == {q} && |w.core.pending| == 1 && w.core.pending.Keys == {0}
            && w.now == BEGINNING && w.core.finalised == {} && w.core.digest == start.core.digest
            && w.core.consumed == map[(ASKED.origin, ASKED.source) := ASKED.sequence]
            && w.core.items[q].about == QuestionRaise(start.core.digest, ops[0].event).about && w.core.items[q].firstSeen == 0
  {
    AskingLeaves(start.core, ops[0].event, BEGINNING, Live);
    StepIsExec(start, ops[0]);
    StepKeepsDigest(start, ops[0]);
    var w := Step(start, ops[0]);
    assert |w.core.items.Keys| == 1 && |w.core.pending.Keys| == 1;
  }

  /** What the two questions leave: one item that still names session 2, and a wait that names session 1. */
  lemma {:induction false} AfterAsking(start: World, ops: seq<Op>)
    requires start == Start(start.core.digest, BEGINNING, start.epoch) && TwiceAsked(ops)
    ensures var q := QuestionKey(start.core.digest);
            var w := Step(Step(start, ops[0]), ops[1]);
            && w.core.items.Keys == {q} && w.core.pending.Keys == {0} && w.now == BEGINNING
            && NamesAnotherSession(w.core, q) && w.core.finalised == {} && w.core.digest == start.core.digest
            && w.core.pending[0] == Wait(1, ASKED_AGAIN, 0, Elapsed(0, 0), false, Some(Anchor(0, 0)))
  {
    var w1 := Step(start, ops[0]);
    AfterFirstAsking(start, ops);
    AskingLeaves(w1.core, ops[1].event, BEGINNING, Live);
    StepIsExec(w1, ops[1]);
    StepKeepsDigest(w1, ops[1]);
  }

  /** A device that may see session 1 alone. */
  function OneSession(): Viewer { Device(0, true, false, false, (s: SessionId) => s == 1, 0) }

  /** The question's item, as both the asking and the tick leave it. */
  ghost predicate NamesAnotherSession(c: Core, q: Key) {
    && q in c.items && c.items[q].about.rule == PendingInput && c.items[q].about.session == Some(2)
    && c.items[q].about.origin == Session(1) && c.items[q].about.text == Record(ASKED_AGAIN) && c.items[q].firstSeen == 0
  }

  lemma {:induction false} TickOverOne(c: Core, certified: map<Origin, nat>)
    requires Consistent(c, IDLE) && c.items.Keys == {QuestionKey(c.digest)}
    requires NamesAnotherSession(c, QuestionKey(c.digest)) && DueQuestions(c, IDLE, certified) == {0}
    requires c.pending[0].session == 1 && c.pending[0].record == ASKED_AGAIN
    ensures var d, q, k := Exec(c, TickActs(c, IDLE, certified), IDLE), QuestionKey(c.digest), ReminderKey(c.digest);
            && d.items.Keys == {q, k} && NamesAnotherSession(d, q)
            && d.items[k].about == ReminderOf(c.digest, 0, 1, ASKED_AGAIN, IDLE).about
  {
    assert |c.items.Keys| == 1;
    TickLeaves(c, 0, IDLE, certified);
  }

  lemma {:induction false} AfterTheTick(start: World, ops: seq<Op>)
    requires start == Start(start.core.digest, BEGINNING, start.epoch) && TwiceAsked(ops)
    ensures var q, k := QuestionKey(start.core.digest), ReminderKey(start.core.digest);
            var c := Run(start, ops).core;
            && c.items.Keys == {q, k} && NamesAnotherSession(c, q)
            && c.items[k].about == ReminderOf(start.core.digest, 0, 1, ASKED_AGAIN, IDLE).about
  {
    RunOfThree(start, ops);
    AfterAsking(start, ops);
    ConsistentAtTheTick(start, ops);
    var w := Run(start, ops[..2]);
    OneIsDue(w.core, ops[2].certified);
    TickOverOne(w.core, ops[2].certified);
    StepIsExec(w, ops[2]);
  }

  lemma {:induction false} ConsistentAtTheTick(start: World, ops: seq<Op>)
    requires start == Start(start.core.digest, BEGINNING, start.epoch) && TwiceAsked(ops)
    requires Run(start, ops[..2]).now == BEGINNING
    ensures Consistent(Run(start, ops[..2]).core, IDLE)
  {
    TwiceAskedIsTimely(start, ops);
    SoundBefore(start, ops, 2);
    LaterKeepsConsistent(Run(start, ops[..2]).core, BEGINNING, IDLE);
  }

  lemma {:induction false} OneIsDue(c: Core, certified: map<Origin, nat>)
    requires c.pending.Keys == {0} && c.pending[0] == Wait(1, ASKED_AGAIN, 0, Elapsed(0, 0), false, Some(Anchor(0, 0)))
    requires c.finalised == {} && certified == map[Session(1) := IDLE_REMINDER_MS]
    ensures DueQuestions(c, IDLE, certified) == {0}
  {
    assert CertifiedAt(c, IDLE, certified, Session(1)).Some?;
    assert ReminderDue(c, IDLE, certified, 0);
  }

  /** A run from an empty store after which taking out what a device is not shown takes away a reminder it
      is shown: the question the reminder is dated by names a session the device may not see. */
  lemma {:induction false} HiddenQuestionHidesItsReminder(start: World, ops: seq<Op>)
    requires start == Start(start.core.digest, BEGINNING, start.epoch) && TwiceAsked(ops)
    ensures FromEmpty(start, ops)
    ensures var c, viewer, k := Run(start, ops).core, OneSession(), ReminderKey(start.core.digest);
            && k in Shown(c, viewer) && QuestionKey(start.core.digest) !in Shown(c, viewer)
            && IsReminder(c.items[k]) && !QuestionIsShown(c, viewer, c.items[k])
            && Shown(OnlyShown(c, viewer), viewer) != Shown(c, viewer)
  {
    var c, viewer := Run(start, ops).core, OneSession();
    var q, k := QuestionKey(start.core.digest), ReminderKey(start.core.digest);
    TwiceAskedIsTimely(start, ops);
    AfterTheTick(start, ops);
    ReminderWithoutItsQuestion(c, q, k);
    HiddenIsAbsent(c, viewer);
  }

  lemma {:induction false} ReminderWithoutItsQuestion(c: Core, q: Key, k: Key)
    requires c.items.Keys == {q, k} && q != k
    requires NamesAnotherSession(c, q)
    requires var about := c.items[k].about;
             && about.rule == InputIdleReminder && about.session == Some(1) && about.origin == Session(1)
             && about.text == Record(ASKED_AGAIN)
    ensures k in Shown(c, OneSession()) && q !in Shown(c, OneSession())
    ensures !QuestionIsShown(c, OneSession(), c.items[k])
  {
    assert AskedIn(c, ASKED_AGAIN) == {q};
    assert LeastKey({q}, q) by { LeastKeyExists({q}); }
    assert Dated(c, c.items[k]) == Some(0);
  }
}
