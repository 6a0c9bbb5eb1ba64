/** Live and replay agree on everything but what was announced, a replay announces nothing, and a
    record consumed once is never consumed again. */
module LiveReplay {
  import opened Common
  import opened Time
  import opened Events
  import opened EngineModel
  import opened Runs
  import opened Guards

  /** Two states that differ at most in what was announced. */
  ghost predicate Agree(c: Core, d: Core) {
    && d == c.(items := d.items, nextAnnouncement := d.nextAnnouncement)
    && d.items.Keys == c.items.Keys
    && forall k :: k in c.items ==> d.items[k] == c.items[k].(ann := d.items[k].ann)
  }

  lemma {:induction false} AgreeJoins(c: Core, d: Core, e: Core)
    requires Agree(c, d) && Agree(d, e)
    ensures Agree(c, e)
  {
  }

  lemma {:induction false} AgreeTurns(c: Core, d: Core)
    requires Agree(c, d)
    ensures Agree(d, c)
  {
  }

  /** An edit of the announcing half of an item alone. */
  predicate OnAnnouncing(edit: Edit) {
    edit.Undecide? || edit.Suppress? || edit.Announce?
  }

  lemma {:induction false} AnnouncingAgrees(c: Core, k: Key, edit: Edit, r: Reading)
    requires k in c.items && OnAnnouncing(edit)
    ensures Agree(Apply(c, Change(k, edit), r), c)
  {
  }

  /** An act that reads nothing about announcing. */
  predicate Plain(act: Act) {
    act.RecordGap? || act.Advance? || act.Unask? || act.Enter? || act.Leave? || (act.Change? && act.edit.Repeat?)
  }

  lemma {:induction false} PlainKeepsAgreement(c: Core, d: Core, act: Act, r: Reading)
    requires Agree(c, d) && Plain(act)
    ensures Agree(Apply(c, act, r), Apply(d, act, r))
  {
    if act.Enter? {
    } else if act.Leave? {
    } else if act.Change? {
    } else {
      OutsideInboxAgrees(c, d, act, r);
    }
  }

  lemma {:induction false} OutsideInboxAgrees(c: Core, d: Core, act: Act, r: Reading)
    requires Agree(c, d) && (act.RecordGap? || act.Advance? || act.Unask?)
    ensures Agree(Apply(c, act, r), Apply(d, act, r))
  {
  }

  lemma {:induction false} PlainListAgrees(c: Core, d: Core, acts: seq<Act>, r: Reading)
    requires Agree(c, d) && forall act :: act in acts ==> Plain(act)
    ensures Agree(Exec(c, acts, r), Exec(d, acts, r))
    decreases |acts|
  {
    if acts != [] {
      PlainKeepsAgreement(c, d, acts[0], r);
      PlainListAgrees(Apply(c, acts[0], r), Apply(d, acts[0], r), acts[1..], r);
    }
  }

  lemma {:induction false} PendingBoundAgrees(c: Core, d: Core, keep: QuestionId, r: Reading)
    requires c.pending == d.pending
    ensures PendingBoundActs(c, keep, r) == PendingBoundActs(d, keep, r)
    decreases |c.pending|
  {
    var a, b := Oldest(c, keep), Oldest(d, keep);
    assert forall q :: Forgettable(c, keep, q) <==> Forgettable(d, keep, q);
    assert forall q :: IsOldest(c, keep, q) <==> IsOldest(d, keep, q);
    if a.Some? {
      assert b.Some?;
      OldestUnique(c, keep, a.value, b.value);
      FewerPending(c, a.value, r);
      PendingBoundAgrees(Apply(c, Unask(a.value, false), r), Apply(d, Unask(a.value, false), r), keep, r);
    }
  }

  /** Whether a raise leaves the inbox inside its bound. */
  ghost predicate RoomFor(c: Core, raise: Raise) {
    raise.key in c.items || |c.items| < MAX_ITEMS
  }

  /** What a raise leaves, announcing aside, is its one plain act, whatever the mode. */
  lemma {:induction false} RaiseIsPlain(c: Core, raise: Raise, r: Reading, mode: Mode)
    requires RoomFor(c, raise)
    ensures var act := if raise.key in c.items then Change(raise.key, Repeat(raise)) else Enter(raise);
            Agree(Exec(c, RaiseActs(c, raise, r, mode), r), Apply(c, act, r))
  {
    if raise.key in c.items {
      var first := Change(raise.key, Repeat(raise));
      var acts := RaiseActs(c, raise, r, mode);
      assert acts == [first] + acts[1..];
      ThenAnnouncing(c, first, acts[1..], raise.key, r);
    } else {
      RoomIsEnough(c, raise, r);
      var acts := RaiseActs(c, raise, r, mode);
      assert acts == [Enter(raise)] + acts[1..];
      ThenAnnouncing(c, Enter(raise), acts[1..], raise.key, r);
    }
  }

  lemma {:induction false} RoomIsEnough(c: Core, raise: Raise, r: Reading)
    requires raise.key !in c.items && |c.items| < MAX_ITEMS
    ensures BoundActs(Apply(c, Enter(raise), r), r) == []
  {
    var c1 := Apply(c, Enter(raise), r);
    assert c1.items.Keys == c.items.Keys + {raise.key};
    assert |c1.items.Keys| <= MAX_ITEMS;
  }

  lemma {:induction false} ThenAnnouncing(c: Core, act: Act, rest: seq<Act>, k: Key, r: Reading)
    requires k in Apply(c, act, r).items && |rest| <= 1
    requires forall a :: a in rest ==> a.Change? && a.key == k && OnAnnouncing(a.edit)
    ensures Agree(Exec(c, [act] + rest, r), Apply(c, act, r))
  {
    var c1 := Apply(c, act, r);
    OneExec(c, act, rest, r);
    if rest != [] {
      assert rest == [rest[0]];
      OneExec(c1, rest[0], [], r);
      assert rest[0] in rest && [rest[0]] + [] == rest;
      AnnouncingAgrees(c1, k, rest[0].edit, r);
    }
  }

  lemma {:induction false} RaiseAgrees(c: Core, d: Core, raise: Raise, r: Reading)
    requires Agree(c, d) && RoomFor(d, raise)
    ensures Agree(Exec(c, RaiseActs(c, raise, r, Live), r), Exec(d, RaiseActs(d, raise, r, Replay), r))
  {
    assert |c.items| == |c.items.Keys| && |d.items| == |d.items.Keys|;
    var act := if raise.key in c.items then Change(raise.key, Repeat(raise)) else Enter(raise);
    RaiseIsPlain(c, raise, r, Live);
    RaiseIsPlain(d, raise, r, Replay);
    PlainKeepsAgreement(c, d, act, r);
    AgreeTurns(Exec(d, RaiseActs(d, raise, r, Replay), r), Apply(d, act, r));
    AgreeJoins(Exec(c, RaiseActs(c, raise, r, Live), r), Apply(c, act, r), Apply(d, act, r));
    AgreeJoins(Exec(c, RaiseActs(c, raise, r, Live), r), Apply(d, act, r), Exec(d, RaiseActs(d, raise, r, Replay), r));
  }

  /** The state an event's raise is made in. */
  ghost function BeforeRaise(c: Core, cursor: Cursor, plan: Plan, r: Reading): Core {
    match plan
    case RaiseOne(_) => Apply(c, Advance(cursor, None), r)
    case AskOne(q, _, _, _, _) =>
      Exec(c, PendingBoundActs(c, q, r) + [Advance(cursor, Some(AskedBy(cursor, plan, r)))], r)
    case _ => c
  }

  ghost predicate RoomForPlan(c: Core, cursor: Cursor, plan: Plan, r: Reading) {
    plan.RaiseOne? || plan.AskOne? ==> RoomFor(BeforeRaise(c, cursor, plan, r), plan.raise)
  }

  lemma {:induction false} PlanAgrees(c: Core, d: Core, cursor: Cursor, plan: Plan, r: Reading)
    requires Agree(c, d) && RoomForPlan(d, cursor, plan, r)
    ensures Agree(Exec(c, PlanActs(c, cursor, plan, r, Live), r), Exec(d, PlanActs(d, cursor, plan, r, Replay), r))
  {
    match plan
    case RaiseOne(raise) =>
      var took := Advance(cursor, None);
      var c1, d1 := Apply(c, took, r), Apply(d, took, r);
      PlainKeepsAgreement(c, d, took, r);
      RaiseAgrees(c1, d1, raise, r);
      OneExec(c, took, RaiseActs(c1, raise, r, Live), r);
      OneExec(d, took, RaiseActs(d1, raise, r, Replay), r);
    case AskOne(q, _, _, _, raise) =>
      PendingBoundAgrees(c, d, q, r);
      var asks := PendingBoundActs(c, q, r) + [Advance(cursor, Some(AskedBy(cursor, plan, r)))];
      var c1, d1 := Exec(c, asks, r), Exec(d, asks, r);
      PlainListAgrees(c, d, asks, r);
      RaiseAgrees(c1, d1, raise, r);
      ExecConcat(c, map[], asks, RaiseActs(c1, raise, r, Live), r);
      ExecConcat(d, map[], asks, RaiseActs(d1, raise, r, Replay), r);
    case _ =>
      PlainListAgrees(c, d, PlanActs(c, cursor, plan, r, Live), r);
  }

  ghost predicate RoomForEvent(c: Core, e: Event, r: Reading) {
    Takes(c, e.cursor) ==>
      var c1 := Exec(c, MissedActs(c, e.cursor), r);
      RoomForPlan(c1, e.cursor, PlanOf(c1.digest, e), r)
  }

  lemma {:induction false} ConsumeAgrees(c: Core, d: Core, e: Event, r: Reading)
    requires Agree(c, d) && RoomForEvent(d, e, r)
    ensures Agree(Exec(c, ConsumeActs(c, e, r, Live), r), Exec(d, ConsumeActs(d, e, r, Replay), r))
  {
    if Takes(c, e.cursor) {
      var missed := MissedActs(c, e.cursor);
      assert missed == MissedActs(d, e.cursor);
      PlainListAgrees(c, d, missed, r);
      var c1, d1 := Exec(c, missed, r), Exec(d, missed, r);
      PlanAgrees(c1, d1, e.cursor, PlanOf(d1.digest, e), r);
      ExecConcat(c, map[], missed, DecideActs(c1, e, r, Live), r);
      ExecConcat(d, map[], missed, DecideActs(d1, e, r, Replay), r);
    }
  }

  // ---- the acknowledgements ----------------------------------------------------------------

  lemma {:induction false} EditsKeepAcks(c: Core, acks: Acks, acts: seq<Act>, r: Reading)
    requires forall act :: act in acts ==> act.Change?
    ensures ExecAcks(c, acks, acts, r) == acks
    decreases |acts|
  {
    if acts != [] {
      assert acts[0].Change?;
      EditsKeepAcks(Apply(c, acts[0], r), acks, acts[1..], r);
    }
  }

  lemma {:induction false} PlainListAcks(c: Core, d: Core, acks: Acks, acts: seq<Act>, r: Reading)
    requires Agree(c, d) && forall act :: act in acts ==> Plain(act)
    ensures ExecAcks(c, acks, acts, r) == ExecAcks(d, acks, acts, r)
    decreases |acts|
  {
    if acts != [] {
      assert Plain(acts[0]);
      PlainKeepsAgreement(c, d, acts[0], r);
      PlainListAcks(Apply(c, acts[0], r), Apply(d, acts[0], r), ApplyToAcks(c, acks, acts[0], r), acts[1..], r);
    }
  }

  /** A raise leaves the acknowledgements of an item that stands, and takes those of one that starts. */
  lemma {:induction false} RaiseAcks(c: Core, acks: Acks, raise: Raise, r: Reading, mode: Mode)
    requires RoomFor(c, raise)
    ensures ExecAcks(c, acks, RaiseActs(c, raise, r, mode), r) ==
            if raise.key in c.items then acks else Without(acks, raise.key)
  {
    var acts := RaiseActs(c, raise, r, mode);
    if raise.key in c.items {
      EditsKeepAcks(c, acks, acts, r);
    } else {
      RoomIsEnough(c, raise, r);
      var c1, rest := Apply(c, Enter(raise), r), acts[1..];
      assert acts == [Enter(raise)] + rest && forall act :: act in rest ==> act.Change?;
      EditsKeepAcks(c1, Without(acks, raise.key), rest, r);
    }
  }

  lemma {:induction false} PlanAcks(c: Core, d: Core, acks: Acks, cursor: Cursor, plan: Plan, r: Reading)
    requires Agree(c, d) && RoomForPlan(d, cursor, plan, r)
    ensures ExecAcks(c, acks, PlanActs(c, cursor, plan, r, Live), r) ==
            ExecAcks(d, acks, PlanActs(d, cursor, plan, r, Replay), r)
  {
    match plan
    case RaiseOne(raise) =>
      RaisedAfter(c, d, acks, [Advance(cursor, None)], raise, r);
    case AskOne(q, _, _, _, raise) =>
      PendingBoundAgrees(c, d, q, r);
      RaisedAfter(c, d, acks, PendingBoundActs(c, q, r) + [Advance(cursor, Some(AskedBy(cursor, plan, r)))], raise, r);
    case _ =>
      PlainListAcks(c, d, acks, PlanActs(c, cursor, plan, r, Live), r);
  }

  lemma {:induction false} RaisedAfter(c: Core, d: Core, acks: Acks, first: seq<Act>, raise: Raise, r: Reading)
    requires Agree(c, d) && (forall act :: act in first ==> Plain(act)) && RoomFor(Exec(d, first, r), raise)
    ensures ExecAcks(c, acks, first + RaiseActs(Exec(c, first, r), raise, r, Live), r) ==
            ExecAcks(d, acks, first + RaiseActs(Exec(d, first, r), raise, r, Replay), r)
  {
    var c1, d1 := Exec(c, first, r), Exec(d, first, r);
    PlainListAgrees(c, d, first, r);
    PlainListAcks(c, d, acks, first, r);
    assert |c1.items| == |c1.items.Keys| && |d1.items| == |d1.items.Keys|;
    RaiseAcks(c1, ExecAcks(c, acks, first, r), raise, r, Live);
    RaiseAcks(d1, ExecAcks(d, acks, first, r), raise, r, Replay);
    ExecConcat(c, acks, first, RaiseActs(c1, raise, r, Live), r);
    ExecConcat(d, acks, first, RaiseActs(d1, raise, r, Replay), r);
  }

  lemma {:induction false} ConsumeAcks(c: Core, d: Core, acks: Acks, e: Event, r: Reading)
    requires Agree(c, d) && RoomForEvent(d, e, r)
    ensures ExecAcks(c, acks, ConsumeActs(c, e, r, Live), r) == ExecAcks(d, acks, ConsumeActs(d, e, r, Replay), r)
  {
    if Takes(c, e.cursor) {
      var missed := MissedActs(c, e.cursor);
      SameMissed(c, d, e.cursor);
      PlainListAgrees(c, d, missed, r);
      PlainListAcks(c, d, acks, missed, r);
      var c1, d1 := Exec(c, missed, r), Exec(d, missed, r);
      PlanAcks(c1, d1, ExecAcks(c, acks, missed, r), e.cursor, PlanOf(d1.digest, e), r);
      ConsumedAcks(c, acks, e, r, Live);
      ConsumedAcks(d, acks, e, r, Replay);
    }
  }

  lemma {:induction false} SameMissed(c: Core, d: Core, cursor: Cursor)
    requires Agree(c, d)
    ensures MissedActs(c, cursor) == MissedActs(d, cursor) && forall act :: act in MissedActs(c, cursor) ==> Plain(act)
    ensures Takes(c, cursor) == Takes(d, cursor)
  {
  }

  lemma {:induction false} ConsumedAcks(c: Core, acks: Acks, e: Event, r: Reading, mode: Mode)
    requires Takes(c, e.cursor)
    ensures var missed := MissedActs(c, e.cursor);
            var c1 := Exec(c, missed, r);
            ExecAcks(c, acks, ConsumeActs(c, e, r, mode), r) ==
            ExecAcks(c1, ExecAcks(c, acks, missed, r), PlanActs(c1, e.cursor, PlanOf(c1.digest, e), r, mode), r)
  {
    var missed := MissedActs(c, e.cursor);
    ExecConcat(c, acks, missed, DecideActs(Exec(c, missed, r), e, r, mode), r);
  }

  // ---- whole lists of events ---------------------------------------------------------------

  /** The engine's whole state: what it holds, and who has acknowledged what. */
  datatype Whole = Whole(core: Core, acks: Acks)

  /** Two whole states that differ at most in what was announced. */
  ghost predicate AgreeWholly(a: Whole, b: Whole) {
    Agree(a.core, b.core) && a.acks == b.acks
  }

  ghost function Fed(s: Whole, e: Event, r: Reading, mode: Mode): Whole {
    var acts := ConsumeActs(s.core, e, r, mode);
    Whole(Exec(s.core, acts, r), ExecAcks(s.core, s.acks, acts, r))
  }

  /** A list of events fed to the engine in one mode, each at its own reading. */
  ghost function Feed(s: Whole, events: seq<(Event, Reading)>, mode: Mode): Whole
    decreases |events|
  {
    if events == [] then s else Feed(Fed(s, events[0].0, events[0].1, mode), events[1..], mode)
  }

  /** The replayed inbox stays within its bound. */
  ghost predicate StaysWithinBound(s: Whole, events: seq<(Event, Reading)>)
    decreases |events|
  {
    events == [] ||
    (RoomForEvent(s.core, events[0].0, events[0].1) &&
     StaysWithinBound(Fed(s, events[0].0, events[0].1, Replay), events[1..]))
  }

  /** The same events at the same readings leave the same state and the same acknowledgements, live or
      replayed, once what was announced is taken out. */
  lemma {:induction false} LiveAndReplayAgree(a: Whole, b: Whole, events: seq<(Event, Reading)>)
    requires AgreeWholly(a, b) && StaysWithinBound(b, events)
    ensures AgreeWholly(Feed(a, events, Live), Feed(b, events, Replay))
    decreases |events|
  {
    if events != [] {
      var e, r := events[0].0, events[0].1;
      ConsumeAgrees(a.core, b.core, e, r);
      ConsumeAcks(a.core, b.core, a.acks, e, r);
      LiveAndReplayAgree(Fed(a, e, r, Live), Fed(b, e, r, Replay), events[1..]);
    }
  }

  // ---- a replay announces nothing ----------------------------------------------------------

  predicate Announcement(e: Entry) {
    e.Said? && (e.out.Notified? || e.out.Deferred? || e.out.Released?)
  }

  predicate Announces(act: Act) {
    act.Change? && act.edit.Announce?
  }

  lemma {:induction false} SilentAct(c: Core, act: Act, r: Reading)
    requires !Announces(act)
    ensures Apply(c, act, r).nextAnnouncement == c.nextAnnouncement
    ensures forall e :: e in Note(c, act, r) ==> !Announcement(e)
  {
  }

  lemma {:induction false} SilentActs(c: Core, acts: seq<Act>, r: Reading)
    requires forall act :: act in acts ==> !Announces(act)
    ensures Exec(c, acts, r).nextAnnouncement == c.nextAnnouncement
    ensures forall e :: e in Trace(c, acts, r) ==> !Announcement(e)
    decreases |acts|
  {
    if acts != [] {
      SilentAct(c, acts[0], r);
      SilentActs(Apply(c, acts[0], r), acts[1..], r);
    }
  }

  lemma {:induction false} ReplayRaisesSilently(c: Core, raise: Raise, r: Reading)
    ensures forall act :: act in RaiseActs(c, raise, r, Replay) ==> !Announces(act)
  {
  }

  /** A replay hands out no number and announces nothing. */
  lemma {:induction false} ReplayIsSilent(c: Core, e: Event, r: Reading)
    ensures Exec(c, ConsumeActs(c, e, r, Replay), r).nextAnnouncement == c.nextAnnouncement
    ensures forall x :: x in Trace(c, ConsumeActs(c, e, r, Replay), r) ==> !Announcement(x)
  {
    if Takes(c, e.cursor) {
      var c1 := Exec(c, MissedActs(c, e.cursor), r);
      var plan := PlanOf(c1.digest, e);
      if plan.RaiseOne? || plan.AskOne? { ReplayRaisesSilently(BeforeRaise(c1, e.cursor, plan, r), plan.raise, r); }
      assert forall act :: act in PlanActs(c1, e.cursor, plan, r, Replay) ==> !Announces(act);
    }
    SilentActs(c, ConsumeActs(c, e, r, Replay), r);
  }

  // ---- nothing is consumed twice -----------------------------------------------------------

  lemma {:induction false} ActKeepsSpentRecord(c: Core, act: Act, r: Reading, cursor: Cursor)
    requires !Takes(c, cursor) && Enabled(c, act, r)
    ensures !Takes(Apply(c, act, r), cursor)
  {
  }

  lemma {:induction false} ActsKeepSpentRecord(c: Core, acts: seq<Act>, r: Reading, cursor: Cursor)
    requires !Takes(c, cursor) && AllEnabled(c, acts, r)
    ensures !Takes(Exec(c, acts, r), cursor)
    decreases |acts|
  {
    if acts != [] {
      ActKeepsSpentRecord(c, acts[0], r, cursor);
      ActsKeepSpentRecord(Apply(c, acts[0], r), acts[1..], r, cursor);
    }
  }

  lemma {:induction false} ActsSpendRecord(c: Core, acts: seq<Act>, r: Reading, cursor: Cursor)
    requires AllEnabled(c, acts, r) && exists act :: act in acts && act.Advance? && act.cursor == cursor
    ensures !Takes(Exec(c, acts, r), cursor)
    decreases |acts|
  {
    var c1 := Apply(c, acts[0], r);
    if acts[0].Advance? && acts[0].cursor == cursor {
      ActsKeepSpentRecord(c1, acts[1..], r, cursor);
    } else {
      ActsSpendRecord(c1, acts[1..], r, cursor);
    }
  }

  lemma {:induction false} ConsumeSpendsRecord(c: Core, e: Event, r: Reading, mode: Mode)
    requires GapsBehind(c)
    ensures !Takes(Exec(c, ConsumeActs(c, e, r, mode), r), e.cursor)
  {
    if Takes(c, e.cursor) {
      ConsumeEnabled(c, e, r, mode);
      var c1 := Exec(c, MissedActs(c, e.cursor), r);
      AdvanceIsTaken(c1, e.cursor, PlanOf(c1.digest, e), r, mode);
      ActsSpendRecord(c, ConsumeActs(c, e, r, mode), r, e.cursor);
    }
  }

  lemma {:induction false} AdvanceIsTaken(c: Core, cursor: Cursor, plan: Plan, r: Reading, mode: Mode)
    ensures exists act :: act in PlanActs(c, cursor, plan, r, mode) && act.Advance? && act.cursor == cursor
  {
    var acts := PlanActs(c, cursor, plan, r, mode);
    if plan.AskOne? {
      var i := |PendingBoundActs(c, plan.question, r)|;
      assert acts[i] == Advance(cursor, Some(AskedBy(cursor, plan, r)));
    } else {
      assert acts[0] == Advance(cursor, None);
    }
  }

  lemma {:induction false} StepKeepsSpentRecord(w: World, op: Op, cursor: Cursor)
    requires Consistent(w.core, w.now) && Timely(w, op)
    ensures Consistent(Step(w, op).core, Step(w, op).now)
    ensures !Takes(w.core, cursor) || (op.Consume? && op.event.cursor == cursor) ==> !Takes(Step(w, op).core, cursor)
  {
    if op.Restart? {
      RestartKeepsConsistent(w.core, w.now, op.r);
    } else {
      var at := w.(now := ReadingOf(w.now, op));
      var acts := ActsOf(at.core, op, at.now);
      LaterKeepsConsistent(w.core, w.now, at.now);
      OperationsAreEnabled(at.core, op, at.now);
      ActsKeepConsistent(at.core, acts, at.now);
      PerformIsExec(at, acts);
      if !Takes(w.core, cursor) { ActsKeepSpentRecord(at.core, acts, at.now, cursor); }
      if op.Consume? && op.event.cursor == cursor { ConsumeSpendsRecord(at.core, op.event, at.now, op.mode); }
    }
  }

  lemma {:induction false} RunSpendsRecord(w: World, ops: seq<Op>, cursor: Cursor)
    requires Consistent(w.core, w.now) && TimelyRun(w, ops)
    requires !Takes(w.core, cursor) || exists op :: op in ops && op.Consume? && op.event.cursor == cursor
    ensures !Takes(Run(w, ops).core, cursor)
    decreases |ops|
  {
    if ops != [] {
      StepKeepsSpentRecord(w, ops[0], cursor);
      RunSpendsRecord(Step(w, ops[0]), ops[1..], cursor);
    }
  }

  /** Whatever a run consumed, and whatever else happened in it, consuming any of it again in either
      mode changes nothing but the clock. */
  lemma {:induction false} ReconsumingChangesNothing(w: World, ops: seq<Op>, v: World, again: seq<Op>)
    requires Consistent(w.core, w.now) && TimelyRun(w, ops) && v.core == Run(w, ops).core
    requires forall op :: op in again ==> op.Consume?
    requires forall op :: op in again ==> exists x :: x in ops && x.Consume? && x.event.cursor == op.event.cursor
    ensures Run(v, again).core == v.core && Run(v, again).acks == v.acks && Run(v, again).log == v.log
    decreases |again|
  {
    if again != [] {
      RunSpendsRecord(w, ops, again[0].event.cursor);
      assert ActsOf(v.core, again[0], again[0].r) == [];
      ReconsumingChangesNothing(w, ops, Step(v, again[0]), again[1..]);
    }
  }
}
