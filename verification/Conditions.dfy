/** Which conditions stand, read off the events consumed and the calls made: for each rule, the kind of
    event that raises it, the kind that ends it, and what the item in the inbox says of the events. */
module Conditions {
  import opened Common
  import opened Time
  import opened Rules
  import opened Events
  import opened EngineModel
  import opened Guards
  import opened Calls

  // ---- what events say ---------------------------------------------------------------------

  /** A request of a session, which its closure ends. */
  predicate IsRequest(rule: RuleId) {
    rule == PendingApproval || rule == PendingInput || rule == InputIdleReminder
  }

  /** The notice an application gave: known by its own name for it, by what it says, or by its record. */
  function NoticeIn(e: Event): Subject
    requires e.kind.ApplicationNoticed?
  {
    match (e.kind.notice.id, e.kind.notice.fingerprint)
    case (Some(id), _) => NoticeById(e.kind.session, id)
    case (None, Some(fingerprint)) => NoticeByFingerprint(e.kind.session, fingerprint)
    case (None, None) => NoticeByRecord(e.kind.session, e.cursor)
  }

  /** The one kind of event that raises a condition of each rule, and the subject it has to name. A reminder
      is raised by no event, and a command that exited with nought fails nothing. */
  predicate Starts(digest: Subject -> nat, e: Event, k: Key) {
    match k.rule
    case PendingApproval =>
      e.kind.ApprovalRequested? && k.digest == digest(ApprovalOf(e.kind.session, e.kind.request))
    case PendingInput =>
      e.kind.QuestionPending? && e.kind.verified && k.digest == digest(QuestionOf(e.kind.question))
    case InputIdleReminder => false
    case CommandFailed =>
      e.kind.CommandCompleted? && e.kind.exitCode != 0 && k.digest == digest(CommandOf(e.kind.session, e.kind.command))
    case ReviewReady => e.kind.TurnCompleted? && k.digest == digest(TurnOf(e.kind.session, e.kind.turn))
    case AdapterFailed => e.kind.AdapterDown? && k.digest == digest(AdapterOf(e.cursor.origin, e.kind.plugin))
    case HostContactLost => e.kind.ContactLost? && k.digest == digest(HostItself)
    case ApplicationNotice => e.kind.ApplicationNoticed? && k.digest == digest(NoticeIn(e))
    case AutomationPaused => e.kind.AutomationStopped? && k.digest == digest(AutomationOf(e.kind.subject))
    case AuthorityFeedRemoved => e.kind.FeedRemoved? && k.digest == digest(AuthorityFeed)
  }

  /** The one kind of event that ends a condition of each rule, where there is one: it names the subject the
      raising event named. Failed commands, review work and notices end by no event. */
  predicate Stops(digest: Subject -> nat, e: Event, k: Key) {
    match k.rule
    case PendingApproval =>
      e.kind.ApprovalResolved? && k.digest == digest(ApprovalOf(e.kind.session, e.kind.request))
    case PendingInput => e.kind.QuestionResolved? && k.digest == digest(QuestionOf(e.kind.question))
    case InputIdleReminder => e.kind.QuestionResolved? && k.digest == digest(QuestionOf(e.kind.question))
    case AdapterFailed => e.kind.AdapterRecovered? && k.digest == digest(AdapterOf(e.cursor.origin, e.kind.plugin))
    case HostContactLost => e.kind.ContactRestored? && k.digest == digest(HostItself)
    case AutomationPaused => e.kind.AutomationResumed? && k.digest == digest(AutomationOf(e.kind.subject))
    case AuthorityFeedRemoved => e.kind.FeedLeft? && k.digest == digest(AuthorityFeed)
    case _ => false
  }

  /** The session an event names in raising a condition. */
  function NamedIn(digest: Subject -> nat, e: Event, k: Key): Option<SessionId>
    requires Starts(digest, e, k)
  {
    match k.rule
    case PendingApproval => Some(e.kind.session)
    case PendingInput => Some(e.kind.session)
    case CommandFailed => Some(e.kind.session)
    case ReviewReady => Some(e.kind.session)
    case ApplicationNotice => Some(e.kind.session)
    case AdapterFailed => e.kind.served
    case _ => None
  }

  /** What an event says of the condition it raises: whose record it is and which session it names, where its
      words are kept, which automation under which grant, and who may be told. */
  function AboutIn(digest: Subject -> nat, e: Event, k: Key): About
    requires Starts(digest, e, k)
  {
    var ours := k.rule == AutomationPaused || k.rule == AuthorityFeedRemoved || e.cursor.origin == Environment;
    About(k.rule, e.cursor.source, e.cursor.origin, NamedIn(digest, e, k),
          if ours then HostWords else Record(e.cursor),
          if k.rule == AutomationPaused then e.kind.grant else None,
          if k.rule == AutomationPaused then Some(e.kind.subject) else None,
          if k.rule == ApplicationNotice && e.kind.notice.leaseHeld then LeaseHolder else OwnerPolicy)
  }

  /** A plan raises, or ends, exactly what the kind of its event says. */
  lemma {:induction false} PlanStarts(digest: Subject -> nat, e: Event, k: Key)
    ensures var plan := PlanOf(digest, e);
            (plan.RaiseOne? || plan.AskOne?) && plan.raise.key == k <==> Starts(digest, e, k)
  {
  }

  lemma {:induction false} PlanSays(digest: Subject -> nat, e: Event, k: Key)
    requires Starts(digest, e, k)
    ensures var plan := PlanOf(digest, e);
            && (plan.RaiseOne? || plan.AskOne?) && plan.raise.at == e.at && plan.raise.about == AboutIn(digest, e, k)
  {
  }

  predicate PlansToEnd(plan: Plan, k: Key) {
    (plan.EndOne? && plan.key == k) || (plan.AnswerOne? && (plan.asked == k || plan.reminder == k))
  }

  lemma {:induction false} PlanStops(digest: Subject -> nat, e: Event, k: Key)
    ensures PlansToEnd(PlanOf(digest, e), k) <==> Stops(digest, e, k)
  {
  }

  // ---- what stands -------------------------------------------------------------------------

  /** What the inbox says of a condition that stands. */
  datatype Standing = Standing(about: About, firstSeen: nat, lastSeen: nat, occurrences: nat)

  function StandingOf(c: Core, k: Key): Option<Standing> {
    if k in c.items
    then Some(Standing(c.items[k].about, c.items[k].firstSeen, c.items[k].lastSeen, c.items[k].occurrences)) else None
  }

  /** A condition raised, afresh or again: it keeps when it was first seen and which session, grant and
      automation it is about, and takes the rest from the latest record. */
  function Again(before: Option<Standing>, about: About, at: nat): Standing {
    if before.None? then Standing(about, at, at, 1)
    else
      var was := before.value;
      Standing(About(was.about.rule, about.source, about.origin, was.about.session, about.text, was.about.grant,
                     was.about.automation, about.routing),
               was.firstSeen, at, was.occurrences + 1)
  }

  /** The raise an act brings to an item, if it does. */
  function RaiseIn(act: Act, k: Key): Option<Raise> {
    if act.Enter? && act.raise.key == k then Some(act.raise)
    else if act.Change? && act.key == k && act.edit.Repeat? then Some(act.edit.raise)
    else None
  }

  /** An act that neither raises a condition nor ends it, though it may drop it. */
  predicate LeavesAlone(act: Act, k: Key) {
    RaiseIn(act, k).None? && (act.Leave? && act.key == k ==> act.how.Drop?)
  }

  lemma {:induction false} ActOnStanding(c: Core, act: Act, r: Reading, k: Key)
    requires LeavesAlone(act, k)
    ensures StandingOf(Apply(c, act, r), k) == if act == Leave(k, Drop) then None else StandingOf(c, k)
    ensures Said(Dropped(k), r) in Note(c, act, r) <==> act == Leave(k, Drop) && k in c.items
  {
  }

  /** Acts that leave a condition alone leave it standing as it was, unless they say that it was dropped. */
  lemma {:induction false} StandsUnlessDropped(c: Core, acts: seq<Act>, r: Reading, k: Key)
    requires forall act :: act in acts ==> LeavesAlone(act, k)
    ensures StandingOf(Exec(c, acts, r), k) == if Said(Dropped(k), r) in Trace(c, acts, r) then None else StandingOf(c, k)
    decreases |acts|
  {
    if acts != [] {
      assert acts[0] in acts;
      ActOnStanding(c, acts[0], r, k);
      StandsUnlessDropped(Apply(c, acts[0], r), acts[1..], r, k);
    }
  }

  /** Acts that do not take the condition out of the inbox at all leave it standing. */
  lemma {:induction false} StandsThrough(c: Core, acts: seq<Act>, r: Reading, k: Key)
    requires forall act :: act in acts ==> RaiseIn(act, k).None? && !(act.Leave? && act.key == k)
    ensures StandingOf(Exec(c, acts, r), k) == StandingOf(c, k) && Said(Dropped(k), r) !in Trace(c, acts, r)
    decreases |acts|
  {
    if acts != [] {
      assert acts[0] in acts;
      ActOnStanding(c, acts[0], r, k);
      StandsThrough(Apply(c, acts[0], r), acts[1..], r, k);
    }
  }

  /** What one list of acts does after another that did not touch the condition. */
  lemma {:induction false} AfterOthers(c: Core, a: seq<Act>, b: seq<Act>, r: Reading, k: Key)
    requires forall act :: act in a ==> RaiseIn(act, k).None? && !(act.Leave? && act.key == k)
    ensures var d := Exec(c, a, r);
            && StandingOf(d, k) == StandingOf(c, k) && Exec(c, a + b, r) == Exec(d, b, r)
            && (Said(Dropped(k), r) in Trace(c, a + b, r) <==> Said(Dropped(k), r) in Trace(d, b, r))
  {
    StandsThrough(c, a, r, k);
    ExecConcat(c, map[], a, b, r);
  }

  // ---- raising and resolving ---------------------------------------------------------------

  /** Raising puts the condition in the inbox, or counts it there again, and never drops it. */
  lemma {:induction false} RaisedStands(c: Core, raise: Raise, r: Reading, mode: Mode)
    ensures var acts := RaiseActs(c, raise, r, mode);
            && StandingOf(Exec(c, acts, r), raise.key) == Some(Again(StandingOf(c, raise.key), raise.about, raise.at))
            && Said(Dropped(raise.key), r) !in Trace(c, acts, r)
  {
    if raise.key in c.items { RepeatedStands(c, raise, r, mode); } else { EnteredStands(c, raise, r, mode); }
  }

  lemma {:induction false} RepeatedStands(c: Core, raise: Raise, r: Reading, mode: Mode)
    requires raise.key in c.items
    ensures var acts := RaiseActs(c, raise, r, mode);
            && StandingOf(Exec(c, acts, r), raise.key) == Some(Again(StandingOf(c, raise.key), raise.about, raise.at))
            && Said(Dropped(raise.key), r) !in Trace(c, acts, r)
  {
    var acts, first := RaiseActs(c, raise, r, mode), Change(raise.key, Repeat(raise));
    var d := Apply(c, first, r);
    assert acts[0] == first && (acts[1..] == [] || acts[1..] == [acts[1]]);
    assert Note(c, first, r) == [Said(Repeated(raise.key, c.items[raise.key].occurrences + 1), r)];
    StandsThrough(d, acts[1..], r, raise.key);
  }

  lemma {:induction false} EnteredStands(c: Core, raise: Raise, r: Reading, mode: Mode)
    requires raise.key !in c.items
    ensures var acts := RaiseActs(c, raise, r, mode);
            && StandingOf(Exec(c, acts, r), raise.key) == Some(Again(None, raise.about, raise.at))
            && Said(Dropped(raise.key), r) !in Trace(c, acts, r)
  {
    var k, d := raise.key, Apply(c, Enter(raise), r);
    var bound := BoundActs(d, r);
    var last := if mode.Live? then [Change(k, Announce(false))] else [];
    assert d.items[k].ann == UNANNOUNCED && StandingOf(d, k) == Some(Again(None, raise.about, raise.at));
    SparedStands(d, last, r, k);
    assert RaiseActs(c, raise, r, mode) == [Enter(raise)] + (bound + last);
    OneExec(c, Enter(raise), bound + last, r);
    EnteringSays(c, raise, bound + last, r);
  }

  /** What has just come in outlasts the bound. */
  lemma {:induction false} SparedStands(c: Core, last: seq<Act>, r: Reading, k: Key)
    requires k in c.items && c.items[k].ann == UNANNOUNCED
    requires forall act :: act in last ==> act == Change(k, Announce(false))
    ensures var acts := BoundActs(c, r) + last;
            StandingOf(Exec(c, acts, r), k) == StandingOf(c, k) && Said(Dropped(k), r) !in Trace(c, acts, r)
  {
    var bound := BoundActs(c, r);
    BoundSpares(c, r, k);
    StandsUnlessDropped(c, bound, r, k);
    StandsThrough(Exec(c, bound, r), last, r, k);
    ExecConcat(c, map[], bound, last, r);
  }

  lemma {:induction false} EnteringSays(c: Core, raise: Raise, rest: seq<Act>, r: Reading)
    requires raise.key !in c.items && Said(Dropped(raise.key), r) !in Trace(Apply(c, Enter(raise), r), rest, r)
    ensures Said(Dropped(raise.key), r) !in Trace(c, [Enter(raise)] + rest, r)
  {
    assert ([Enter(raise)] + rest)[1..] == rest;
  }

  lemma {:induction false} RaisingLeavesOthers(c: Core, raise: Raise, r: Reading, mode: Mode, k: Key)
    requires k != raise.key
    ensures forall act :: act in RaiseActs(c, raise, r, mode) ==> LeavesAlone(act, k)
  {
  }

  /** What raising one condition does to any. */
  lemma {:induction false} RaiseOnStanding(c: Core, raise: Raise, r: Reading, mode: Mode, k: Key)
    ensures var acts := RaiseActs(c, raise, r, mode);
            && StandingOf(Exec(c, acts, r), k) ==
               (if k == raise.key then Some(Again(StandingOf(c, k), raise.about, raise.at))
                else if Said(Dropped(k), r) in Trace(c, acts, r) then None else StandingOf(c, k))
            && (k == raise.key ==> Said(Dropped(k), r) !in Trace(c, acts, r))
  {
    if k == raise.key {
      RaisedStands(c, raise, r, mode);
    } else {
      RaisingLeavesOthers(c, raise, r, mode, k);
      StandsUnlessDropped(c, RaiseActs(c, raise, r, mode), r, k);
    }
  }

  lemma {:induction false} ResolveOnStanding(c: Core, key: Key, r: Reading, k: Key)
    ensures var acts := ResolveActs(c, key);
            && StandingOf(Exec(c, acts, r), k) == (if k == key then None else StandingOf(c, k))
            && Said(Dropped(k), r) !in Trace(c, acts, r)
  {
    if key in c.items {
      var act := Leave(key, Resolve);
      assert [act][1..] == [] && Exec(c, [act], r) == Apply(c, act, r);
      assert Trace(c, [act], r) == [Said(Resolved(key), r)] + [];
    }
  }

  // ---- consuming an event ------------------------------------------------------------------

  /** What a list of acts leaves of a condition, given what it raises and ends. */
  ghost predicate Makes(c: Core, acts: seq<Act>, r: Reading, k: Key, raised: Option<Raise>, ended: bool) {
    && StandingOf(Exec(c, acts, r), k) ==
       (if raised.Some? then Some(Again(StandingOf(c, k), raised.value.about, raised.value.at))
        else if ended || Said(Dropped(k), r) in Trace(c, acts, r) then None
        else StandingOf(c, k))
    && (raised.Some? || ended ==> Said(Dropped(k), r) !in Trace(c, acts, r))
  }

  lemma {:induction false} MakesAfter(c: Core, a: seq<Act>, b: seq<Act>, r: Reading, k: Key, raised: Option<Raise>, ended: bool)
    requires forall act :: act in a ==> RaiseIn(act, k).None? && !(act.Leave? && act.key == k)
    requires Makes(Exec(c, a, r), b, r, k, raised, ended)
    ensures Makes(c, a + b, r, k, raised, ended)
  {
    AfterOthers(c, a, b, r, k);
  }

  /** The raise a plan makes of one condition. */
  function RaiseOf(plan: Plan, k: Key): Option<Raise> {
    if (plan.RaiseOne? || plan.AskOne?) && plan.raise.key == k then Some(plan.raise) else None
  }

  lemma {:induction false} PlanOnStanding(c: Core, cursor: Cursor, plan: Plan, r: Reading, mode: Mode, k: Key)
    ensures Makes(c, PlanActs(c, cursor, plan, r, mode), r, k, RaiseOf(plan, k), PlansToEnd(plan, k))
  {
    match plan
    case Nothing => StandsThrough(c, PlanActs(c, cursor, plan, r, mode), r, k);
    case RaiseOne(raise) =>
      var take := [Advance(cursor, None)];
      assert Exec(c, take, r) == Apply(c, take[0], r);
      RaiseOnStanding(Exec(c, take, r), raise, r, mode, k);
      MakesAfter(c, take, RaiseActs(Exec(c, take, r), raise, r, mode), r, k, RaiseOf(plan, k), false);
    case EndOne(key) =>
      var take := [Advance(cursor, None)];
      assert Exec(c, take, r) == Apply(c, take[0], r);
      ResolveOnStanding(Exec(c, take, r), key, r, k);
      MakesAfter(c, take, ResolveActs(c, key), r, k, None, PlansToEnd(plan, k));
    case AskOne(_, _, _, _, _) => AskOnStanding(c, cursor, plan, r, mode, k);
    case AnswerOne(_, _, _) => AnswerOnStanding(c, cursor, plan, r, mode, k);
  }

  lemma {:induction false} AskOnStanding(c: Core, cursor: Cursor, plan: Plan, r: Reading, mode: Mode, k: Key)
    requires plan.AskOne?
    ensures Makes(c, PlanActs(c, cursor, plan, r, mode), r, k, RaiseOf(plan, k), false)
  {
    var asks := PendingBoundActs(c, plan.question, r) + [Advance(cursor, Some(AskedBy(cursor, plan, r)))];
    RaiseOnStanding(Exec(c, asks, r), plan.raise, r, mode, k);
    MakesAfter(c, asks, RaiseActs(Exec(c, asks, r), plan.raise, r, mode), r, k, RaiseOf(plan, k), false);
  }

  lemma {:induction false} AnswerOnStanding(c: Core, cursor: Cursor, plan: Plan, r: Reading, mode: Mode, k: Key)
    requires plan.AnswerOne?
    ensures Makes(c, PlanActs(c, cursor, plan, r, mode), r, k, None, PlansToEnd(plan, k))
  {
    var take, first, second := [Advance(cursor, None), Unask(plan.question, true)], ResolveActs(c, plan.asked), ResolveActs(c, plan.reminder);
    var d := Exec(c, take, r);
    KeepsInbox(c, cursor, plan.question, r);
    TwoResolved(c, d, plan.asked, plan.reminder, r, k);
    MakesAfter(c, take, first + second, r, k, None, PlansToEnd(plan, k));
    assert PlanActs(c, cursor, plan, r, mode) == take + (first + second);
  }

  lemma {:induction false} KeepsInbox(c: Core, cursor: Cursor, q: QuestionId, r: Reading)
    ensures Exec(c, [Advance(cursor, None), Unask(q, true)], r).items == c.items
  {
    var acts := [Advance(cursor, None), Unask(q, true)];
    var d := Apply(c, acts[0], r);
    assert acts[1..] == [acts[1]] && acts[1..][1..] == [];
    assert Exec(d, acts[1..], r) == Exec(Apply(d, acts[1], r), [], r);
  }

  lemma {:induction false} TwoResolved(c: Core, d: Core, one: Key, two: Key, r: Reading, k: Key)
    requires d.items == c.items
    ensures Makes(d, ResolveActs(c, one) + ResolveActs(c, two), r, k, None, k == one || k == two)
  {
    var first, second := ResolveActs(c, one), ResolveActs(c, two);
    var e := Exec(d, first, r);
    ResolveOnStanding(d, one, r, k);
    ExecConcat(d, map[], first, second, r);
    ResolvedThen(c, d, one, two, r, k);
  }

  lemma {:induction false} ResolvedThen(c: Core, d: Core, one: Key, two: Key, r: Reading, k: Key)
    requires d.items == c.items
    ensures var e := Exec(d, ResolveActs(c, one), r);
            && StandingOf(Exec(e, ResolveActs(c, two), r), k) == (if k == two then None else StandingOf(e, k))
            && Said(Dropped(k), r) !in Trace(e, ResolveActs(c, two), r)
  {
    var e := Exec(d, ResolveActs(c, one), r);
    if two in c.items {
      var act := Leave(two, Resolve);
      assert [act][1..] == [] && Exec(e, [act], r) == Apply(e, act, r);
      assert Trace(e, [act], r) == Note(e, act, r) + [];
    }
  }

  /** Consuming an event raises and ends exactly what its kind says, if it is taken, and may drop others. */
  lemma {:induction false} ConsumeOnStanding(c: Core, e: Event, r: Reading, mode: Mode, k: Key)
    ensures var acts := ConsumeActs(c, e, r, mode);
            && StandingOf(Exec(c, acts, r), k) ==
               (if Takes(c, e.cursor) && Starts(c.digest, e, k)
                then Some(Again(StandingOf(c, k), AboutIn(c.digest, e, k), e.at))
                else if Takes(c, e.cursor) && Stops(c.digest, e, k) then None
                else if Said(Dropped(k), r) in Trace(c, acts, r) then None
                else StandingOf(c, k))
            && (Takes(c, e.cursor) && Starts(c.digest, e, k) ==> Said(Dropped(k), r) !in Trace(c, acts, r))
  {
    if Takes(c, e.cursor) {
      var missed := MissedActs(c, e.cursor);
      var d := Exec(c, missed, r);
      var plan := PlanOf(d.digest, e);
      ExecKeepsDigest(c, missed, r);
      PlanOnStanding(d, e.cursor, plan, r, mode, k);
      MakesAfter(c, missed, DecideActs(d, e, r, mode), r, k, RaiseOf(plan, k), PlansToEnd(plan, k));
      PlanStarts(c.digest, e, k);
      PlanStops(c.digest, e, k);
      if Starts(c.digest, e, k) { PlanSays(c.digest, e, k); }
    }
  }
}
