/** The attention engine as a state and the atomic acts that change it.

    Every operation of the engine is a list of acts. An act changes one thing, writes at most one
    entry in the log of a run, and has a guard that says when the engine may take it. */
module EngineModel {
  import opened Common
  import opened Time
  import opened Rules
  import opened Events

  const MAX_ITEMS: nat := 500
  const MAX_PENDING: nat := 500
  const MAX_GAPS: nat := 64

  // ---- state -------------------------------------------------------------------------------

  datatype Mode = Live | Replay

  datatype Text = HostWords | Record(cursor: Cursor) {
    function RecordOf(): Option<Cursor> {
      if Record? then Some(cursor) else None
    }
  }

  datatype Routing = LeaseHolder | OwnerPolicy
  datatype Notification = Undecided | Delivered | Held | Suppressed

  /** What an item is about, and whose record said so. */
  datatype About = About(
    rule: RuleId, source: Source, origin: Origin, session: Option<SessionId>, text: Text,
    grant: Option<GrantId>, automation: Option<AutomationSubject>, routing: Routing)

  /** Everything the engine has decided about announcing an item. */
  datatype Announcing = Announcing(
    notification: Notification, lastNotified: Option<nat>, decidedAt: Option<nat>,
    decidedPrivacy: Option<PrivacyStamp>, anchor: Option<Anchor>, level: Option<Level>, count: nat,
    pending: Option<nat>, since: Option<Elapsed>, deferred: bool)

  const UNANNOUNCED := Announcing(Undecided, None, None, None, None, None, 0, None, None, false)

  datatype Item = Item(
    key: Key, about: About, revision: nat, level: Level, steps: nat, occurrences: nat,
    firstSeen: nat, lastSeen: nat, anchor: Option<Anchor>, age: Elapsed, uncertain: bool,
    ann: Announcing)
  {
    function SessionOf(): Option<SessionId> {
      if about.session.Some? then about.session else about.origin.SessionOf()
    }
  }

  datatype Gap = Gap(origin: Origin, source: Source, from: nat, to: Option<nat>)

  /** A question waiting for an answer. */
  datatype Wait = Wait(
    session: SessionId, record: Cursor, since: nat, waited: Elapsed, reminded: bool, anchor: Option<Anchor>)

  /** Everything the engine holds but the acknowledgements, which decide nothing. */
  datatype Core = Core(
    items: map<Key, Item>, consumed: map<(Origin, Source), nat>, gaps: seq<Gap>,
    pending: map<QuestionId, Wait>, quiet: Option<QuietHours>, dropped: nat,
    nextAnnouncement: nat, nextRevision: nat, finalised: set<SessionId>, digest: Subject -> nat)

  datatype ItemAck = ItemAck(revision: nat, at: nat)
  type Acks = map<ActorId, map<Key, ItemAck>>

  datatype Outcome =
    | Raised(key: Key, rule: RuleId, level: Level)
    | Repeated(key: Key, occurrences: nat)
    | Notified(key: Key, level: Level, routing: Routing)
    | Deferred(key: Key, level: Level)
    | Released(key: Key, level: Level, routing: Routing)
    | Escalated(key: Key, before: Level, to: Level)
    | Resolved(key: Key)
    | Ended(key: Key)
    | Dropped(key: Key)
    | GapRecorded(gap: Gap)

  /** A decision offered for delivery, under the number that is its own. */
  datatype Announcement = Announcement(
    key: Key, number: nat, rule: RuleId, level: Level, routing: Routing, session: Option<SessionId>, text: Text)

  function AnnouncementOf(item: Item): Announcement
    requires item.ann.pending.Some?
  {
    Announcement(item.key, item.ann.pending.value, item.about.rule, item.level, item.about.routing, item.SessionOf(),
                 item.about.text)
  }

  /** Everything one raised condition names. */
  datatype Raise = Raise(key: Key, about: About, at: nat, atAnchor: Option<Anchor>)

  /** A question a record made pending. */
  datatype Asked = Asked(question: QuestionId, wait: Wait)

  function Fresh(digest: Subject -> nat): Core {
    Core(map[], map[], [], map[], None, 0, 0, 0, {}, digest)
  }

  predicate IsFinalised(c: Core, origin: Origin) {
    origin.Session? && origin.id in c.finalised
  }

  /** The first sequence of a source that has not been consumed. Sequences start at one. */
  function NextSequence(c: Core, origin: Origin, source: Source): nat {
    if (origin, source) in c.consumed then c.consumed[(origin, source)] + 1 else 1
  }

  // ---- acts --------------------------------------------------------------------------------

  /** A change to one item of the inbox. */
  datatype Edit =
    | Repeat(raise: Raise)
    | Undecide
    | Suppress
    | Announce(released: bool)
    | Climb(level: Level, steps: nat)
    | Settle(number: nat)

  /** How an item leaves the inbox. */
  datatype Leaving = Drop | Resolve | End

  datatype Act =
    | Skip(origin: Origin, source: Source, sequence: nat)
    | RecordGap(gap: Gap)
    | Advance(cursor: Cursor, asked: Option<Asked>)
    | Unask(question: QuestionId, answered: bool)
    | Remind(question: QuestionId, certified: Reading)
    | Close(session: SessionId)
    | SetQuiet(quiet: Option<QuietHours>)
    | Enter(raise: Raise)
    | Change(key: Key, edit: Edit)
    | Leave(key: Key, how: Leaving)
    | Ack(actor: ActorId, key: Key, revision: nat)

  function FreshItem(raise: Raise, revision: nat, r: Reading): Item {
    var waited := Waited(raise.atAnchor, r);
    Item(raise.key, raise.about, revision, Policy(raise.key.rule).initial, 0, 1, raise.at, raise.at,
         Some(AnchorOf(waited, r)), Elapsed(waited, r.ms), false, UNANNOUNCED)
  }

  function RepeatedItem(item: Item, raise: Raise, revision: nat): Item {
    item.(occurrences := item.occurrences + 1, revision := revision, lastSeen := raise.at,
    about := item.about.(text := raise.about.text, routing := raise.about.routing,
                         source := raise.about.source, origin := raise.about.origin))
  }

  /** The announcing half of an item once a decision is made about it at `r`. */
  function Decided(item: Item, quiet: bool, released: bool, number: nat, r: Reading): Announcing {
    var ann := item.ann.(since := Some(Starting(r)), lastNotified := Some(r.wall), anchor := Some(r.Anchored()));
    var dated := if released || (quiet && ann.pending.Some?) then ann
                 else ann.(decidedAt := Some(r.wall), decidedPrivacy := r.privacy);
    if quiet then dated.(deferred := true, notification := Held)
    else dated.(deferred := false, notification := Delivered, level := Some(item.level),
    count := dated.count + 1, pending := Some(number))
  }

  /** What an edit makes of an item; `revision` and `number` are the next the engine hands out. */
  function Edited(item: Item, edit: Edit, quiet: bool, revision: nat, number: nat, r: Reading): Item {
    match edit
    case Repeat(raise) => RepeatedItem(item, raise, revision)
    case Undecide =>
      item.(ann := item.ann.(since := None, lastNotified := None, level := None, notification := Undecided))
    case Suppress => item.(ann := item.ann.(notification := Suppressed))
    case Announce(released) => item.(ann := Decided(item, quiet, released, number, r))
    case Climb(level, steps) => item.(level := level, steps := steps)
    case Settle(n) => if item.ann.pending == Some(n) then item.(ann := item.ann.(pending := None)) else item
  }

  /** Marks every item of one origin's source uncertain. */
  function Uncertain(items: map<Key, Item>, origin: Origin, source: Source): map<Key, Item> {
    map k | k in items ::
      if items[k].about.origin == origin && items[k].about.source == source
      then items[k].(uncertain := true) else items[k]
  }

  /** Whether an act's subject is there for it to act on. */
  predicate Present(c: Core, act: Act) {
    match act
    case Remind(q, _) => q in c.pending
    case Enter(raise) => raise.key !in c.items
    case Change(k, _) => k in c.items
    case Leave(k, _) => k in c.items
    case Ack(_, k, _) => k in c.items
    case _ => true
  }

  function Changed(c: Core, k: Key, edit: Edit, r: Reading): Core
    requires k in c.items
  {
    var quiet := QuietAt(c.quiet, r);
    c.(items := c.items[k := Edited(c.items[k], edit, quiet, c.nextRevision + 1, c.nextAnnouncement + 1, r)],
    nextRevision := if edit.Repeat? then c.nextRevision + 1 else c.nextRevision,
    nextAnnouncement := if edit.Announce? && !quiet then c.nextAnnouncement + 1 else c.nextAnnouncement)
  }

  function GapNoted(c: Core, gap: Gap): Core {
    var gaps := c.gaps + [gap];
    var at := (gap.origin, gap.source);
    var before := if at in c.consumed then c.consumed[at] else 0;
    c.(gaps := if |gaps| > MAX_GAPS then gaps[1..] else gaps,
    items := Uncertain(c.items, gap.origin, gap.source),
    consumed := if gap.to.Some? then c.consumed[at := Max(before, Monus(gap.to.value, 1))] else c.consumed)
  }

  function SessionClosed(c: Core, s: SessionId): Core {
    c.(finalised := c.finalised + {s},
    pending := map q | q in c.pending && c.pending[q].session != s && c.pending[q].record.origin != Session(s)
                 :: c.pending[q])
  }

  /** What an act makes of the state, at reading `r`. */
  function Apply(c: Core, act: Act, r: Reading): Core {
    if !Present(c, act) then c else
    match act
    case Skip(o, s, n) =>
      c.(consumed := c.consumed[(o, s) := if (o, s) in c.consumed then Max(c.consumed[(o, s)], n) else n])
    case RecordGap(gap) => GapNoted(c, gap)
    case Advance(cursor, asked) =>
      c.(consumed := c.consumed[(cursor.origin, cursor.source) := cursor.sequence],
      pending := if asked.Some? then c.pending[asked.value.question := asked.value.wait] else c.pending)
    case Unask(q, _) => c.(pending := c.pending - {q})
    case Remind(q, _) => c.(pending := c.pending[q := c.pending[q].(reminded := true)])
    case Close(s) => SessionClosed(c, s)
    case SetQuiet(q) => c.(quiet := q)
    case Enter(raise) =>
      c.(items := c.items[raise.key := FreshItem(raise, c.nextRevision + 1, r)], nextRevision := c.nextRevision + 1)
    case Change(k, edit) => Changed(c, k, edit, r)
    case Leave(k, how) => c.(items := c.items - {k}, dropped := if how.Drop? then c.dropped + 1 else c.dropped)
    case Ack(_, _, _) => c
  }

  /** What an act makes of the acknowledgements: a condition that starts or leaves takes them with it. */
  function ApplyToAcks(c: Core, acks: Acks, act: Act, r: Reading): Acks {
    if !Present(c, act) then acks else
    match act
    case Enter(raise) => Without(acks, raise.key)
    case Leave(k, _) => Without(acks, k)
    case Ack(actor, k, revision) =>
      acks[actor := (if actor in acks then acks[actor] else map[])[k := ItemAck(revision, r.wall)]]
    case _ => acks
  }

  function Without(acks: Acks, key: Key): Acks {
    map a | a in acks :: acks[a] - {key}
  }

  // ---- the log of a run --------------------------------------------------------------------

  datatype Entry =
    | Said(out: Outcome, at: Reading)
    | Acked(actor: ActorId, key: Key)
    | Settled(key: Key, number: nat)
    | Took(cursor: Cursor, asked: Option<Asked>)
    | Answered(question: QuestionId)
    | LetGo(question: QuestionId)
    | Reminded(question: QuestionId, record: Cursor, certified: Reading)
    | Closed(session: SessionId)

  function EditNote(k: Key, item: Item, edit: Edit, quiet: bool, r: Reading): (log: seq<Entry>)
    ensures |log| <= 1
  {
    match edit
    case Repeat(_) => [Said(Repeated(k, item.occurrences + 1), r)]
    case Announce(released) =>
      if quiet then [Said(Deferred(k, item.level), r)]
      else if released then [Said(Released(k, item.level, item.about.routing), r)]
      else [Said(Notified(k, item.level, item.about.routing), r)]
    case Climb(level, _) => [Said(Escalated(k, item.level, level), r)]
    case Settle(n) => [Settled(k, n)]
    case _ => []
  }

  function LeavingOutcome(k: Key, how: Leaving): Outcome {
    match how case Drop => Dropped(k) case Resolve => Resolved(k) case End => Ended(k)
  }

  /** What an act writes in the log: at most one entry. */
  function Note(c: Core, act: Act, r: Reading): (log: seq<Entry>)
    ensures |log| <= 1
  {
    if !Present(c, act) then [] else
    match act
    case RecordGap(gap) => [Said(GapRecorded(gap), r)]
    case Advance(cursor, asked) => [Took(cursor, asked)]
    case Unask(q, answered) => [if answered then Answered(q) else LetGo(q)]
    case Remind(q, certified) => [Reminded(q, c.pending[q].record, certified)]
    case Close(s) => [Closed(s)]
    case Enter(raise) => [Said(Raised(raise.key, raise.key.rule, Policy(raise.key.rule).initial), r)]
    case Change(k, edit) => EditNote(k, c.items[k], edit, QuietAt(c.quiet, r), r)
    case Leave(k, how) => [Said(LeavingOutcome(k, how), r)]
    case Ack(actor, k, _) => [Acked(actor, k)]
    case _ => []
  }

  /** What the caller is handed of a stretch of the log. */
  function Outcomes(log: seq<Entry>): seq<Outcome> {
    if log == [] then []
    else (if log[0].Said? then [log[0].out] else []) + Outcomes(log[1..])
  }

  // ---- lists of acts -----------------------------------------------------------------------

  function Exec(c: Core, acts: seq<Act>, r: Reading): Core
    decreases |acts|
  {
    if acts == [] then c else Exec(Apply(c, acts[0], r), acts[1..], r)
  }

  function ExecAcks(c: Core, acks: Acks, acts: seq<Act>, r: Reading): Acks
    decreases |acts|
  {
    if acts == [] then acks
    else ExecAcks(Apply(c, acts[0], r), ApplyToAcks(c, acks, acts[0], r), acts[1..], r)
  }

  function Trace(c: Core, acts: seq<Act>, r: Reading): seq<Entry>
    decreases |acts|
  {
    if acts == [] then [] else Note(c, acts[0], r) + Trace(Apply(c, acts[0], r), acts[1..], r)
  }

  lemma {:induction false} ExecConcat(c: Core, acks: Acks, a: seq<Act>, b: seq<Act>, r: Reading)
    ensures Exec(c, a + b, r) == Exec(Exec(c, a, r), b, r)
    ensures ExecAcks(c, acks, a + b, r) == ExecAcks(Exec(c, a, r), ExecAcks(c, acks, a, r), b, r)
    ensures Trace(c, a + b, r) == Trace(c, a, r) + Trace(Exec(c, a, r), b, r)
    decreases |a|
  {
    if a == [] {
      assert a + b == b;
    } else {
      assert (a + b)[0] == a[0] && (a + b)[1..] == a[1..] + b;
      ExecConcat(Apply(c, a[0], r), ApplyToAcks(c, acks, a[0], r), a[1..], b, r);
    }
  }

  lemma {:induction false} OutcomesConcat(a: seq<Entry>, b: seq<Entry>)
    ensures Outcomes(a + b) == Outcomes(a) + Outcomes(b)
    decreases |a|
  {
    if a == [] {
      assert a + b == b;
    } else {
      assert (a + b)[0] == a[0] && (a + b)[1..] == a[1..] + b;
      OutcomesConcat(a[1..], b);
    }
  }

  // ---- ascending enumerations --------------------------------------------------------------

  predicate KeyLe(a: Key, b: Key) {
    LexLe(KeyRank(a), KeyRank(b))
  }

  ghost predicate LeastKey(s: set<Key>, k: Key) {
    k in s && forall x :: x in s ==> KeyLe(k, x)
  }

  lemma {:induction false} LeastKeyExists(s: set<Key>)
    requires s != {}
    ensures exists k :: LeastKey(s, k)
  {
    var k := LeastExists(s, KeyRank);
    assert LeastKey(s, k);
  }

  lemma {:induction false} LeastKeyUnique(s: set<Key>, a: Key, b: Key)
    requires LeastKey(s, a) && LeastKey(s, b)
    ensures a == b
  {
    LexAntisymmetric(KeyRank(a), KeyRank(b));
    assert KeyRank(a)[0] == KeyRank(b)[0] && KeyRank(a)[1] == KeyRank(b)[1];
  }

  /** The keys of a set in their own order. */
  ghost function SortedKeys(s: set<Key>): (keys: seq<Key>)
    ensures forall k :: k in keys <==> k in s
    ensures NoDuplicates(keys)
    decreases |s|
  {
    if s == {} then [] else
    LeastKeyExists(s);
    var k :| LeastKey(s, k);
    [k] + SortedKeys(s - {k})
  }

  ghost predicate LeastQuestion(s: set<QuestionId>, q: QuestionId) {
    q in s && forall x :: x in s ==> q <= x
  }

  lemma {:induction false} LeastQuestionExists(s: set<QuestionId>)
    requires s != {}
    ensures exists q :: LeastQuestion(s, q)
  {
    var q := LeastExists(s, (q: QuestionId) => [q]);
    assert forall x :: x in s ==> LexLe([q], [x]);
    assert LeastQuestion(s, q);
  }

  ghost function SortedQuestions(s: set<QuestionId>): (qs: seq<QuestionId>)
    ensures forall q :: q in qs <==> q in s
    ensures NoDuplicates(qs)
    decreases |s|
  {
    if s == {} then [] else
    LeastQuestionExists(s);
    var q :| LeastQuestion(s, q);
    [q] + SortedQuestions(s - {q})
  }

  // ---- the inbox's bound -------------------------------------------------------------------

  /** Whether a repeat of the condition at `r` is folded into the item rather than announced. */
  predicate Inside(item: Item, r: Reading) {
    item.ann.since.Some? && item.ann.since.value.Ms(r) < Policy(item.key.rule).dedupMs
  }

  /** What the bound may let go of: a record of a condition, never work in flight. */
  predicate Droppable(item: Item, r: Reading) {
    && Policy(item.key.rule).droppable
    && item.ann.pending.None?
    && !item.ann.deferred
    && item.ann.since.Some?
    && !Inside(item, r)
  }

  function VictimRank(item: Item): seq<nat> {
    [item.level.Rank(), item.firstSeen] + KeyRank(item.key)
  }

  /** The least urgent, then oldest, then first-named of what the bound may let go of. */
  ghost predicate IsVictim(c: Core, r: Reading, k: Key) {
    && k in c.items && Droppable(c.items[k], r)
    && forall x :: x in c.items && Droppable(c.items[x], r) ==> LexLe(VictimRank(c.items[k]), VictimRank(c.items[x]))
  }

  lemma {:induction false} VictimExists(c: Core, r: Reading, some: Key)
    requires some in c.items && Droppable(c.items[some], r)
    ensures exists k :: IsVictim(c, r, k)
  {
    var droppable := set k | k in c.items && Droppable(c.items[k], r);
    assert some in droppable;
    var rank := (k: Key) => if k in c.items then VictimRank(c.items[k]) else [];
    var k := LeastExists(droppable, rank);
    forall x | x in c.items && Droppable(c.items[x], r)
      ensures LexLe(VictimRank(c.items[k]), VictimRank(c.items[x]))
    {
      assert LexLe(rank(k), rank(x));
    }
    assert IsVictim(c, r, k);
  }

  lemma {:induction false} VictimUnique(c: Core, r: Reading, a: Key, b: Key)
    requires IsVictim(c, r, a) && IsVictim(c, r, b)
    requires c.items[a].key == a && c.items[b].key == b
    ensures a == b
  {
    LexAntisymmetric(VictimRank(c.items[a]), VictimRank(c.items[b]));
    assert VictimRank(c.items[a])[2] == VictimRank(c.items[b])[2] && VictimRank(c.items[a])[3] == VictimRank(c.items[b])[3];
  }

  /** What the bound lets go of next, when the inbox is over it and has anything to let go of. */
  ghost function Victim(c: Core, r: Reading): (victim: Option<Key>)
    ensures victim.Some? ==> IsVictim(c, r, victim.value) && |c.items| > MAX_ITEMS
    ensures victim.None? ==> |c.items| <= MAX_ITEMS || forall k :: k in c.items ==> !Droppable(c.items[k], r)
  {
    if |c.items| <= MAX_ITEMS || forall k :: k in c.items ==> !Droppable(c.items[k], r) then None
    else
      var some :| some in c.items && Droppable(c.items[some], r);
      VictimExists(c, r, some);
      var k :| IsVictim(c, r, k);
      Some(k)
  }

  /** Lets go of victims while the inbox is over its bound and has one. */
  ghost function BoundActs(c: Core, r: Reading): (acts: seq<Act>)
    ensures forall act :: act in acts ==> act.Leave? && act.how.Drop?
    decreases |c.items|
  {
    var victim := Victim(c, r);
    if victim.None? then []
    else
      FewerItems(c, victim.value, r);
      [Leave(victim.value, Drop)] + BoundActs(Apply(c, Leave(victim.value, Drop), r), r)
  }

  lemma {:induction false} FewerItems(c: Core, k: Key, r: Reading)
    requires k in c.items
    ensures |Apply(c, Leave(k, Drop), r).items| == |c.items| - 1
  {
    OneKeyLess(c.items, k);
  }

  // ---- consuming an event ------------------------------------------------------------------

  /** An act on the inbox alone. */
  predicate OnInbox(act: Act) {
    act.Enter? || act.Change? || act.Leave?
  }

  ghost function RaiseActs(c: Core, raise: Raise, r: Reading, mode: Mode): (acts: seq<Act>)
    ensures forall act :: act in acts ==> OnInbox(act)
  {
    var k := raise.key;
    if k in c.items then
      var inside := Inside(c.items[k], r);
      [Change(k, Repeat(raise))] +
      (if mode.Replay? then (if inside then [] else [Change(k, Undecide)])
       else if inside then [Change(k, Suppress)]
       else [Change(k, Announce(false))])
    else
      [Enter(raise)] + BoundActs(Apply(c, Enter(raise), r), r) +
      (if mode.Live? then [Change(k, Announce(false))] else [])
  }

  ghost function ResolveActs(c: Core, key: Key): seq<Act> {
    if key in c.items then [Leave(key, Resolve)] else []
  }

  /** What an event asks of the engine: one arm for each kind of event. */
  datatype Plan =
    | Nothing
    | RaiseOne(raise: Raise)
    | EndOne(key: Key)
    | AskOne(question: QuestionId, session: SessionId, since: nat, anchor: Option<Anchor>, raise: Raise)
    | AnswerOne(question: QuestionId, asked: Key, reminder: Key)

  function KeyFor(digest: Subject -> nat, rule: RuleId, subject: Subject): Key {
    Key(rule, digest(subject))
  }

  /** A session's text is read from its record; only the environment's words are the host's own. */
  function TextOf(cursor: Cursor): Text {
    if cursor.origin.Session? then Record(cursor) else HostWords
  }

  function PlanOf(digest: Subject -> nat, e: Event): Plan {
    var origin, source := e.cursor.origin, e.cursor.source;
    var raise := (rule: RuleId, subject: Subject, session: Option<SessionId>, text: Text, routing: Routing) =>
      Raise(KeyFor(digest, rule, subject),
            About(rule, source, origin, session, text, None, None, routing), e.at, e.atAnchor);
    var text := TextOf(e.cursor);
    match e.kind
    case Observed => Nothing
    case ApprovalRequested(request, session) =>
      RaiseOne(raise(PendingApproval, ApprovalOf(session, request), Some(session), text, OwnerPolicy))
    case ApprovalResolved(request, session) =>
      EndOne(KeyFor(digest, PendingApproval, ApprovalOf(session, request)))
    case QuestionPending(q, session, verified, since, anchor) =>
      if !verified then Nothing
      else AskOne(q, session, since, anchor, raise(PendingInput, QuestionOf(q), Some(session), text, OwnerPolicy))
    case QuestionResolved(q, _, _) =>
      AnswerOne(q, KeyFor(digest, PendingInput, QuestionOf(q)), KeyFor(digest, InputIdleReminder, QuestionOf(q)))
    case CommandCompleted(session, command, exitCode) =>
      if exitCode == 0 then Nothing
      else RaiseOne(raise(CommandFailed, CommandOf(session, command), Some(session), text, OwnerPolicy))
    case TurnCompleted(session, turn, _) =>
      RaiseOne(raise(ReviewReady, TurnOf(session, turn), Some(session), text, OwnerPolicy))
    case ChangeSetCaptured(_, _, _) => Nothing
    case AdapterDown(plugin, served) =>
      RaiseOne(raise(AdapterFailed, AdapterOf(origin, plugin), served, text, OwnerPolicy))
    case AdapterRecovered(plugin) => EndOne(KeyFor(digest, AdapterFailed, AdapterOf(origin, plugin)))
    case ContactLost => RaiseOne(raise(HostContactLost, HostItself, None, text, OwnerPolicy))
    case ContactRestored => EndOne(KeyFor(digest, HostContactLost, HostItself))
    case ApplicationNoticed(session, notice) =>
      var subject :=
        if notice.id.Some? then NoticeById(session, notice.id.value)
        else if notice.fingerprint.Some? then NoticeByFingerprint(session, notice.fingerprint.value)
        else NoticeByRecord(session, e.cursor);
      RaiseOne(raise(ApplicationNotice, subject, Some(session), text,
                     if notice.leaseHeld then LeaseHolder else OwnerPolicy))
    case AutomationStopped(subject, grant) =>
      var paused := raise(AutomationPaused, AutomationOf(subject), None, HostWords, OwnerPolicy);
      RaiseOne(paused.(about := paused.about.(grant := grant, automation := Some(subject))))
    case AutomationResumed(subject) => EndOne(KeyFor(digest, AutomationPaused, AutomationOf(subject)))
    case FeedRemoved => RaiseOne(raise(AuthorityFeedRemoved, AuthorityFeed, None, HostWords, OwnerPolicy))
    case FeedLeft => EndOne(KeyFor(digest, AuthorityFeedRemoved, AuthorityFeed))
  }

  /** A request the bound on pending requests may forget: never one still owed its reminder. */
  predicate Forgettable(c: Core, keep: QuestionId, q: QuestionId) {
    q in c.pending && q != keep && c.pending[q].reminded
  }

  ghost predicate IsOldest(c: Core, keep: QuestionId, q: QuestionId) {
    && Forgettable(c, keep, q)
    && forall x :: Forgettable(c, keep, x) ==> LexLe([c.pending[q].since, q], [c.pending[x].since, x])
  }

  lemma {:induction false} OldestExists(c: Core, keep: QuestionId, some: QuestionId)
    requires Forgettable(c, keep, some)
    ensures exists q :: IsOldest(c, keep, q)
  {
    var forgettable := set q | q in c.pending && Forgettable(c, keep, q);
    assert some in forgettable;
    var rank := (q: QuestionId) => if q in c.pending then [c.pending[q].since, q] else [];
    var q := LeastExists<QuestionId>(forgettable, rank);
    forall x | Forgettable(c, keep, x) ensures LexLe([c.pending[q].since, q], [c.pending[x].since, x]) {
      assert x in forgettable && LexLe(rank(q), rank(x));
    }
    assert IsOldest(c, keep, q);
  }

  lemma {:induction false} OldestUnique(c: Core, keep: QuestionId, a: QuestionId, b: QuestionId)
    requires IsOldest(c, keep, a) && IsOldest(c, keep, b)
    ensures a == b
  {
    LexAntisymmetric([c.pending[a].since, a], [c.pending[b].since, b]);
    assert [c.pending[a].since, a][1] == [c.pending[b].since, b][1];
  }

  /** What the bound on pending requests forgets next: the longest pending of those already reminded of. */
  ghost function Oldest(c: Core, keep: QuestionId): (oldest: Option<QuestionId>)
    ensures oldest.Some? ==> IsOldest(c, keep, oldest.value) && |c.pending| >= MAX_PENDING
    ensures oldest.None? ==> |c.pending| < MAX_PENDING || forall q :: q in c.pending ==> !Forgettable(c, keep, q)
  {
    if |c.pending| < MAX_PENDING || forall q :: q in c.pending ==> !Forgettable(c, keep, q) then None
    else
      var some :| some in c.pending && Forgettable(c, keep, some);
      OldestExists(c, keep, some);
      var q :| IsOldest(c, keep, q);
      Some(q)
  }

  ghost function PendingBoundActs(c: Core, keep: QuestionId, r: Reading): (acts: seq<Act>)
    ensures forall act :: act in acts ==> act.Unask?
    decreases |c.pending|
  {
    var oldest := Oldest(c, keep);
    if oldest.None? then []
    else
      FewerPending(c, oldest.value, r);
      [Unask(oldest.value, false)] + PendingBoundActs(Apply(c, Unask(oldest.value, false), r), keep, r)
  }

  lemma {:induction false} FewerPending(c: Core, q: QuestionId, r: Reading)
    requires q in c.pending
    ensures |Apply(c, Unask(q, false), r).pending| == |c.pending| - 1
  {
    OneKeyLess(c.pending, q);
  }

  function AskedBy(cursor: Cursor, plan: Plan, r: Reading): Asked
    requires plan.AskOne?
  {
    var waited := Waited(plan.anchor, r);
    Asked(plan.question,
          Wait(plan.session, cursor, plan.since, Elapsed(waited, r.ms), false, Some(AnchorOf(waited, r))))
  }

  /** The acts of a plan: the record is taken, and what it says is done. */
  ghost function PlanActs(c: Core, cursor: Cursor, plan: Plan, r: Reading, mode: Mode): (acts: seq<Act>)
    ensures forall act :: act in acts ==> OnInbox(act) || act.Unask? || (act.Advance? && act.cursor == cursor)
  {
    match plan
    case Nothing => [Advance(cursor, None)]
    case RaiseOne(raise) =>
      [Advance(cursor, None)] + RaiseActs(Apply(c, Advance(cursor, None), r), raise, r, mode)
    case EndOne(key) => [Advance(cursor, None)] + ResolveActs(c, key)
    case AskOne(q, _, _, _, raise) =>
      var asks := PendingBoundActs(c, q, r) + [Advance(cursor, Some(AskedBy(cursor, plan, r)))];
      asks + RaiseActs(Exec(c, asks, r), raise, r, mode)
    case AnswerOne(q, asked, reminder) =>
      [Advance(cursor, None)] + ([Unask(q, true)] + (ResolveActs(c, asked) + ResolveActs(c, reminder)))
  }

  ghost function DecideActs(c: Core, e: Event, r: Reading, mode: Mode): seq<Act> {
    PlanActs(c, e.cursor, PlanOf(c.digest, e), r, mode)
  }

  function NoteGapActs(c: Core, gap: Gap): seq<Act> {
    if (gap.to.Some? && gap.to.value <= gap.from) || gap in c.gaps then [] else [RecordGap(gap)]
  }

  /** Whether an event says anything the engine has not taken already. */
  predicate Takes(c: Core, cursor: Cursor) {
    && !IsFinalised(c, cursor.origin)
    && ((cursor.origin, cursor.source) in c.consumed ==> cursor.sequence > c.consumed[(cursor.origin, cursor.source)])
  }

  function MissedActs(c: Core, cursor: Cursor): seq<Act> {
    var next := NextSequence(c, cursor.origin, cursor.source);
    if NumbersEveryRecord(cursor.source) && cursor.sequence > next
    then NoteGapActs(c, Gap(cursor.origin, cursor.source, next, Some(cursor.sequence))) else []
  }

  ghost function ConsumeActs(c: Core, e: Event, r: Reading, mode: Mode): seq<Act> {
    if !Takes(c, e.cursor) then []
    else
      var missed := MissedActs(c, e.cursor);
      missed + DecideActs(Exec(c, missed, r), e, r, mode)
  }

  // ---- a tick ------------------------------------------------------------------------------

  /** The reading an origin's timers are decided against, when the host has certified one. */
  function CertifiedAt(c: Core, r: Reading, certified: map<Origin, nat>, origin: Origin): Option<Reading> {
    if IsFinalised(c, origin) then Some(r)
    else if origin in certified then Some(r.AtOrBefore(certified[origin]))
    else None
  }

  predicate ReminderDue(c: Core, r: Reading, certified: map<Origin, nat>, q: QuestionId)
    requires q in c.pending
  {
    var at := CertifiedAt(c, r, certified, c.pending[q].record.origin);
    !c.pending[q].reminded && at.Some? && c.pending[q].waited.Ms(at.value) >= IDLE_REMINDER_MS
  }

  function DueQuestions(c: Core, r: Reading, certified: map<Origin, nat>): set<QuestionId> {
    set q | q in c.pending && ReminderDue(c, r, certified, q)
  }

  function ReminderOf(digest: Subject -> nat, q: QuestionId, session: SessionId, record: Cursor, r: Reading): Raise {
    Raise(KeyFor(digest, InputIdleReminder, QuestionOf(q)),
          About(InputIdleReminder, record.source, record.origin, Some(session), Record(record), None, None, OwnerPolicy),
          r.wall, Some(r.Anchored()))
  }

  /** The acts of reminding of one question. */
  ghost function RemindOneActs(c: Core, q: QuestionId, r: Reading, certified: map<Origin, nat>): (acts: seq<Act>)
    requires q in c.pending && ReminderDue(c, r, certified, q)
    ensures forall act :: act in acts ==> OnInbox(act) || act.Remind?
  {
    var wait := c.pending[q];
    var remind := Remind(q, CertifiedAt(c, r, certified, wait.record.origin).value);
    [remind] + RaiseActs(Apply(c, remind, r), ReminderOf(c.digest, q, wait.session, wait.record, r), r, Live)
  }

  ghost function RemindActs(c: Core, qs: seq<QuestionId>, r: Reading, certified: map<Origin, nat>): (acts: seq<Act>)
    ensures forall act :: act in acts ==> OnInbox(act) || act.Remind?
    decreases |qs|
  {
    if qs == [] then []
    else if qs[0] !in c.pending || !ReminderDue(c, r, certified, qs[0]) then RemindActs(c, qs[1..], r, certified)
    else
      var acts := RemindOneActs(c, qs[0], r, certified);
      acts + RemindActs(Exec(c, acts, r), qs[1..], r, certified)
  }

  /** How far an item has climbed by its origin's certified reading, when that is further than it stands. */
  function ClimbOf(c: Core, k: Key, r: Reading, certified: map<Origin, nat>): Option<(Level, nat)>
    requires k in c.items
  {
    var at := CertifiedAt(c, r, certified, c.items[k].about.origin);
    if at.None? then None
    else
      var reached := LevelAfter(Policy(k.rule), c.items[k].age.Ms(at.value));
      if reached.1 > c.items[k].steps then Some(reached) else None
  }

  function ClimbActs(c: Core, keys: seq<Key>, r: Reading, certified: map<Origin, nat>): (acts: seq<Act>)
    requires forall k :: k in keys ==> k in c.items
    ensures forall act :: act in acts ==> act.Change?
  {
    if keys == [] then []
    else
      var climb := ClimbOf(c, keys[0], r, certified);
      (if climb.Some? then [Change(keys[0], Climb(climb.value.0, climb.value.1))] else []) +
      ClimbActs(c, keys[1..], r, certified)
  }

  /** Whether an announcement about an item is due at a tick, and whether it is the release of a held one. */
  function DueNow(c: Core, k: Key, r: Reading, certified: map<Origin, nat>): Option<bool>
    requires k in c.items
  {
    var item := c.items[k];
    var at := CertifiedAt(c, r, certified, item.about.origin);
    if at.None? then None
    else if item.ann.deferred then (if QuietAt(c.quiet, r) then None else Some(true))
    else if item.ann.since.None? then Some(false)
    else
      var ran := item.ann.since.value.Ms(at.value);
      var policy := Policy(k.rule);
      var owed := item.ann.level != Some(item.level) || (policy.repeatMs.Some? && ran >= policy.repeatMs.value);
      if owed && ran >= policy.dedupMs then Some(false) else None
  }

  function DueActs(c: Core, keys: seq<Key>, r: Reading, certified: map<Origin, nat>): (acts: seq<Act>)
    requires forall k :: k in keys ==> k in c.items
    ensures forall act :: act in acts ==> act.Change?
  {
    if keys == [] then []
    else
      var due := DueNow(c, keys[0], r, certified);
      (if due.Some? then [Change(keys[0], Announce(due.value))] else []) + DueActs(c, keys[1..], r, certified)
  }

  /** Reminders, then levels, then at most one announcement for each item, then the bound. */
  ghost function TickActs(c: Core, r: Reading, certified: map<Origin, nat>): (acts: seq<Act>)
    ensures forall act :: act in acts ==> OnInbox(act) || act.Remind?
  {
    var reminders := RemindActs(c, SortedQuestions(DueQuestions(c, r, certified)), r, certified);
    var c1 := Exec(c, reminders, r);
    var climbs := ClimbActs(c1, SortedKeys(c1.items.Keys), r, certified);
    var c2 := Exec(c1, climbs, r);
    var due := DueActs(c2, SortedKeys(c2.items.Keys), r, certified);
    var c3 := Exec(c2, due, r);
    reminders + climbs + due + BoundActs(c3, r)
  }

  // ---- the host's other calls --------------------------------------------------------------

  /** What a session's closure ends: its requests, whichever of the two ways they are its own. */
  predicate EndsWith(item: Item, session: SessionId) {
    && (item.about.origin == Session(session) || item.about.session == Some(session))
    && (item.about.rule.PendingApproval? || item.about.rule.PendingInput? || item.about.rule.InputIdleReminder?)
  }

  function EndActs(keys: seq<Key>): (acts: seq<Act>)
    ensures forall act :: act in acts ==> act.Leave?
  {
    if keys == [] then [] else [Leave(keys[0], End)] + EndActs(keys[1..])
  }

  ghost function FinaliseActs(c: Core, session: SessionId): seq<Act> {
    [Close(session)] + EndActs(SortedKeys(set k | k in c.items && EndsWith(c.items[k], session)))
  }

  function SettleActs(c: Core, settled: seq<(Key, nat)>): (acts: seq<Act>)
    ensures forall act :: act in acts ==> act.Change?
  {
    if settled == [] then []
    else
      (if settled[0].0 in c.items then [Change(settled[0].0, Settle(settled[0].1))] else []) +
      SettleActs(c, settled[1..])
  }

  /** Every interval measured again from the anchors the store kept. */
  function Reanchored(c: Core, r: Reading): Core {
    c.(items := map k | k in c.items :: ReanchoredItem(c.items[k], r),
    pending := map q | q in c.pending :: ReanchoredWait(c.pending[q], r))
  }

  function ReanchoredItem(item: Item, r: Reading): Item {
    var age := Waited(item.anchor, r);
    var since := Waited(item.ann.anchor, r);
    item.(age := Elapsed(age, r.ms), anchor := Some(AnchorOf(age, r)),
    ann := if item.ann.lastNotified.Some?
           then item.ann.(since := Some(Elapsed(since, r.ms)), anchor := Some(AnchorOf(since, r)))
           else item.ann.(since := None))
  }

  function ReanchoredWait(wait: Wait, r: Reading): Wait {
    var waited := Waited(wait.anchor, r);
    wait.(waited := Elapsed(waited, r.ms), anchor := Some(AnchorOf(waited, r)))
  }
}
