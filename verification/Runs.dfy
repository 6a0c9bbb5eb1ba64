/** Whole runs of the engine: what the host may call, when each act is allowed, and the log a run leaves.

    Boots are placed on one physical time line by `epoch`: the continuous clock of boot `b` reads
    `ms` at physical moment `epoch(b) + ms`. Readings never go back on it. */
module Runs {
  import opened Common
  import opened Time
  import opened Rules
  import opened Events
  import opened EngineModel
  import opened Scope

  datatype World = World(core: Core, acks: Acks, now: Reading, log: seq<Entry>, epoch: nat -> nat) {
    /** A moment of a boot on the physical time line. */
    function At(boot: nat, ms: nat): nat {
      epoch(boot) + ms
    }

    function Of(r: Reading): nat {
      At(r.boot, r.ms)
    }

    /** The world after one act. */
    function Do(act: Act): World {
      World(Apply(core, act, now), ApplyToAcks(core, acks, act, now), now, log + Note(core, act, now), epoch)
    }
  }

  datatype Op =
    | Consume(event: Event, r: Reading, mode: Mode)
    | Tick(r: Reading, certified: map<Origin, nat>)
    | NoteGap(gap: Gap)
    | StartFrom(origin: Origin, source: Source, sequence: nat)
    | Finalise(session: SessionId)
    | SettleAnnouncements(settled: seq<(Key, nat)>)
    | SetQuietHours(quiet: Option<QuietHours>)
    | Acknowledge(actor: ActorId, viewer: Viewer, requested: seq<(Key, nat)>, r: Reading)
    | AcknowledgeCurrent(actor: ActorId, key: Key, r: Reading)
    | Restart(r: Reading)

  /** The reading an operation is made at; one that takes none is made at the last. */
  function ReadingOf(now: Reading, op: Op): Reading {
    match op
    case Consume(_, r, _) => r
    case Tick(r, _) => r
    case Acknowledge(_, _, _, r) => r
    case AcknowledgeCurrent(_, _, r) => r
    case Restart(r) => r
    case _ => now
  }

  ghost function ActsOf(c: Core, op: Op, r: Reading): seq<Act> {
    match op
    case Consume(e, _, mode) => ConsumeActs(c, e, r, mode)
    case Tick(_, certified) => TickActs(c, r, certified)
    case NoteGap(gap) => NoteGapActs(c, gap)
    case StartFrom(o, s, n) => [Skip(o, s, n)]
    case Finalise(session) => FinaliseActs(c, session)
    case SettleAnnouncements(settled) => SettleActs(c, settled)
    case SetQuietHours(quiet) => [SetQuiet(quiet)]
    case Acknowledge(actor, viewer, requested, _) => AcknowledgeActs(c, actor, viewer, requested)
    case AcknowledgeCurrent(actor, key, _) => AcknowledgeCurrentActs(c, actor, key)
    case Restart(_) => []
  }

  /** A restart brings back what was saved and measures every interval again; any other operation
      moves the clock to its reading and performs its acts there. */
  ghost function Step(w: World, op: Op): World {
    if op.Restart? then w.(core := Reanchored(w.core, op.r), now := op.r)
    else
      var at := w.(now := ReadingOf(w.now, op));
      Perform(at, ActsOf(at.core, op, at.now))
  }

  ghost function Perform(w: World, acts: seq<Act>): World
    decreases |acts|
  {
    if acts == [] then w else Perform(w.Do(acts[0]), acts[1..])
  }

  ghost function Run(w: World, ops: seq<Op>): World
    decreases |ops|
  {
    if ops == [] then w else Run(Step(w, ops[0]), ops[1..])
  }

  /** Physical time never goes back, and the boot only changes through a restart. */
  ghost predicate Timely(w: World, op: Op) {
    var r := ReadingOf(w.now, op);
    if op.Restart? then w.Of(w.now) <= w.Of(r) else r.boot == w.now.boot && w.now.ms <= r.ms
  }

  ghost predicate TimelyRun(w: World, ops: seq<Op>)
    decreases |ops|
  {
    ops == [] || (Timely(w, ops[0]) && TimelyRun(Step(w, ops[0]), ops[1..]))
  }

  function Start(digest: Subject -> nat, r: Reading, epoch: nat -> nat): World {
    World(Fresh(digest), map[], r, [], epoch)
  }

  lemma {:induction false} PerformIsExec(w: World, acts: seq<Act>)
    ensures Perform(w, acts) ==
            World(Exec(w.core, acts, w.now), ExecAcks(w.core, w.acks, acts, w.now), w.now,
                  w.log + Trace(w.core, acts, w.now), w.epoch)
    decreases |acts|
  {
    if acts == [] {
      assert w.log + [] == w.log;
    } else {
      PerformIsExec(w.Do(acts[0]), acts[1..]);
      WrittenInTurn(w.log, Note(w.core, acts[0], w.now), Trace(w.Do(acts[0]).core, acts[1..], w.now));
    }
  }

  lemma {:induction false} WrittenInTurn(a: seq<Entry>, b: seq<Entry>, c: seq<Entry>)
    ensures a + b + c == a + (b + c)
  {
  }

  // ---- guards ------------------------------------------------------------------------------

  /** When the engine takes an act. Every property of a run rests on these and on nothing else. */
  ghost predicate Enabled(c: Core, act: Act, r: Reading) {
    && Present(c, act)
    && match act
       case RecordGap(gap) => gap.to.Some? ==> gap.from < gap.to.value
       case Advance(cursor, asked) =>
         && Takes(c, cursor)
         && (NumbersEveryRecord(cursor.source) ==> cursor.sequence <= NextSequence(c, cursor.origin, cursor.source))
         && (asked.Some? ==>
               && asked.value.wait.record == cursor && !asked.value.wait.reminded
               && asked.value.wait.waited.anchor == r.ms && asked.value.wait.waited.already <= r.ms
               && asked.value.wait.anchor == Some(Anchor(r.boot, asked.value.wait.waited.Start())))
       case Unask(q, answered) => !answered ==> q in c.pending && c.pending[q].reminded
       case Remind(q, certified) =>
         && !c.pending[q].reminded && certified.boot == r.boot && certified.ms <= r.ms
         && c.pending[q].waited.Ms(certified) >= IDLE_REMINDER_MS
       case Enter(raise) => raise.about.rule == raise.key.rule
       case Change(k, edit) => Allowed(c.items[k], edit, QuietAt(c.quiet, r), r)
       case Leave(k, how) => how.Drop? ==> Droppable(c.items[k], r) && |c.items| > MAX_ITEMS
       case Ack(_, k, revision) => revision == c.items[k].revision
       case _ => true
  }

  /** When an item may be edited: nothing is announced, or left undecided, while its window runs. */
  ghost predicate Allowed(item: Item, edit: Edit, quiet: bool, r: Reading) {
    match edit
    case Undecide => !Inside(item, r)
    case Suppress => Inside(item, r)
    case Announce(released) => if released then item.ann.deferred && !quiet else !Inside(item, r)
    case Climb(_, steps) => item.steps < steps <= |Policy(item.key.rule).steps|
    case _ => true
  }

  ghost predicate AllEnabled(c: Core, acts: seq<Act>, r: Reading)
    decreases |acts|
  {
    acts == [] || (Enabled(c, acts[0], r) && AllEnabled(Apply(c, acts[0], r), acts[1..], r))
  }

  lemma {:induction false} EnabledConcat(c: Core, a: seq<Act>, b: seq<Act>, r: Reading)
    requires AllEnabled(c, a, r) && AllEnabled(Exec(c, a, r), b, r)
    ensures AllEnabled(c, a + b, r)
    decreases |a|
  {
    if a == [] {
      assert a + b == b;
    } else {
      assert (a + b)[0] == a[0] && (a + b)[1..] == a[1..] + b;
      EnabledConcat(Apply(c, a[0], r), a[1..], b, r);
    }
  }

  // ---- what an act leaves alone ------------------------------------------------------------

  /** Whether an act is about the item `k`. */
  predicate Touches(act: Act, k: Key) {
    match act
    case Enter(raise) => raise.key == k
    case Change(key, _) => key == k
    case Leave(key, _) => key == k
    case Ack(_, key, _) => key == k
    case _ => false
  }

  /** Whether an entry of the log is about the item `k`. */
  predicate Concerns(e: Entry, k: Key) {
    || (e.Said? && !e.out.GapRecorded? && e.out.key == k)
    || (e.Acked? && e.key == k)
    || (e.Settled? && e.key == k)
  }

  /** An act about something else leaves an item as it was, but for a gap that makes it uncertain,
      and writes nothing about it. */
  lemma {:induction false} Untouched(c: Core, act: Act, r: Reading, k: Key)
    requires !Touches(act, k)
    ensures k in Apply(c, act, r).items <==> k in c.items
    ensures k in c.items ==> Apply(c, act, r).items[k] == c.items[k].(uncertain := Apply(c, act, r).items[k].uncertain)
    ensures forall e :: e in Note(c, act, r) ==> !Concerns(e, k)
  {
  }

  // ---- what every world keeps --------------------------------------------------------------

  /** An item is filed under its own key, and its numbers are ones the engine has handed out. */
  ghost predicate ItemNamed(c: Core, k: Key)
    requires k in c.items
  {
    var item := c.items[k];
    && item.key == k && item.about.rule == k.rule
    && item.revision <= c.nextRevision
    && (item.ann.pending.Some? ==> item.ann.pending.value <= c.nextAnnouncement)
  }

  /** Each interval runs on this boot's clock, from the moment the item's anchor keeps. */
  ghost predicate ItemTimed(item: Item, now: Reading) {
    && item.age.Began(now.ms) && item.anchor == Some(Anchor(now.boot, item.age.Start()))
    && (item.ann.since.Some? <==> item.ann.lastNotified.Some?)
    && (item.ann.since.Some? ==>
          && item.ann.since.value.Began(now.ms)
          && item.ann.anchor == Some(Anchor(now.boot, item.ann.since.value.Start())))
  }

  ghost predicate WaitConsistent(wait: Wait, now: Reading) {
    wait.waited.Began(now.ms) && wait.anchor == Some(Anchor(now.boot, wait.waited.Start()))
  }

  /** A recorded range that ended has been consumed past. */
  ghost predicate GapsBehind(c: Core) {
    forall g :: g in c.gaps && g.to.Some? ==>
      (g.origin, g.source) in c.consumed && g.to.value <= c.consumed[(g.origin, g.source)] + 1
  }

  ghost predicate Consistent(c: Core, now: Reading) {
    && (forall k :: k in c.items ==> ItemNamed(c, k) && ItemTimed(c.items[k], now))
    && (forall q :: q in c.pending ==> WaitConsistent(c.pending[q], now))
    && GapsBehind(c)
  }

  lemma {:induction false} ActKeepsNamed(c: Core, act: Act, r: Reading, k: Key)
    requires Enabled(c, act, r)
    requires k in Apply(c, act, r).items
    requires k in c.items ==> ItemNamed(c, k)
    ensures ItemNamed(Apply(c, act, r), k)
  {
  }

  lemma {:induction false} ActKeepsTimed(c: Core, act: Act, r: Reading, k: Key)
    requires Enabled(c, act, r)
    requires k in Apply(c, act, r).items
    requires k in c.items ==> ItemTimed(c.items[k], r)
    ensures ItemTimed(Apply(c, act, r).items[k], r)
  {
    if act.Change? && act.key == k { EditKeepsTimed(c, k, act.edit, r); }
  }

  lemma {:induction false} EditKeepsTimed(c: Core, k: Key, edit: Edit, r: Reading)
    requires k in c.items && ItemTimed(c.items[k], r)
    ensures k in Apply(c, Change(k, edit), r).items && ItemTimed(Apply(c, Change(k, edit), r).items[k], r)
  {
  }

  lemma {:induction false} ActKeepsWait(c: Core, act: Act, r: Reading, q: QuestionId)
    requires Enabled(c, act, r)
    requires q in Apply(c, act, r).pending
    requires q in c.pending ==> WaitConsistent(c.pending[q], r)
    ensures WaitConsistent(Apply(c, act, r).pending[q], r)
  {
  }

  lemma {:induction false} ActKeepsGapsBehind(c: Core, act: Act, r: Reading)
    requires Enabled(c, act, r) && GapsBehind(c)
    ensures GapsBehind(Apply(c, act, r))
  {
  }

  lemma {:induction false} ActKeepsConsistent(c: Core, act: Act, r: Reading)
    requires Consistent(c, r) && Enabled(c, act, r)
    ensures Consistent(Apply(c, act, r), r)
  {
    var d := Apply(c, act, r);
    forall k | k in d.items ensures ItemNamed(d, k) && ItemTimed(d.items[k], r) {
      ActKeepsNamed(c, act, r, k);
      ActKeepsTimed(c, act, r, k);
    }
    forall q | q in d.pending ensures WaitConsistent(d.pending[q], r) { ActKeepsWait(c, act, r, q); }
    ActKeepsGapsBehind(c, act, r);
  }

  lemma {:induction false} LaterKeepsConsistent(c: Core, now: Reading, r: Reading)
    requires Consistent(c, now) && now.boot == r.boot && now.ms <= r.ms
    ensures Consistent(c, r)
  {
  }

  lemma {:induction false} ReanchoredTimed(item: Item, now: Reading, r: Reading)
    requires ItemTimed(item, now)
    ensures ItemTimed(ReanchoredItem(item, r), r)
  {
  }

  lemma {:induction false} RestartKeepsConsistent(c: Core, now: Reading, r: Reading)
    requires Consistent(c, now)
    ensures Consistent(Reanchored(c, r), r)
  {
    var d := Reanchored(c, r);
    forall k | k in d.items ensures ItemNamed(d, k) && ItemTimed(d.items[k], r) {
      ReanchoredTimed(c.items[k], now, r);
    }
    forall q | q in d.pending ensures WaitConsistent(d.pending[q], r) {
      assert WaitConsistent(c.pending[q], now);
    }
  }

  lemma {:induction false} ActsKeepConsistent(c: Core, acts: seq<Act>, r: Reading)
    requires Consistent(c, r) && AllEnabled(c, acts, r)
    ensures Consistent(Exec(c, acts, r), r)
    decreases |acts|
  {
    if acts != [] {
      ActKeepsConsistent(c, acts[0], r);
      ActsKeepConsistent(Apply(c, acts[0], r), acts[1..], r);
    }
  }
}
