/** An announcement a tick makes again is late, never early: its window, and its repeat where nothing but
    time has changed, have run out by a reading its origin's records have been read up to. */
module Repeats {
  import opened Common
  import opened Time
  import opened Rules
  import opened Events
  import opened EngineModel
  import opened Runs
  import opened Guards
  import opened Spacing
  import opened Handoff
  import opened Calls
  import opened Certificates
  import opened Timers
  import opened RunLog
  import opened Soundness

  // ---- what the engine remembers of the last announcement ----------------------------------

  function LevelSaid(out: Outcome): Level
    requires out.Notified? || out.Released?
  {
    out.level
  }

  /** The level of the latest announcement that went out about a condition that has not ended since. */
  function LastLevel(log: seq<Entry>, k: Key): Option<Level> {
    if log == [] then None
    else
      var e := log[|log| - 1];
      if Delivers(e, k) then Some(LevelSaid(e.out))
      else if Ends(e, k) then None
      else LastLevel(log[..|log| - 1], k)
  }

  /** An item decided about and not held remembers the level its last announcement went out at. */
  ghost predicate HeardItem(log: seq<Entry>, k: Key, ann: Announcing) {
    ann.since.Some? && !ann.deferred ==> LastLevel(log, k).Some? && ann.level == LastLevel(log, k)
  }

  ghost predicate Heard(w: World) {
    forall k :: k in w.core.items ==> HeardItem(w.log, k, w.core.items[k].ann)
  }

  lemma {:induction false} LevelGrows(log: seq<Entry>, more: seq<Entry>, k: Key)
    requires |more| <= 1
    ensures LastLevel(log + more, k) ==
            if more == [] then LastLevel(log, k)
            else if Delivers(more[0], k) then Some(LevelSaid(more[0].out))
            else if Ends(more[0], k) then None
            else LastLevel(log, k)
  {
    LogGrows(log, more);
  }

  lemma {:induction false} ElsewhereKeepsHeard(w: World, act: Act, k: Key)
    requires k in w.core.items && HeardItem(w.log, k, w.core.items[k].ann) && !Touches(act, k)
    ensures k in w.Do(act).core.items && HeardItem(w.Do(act).log, k, w.Do(act).core.items[k].ann)
  {
    var note := Note(w.core, act, w.now);
    Untouched(w.core, act, w.now, k);
    LevelGrows(w.log, note, k);
    assert note != [] ==> !Concerns(note[0], k);
  }

  /** What an edit makes of an item's announcing half, and what it says. */
  lemma {:induction false} EditHeard(c: Core, k: Key, edit: Edit, r: Reading)
    requires k in c.items
    ensures var ann, after, note := c.items[k].ann, Apply(c, Change(k, edit), r).items[k].ann, Note(c, Change(k, edit), r);
            && |note| <= 1
            && (edit.Announce? && !QuietAt(c.quiet, r) ==>
                  note != [] && Delivers(note[0], k) && after.level == Some(LevelSaid(note[0].out)))
            && (edit.Announce? && QuietAt(c.quiet, r) ==> after.deferred)
            && (edit.Undecide? ==> after.since.None?)
            && (!edit.Announce? && !edit.Undecide? ==>
                  && after.since == ann.since && after.deferred == ann.deferred && after.level == ann.level
                  && forall e :: e in note ==> !Delivers(e, k) && !Ends(e, k))
  {
  }

  lemma {:induction false} EditKeepsHeard(w: World, k: Key, edit: Edit)
    requires k in w.core.items && HeardItem(w.log, k, w.core.items[k].ann)
    ensures HeardItem(w.Do(Change(k, edit)).log, k, w.Do(Change(k, edit)).core.items[k].ann)
  {
    var note := Note(w.core, Change(k, edit), w.now);
    EditHeard(w.core, k, edit, w.now);
    LevelGrows(w.log, note, k);
    assert note != [] ==> note[0] in note;
  }

  lemma {:induction false} ActKeepsHeard(w: World, act: Act)
    requires Heard(w)
    ensures Heard(w.Do(act))
  {
    forall k | k in w.Do(act).core.items ensures HeardItem(w.Do(act).log, k, w.Do(act).core.items[k].ann) {
      if !Touches(act, k) {
        Untouched(w.core, act, w.now, k);
        ElsewhereKeepsHeard(w, act, k);
      } else if act.Change? {
        EditKeepsHeard(w, k, act.edit);
      } else {
        TouchedOtherwise(w, act, k);
      }
    }
  }

  lemma {:induction false} TouchedOtherwise(w: World, act: Act, k: Key)
    requires Heard(w) && Touches(act, k) && !act.Change? && k in w.Do(act).core.items
    ensures HeardItem(w.Do(act).log, k, w.Do(act).core.items[k].ann)
  {
    LevelGrows(w.log, Note(w.core, act, w.now), k);
  }

  lemma {:induction false} ActsKeepHeard(w: World, acts: seq<Act>)
    requires Heard(w)
    ensures Heard(Perform(w, acts))
    decreases |acts|
  {
    if acts != [] {
      ActKeepsHeard(w, acts[0]);
      ActsKeepHeard(w.Do(acts[0]), acts[1..]);
    }
  }

  lemma {:induction false} StepKeepsHeard(w: World, op: Op)
    requires Heard(w) && Consistent(w.core, w.now)
    ensures Heard(Step(w, op))
  {
    if op.Restart? {
      forall k | k in w.core.items ensures HeardItem(w.log, k, ReanchoredItem(w.core.items[k], op.r).ann) {
        assert ItemTimed(w.core.items[k], w.now);
      }
    } else {
      var at := w.(now := ReadingOf(w.now, op));
      ActsKeepHeard(at, ActsOf(at.core, op, at.now));
    }
  }

  lemma {:induction false} HeardBefore(start: World, ops: seq<Op>, n: nat)
    requires FromEmpty(start, ops) && n <= |ops|
    ensures Heard(Before(start, ops, n))
    decreases n
  {
    if n == 0 {
      assert ops[..0] == [];
    } else {
      HeardBefore(start, ops, n - 1);
      SoundBefore(start, ops, n - 1);
      StepKeepsHeard(Before(start, ops, n - 1), ops[n - 1]);
      StepAt(start, ops, n - 1);
    }
  }

  // ---- what an announcement of a tick is decided on ----------------------------------------

  lemma {:induction false} NotifiedByAnnouncing(c: Core, acts: seq<Act>, r: Reading, e: Entry)
    requires e in Trace(c, acts, r) && e.Said? && e.out.Notified?
    ensures Change(e.out.key, Announce(false)) in acts
    decreases |acts|
  {
    if e !in Note(c, acts[0], r) {
      NotifiedByAnnouncing(Apply(c, acts[0], r), acts[1..], r, e);
    }
  }

  /** Acts that only announce leave every item's level as it is, and announce each at that level. */
  lemma {:induction false} AnnouncedAtItsLevel(c: Core, acts: seq<Act>, r: Reading, e: Entry)
    requires forall act :: act in acts ==> act.Change? && act.edit.Announce?
    requires e in Trace(c, acts, r) && e.Said? && e.out.Notified?
    ensures e.out.key in c.items && e.out.level == c.items[e.out.key].level
    decreases |acts|
  {
    assert acts[0].Change? && acts[0].edit.Announce?;
    if e !in Note(c, acts[0], r) {
      AnnouncedAtItsLevel(Apply(c, acts[0], r), acts[1..], r, e);
    }
  }

  lemma {:induction false} DueActIs(c: Core, keys: seq<Key>, r: Reading, certified: map<Origin, nat>, act: Act)
    requires (forall k :: k in keys ==> k in c.items) && act in DueActs(c, keys, r, certified)
    ensures act.Change? && act.key in keys && act.edit.Announce?
    ensures DueNow(c, act.key, r, certified) == Some(act.edit.released)
    decreases |keys|
  {
    var due := DueNow(c, keys[0], r, certified);
    if !(due.Some? && act == Change(keys[0], Announce(due.value))) {
      DueActIs(c, keys[1..], r, certified, act);
    }
  }

  /** An announcement of a tick, of no reminder it has just raised, is one its third pass found due. */
  lemma {:induction false} NotifiedIsDue(c: Core, r: Reading, certified: map<Origin, nat>, e: Entry)
    requires e in Trace(c, TickActs(c, r, certified), r) && e.Said? && e.out.Notified?
    requires Unreminded(c, r, certified, e.out.key)
    ensures var c2 := Passes(c, r, certified).climbed;
            && e.out.key in c2.items && DueNow(c2, e.out.key, r, certified) == Some(false)
            && e.out.level == c2.items[e.out.key].level
  {
    var reminders := RemindActs(c, SortedQuestions(DueQuestions(c, r, certified)), r, certified);
    var c1 := Exec(c, reminders, r);
    TickSplits(c, r, certified);
    NoReminderNotifies(c, r, certified, e);
    ExecConcat(c, map[], reminders, TickRest(c1, r, certified), r);
    NotifiedInTheRest(c1, r, certified, e);
  }

  lemma {:induction false} NoReminderNotifies(c: Core, r: Reading, certified: map<Origin, nat>, e: Entry)
    requires e.Said? && e.out.Notified? && Unreminded(c, r, certified, e.out.key)
    ensures e !in Trace(c, RemindActs(c, SortedQuestions(DueQuestions(c, r, certified)), r, certified), r)
  {
    var qs := SortedQuestions(DueQuestions(c, r, certified));
    RemindersOnlyDrop(c, qs, r, certified, e.out.key);
    OnlyDropsAreSaid(c, RemindActs(c, qs, r, certified), r, e.out.key);
    assert Concerns(e, e.out.key) && e.out != Dropped(e.out.key);
  }

  lemma {:induction false} NotifiedInTheRest(c1: Core, r: Reading, certified: map<Origin, nat>, e: Entry)
    requires e in Trace(c1, TickRest(c1, r, certified), r) && e.Said? && e.out.Notified?
    ensures var c2 := Exec(c1, ClimbActs(c1, SortedKeys(c1.items.Keys), r, certified), r);
            && e.out.key in c2.items && DueNow(c2, e.out.key, r, certified) == Some(false)
            && e.out.level == c2.items[e.out.key].level
  {
    var keys := SortedKeys(c1.items.Keys);
    var climbs := ClimbActs(c1, keys, r, certified);
    var c2 := Exec(c1, climbs, r);
    var due := DueActs(c2, SortedKeys(c2.items.Keys), r, certified);
    var bound := BoundActs(Exec(c2, due, r), r);
    ClimbsAndDueOnlyEdit(c1, keys, r, certified);
    ClimbsAndDueOnlyEdit(c2, SortedKeys(c2.items.Keys), r, certified);
    ThreeTraces(c1, climbs, due, bound, r);
    if e in Trace(c1, climbs, r) { NotifiedByAnnouncing(c1, climbs, r, e); }
    if e in Trace(Exec(c2, due, r), bound, r) { NotifiedByAnnouncing(Exec(c2, due, r), bound, r, e); }
    NotifiedByAnnouncing(c2, due, r, e);
    DueActIs(c2, SortedKeys(c2.items.Keys), r, certified, Change(e.out.key, Announce(false)));
    AnnouncedAtItsLevel(c2, due, r, e);
  }

  lemma {:induction false} ThreeTraces(c: Core, a: seq<Act>, b: seq<Act>, d: seq<Act>, r: Reading)
    ensures Trace(c, a + b + d, r) ==
            Trace(c, a, r) + Trace(Exec(c, a, r), b, r) + Trace(Exec(Exec(c, a, r), b, r), d, r)
  {
    ExecConcat(c, map[], a, b, r);
    ExecConcat(c, map[], a + b, d, r);
  }

  /** What a decision of a tick about an item decided about before rests on. */
  lemma {:induction false} DueMeans(c: Core, k: Key, r: Reading, certified: map<Origin, nat>) returns (at: Reading)
    requires k in c.items && DueNow(c, k, r, certified) == Some(false)
    ensures DecidedAt(c, r, certified, c.items[k].about.origin, at) && !c.items[k].ann.deferred
    ensures var ann, policy := c.items[k].ann, Policy(k.rule);
            ann.since.Some? ==>
              && ann.since.value.Ms(at) >= policy.dedupMs
              && (ann.level == Some(c.items[k].level) ==> policy.repeatMs.Some? && ann.since.value.Ms(at) >= policy.repeatMs.value)
  {
    at := CertifiedAt(c, r, certified, c.items[k].about.origin).value;
  }

  /** The item a tick's third pass decides about announces as it did before the tick. */
  lemma {:induction false} SameAnnouncing(c: Core, r: Reading, certified: map<Origin, nat>, k: Key)
    requires Consistent(c, r) && Unreminded(c, r, certified, k) && k in Passes(c, r, certified).climbed.items
    ensures var c2 := Passes(c, r, certified).climbed;
            && k in c.items && c2.items[k].ann == c.items[k].ann && c2.items[k].about == c.items[k].about
            && c2.finalised == c.finalised
  {
    TickEnabled(c, r, certified);
    ClimbingKeepsAnnouncing(Passes(c, r, certified), r, certified, k);
    RemindersLeaveIt(c, r, certified, k);
  }

  lemma {:induction false} ClimbingKeepsAnnouncing(p: TickStates, r: Reading, certified: map<Origin, nat>, k: Key)
    requires PassesDone(p, r, certified) && k in p.climbed.items
    ensures k in p.reminded.items && p.climbed.items[k].ann == p.reminded.items[k].ann
    ensures p.climbed.items[k].about == p.reminded.items[k].about && p.climbed.finalised == p.reminded.finalised
  {
    assert p.climbed.items[k] == Climbed(p.reminded, k, r, certified);
  }

  lemma {:induction false} RemindersLeaveIt(c: Core, r: Reading, certified: map<Origin, nat>, k: Key)
    requires Unreminded(c, r, certified, k) && k in Passes(c, r, certified).reminded.items
    ensures var c1 := Passes(c, r, certified).reminded;
            k in c.items && c1.items[k] == c.items[k] && c1.finalised == c.finalised
  {
    var qs := SortedQuestions(DueQuestions(c, r, certified));
    RemindersOnlyDrop(c, qs, r, certified, k);
    DroppedOrSame(c, RemindActs(c, qs, r, certified), r, k);
  }

  /** What a tick's announcement about an item rests on: the reading it is decided at, and, for an item it
      had decided about, that the window since its last announcement has run by then, and the repeat too
      where the level is the one last announced. */
  lemma {:induction false} NotifiedInTime(w: World, op: Op, e: Entry) returns (at: Reading)
    requires Consistent(w.core, w.now) && Timely(w, op) && op.Tick?
    requires e in Wrote(w, op) && e.Said? && e.out.Notified? && Unreminded(w.core, op.r, op.certified, e.out.key)
    ensures e.out.key in w.core.items
    ensures DecidedAt(w.core, op.r, op.certified, w.core.items[e.out.key].about.origin, at) && at.boot == w.now.boot
    ensures var ann, policy := w.core.items[e.out.key].ann, Policy(e.out.key.rule);
            ann.since.Some? ==>
              && !ann.deferred && ann.since.value.Ms(at) >= policy.dedupMs
              && (ann.level == Some(e.out.level) ==> policy.repeatMs.Some? && ann.since.value.Ms(at) >= policy.repeatMs.value)
  {
    LaterKeepsConsistent(w.core, w.now, op.r);
    NotifiedIsDue(w.core, op.r, op.certified, e);
    SameAnnouncing(w.core, op.r, op.certified, e.out.key);
    at := DueMeans(Passes(w.core, op.r, op.certified).climbed, e.out.key, op.r, op.certified);
  }

  lemma {:induction false} LevelOfADelivery(log: seq<Entry>, k: Key)
    ensures LastLevel(log, k).Some? <==> LastDelivery(log, k).Some?
    decreases |log|
  {
    if log != [] { LevelOfADelivery(log[..|log| - 1], k); }
  }

  /** An announcement of a tick is decided at its origin's own reading, and, for an item decided about
      before, a window of physical time by then after the last announcement about it, and a repeat by then
      where that was of the same level. */
  ghost predicate AnnouncedInTime(w: World, op: Op, e: Entry, at: Reading)
    requires op.Tick? && e.Said? && e.out.Notified?
  {
    var k := e.out.key;
    && k in w.core.items && DecidedAt(w.core, op.r, op.certified, w.core.items[k].about.origin, at)
    && (w.core.items[k].ann.since.Some? ==>
          && LastDelivery(w.log, k).Some?
          && w.Of(LastDelivery(w.log, k).value) + Policy(k.rule).dedupMs <= w.Of(at)
          && (LastLevel(w.log, k) == Some(e.out.level) ==>
                && Policy(k.rule).repeatMs.Some?
                && w.Of(LastDelivery(w.log, k).value) + Policy(k.rule).repeatMs.value <= w.Of(at)))
  }

  lemma {:induction false} NotifiedLate(w: World, op: Op, e: Entry) returns (at: Reading)
    requires Consistent(w.core, w.now) && Heard(w) && Timely(w, op) && op.Tick?
    requires e in Wrote(w, op) && e.Said? && e.out.Notified? && Rested(w, e.out.key)
    requires Unreminded(w.core, op.r, op.certified, e.out.key)
    ensures AnnouncedInTime(w, op, e, at)
  {
    at := NotifiedInTime(w, op, e);
    SinceTheLast(w, e.out.key, at, e.out.level);
  }

  lemma {:induction false} SinceTheLast(w: World, k: Key, at: Reading, level: Level)
    requires k in w.core.items && HeardItem(w.log, k, w.core.items[k].ann) && Rested(w, k) && at.boot == w.now.boot
    requires var ann, policy := w.core.items[k].ann, Policy(k.rule);
             ann.since.Some? ==>
               && !ann.deferred && ann.since.value.Ms(at) >= policy.dedupMs
               && (ann.level == Some(level) ==> policy.repeatMs.Some? && ann.since.value.Ms(at) >= policy.repeatMs.value)
    ensures w.core.items[k].ann.since.Some? ==>
              && LastDelivery(w.log, k).Some?
              && w.Of(LastDelivery(w.log, k).value) + Policy(k.rule).dedupMs <= w.Of(at)
              && (LastLevel(w.log, k) == Some(level) ==>
                    && Policy(k.rule).repeatMs.Some?
                    && w.Of(LastDelivery(w.log, k).value) + Policy(k.rule).repeatMs.value <= w.Of(at))
  {
    LevelOfADelivery(w.log, k);
    var ann, policy := w.core.items[k].ann, Policy(k.rule);
    if ann.since.Some? {
      RanSoLong(ann.since.value, at, policy.dedupMs);
      if ann.level == Some(level) { RanSoLong(ann.since.value, at, policy.repeatMs.value); }
    }
  }

  /** A question whose reminder an item would be is reminded of in the tick that finds it due. */
  lemma {:induction false} RemindedNow(w: World, op: Op, k: Key) returns (x: Entry)
    requires op.Tick? && !Unreminded(w.core, op.r, op.certified, k)
    ensures x in Wrote(w, op) && x.Reminded? && KeyFor(w.core.digest, InputIdleReminder, QuestionOf(x.question)) == k
  {
    var q :| q in DueQuestions(w.core, op.r, op.certified) && KeyFor(w.core.digest, InputIdleReminder, QuestionOf(q)) == k;
    var record := w.core.pending[q].record;
    x := Reminded(q, record, CertifiedAt(w.core, op.r, op.certified, record.origin).value);
    TickReminds(w.core, op.r, op.certified, x);
  }
}
