/** Quiet hours: nothing goes out inside the window in force, what is decided there is held, and what is
    held goes out once the window is over and its origin certified; nothing held is dropped. */
module Deferrals {
  import opened Time
  import opened Events
  import opened EngineModel
  import opened Runs
  import opened Guards
  import opened Handoff
  import opened Stamps
  import opened Calls
  import opened RunLog
  import opened Soundness

  /** A decision about `k`, whether it went out, was held, or let a held one go. */
  predicate Decision(e: Entry, k: Key) {
    e.Said? && (e.out.Notified? || e.out.Deferred? || e.out.Released?) && e.out.key == k
  }

  /** The latest decision about a condition since it was raised was to hold its announcement. */
  function Holds(log: seq<Entry>, k: Key): bool {
    if log == [] then false
    else
      var e := log[|log| - 1];
      if Begins(e, k) then false
      else if Decision(e, k) then e.out.Deferred?
      else Holds(log[..|log| - 1], k)
  }

  /** An item is held exactly when the log says so. */
  ghost predicate HeldExactly(w: World) {
    forall k :: k in w.core.items ==> (w.core.items[k].ann.deferred <==> Holds(w.log, k))
  }

  /** A release lets go of what is held, and what is held is not dropped. */
  predicate Heeds(log: seq<Entry>, e: Entry) {
    e.Said? ==> && (e.out.Released? ==> Holds(log, e.out.key))
                && (e.out.Dropped? ==> !Holds(log, e.out.key))
  }

  ghost predicate Heeded(log: seq<Entry>) {
    forall j :: 0 <= j < |log| ==> Heeds(log[..j], log[j])
  }

  lemma {:induction false} HoldsGrows(log: seq<Entry>, more: seq<Entry>, k: Key)
    requires |more| <= 1
    ensures Holds(log + more, k) ==
            if more == [] then Holds(log, k)
            else if Begins(more[0], k) then false
            else if Decision(more[0], k) then more[0].out.Deferred?
            else Holds(log, k)
  {
    LogGrows(log, more);
  }

  /** What an edit makes of an item being held, and what it says. */
  lemma {:induction false} EditHolds(c: Core, k: Key, edit: Edit, r: Reading)
    requires k in c.items
    ensures var after, note := Apply(c, Change(k, edit), r).items[k].ann.deferred, Note(c, Change(k, edit), r);
            if edit.Announce? then note != [] && Decision(note[0], k) && (after <==> note[0].out.Deferred?)
            else after == c.items[k].ann.deferred && forall e :: e in note ==> !Decision(e, k) && !Begins(e, k)
  {
  }

  lemma {:induction false} EditKeepsHeld(w: World, k: Key, edit: Edit)
    requires k in w.core.items && (w.core.items[k].ann.deferred <==> Holds(w.log, k))
    ensures var d := w.Do(Change(k, edit));
            k in d.core.items && (d.core.items[k].ann.deferred <==> Holds(d.log, k))
  {
    var note := Note(w.core, Change(k, edit), w.now);
    EditHolds(w.core, k, edit, w.now);
    HoldsGrows(w.log, note, k);
    assert note != [] ==> note[0] in note;
  }

  lemma {:induction false} ElsewhereKeepsHeld(w: World, act: Act, k: Key)
    requires k in w.core.items && (w.core.items[k].ann.deferred <==> Holds(w.log, k)) && !Touches(act, k)
    ensures var d := w.Do(act);
            k in d.core.items && (d.core.items[k].ann.deferred <==> Holds(d.log, k))
  {
    var note := Note(w.core, act, w.now);
    Untouched(w.core, act, w.now, k);
    HoldsGrows(w.log, note, k);
    assert note != [] ==> !Concerns(note[0], k);
  }

  lemma {:induction false} TouchedKeepsHeld(w: World, act: Act, k: Key)
    requires HeldExactly(w) && Touches(act, k) && !act.Change? && k in w.Do(act).core.items
    ensures w.Do(act).core.items[k].ann.deferred <==> Holds(w.Do(act).log, k)
  {
    HoldsGrows(w.log, Note(w.core, act, w.now), k);
  }

  lemma {:induction false} ActKeepsHeld(w: World, act: Act)
    requires HeldExactly(w)
    ensures HeldExactly(w.Do(act))
  {
    forall k | k in w.Do(act).core.items ensures w.Do(act).core.items[k].ann.deferred <==> Holds(w.Do(act).log, k) {
      if !Touches(act, k) {
        Untouched(w.core, act, w.now, k);
        ElsewhereKeepsHeld(w, act, k);
      } else if act.Change? {
        EditKeepsHeld(w, k, act.edit);
      } else {
        TouchedKeepsHeld(w, act, k);
      }
    }
  }

  /** An act whose guard holds releases only what is held, and drops only what is not. */
  lemma {:induction false} GuardedAct(w: World, act: Act, e: Entry)
    requires HeldExactly(w) && Enabled(w.core, act, w.now) && e in Note(w.core, act, w.now)
    ensures Heeds(w.log, e)
  {
  }

  lemma {:induction false} ActKeepsHeeded(w: World, act: Act)
    requires HeldExactly(w) && Heeded(w.log) && Enabled(w.core, act, w.now)
    ensures Heeded(w.Do(act).log)
  {
    var log, note := w.Do(act).log, Note(w.core, act, w.now);
    forall j | 0 <= j < |log| ensures Heeds(log[..j], log[j]) {
      if j < |w.log| {
        assert log[j] == w.log[j] && log[..j] == w.log[..j];
      } else {
        assert log[j] == note[0] && log[..j] == w.log;
        GuardedAct(w, act, note[0]);
      }
    }
  }

  ghost predicate Deferring(w: World) {
    HeldExactly(w) && Heeded(w.log)
  }

  /** Acts whose guards hold keep what is held exact, and let nothing out while the window in force is on. */
  lemma {:induction false} ActsKeepDeferring(w: World, acts: seq<Act>)
    requires Deferring(w) && AllEnabled(w.core, acts, w.now)
    ensures Deferring(Perform(w, acts))
    decreases |acts|
  {
    if acts != [] {
      ActKeepsHeld(w, acts[0]);
      ActKeepsHeeded(w, acts[0]);
      ActsKeepDeferring(w.Do(acts[0]), acts[1..]);
    }
  }

  lemma {:induction false} StepKeepsDeferring(w: World, op: Op)
    requires Deferring(w) && Consistent(w.core, w.now) && Timely(w, op)
    ensures Deferring(Step(w, op))
  {
    if op.Restart? {
      RestartKeepsDeferring(w, op.r);
    } else {
      var at := w.(now := ReadingOf(w.now, op));
      LaterKeepsConsistent(w.core, w.now, at.now);
      CallKeepsDeferring(at, op);
    }
  }

  lemma {:induction false} CallKeepsDeferring(w: World, op: Op)
    requires Deferring(w) && Consistent(w.core, w.now)
    ensures Deferring(Perform(w, ActsOf(w.core, op, w.now)))
  {
    OperationsAreEnabled(w.core, op, w.now);
    ActsKeepDeferring(w, ActsOf(w.core, op, w.now));
  }

  lemma {:induction false} RestartKeepsDeferring(w: World, r: Reading)
    requires Deferring(w)
    ensures Deferring(w.(core := Reanchored(w.core, r), now := r))
  {
  }

  lemma {:induction false} DeferringBefore(start: World, ops: seq<Op>, n: nat)
    requires FromEmpty(start, ops) && n <= |ops|
    ensures Deferring(Before(start, ops, n))
    decreases n
  {
    if n == 0 {
      assert ops[..0] == [];
    } else {
      DeferringBefore(start, ops, n - 1);
      DeferringNext(start, ops, n - 1);
    }
  }

  lemma {:induction false} DeferringNext(start: World, ops: seq<Op>, n: nat)
    requires FromEmpty(start, ops) && n < |ops| && Deferring(Before(start, ops, n))
    ensures Deferring(Before(start, ops, n + 1))
  {
    SoundBefore(start, ops, n);
    TimelyAt(start, ops, n);
    StepAt(start, ops, n);
    StepKeepsDeferring(Before(start, ops, n), ops[n]);
  }

  /** What a log in which every release and every drop heeds what is held says of its entry at place `j`. */
  lemma {:induction false} HeededAt(log: seq<Entry>, j: nat) returns (i: nat)
    requires Heeded(log)
    ensures j < |log| && log[j].Said? && log[j].out.Released? ==>
              && i < j && log[i].Said? && log[i].out.Deferred? && log[i].out.key == log[j].out.key
              && forall m :: i < m < j ==> !Decision(log[m], log[j].out.key) && !Begins(log[m], log[j].out.key)
    ensures j < |log| && log[j].Said? && log[j].out.Dropped? ==> !Holds(log[..j], log[j].out.key)
  {
    i := 0;
    if j < |log| {
      assert Heeds(log[..j], log[j]);
      if log[j].Said? && log[j].out.Released? { i := HeldByADeferral(log[..j], log[j].out.key); }
    }
  }

  /** What is held was deferred since it was raised, and nothing has been decided about it since. */
  lemma {:induction false} HeldByADeferral(log: seq<Entry>, k: Key) returns (i: nat)
    requires Holds(log, k)
    ensures i < |log| && log[i].Said? && log[i].out.Deferred? && log[i].out.key == k
    ensures forall m :: i < m < |log| ==> !Decision(log[m], k) && !Begins(log[m], k)
    decreases |log|
  {
    i := |log| - 1;
    if !Decision(log[i], k) {
      var rest := log[..|log| - 1];
      i := HeldByADeferral(rest, k);
      assert forall m :: 0 <= m < |rest| ==> rest[m] == log[m];
    }
  }

  // ---- the window in force -----------------------------------------------------------------

  /** Acts that set no window let nothing out inside the one in force. */
  lemma {:induction false} NothingGoesOut(c: Core, acts: seq<Act>, r: Reading, e: Entry)
    requires (forall act :: act in acts ==> !act.SetQuiet?) && e in Trace(c, acts, r) && e.Said?
    requires e.out.Notified? || e.out.Released?
    ensures !QuietAt(c.quiet, r) && e.at == r
    decreases |acts|
  {
    assert acts[0] in acts && Apply(c, acts[0], r).quiet == c.quiet;
    if e !in Note(c, acts[0], r) {
      NothingGoesOut(Apply(c, acts[0], r), acts[1..], r, e);
    }
  }

  lemma {:induction false} OnlyOneSetsQuiet(c: Core, op: Op, r: Reading)
    requires !op.SetQuietHours?
    ensures forall act :: act in ActsOf(c, op, r) ==> !act.SetQuiet?
  {
    if op.Consume? { ConsumeNeverCloses(c, op.event, r, op.mode); }
  }

  /** No call lets an announcement out at a reading inside the window in force. */
  lemma {:induction false} NothingGoesOutInQuietHours(w: World, op: Op, e: Entry)
    requires e in Wrote(w, op) && e.Said? && (e.out.Notified? || e.out.Released?)
    ensures e.at == ReadingOf(w.now, op) && !QuietAt(w.core.quiet, e.at)
  {
    var r := ReadingOf(w.now, op);
    SettingSaysNothing(w, op);
    if !op.SetQuietHours? {
      OnlyOneSetsQuiet(w.core, op, r);
      NothingGoesOut(w.core, ActsOf(w.core, op, r), r, e);
    }
  }

  lemma {:induction false} SettingSaysNothing(w: World, op: Op)
    ensures op.SetQuietHours? ==> Wrote(w, op) == []
  {
    if op.SetQuietHours? {
      var act := SetQuiet(op.quiet);
      assert [act][1..] == [] && Note(w.core, act, w.now) == [];
      assert Trace(w.core, [act], w.now) == [] + Trace(Apply(w.core, act, w.now), [], w.now);
    }
  }

  // ---- release -----------------------------------------------------------------------------

  /** After a tick outside the window that could decide an item's origin, the item is not held. */
  lemma {:induction false} TickReleases(c: Core, r: Reading, certified: map<Origin, nat>, k: Key)
    requires Consistent(c, r) && !QuietAt(c.quiet, r)
    requires var d := Exec(c, TickActs(c, r, certified), r);
             k in d.items && CertifiedAt(d, r, certified, d.items[k].about.origin).Some?
    ensures !Exec(c, TickActs(c, r, certified), r).items[k].ann.deferred
  {
    TickEndsWithBound(c, r, certified, k);
    TickKeepsWindow(c, r, certified);
    PassesAreDone(c, r, certified);
    DecidedIsNotHeld(Passes(c, r, certified), r, certified, k);
  }

  lemma {:induction false} PassesAreDone(c: Core, r: Reading, certified: map<Origin, nat>)
    requires Consistent(c, r)
    ensures PassesDone(Passes(c, r, certified), r, certified)
  {
    TickEnabled(c, r, certified);
  }

  lemma {:induction false} TickEndsWithBound(c: Core, r: Reading, certified: map<Origin, nat>, k: Key)
    requires Consistent(c, r) && k in Exec(c, TickActs(c, r, certified), r).items
    ensures var d, p := Exec(c, TickActs(c, r, certified), r), Passes(c, r, certified).decided;
            k in p.items && d.items[k] == p.items[k] && d.finalised == p.finalised
  {
    TickEnabled(c, r, certified);
    BoundLeavesItems(Passes(c, r, certified).decided, r, k);
  }

  lemma {:induction false} BoundLeavesItems(c: Core, r: Reading, k: Key)
    requires k in Exec(c, BoundActs(c, r), r).items
    ensures var d := Exec(c, BoundActs(c, r), r);
            k in c.items && d.items[k] == c.items[k] && d.finalised == c.finalised
    decreases |c.items|
  {
    var victim := Victim(c, r);
    if victim.Some? {
      FewerItems(c, victim.value, r);
      var dropped := Apply(c, Leave(victim.value, Drop), r);
      OneExec(c, Leave(victim.value, Drop), BoundActs(dropped, r), r);
      BoundLeavesItems(dropped, r, k);
    }
  }

  lemma {:induction false} TickKeepsWindow(c: Core, r: Reading, certified: map<Origin, nat>)
    requires Consistent(c, r)
    ensures Passes(c, r, certified).climbed.quiet == c.quiet
  {
    TickEnabled(c, r, certified);
    var qs := SortedQuestions(DueQuestions(c, r, certified));
    ActsKeepWindow(c, RemindActs(c, qs, r, certified), r);
  }

  lemma {:induction false} ActsKeepWindow(c: Core, acts: seq<Act>, r: Reading)
    requires forall act :: act in acts ==> !act.SetQuiet?
    ensures Exec(c, acts, r).quiet == c.quiet
    decreases |acts|
  {
    if acts != [] {
      assert acts[0] in acts;
      ActsKeepWindow(Apply(c, acts[0], r), acts[1..], r);
    }
  }

  lemma {:induction false} DecidedIsNotHeld(p: TickStates, r: Reading, certified: map<Origin, nat>, k: Key)
    requires PassesDone(p, r, certified) && k in p.decided.items && !QuietAt(p.climbed.quiet, r)
    requires CertifiedAt(p.decided, r, certified, p.decided.items[k].about.origin).Some?
    ensures !p.decided.items[k].ann.deferred
  {
    assert k in p.climbed.items && Visited(p.climbed, p.decided.items[k], k, r, certified);
    VisitedIsNotHeld(p.climbed, p.decided.finalised, p.decided.items[k], k, r, certified);
  }

  /** Outside the window an item whose origin the tick could decide is left held by no visit. */
  lemma {:induction false} VisitedIsNotHeld(
    c: Core, finalised: set<SessionId>, after: Item, k: Key, r: Reading, certified: map<Origin, nat>)
    requires k in c.items && Visited(c, after, k, r, certified) && !QuietAt(c.quiet, r)
    requires c.finalised == finalised && CertifiedAt(c, r, certified, after.about.origin).Some?
    ensures !after.ann.deferred
  {
    assert after.about == c.items[k].about;
  }
}
