/** What the engine counts, lists and says of its own announcing is what it said: how often each item has been
    announced since it was raised, how and when it last decided about it, and the newest of the ranges it
    recorded as missing. */
module Tallies {
  import opened Common
  import opened Time
  import opened Events
  import opened EngineModel
  import opened Runs
  import opened Guards
  import opened Spacing
  import opened Handoff
  import opened Stamps
  import opened Deferrals
  import opened RunLog
  import opened Soundness

  /** How many announcements about a condition went out since it was last raised. */
  function TimesAnnounced(log: seq<Entry>, k: Key): nat {
    if log == [] then 0
    else
      var e, rest := log[|log| - 1], log[..|log| - 1];
      if Begins(e, k) then 0 else TimesAnnounced(rest, k) + if Delivers(e, k) then 1 else 0
  }

  /** The ranges recorded as missing, in the order they were. */
  function RangesRecorded(log: seq<Entry>): seq<Gap> {
    if log == [] then []
    else
      var e, rest := log[|log| - 1], RangesRecorded(log[..|log| - 1]);
      if e.Said? && e.out.GapRecorded? then rest + [e.out.gap] else rest
  }

  /** The last of a list, as many as fit. */
  function Newest(gaps: seq<Gap>): seq<Gap> {
    if |gaps| > MAX_GAPS then gaps[|gaps| - MAX_GAPS..] else gaps
  }

  ghost predicate Tallied(w: World) {
    && w.core.gaps == Newest(RangesRecorded(w.log))
    && forall k :: k in w.core.items ==> w.core.items[k].ann.count == TimesAnnounced(w.log, k)
  }

  lemma {:induction false} AnnouncedGrows(log: seq<Entry>, more: seq<Entry>, k: Key)
    requires |more| <= 1
    ensures TimesAnnounced(log + more, k) ==
            if more == [] then TimesAnnounced(log, k)
            else if Begins(more[0], k) then 0
            else TimesAnnounced(log, k) + if Delivers(more[0], k) then 1 else 0
  {
    LogGrows(log, more);
  }

  lemma {:induction false} RangesGrow(log: seq<Entry>, more: seq<Entry>)
    requires |more| <= 1
    ensures RangesRecorded(log + more) ==
            RangesRecorded(log) + if more != [] && more[0].Said? && more[0].out.GapRecorded? then [more[0].out.gap] else []
  {
    LogGrows(log, more);
  }

  lemma {:induction false} NewestGrows(gaps: seq<Gap>, gap: Gap)
    ensures Newest(gaps + [gap]) == if |Newest(gaps) + [gap]| > MAX_GAPS then (Newest(gaps) + [gap])[1..] else Newest(gaps) + [gap]
  {
  }

  /** What an act makes of the list of gaps, and what it says of it. */
  lemma {:induction false} ActOnGaps(c: Core, act: Act, r: Reading)
    ensures |Note(c, act, r)| <= 1
    ensures if act.RecordGap?
            then Note(c, act, r) == [Said(GapRecorded(act.gap), r)]
                 && Apply(c, act, r).gaps == (if |c.gaps + [act.gap]| > MAX_GAPS then (c.gaps + [act.gap])[1..] else c.gaps + [act.gap])
            else Apply(c, act, r).gaps == c.gaps && forall e :: e in Note(c, act, r) ==> !(e.Said? && e.out.GapRecorded?)
  {
  }

  lemma {:induction false} ActKeepsGaps(w: World, act: Act)
    requires w.core.gaps == Newest(RangesRecorded(w.log))
    ensures w.Do(act).core.gaps == Newest(RangesRecorded(w.Do(act).log))
  {
    ActOnGaps(w.core, act, w.now);
    RangesGrow(w.log, Note(w.core, act, w.now));
    if act.RecordGap? {
      NewestGrows(RangesRecorded(w.log), act.gap);
    } else {
      assert RangesRecorded(w.log) + [] == RangesRecorded(w.log);
    }
  }

  /** What an edit makes of an item's count, and what it says. */
  lemma {:induction false} EditOnCount(c: Core, k: Key, edit: Edit, r: Reading)
    requires k in c.items
    ensures var note := Note(c, Change(k, edit), r);
            && (forall e :: e in note ==> !Begins(e, k))
            && Apply(c, Change(k, edit), r).items[k].ann.count ==
               c.items[k].ann.count + if note != [] && Delivers(note[0], k) then 1 else 0
  {
  }

  lemma {:induction false} ActKeepsCount(w: World, act: Act, k: Key)
    requires k in w.core.items ==> w.core.items[k].ann.count == TimesAnnounced(w.log, k)
    requires k in w.Do(act).core.items
    ensures w.Do(act).core.items[k].ann.count == TimesAnnounced(w.Do(act).log, k)
  {
    var note := Note(w.core, act, w.now);
    AnnouncedGrows(w.log, note, k);
    if !Touches(act, k) {
      Untouched(w.core, act, w.now, k);
      assert note != [] ==> !Concerns(note[0], k);
    } else if act.Change? {
      EditOnCount(w.core, k, act.edit, w.now);
      assert note != [] ==> note[0] in note;
    } else {
      OtherOnCount(w.core, act, w.now, k);
    }
  }

  lemma {:induction false} OtherOnCount(c: Core, act: Act, r: Reading, k: Key)
    requires Touches(act, k) && !act.Change? && k in Apply(c, act, r).items
    ensures var note := Note(c, act, r);
            if k in c.items then Apply(c, act, r).items[k] == c.items[k] && forall e :: e in note ==> !Begins(e, k) && !Delivers(e, k)
            else Apply(c, act, r).items[k].ann.count == 0 && note != [] && Begins(note[0], k)
  {
  }

  lemma {:induction false} ActsKeepTallied(w: World, acts: seq<Act>)
    requires Tallied(w)
    ensures Tallied(Perform(w, acts))
    decreases |acts|
  {
    if acts != [] {
      ActKeepsGaps(w, acts[0]);
      forall k | k in w.Do(acts[0]).core.items
        ensures w.Do(acts[0]).core.items[k].ann.count == TimesAnnounced(w.Do(acts[0]).log, k)
      {
        ActKeepsCount(w, acts[0], k);
      }
      ActsKeepTallied(w.Do(acts[0]), acts[1..]);
    }
  }

  lemma {:induction false} StepKeepsTallied(w: World, op: Op)
    requires Tallied(w)
    ensures Tallied(Step(w, op))
  {
    if !op.Restart? {
      var at := w.(now := ReadingOf(w.now, op));
      ActsKeepTallied(at, ActsOf(at.core, op, at.now));
    }
  }

  lemma {:induction false} RunKeepsTallied(w: World, ops: seq<Op>)
    requires Tallied(w)
    ensures Tallied(Run(w, ops))
    decreases |ops|
  {
    if ops != [] {
      StepKeepsTallied(w, ops[0]);
      RunKeepsTallied(Step(w, ops[0]), ops[1..]);
    }
  }

  // ---- what an item says of its announcing -------------------------------------------------

  /** The latest decision about a condition since it was raised. */
  function LastDecision(log: seq<Entry>, k: Key): Option<Entry> {
    if log == [] then None
    else
      var e := log[|log| - 1];
      if Begins(e, k) then None
      else if Decision(e, k) then Some(e)
      else LastDecision(log[..|log| - 1], k)
  }

  /** An item says that nothing is decided about it exactly when it gives no time of a decision; the time it gives
      is that of the latest one; and it says that this went out, or is held, only where it did or is. */
  ghost predicate Stated(ann: Announcing, last: Option<Entry>) {
    && (ann.notification.Undecided? <==> ann.lastNotified.None?)
    && (ann.lastNotified.Some? ==> last.Some? && last.value.Said? && ann.lastNotified == Some(last.value.at.wall))
    && (ann.notification.Delivered? ==> last.Some? && last.value.Said? && (last.value.out.Notified? || last.value.out.Released?))
    && (ann.notification.Held? ==> last.Some? && last.value.Said? && last.value.out.Deferred?)
  }

  ghost predicate AllStated(w: World) {
    forall k :: k in w.core.items ==> Stated(w.core.items[k].ann, LastDecision(w.log, k))
  }

  lemma {:induction false} LastDecisionGrows(log: seq<Entry>, more: seq<Entry>, k: Key)
    requires |more| <= 1
    ensures LastDecision(log + more, k) ==
            if more == [] then LastDecision(log, k)
            else if Begins(more[0], k) then None
            else if Decision(more[0], k) then Some(more[0])
            else LastDecision(log, k)
  {
    LogGrows(log, more);
  }

  lemma {:induction false} EditStates(c: Core, k: Key, edit: Edit, r: Reading, last: Option<Entry>)
    requires k in c.items && Stated(c.items[k].ann, last) && ItemTimed(c.items[k], r) && Enabled(c, Change(k, edit), r)
    ensures var note, ann := Note(c, Change(k, edit), r), Apply(c, Change(k, edit), r).items[k].ann;
            if edit.Announce? then note != [] && Decision(note[0], k) && Stated(ann, Some(note[0]))
            else Stated(ann, last) && forall e :: e in note ==> !Decision(e, k) && !Begins(e, k)
  {
  }

  lemma {:induction false} OtherStates(c: Core, act: Act, r: Reading, k: Key)
    requires Touches(act, k) && !act.Change? && k in Apply(c, act, r).items
    ensures var note := Note(c, act, r);
            if k in c.items then Apply(c, act, r).items[k] == c.items[k] && forall e :: e in note ==> !Begins(e, k) && !Decision(e, k)
            else Apply(c, act, r).items[k].ann == UNANNOUNCED && note != [] && Begins(note[0], k)
  {
  }

  lemma {:induction false} ActKeepsStated(w: World, act: Act, k: Key)
    requires k in w.core.items ==> Stated(w.core.items[k].ann, LastDecision(w.log, k)) && ItemTimed(w.core.items[k], w.now)
    requires Enabled(w.core, act, w.now) && k in w.Do(act).core.items
    ensures Stated(w.Do(act).core.items[k].ann, LastDecision(w.Do(act).log, k))
  {
    var note := Note(w.core, act, w.now);
    LastDecisionGrows(w.log, note, k);
    if !Touches(act, k) {
      Untouched(w.core, act, w.now, k);
      assert note != [] ==> !Concerns(note[0], k);
    } else if act.Change? {
      EditStates(w.core, k, act.edit, w.now, LastDecision(w.log, k));
      assert note != [] ==> note[0] in note;
    } else {
      OtherStates(w.core, act, w.now, k);
    }
  }

  lemma {:induction false} ActsKeepStated(w: World, acts: seq<Act>)
    requires AllStated(w) && Consistent(w.core, w.now) && AllEnabled(w.core, acts, w.now)
    ensures AllStated(Perform(w, acts))
    decreases |acts|
  {
    if acts != [] {
      forall k | k in w.Do(acts[0]).core.items
        ensures Stated(w.Do(acts[0]).core.items[k].ann, LastDecision(w.Do(acts[0]).log, k))
      {
        ActKeepsStated(w, acts[0], k);
      }
      ActKeepsConsistent(w.core, acts[0], w.now);
      ActsKeepStated(w.Do(acts[0]), acts[1..]);
    }
  }

  lemma {:induction false} StepKeepsStated(w: World, op: Op)
    requires AllStated(w) && Consistent(w.core, w.now) && Timely(w, op)
    ensures AllStated(Step(w, op))
  {
    if op.Restart? {
      RestartKeepsStated(w, op.r);
    } else {
      var at := w.(now := ReadingOf(w.now, op));
      LaterKeepsConsistent(w.core, w.now, at.now);
      CallKeepsStated(at, op);
    }
  }

  lemma {:induction false} CallKeepsStated(w: World, op: Op)
    requires AllStated(w) && Consistent(w.core, w.now)
    ensures AllStated(Perform(w, ActsOf(w.core, op, w.now)))
  {
    OperationsAreEnabled(w.core, op, w.now);
    ActsKeepStated(w, ActsOf(w.core, op, w.now));
  }

  lemma {:induction false} RestartKeepsStated(w: World, r: Reading)
    requires AllStated(w)
    ensures AllStated(w.(core := Reanchored(w.core, r), now := r))
  {
  }

  lemma {:induction false} StatedBefore(start: World, ops: seq<Op>, n: nat)
    requires FromEmpty(start, ops) && n <= |ops|
    ensures AllStated(Before(start, ops, n))
    decreases n
  {
    if n == 0 {
      assert ops[..0] == [];
    } else {
      StatedBefore(start, ops, n - 1);
      StatedNext(start, ops, n - 1);
    }
  }

  lemma {:induction false} StatedNext(start: World, ops: seq<Op>, n: nat)
    requires FromEmpty(start, ops) && n < |ops| && AllStated(Before(start, ops, n))
    ensures AllStated(Before(start, ops, n + 1))
  {
    SoundBefore(start, ops, n);
    TimelyAt(start, ops, n);
    StepAt(start, ops, n);
    StepKeepsStated(Before(start, ops, n), ops[n]);
  }
}
