/** De-duplication over whole runs: two announcements that went out about one condition are at least
    its rule's window apart in physical time. */
module Spacing {
  import opened Common
  import opened Time
  import opened Rules
  import opened Events
  import opened EngineModel
  import opened Runs

  /** An announcement about `k` went out. */
  predicate Delivers(e: Entry, k: Key) {
    e.Said? && (e.out.Notified? || e.out.Released?) && e.out.key == k
  }

  /** The condition `k` stands for came to an end. */
  predicate Ends(e: Entry, k: Key) {
    e.Said? && (e.out.Resolved? || e.out.Ended?) && e.out.key == k
  }

  /** The latest announcement that went out about a condition that has not ended since. */
  function LastDelivery(log: seq<Entry>, k: Key): Option<Reading> {
    if log == [] then None
    else
      var e := log[|log| - 1];
      if Delivers(e, k) then Some(e.at)
      else if Ends(e, k) then None
      else LastDelivery(log[..|log| - 1], k)
  }

  /** Any two deliveries of one condition that did not end between them are a window apart. */
  ghost predicate WellSpaced(w: World) {
    forall i, j, k ::
      && 0 <= i < j < |w.log| && Delivers(w.log[i], k) && Delivers(w.log[j], k)
      && (forall m :: i < m < j ==> !Ends(w.log[m], k))
      ==> w.Of(w.log[i].at) + Policy(k.rule).dedupMs <= w.Of(w.log[j].at)
  }

  /** The log is in the order things happened, and none of it is in the future. */
  ghost predicate Ordered(w: World) {
    && (forall i :: 0 <= i < |w.log| && w.log[i].Said? ==> w.Of(w.log[i].at) <= w.Of(w.now))
    && (forall i, j :: 0 <= i < j < |w.log| && w.log[i].Said? && w.log[j].Said? ==> w.Of(w.log[i].at) <= w.Of(w.log[j].at))
  }

  /** What the engine remembers the last delivery by: the interval that runs since it, or the fact
      that its window has run out already. */
  ghost predicate Rested(w: World, k: Key) {
    var last := LastDelivery(w.log, k);
    last.Some? ==>
      if k in w.core.items && w.core.items[k].ann.since.Some? && !w.core.items[k].ann.deferred
      then
        var since := w.core.items[k].ann.since.value;
        since.already <= since.anchor && w.Of(last.value) <= w.At(w.now.boot, since.Start())
      else w.Of(last.value) + Policy(k.rule).dedupMs <= w.Of(w.now)
  }

  ghost predicate Spaced(w: World) {
    WellSpaced(w) && Ordered(w) && forall k :: Rested(w, k)
  }

  lemma {:induction false} LastDeliveryAfter(log: seq<Entry>, more: seq<Entry>, k: Key)
    requires |more| <= 1
    ensures LastDelivery(log + more, k) ==
            if more == [] then LastDelivery(log, k)
            else if Delivers(more[0], k) then Some(more[0].at)
            else if Ends(more[0], k) then None
            else LastDelivery(log, k)
  {
    if more == [] {
      assert log + more == log;
    } else {
      assert (log + more)[..|log|] == log;
    }
  }

  /** A guard that lets an announcement out, or an item go, finds the window run out. */
  lemma {:induction false} WindowHasRun(w: World, k: Key)
    requires Rested(w, k) && LastDelivery(w.log, k).Some?
    requires k in w.core.items && w.core.items[k].key == k && ItemTimed(w.core.items[k], w.now)
    requires w.core.items[k].ann.deferred || !Inside(w.core.items[k], w.now)
    ensures w.Of(LastDelivery(w.log, k).value) + Policy(k.rule).dedupMs <= w.Of(w.now)
  {
  }

  lemma {:induction false} UntouchedKeepsRested(w: World, act: Act, k: Key)
    requires Rested(w, k) && !Touches(act, k)
    ensures Rested(w.Do(act), k)
  {
    Untouched(w.core, act, w.now, k);
    SaysNothingOf(w.core, act, w.now, k);
    LastDeliveryAfter(w.log, Note(w.core, act, w.now), k);
  }

  lemma {:induction false} SaysNothingOf(c: Core, act: Act, r: Reading, k: Key)
    requires !Touches(act, k)
    ensures |Note(c, act, r)| <= 1
    ensures Note(c, act, r) != [] ==> !Delivers(Note(c, act, r)[0], k) && !Ends(Note(c, act, r)[0], k)
  {
  }

  lemma {:induction false} EditKeepsRested(w: World, k: Key, edit: Edit)
    requires Rested(w, k) && Enabled(w.core, Change(k, edit), w.now)
    requires w.core.items[k].key == k && ItemTimed(w.core.items[k], w.now)
    ensures Rested(w.Do(Change(k, edit)), k)
  {
    if edit.Announce? || edit.Undecide? {
      DecisionKeepsRested(w, k, edit);
    } else {
      OtherEdit(w.core, k, edit, w.now);
      LastDeliveryAfter(w.log, Note(w.core, Change(k, edit), w.now), k);
    }
  }

  /** An edit that decides nothing leaves the running interval alone, and nothing goes out or ends by it. */
  lemma {:induction false} OtherEdit(c: Core, k: Key, edit: Edit, r: Reading)
    requires k in c.items && !edit.Announce? && !edit.Undecide?
    ensures var d := Apply(c, Change(k, edit), r);
            && k in d.items && d.items[k].ann.since == c.items[k].ann.since && d.items[k].ann.deferred == c.items[k].ann.deferred
    ensures |Note(c, Change(k, edit), r)| <= 1
    ensures forall e :: e in Note(c, Change(k, edit), r) ==> !Delivers(e, k) && !Ends(e, k)
  {
  }

  lemma {:induction false} DecisionKeepsRested(w: World, k: Key, edit: Edit)
    requires Rested(w, k) && Enabled(w.core, Change(k, edit), w.now) && (edit.Announce? || edit.Undecide?)
    requires w.core.items[k].key == k && ItemTimed(w.core.items[k], w.now)
    ensures Rested(w.Do(Change(k, edit)), k)
  {
    if edit.Announce? { AnnouncingKeepsRested(w, k, edit); } else { UndecidingKeepsRested(w, k); }
  }

  lemma {:induction false} AnnouncingKeepsRested(w: World, k: Key, edit: Edit)
    requires Rested(w, k) && Enabled(w.core, Change(k, edit), w.now) && edit.Announce?
    requires w.core.items[k].key == k && ItemTimed(w.core.items[k], w.now)
    ensures Rested(w.Do(Change(k, edit)), k)
  {
    if QuietAt(w.core.quiet, w.now) { HoldingKeepsRested(w, k, edit); } else { DeliveringKeepsRested(w, k, edit); }
  }

  lemma {:induction false} HoldingKeepsRested(w: World, k: Key, edit: Edit)
    requires Rested(w, k) && Enabled(w.core, Change(k, edit), w.now) && edit.Announce? && QuietAt(w.core.quiet, w.now)
    requires w.core.items[k].key == k && ItemTimed(w.core.items[k], w.now)
    ensures Rested(w.Do(Change(k, edit)), k)
  {
    LastDeliveryAfter(w.log, Note(w.core, Change(k, edit), w.now), k);
    if LastDelivery(w.log, k).Some? { WindowHasRun(w, k); }
  }

  lemma {:induction false} DeliveringKeepsRested(w: World, k: Key, edit: Edit)
    requires Enabled(w.core, Change(k, edit), w.now) && edit.Announce? && !QuietAt(w.core.quiet, w.now)
    ensures Rested(w.Do(Change(k, edit)), k)
  {
    LastDeliveryAfter(w.log, Note(w.core, Change(k, edit), w.now), k);
  }

  lemma {:induction false} UndecidingKeepsRested(w: World, k: Key)
    requires Rested(w, k) && Enabled(w.core, Change(k, Undecide), w.now)
    requires w.core.items[k].key == k && ItemTimed(w.core.items[k], w.now)
    ensures Rested(w.Do(Change(k, Undecide)), k)
  {
    LastDeliveryAfter(w.log, Note(w.core, Change(k, Undecide), w.now), k);
    if LastDelivery(w.log, k).Some? { WindowHasRun(w, k); }
  }

  lemma {:induction false} ActKeepsRested(w: World, act: Act, k: Key)
    requires Rested(w, k) && Enabled(w.core, act, w.now)
    requires k in w.core.items ==> w.core.items[k].key == k && ItemTimed(w.core.items[k], w.now)
    ensures Rested(w.Do(act), k)
  {
    if !Touches(act, k) {
      UntouchedKeepsRested(w, act, k);
    } else if act.Change? {
      EditKeepsRested(w, k, act.edit);
    } else {
      LastDeliveryAfter(w.log, Note(w.core, act, w.now), k);
      if act.Leave? && act.how.Drop? && LastDelivery(w.log, k).Some? { WindowHasRun(w, k); }
    }
  }

  lemma {:induction false} DeliveryIsRemembered(w: World, log: seq<Entry>, i: nat, k: Key)
    requires log <= w.log && Ordered(w)
    requires i < |log| && Delivers(log[i], k) && forall m :: i < m < |log| ==> !Ends(log[m], k)
    ensures LastDelivery(log, k).Some? && w.Of(log[i].at) <= w.Of(LastDelivery(log, k).value)
    decreases |log|
  {
    var e := log[|log| - 1];
    if !Delivers(e, k) {
      DeliveryIsRemembered(w, log[..|log| - 1], i, k);
    } else {
      assert log[i] == w.log[i] && e == w.log[|log| - 1];
    }
  }

  lemma {:induction false} LastDeliveryIsPast(w: World, log: seq<Entry>, k: Key)
    requires log <= w.log && Ordered(w)
    ensures LastDelivery(log, k).Some? ==> w.Of(LastDelivery(log, k).value) <= w.Of(w.now)
    decreases |log|
  {
    if log != [] {
      assert log[|log| - 1] == w.log[|log| - 1];
      LastDeliveryIsPast(w, log[..|log| - 1], k);
    }
  }

  lemma {:induction false} ActKeepsOrdered(w: World, act: Act)
    requires Ordered(w)
    ensures Ordered(w.Do(act))
  {
    var note := Note(w.core, act, w.now);
    assert note != [] && note[0].Said? ==> note[0].at == w.now;
  }

  lemma {:induction false} ActKeepsWellSpaced(w: World, act: Act)
    requires Spaced(w) && Consistent(w.core, w.now) && Enabled(w.core, act, w.now)
    ensures WellSpaced(w.Do(act))
  {
    var d := w.Do(act);
    forall i, j, k |
      && 0 <= i < j < |d.log| && Delivers(d.log[i], k) && Delivers(d.log[j], k)
      && (forall m :: i < m < j ==> !Ends(d.log[m], k))
      ensures d.Of(d.log[i].at) + Policy(k.rule).dedupMs <= d.Of(d.log[j].at)
    {
      PairIsSpaced(w, act, i, j, k);
    }
  }

  lemma {:induction false} PairIsSpaced(w: World, act: Act, i: nat, j: nat, k: Key)
    requires Spaced(w) && Consistent(w.core, w.now) && Enabled(w.core, act, w.now)
    requires i < j < |w.Do(act).log| && Delivers(w.Do(act).log[i], k) && Delivers(w.Do(act).log[j], k)
    requires forall m :: i < m < j ==> !Ends(w.Do(act).log[m], k)
    ensures w.Of(w.Do(act).log[i].at) + Policy(k.rule).dedupMs <= w.Of(w.Do(act).log[j].at)
  {
    var log := w.Do(act).log;
    assert log[i] == w.log[i] && forall m :: i < m < j ==> log[m] == w.log[m];
    if j == |w.log| {
      DeliveryIsRemembered(w, w.log, i, k);
      DeliveryIsAnnounced(w, act, k);
      WindowHasRun(w, k);
    } else {
      assert log[j] == w.log[j];
    }
  }

  lemma {:induction false} DeliveryIsAnnounced(w: World, act: Act, k: Key)
    requires Enabled(w.core, act, w.now)
    requires Note(w.core, act, w.now) != [] && Delivers(Note(w.core, act, w.now)[0], k)
    ensures act.Change? && act.edit.Announce? && act.key == k && k in w.core.items
    ensures w.core.items[k].ann.deferred || !Inside(w.core.items[k], w.now)
    ensures Note(w.core, act, w.now)[0].at == w.now
  {
  }

  lemma {:induction false} ActKeepsSpaced(w: World, act: Act)
    requires Spaced(w) && Consistent(w.core, w.now) && Enabled(w.core, act, w.now)
    ensures Spaced(w.Do(act))
  {
    forall k ensures Rested(w.Do(act), k) { ActKeepsRested(w, act, k); }
    ActKeepsOrdered(w, act);
    ActKeepsWellSpaced(w, act);
  }

  lemma {:induction false} LaterKeepsSpaced(w: World, r: Reading)
    requires Spaced(w) && w.now.boot == r.boot && w.now.ms <= r.ms
    ensures Spaced(w.(now := r))
  {
    forall k ensures Rested(w.(now := r), k) { assert Rested(w, k); }
  }

  /** A restart in the same boot measures the same intervals; in another, each starts again, so the
      window is only ever made longer. */
  lemma {:induction false} RestartKeepsSpaced(w: World, r: Reading)
    requires Spaced(w) && Consistent(w.core, w.now) && w.Of(w.now) <= w.Of(r)
    ensures Spaced(w.(core := Reanchored(w.core, r), now := r))
  {
    var d := w.(core := Reanchored(w.core, r), now := r);
    forall k ensures Rested(d, k) {
      assert Rested(w, k);
      RestartKeepsRested(w, r, k);
    }
  }

  lemma {:induction false} RestartKeepsRested(w: World, r: Reading, k: Key)
    requires Rested(w, k) && Ordered(w) && Consistent(w.core, w.now) && w.Of(w.now) <= w.Of(r)
    ensures Rested(w.(core := Reanchored(w.core, r), now := r), k)
  {
    LastDeliveryIsPast(w, w.log, k);
    if k in w.core.items { assert ItemTimed(w.core.items[k], w.now); }
  }
}
