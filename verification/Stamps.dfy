/** Decision stamps never look newer than the decision: the time and the privacy state an item carries
    are those of one non-release decision about it, and of none later than the one its outstanding
    announcement came from. */
module Stamps {
  import opened Common
  import opened Time
  import opened Events
  import opened EngineModel
  import opened Runs
  import opened Spacing
  import opened Handoff

  /** A decision to announce `k` that is not the release of an earlier one. */
  predicate Decides(e: Entry, k: Key) {
    e.Said? && (e.out.Notified? || e.out.Deferred?) && e.out.key == k
  }

  /** `k` started afresh. */
  predicate Begins(e: Entry, k: Key) {
    e.Said? && e.out.Raised? && e.out.key == k
  }

  /** Where in the log the decision is that a condition's stamp should be of: its latest decision,
      except that one held back over an outstanding announcement leaves that announcement's alone. */
  function StampOf(log: seq<Entry>, k: Key): Option<nat> {
    if log == [] then None
    else
      var e, rest := log[|log| - 1], log[..|log| - 1];
      if Begins(e, k) then None
      else if !Decides(e, k) then StampOf(rest, k)
      else if e.out.Deferred? && PendingOf(rest, k).Some? then StampOf(rest, k)
      else Some(|rest|)
  }

  ghost predicate StampedItem(log: seq<Entry>, k: Key, ann: Announcing) {
    match StampOf(log, k)
    case None => ann.decidedAt.None? && ann.decidedPrivacy.None?
    case Some(d) =>
      && d < |log| && log[d].Said?
      && ann.decidedAt == Some(log[d].at.wall) && ann.decidedPrivacy == log[d].at.privacy
  }

  ghost predicate Stamped(w: World) {
    forall k :: k in w.core.items ==> StampedItem(w.log, k, w.core.items[k].ann)
  }

  lemma {:induction false} StampGrows(log: seq<Entry>, more: seq<Entry>, k: Key)
    requires |more| <= 1
    ensures StampOf(log + more, k) ==
            if more == [] then StampOf(log, k)
            else if Begins(more[0], k) then None
            else if !Decides(more[0], k) then StampOf(log, k)
            else if more[0].out.Deferred? && PendingOf(log, k).Some? then StampOf(log, k)
            else Some(|log|)
  {
    LogGrows(log, more);
  }

  lemma {:induction false} UntouchedKeepsStamped(w: World, act: Act, k: Key)
    requires k in w.core.items && StampedItem(w.log, k, w.core.items[k].ann) && !Touches(act, k)
    ensures StampedItem(w.Do(act).log, k, w.Do(act).core.items[k].ann)
  {
    var note := Note(w.core, act, w.now);
    Untouched(w.core, act, w.now, k);
    StampGrows(w.log, note, k);
    assert forall e :: e in note ==> !Decides(e, k) && !Begins(e, k);
  }

  lemma {:induction false} AnnounceKeepsStamped(w: World, k: Key, released: bool)
    requires HandedOff(w) && k in w.core.items && StampedItem(w.log, k, w.core.items[k].ann)
    requires released ==> !QuietAt(w.core.quiet, w.now)
    ensures StampedItem(w.Do(Change(k, Announce(released))).log, k, w.Do(Change(k, Announce(released))).core.items[k].ann)
  {
    var quiet := QuietAt(w.core.quiet, w.now);
    var d := w.Do(Change(k, Announce(released)));
    assert d.core.items[k].ann == Decided(w.core.items[k], quiet, released, w.core.nextAnnouncement + 1, w.now);
    assert PendingIn(w.core, k) == PendingOf(w.log, k);
    StampGrows(w.log, Note(w.core, Change(k, Announce(released)), w.now), k);
  }

  lemma {:induction false} EditKeepsStamped(w: World, k: Key, edit: Edit)
    requires k in w.core.items && StampedItem(w.log, k, w.core.items[k].ann) && !edit.Announce?
    ensures StampedItem(w.Do(Change(k, edit)).log, k, w.Do(Change(k, edit)).core.items[k].ann)
  {
    StampGrows(w.log, Note(w.core, Change(k, edit), w.now), k);
  }

  lemma {:induction false} ActKeepsStamped(w: World, act: Act)
    requires Stamped(w) && HandedOff(w) && Enabled(w.core, act, w.now)
    ensures Stamped(w.Do(act))
  {
    forall k | k in w.Do(act).core.items ensures StampedItem(w.Do(act).log, k, w.Do(act).core.items[k].ann) {
      if !Touches(act, k) {
        Untouched(w.core, act, w.now, k);
        UntouchedKeepsStamped(w, act, k);
      } else if act.Change? && act.edit.Announce? {
        AnnounceKeepsStamped(w, k, act.edit.released);
      } else if act.Change? {
        EditKeepsStamped(w, k, act.edit);
      } else {
        StampGrows(w.log, Note(w.core, act, w.now), k);
      }
    }
  }

  lemma {:induction false} RestartKeepsStamped(w: World, r: Reading)
    requires Stamped(w)
    ensures Stamped(w.(core := Reanchored(w.core, r), now := r))
  {
  }

  // ---- what the log says of stamps ---------------------------------------------------------

  /** A stamp is of a decision about the item since it was last raised, never of a release. */
  lemma {:induction false} StampIsADecision(log: seq<Entry>, k: Key)
    ensures StampOf(log, k).Some? ==>
              && StampOf(log, k).value < |log| && Decides(log[StampOf(log, k).value], k)
              && forall m :: StampOf(log, k).value < m < |log| ==> !Begins(log[m], k)
    decreases |log|
  {
    if log != [] {
      var rest := log[..|log| - 1];
      StampIsADecision(rest, k);
      assert forall m :: 0 <= m < |rest| ==> rest[m] == log[m];
    }
  }

  /** While an announcement is outstanding, the stamp is of no later decision than the announcement's own. */
  lemma {:induction false} StampIsNotLater(log: seq<Entry>, k: Key, h: nat)
    requires Stands(log, h, k) && StampOf(log, k).Some?
    ensures StampOf(log, k).value <= h
    decreases |log|
  {
    var e, rest := log[|log| - 1], log[..|log| - 1];
    StampIsADecision(log, k);
    if h < |log| - 1 {
      assert rest[..h + 1] == log[..h + 1];
      assert Stands(rest, h, k);
      StandingIsPending(rest, h, k);
      StampIsNotLater(rest, k, h);
    }
  }

  /** An item's stamp is that of the decision at place `d` of the log, made since the item was raised. */
  ghost predicate IsStampOf(w: World, k: Key, d: nat)
    requires k in w.core.items
  {
    && d < |w.log| && Decides(w.log[d], k)
    && w.core.items[k].ann.decidedAt == Some(w.log[d].at.wall)
    && w.core.items[k].ann.decidedPrivacy == w.log[d].at.privacy
    && forall m :: d < m < |w.log| ==> !Begins(w.log[m], k)
  }

  /** What every item's stamp says, in any world the engine reaches: where its decision is, and that the
      announcement outstanding is of no earlier one. */
  lemma {:induction false} StampsAreTrue(w: World, k: Key) returns (d: nat, h: nat)
    requires Stamped(w) && HandedOff(w) && k in w.core.items && w.core.items[k].ann.decidedAt.Some?
    ensures IsStampOf(w, k, d)
    ensures w.core.items[k].ann.pending.Some? ==>
              && d <= h < |w.log| && Delivers(w.log[h], k)
              && w.core.items[k].ann.pending == Some(NumberAt(w.log, h))
  {
    assert StampedItem(w.log, k, w.core.items[k].ann);
    StampIsADecision(w.log, k);
    d, h := StampOf(w.log, k).value, 0;
    assert PendingIn(w.core, k) == PendingOf(w.log, k);
    if PendingOf(w.log, k).Some? {
      h := PendingStands(w.log, k);
      StampIsNotLater(w.log, k, h);
    }
  }
}
