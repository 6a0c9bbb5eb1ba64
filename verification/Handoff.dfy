/** No announcement is lost or confused: numbers only go up, and a number stays outstanding until that
    very number is settled, a newer one replaces it, or the condition ends. */
module Handoff {
  import opened Common
  import opened Time
  import opened Events
  import opened EngineModel
  import opened Runs
  import opened Spacing

  predicate IsDelivery(e: Entry) {
    e.Said? && (e.out.Notified? || e.out.Released?)
  }

  /** How many announcements have gone out; the n-th of them carries the number n. */
  function Deliveries(log: seq<Entry>): nat {
    if log == [] then 0
    else Deliveries(log[..|log| - 1]) + if IsDelivery(log[|log| - 1]) then 1 else 0
  }

  /** The number outstanding for a condition, read off the log alone. */
  function PendingOf(log: seq<Entry>, k: Key): Option<nat> {
    if log == [] then None
    else
      var e, rest := log[|log| - 1], log[..|log| - 1];
      if Delivers(e, k) then Some(Deliveries(log))
      else if Ends(e, k) then None
      else if e.Settled? && e.key == k && PendingOf(rest, k) == Some(e.number) then None
      else PendingOf(rest, k)
  }

  function PendingIn(c: Core, k: Key): Option<nat> {
    if k in c.items then c.items[k].ann.pending else None
  }

  /** The engine holds exactly the outstanding numbers, and its counter is the number of deliveries. */
  ghost predicate HandedOff(w: World) {
    w.core.nextAnnouncement == Deliveries(w.log) && forall k :: PendingIn(w.core, k) == PendingOf(w.log, k)
  }

  lemma {:induction false} LogGrows(log: seq<Entry>, more: seq<Entry>)
    requires |more| <= 1
    ensures more == [] ==> log + more == log
    ensures more != [] ==> (log + more)[..|log|] == log && (log + more)[|log|] == more[0]
  {
  }

  /** Entries about something else leave the number outstanding for `k` as it was. */
  lemma {:induction false} PendingElsewhere(log: seq<Entry>, more: seq<Entry>, k: Key)
    requires |more| <= 1 && forall e :: e in more ==> !Concerns(e, k)
    ensures PendingOf(log + more, k) == PendingOf(log, k)
  {
    LogGrows(log, more);
    if more != [] { assert !Concerns(more[0], k); }
  }

  lemma {:induction false} UntouchedKeepsPending(w: World, act: Act, k: Key)
    requires PendingIn(w.core, k) == PendingOf(w.log, k) && !Touches(act, k)
    ensures PendingIn(w.Do(act).core, k) == PendingOf(w.Do(act).log, k)
  {
    Untouched(w.core, act, w.now, k);
    PendingElsewhere(w.log, Note(w.core, act, w.now), k);
  }

  lemma {:induction false} EditKeepsPending(w: World, k: Key, edit: Edit)
    requires HandedOff(w) && k in w.core.items
    ensures PendingIn(w.Do(Change(k, edit)).core, k) == PendingOf(w.Do(Change(k, edit)).log, k)
  {
    assert PendingIn(w.core, k) == PendingOf(w.log, k);
    if edit.Announce? {
      AnnouncingKeepsPending(w, k, edit);
    } else if edit.Settle? {
      SettlingKeepsPending(w, k, edit);
    } else {
      EditLeavesPending(w.core, k, edit, w.now);
      PendingUnmoved(w.log, Note(w.core, Change(k, edit), w.now), k);
    }
  }

  lemma {:induction false} EditLeavesPending(c: Core, k: Key, edit: Edit, r: Reading)
    requires k in c.items && !edit.Announce? && !edit.Settle?
    ensures PendingIn(Apply(c, Change(k, edit), r), k) == PendingIn(c, k)
    ensures forall e :: e in Note(c, Change(k, edit), r) ==> !Delivers(e, k) && !Ends(e, k) && !e.Settled?
  {
  }

  lemma {:induction false} PendingUnmoved(log: seq<Entry>, more: seq<Entry>, k: Key)
    requires |more| <= 1 && forall e :: e in more ==> !Delivers(e, k) && !Ends(e, k) && !e.Settled?
    ensures PendingOf(log + more, k) == PendingOf(log, k)
  {
    LogGrows(log, more);
    if more != [] { assert more[0] in more; }
  }

  lemma {:induction false} SettlingKeepsPending(w: World, k: Key, edit: Edit)
    requires PendingIn(w.core, k) == PendingOf(w.log, k) && k in w.core.items && edit.Settle?
    ensures PendingIn(w.Do(Change(k, edit)).core, k) == PendingOf(w.Do(Change(k, edit)).log, k)
  {
    LogGrows(w.log, Note(w.core, Change(k, edit), w.now));
  }

  lemma {:induction false} AnnouncingKeepsPending(w: World, k: Key, edit: Edit)
    requires PendingIn(w.core, k) == PendingOf(w.log, k) && w.core.nextAnnouncement == Deliveries(w.log)
    requires k in w.core.items && edit.Announce?
    ensures PendingIn(w.Do(Change(k, edit)).core, k) == PendingOf(w.Do(Change(k, edit)).log, k)
  {
    AnnouncingHandsOut(w.core, k, edit, w.now);
    HandedOutIsPending(w.core, w.log, k, Apply(w.core, Change(k, edit), w.now), Note(w.core, Change(k, edit), w.now),
                       QuietAt(w.core.quiet, w.now));
  }

  lemma {:induction false} HandedOutIsPending(c: Core, log: seq<Entry>, k: Key, d: Core, note: seq<Entry>, quiet: bool)
    requires PendingIn(c, k) == PendingOf(log, k) && c.nextAnnouncement == Deliveries(log) && |note| <= 1
    requires if quiet
             then PendingIn(d, k) == PendingIn(c, k) && forall e :: e in note ==> !Delivers(e, k) && !Ends(e, k) && !e.Settled?
             else PendingIn(d, k) == Some(c.nextAnnouncement + 1) && note != [] && Delivers(note[0], k)
    ensures PendingIn(d, k) == PendingOf(log + note, k)
  {
    if quiet {
      PendingUnmoved(log, note, k);
    } else {
      assert note == [note[0]];
      PendingIsLatest(log, note[0], k);
    }
  }

  /** A decision held back hands out nothing; one that goes out hands out the next number. */
  lemma {:induction false} AnnouncingHandsOut(c: Core, k: Key, edit: Edit, r: Reading)
    requires k in c.items && edit.Announce?
    ensures var d, note := Apply(c, Change(k, edit), r), Note(c, Change(k, edit), r);
            if QuietAt(c.quiet, r)
            then PendingIn(d, k) == PendingIn(c, k) && forall e :: e in note ==> !Delivers(e, k) && !Ends(e, k) && !e.Settled?
            else PendingIn(d, k) == Some(c.nextAnnouncement + 1) && note == [note[0]] && Delivers(note[0], k)
  {
  }

  lemma {:induction false} PendingIsLatest(log: seq<Entry>, e: Entry, k: Key)
    requires Delivers(e, k)
    ensures PendingOf(log + [e], k) == Some(Deliveries(log) + 1)
  {
    assert (log + [e])[..|log|] == log;
  }

  lemma {:induction false} TouchedKeepsPending(w: World, act: Act, k: Key)
    requires HandedOff(w) && Enabled(w.core, act, w.now) && Touches(act, k)
    ensures PendingIn(w.Do(act).core, k) == PendingOf(w.Do(act).log, k)
  {
    if act.Change? {
      EditKeepsPending(w, k, act.edit);
    } else {
      LogGrows(w.log, Note(w.core, act, w.now));
      assert PendingIn(w.core, k) == PendingOf(w.log, k);
    }
  }

  lemma {:induction false} ActKeepsCounter(w: World, act: Act)
    requires w.core.nextAnnouncement == Deliveries(w.log)
    ensures w.Do(act).core.nextAnnouncement == Deliveries(w.Do(act).log)
  {
    LogGrows(w.log, Note(w.core, act, w.now));
    if !(act.Change? && act.edit.Announce?) { NothingIsDelivered(w.core, act, w.now); }
  }

  lemma {:induction false} NothingIsDelivered(c: Core, act: Act, r: Reading)
    requires !(act.Change? && act.edit.Announce?)
    ensures Apply(c, act, r).nextAnnouncement == c.nextAnnouncement
    ensures forall e :: e in Note(c, act, r) ==> !IsDelivery(e)
  {
  }

  lemma {:induction false} ActKeepsHandedOff(w: World, act: Act)
    requires HandedOff(w) && Enabled(w.core, act, w.now)
    ensures HandedOff(w.Do(act))
  {
    ActKeepsCounter(w, act);
    forall k ensures PendingIn(w.Do(act).core, k) == PendingOf(w.Do(act).log, k) {
      if !Touches(act, k) { UntouchedKeepsPending(w, act, k); }
      else { TouchedKeepsPending(w, act, k); }
    }
  }

  lemma {:induction false} RestartKeepsHandedOff(w: World, r: Reading)
    requires HandedOff(w)
    ensures HandedOff(w.(core := Reanchored(w.core, r), now := r))
  {
    var d := w.(core := Reanchored(w.core, r), now := r);
    forall k ensures PendingIn(d.core, k) == PendingOf(d.log, k) {
      assert PendingIn(w.core, k) == PendingOf(w.log, k);
    }
  }

  // ---- what the log says of numbers --------------------------------------------------------

  /** The number an announcement at place `i` of the log went out under. */
  function NumberAt(log: seq<Entry>, i: nat): nat
    requires i < |log|
  {
    Deliveries(log[..i + 1])
  }

  lemma {:induction false} DeliveriesGrow(log: seq<Entry>, i: nat, j: nat)
    requires i <= j <= |log|
    ensures Deliveries(log[..i]) <= Deliveries(log[..j])
    decreases j
  {
    if i < j {
      assert log[..j][..j - 1] == log[..j - 1];
      DeliveriesGrow(log, i, j - 1);
    }
  }

  /** Numbers handed out strictly increase, and the engine's counter has reached every one of them. */
  lemma {:induction false} NumbersIncrease(w: World, i: nat, j: nat)
    requires HandedOff(w) && i < j < |w.log| && IsDelivery(w.log[j])
    ensures NumberAt(w.log, i) < NumberAt(w.log, j) <= w.core.nextAnnouncement
  {
    var log := w.log;
    DeliveriesGrow(log, i + 1, j);
    assert log[..j + 1][..j] == log[..j];
    DeliveriesGrow(log, j + 1, |log|);
    assert log[..|log|] == log;
  }

  /** The announcement at place `i` about `k` has been neither settled nor replaced, and `k` has not ended. */
  ghost predicate Stands(log: seq<Entry>, i: nat, k: Key) {
    && i < |log| && Delivers(log[i], k)
    && forall m :: i < m < |log| ==>
         && !Delivers(log[m], k) && !Ends(log[m], k)
         && !(log[m].Settled? && log[m].key == k && log[m].number == NumberAt(log, i))
  }

  lemma {:induction false} StandingIsPending(log: seq<Entry>, i: nat, k: Key)
    requires Stands(log, i, k)
    ensures PendingOf(log, k) == Some(NumberAt(log, i))
    decreases |log|
  {
    if i == |log| - 1 {
      assert log[..i + 1] == log;
    } else {
      var rest := log[..|log| - 1];
      assert rest[..i + 1] == log[..i + 1];
      StandingIsPending(rest, i, k);
    }
  }

  lemma {:induction false} PendingStands(log: seq<Entry>, k: Key) returns (i: nat)
    requires PendingOf(log, k).Some?
    ensures Stands(log, i, k) && PendingOf(log, k) == Some(NumberAt(log, i))
    decreases |log|
  {
    var rest := log[..|log| - 1];
    if Delivers(log[|log| - 1], k) {
      i := |log| - 1;
      assert log[..i + 1] == log;
    } else {
      i := PendingStands(rest, k);
      assert rest[..i + 1] == log[..i + 1];
      forall m | i < m < |log|
        ensures !Delivers(log[m], k) && !Ends(log[m], k)
        ensures !(log[m].Settled? && log[m].key == k && log[m].number == NumberAt(log, i))
      {
        assert m < |rest| ==> rest[m] == log[m];
      }
    }
  }

  /** The engine offers a number for a condition if and only if it handed that number out, and since
      then nobody settled that very number, no newer one replaced it, and the condition did not end. */
  lemma {:induction false} OutstandingExactly(w: World, k: Key, n: nat)
    requires HandedOff(w)
    ensures PendingIn(w.core, k) == Some(n) <==> exists i :: Stands(w.log, i, k) && NumberAt(w.log, i) == n
  {
    if PendingIn(w.core, k) == Some(n) {
      assert PendingOf(w.log, k) == Some(n);
      var i := PendingStands(w.log, k);
    }
    forall i | Stands(w.log, i, k) ensures PendingIn(w.core, k) == Some(NumberAt(w.log, i)) {
      StandingIsPending(w.log, i, k);
    }
  }

  /** A settlement that names an older number clears nothing, even when the condition has ended and
      come back in between. */
  lemma {:induction false} StaleSettlementClearsNothing(w: World, k: Key, i: nat, j: nat)
    requires HandedOff(w)
    requires i < j < |w.log| && Delivers(w.log[i], k) && (Delivers(w.log[j], k) || Ends(w.log[j], k))
    ensures Apply(w.core, Change(k, Settle(NumberAt(w.log, i))), w.now) == w.core
  {
    assert PendingIn(w.core, k) == PendingOf(w.log, k);
    if PendingOf(w.log, k).Some? {
      var s := PendingStands(w.log, k);
      if i < s { NumbersIncrease(w, i, s); }
    }
  }
}
