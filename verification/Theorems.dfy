/** What holds of every run of the attention engine, from an empty store, through any events, ticks,
    closures, settlements, acknowledgements and restarts whose readings never go back. What the engine
    was told and asked is read off the calls of the run, and what it did off what it said and holds. */
module Theorems {
  import opened Common
  import opened Time
  import opened Rules
  import opened Events
  import opened EngineModel
  import opened Scope
  import opened Runs
  import opened Deadline
  import opened Wakeups
  import opened Spacing
  import opened Handoff
  import opened Stamps
  import opened Conservation
  import opened Acknowledgements
  import opened Reminders
  import opened Gaps
  import opened Calls
  import opened Certificates
  import opened Timers
  import opened Repeats
  import opened Deferrals
  import opened Conditions
  import opened Standings
  import opened Closures
  import opened Tallies
  import opened RunLog
  import opened Soundness

  // ---- announcements -----------------------------------------------------------------------

  /** De-duplication: announcements about one standing condition are a window apart, whatever repeats,
      replays, escalations, releases, drops and restarts lie between them. */
  lemma {:induction false} AnnouncementsAreSpaced(start: World, ops: seq<Op>, i: nat, j: nat, k: Key)
    requires FromEmpty(start, ops)
    requires i < j < |Run(start, ops).log| && Delivers(Run(start, ops).log[i], k) && Delivers(Run(start, ops).log[j], k)
    requires forall m :: i < m < j ==> !Ends(Run(start, ops).log[m], k)
    ensures start.Of(Run(start, ops).log[i].at) + Policy(k.rule).dedupMs <= start.Of(Run(start, ops).log[j].at)
  {
    ReachedIsSound(start, ops);
    SameTimeLine(start, ops);
  }

  /** No call made since the announcement at place `i` of the log names its number for settlement. */
  ghost predicate NeverSettled(start: World, ops: seq<Op>, i: nat, k: Key, n: nat) {
    forall m :: 0 <= m < |ops| && i < |Before(start, ops, m).log| && ops[m].SettleAnnouncements? ==>
      (k, n) !in ops[m].settled
  }

  /** An announcement the run made, not replaced, its condition not ended, its number never settled. */
  ghost predicate StillOffered(start: World, ops: seq<Op>, i: nat, k: Key, n: nat) {
    var log := Run(start, ops).log;
    && i < |log| && Delivers(log[i], k) && NumberAt(log, i) == n
    && (forall m :: i < m < |log| ==> !Delivers(log[m], k) && !Ends(log[m], k))
    && NeverSettled(start, ops, i, k, n)
  }

  /** A number is outstanding for a condition exactly when the run announced the condition under it, and
      since then announced it under no other, did not end it, and was not asked to settle that number. */
  lemma {:induction false} AnnouncementsAreNeitherLostNorConfused(start: World, ops: seq<Op>, k: Key, n: nat)
    requires FromEmpty(start, ops)
    ensures PendingIn(Run(start, ops).core, k) == Some(n) <==> exists i: nat :: StillOffered(start, ops, i, k, n)
  {
    var w := Run(start, ops);
    ReachedIsSound(start, ops);
    OutstandingExactly(w, k, n);
    forall i: nat | Stands(w.log, i, k) && NumberAt(w.log, i) == n ensures StillOffered(start, ops, i, k, n) {
      StandingIsNotSettled(start, ops, i, k);
    }
    forall i: nat | StillOffered(start, ops, i, k, n) ensures Stands(w.log, i, k) {
      UnsettledStands(start, ops, i, k, n);
    }
  }

  lemma {:induction false} StandingIsNotSettled(start: World, ops: seq<Op>, i: nat, k: Key)
    requires FromEmpty(start, ops) && Stands(Run(start, ops).log, i, k)
    ensures NeverSettled(start, ops, i, k, NumberAt(Run(start, ops).log, i))
  {
    var w := Run(start, ops);
    var n := NumberAt(w.log, i);
    forall m | 0 <= m < |ops| && i < |Before(start, ops, m).log| && ops[m].SettleAnnouncements?
      ensures (k, n) !in ops[m].settled
    {
      var v := Before(start, ops, m);
      StoodBefore(start, ops, i, k, m);
      if (k, n) in ops[m].settled {
        CallsAreWritten(v, ops[m], Settled(k, n));
        var x := PlaceOfEntry(start, ops, m, Settled(k, n));
        assert false;
      }
    }
  }

  /** What stands at the end stood before each call since, and was held in the inbox. */
  lemma {:induction false} StoodBefore(start: World, ops: seq<Op>, i: nat, k: Key, m: nat)
    requires FromEmpty(start, ops) && Stands(Run(start, ops).log, i, k)
    requires m < |ops| && i < |Before(start, ops, m).log|
    ensures k in Before(start, ops, m).core.items
  {
    var w, v := Run(start, ops), Before(start, ops, m);
    assert ops[..|ops|] == ops;
    LogsGrow(start, ops, m, |ops|);
    assert v.log[..i + 1] == w.log[..i + 1];
    assert forall x :: 0 <= x < |v.log| ==> v.log[x] == w.log[x];
    assert Stands(v.log, i, k);
    StandingIsPending(v.log, i, k);
    SoundBefore(start, ops, m);
    assert PendingIn(v.core, k) == PendingOf(v.log, k);
  }

  lemma {:induction false} UnsettledStands(start: World, ops: seq<Op>, i: nat, k: Key, n: nat)
    requires StillOffered(start, ops, i, k, n) && start.log == []
    ensures Stands(Run(start, ops).log, i, k)
  {
    var w := Run(start, ops);
    forall x | i < x < |w.log| ensures w.log[x] != Settled(k, n) {
      if w.log[x] == Settled(k, n) {
        var m := WriterOf(start, ops, x);
        CallsAreWritten(Before(start, ops, m), ops[m], w.log[x]);
        SettlingDelivers(start, ops, i, k, m);
        assert false;
      }
    }
  }

  /** A call of settlement makes no announcement, so one made by then was made before it. */
  lemma {:induction false} SettlingDelivers(start: World, ops: seq<Op>, i: nat, k: Key, m: nat)
    requires m < |ops| && ops[m].SettleAnnouncements? && i < |Before(start, ops, m + 1).log|
    requires i < |Run(start, ops).log| && Delivers(Run(start, ops).log[i], k)
    ensures i < |Before(start, ops, m).log|
  {
    var v := Before(start, ops, m);
    StepAt(start, ops, m);
    LogsGrow(start, ops, m + 1, |ops|);
    assert ops[..|ops|] == ops;
    SettlingSaysNothing(v, ops[m]);
    NotAmongThose(v.log, Wrote(v, ops[m]), Run(start, ops).log, i, k);
  }

  lemma {:induction false} NotAmongThose(before: seq<Entry>, wrote: seq<Entry>, whole: seq<Entry>, i: nat, k: Key)
    requires before + wrote <= whole && i < |before + wrote|
    requires forall e :: e in wrote ==> !e.Said?
    ensures |before| <= i ==> !Delivers(whole[i], k)
  {
    if |before| <= i { assert whole[i] == wrote[i - |before|]; }
  }

  lemma {:induction false} SettlingSaysNothing(w: World, op: Op)
    requires op.SettleAnnouncements?
    ensures forall e :: e in Wrote(w, op) ==> !e.Said?
  {
    SettlementsAreSilent(w.core, w.core, op.settled, w.now);
  }

  /** A settlement naming a number that a later announcement replaced, or whose condition ended, clears
      nothing, even when the condition has come back since; and later announcements have higher numbers. */
  lemma {:induction false} StaleSettlementsClearNothing(start: World, ops: seq<Op>, k: Key, i: nat, j: nat)
    requires FromEmpty(start, ops)
    requires i < j < |Run(start, ops).log| && Delivers(Run(start, ops).log[i], k)
    requires Delivers(Run(start, ops).log[j], k) || Ends(Run(start, ops).log[j], k)
    ensures var w := Run(start, ops);
            && Apply(w.core, Change(k, Settle(NumberAt(w.log, i))), w.now) == w.core
            && (Delivers(w.log[j], k) ==> NumberAt(w.log, i) < NumberAt(w.log, j))
  {
    var w := Run(start, ops);
    ReachedIsSound(start, ops);
    StaleSettlementClearsNothing(w, k, i, j);
    if Delivers(w.log[j], k) { NumbersIncrease(w, i, j); }
  }

  /** The number of an announcement is one the engine's counter passed in the very call that made it, so no
      two announcements of a run share one. */
  lemma {:induction false} NumbersComeFromTheCounter(start: World, ops: seq<Op>, n: nat, x: nat)
    requires FromEmpty(start, ops) && WroteAt(start, ops, n, x) && IsDelivery(Run(start, ops).log[x])
    ensures Before(start, ops, n).core.nextAnnouncement < NumberAt(Run(start, ops).log, x)
    ensures NumberAt(Run(start, ops).log, x) <= Before(start, ops, n + 1).core.nextAnnouncement
  {
    CounterBefore(start, ops, n);
    CounterBefore(start, ops, n + 1);
    CountedUpTo(Run(start, ops).log, Before(start, ops, n).log, Before(start, ops, n + 1).log, x);
  }

  lemma {:induction false} CounterBefore(start: World, ops: seq<Op>, n: nat)
    requires FromEmpty(start, ops) && n <= |ops|
    ensures Before(start, ops, n).core.nextAnnouncement == Deliveries(Before(start, ops, n).log)
    ensures Before(start, ops, n).log <= Run(start, ops).log
  {
    SoundBefore(start, ops, n);
    assert ops[..|ops|] == ops;
    LogsGrow(start, ops, n, |ops|);
  }

  lemma {:induction false} CountedUpTo(log: seq<Entry>, before: seq<Entry>, after: seq<Entry>, x: nat)
    requires before <= log && after <= log && |before| <= x < |after| && IsDelivery(log[x])
    ensures Deliveries(before) < NumberAt(log, x) <= Deliveries(after)
  {
    assert before == log[..|before|] && after == log[..|after|];
    assert log[..x + 1][..x] == log[..x];
    DeliveriesGrow(log, |before|, x);
    DeliveriesGrow(log, x + 1, |after|);
  }

  /** An item's stamps are of one decision about it since it was raised, never of a release, and of none
      later than the one its outstanding announcement came from. */
  lemma {:induction false} StampsAreNeverNewer(start: World, ops: seq<Op>, k: Key) returns (d: nat, h: nat)
    requires FromEmpty(start, ops)
    requires k in Run(start, ops).core.items && Run(start, ops).core.items[k].ann.decidedAt.Some?
    ensures var w := Run(start, ops);
            && IsStampOf(w, k, d)
            && (w.core.items[k].ann.pending.Some? ==>
                  && d <= h < |w.log| && Delivers(w.log[h], k)
                  && w.core.items[k].ann.pending == Some(NumberAt(w.log, h)))
  {
    ReachedIsSound(start, ops);
    d, h := StampsAreTrue(Run(start, ops), k);
  }

  // ---- the inbox ---------------------------------------------------------------------------

  /** What entered is in the inbox or left it in a way the engine said, and the count of what the
      bound let go of is true. */
  lemma {:induction false} InboxIsConserved(start: World, ops: seq<Op>)
    requires FromEmpty(start, ops)
    ensures var w := Run(start, ops);
            && Count(w.log, Enters) == |w.core.items| + Count(w.log, Leaves)
            && w.core.dropped == Count(w.log, Drops)
  {
    ReachedIsSound(start, ops);
  }

  /** A condition's item is in the inbox exactly when a call of the run raised it and none since ended it: an
      event of the kind that raises its rule's conditions was taken, or a tick reminded of its question,
      and since then no event of the kind that ends it was taken, no closure was of its session and it was
      not dropped. */
  lemma {:induction false} InboxFollowsFromEvents(start: World, ops: seq<Op>, k: Key)
    requires FromEmpty(start, ops)
    ensures k in Run(start, ops).core.items <==> exists i: nat :: StandsSince(start, ops, i, |ops|, k)
  {
    assert ops[..|ops|] == ops;
    if HeldAt(start, ops, |ops|, k) {
      var i := RaisedBy(start, ops, |ops|, k);
    }
    forall i: nat | StandsSince(start, ops, i, |ops|, k) ensures HeldAt(start, ops, |ops|, k) {
      StandsOnceRaised(start, ops, i, |ops|, k);
    }
  }

  /** What the inbox says of a condition, and how often and since when it was seen, is what the events taken
      and the reminders written since it came in say. */
  lemma {:induction false} InboxSaysWhatEventsSaid(start: World, ops: seq<Op>, k: Key)
    requires FromEmpty(start, ops)
    ensures StandingOf(Run(start, ops).core, k) == StandsBy(start, ops, |ops|, k)
  {
    assert ops[..|ops|] == ops;
    InboxIsWhatWasSaid(start, ops, |ops|, k);
  }

  /** A record no rule covers, a change set, a command that exited with nought and a question the host does not
      vouch for raise nothing, repeat nothing and end nothing. */
  lemma {:induction false} SomeEventsSayNothing(start: World, ops: seq<Op>, n: nat, k: Key)
    requires FromEmpty(start, ops) && n < |ops| && ops[n].Consume?
    requires var kind := ops[n].event.kind;
             || kind.Observed? || kind.ChangeSetCaptured? || (kind.CommandCompleted? && kind.exitCode == 0)
             || (kind.QuestionPending? && !kind.verified)
    ensures StandingOf(Before(start, ops, n + 1).core, k) == StandingOf(Before(start, ops, n).core, k)
  {
    StepAt(start, ops, n);
    NothingSaid(Before(start, ops, n), ops[n], k);
  }

  /** The bound lets go of failed commands, review work and notices, and of nothing else. */
  lemma {:induction false} OnlyRecordsAreLetGo(start: World, ops: seq<Op>, n: nat, e: Entry)
    requires FromEmpty(start, ops) && n < |ops|
    requires e in Wrote(Before(start, ops, n), ops[n]) && e.Said? && e.out.Dropped?
    ensures e.out.key.rule == CommandFailed || e.out.key.rule == ReviewReady || e.out.key.rule == ApplicationNotice
  {
    SoundBefore(start, ops, n);
    TimelyAt(start, ops, n);
    DroppedIsARecord(Before(start, ops, n), ops[n], e);
  }

  /** What a device is shown names no session but those it may see, is worded by no record of another, and was
      first seen within its history; a pause of automation it is shown is of its own grant, and what names
      no session at all it is shown as a manager of the host or of that automation. */
  lemma {:induction false} DevicesAreShownTheirOwn(start: World, ops: seq<Op>, viewer: Viewer, k: Key)
    requires FromEmpty(start, ops) && viewer.Device? && k in Run(start, ops).core.items
    requires ShownTo(Run(start, ops).core, viewer, Run(start, ops).core.items[k])
    ensures var item := Run(start, ops).core.items[k];
            && (item.about.session.Some? ==> viewer.sessionView && viewer.admits(item.about.session.value))
            && (item.about.text.Record? && item.about.text.cursor.origin.Session? ==>
                  viewer.sessionView && viewer.admits(item.about.text.cursor.origin.id))
            && (item.about.origin == Environment && item.about.session.None? ==>
                  if k.rule == AutomationPaused then viewer.automationManage && item.about.grant == Some(viewer.grant)
                  else viewer.hostManage)
            && (k.rule != InputIdleReminder ==> viewer.historyFrom <= item.firstSeen)
  {
    ReachedIsSound(start, ops);
    NamedByItsKey(Run(start, ops).core, Run(start, ops).now, k);
    InboxSaysWhatEventsSaid(start, ops, k);
    RunsWordWell(start, ops, |ops|, k);
  }

  /** What an item says of its announcing is what the engine last decided about it since it was raised. */
  lemma {:induction false} AnnouncingIsStatedTruly(start: World, ops: seq<Op>, k: Key)
    requires FromEmpty(start, ops) && k in Run(start, ops).core.items
    ensures Stated(Run(start, ops).core.items[k].ann, LastDecision(Run(start, ops).log, k))
  {
    assert ops[..|ops|] == ops;
    StatedBefore(start, ops, |ops|);
  }

  /** How often the engine says an item has been announced is how often it was since it was raised, and the gaps
      it lists are the newest of those it recorded, in their order. */
  lemma {:induction false} TalliesAreTrue(start: World, ops: seq<Op>, k: Key)
    requires FromEmpty(start, ops)
    ensures var w := Run(start, ops);
            && w.core.gaps == Newest(RangesRecorded(w.log))
            && (k in w.core.items ==> w.core.items[k].ann.count == TimesAnnounced(w.log, k))
  {
    RunKeepsTallied(start, ops);
  }

  // ---- closures ----------------------------------------------------------------------------

  /** After a session's closure the inbox holds exactly what it held but the pending approvals, pending
      questions and reminders whose record is the session's or that name it; all else is as it was. */
  lemma {:induction false} ClosuresEndRequests(start: World, ops: seq<Op>, n: nat, k: Key)
    requires FromEmpty(start, ops) && n < |ops| && ops[n].Finalise?
    ensures var c, d := Before(start, ops, n).core, Before(start, ops, n + 1).core;
            && (k in d.items <==>
                  && k in c.items
                  && !(&& (k.rule == PendingApproval || k.rule == PendingInput || k.rule == InputIdleReminder)
                       && (c.items[k].about.origin == Session(ops[n].session) || c.items[k].about.session == Some(ops[n].session))))
            && (k in d.items ==> d.items[k] == c.items[k])
  {
    SoundBefore(start, ops, n);
    StepAt(start, ops, n);
    ClosureStep(Before(start, ops, n), ops[n], k);
  }

  /** That a condition ended is said by closures alone, and by each of exactly those requests. */
  lemma {:induction false} EndingsAreSaid(start: World, ops: seq<Op>, n: nat, k: Key)
    requires FromEmpty(start, ops) && n < |ops|
    ensures var c := Before(start, ops, n).core;
            (exists e :: e in Wrote(Before(start, ops, n), ops[n]) && e.Said? && e.out == Ended(k)) <==>
            && ops[n].Finalise? && k in c.items
            && (k.rule == PendingApproval || k.rule == PendingInput || k.rule == InputIdleReminder)
            && (c.items[k].about.origin == Session(ops[n].session) || c.items[k].about.session == Some(ops[n].session))
  {
    SoundBefore(start, ops, n);
    EndedInACall(Before(start, ops, n), ops[n], k);
  }

  /** Once a session has closed, no request from its records is in the inbox again. */
  lemma {:induction false} ClosedSessionsAskNothing(start: World, ops: seq<Op>, n: nat, m: nat, k: Key)
    requires FromEmpty(start, ops) && n < m <= |ops| && ops[n].Finalise? && k in Before(start, ops, m).core.items
    requires k.rule == PendingApproval || k.rule == PendingInput || k.rule == InputIdleReminder
    ensures Before(start, ops, m).core.items[k].about.origin != Session(ops[n].session)
  {
    StaysClosed(start, ops, n, m);
    OpenBefore(start, ops, m);
  }

  // ---- deadlines ---------------------------------------------------------------------------

  /** Before the next deadline a tick says nothing but what the bound let go of; after a tick that
      read every origin through, the next deadline lies ahead. */
  lemma {:induction false} DeadlinesAreExact(
    start: World, ops: seq<Op>, deadline: Option<nat>, later: Reading, certified: map<Origin, nat>)
    requires FromEmpty(start, ops) && InStep(Run(start, ops).now, later)
    ensures var w := Run(start, ops);
            Earliest(Deadlines(w.core, w.now, None), deadline) && (deadline.Some? ==> later.ms < deadline.value) ==>
              forall out :: out in Outcomes(Trace(w.core, TickActs(w.core, later, certified), later)) ==> out.Dropped?
    ensures var w := Run(start, ops);
            && AllReadThrough(w.core, later, certified)
            && Earliest(Deadlines(Exec(w.core, TickActs(w.core, later, certified), later), later, None), deadline) ==>
              (deadline.Some? ==> later.ms < deadline.value)
  {
    var w := Run(start, ops);
    ReachedIsSound(start, ops);
    if Earliest(Deadlines(w.core, w.now, None), deadline) && (deadline.Some? ==> later.ms < deadline.value) {
      TickIsQuietBeforeDeadline(w.core, w.now, deadline, later, certified);
    }
    LaterKeepsConsistent(w.core, w.now, later);
    if AllReadThrough(w.core, later, certified)
       && Earliest(Deadlines(Exec(w.core, TickActs(w.core, later, certified), later), later, None), deadline) {
      DeadlineLiesAhead(w.core, later, certified, deadline);
    }
  }

  /** A deadline is given only where a timer falls due: a tick that reads every origin through says something
      then, besides what the bound lets go of, if and only if something waits for it but announcements
      held in a window of the whole day, which has no end. */
  lemma {:induction false} DeadlinesAreNotEarly(start: World, ops: seq<Op>, d: nat, later: Reading, certified: map<Origin, nat>)
    requires FromEmpty(start, ops)
    requires var w := Run(start, ops);
             && Earliest(Deadlines(w.core, w.now, None), Some(d))
             && InStep(w.now, later) && later.ms == Max(d, w.now.ms) && AllReadThrough(w.core, later, certified)
    ensures var w := Run(start, ops);
            (exists out :: out in Outcomes(Trace(w.core, TickActs(w.core, later, certified), later)) && !out.Dropped?)
            <==> !OnlyHeldForEver(w.core, w.now, None, d)
  {
    var w := Run(start, ops);
    ReachedIsSound(start, ops);
    SpokenIsAnOutcome(Trace(w.core, TickActs(w.core, later, certified), later));
    DueIsSaid(w.core, later, certified);
    if OnlyHeldForEver(w.core, w.now, None, d) {
      NothingFallsDueForEver(w.core, w.now, d, later, certified);
    } else {
      DeadlineFallsDue(w.core, w.now, None, d, later, certified);
    }
  }

  /** From an empty store, where only events move a source that numbers every record, each record up to
      the last consumed was taken once or recorded as missing once, and no later one was either. */
  lemma {:induction false} GapsAreExact(start: World, ops: seq<Op>, origin: Origin, source: Source, n: nat)
    requires FromEmpty(start, ops) && NumbersEveryRecord(source) && n >= 1
    requires forall op :: op in ops ==> LeavesToEvents(op, origin, source)
    ensures var w := Run(start, ops);
            TimesAccounted(w.log, origin, source, n) == if n < NextSequence(w.core, origin, source) then 1 else 0
  {
    StartIsSound(start.core.digest, start.now, start.epoch);
    assert Accounted(start, origin, source);
    GapsAccountForWhatIsMissing(start, ops, origin, source);
  }

  // ---- timers ------------------------------------------------------------------------------

  /** An escalation is written by a tick, at a level whose threshold, counted on the physical time line from
      where the call that raised the condition counts it, had passed by the reading the condition's
      origin is decided at: the present for a session that has closed, and otherwise no later than the
      origin's own certificate. Restarts only make it later. */
  lemma {:induction false} EscalationsAreLateNeverEarly(start: World, ops: seq<Op>, n: nat, e: Entry)
    returns (i: nat, at: Reading, step: nat)
    requires FromEmpty(start, ops) && n < |ops|
    requires e in Wrote(Before(start, ops, n), ops[n]) && e.Said? && e.out.Escalated?
    ensures ops[n].Tick? && e.out.key in Climbing(Before(start, ops, n), ops[n]).items
    ensures var c := Climbing(Before(start, ops, n), ops[n]);
            DecidedAt(c, ops[n].r, ops[n].certified, c.items[e.out.key].about.origin, at)
    ensures i <= n && RaisedAt(start, ops, i, e.out.key)
    ensures forall m :: i < m < n ==> !RaisedAt(start, ops, m, e.out.key)
    ensures var steps := Policy(e.out.key.rule).steps;
            && step < |steps| && steps[step].level == e.out.to
            && BirthIn(Before(start, ops, i), ops[i]) + steps[step].after <= start.Of(at)
  {
    var w := Before(start, ops, n);
    SoundBefore(start, ops, n);
    TimelyAt(start, ops, n);
    SameTimeLine(start, ops[..n]);
    OnlyTicksEscalate(w, ops[n], e);
    at, step := EscalatedInTime(w, ops[n], e);
    i := BornByTheClimb(start, ops, n, e.out.key);
  }

  /** An announcement a tick makes is that of a reminder it has just written, or is decided at its origin's
      own reading, with the window since the last announcement about the item run out by then, and the
      repeat too unless the item has climbed since. */
  lemma {:induction false} RepeatsAreLateNeverEarly(start: World, ops: seq<Op>, n: nat, e: Entry) returns (at: Reading, x: Entry)
    requires FromEmpty(start, ops) && n < |ops| && ops[n].Tick?
    requires e in Wrote(Before(start, ops, n), ops[n]) && e.Said? && e.out.Notified?
    ensures || AnnouncedInTime(Before(start, ops, n), ops[n], e, at)
            || (&& x in Wrote(Before(start, ops, n), ops[n]) && x.Reminded?
                && KeyFor(Before(start, ops, n).core.digest, InputIdleReminder, QuestionOf(x.question)) == e.out.key)
  {
    var w := Before(start, ops, n);
    SoundBefore(start, ops, n);
    HeardBefore(start, ops, n);
    TimelyAt(start, ops, n);
    at, x := w.now, e;
    if Unreminded(w.core, ops[n].r, ops[n].certified, e.out.key) {
      at := NotifiedLate(w, ops[n], e);
    } else {
      x := RemindedNow(w, ops[n], e.out.key);
    }
  }

  // ---- quiet hours -------------------------------------------------------------------------

  /** No announcement goes out, first, again or released, at a reading inside the window in force. */
  lemma {:induction false} QuietHoursAreKept(start: World, ops: seq<Op>, n: nat, e: Entry)
    requires FromEmpty(start, ops) && n < |ops|
    requires e in Wrote(Before(start, ops, n), ops[n]) && e.Said? && (e.out.Notified? || e.out.Released?)
    ensures !QuietAt(Before(start, ops, n).core.quiet, e.at) && e.at == ReadingOf(Before(start, ops, n).now, ops[n])
  {
    NothingGoesOutInQuietHours(Before(start, ops, n), ops[n], e);
  }

  /** An item is held exactly when the latest decision about it since it was raised was to hold it; a
      release follows such a decision with no other between; and nothing held is dropped. */
  lemma {:induction false} DeferralsAreExact(start: World, ops: seq<Op>, k: Key, j: nat) returns (i: nat)
    requires FromEmpty(start, ops)
    ensures var w := Run(start, ops);
            k in w.core.items ==> (w.core.items[k].ann.deferred <==> Holds(w.log, k))
    ensures var log := Run(start, ops).log;
            j < |log| && log[j].Said? && log[j].out.Released? ==>
              && i < j && log[i].Said? && log[i].out.Deferred? && log[i].out.key == log[j].out.key
              && forall m :: i < m < j ==> !Decision(log[m], log[j].out.key) && !Begins(log[m], log[j].out.key)
    ensures var log := Run(start, ops).log;
            j < |log| && log[j].Said? && log[j].out.Dropped? ==> !Holds(log[..j], log[j].out.key)
  {
    assert ops[..|ops|] == ops;
    DeferringBefore(start, ops, |ops|);
    i := HeededAt(Run(start, ops).log, j);
  }

  /** Once the window is over, the next tick that can decide an item's origin leaves it held no longer. */
  lemma {:induction false} HeldIsReleased(start: World, ops: seq<Op>, n: nat, k: Key)
    requires FromEmpty(start, ops) && n < |ops| && ops[n].Tick? && !QuietAt(Before(start, ops, n).core.quiet, ops[n].r)
    requires var d := Before(start, ops, n + 1).core;
             k in d.items && CertifiedAt(d, ops[n].r, ops[n].certified, d.items[k].about.origin).Some?
    ensures !Before(start, ops, n + 1).core.items[k].ann.deferred
  {
    var w := Before(start, ops, n);
    SoundBefore(start, ops, n);
    TimelyAt(start, ops, n);
    StepAt(start, ops, n);
    StepIsExec(w, ops[n]);
    LaterKeepsConsistent(w.core, w.now, ops[n].r);
    TickReleases(w.core, ops[n].r, ops[n].certified, k);
  }

  // ---- acknowledgements --------------------------------------------------------------------

  /** A call of the run acknowledged an item for an actor, and no call since raised the item again. */
  ghost predicate AcknowledgedBy(start: World, ops: seq<Op>, n: nat, actor: ActorId, k: Key) {
    && n < |ops| && Acknowledges(Before(start, ops, n).core, ops[n], actor, k)
    && forall m, e :: n < m < |ops| && e in Wrote(Before(start, ops, m), ops[m]) ==> !Occurs(e, k)
  }

  /** An actor has an item acknowledged exactly when a call of that actor's own, not refused, named the
      item as it was shown to it at the revision it stood at, and it did not occur again since. */
  lemma {:induction false} AcknowledgementsAreExact(start: World, ops: seq<Op>, actor: ActorId, k: Key)
    requires FromEmpty(start, ops) && k in Run(start, ops).core.items
    ensures IsAcknowledged(Run(start, ops).acks, actor, Run(start, ops).core.items[k]) <==>
            exists n: nat :: AcknowledgedBy(start, ops, n, actor, k)
  {
    var w := Run(start, ops);
    ReachedIsSound(start, ops);
    AcknowledgedExactly(w, actor, k);
    if AckedSince(w.log, actor, k) {
      var x := AckedAt(w.log, actor, k);
      var n := AckedByACall(start, ops, actor, k, x);
    }
    forall n: nat | AcknowledgedBy(start, ops, n, actor, k) ensures AckedSince(w.log, actor, k) {
      CallIsAcked(start, ops, actor, k, n);
    }
  }

  lemma {:induction false} AckedByACall(start: World, ops: seq<Op>, actor: ActorId, k: Key, x: nat) returns (n: nat)
    requires FromEmpty(start, ops) && x < |Run(start, ops).log| && Run(start, ops).log[x] == Acked(actor, k)
    requires forall y :: x < y < |Run(start, ops).log| ==> !Occurs(Run(start, ops).log[y], k)
    ensures AcknowledgedBy(start, ops, n, actor, k)
  {
    n := WriterOf(start, ops, x);
    CallsAreWritten(Before(start, ops, n), ops[n], Acked(actor, k));
    forall m, e | n < m < |ops| && e in Wrote(Before(start, ops, m), ops[m]) ensures !Occurs(e, k) {
      var y := PlaceOfEntry(start, ops, m, e);
      LaterWriter(start, ops, n, x, m, y);
    }
  }

  lemma {:induction false} CallIsAcked(start: World, ops: seq<Op>, actor: ActorId, k: Key, n: nat)
    requires FromEmpty(start, ops) && AcknowledgedBy(start, ops, n, actor, k)
    ensures AckedSince(Run(start, ops).log, actor, k)
  {
    var w := Run(start, ops);
    CallsAreWritten(Before(start, ops, n), ops[n], Acked(actor, k));
    var x := PlaceOfEntry(start, ops, n, Acked(actor, k));
    forall y | x < y < |w.log| ensures !Occurs(w.log[y], k) {
      var m := WriterOf(start, ops, y);
      LaterWriter(start, ops, n, x, m, y);
      if m == n { AcknowledgingSaysNothing(Before(start, ops, n), ops[n]); }
    }
    AckedIsSince(w.log, actor, k, x);
  }

  lemma {:induction false} AcknowledgingSaysNothing(w: World, op: Op)
    requires op.Acknowledge? || op.AcknowledgeCurrent?
    ensures forall e :: e in Wrote(w, op) ==> !e.Said?
  {
    AcksAreSilent(w.core, ActsOf(w.core, op, op.r), op.r);
  }

  // ---- reminders ---------------------------------------------------------------------------

  /** A closure of the session an event was recorded in, or of the one its question names. */
  predicate ClosesFor(op: Op, e: Event)
    requires e.kind.QuestionPending?
  {
    op.Finalise? && (op.session == e.kind.session || e.cursor.origin == Session(op.session))
  }

  /** A call that takes the request an event made away, or puts another in its place. */
  ghost predicate Overtakes(w: World, op: Op, q: QuestionId, e: Event)
    requires e.kind.QuestionPending?
  {
    Asks(w.core, op, q) || Answers(w.core, op, q) || ClosesFor(op, e)
  }

  /** The request a call made, and that no call before place `n` overtook. */
  ghost predicate AskedBefore(start: World, ops: seq<Op>, i: nat, n: nat, q: QuestionId) {
    && i < n <= |ops| && Asks(Before(start, ops, i).core, ops[i], q)
    && forall m :: i < m < n ==> !Overtakes(Before(start, ops, m), ops[m], q, ops[i].event)
  }

  /** A reminder is written by a tick, for a request an earlier event of the run made and none since has
      resolved, made again or closed the session of, at its origin's own certificate, a whole interval of
      physical time after that request's wait began; and no other reminder is of the same record. */
  lemma {:induction false} RemindersAreLateNeverEarly(start: World, ops: seq<Op>, n: nat, e: Entry) returns (i: nat)
    requires FromEmpty(start, ops) && n < |ops| && e in Wrote(Before(start, ops, n), ops[n]) && e.Reminded?
    ensures AskedBefore(start, ops, i, n, e.question) && ops[i].event.cursor == e.record
    ensures ops[n].Tick? && e.record.origin in ops[n].certified
    ensures e.certified == ops[n].r.AtOrBefore(ops[n].certified[e.record.origin])
    ensures var began := BeganAt(ops[i].event, ops[i].r);
            start.At(began.boot, began.ms) + IDLE_REMINDER_MS <= start.Of(e.certified)
    ensures forall m, x :: 0 <= m < |ops| && m != n && x in Wrote(Before(start, ops, m), ops[m]) && x.Reminded? ==>
              x.record != e.record
  {
    var w := Run(start, ops);
    ReachedIsSound(start, ops);
    SameTimeLine(start, ops);
    var x := PlaceOfEntry(start, ops, n, e);
    assert Late(w, x);
    var y := ReminderIsOwed(w, x);
    ReminderIsCertified(start, ops, n, e);
    i := AskerOf(start, ops, n, x, y);
    forall m, other | 0 <= m < |ops| && m != n && other in Wrote(Before(start, ops, m), ops[m]) && other.Reminded?
      ensures other.record != e.record
    {
      RemindedOnce(start, ops, n, x, m, other);
    }
  }

  lemma {:induction false} RemindedOnce(start: World, ops: seq<Op>, n: nat, x: nat, m: nat, other: Entry)
    requires FromEmpty(start, ops) && WroteAt(start, ops, n, x) && Run(start, ops).log[x].Reminded?
    requires m < |ops| && m != n && other in Wrote(Before(start, ops, m), ops[m]) && other.Reminded?
    ensures other.record != Run(start, ops).log[x].record
  {
    ReachedIsSound(start, ops);
    var z := PlaceOfEntry(start, ops, m, other);
    LaterWriter(start, ops, n, x, m, z);
    LaterWriter(start, ops, m, z, n, x);
  }

  /** The call that made the request a reminder is of. */
  lemma {:induction false} AskerOf(start: World, ops: seq<Op>, n: nat, x: nat, y: nat) returns (i: nat)
    requires FromEmpty(start, ops) && WroteAt(start, ops, n, x) && ops[n].Tick? && y < x
    requires var log := Run(start, ops).log;
             && log[x].Reminded? && log[y].Took? && log[y].asked.Some?
             && log[y].asked.value.question == log[x].question && log[y].cursor == log[x].record
             && forall m :: y < m < x ==>
                  !Supersedes(log[m], log[x].question, WaitingAt(log[y].cursor, log[y].asked.value))
    ensures AskedBefore(start, ops, i, n, Run(start, ops).log[x].question)
    ensures ops[i].event.cursor == Run(start, ops).log[x].record
    ensures Run(start, ops).log[y].asked == RequestIn(ops[i].event, ops[i].r)
  {
    var q := Run(start, ops).log[x].question;
    i := WriterAsked(start, ops, y);
    LaterWriter(start, ops, i, y, n, x);
    forall m | i < m < n ensures !Overtakes(Before(start, ops, m), ops[m], q, ops[i].event) {
      if Overtakes(Before(start, ops, m), ops[m], q, ops[i].event) {
        var z := OvertakenBetween(start, ops, i, y, n, x, m, q);
        assert false;
      }
    }
  }

  /** A record taken with a request in it was an event that asks. */
  lemma {:induction false} WriterAsked(start: World, ops: seq<Op>, y: nat) returns (i: nat)
    requires FromEmpty(start, ops) && y < |Run(start, ops).log|
    requires Run(start, ops).log[y].Took? && Run(start, ops).log[y].asked.Some?
    ensures WroteAt(start, ops, i, y)
    ensures Asks(Before(start, ops, i).core, ops[i], Run(start, ops).log[y].asked.value.question)
    ensures Run(start, ops).log[y] == Took(ops[i].event.cursor, RequestIn(ops[i].event, ops[i].r))
  {
    i := WriterOf(start, ops, y);
    CallsAreWritten(Before(start, ops, i), ops[i], Run(start, ops).log[y]);
  }

  lemma {:induction false} OvertakenBetween(start: World, ops: seq<Op>, i: nat, y: nat, n: nat, x: nat, m: nat, q: QuestionId) returns (z: nat)
    requires WroteAt(start, ops, i, y) && WroteAt(start, ops, n, x) && i < m < n
    requires ops[i].Consume? && RequestIn(ops[i].event, ops[i].r).Some?
    requires Run(start, ops).log[y] == Took(ops[i].event.cursor, RequestIn(ops[i].event, ops[i].r))
    requires Overtakes(Before(start, ops, m), ops[m], q, ops[i].event)
    ensures y < z < x
    ensures Supersedes(Run(start, ops).log[z], q, WaitingAt(Run(start, ops).log[y].cursor, Run(start, ops).log[y].asked.value))
  {
    var e := OvertakingEntry(Before(start, ops, m), ops[m], q, ops[i].event);
    z := PlaceOfEntry(start, ops, m, e);
    LaterWriter(start, ops, i, y, m, z);
    LaterWriter(start, ops, m, z, n, x);
  }

  /** A request as the log keeps it. */
  function WaitingAt(cursor: Cursor, asked: Asked): Waiting {
    Waiting(asked.wait.session, cursor, asked.wait.anchor, false)
  }

  /** What a call that overtakes a request writes. */
  lemma {:induction false} OvertakingEntry(w: World, op: Op, q: QuestionId, made: Event) returns (e: Entry)
    requires made.kind.QuestionPending? && Overtakes(w, op, q, made)
    ensures e in Wrote(w, op)
    ensures forall began :: Supersedes(e, q, Waiting(made.kind.session, made.cursor, began, false))
  {
    e := if Asks(w.core, op, q) then Took(op.event.cursor, RequestIn(op.event, op.r))
         else if Answers(w.core, op, q) then Answered(q)
         else Closed(op.session);
    CallsAreWritten(w, op, e);
  }

  /** A reminder's reading is its origin's own certificate: the origin of a waiting request is open. */
  lemma {:induction false} ReminderIsCertified(start: World, ops: seq<Op>, n: nat, e: Entry)
    requires FromEmpty(start, ops) && n < |ops| && e in Wrote(Before(start, ops, n), ops[n]) && e.Reminded?
    ensures ops[n].Tick? && e.record.origin in ops[n].certified
    ensures e.certified == ops[n].r.AtOrBefore(ops[n].certified[e.record.origin])
  {
    CallsAreWritten(Before(start, ops, n), ops[n], e);
    SoundBefore(start, ops, n);
  }

  /** A question whose resolution the run consumed is not reminded of until an event makes it pending
      again, and neither is one whose session closed. */
  lemma {:induction false} NothingIsRemindedAfterwards(start: World, ops: seq<Op>, i: nat, n: nat, e: Entry)
    requires FromEmpty(start, ops) && i < n < |ops|
    requires e in Wrote(Before(start, ops, n), ops[n]) && e.Reminded?
    requires forall m :: i < m < n ==> !Asks(Before(start, ops, m).core, ops[m], e.question)
    ensures !Answers(Before(start, ops, i).core, ops[i], e.question)
    ensures ops[i].Finalise? ==>
              && e.record.origin != Session(ops[i].session)
              && exists j: nat :: j < i && AskedBefore(start, ops, j, n, e.question) && ops[j].event.cursor == e.record
                               && ops[j].event.kind.session != ops[i].session
  {
    var j := RemindersAreLateNeverEarly(start, ops, n, e);
    assert j <= i;
    assert j < i ==> !Overtakes(Before(start, ops, i), ops[i], e.question, ops[j].event);
  }

  /** A request an event of the run made, that no call since overtook and no tick reminded of, is still
      waiting and still owed its reminder, however many others came and went. */
  lemma {:induction false} RemindersAreNeverLost(start: World, ops: seq<Op>, i: nat, q: QuestionId)
    requires FromEmpty(start, ops) && AskedBefore(start, ops, i, |ops|, q)
    requires forall m, e :: i < m < |ops| && e in Wrote(Before(start, ops, m), ops[m]) ==> !(e.Reminded? && e.question == q)
    ensures var c := Run(start, ops).core;
            && q in c.pending && c.pending[q].record == ops[i].event.cursor
            && c.pending[q].session == ops[i].event.kind.session && !c.pending[q].reminded
  {
    var w := Run(start, ops);
    ReachedIsSound(start, ops);
    var y := OwedAt(start, ops, i, q);
    OwedIsKept(w.log, y, q);
    assert WaitExact(w, q);
  }

  /** Where the log says that a request nothing overtook is still owed its reminder. */
  lemma {:induction false} OwedAt(start: World, ops: seq<Op>, i: nat, q: QuestionId) returns (y: nat)
    requires FromEmpty(start, ops) && AskedBefore(start, ops, i, |ops|, q)
    requires forall m, e :: i < m < |ops| && e in Wrote(Before(start, ops, m), ops[m]) ==> !(e.Reminded? && e.question == q)
    ensures var log := Run(start, ops).log;
            StillOwed(log, y, q) && log[y] == Took(ops[i].event.cursor, RequestIn(ops[i].event, ops[i].r))
  {
    var log := Run(start, ops).log;
    var took := Took(ops[i].event.cursor, RequestIn(ops[i].event, ops[i].r));
    CallsAreWritten(Before(start, ops, i), ops[i], took);
    var x := PlaceOfEntry(start, ops, i, took);
    y := LastAsked(log, q, x);
    forall z | y <= z < |log|
      ensures z > y ==> !Disturbs(log[z], q, ops[i].event)
      ensures z == y ==> log[z] == took
    {
      LaterEntries(start, ops, i, q, x, y, z);
    }
  }

  /** An entry that would end the debt of a reminder on `q`. */
  predicate Disturbs(e: Entry, q: QuestionId, made: Event)
    requires made.kind.QuestionPending?
  {
    || (e.Took? && e.asked.Some? && e.asked.value.question == q)
    || e == Answered(q) || (e.Reminded? && e.question == q)
    || e == Closed(made.kind.session) || (e.Closed? && made.cursor.origin == Session(e.session))
  }

  lemma {:induction false} LaterEntries(start: World, ops: seq<Op>, i: nat, q: QuestionId, x: nat, y: nat, z: nat)
    requires FromEmpty(start, ops) && AskedBefore(start, ops, i, |ops|, q)
    requires forall m, e :: i < m < |ops| && e in Wrote(Before(start, ops, m), ops[m]) ==> !(e.Reminded? && e.question == q)
    requires var log := Run(start, ops).log;
             && WroteAt(start, ops, i, x) && x <= y <= z < |log|
             && log[y].Took? && log[y].asked.Some? && log[y].asked.value.question == q
             && forall m :: y < m < |log| ==> !(log[m].Took? && log[m].asked.Some? && log[m].asked.value.question == q)
    ensures z > y ==> !Disturbs(Run(start, ops).log[z], q, ops[i].event)
    ensures z == y ==> Run(start, ops).log[z] == Took(ops[i].event.cursor, RequestIn(ops[i].event, ops[i].r))
  {
    var e := Run(start, ops).log[z];
    var m := WriterOf(start, ops, z);
    LaterWriter(start, ops, m, z, i, x);
    if !e.Said? {
      CallsAreWritten(Before(start, ops, m), ops[m], e);
      if i < m {
        assert !Overtakes(Before(start, ops, m), ops[m], q, ops[i].event);
        OthersDisturbNothing(Before(start, ops, m), ops[m], e, q, ops[i].event);
      } else {
        AskingTakesOnce(Before(start, ops, i), ops[i], e, q);
      }
    }
  }

  lemma {:induction false} OthersDisturbNothing(w: World, op: Op, e: Entry, q: QuestionId, made: Event)
    requires made.kind.QuestionPending? && Caused(w, op, e) && !Overtakes(w, op, q, made)
    requires !(e.Reminded? && e.question == q)
    ensures !Disturbs(e, q, made)
  {
  }

  lemma {:induction false} AskingTakesOnce(w: World, op: Op, e: Entry, q: QuestionId)
    requires Asks(w.core, op, q) && Caused(w, op, e)
    ensures e.Took? ==> e == Took(op.event.cursor, RequestIn(op.event, op.r))
    ensures !e.Took? ==> !Disturbs(e, q, op.event)
  {
  }

  /** Every reminder in the inbox was put there by reminding of its own question, just before. */
  lemma {:induction false} RemindersFollowTheirQuestions(start: World, ops: seq<Op>)
    requires start.log == []
    ensures Introduced(start.core.digest, Run(start, ops).log) && Run(start, ops).core.digest == start.core.digest
    decreases |ops|
  {
    if ops != [] {
      var n := |ops| - 1;
      var before := Run(start, ops[..n]);
      RemindersFollowTheirQuestions(start, ops[..n]);
      RunLast(start, ops);
      StepWrites(before, ops[n]);
      StepKeepsDigest(before, ops[n]);
      RemindersAreIntroduced(before, ops[n]);
      IntroducedTogether(start.core.digest, before.log, Wrote(before, ops[n]));
    }
  }
}
