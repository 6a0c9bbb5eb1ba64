/** The next deadline is not early: at it, a tick that has read every origin through has something to say,
    but for a window of the whole day, whose end is no end. */
module Wakeups {
  import opened Common
  import opened Time
  import opened Rules
  import opened Events
  import opened EngineModel
  import opened Runs
  import opened Deadline
  import opened Calls
  import opened Certificates

  // ---- a tick speaks exactly when something is due -----------------------------------------

  /** Something is said that is not what the bound let go of. */
  ghost predicate Speaks(log: seq<Entry>) {
    exists e :: e in log && e.Said? && !e.out.Dropped?
  }

  lemma {:induction false} SpokenIsAnOutcome(log: seq<Entry>)
    ensures Speaks(log) <==> exists out :: out in Outcomes(log) && !out.Dropped?
    decreases |log|
  {
    if log != [] {
      SpokenIsAnOutcome(log[1..]);
      assert log == [log[0]] + log[1..];
    }
  }

  lemma {:induction false} SpeaksInEither(a: seq<Entry>, b: seq<Entry>)
    ensures Speaks(a + b) <==> Speaks(a) || Speaks(b)
  {
  }

  /** A reminder, a step of a ladder, an announcement or a release of the origins asked for is due. */
  ghost predicate SomethingDue(c: Core, r: Reading, certified: map<Origin, nat>, only: Option<Origin>) {
    || (exists q :: q in c.pending && Included(only, c.pending[q].record.origin) && ReminderDue(c, r, certified, q))
    || (exists k :: k in c.items && Included(only, c.items[k].about.origin)
                    && (ClimbOf(c, k, r, certified).Some? || DueNow(c, k, r, certified).Some?))
  }

  lemma {:induction false} RemindersSpeak(c: Core, qs: seq<QuestionId>, r: Reading, certified: map<Origin, nat>)
    requires qs != [] && qs[0] in c.pending && ReminderDue(c, r, certified, qs[0])
    ensures Speaks(Trace(c, RemindActs(c, qs, r, certified), r))
  {
    var q := qs[0];
    var acts := RemindOneActs(c, q, r, certified);
    var rest := RemindActs(Exec(c, acts, r), qs[1..], r, certified);
    RemindActsFirst(c, qs, r, certified);
    ExecConcat(c, map[], acts, rest, r);
    RemindingSpeaks(c, q, r, certified);
    SpeaksInEither(Trace(c, acts, r), Trace(Exec(c, acts, r), rest, r));
  }

  lemma {:induction false} RemindingSpeaks(c: Core, q: QuestionId, r: Reading, certified: map<Origin, nat>)
    requires q in c.pending && ReminderDue(c, r, certified, q)
    ensures Speaks(Trace(c, RemindOneActs(c, q, r, certified), r))
  {
    var remind := Remind(q, CertifiedAt(c, r, certified, c.pending[q].record.origin).value);
    var raise := ReminderOf(c.digest, q, c.pending[q].session, c.pending[q].record, r);
    var c1 := Apply(c, remind, r);
    var first, rest := RaisingSays(c1, raise, r);
    TraceOne(c, remind, RaiseActs(c1, raise, r, Live), r);
    assert first[0] in first && Speaks(first);
    SpeaksInEither(first, rest);
    SpeaksInEither(Note(c, remind, r), first + rest);
  }

  /** An edit that climbs or decides says so. */
  lemma {:induction false} EditSpeaks(c: Core, acts: seq<Act>, r: Reading)
    requires acts != [] && acts[0].Change? && acts[0].key in c.items && (acts[0].edit.Climb? || acts[0].edit.Announce?)
    ensures Speaks(Trace(c, acts, r))
  {
    var note := Note(c, acts[0], r);
    assert note[0] in note && Speaks(note);
    SpeaksInEither(note, Trace(Apply(c, acts[0], r), acts[1..], r));
  }

  lemma {:induction false} SomeClimb(c: Core, keys: seq<Key>, r: Reading, certified: map<Origin, nat>, k: Key)
    requires (forall x :: x in keys ==> x in c.items) && k in keys && ClimbOf(c, k, r, certified).Some?
    ensures ClimbActs(c, keys, r, certified) != []
    decreases |keys|
  {
    if keys[0] != k { SomeClimb(c, keys[1..], r, certified, k); }
  }

  lemma {:induction false} SomeDecision(c: Core, keys: seq<Key>, r: Reading, certified: map<Origin, nat>, k: Key)
    requires (forall x :: x in keys ==> x in c.items) && k in keys && DueNow(c, k, r, certified).Some?
    ensures DueActs(c, keys, r, certified) != []
    decreases |keys|
  {
    if keys[0] != k { SomeDecision(c, keys[1..], r, certified, k); }
  }

  lemma {:induction false} EditsOfTheInbox(c: Core, keys: seq<Key>, r: Reading, certified: map<Origin, nat>)
    requires forall k :: k in keys ==> k in c.items
    ensures forall act :: act in ClimbActs(c, keys, r, certified) || act in DueActs(c, keys, r, certified) ==>
              act.Change? && act.key in c.items && (act.edit.Climb? || act.edit.Announce?)
    decreases |keys|
  {
    if keys != [] { EditsOfTheInbox(c, keys[1..], r, certified); }
  }

  /** The passes of a tick one after another, as what each of them says. */
  lemma {:induction false} PassesSpeak(c: Core, r: Reading, certified: map<Origin, nat>)
    ensures var qs := SortedQuestions(DueQuestions(c, r, certified));
            Speaks(Trace(c, RemindActs(c, qs, r, certified), r)) ==> Speaks(Trace(c, TickActs(c, r, certified), r))
    ensures var qs := SortedQuestions(DueQuestions(c, r, certified));
            RemindActs(c, qs, r, certified) == [] ==> TickActs(c, r, certified) == TickRest(c, r, certified)
  {
    var reminders := RemindActs(c, SortedQuestions(DueQuestions(c, r, certified)), r, certified);
    var c1 := Exec(c, reminders, r);
    TickSplits(c, r, certified);
    ExecConcat(c, map[], reminders, TickRest(c1, r, certified), r);
    SpeaksInEither(Trace(c, reminders, r), Trace(c1, TickRest(c1, r, certified), r));
  }

  lemma {:induction false} RestSpeaks(c: Core, r: Reading, certified: map<Origin, nat>, k: Key)
    requires k in c.items && (ClimbOf(c, k, r, certified).Some? || DueNow(c, k, r, certified).Some?)
    ensures Speaks(Trace(c, TickRest(c, r, certified), r))
  {
    var keys := SortedKeys(c.items.Keys);
    var climbs := ClimbActs(c, keys, r, certified);
    EditsOfTheInbox(c, keys, r, certified);
    if climbs != [] {
      assert TickRest(c, r, certified)[0] == climbs[0];
    } else {
      if ClimbOf(c, k, r, certified).Some? { SomeClimb(c, keys, r, certified, k); }
      SomeDecision(c, keys, r, certified, k);
      assert TickRest(c, r, certified)[0] == DueActs(c, keys, r, certified)[0];
    }
    EditSpeaks(c, TickRest(c, r, certified), r);
  }

  /** A tick says something besides what the bound lets go of exactly when something is due. */
  lemma {:induction false} DueIsSaid(c: Core, r: Reading, certified: map<Origin, nat>)
    ensures Speaks(Trace(c, TickActs(c, r, certified), r)) <==> SomethingDue(c, r, certified, None)
  {
    if SomethingDue(c, r, certified, None) {
      SomethingDueIsSaid(c, r, certified);
    } else {
      NothingDueIsSilent(c, r, certified);
    }
  }

  lemma {:induction false} SomethingDueIsSaid(c: Core, r: Reading, certified: map<Origin, nat>)
    requires SomethingDue(c, r, certified, None)
    ensures Speaks(Trace(c, TickActs(c, r, certified), r))
  {
    PassesSpeak(c, r, certified);
    if q :| q in c.pending && ReminderDue(c, r, certified, q) {
      DueQuestionsSpeak(c, r, certified, q);
    } else {
      NoReminders(c, SortedQuestions(DueQuestions(c, r, certified)), r, certified);
      var k :| k in c.items && (ClimbOf(c, k, r, certified).Some? || DueNow(c, k, r, certified).Some?);
      RestSpeaks(c, r, certified, k);
    }
  }

  lemma {:induction false} DueQuestionsSpeak(c: Core, r: Reading, certified: map<Origin, nat>, q: QuestionId)
    requires q in c.pending && ReminderDue(c, r, certified, q)
    ensures Speaks(Trace(c, RemindActs(c, SortedQuestions(DueQuestions(c, r, certified)), r, certified), r))
  {
    var qs := SortedQuestions(DueQuestions(c, r, certified));
    assert q in qs;
    assert qs[0] in qs && qs[0] in DueQuestions(c, r, certified);
    RemindersSpeak(c, qs, r, certified);
  }

  lemma {:induction false} NothingDueIsSilent(c: Core, r: Reading, certified: map<Origin, nat>)
    requires !SomethingDue(c, r, certified, None)
    ensures !Speaks(Trace(c, TickActs(c, r, certified), r))
  {
    NoReminders(c, SortedQuestions(DueQuestions(c, r, certified)), r, certified);
    NoClimbs(c, SortedKeys(c.items.Keys), r, certified);
    NoDecisions(c, SortedKeys(c.items.Keys), r, certified);
    IdlePasses(c, r, certified);
    BoundOnlyDrops(c, r);
    SpokenIsAnOutcome(Trace(c, BoundActs(c, r), r));
  }

  // ---- at the deadline something is due ----------------------------------------------------

  /** A window whose start and end are one minute covers the whole day. */
  predicate AllDay(quiet: Option<QuietHours>) {
    quiet.Some? && quiet.value.startMinute % MINUTES_IN_DAY == quiet.value.endMinute % MINUTES_IN_DAY
  }

  /** Nothing of the origins asked for waits for `d` but announcements held in a window that has no end. */
  ghost predicate OnlyHeldForEver(c: Core, r: Reading, only: Option<Origin>, d: nat) {
    && AllDay(c.quiet) && QuietAt(c.quiet, r)
    && (forall k, x :: k in c.items && Included(only, c.items[k].about.origin) && x in OwnDeadlines(c, k, r) ==> d < x)
    && (forall q, x :: q in c.pending && Included(only, c.pending[q].record.origin) && x in WaitDeadlines(c.pending[q]) ==> d < x)
  }

  /** The origins a deadline is asked for have been read through. */
  ghost predicate IncludedReadThrough(c: Core, r: Reading, certified: map<Origin, nat>, only: Option<Origin>) {
    && (forall k :: k in c.items && Included(only, c.items[k].about.origin) ==>
          ReadThrough(c, r, certified, c.items[k].about.origin))
    && (forall q :: q in c.pending && Included(only, c.pending[q].record.origin) ==>
          ReadThrough(c, r, certified, c.pending[q].record.origin))
  }

  lemma {:induction false} WaitFallsDue(c: Core, r: Reading, later: Reading, certified: map<Origin, nat>, q: QuestionId, d: nat)
    requires q in c.pending && WaitConsistent(c.pending[q], r) && r.ms <= later.ms && d <= later.ms
    requires ReadThrough(c, later, certified, c.pending[q].record.origin) && d in WaitDeadlines(c.pending[q])
    ensures ReminderDue(c, later, certified, q)
  {
    DueExact(c.pending[q].waited, later, IDLE_REMINDER_MS);
  }

  lemma {:induction false} StepFallsDue(c: Core, r: Reading, later: Reading, certified: map<Origin, nat>, k: Key)
    requires k in c.items && ItemTimed(c.items[k], r) && r.ms <= later.ms
    requires ReadThrough(c, later, certified, c.items[k].about.origin)
    requires var next := NextStepAfter(Policy(k.rule), c.items[k].steps);
             next.Some? && c.items[k].age.DueAt(next.value) <= later.ms
    ensures ClimbOf(c, k, later, certified).Some?
  {
    var item := c.items[k];
    DueExact(item.age, later, Policy(k.rule).steps[item.steps].after);
  }

  lemma {:induction false} DecisionFallsDue(c: Core, r: Reading, later: Reading, certified: map<Origin, nat>, k: Key, after: nat)
    requires k in c.items && ItemTimed(c.items[k], r) && r.ms <= later.ms
    requires ReadThrough(c, later, certified, c.items[k].about.origin) && !c.items[k].ann.deferred
    requires c.items[k].ann.since.Some? && c.items[k].ann.since.value.DueAt(after) <= later.ms
    requires (after == Policy(k.rule).dedupMs && c.items[k].ann.level != Some(c.items[k].level))
             || Policy(k.rule).repeatMs == Some(after)
    ensures DueNow(c, k, later, certified).Some?
  {
    DueExact(c.items[k].ann.since.value, later, after);
  }

  /** What is held goes out when its release comes, unless the window has no end. */
  lemma {:induction false} ReleaseFallsDue(c: Core, r: Reading, later: Reading, certified: map<Origin, nat>, k: Key)
    requires k in c.items && c.items[k].ann.deferred && InStep(r, later)
    requires ReadThrough(c, later, certified, c.items[k].about.origin)
    requires later.ms == ReleaseAt(c, r) && !(AllDay(c.quiet) && QuietAt(c.quiet, r))
    ensures DueNow(c, k, later, certified).Some?
  {
    if QuietAt(c.quiet, r) { QuietEndsAtRelease(c.quiet, r, later); }
  }

  /** The earliest moment an item waits for, when it comes. */
  lemma {:induction false} ItemFallsDue(c: Core, r: Reading, later: Reading, certified: map<Origin, nat>, k: Key, d: nat)
    requires k in c.items && ItemTimed(c.items[k], r) && InStep(r, later) && later.ms == Max(d, r.ms)
    requires ReadThrough(c, later, certified, c.items[k].about.origin)
    requires d in ItemDeadlines(c, k, r) && forall x :: x in ItemDeadlines(c, k, r) ==> d <= x
    requires AllDay(c.quiet) && QuietAt(c.quiet, r) ==> d in OwnDeadlines(c, k, r)
    ensures ClimbOf(c, k, later, certified).Some? || DueNow(c, k, later, certified).Some?
  {
    var item, policy := c.items[k], Policy(k.rule);
    var next := NextStepAfter(policy, item.steps);
    assert item.ann.deferred ==> ReleaseAt(c, r) in ItemDeadlines(c, k, r);
    StillQuietUntilRelease(c.quiet, r);
    if next.Some? && d == item.age.DueAt(next.value) {
      StepFallsDue(c, r, later, certified, k);
    } else if item.ann.deferred {
      ReleaseFallsDue(c, r, later, certified, k);
    } else if item.ann.since.Some? {
      OwnDecision(c, k, r, d);
      DecisionFallsDue(c, r, later, certified, k,
                       if policy.repeatMs.Some? && d == item.ann.since.value.DueAt(policy.repeatMs.value)
                       then policy.repeatMs.value else policy.dedupMs);
    }
  }

  lemma {:induction false} OwnDecision(c: Core, k: Key, r: Reading, d: nat)
    requires k in c.items && !c.items[k].ann.deferred && c.items[k].ann.since.Some? && d in OwnDeadlines(c, k, r)
    requires var next := NextStepAfter(Policy(k.rule), c.items[k].steps); next.None? || d != c.items[k].age.DueAt(next.value)
    ensures var since, policy := c.items[k].ann.since.value, Policy(k.rule);
            || (policy.repeatMs.Some? && d == since.DueAt(policy.repeatMs.value))
            || (d == since.DueAt(policy.dedupMs) && c.items[k].ann.level != Some(c.items[k].level))
  {
  }

  /** At the deadline of the origins asked for, once they have been read through, something is due, unless
      nothing waits for it but what a window without an end holds. */
  lemma {:induction false} DeadlineFallsDue(
    c: Core, r: Reading, only: Option<Origin>, d: nat, later: Reading, certified: map<Origin, nat>)
    requires Consistent(c, r) && InStep(r, later) && later.ms == Max(d, r.ms)
    requires Earliest(Deadlines(c, r, only), Some(d)) && IncludedReadThrough(c, later, certified, only)
    requires !OnlyHeldForEver(c, r, only, d)
    ensures SomethingDue(c, later, certified, only)
  {
    if q :| q in c.pending && Included(only, c.pending[q].record.origin) && d in WaitDeadlines(c.pending[q]) {
      WaitFallsDue(c, r, later, certified, q, d);
    } else {
      var k := WaitingItem(c, r, only, d);
      EarliestOfItem(c, r, only, d, k);
      assert ItemTimed(c.items[k], r);
      ItemFallsDue(c, r, later, certified, k, d);
    }
  }

  lemma {:induction false} EarliestOfItem(c: Core, r: Reading, only: Option<Origin>, d: nat, k: Key)
    requires k in c.items && Included(only, c.items[k].about.origin) && Earliest(Deadlines(c, r, only), Some(d))
    ensures forall x :: x in ItemDeadlines(c, k, r) ==> d <= x
  {
    forall x | x in ItemDeadlines(c, k, r) ensures d <= x { assert x in InboxDeadlines(c, r, only); }
  }

  /** An item that waits for the deadline, by a timer of its own where the window has no end. */
  lemma {:induction false} WaitingItem(c: Core, r: Reading, only: Option<Origin>, d: nat) returns (k: Key)
    requires Earliest(Deadlines(c, r, only), Some(d)) && !OnlyHeldForEver(c, r, only, d)
    requires forall q :: q in c.pending && Included(only, c.pending[q].record.origin) ==> d !in WaitDeadlines(c.pending[q])
    ensures k in c.items && Included(only, c.items[k].about.origin) && d in ItemDeadlines(c, k, r)
    ensures AllDay(c.quiet) && QuietAt(c.quiet, r) ==> d in OwnDeadlines(c, k, r)
  {
    if AllDay(c.quiet) && QuietAt(c.quiet, r) {
      WaitsAreLater(c, r, only, d);
      k := OwnWaiting(c, r, only, d);
    } else {
      k := ItemOf(c, r, only, d);
    }
  }

  lemma {:induction false} OwnWaiting(c: Core, r: Reading, only: Option<Origin>, d: nat) returns (k: Key)
    requires Earliest(Deadlines(c, r, only), Some(d))
    requires exists k, x :: k in c.items && Included(only, c.items[k].about.origin) && x in OwnDeadlines(c, k, r) && x <= d
    ensures k in c.items && Included(only, c.items[k].about.origin) && d in OwnDeadlines(c, k, r) && d in ItemDeadlines(c, k, r)
  {
    var x;
    k, x :| k in c.items && Included(only, c.items[k].about.origin) && x in OwnDeadlines(c, k, r) && x <= d;
    OwnIsEarliest(c, r, only, d, k, x);
  }

  lemma {:induction false} OwnIsEarliest(c: Core, r: Reading, only: Option<Origin>, d: nat, k: Key, x: nat)
    requires Earliest(Deadlines(c, r, only), Some(d)) && k in c.items && Included(only, c.items[k].about.origin)
    requires x in OwnDeadlines(c, k, r) && x <= d
    ensures x == d && d in ItemDeadlines(c, k, r)
  {
    assert x in ItemDeadlines(c, k, r);
    assert x in InboxDeadlines(c, r, only);
  }

  lemma {:induction false} WaitsAreLater(c: Core, r: Reading, only: Option<Origin>, d: nat)
    requires Earliest(Deadlines(c, r, only), Some(d))
    requires forall q :: q in c.pending && Included(only, c.pending[q].record.origin) ==> d !in WaitDeadlines(c.pending[q])
    ensures forall q, x :: q in c.pending && Included(only, c.pending[q].record.origin) && x in WaitDeadlines(c.pending[q]) ==> d < x
  {
    forall q, x | q in c.pending && Included(only, c.pending[q].record.origin) && x in WaitDeadlines(c.pending[q])
      ensures d < x
    {
      assert x in ReminderDeadlines(c, only);
    }
  }

  lemma {:induction false} ItemOf(c: Core, r: Reading, only: Option<Origin>, d: nat) returns (k: Key)
    requires d in Deadlines(c, r, only)
    requires forall q :: q in c.pending && Included(only, c.pending[q].record.origin) ==> d !in WaitDeadlines(c.pending[q])
    ensures k in c.items && Included(only, c.items[k].about.origin) && d in ItemDeadlines(c, k, r)
  {
    assert d !in ReminderDeadlines(c, only);
    k :| k in c.items && Included(only, c.items[k].about.origin) && d in ItemDeadlines(c, k, r);
  }

  /** A window of the whole day stands at every reading of a clock that is proven. */
  lemma {:induction false} NothingFallsDueForEver(c: Core, r: Reading, d: nat, later: Reading, certified: map<Origin, nat>)
    requires Consistent(c, r) && InStep(r, later) && later.ms == Max(d, r.ms)
    requires Earliest(Deadlines(c, r, None), Some(d)) && OnlyHeldForEver(c, r, None, d)
    ensures !SomethingDue(c, later, certified, None)
  {
    HeldDeadlineLiesAhead(c, r, d);
    forall q | q in c.pending ensures !ReminderDue(c, later, certified, q) {
      NoReminderBefore(c, r, later, certified, q);
    }
    forall k | k in c.items ensures ClimbOf(c, k, later, certified).None? && DueNow(c, k, later, certified).None? {
      NoClimbBefore(c, r, later, certified, k);
      NoDecisionBefore(c, r, later, certified, k);
    }
  }

  lemma {:induction false} HeldDeadlineLiesAhead(c: Core, r: Reading, d: nat)
    requires Earliest(Deadlines(c, r, None), Some(d)) && OnlyHeldForEver(c, r, None, d)
    ensures r.ms < d
  {
    StillQuietUntilRelease(c.quiet, r);
    var k := ItemOf(c, r, None, d);
  }
}
