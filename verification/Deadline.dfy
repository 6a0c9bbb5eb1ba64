/** The next deadline is exact for the tick: nothing falls due before it, and a tick that reads
    every origin up to the present leaves nothing due now. */
module Deadline {
  import opened Common
  import opened Time
  import opened Rules
  import opened Events
  import opened EngineModel
  import opened Runs
  import opened Guards

  predicate Included(only: Option<Origin>, origin: Origin) {
    only.None? || only.value == origin
  }

  /** When quiet hours let a held announcement go: at their end, or now. */
  function ReleaseAt(c: Core, r: Reading): nat {
    var release := QuietRelease(c.quiet, r);
    if release.Some? then release.value else r.ms
  }

  /** The moments one item waits for: its release, and its own timers. */
  function ItemDeadlines(c: Core, k: Key, r: Reading): set<nat>
    requires k in c.items
  {
    (if c.items[k].ann.deferred then {ReleaseAt(c, r)} else {}) + OwnDeadlines(c, k, r)
  }

  /** The timers of one item: its next step, its first decision, the end of its window when it has climbed
      past what was announced, and its repeat. */
  function OwnDeadlines(c: Core, k: Key, r: Reading): set<nat>
    requires k in c.items
  {
    var item, policy := c.items[k], Policy(k.rule);
    var next := NextStepAfter(policy, item.steps);
    (if next.Some? then {item.age.DueAt(next.value)} else {}) +
    (if item.ann.deferred && QuietAt(c.quiet, r) then {}
     else if item.ann.since.None? then {r.ms}
     else
       (if item.ann.level != Some(item.level) then {item.ann.since.value.DueAt(policy.dedupMs)} else {}) +
       (if policy.repeatMs.Some? then {item.ann.since.value.DueAt(policy.repeatMs.value)} else {}))
  }

  function WaitDeadlines(wait: Wait): set<nat> {
    if wait.reminded then {} else {wait.waited.DueAt(IDLE_REMINDER_MS)}
  }

  ghost function InboxDeadlines(c: Core, r: Reading, only: Option<Origin>): set<nat> {
    set k, d | k in c.items && Included(only, c.items[k].about.origin) && d in ItemDeadlines(c, k, r) :: d
  }

  ghost function ReminderDeadlines(c: Core, only: Option<Origin>): set<nat> {
    set q, d | q in c.pending && Included(only, c.pending[q].record.origin) && d in WaitDeadlines(c.pending[q]) :: d
  }

  /** Every moment anything of the included origins waits for. */
  ghost function Deadlines(c: Core, r: Reading, only: Option<Origin>): set<nat> {
    InboxDeadlines(c, r, only) + ReminderDeadlines(c, only)
  }

  /** The earliest of a set of moments. */
  ghost predicate Earliest(moments: set<nat>, at: Option<nat>) {
    if at.None? then moments == {} else at.value in moments && forall d :: d in moments ==> at.value <= d
  }

  // ---- nothing is due before the deadline --------------------------------------------------

  lemma {:induction false} NoReminderBefore(c: Core, r: Reading, later: Reading, certified: map<Origin, nat>, q: QuestionId)
    requires Consistent(c, r) && InStep(r, later) && q in c.pending
    requires forall d :: d in WaitDeadlines(c.pending[q]) ==> later.ms < d
    ensures !ReminderDue(c, later, certified, q)
  {
    var wait := c.pending[q];
    var at := CertifiedAt(c, later, certified, wait.record.origin);
    CertifiedBy(c, later, certified, wait.record.origin);
    if at.Some? && !wait.reminded {
      assert wait.waited.DueAt(IDLE_REMINDER_MS) in WaitDeadlines(wait);
      DueExact(wait.waited, later, IDLE_REMINDER_MS);
      ElapsedMonotone(wait.waited, at.value, later);
    }
  }

  lemma {:induction false} NoClimbBefore(c: Core, r: Reading, later: Reading, certified: map<Origin, nat>, k: Key)
    requires Consistent(c, r) && InStep(r, later) && k in c.items
    requires forall d :: d in OwnDeadlines(c, k, r) ==> later.ms < d
    ensures ClimbOf(c, k, later, certified).None?
  {
    var item, policy := c.items[k], Policy(k.rule);
    var at := CertifiedAt(c, later, certified, item.about.origin);
    CertifiedBy(c, later, certified, item.about.origin);
    var next := NextStepAfter(policy, item.steps);
    if at.Some? && next.Some? {
      assert item.age.DueAt(next.value) in OwnDeadlines(c, k, r);
      DueExact(item.age, later, next.value);
      ElapsedMonotone(item.age, at.value, later);
      assert policy.steps[item.steps].after > item.age.Ms(at.value);
    }
  }

  lemma {:induction false} UndecidedIsDue(c: Core, k: Key, r: Reading)
    requires k in c.items && !c.items[k].ann.deferred && c.items[k].ann.since.None?
    ensures r.ms in OwnDeadlines(c, k, r)
  {
  }

  lemma {:induction false} NoDecisionBefore(c: Core, r: Reading, later: Reading, certified: map<Origin, nat>, k: Key)
    requires Consistent(c, r) && InStep(r, later) && k in c.items
    requires forall d :: d in OwnDeadlines(c, k, r) ==> later.ms < d
    requires c.items[k].ann.deferred ==> QuietAt(c.quiet, later)
    ensures DueNow(c, k, later, certified).None?
  {
    var item, policy := c.items[k], Policy(k.rule);
    var at := CertifiedAt(c, later, certified, item.about.origin);
    CertifiedBy(c, later, certified, item.about.origin);
    if item.ann.deferred {
    } else if item.ann.since.None? {
      UndecidedIsDue(c, k, r);
    } else if at.Some? {
      var since := item.ann.since.value;
      ElapsedMonotone(since, at.value, later);
      DueExact(since, later, policy.dedupMs);
      assert item.ann.level != Some(item.level) ==> since.DueAt(policy.dedupMs) in OwnDeadlines(c, k, r);
      if policy.repeatMs.Some? {
        assert since.DueAt(policy.repeatMs.value) in OwnDeadlines(c, k, r);
        DueExact(since, later, policy.repeatMs.value);
      }
    }
  }

  /** Before the deadline of the included origins, nothing of theirs is due, whatever the host has
      certified: no reminder, no step of a ladder, no announcement, no release. */
  lemma {:induction false} NothingDueBefore(
    c: Core, r: Reading, only: Option<Origin>, deadline: Option<nat>, later: Reading, certified: map<Origin, nat>)
    requires Consistent(c, r) && InStep(r, later)
    requires Earliest(Deadlines(c, r, only), deadline) && (deadline.Some? ==> later.ms < deadline.value)
    ensures forall q :: q in c.pending && Included(only, c.pending[q].record.origin) ==> !ReminderDue(c, later, certified, q)
    ensures forall k :: k in c.items && Included(only, c.items[k].about.origin) ==>
                          ClimbOf(c, k, later, certified).None? && DueNow(c, k, later, certified).None?
  {
    forall q | q in c.pending && Included(only, c.pending[q].record.origin) ensures !ReminderDue(c, later, certified, q) {
      assert forall d :: d in WaitDeadlines(c.pending[q]) ==> d in Deadlines(c, r, only);
      NoReminderBefore(c, r, later, certified, q);
    }
    forall k | k in c.items && Included(only, c.items[k].about.origin)
      ensures ClimbOf(c, k, later, certified).None? && DueNow(c, k, later, certified).None?
    {
      assert forall d :: d in ItemDeadlines(c, k, r) ==> d in Deadlines(c, r, only);
      NoClimbBefore(c, r, later, certified, k);
      if c.items[k].ann.deferred { HeldBefore(c, k, r, later); }
      NoDecisionBefore(c, r, later, certified, k);
    }
  }

  /** Before its release, what is held is held by a window that still stands. */
  lemma {:induction false} HeldBefore(c: Core, k: Key, r: Reading, later: Reading)
    requires k in c.items && c.items[k].ann.deferred && InStep(r, later)
    requires forall d :: d in ItemDeadlines(c, k, r) ==> later.ms < d
    ensures QuietAt(c.quiet, later)
  {
    assert ReleaseAt(c, r) in ItemDeadlines(c, k, r);
    if QuietAt(c.quiet, r) { QuietUntilRelease(c.quiet, r, later); }
  }

  lemma {:induction false} NoReminders(c: Core, qs: seq<QuestionId>, r: Reading, certified: map<Origin, nat>)
    requires forall q :: q in c.pending ==> !ReminderDue(c, r, certified, q)
    ensures RemindActs(c, qs, r, certified) == []
    decreases |qs|
  {
    if qs != [] { NoReminders(c, qs[1..], r, certified); }
  }

  lemma {:induction false} NoClimbs(c: Core, keys: seq<Key>, r: Reading, certified: map<Origin, nat>)
    requires forall k :: k in keys ==> k in c.items && ClimbOf(c, k, r, certified).None?
    ensures ClimbActs(c, keys, r, certified) == []
    decreases |keys|
  {
    if keys != [] { NoClimbs(c, keys[1..], r, certified); }
  }

  lemma {:induction false} NoDecisions(c: Core, keys: seq<Key>, r: Reading, certified: map<Origin, nat>)
    requires forall k :: k in keys ==> k in c.items && DueNow(c, k, r, certified).None?
    ensures DueActs(c, keys, r, certified) == []
    decreases |keys|
  {
    if keys != [] { NoDecisions(c, keys[1..], r, certified); }
  }

  lemma {:induction false} BoundOnlyDrops(c: Core, r: Reading)
    ensures forall out :: out in Outcomes(Trace(c, BoundActs(c, r), r)) ==> out.Dropped?
    decreases |c.items|
  {
    var victim := Victim(c, r);
    if victim.Some? {
      FewerItems(c, victim.value, r);
      var dropped := Apply(c, Leave(victim.value, Drop), r);
      BoundOnlyDrops(dropped, r);
      var rest := Trace(dropped, BoundActs(dropped, r), r);
      assert BoundActs(c, r)[1..] == BoundActs(dropped, r);
      assert Trace(c, BoundActs(c, r), r) == [Said(Dropped(victim.value), r)] + rest;
      OutcomesConcat([Said(Dropped(victim.value), r)], rest);
      assert Outcomes([Said(Dropped(victim.value), r)]) == [Dropped(victim.value)];
    }
  }

  /** A tick before the deadline says nothing but what the bound let go of. */
  lemma {:induction false} TickIsQuietBeforeDeadline(
    c: Core, r: Reading, deadline: Option<nat>, later: Reading, certified: map<Origin, nat>)
    requires Consistent(c, r) && InStep(r, later)
    requires Earliest(Deadlines(c, r, None), deadline) && (deadline.Some? ==> later.ms < deadline.value)
    ensures TickActs(c, later, certified) == BoundActs(c, later)
    ensures forall out :: out in Outcomes(Trace(c, TickActs(c, later, certified), later)) ==> out.Dropped?
  {
    TickOnlyBounds(c, r, deadline, later, certified);
    BoundOnlyDrops(c, later);
  }

  lemma {:induction false} TickOnlyBounds(
    c: Core, r: Reading, deadline: Option<nat>, later: Reading, certified: map<Origin, nat>)
    requires Consistent(c, r) && InStep(r, later)
    requires Earliest(Deadlines(c, r, None), deadline) && (deadline.Some? ==> later.ms < deadline.value)
    ensures TickActs(c, later, certified) == BoundActs(c, later)
  {
    NothingDueBefore(c, r, None, deadline, later, certified);
    NoReminders(c, SortedQuestions(DueQuestions(c, later, certified)), later, certified);
    NoClimbs(c, SortedKeys(c.items.Keys), later, certified);
    NoDecisions(c, SortedKeys(c.items.Keys), later, certified);
    IdlePasses(c, later, certified);
  }

  /** A tick whose other passes do nothing is the bound alone. */
  lemma {:induction false} IdlePasses(c: Core, r: Reading, certified: map<Origin, nat>)
    requires RemindActs(c, SortedQuestions(DueQuestions(c, r, certified)), r, certified) == []
    requires ClimbActs(c, SortedKeys(c.items.Keys), r, certified) == []
    requires DueActs(c, SortedKeys(c.items.Keys), r, certified) == []
    ensures TickActs(c, r, certified) == BoundActs(c, r)
  {
  }

  // ---- a certified tick leaves nothing due now ---------------------------------------------

  /** The host has read everything `origin` committed up to the reading itself. */
  ghost predicate ReadThrough(c: Core, r: Reading, certified: map<Origin, nat>, origin: Origin) {
    CertifiedAt(c, r, certified, origin) == Some(r)
  }

  /** Every origin that has anything waiting has been read through. */
  ghost predicate AllReadThrough(c: Core, r: Reading, certified: map<Origin, nat>) {
    && (forall k :: k in c.items ==> ReadThrough(c, r, certified, c.items[k].about.origin))
    && (forall q :: q in c.pending ==> ReadThrough(c, r, certified, c.pending[q].record.origin))
  }

  lemma {:induction false} BoundOnlyRemoves(c: Core, r: Reading)
    ensures var d := Exec(c, BoundActs(c, r), r);
            && d == c.(items := d.items, dropped := d.dropped)
            && forall k :: k in d.items ==> k in c.items && d.items[k] == c.items[k]
    decreases |c.items|
  {
    var victim := Victim(c, r);
    if victim.Some? {
      FewerItems(c, victim.value, r);
      var dropped := Apply(c, Leave(victim.value, Drop), r);
      DropOnlyRemoves(c, victim.value, r);
      BoundOnlyRemoves(dropped, r);
      OneExec(c, Leave(victim.value, Drop), BoundActs(dropped, r), r);
    }
  }

  lemma {:induction false} DropOnlyRemoves(c: Core, k: Key, r: Reading)
    ensures var d := Apply(c, Leave(k, Drop), r);
            && d == c.(items := d.items, dropped := d.dropped)
            && forall x :: x in d.items ==> x in c.items && d.items[x] == c.items[x]
  {
  }

  /** Raising touches neither the waits nor what is finalised, and adds nothing of another origin. */
  ghost predicate RaisedOnly(c: Core, d: Core, origin: Origin) {
    && d.pending == c.pending && d.finalised == c.finalised && d.quiet == c.quiet
    && forall k :: k in d.items ==>
         d.items[k].about.origin == origin || (k in c.items && d.items[k].about.origin == c.items[k].about.origin)
  }

  /** An act of raising, about a record of this origin where it brings one. */
  predicate OfOrigin(act: Act, origin: Origin) {
    match act
    case Enter(raise) => raise.about.origin == origin
    case Change(_, edit) => edit.Repeat? ==> edit.raise.about.origin == origin
    case _ => false
  }

  lemma {:induction false} ActAddsOnly(c: Core, act: Act, r: Reading, origin: Origin)
    requires OfOrigin(act, origin)
    ensures RaisedOnly(c, Apply(c, act, r), origin)
  {
  }

  lemma {:induction false} RaisedOnlyJoins(c: Core, d: Core, e: Core, origin: Origin)
    requires RaisedOnly(c, d, origin) && RaisedOnly(d, e, origin)
    ensures RaisedOnly(c, e, origin)
  {
  }

  lemma {:induction false} RaiseAddsOnly(c: Core, raise: Raise, r: Reading)
    ensures RaisedOnly(c, Exec(c, RaiseActs(c, raise, r, Live), r), raise.about.origin)
  {
    var acts, k := RaiseActs(c, raise, r, Live), raise.key;
    if k in c.items {
      var first := Change(k, Repeat(raise));
      assert acts == [first] + [acts[1]];
      SurroundedAddsOnly(c, first, [], acts[1], r, raise.about.origin);
      assert [] + [acts[1]] == [acts[1]];
    } else {
      var bound := BoundActs(Apply(c, Enter(raise), r), r);
      BoundOnlyRemoves(Apply(c, Enter(raise), r), r);
      SurroundedAddsOnly(c, Enter(raise), bound, Change(k, Announce(false)), r, raise.about.origin);
      assert acts == [Enter(raise)] + (bound + [Change(k, Announce(false))]);
    }
  }

  /** An act, some that add nothing at all, and one more act. */
  lemma {:induction false} SurroundedAddsOnly(c: Core, first: Act, bound: seq<Act>, last: Act, r: Reading, origin: Origin)
    requires OfOrigin(first, origin) && OfOrigin(last, origin)
    requires RaisedOnly(Apply(c, first, r), Exec(Apply(c, first, r), bound, r), origin)
    ensures RaisedOnly(c, Exec(c, [first] + (bound + [last]), r), origin)
  {
    var c1 := Apply(c, first, r);
    var c2 := Exec(c1, bound, r);
    ActAddsOnly(c, first, r, origin);
    ActAddsOnly(c2, last, r, origin);
    RaisedOnlyJoins(c, c1, c2, origin);
    RaisedOnlyJoins(c, c2, Apply(c2, last, r), origin);
    OneExec(c, first, bound + [last], r);
    ExecConcat(c1, map[], bound, [last], r);
    OneExec(c2, last, [], r);
    assert [last] + [] == [last];
  }

  lemma {:induction false} RemindersLeaveNoneDue(c: Core, qs: seq<QuestionId>, r: Reading, certified: map<Origin, nat>)
    requires AllReadThrough(c, r, certified)
    requires forall q :: q in c.pending && ReminderDue(c, r, certified, q) ==> q in qs
    ensures var d := Exec(c, RemindActs(c, qs, r, certified), r);
            AllReadThrough(d, r, certified) && forall q :: q in d.pending ==> !ReminderDue(d, r, certified, q)
    decreases |qs|
  {
    if qs != [] {
      var q := qs[0];
      if q !in c.pending || !ReminderDue(c, r, certified, q) {
        RemindersLeaveNoneDue(c, qs[1..], r, certified);
      } else {
        var wait := c.pending[q];
        var remind := Remind(q, CertifiedAt(c, r, certified, wait.record.origin).value);
        var c1 := Apply(c, remind, r);
        var raise := ReminderOf(c.digest, q, wait.session, wait.record, r);
        RaiseAddsOnly(c1, raise, r);
        OneExec(c, remind, RaiseActs(c1, raise, r, Live), r);
        var acts := [remind] + RaiseActs(c1, raise, r, Live);
        var c2 := Exec(c, acts, r);
        StillReadThrough(c, c1, c2, r, certified, q);
        RemindersLeaveNoneDue(c2, qs[1..], r, certified);
        ExecConcat(c, map[], acts, RemindActs(c2, qs[1..], r, certified), r);
      }
    }
  }

  lemma {:induction false} StillReadThrough(c: Core, c1: Core, c2: Core, r: Reading, certified: map<Origin, nat>, q: QuestionId)
    requires AllReadThrough(c, r, certified) && q in c.pending
    requires c1 == c.(pending := c.pending[q := c.pending[q].(reminded := true)])
    requires RaisedOnly(c1, c2, c.pending[q].record.origin)
    ensures AllReadThrough(c2, r, certified)
    ensures forall x :: x in c2.pending && ReminderDue(c2, r, certified, x) ==>
                          x != q && x in c.pending && ReminderDue(c, r, certified, x)
  {
    assert forall o: Origin :: CertifiedAt(c2, r, certified, o) == CertifiedAt(c, r, certified, o);
  }

  /** An item just visited by a tick that read its origin through waits only for later moments. */
  lemma {:induction false} VisitedWaitsForLater(p: TickStates, r: Reading, certified: map<Origin, nat>, k: Key)
    requires k in p.reminded.items && k in p.climbed.items && k in p.decided.items
    requires ReadThrough(p.reminded, r, certified, p.reminded.items[k].about.origin)
    requires p.climbed.finalised == p.reminded.finalised && p.decided.quiet == p.climbed.quiet
    requires ItemTimed(p.reminded.items[k], r) && ItemTimed(p.decided.items[k], r)
    requires p.climbed.items[k] == Climbed(p.reminded, k, r, certified)
    requires Visited(p.climbed, p.decided.items[k], k, r, certified)
    ensures forall d :: d in ItemDeadlines(p.decided, k, r) ==> r.ms < d
  {
    var item, policy := p.decided.items[k], Policy(k.rule);
    assert CertifiedAt(p.climbed, r, certified, item.about.origin) == Some(r);
    var next := NextStepAfter(policy, item.steps);
    if next.Some? {
      DueExact(item.age, r, next.value);
      assert policy.steps[item.steps].after > item.age.Ms(r);
    }
    StillQuietUntilRelease(p.decided.quiet, r);
    if item.ann.since.Some? {
      DueExact(item.ann.since.value, r, policy.dedupMs);
      if policy.repeatMs.Some? { DueExact(item.ann.since.value, r, policy.repeatMs.value); }
    }
  }

  lemma {:induction false} StillQuietUntilRelease(quiet: Option<QuietHours>, r: Reading)
    ensures QuietAt(quiet, r) ==> QuietRelease(quiet, r).value > r.ms
  {
    if QuietAt(quiet, r) { QuietUntilRelease(quiet, r, r); }
  }

  lemma {:induction false} WaitsForLater(c: Core, r: Reading, certified: map<Origin, nat>, q: QuestionId)
    requires q in c.pending && WaitConsistent(c.pending[q], r)
    requires ReadThrough(c, r, certified, c.pending[q].record.origin) && !ReminderDue(c, r, certified, q)
    ensures forall d :: d in WaitDeadlines(c.pending[q]) ==> r.ms < d
  {
    DueExact(c.pending[q].waited, r, IDLE_REMINDER_MS);
  }

  lemma {:induction false} ItemWaitsForLater(p: TickStates, r: Reading, certified: map<Origin, nat>, k: Key)
    requires PassesDone(p, r, certified) && AllReadThrough(p.reminded, r, certified) && k in p.decided.items
    ensures forall d :: d in ItemDeadlines(p.decided, k, r) ==> r.ms < d
  {
    assert k in p.climbed.items && k in p.reminded.items;
    VisitedWaitsForLater(p, r, certified, k);
  }

  lemma {:induction false} ItemsWaitForLater(p: TickStates, d: Core, r: Reading, certified: map<Origin, nat>)
    requires PassesDone(p, r, certified) && AllReadThrough(p.reminded, r, certified)
    requires d == Exec(p.decided, BoundActs(p.decided, r), r)
    ensures d.pending == p.reminded.pending
    ensures forall x :: x in InboxDeadlines(d, r, None) ==> r.ms < x
  {
    BoundOnlyRemoves(p.decided, r);
    forall k | k in d.items ensures forall x :: x in ItemDeadlines(d, k, r) ==> r.ms < x {
      ItemWaitsForLater(p, r, certified, k);
      SameDeadlines(p.decided, d, k, r);
    }
  }

  lemma {:induction false} SameDeadlines(c: Core, d: Core, k: Key, r: Reading)
    requires k in c.items && k in d.items && c.items[k] == d.items[k] && c.quiet == d.quiet
    ensures ItemDeadlines(c, k, r) == ItemDeadlines(d, k, r)
  {
  }

  lemma {:induction false} RemindersWaitForLater(c: Core, d: Core, r: Reading, certified: map<Origin, nat>)
    requires Consistent(c, r) && AllReadThrough(c, r, certified) && d.pending == c.pending
    requires forall q :: q in c.pending ==> !ReminderDue(c, r, certified, q)
    ensures forall x :: x in ReminderDeadlines(d, None) ==> r.ms < x
  {
    forall q | q in d.pending ensures forall x :: x in WaitDeadlines(d.pending[q]) ==> r.ms < x {
      WaitsForLater(c, r, certified, q);
    }
  }

  /** After a tick that has read every origin through, the next deadline lies strictly ahead: no timer
      was missed, and a host that sleeps until its deadline never spins. */
  lemma {:induction false} DeadlineLiesAhead(c: Core, r: Reading, certified: map<Origin, nat>, deadline: Option<nat>)
    requires Consistent(c, r) && AllReadThrough(c, r, certified)
    requires Earliest(Deadlines(Exec(c, TickActs(c, r, certified), r), r, None), deadline)
    ensures deadline.Some? ==> r.ms < deadline.value
  {
    TickEnabled(c, r, certified);
    var p := Passes(c, r, certified);
    var d := Exec(c, TickActs(c, r, certified), r);
    RemindersLeaveNoneDue(c, SortedQuestions(DueQuestions(c, r, certified)), r, certified);
    ItemsWaitForLater(p, d, r, certified);
    RemindersWaitForLater(p.reminded, d, r, certified);
  }
}
