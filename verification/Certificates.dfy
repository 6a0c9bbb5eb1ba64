/** A tick decides nothing about an origin the host has not certified, and whatever it says of a reminder
    follows the request it reminds of. */
module Certificates {
  import opened Common
  import opened Time
  import opened Rules
  import opened Events
  import opened EngineModel
  import opened Runs
  import opened Calls

  // ---- timers wait for certificates --------------------------------------------------------

  /** Nothing but a drop is done to an item, and nothing is brought in under its key. */
  predicate OnlyDrops(acts: seq<Act>, k: Key) {
    forall act :: act in acts ==> (OnInbox(act) || act.Remind?) && (Touches(act, k) ==> act == Leave(k, Drop))
  }

  lemma {:induction false} DroppedOrSame(c: Core, acts: seq<Act>, r: Reading, k: Key)
    requires OnlyDrops(acts, k)
    ensures var d := Exec(c, acts, r);
            && d.finalised == c.finalised
            && (k in d.items ==> k in c.items && d.items[k] == c.items[k])
    decreases |acts|
  {
    if acts != [] {
      var act := acts[0];
      assert act in acts;
      DroppedOrSame(Apply(c, act, r), acts[1..], r, k);
    }
  }

  lemma {:induction false} OnlyDropsAreSaid(c: Core, acts: seq<Act>, r: Reading, k: Key)
    requires OnlyDrops(acts, k)
    ensures forall e :: e in Trace(c, acts, r) && Concerns(e, k) ==> e == Said(Dropped(k), r)
    decreases |acts|
  {
    if acts != [] {
      var act := acts[0];
      assert act in acts;
      OnlyDropsAreSaid(Apply(c, act, r), acts[1..], r, k);
      if !Touches(act, k) { Untouched(c, act, r, k); }
    }
  }

  /** No question due its reminder now is the one an item under this key would be the reminder of. */
  ghost predicate Unreminded(c: Core, r: Reading, certified: map<Origin, nat>, k: Key) {
    forall q :: q in DueQuestions(c, r, certified) ==> KeyFor(c.digest, InputIdleReminder, QuestionOf(q)) != k
  }

  lemma {:induction false} RemindOneOnlyDrops(c: Core, q: QuestionId, r: Reading, certified: map<Origin, nat>, k: Key)
    requires q in c.pending && ReminderDue(c, r, certified, q) && Unreminded(c, r, certified, k)
    ensures OnlyDrops(RemindOneActs(c, q, r, certified), k)
  {
    var acts := RemindOneActs(c, q, r, certified);
    var raise := ReminderOf(c.digest, q, c.pending[q].session, c.pending[q].record, r);
    assert q in DueQuestions(c, r, certified) && raise.key != k;
    assert acts == [acts[0]] + RaiseActs(Apply(c, acts[0], r), raise, r, Live);
  }

  lemma {:induction false} StillUnreminded(c: Core, q: QuestionId, r: Reading, certified: map<Origin, nat>, k: Key)
    requires q in c.pending && ReminderDue(c, r, certified, q) && Unreminded(c, r, certified, k)
    ensures Unreminded(Exec(c, RemindOneActs(c, q, r, certified), r), r, certified, k)
  {
    RemindingOneMarks(c, q, r, certified);
    var d := Exec(c, RemindOneActs(c, q, r, certified), r);
    assert forall x :: x in DueQuestions(d, r, certified) ==> x in DueQuestions(c, r, certified);
  }

  lemma {:induction false} RemindersOnlyDrop(c: Core, qs: seq<QuestionId>, r: Reading, certified: map<Origin, nat>, k: Key)
    requires Unreminded(c, r, certified, k)
    ensures OnlyDrops(RemindActs(c, qs, r, certified), k)
    decreases |qs|
  {
    if qs != [] {
      RemindActsFirst(c, qs, r, certified);
      if qs[0] in c.pending && ReminderDue(c, r, certified, qs[0]) {
        RemindOneOnlyDrops(c, qs[0], r, certified, k);
        StillUnreminded(c, qs[0], r, certified, k);
        RemindersOnlyDrop(Exec(c, RemindOneActs(c, qs[0], r, certified), r), qs[1..], r, certified, k);
      } else {
        RemindersOnlyDrop(c, qs[1..], r, certified, k);
      }
    }
  }

  lemma {:induction false} UncertifiedIsLeft(c: Core, keys: seq<Key>, r: Reading, certified: map<Origin, nat>, k: Key)
    requires forall x :: x in keys ==> x in c.items
    requires k in c.items ==> CertifiedAt(c, r, certified, c.items[k].about.origin).None?
    ensures OnlyDrops(ClimbActs(c, keys, r, certified), k) && OnlyDrops(DueActs(c, keys, r, certified), k)
    decreases |keys|
  {
    if keys != [] {
      assert keys[0] in keys;
      UncertifiedIsLeft(c, keys[1..], r, certified, k);
    }
  }

  lemma {:induction false} TickOnlyDrops(c: Core, r: Reading, certified: map<Origin, nat>, k: Key)
    requires k in c.items && Unreminded(c, r, certified, k)
    requires CertifiedAt(c, r, certified, c.items[k].about.origin).None?
    ensures OnlyDrops(TickActs(c, r, certified), k)
  {
    var qs := SortedQuestions(DueQuestions(c, r, certified));
    var reminders := RemindActs(c, qs, r, certified);
    var c1 := Exec(c, reminders, r);
    RemindersOnlyDrop(c, qs, r, certified, k);
    DroppedOrSame(c, reminders, r, k);
    RestOnlyDrops(c1, r, certified, k);
    TickSplits(c, r, certified);
  }

  lemma {:induction false} RestOnlyDrops(c1: Core, r: Reading, certified: map<Origin, nat>, k: Key)
    requires k in c1.items ==> CertifiedAt(c1, r, certified, c1.items[k].about.origin).None?
    ensures OnlyDrops(TickRest(c1, r, certified), k)
  {
    UncertifiedIsLeft(c1, SortedKeys(c1.items.Keys), r, certified, k);
    var climbs := ClimbActs(c1, SortedKeys(c1.items.Keys), r, certified);
    var c2 := Exec(c1, climbs, r);
    DroppedOrSame(c1, climbs, r, k);
    UncertifiedIsLeft(c2, SortedKeys(c2.items.Keys), r, certified, k);
  }

  /** A tick neither escalates nor announces nor releases an item of an origin that is open and that the
      host has not certified: it says nothing about it but that the bound let it go, and otherwise
      leaves it as it is. The one thing it may do to such an item is remind of its question again. */
  lemma {:induction false} TimersWaitForCertificates(c: Core, r: Reading, certified: map<Origin, nat>, k: Key)
    requires k in c.items && Unreminded(c, r, certified, k)
    requires !IsFinalised(c, c.items[k].about.origin) && c.items[k].about.origin !in certified
    ensures var d := Exec(c, TickActs(c, r, certified), r);
            k in d.items ==> d.items[k] == c.items[k]
    ensures forall e :: e in Trace(c, TickActs(c, r, certified), r) && Concerns(e, k) ==> e == Said(Dropped(k), r)
  {
    TickOnlyDrops(c, r, certified, k);
    DroppedOrSame(c, TickActs(c, r, certified), r, k);
    OnlyDropsAreSaid(c, TickActs(c, r, certified), r, k);
  }

  // ---- reminders in the inbox --------------------------------------------------------------

  /** A reminder was raised or raised again. */
  predicate RaisesReminder(e: Entry) {
    e.Said? && (e.out.Raised? || e.out.Repeated?) && e.out.key.rule.InputIdleReminder?
  }

  /** Every reminder in the inbox was put there by reminding of its own question, just before. */
  ghost predicate Introduced(digest: Subject -> nat, log: seq<Entry>) {
    forall i :: 0 <= i < |log| && RaisesReminder(log[i]) ==>
      && i > 0 && log[i - 1].Reminded?
      && log[i].out.key == KeyFor(digest, InputIdleReminder, QuestionOf(log[i - 1].question))
  }

  lemma {:induction false} IntroducedTogether(digest: Subject -> nat, a: seq<Entry>, b: seq<Entry>)
    requires Introduced(digest, a) && Introduced(digest, b)
    ensures Introduced(digest, a + b)
  {
    forall i | 0 <= i < |a + b| && RaisesReminder((a + b)[i])
      ensures i > 0 && (a + b)[i - 1].Reminded?
      ensures (a + b)[i].out.key == KeyFor(digest, InputIdleReminder, QuestionOf((a + b)[i - 1].question))
    {
      if i >= |a| {
        assert RaisesReminder(b[i - |a|]);
      } else {
        assert RaisesReminder(a[i]);
      }
    }
  }

  /** An act that brings no reminder into the inbox. */
  predicate BringsNoReminder(act: Act) {
    && (act.Enter? ==> !act.raise.key.rule.InputIdleReminder?)
    && (act.Change? && act.edit.Repeat? ==> !act.key.rule.InputIdleReminder?)
  }

  lemma {:induction false} NoReminderIsRaised(c: Core, acts: seq<Act>, r: Reading)
    requires forall act :: act in acts ==> BringsNoReminder(act)
    ensures forall e :: e in Trace(c, acts, r) ==> !RaisesReminder(e)
    decreases |acts|
  {
    if acts != [] {
      assert BringsNoReminder(acts[0]);
      NoReminderIsRaised(Apply(c, acts[0], r), acts[1..], r);
    }
  }

  /** Raising brings in what it raises, first, and no reminder besides. */
  lemma {:induction false} RaisingOtherwise(c: Core, raise: Raise, r: Reading, mode: Mode)
    ensures var acts := RaiseActs(c, raise, r, mode);
            && acts != [] && acts[0] == (if raise.key in c.items then Change(raise.key, Repeat(raise)) else Enter(raise))
            && forall act :: act in acts[1..] ==> BringsNoReminder(act)
  {
    var acts := RaiseActs(c, raise, r, mode);
    if raise.key in c.items {
      assert acts[1..] == [] || acts[1..] == [acts[1]];
    } else {
      var bound := BoundActs(Apply(c, Enter(raise), r), r);
      var last := if mode.Live? then [Change(raise.key, Announce(false))] else [];
      assert acts == [Enter(raise)] + (bound + last);
      assert acts[1..] == bound + last;
    }
  }

  lemma {:induction false} RaisingAnother(c: Core, raise: Raise, r: Reading, mode: Mode)
    requires !raise.key.rule.InputIdleReminder?
    ensures forall act :: act in RaiseActs(c, raise, r, mode) ==> BringsNoReminder(act)
  {
    var acts := RaiseActs(c, raise, r, mode);
    RaisingOtherwise(c, raise, r, mode);
    assert BringsNoReminder(acts[0]);
    FirstAndRest(acts);
  }

  lemma {:induction false} FirstAndRest(acts: seq<Act>)
    requires acts != [] && BringsNoReminder(acts[0]) && forall act :: act in acts[1..] ==> BringsNoReminder(act)
    ensures forall act :: act in acts ==> BringsNoReminder(act)
  {
    assert acts == [acts[0]] + acts[1..];
  }

  lemma {:induction false} RemindOneIntroduces(c: Core, q: QuestionId, r: Reading, certified: map<Origin, nat>)
    requires q in c.pending && ReminderDue(c, r, certified, q)
    ensures Introduced(c.digest, Trace(c, RemindOneActs(c, q, r, certified), r))
  {
    var remind := Remind(q, CertifiedAt(c, r, certified, c.pending[q].record.origin).value);
    var raise := ReminderOf(c.digest, q, c.pending[q].session, c.pending[q].record, r);
    var c1 := Apply(c, remind, r);
    var second, rest := RaisingSays(c1, raise, r);
    TraceOne(c, remind, RaiseActs(c1, raise, r, Live), r);
    IntroducedFirst(c.digest, Note(c, remind, r), second, rest);
  }

  lemma {:induction false} TraceOne(c: Core, act: Act, rest: seq<Act>, r: Reading)
    ensures Trace(c, [act] + rest, r) == Note(c, act, r) + Trace(Apply(c, act, r), rest, r)
  {
    assert ([act] + rest)[1..] == rest;
  }

  /** Raising says so first, and nothing after it brings a reminder. */
  lemma {:induction false} RaisingSays(c: Core, raise: Raise, r: Reading) returns (first: seq<Entry>, rest: seq<Entry>)
    ensures Trace(c, RaiseActs(c, raise, r, Live), r) == first + rest && |first| == 1 && first[0].Said?
    ensures (first[0].out.Raised? || first[0].out.Repeated?) && first[0].out.key == raise.key
    ensures forall e :: e in rest ==> !RaisesReminder(e)
  {
    var acts := RaiseActs(c, raise, r, Live);
    RaisingOtherwise(c, raise, r, Live);
    var c1 := Apply(c, acts[0], r);
    NoReminderIsRaised(c1, acts[1..], r);
    first, rest := Note(c, acts[0], r), Trace(c1, acts[1..], r);
  }

  lemma {:induction false} IntroducedFirst(digest: Subject -> nat, first: seq<Entry>, second: seq<Entry>, rest: seq<Entry>)
    requires |first| == 1 && first[0].Reminded? && |second| == 1
    requires second[0].Said? && (second[0].out.Raised? || second[0].out.Repeated?)
    requires second[0].out.key == KeyFor(digest, InputIdleReminder, QuestionOf(first[0].question))
    requires forall e :: e in rest ==> !RaisesReminder(e)
    ensures Introduced(digest, first + (second + rest))
  {
    var log := first + (second + rest);
    assert forall i :: 2 <= i < |log| ==> log[i] == rest[i - 2];
  }

  lemma {:induction false} RemindersIntroduce(c: Core, qs: seq<QuestionId>, r: Reading, certified: map<Origin, nat>)
    ensures Introduced(c.digest, Trace(c, RemindActs(c, qs, r, certified), r))
    decreases |qs|
  {
    if qs != [] {
      RemindActsFirst(c, qs, r, certified);
      if qs[0] in c.pending && ReminderDue(c, r, certified, qs[0]) {
        var acts := RemindOneActs(c, qs[0], r, certified);
        var d := Exec(c, acts, r);
        RemindingOneMarks(c, qs[0], r, certified);
        RemindOneIntroduces(c, qs[0], r, certified);
        RemindersIntroduce(d, qs[1..], r, certified);
        ExecConcat(c, map[], acts, RemindActs(d, qs[1..], r, certified), r);
        IntroducedTogether(c.digest, Trace(c, acts, r), Trace(d, RemindActs(d, qs[1..], r, certified), r));
      } else {
        RemindersIntroduce(c, qs[1..], r, certified);
      }
    }
  }

  lemma {:induction false} TickIntroduces(c: Core, r: Reading, certified: map<Origin, nat>)
    ensures Introduced(c.digest, Trace(c, TickActs(c, r, certified), r))
  {
    var qs := SortedQuestions(DueQuestions(c, r, certified));
    var reminders := RemindActs(c, qs, r, certified);
    var c1 := Exec(c, reminders, r);
    RemindersIntroduce(c, qs, r, certified);
    TickSplits(c, r, certified);
    RestBringsNoReminder(c1, r, certified);
    NoReminderIsRaised(c1, TickRest(c1, r, certified), r);
    ExecConcat(c, map[], reminders, TickRest(c1, r, certified), r);
    IntroducedTogether(c.digest, Trace(c, reminders, r), Trace(c1, TickRest(c1, r, certified), r));
  }

  lemma {:induction false} RestBringsNoReminder(c1: Core, r: Reading, certified: map<Origin, nat>)
    ensures forall act :: act in TickRest(c1, r, certified) ==> BringsNoReminder(act)
  {
    var keys := SortedKeys(c1.items.Keys);
    ClimbsAndDueOnlyEdit(c1, keys, r, certified);
    var c2 := Exec(c1, ClimbActs(c1, keys, r, certified), r);
    ClimbsAndDueOnlyEdit(c2, SortedKeys(c2.items.Keys), r, certified);
  }

  lemma {:induction false} EventsRaiseNoReminder(digest: Subject -> nat, e: Event)
    ensures var plan := PlanOf(digest, e);
            plan.RaiseOne? || plan.AskOne? ==> !plan.raise.key.rule.InputIdleReminder?
  {
  }

  lemma {:induction false} PlanBringsNoReminder(c: Core, cursor: Cursor, plan: Plan, r: Reading, mode: Mode)
    requires plan.RaiseOne? || plan.AskOne? ==> !plan.raise.key.rule.InputIdleReminder?
    ensures forall act :: act in PlanActs(c, cursor, plan, r, mode) ==> BringsNoReminder(act)
  {
    if plan.RaiseOne? {
      RaisingAnother(Apply(c, Advance(cursor, None), r), plan.raise, r, mode);
    } else if plan.AskOne? {
      var asks := PendingBoundActs(c, plan.question, r) + [Advance(cursor, Some(AskedBy(cursor, plan, r)))];
      RaisingAnother(Exec(c, asks, r), plan.raise, r, mode);
    }
  }

  lemma {:induction false} ConsumingIntroduces(c: Core, e: Event, r: Reading, mode: Mode)
    ensures Introduced(c.digest, Trace(c, ConsumeActs(c, e, r, mode), r))
  {
    var acts := ConsumeActs(c, e, r, mode);
    if Takes(c, e.cursor) {
      var missed := MissedActs(c, e.cursor);
      var c1 := Exec(c, missed, r);
      EventsRaiseNoReminder(c1.digest, e);
      PlanBringsNoReminder(c1, e.cursor, PlanOf(c1.digest, e), r, mode);
      assert forall act :: act in missed ==> BringsNoReminder(act);
    }
    NoReminderIsRaised(c, acts, r);
  }

  lemma {:induction false} SettlingOnlySettles(c: Core, settled: seq<(Key, nat)>)
    ensures forall act :: act in SettleActs(c, settled) ==> Settles(act)
    decreases |settled|
  {
    if settled != [] { SettlingOnlySettles(c, settled[1..]); }
  }

  /** No call but a tick raises a reminder, and a tick raises each just after reminding of its question. */
  lemma {:induction false} RemindersAreIntroduced(w: World, op: Op)
    ensures Introduced(w.core.digest, Wrote(w, op))
  {
    var r := ReadingOf(w.now, op);
    if op.Tick? {
      TickIntroduces(w.core, op.r, op.certified);
    } else if op.Consume? {
      ConsumingIntroduces(w.core, op.event, op.r, op.mode);
    } else if !op.Restart? {
      if op.SettleAnnouncements? { SettlingOnlySettles(w.core, op.settled); }
      assert forall act :: act in ActsOf(w.core, op, r) ==> BringsNoReminder(act);
      NoReminderIsRaised(w.core, ActsOf(w.core, op, r), r);
    }
  }
}
