/** Every operation performs only acts the engine may take, and what the passes of a tick leave. */
module Guards {
  import opened Common
  import opened Time
  import opened Events
  import opened EngineModel
  import opened Scope
  import opened Runs

  /** What the bound may not let go of survives it unchanged; a fresh item is such a one. */
  lemma {:induction false} BoundSpares(c: Core, r: Reading, k: Key)
    requires k in c.items && !Droppable(c.items[k], r)
    ensures var after := Exec(c, BoundActs(c, r), r);
            k in after.items && after.items[k] == c.items[k]
    decreases |c.items|
  {
    var victim := Victim(c, r);
    if victim.Some? {
      FewerItems(c, victim.value, r);
      var dropped := Apply(c, Leave(victim.value, Drop), r);
      assert dropped.items == c.items - {victim.value} && victim.value != k;
      BoundSpares(dropped, r, k);
      OneExec(c, Leave(victim.value, Drop), BoundActs(dropped, r), r);
    }
  }

  lemma {:induction false} BoundEnabled(c: Core, r: Reading)
    ensures AllEnabled(c, BoundActs(c, r), r)
    decreases |c.items|
  {
    var victim := Victim(c, r);
    if victim.Some? {
      FewerItems(c, victim.value, r);
      var dropped := Apply(c, Leave(victim.value, Drop), r);
      BoundEnabled(dropped, r);
      OneEnabled(c, Leave(victim.value, Drop), BoundActs(dropped, r), r);
    }
  }

  lemma {:induction false} RaiseEnabled(c: Core, raise: Raise, r: Reading, mode: Mode)
    requires raise.about.rule == raise.key.rule
    ensures AllEnabled(c, RaiseActs(c, raise, r, mode), r)
  {
    if raise.key in c.items {
      RepeatEnabled(c, raise, r, mode);
    } else {
      InsertEnabled(c, raise, r, mode);
    }
  }

  lemma {:induction false} RepeatEnabled(c: Core, raise: Raise, r: Reading, mode: Mode)
    requires raise.key in c.items
    ensures AllEnabled(c, RaiseActs(c, raise, r, mode), r)
  {
    var repeated := Apply(c, Change(raise.key, Repeat(raise)), r);
    var rest := RaiseActs(c, raise, r, mode)[1..];
    assert rest == [] || rest == [rest[0]];
    if rest != [] {
      assert Enabled(repeated, rest[0], r);
      OneEnabled(repeated, rest[0], [], r);
    }
    OneEnabled(c, Change(raise.key, Repeat(raise)), rest, r);
  }

  lemma {:induction false} InsertEnabled(c: Core, raise: Raise, r: Reading, mode: Mode)
    requires raise.key !in c.items && raise.about.rule == raise.key.rule
    ensures AllEnabled(c, RaiseActs(c, raise, r, mode), r)
  {
    var inserted := Apply(c, Enter(raise), r);
    var bound := BoundActs(inserted, r);
    var rest := if mode.Live? then [Change(raise.key, Announce(false))] else [];
    NewcomerIsAnnounceable(c, raise, r);
    OneEnabled(Exec(inserted, bound, r), Change(raise.key, Announce(false)), [], r);
    EnabledConcat(inserted, bound, rest, r);
    OneEnabled(c, Enter(raise), bound + rest, r);
    assert [Enter(raise)] + bound + rest == [Enter(raise)] + (bound + rest);
  }

  /** What has just entered is spared by the bound, and nothing has been said of it. */
  lemma {:induction false} NewcomerIsAnnounceable(c: Core, raise: Raise, r: Reading)
    requires raise.key !in c.items && raise.about.rule == raise.key.rule
    ensures var inserted := Apply(c, Enter(raise), r);
            && AllEnabled(inserted, BoundActs(inserted, r), r)
            && Enabled(Exec(inserted, BoundActs(inserted, r), r), Change(raise.key, Announce(false)), r)
  {
    var inserted := Apply(c, Enter(raise), r);
    assert inserted.items[raise.key].ann == UNANNOUNCED;
    BoundEnabled(inserted, r);
    BoundSpares(inserted, r, raise.key);
  }

  lemma {:induction false} OneEnabled(c: Core, act: Act, rest: seq<Act>, r: Reading)
    requires Enabled(c, act, r) && AllEnabled(Apply(c, act, r), rest, r)
    ensures AllEnabled(c, [act] + rest, r)
  {
    assert ([act] + rest)[1..] == rest;
  }

  lemma {:induction false} OneExec(c: Core, act: Act, rest: seq<Act>, r: Reading)
    ensures Exec(c, [act] + rest, r) == Exec(Apply(c, act, r), rest, r)
  {
    assert ([act] + rest)[1..] == rest;
  }

  lemma {:induction false} PendingBoundEnabled(c: Core, keep: QuestionId, r: Reading)
    ensures AllEnabled(c, PendingBoundActs(c, keep, r), r)
    ensures var after := Exec(c, PendingBoundActs(c, keep, r), r);
            after == c.(pending := after.pending)
    decreases |c.pending|
  {
    var oldest := Oldest(c, keep);
    if oldest.Some? {
      FewerPending(c, oldest.value, r);
      var forgot := Apply(c, Unask(oldest.value, false), r);
      PendingBoundEnabled(forgot, keep, r);
      OneEnabled(c, Unask(oldest.value, false), PendingBoundActs(forgot, keep, r), r);
      OneExec(c, Unask(oldest.value, false), PendingBoundActs(forgot, keep, r), r);
    }
  }

  ghost predicate PlanNamed(plan: Plan) {
    && (plan.RaiseOne? || plan.AskOne? ==> plan.raise.about.rule == plan.raise.key.rule)
    && (plan.AnswerOne? ==> plan.asked != plan.reminder)
  }

  lemma {:induction false} PlansAreNamed(digest: Subject -> nat, e: Event)
    ensures PlanNamed(PlanOf(digest, e))
  {
  }

  /** The record comes next in its source, once what was missed before it has been recorded. */
  ghost predicate ComesNext(c: Core, cursor: Cursor) {
    && Takes(c, cursor)
    && (NumbersEveryRecord(cursor.source) ==> cursor.sequence <= NextSequence(c, cursor.origin, cursor.source))
  }

  lemma {:induction false} MissedEnabled(c: Core, cursor: Cursor, r: Reading)
    requires Takes(c, cursor) && GapsBehind(c)
    ensures AllEnabled(c, MissedActs(c, cursor), r)
    ensures ComesNext(Exec(c, MissedActs(c, cursor), r), cursor)
  {
    var missed := MissedActs(c, cursor);
    if missed != [] {
      OneEnabled(c, missed[0], [], r);
      OneExec(c, missed[0], [], r);
      assert missed == [missed[0]] + [];
    }
  }

  lemma {:induction false} PlanEnabled(c: Core, cursor: Cursor, plan: Plan, r: Reading, mode: Mode)
    requires ComesNext(c, cursor) && PlanNamed(plan)
    ensures AllEnabled(c, PlanActs(c, cursor, plan, r, mode), r)
  {
    var took := Advance(cursor, None);
    var c1 := Apply(c, took, r);
    match plan
    case Nothing => OneEnabled(c, took, [], r);
    case RaiseOne(raise) =>
      RaiseEnabled(c1, raise, r, mode);
      OneEnabled(c, took, RaiseActs(c1, raise, r, mode), r);
    case EndOne(key) =>
      ResolveEnabled(c1, key, r);
      assert ResolveActs(c1, key) == ResolveActs(c, key);
      OneEnabled(c, took, ResolveActs(c, key), r);
    case AskOne(q, _, _, _, raise) => AskEnabled(c, cursor, plan, r, mode);
    case AnswerOne(q, asked, reminder) =>
      AnswerEnabled(c1, q, asked, reminder, r);
      assert c1.items == c.items;
      OneEnabled(c, took, [Unask(q, true)] + (ResolveActs(c, asked) + ResolveActs(c, reminder)), r);
  }

  lemma {:induction false} AnswerEnabled(c: Core, q: QuestionId, asked: Key, reminder: Key, r: Reading)
    requires asked != reminder
    ensures AllEnabled(c, [Unask(q, true)] + (ResolveActs(c, asked) + ResolveActs(c, reminder)), r)
  {
    var c1 := Apply(c, Unask(q, true), r);
    ResolveEnabled(c1, asked, r);
    var c2 := Exec(c1, ResolveActs(c, asked), r);
    ResolveEnabled(c2, reminder, r);
    EnabledConcat(c1, ResolveActs(c, asked), ResolveActs(c, reminder), r);
    OneEnabled(c, Unask(q, true), ResolveActs(c, asked) + ResolveActs(c, reminder), r);
  }

  lemma {:induction false} ResolveEnabled(c: Core, key: Key, r: Reading)
    ensures AllEnabled(c, ResolveActs(c, key), r)
    ensures Exec(c, ResolveActs(c, key), r) == c.(items := c.items - {key})
  {
    if key in c.items {
      OneEnabled(c, Leave(key, Resolve), [], r);
      OneExec(c, Leave(key, Resolve), [], r);
      assert [Leave(key, Resolve)] == [Leave(key, Resolve)] + [];
    } else {
      assert c.items - {key} == c.items;
    }
  }

  lemma {:induction false} AskEnabled(c: Core, cursor: Cursor, plan: Plan, r: Reading, mode: Mode)
    requires ComesNext(c, cursor) && PlanNamed(plan) && plan.AskOne?
    ensures AllEnabled(c, PlanActs(c, cursor, plan, r, mode), r)
  {
    var bound := PendingBoundActs(c, plan.question, r);
    var took := Advance(cursor, Some(AskedBy(cursor, plan, r)));
    PendingBoundEnabled(c, plan.question, r);
    var c1 := Exec(c, bound, r);
    assert Takes(c1, cursor) == Takes(c, cursor);
    OneEnabled(c1, took, [], r);
    EnabledConcat(c, bound, [took], r);
    var c2 := Exec(c, bound + [took], r);
    RaiseEnabled(c2, plan.raise, r, mode);
    EnabledConcat(c, bound + [took], RaiseActs(c2, plan.raise, r, mode), r);
  }

  lemma {:induction false} ConsumeEnabled(c: Core, e: Event, r: Reading, mode: Mode)
    requires GapsBehind(c)
    ensures AllEnabled(c, ConsumeActs(c, e, r, mode), r)
  {
    if Takes(c, e.cursor) {
      var missed := MissedActs(c, e.cursor);
      MissedEnabled(c, e.cursor, r);
      var c1 := Exec(c, missed, r);
      PlansAreNamed(c1.digest, e);
      PlanEnabled(c1, e.cursor, PlanOf(c1.digest, e), r, mode);
      EnabledConcat(c, missed, DecideActs(c1, e, r, mode), r);
    }
  }

  lemma {:induction false} CertifiedBy(c: Core, r: Reading, certified: map<Origin, nat>, origin: Origin)
    ensures var at := CertifiedAt(c, r, certified, origin);
            at.Some? ==> at.value.boot == r.boot && at.value.ms <= r.ms
  {
  }

  lemma {:induction false} RemindEnabled(c: Core, qs: seq<QuestionId>, r: Reading, certified: map<Origin, nat>)
    ensures AllEnabled(c, RemindActs(c, qs, r, certified), r)
    decreases |qs|
  {
    if qs != [] {
      if qs[0] !in c.pending || !ReminderDue(c, r, certified, qs[0]) {
        RemindEnabled(c, qs[1..], r, certified);
      } else {
        var q, wait := qs[0], c.pending[qs[0]];
        CertifiedBy(c, r, certified, wait.record.origin);
        var remind := Remind(q, CertifiedAt(c, r, certified, wait.record.origin).value);
        var raise := ReminderOf(c.digest, q, wait.session, wait.record, r);
        var c1 := Apply(c, remind, r);
        RaiseEnabled(c1, raise, r, Live);
        OneEnabled(c, remind, RaiseActs(c1, raise, r, Live), r);
        var acts := [remind] + RaiseActs(c1, raise, r, Live);
        RemindEnabled(Exec(c, acts, r), qs[1..], r, certified);
        EnabledConcat(c, acts, RemindActs(Exec(c, acts, r), qs[1..], r, certified), r);
      }
    }
  }

  /** An item once it has climbed as far as its origin's certified reading takes it. */
  function Climbed(c: Core, k: Key, r: Reading, certified: map<Origin, nat>): Item
    requires k in c.items
  {
    var climb := ClimbOf(c, k, r, certified);
    if climb.Some? then c.items[k].(level := climb.value.0, steps := climb.value.1) else c.items[k]
  }

  /** Two states hold the same items but for some keys, and everything else alike. */
  ghost predicate SameBut(c: Core, d: Core, keys: seq<Key>) {
    && d == c.(items := d.items, nextAnnouncement := d.nextAnnouncement)
    && d.items.Keys == c.items.Keys
    && forall k :: k in c.items && k !in keys ==> d.items[k] == c.items[k]
  }

  lemma {:induction false} SameButOneMore(c: Core, c1: Core, d: Core, keys: seq<Key>)
    requires keys != [] && SameBut(c, c1, [keys[0]]) && SameBut(c1, d, keys[1..])
    ensures SameBut(c, d, keys)
  {
    assert forall x :: x in keys <==> x == keys[0] || x in keys[1..];
  }

  /** The items of some keys are as a pass found them. */
  ghost predicate AsFound(c0: Core, c: Core, keys: seq<Key>) {
    forall k :: k in keys ==> k in c0.items && c0.items[k].key == k && k in c.items && c.items[k] == c0.items[k]
  }

  lemma {:induction false} RestIsAsFound(c0: Core, c: Core, c1: Core, keys: seq<Key>)
    requires keys != [] && NoDuplicates(keys) && AsFound(c0, c, keys) && SameBut(c, c1, [keys[0]])
    ensures NoDuplicates(keys[1..]) && keys[0] !in keys[1..] && AsFound(c0, c1, keys[1..])
  {
  }

  lemma {:induction false} ThenEnabled(c: Core, acts: seq<Act>, rest: seq<Act>, r: Reading)
    requires AllEnabled(c, acts, r) && AllEnabled(Exec(c, acts, r), rest, r)
    ensures AllEnabled(c, acts + rest, r) && Exec(c, acts + rest, r) == Exec(Exec(c, acts, r), rest, r)
  {
    EnabledConcat(c, acts, rest, r);
    ExecConcat(c, map[], acts, rest, r);
  }

  lemma {:induction false} ClimbOne(c0: Core, c: Core, k: Key, r: Reading, certified: map<Origin, nat>)
    requires k in c0.items && c0.items[k].key == k && k in c.items && c.items[k] == c0.items[k]
    ensures var climb := ClimbOf(c0, k, r, certified);
            var act := if climb.Some? then [Change(k, Climb(climb.value.0, climb.value.1))] else [];
            var d := Exec(c, act, r);
            AllEnabled(c, act, r) && SameBut(c, d, [k]) && d.items[k] == Climbed(c0, k, r, certified)
  {
    var climb := ClimbOf(c0, k, r, certified);
    if climb.Some? {
      var act := Change(k, Climb(climb.value.0, climb.value.1));
      OneEnabled(c, act, [], r);
      assert Exec(c, [act], r) == Apply(c, act, r);
    }
  }

  lemma {:induction false} ClimbEffect(c0: Core, c: Core, keys: seq<Key>, r: Reading, certified: map<Origin, nat>)
    requires NoDuplicates(keys) && AsFound(c0, c, keys)
    ensures AllEnabled(c, ClimbActs(c0, keys, r, certified), r)
    ensures var d := Exec(c, ClimbActs(c0, keys, r, certified), r);
            SameBut(c, d, keys) && forall k :: k in keys ==> d.items[k] == Climbed(c0, k, r, certified)
    decreases |keys|
  {
    if keys != [] {
      var k, climb := keys[0], ClimbOf(c0, keys[0], r, certified);
      var rest := ClimbActs(c0, keys[1..], r, certified);
      var act := if climb.Some? then [Change(k, Climb(climb.value.0, climb.value.1))] else [];
      var c1 := Exec(c, act, r);
      ClimbOne(c0, c, k, r, certified);
      RestIsAsFound(c0, c, c1, keys);
      ClimbEffect(c0, c1, keys[1..], r, certified);
      ThenEnabled(c, act, rest, r);
      SameButOneMore(c, c1, Exec(c1, rest, r), keys);
    }
  }

  /** An item has just been decided about, and its announcement went out or is held. */
  ghost predicate JustDecided(before: Item, after: Item, quiet: bool, r: Reading) {
    && after == before.(ann := after.ann)
    && after.ann.since == Some(Starting(r)) && after.ann.deferred == quiet
    && (!quiet ==> after.ann.level == Some(before.level))
  }

  ghost predicate Visited(c: Core, after: Item, k: Key, r: Reading, certified: map<Origin, nat>)
    requires k in c.items
  {
    if DueNow(c, k, r, certified).Some? then JustDecided(c.items[k], after, QuietAt(c.quiet, r), r)
    else after == c.items[k]
  }

  lemma {:induction false} DueIsEnabled(c: Core, k: Key, r: Reading, certified: map<Origin, nat>)
    requires k in c.items && c.items[k].key == k
    requires DueNow(c, k, r, certified).Some?
    ensures Enabled(c, Change(k, Announce(DueNow(c, k, r, certified).value)), r)
    ensures JustDecided(c.items[k], Apply(c, Change(k, Announce(DueNow(c, k, r, certified).value)), r).items[k], QuietAt(c.quiet, r), r)
  {
    var item := c.items[k];
    CertifiedBy(c, r, certified, item.about.origin);
    if !item.ann.deferred && item.ann.since.Some? {
      ElapsedMonotone(item.ann.since.value, CertifiedAt(c, r, certified, item.about.origin).value, r);
    }
  }

  lemma {:induction false} AnnounceOne(c0: Core, c: Core, k: Key, r: Reading, certified: map<Origin, nat>)
    requires k in c0.items && c0.items[k].key == k && c.quiet == c0.quiet
    requires k in c.items && c.items[k] == c0.items[k]
    ensures var due := DueNow(c0, k, r, certified);
            var act := if due.Some? then [Change(k, Announce(due.value))] else [];
            var d := Exec(c, act, r);
            AllEnabled(c, act, r) && SameBut(c, d, [k]) && Visited(c0, d.items[k], k, r, certified)
  {
    var due := DueNow(c0, k, r, certified);
    if due.Some? {
      DueIsEnabled(c0, k, r, certified);
      OneEnabled(c, Change(k, Announce(due.value)), [], r);
      assert Exec(c, [Change(k, Announce(due.value))], r) == Apply(c, Change(k, Announce(due.value)), r);
    }
  }

  lemma {:induction false} DueEffect(c0: Core, c: Core, keys: seq<Key>, r: Reading, certified: map<Origin, nat>)
    requires NoDuplicates(keys) && c.quiet == c0.quiet && AsFound(c0, c, keys)
    ensures AllEnabled(c, DueActs(c0, keys, r, certified), r)
    ensures var d := Exec(c, DueActs(c0, keys, r, certified), r);
            SameBut(c, d, keys) && forall k :: k in keys ==> Visited(c0, d.items[k], k, r, certified)
    decreases |keys|
  {
    if keys != [] {
      var k, due := keys[0], DueNow(c0, keys[0], r, certified);
      var rest := DueActs(c0, keys[1..], r, certified);
      var act := if due.Some? then [Change(k, Announce(due.value))] else [];
      var c1 := Exec(c, act, r);
      AnnounceOne(c0, c, k, r, certified);
      RestIsAsFound(c0, c, c1, keys);
      DueEffect(c0, c1, keys[1..], r, certified);
      ThenEnabled(c, act, rest, r);
      SameButOneMore(c, c1, Exec(c1, rest, r), keys);
    }
  }

  /** The states between the passes of a tick. */
  datatype TickStates = TickStates(reminded: Core, climbed: Core, decided: Core)

  ghost function Passes(c: Core, r: Reading, certified: map<Origin, nat>): TickStates {
    var c1 := Exec(c, RemindActs(c, SortedQuestions(DueQuestions(c, r, certified)), r, certified), r);
    var c2 := Exec(c1, ClimbActs(c1, SortedKeys(c1.items.Keys), r, certified), r);
    var c3 := Exec(c2, DueActs(c2, SortedKeys(c2.items.Keys), r, certified), r);
    TickStates(c1, c2, c3)
  }

  /** What the passes of a tick leave: each item as far up its ladder as it goes, and decided if due. */
  ghost predicate PassesDone(p: TickStates, r: Reading, certified: map<Origin, nat>) {
    && Consistent(p.reminded, r) && Consistent(p.climbed, r) && Consistent(p.decided, r)
    && SameBut(p.reminded, p.climbed, SortedKeys(p.reminded.items.Keys))
    && SameBut(p.climbed, p.decided, SortedKeys(p.climbed.items.Keys))
    && (forall k :: k in p.reminded.items ==> p.climbed.items[k] == Climbed(p.reminded, k, r, certified))
    && (forall k :: k in p.climbed.items ==> Visited(p.climbed, p.decided.items[k], k, r, certified))
  }

  lemma {:induction false} RemindPass(c: Core, r: Reading, certified: map<Origin, nat>)
    requires Consistent(c, r)
    ensures AllEnabled(c, RemindActs(c, SortedQuestions(DueQuestions(c, r, certified)), r, certified), r)
    ensures Consistent(Passes(c, r, certified).reminded, r)
  {
    RemindEnabled(c, SortedQuestions(DueQuestions(c, r, certified)), r, certified);
    ActsKeepConsistent(c, RemindActs(c, SortedQuestions(DueQuestions(c, r, certified)), r, certified), r);
  }

  lemma {:induction false} ClimbPass(c: Core, r: Reading, certified: map<Origin, nat>)
    requires Consistent(c, r)
    ensures var keys := SortedKeys(c.items.Keys);
            var d := Exec(c, ClimbActs(c, keys, r, certified), r);
            && AllEnabled(c, ClimbActs(c, keys, r, certified), r) && Consistent(d, r) && SameBut(c, d, keys)
            && forall k :: k in c.items ==> d.items[k] == Climbed(c, k, r, certified)
  {
    ClimbEffect(c, c, SortedKeys(c.items.Keys), r, certified);
    ActsKeepConsistent(c, ClimbActs(c, SortedKeys(c.items.Keys), r, certified), r);
  }

  lemma {:induction false} DuePass(c: Core, r: Reading, certified: map<Origin, nat>)
    requires Consistent(c, r)
    ensures var keys := SortedKeys(c.items.Keys);
            var d := Exec(c, DueActs(c, keys, r, certified), r);
            && AllEnabled(c, DueActs(c, keys, r, certified), r) && Consistent(d, r) && SameBut(c, d, keys)
            && forall k :: k in c.items ==> Visited(c, d.items[k], k, r, certified)
  {
    DueEffect(c, c, SortedKeys(c.items.Keys), r, certified);
    ActsKeepConsistent(c, DueActs(c, SortedKeys(c.items.Keys), r, certified), r);
  }

  lemma {:induction false} TickEnabled(c: Core, r: Reading, certified: map<Origin, nat>)
    requires Consistent(c, r)
    ensures AllEnabled(c, TickActs(c, r, certified), r)
    ensures var p := Passes(c, r, certified);
            && PassesDone(p, r, certified)
            && Exec(c, TickActs(c, r, certified), r) == Exec(p.decided, BoundActs(p.decided, r), r)
  {
    var p := Passes(c, r, certified);
    RemindPass(c, r, certified);
    ClimbPass(p.reminded, r, certified);
    DuePass(p.climbed, r, certified);
    BoundEnabled(p.decided, r);
    TickJoins(c, RemindActs(c, SortedQuestions(DueQuestions(c, r, certified)), r, certified),
              ClimbActs(p.reminded, SortedKeys(p.reminded.items.Keys), r, certified),
              DueActs(p.climbed, SortedKeys(p.climbed.items.Keys), r, certified), BoundActs(p.decided, r), r);
  }

  lemma {:induction false} TickJoins(c: Core, a: seq<Act>, b: seq<Act>, d: seq<Act>, e: seq<Act>, r: Reading)
    requires AllEnabled(c, a, r) && AllEnabled(Exec(c, a, r), b, r)
    requires AllEnabled(Exec(Exec(c, a, r), b, r), d, r)
    requires AllEnabled(Exec(Exec(Exec(c, a, r), b, r), d, r), e, r)
    ensures AllEnabled(c, a + b + d + e, r)
    ensures Exec(c, a + b + d + e, r) == Exec(Exec(Exec(Exec(c, a, r), b, r), d, r), e, r)
  {
    EnabledConcat(c, a, b, r);
    ExecConcat(c, map[], a, b, r);
    EnabledConcat(c, a + b, d, r);
    ExecConcat(c, map[], a + b, d, r);
    EnabledConcat(c, a + b + d, e, r);
    ExecConcat(c, map[], a + b + d, e, r);
  }

  lemma {:induction false} EndEnabled(c: Core, keys: seq<Key>, r: Reading)
    requires NoDuplicates(keys) && forall k :: k in keys ==> k in c.items
    ensures AllEnabled(c, EndActs(keys), r)
    decreases |keys|
  {
    if keys != [] {
      var c1 := Apply(c, Leave(keys[0], End), r);
      assert c1.items == c.items - {keys[0]};
      assert forall k :: k in keys[1..] ==> k in keys && k != keys[0];
      EndEnabled(c1, keys[1..], r);
      OneEnabled(c, Leave(keys[0], End), EndActs(keys[1..]), r);
    }
  }

  lemma {:induction false} FinaliseEnabled(c: Core, session: SessionId, r: Reading)
    ensures AllEnabled(c, FinaliseActs(c, session), r)
  {
    var ending := SortedKeys(set k | k in c.items && EndsWith(c.items[k], session));
    EndEnabled(Apply(c, Close(session), r), ending, r);
    OneEnabled(c, Close(session), EndActs(ending), r);
  }

  lemma {:induction false} SettleEnabled(c0: Core, c: Core, settled: seq<(Key, nat)>, r: Reading)
    requires c.items.Keys == c0.items.Keys
    ensures AllEnabled(c, SettleActs(c0, settled), r)
    decreases |settled|
  {
    if settled != [] {
      var rest := SettleActs(c0, settled[1..]);
      if settled[0].0 in c.items {
        var act := Change(settled[0].0, Settle(settled[0].1));
        SettleEnabled(c0, Apply(c, act, r), settled[1..], r);
        OneEnabled(c, act, rest, r);
      } else {
        SettleEnabled(c0, c, settled[1..], r);
        assert [] + rest == rest;
      }
    }
  }

  lemma {:induction false} AckEnabled(c: Core, actor: ActorId, viewer: Viewer, requested: seq<(Key, nat)>, r: Reading)
    ensures AllEnabled(c, AckActs(c, actor, viewer, requested), r)
    decreases |requested|
  {
    if requested != [] {
      AckEnabled(c, actor, viewer, requested[1..], r);
      var rest := AckActs(c, actor, viewer, requested[1..]);
      if Current(c, viewer, requested[0]) {
        OneEnabled(c, Ack(actor, requested[0].0, requested[0].1), rest, r);
      } else {
        assert [] + rest == rest;
      }
    }
  }

  /** Every operation of the host performs only acts whose guards hold. */
  lemma {:induction false} OperationsAreEnabled(c: Core, op: Op, r: Reading)
    requires Consistent(c, r)
    ensures AllEnabled(c, ActsOf(c, op, r), r)
  {
    match op
    case Consume(e, _, mode) => ConsumeEnabled(c, e, r, mode);
    case Tick(_, certified) => TickEnabled(c, r, certified);
    case NoteGap(gap) => if NoteGapActs(c, gap) != [] { OneEnabled(c, RecordGap(gap), [], r); }
    case StartFrom(o, s, n) => OneEnabled(c, Skip(o, s, n), [], r);
    case Finalise(session) =>
      FinaliseEnabled(c, session, r);
    case SettleAnnouncements(settled) => SettleEnabled(c, c, settled, r);
    case SetQuietHours(quiet) => OneEnabled(c, SetQuiet(quiet), [], r);
    case Acknowledge(actor, viewer, requested, _) => AckEnabled(c, actor, viewer, requested, r);
    case AcknowledgeCurrent(actor, key, _) =>
      if key in c.items { OneEnabled(c, Ack(actor, key, c.items[key].revision), [], r); }
    case Restart(_) =>
  }
}
