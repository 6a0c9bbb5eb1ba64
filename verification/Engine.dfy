/** The attention engine itself: one object whose methods change its fields in place, each proved to do
    exactly the acts the model says, in the model's order, and to hand back exactly what they say. */
module AttentionEngine {
  import opened Common
  import opened Time
  import opened Rules
  import opened Events
  import opened EngineModel
  import opened Scope
  import opened Runs
  import opened Guards
  import opened Deadline
  import opened Disclosure

  /** A stretch of work: from one state and its acknowledgements to another, saying `outs` on the way. */
  ghost predicate Did(c: Core, acks: Acks, acts: seq<Act>, r: Reading, d: Core, left: Acks, outs: seq<Outcome>) {
    && d == Exec(c, acts, r) && left == ExecAcks(c, acks, acts, r)
    && outs == Outcomes(Trace(c, acts, r))
  }

  lemma {:induction false} DidNothing(c: Core, acks: Acks, r: Reading)
    ensures Did(c, acks, [], r, c, acks, [])
  {
  }

  lemma {:induction false} DidOne(c: Core, acks: Acks, act: Act, r: Reading)
    ensures Did(c, acks, [act], r, Apply(c, act, r), ApplyToAcks(c, acks, act, r), Outcomes(Note(c, act, r)))
  {
    assert [act][1..] == [];
    assert Trace(c, [act], r) == Note(c, act, r) + [];
    assert Note(c, act, r) + [] == Note(c, act, r);
  }

  lemma {:induction false} DidThen(
    c: Core, acks: Acks, a: seq<Act>, r: Reading, d: Core, mid: Acks, first: seq<Outcome>,
    b: seq<Act>, e: Core, left: Acks, second: seq<Outcome>)
    requires Did(c, acks, a, r, d, mid, first) && Did(d, mid, b, r, e, left, second)
    ensures Did(c, acks, a + b, r, e, left, first + second)
  {
    ExecConcat(c, acks, a, b, r);
    OutcomesConcat(Trace(c, a, r), Trace(d, b, r));
  }

  /** What is left to do from here, after `said`, comes to the same as all that was to do. */
  ghost predicate Remains(
    c0: Core, a0: Acks, all: seq<Act>, r: Reading, said: seq<Outcome>, c: Core, acks: Acks, rest: seq<Act>)
  {
    && Exec(c0, all, r) == Exec(c, rest, r) && ExecAcks(c0, a0, all, r) == ExecAcks(c, acks, rest, r)
    && Outcomes(Trace(c0, all, r)) == said + Outcomes(Trace(c, rest, r))
  }

  lemma {:induction false} AllRemains(c: Core, acks: Acks, all: seq<Act>, r: Reading)
    ensures Remains(c, acks, all, r, [], c, acks, all)
  {
  }

  lemma {:induction false} NothingRemains(c0: Core, a0: Acks, all: seq<Act>, r: Reading, said: seq<Outcome>, c: Core, acks: Acks)
    requires Remains(c0, a0, all, r, said, c, acks, [])
    ensures Did(c0, a0, all, r, c, acks, said)
  {
    assert said + [] == said;
  }

  lemma {:induction false} LessRemains(
    c0: Core, a0: Acks, all: seq<Act>, r: Reading, said: seq<Outcome>, c: Core, acks: Acks,
    acts: seq<Act>, rest: seq<Act>, d: Core, left: Acks, outs: seq<Outcome>)
    requires Remains(c0, a0, all, r, said, c, acks, acts + rest) && Did(c, acks, acts, r, d, left, outs)
    ensures Remains(c0, a0, all, r, said + outs, d, left, rest)
  {
    ExecConcat(c, acks, acts, rest, r);
    OutcomesConcat(Trace(c, acts, r), Trace(d, rest, r));
    SaidInTurn(said, outs, Outcomes(Trace(d, rest, r)));
  }

  lemma {:induction false} SaidInTurn(a: seq<Outcome>, b: seq<Outcome>, c: seq<Outcome>)
    ensures a + (b + c) == a + b + c
  {
  }

  lemma {:induction false} DidDrop(c: Core, acks: Acks, k: Key, r: Reading)
    requires k in c.items
    ensures Apply(c, Leave(k, Drop), r) == c.(items := c.items - {k}, dropped := c.dropped + 1)
    ensures Did(c, acks, [Leave(k, Drop)], r, Apply(c, Leave(k, Drop), r), Without(acks, k), [Dropped(k)])
  {
    DidOne(c, acks, Leave(k, Drop), r);
    assert Outcomes([Said(Dropped(k), r)]) == [Dropped(k)];
  }

  /** One more victim is let go of, and the rest are the ones the bound lets go of from there. */
  lemma {:induction false} LetOneMoreGo(
    c0: Core, a0: Acks, all: seq<Act>, r: Reading, said: seq<Outcome>, c: Core, acks: Acks, k: Key)
    requires Remains(c0, a0, all, r, said, c, acks, BoundActs(c, r)) && Victim(c, r) == Some(k)
    ensures var d := Apply(c, Leave(k, Drop), r);
            && d == c.(items := c.items - {k}, dropped := c.dropped + 1) && |d.items| < |c.items|
            && Remains(c0, a0, all, r, said + [Dropped(k)], d, Without(acks, k), BoundActs(d, r))
  {
    var d := Apply(c, Leave(k, Drop), r);
    FewerItems(c, k, r);
    DidDrop(c, acks, k, r);
    LessRemains(c0, a0, all, r, said, c, acks, [Leave(k, Drop)], BoundActs(d, r), d, Without(acks, k), [Dropped(k)]);
  }

  lemma {:induction false} ForgetOneMore(
    c0: Core, a0: Acks, all: seq<Act>, r: Reading, said: seq<Outcome>, c: Core, acks: Acks, keep: QuestionId, q: QuestionId)
    requires Remains(c0, a0, all, r, said, c, acks, PendingBoundActs(c, keep, r)) && Oldest(c, keep) == Some(q)
    ensures var d := Apply(c, Unask(q, false), r);
            && d == c.(pending := c.pending - {q}) && |d.pending| < |c.pending|
            && Remains(c0, a0, all, r, said, d, acks, PendingBoundActs(d, keep, r))
  {
    var d := Apply(c, Unask(q, false), r);
    FewerPending(c, q, r);
    DidOne(c, acks, Unask(q, false), r);
    LessRemains(c0, a0, all, r, said, c, acks, [Unask(q, false)], PendingBoundActs(d, keep, r), d, acks, []);
    assert said + [] == said;
  }

  lemma {:induction false} SortedKeysFrom(s: set<Key>, k: Key)
    requires LeastKey(s, k)
    ensures SortedKeys(s) == [k] + SortedKeys(s - {k})
  {
    forall x | LeastKey(s, x) ensures x == k { LeastKeyUnique(s, x, k); }
  }

  lemma {:induction false} SortedQuestionsFrom(s: set<QuestionId>, q: QuestionId)
    requires LeastQuestion(s, q)
    ensures SortedQuestions(s) == [q] + SortedQuestions(s - {q})
  {
    assert forall x :: LeastQuestion(s, x) ==> x == q;
  }

  lemma {:induction false} StillDue(c0: Core, c: Core, r: Reading, certified: map<Origin, nat>, q: QuestionId)
    requires q in DueQuestions(c0, r, certified) && c.finalised == c0.finalised
    requires q in c.pending && c.pending[q] == c0.pending[q]
    ensures ReminderDue(c, r, certified, q)
  {
  }

  lemma {:induction false} RemindGoesOn(
    c0: Core, a0: Acks, all: seq<Act>, r: Reading, said: seq<Outcome>, c: Core, acks: Acks,
    todo: set<QuestionId>, q: QuestionId, certified: map<Origin, nat>, d: Core, left: Acks, outs: seq<Outcome>)
    requires Remains(c0, a0, all, r, said, c, acks, RemindActs(c, SortedQuestions(todo), r, certified))
    requires LeastQuestion(todo, q) && q in c.pending && ReminderDue(c, r, certified, q)
    requires Did(c, acks, RemindOneActs(c, q, r, certified), r, d, left, outs)
    ensures Remains(c0, a0, all, r, said + outs, d, left, RemindActs(d, SortedQuestions(todo - {q}), r, certified))
  {
    var rest := SortedQuestions(todo - {q});
    SortedQuestionsFrom(todo, q);
    assert ([q] + rest)[1..] == rest;
    LessRemains(c0, a0, all, r, said, c, acks, RemindOneActs(c, q, r, certified), RemindActs(d, rest, r, certified), d, left, outs);
  }

  /** The acts one key comes to, in a pass over the keys of a state. */
  ghost function ClimbAct(c: Core, k: Key, r: Reading, certified: map<Origin, nat>): seq<Act>
    requires k in c.items
  {
    var climb := ClimbOf(c, k, r, certified);
    if climb.Some? then [Change(k, Edit.Climb(climb.value.0, climb.value.1))] else []
  }

  lemma {:induction false} ClimbGoesOn(
    c0: Core, a0: Acks, all: seq<Act>, r: Reading, said: seq<Outcome>, c: Core, acks: Acks,
    todo: set<Key>, k: Key, certified: map<Origin, nat>, d: Core, left: Acks, outs: seq<Outcome>)
    requires todo <= c0.items.Keys && LeastKey(todo, k)
    requires k in c.items && c.items[k] == c0.items[k] && c.finalised == c0.finalised
    requires Remains(c0, a0, all, r, said, c, acks, ClimbActs(c0, SortedKeys(todo), r, certified))
    requires Did(c, acks, ClimbAct(c, k, r, certified), r, d, left, outs)
    ensures Remains(c0, a0, all, r, said + outs, d, left, ClimbActs(c0, SortedKeys(todo - {k}), r, certified))
  {
    var rest := SortedKeys(todo - {k});
    SortedKeysFrom(todo, k);
    assert ([k] + rest)[1..] == rest;
    SameClimb(c0, c, k, r, certified);
    LessRemains(c0, a0, all, r, said, c, acks, ClimbAct(c0, k, r, certified), ClimbActs(c0, rest, r, certified), d, left, outs);
  }

  lemma {:induction false} SameClimb(c0: Core, c: Core, k: Key, r: Reading, certified: map<Origin, nat>)
    requires k in c0.items && k in c.items && c.items[k] == c0.items[k] && c.finalised == c0.finalised
    ensures ClimbAct(c0, k, r, certified) == ClimbAct(c, k, r, certified)
  {
  }

  lemma {:induction false} AnswerInOrder(c: Core, cursor: Cursor, q: QuestionId, asked: Key, reminder: Key, r: Reading)
    ensures PlanActs(c, cursor, AnswerOne(q, asked, reminder), r, Live) ==
            [Advance(cursor, None)] + ([Unask(q, true)] + (ResolveActs(c, asked) + ResolveActs(c, reminder)))
  {
  }

  /** A list of due announcements as the acts it asks for. */
  ghost function AnnounceActs(due: seq<(Key, bool)>): seq<Act> {
    if due == [] then [] else AnnounceActs(due[..|due| - 1]) + [Change(due[|due| - 1].0, Edit.Announce(due[|due| - 1].1))]
  }

  lemma {:induction false} DueGoesOn(c: Core, todo: set<Key>, k: Key, r: Reading, certified: map<Origin, nat>, due: seq<(Key, bool)>, all: seq<Act>)
    requires todo <= c.items.Keys && LeastKey(todo, k)
    requires AnnounceActs(due) + DueActs(c, SortedKeys(todo), r, certified) == all
    ensures var now := DueNow(c, k, r, certified);
            AnnounceActs(if now.Some? then due + [(k, now.value)] else due) + DueActs(c, SortedKeys(todo - {k}), r, certified) == all
  {
    var rest := SortedKeys(todo - {k});
    SortedKeysFrom(todo, k);
    var now := DueNow(c, k, r, certified);
    assert forall x :: x in rest ==> x in todo - {k};
    DueFirst(c, k, rest, r, certified);
    var said, left := AnnounceActs(due), DueActs(c, rest, r, certified);
    if now.Some? {
      AnnounceOneMore(due, (k, now.value));
      Regroup(said, [Change(k, Edit.Announce(now.value))], left);
    } else {
      assert [] + left == left;
    }
  }

  lemma {:induction false} Regroup(a: seq<Act>, b: seq<Act>, c: seq<Act>)
    ensures a + (b + c) == a + b + c
  {
  }

  lemma {:induction false} DueFirst(c: Core, k: Key, rest: seq<Key>, r: Reading, certified: map<Origin, nat>)
    requires k in c.items && forall x :: x in rest ==> x in c.items
    ensures var now := DueNow(c, k, r, certified);
            DueActs(c, [k] + rest, r, certified) ==
            (if now.Some? then [Change(k, Edit.Announce(now.value))] else []) + DueActs(c, rest, r, certified)
  {
    assert ([k] + rest)[1..] == rest;
  }

  lemma {:induction false} AnnouncedUpTo(due: seq<(Key, bool)>, i: nat)
    requires i < |due|
    ensures AnnounceActs(due[..i + 1]) == AnnounceActs(due[..i]) + [Change(due[i].0, Edit.Announce(due[i].1))]
  {
    AnnounceOneMore(due[..i], due[i]);
    assert due[..i + 1] == due[..i] + [due[i]];
  }

  lemma {:induction false} AnnounceOneMore(due: seq<(Key, bool)>, next: (Key, bool))
    ensures AnnounceActs(due + [next]) == AnnounceActs(due) + [Change(next.0, Edit.Announce(next.1))]
  {
    assert (due + [next])[..|due|] == due;
  }

  lemma {:induction false} EndGoesOn(
    c0: Core, a0: Acks, all: seq<Act>, r: Reading, said: seq<Outcome>, c: Core, acks: Acks, todo: set<Key>, k: Key)
    requires LeastKey(todo, k) && k in c.items
    requires Remains(c0, a0, all, r, said, c, acks, EndActs(SortedKeys(todo)))
    ensures Remains(c0, a0, all, r, said + [Ended(k)], c.(items := c.items - {k}), Without(acks, k), EndActs(SortedKeys(todo - {k})))
  {
    var rest := SortedKeys(todo - {k});
    SortedKeysFrom(todo, k);
    EndFirst(k, rest);
    LeavingDid(c, acks, k, r);
    LessRemains(c0, a0, all, r, said, c, acks, [Leave(k, End)], EndActs(rest), Apply(c, Leave(k, End), r), Without(acks, k), [Ended(k)]);
  }

  lemma {:induction false} EndFirst(k: Key, rest: seq<Key>)
    ensures EndActs([k] + rest) == [Leave(k, End)] + EndActs(rest)
  {
    assert ([k] + rest)[1..] == rest;
  }

  lemma {:induction false} LeavingDid(c: Core, acks: Acks, k: Key, r: Reading)
    requires k in c.items
    ensures Apply(c, Leave(k, End), r) == c.(items := c.items - {k})
    ensures Did(c, acks, [Leave(k, End)], r, c.(items := c.items - {k}), Without(acks, k), [Ended(k)])
  {
    DidOne(c, acks, Leave(k, End), r);
  }

  /** The acts of the first settlements of a list. */
  lemma {:induction false} SettleActsConcat(c: Core, settled: seq<(Key, nat)>, last: (Key, nat))
    ensures SettleActs(c, settled + [last]) ==
            SettleActs(c, settled) + if last.0 in c.items then [Change(last.0, Edit.Settle(last.1))] else []
    decreases |settled|
  {
    if settled == [] {
      assert settled + [last] == [last];
    } else {
      assert (settled + [last])[0] == settled[0] && (settled + [last])[1..] == settled[1..] + [last];
      SettleActsConcat(c, settled[1..], last);
    }
  }

  /** Settling an item clears the pending number if it is the one named, and says nothing. */
  lemma {:induction false} DidSettle(c: Core, acks: Acks, k: Key, number: nat, r: Reading)
    requires k in c.items
    ensures var item := c.items[k];
            var d := if item.ann.pending == Some(number)
                     then c.(items := c.items[k := item.(ann := item.ann.(pending := None))]) else c;
            Did(c, acks, [Change(k, Edit.Settle(number))], r, d, acks, [])
  {
    DidOne(c, acks, Change(k, Edit.Settle(number)), r);
    assert c.items[k := c.items[k]] == c.items;
  }

  lemma {:induction false} AckActsConcat(c: Core, actor: ActorId, viewer: Viewer, requested: seq<(Key, nat)>, last: (Key, nat))
    ensures AckActs(c, actor, viewer, requested + [last]) ==
            AckActs(c, actor, viewer, requested) + if Current(c, viewer, last) then [Ack(actor, last.0, last.1)] else []
    decreases |requested|
  {
    if requested == [] {
      assert requested + [last] == [last];
    } else {
      assert (requested + [last])[0] == requested[0] && (requested + [last])[1..] == requested[1..] + [last];
      AckActsConcat(c, actor, viewer, requested[1..], last);
    }
  }

  lemma {:induction false} AnswerKeysConcat(c: Core, viewer: Viewer, requested: seq<(Key, nat)>, last: (Key, nat), current: bool)
    ensures AnswerKeys(c, viewer, requested + [last], current) ==
            AnswerKeys(c, viewer, requested, current) + if Current(c, viewer, last) == current then [last.0] else []
    decreases |requested|
  {
    if requested == [] {
      assert requested + [last] == [last];
    } else {
      assert (requested + [last])[0] == requested[0] && (requested + [last])[1..] == requested[1..] + [last];
      AnswerKeysConcat(c, viewer, requested[1..], last, current);
    }
  }

  /** Everything the store read back. */
  datatype Restored = Restored(
    items: map<Key, Item>, acks: Acks, consumed: map<(Origin, Source), nat>, gaps: seq<Gap>,
    pending: map<QuestionId, Wait>, quiet: Option<QuietHours>, dropped: nat,
    nextAnnouncement: nat, nextRevision: nat, finalised: set<SessionId>)

  /** Two stretches that say nothing say nothing together. */
  lemma {:induction false} DidThenSilently(
    c: Core, acks: Acks, a: seq<Act>, r: Reading, d: Core, mid: Acks, b: seq<Act>, e: Core, left: Acks)
    requires Did(c, acks, a, r, d, mid, []) && Did(d, mid, b, r, e, left, [])
    ensures Did(c, acks, a + b, r, e, left, [])
  {
    DidThen(c, acks, a, r, d, mid, [], b, e, left, []);
  }

  function Sooner(earliest: Option<nat>, deadline: nat): Option<nat> {
    if earliest.None? then Some(deadline) else Some(Min(earliest.value, deadline))
  }

  lemma {:induction false} SoonerIsEarliest(seen: set<nat>, earliest: Option<nat>, deadline: nat)
    requires Earliest(seen, earliest)
    ensures Earliest(seen + {deadline}, Sooner(earliest, deadline))
  {
  }

  /** A number is the highest of one and of those some items carry. */
  ghost predicate Highest(start: nat, carried: map<Key, nat>, top: nat) {
    && start <= top && (forall k :: k in carried ==> carried[k] <= top)
    && (top == start || exists k :: k in carried && carried[k] == top)
  }

  function NumbersCarried(items: map<Key, Item>): map<Key, nat> {
    map k | k in items && items[k].ann.pending.Some? :: items[k].ann.pending.value
  }

  function RevisionsCarried(items: map<Key, Item>): map<Key, nat> {
    map k | k in items :: items[k].revision
  }

  method HighestOf(start: nat, carried: map<Key, nat>) returns (top: nat)
    ensures Highest(start, carried, top)
  {
    top := start;
    var todo := carried.Keys;
    while todo != {}
      invariant todo <= carried.Keys && start <= top
      invariant forall k :: k in carried && k !in todo ==> carried[k] <= top
      invariant top == start || exists k :: k in carried && carried[k] == top
      decreases todo
    {
      var k :| k in todo;
      top := Max(top, carried[k]);
      todo := todo - {k};
    }
  }

  /** The acts that follow the repeat of a standing condition. */
  function AfterRepeat(k: Key, mode: Mode, inside: bool): seq<Act> {
    if mode.Replay? then (if inside then [] else [Change(k, Undecide)])
    else if inside then [Change(k, Suppress)]
    else [Change(k, Edit.Announce(false))]
  }

  class Engine {
    var items: map<Key, Item>
    var acks: Acks
    var consumed: map<(Origin, Source), nat>
    var gaps: seq<Gap>
    var pending: map<QuestionId, Wait>
    var quiet: Option<QuietHours>
    var dropped: nat
    var nextAnnouncement: nat
    var nextRevision: nat
    var finalised: set<SessionId>
    const digest: Subject -> nat

    ghost function State(): Core
      reads this
    {
      Core(items, consumed, gaps, pending, quiet, dropped, nextAnnouncement, nextRevision, finalised, digest)
    }

    /** Every item is filed under its own key. */
    ghost predicate Valid()
      reads this
    {
      forall k :: k in items ==> items[k].key == k
    }

    constructor (digest: Subject -> nat)
      ensures Valid() && State() == Fresh(digest) && acks == map[]
    {
      items, acks, consumed, gaps, pending := map[], map[], map[], [], map[];
      quiet, dropped, nextAnnouncement, nextRevision, finalised := None, 0, 0, 0, {};
      this.digest := digest;
    }

    // ---- announcing ------------------------------------------------------------------------

    method Announce(k: Key, r: Reading, released: bool) returns (outs: seq<Outcome>)
      requires Valid()
      modifies this
      ensures Valid() && acks == old(acks)
      ensures State() == Apply(old(State()), Change(k, Edit.Announce(released)), r)
      ensures outs == Outcomes(Note(old(State()), Change(k, Edit.Announce(released)), r))
    {
      if k !in items { return []; }
      var isQuiet := QuietAt(quiet, r);
      var item := items[k];
      var ann := item.ann.(since := Some(Starting(r)), lastNotified := Some(r.wall));
      var heldOverAnUntakenOne := isQuiet && ann.pending.Some?;
      if !released && !heldOverAnUntakenOne {
        ann := ann.(decidedAt := Some(r.wall), decidedPrivacy := r.privacy);
      }
      ann := ann.(anchor := Some(r.Anchored()));
      if isQuiet {
        items := items[k := item.(ann := ann.(deferred := true, notification := Held))];
        return [Deferred(k, item.level)];
      }
      nextAnnouncement := nextAnnouncement + 1;
      ann := ann.(deferred := false, notification := Delivered, level := Some(item.level), count := ann.count + 1);
      items := items[k := item.(ann := ann.(pending := Some(nextAnnouncement)))];
      if released {
        outs := [Released(k, item.level, item.about.routing)];
      } else {
        outs := [Notified(k, item.level, item.about.routing)];
      }
    }

    /** Drops every actor's acknowledgement of one key. */
    method ForgetAcks(k: Key)
      modifies this`acks
      ensures acks == Without(old(acks), k)
    {
      acks := map a | a in acks :: acks[a] - {k};
    }

    /** Takes an item out of the inbox, and every acknowledgement of it. */
    method Remove(k: Key)
      requires Valid()
      modifies this`items, this`acks
      ensures Valid() && items == old(items) - {k} && acks == Without(old(acks), k)
    {
      items := items - {k};
      ForgetAcks(k);
    }

    method LetGo(k: Key, ghost r: Reading)
      requires Valid() && k in items
      modifies this
      ensures Valid() && acks == Without(old(acks), k)
      ensures State() == Apply(old(State()), Leave(k, Drop), r)
    {
      Remove(k);
      dropped := dropped + 1;
    }

    method EnforceBound(r: Reading) returns (outs: seq<Outcome>)
      requires Valid()
      modifies this
      ensures Valid()
      ensures Did(old(State()), old(acks), BoundActs(old(State()), r), r, State(), acks, outs)
    {
      ghost var c0, a0, all := State(), acks, BoundActs(State(), r);
      outs := [];
      while |items| > MAX_ITEMS
        invariant Valid()
        invariant Remains(c0, a0, all, r, outs, State(), acks, BoundActs(State(), r))
        decreases |items|
      {
        var victim := PickVictim(r);
        if victim.None? { break; }
        LetOneMoreGo(c0, a0, all, r, outs, State(), acks, victim.value);
        LetGo(victim.value, r);
        outs := outs + [Dropped(victim.value)];
      }
      assert BoundActs(State(), r) == [];
      NothingRemains(c0, a0, all, r, outs, State(), acks);
    }

    /** The least urgent, then oldest, then first-named item that is no work in flight. */
    method PickVictim(r: Reading) returns (victim: Option<Key>)
      requires Valid() && |items| > MAX_ITEMS
      ensures victim == Victim(State(), r)
    {
      var droppable := set k | k in items && Droppable(items[k], r);
      ghost var c := State();
      if droppable == {} {
        assert forall k :: k in items && Droppable(items[k], r) ==> k in droppable;
        return None;
      }
      ghost var some :| some in droppable;
      VictimExists(c, r, some);
      ghost var least :| IsVictim(c, r, least);
      assert least in droppable;
      var k :| k in droppable && forall x :: x in droppable ==> LexLe(VictimRank(items[k]), VictimRank(items[x]));
      assert IsVictim(c, r, k);
      VictimUnique(c, r, k, Victim(c, r).value);
      return Some(k);
    }

    method Raise(raise: Raise, r: Reading, mode: Mode) returns (outs: seq<Outcome>)
      requires Valid()
      modifies this
      ensures Valid()
      ensures Did(old(State()), old(acks), RaiseActs(old(State()), raise, r, mode), r, State(), acks, outs)
    {
      if raise.key in items {
        outs := RaiseAgain(raise, r, mode);
      } else {
        outs := RaiseFresh(raise, r, mode);
      }
    }

    method RaiseAgain(raise: Raise, r: Reading, mode: Mode) returns (outs: seq<Outcome>)
      requires Valid() && raise.key in items
      modifies this
      ensures Valid()
      ensures Did(old(State()), old(acks), RaiseActs(old(State()), raise, r, mode), r, State(), acks, outs)
    {
      var k := raise.key;
      ghost var c0, a0, repeat := State(), acks, Change(k, Repeat(raise));
      var inside := Inside(items[k], r);
      DidOne(c0, a0, repeat, r);
      outs := RepeatItem(raise, r);
      ghost var c1, first := State(), outs;
      var said := FollowUp(k, r, mode, inside);
      DidThen(c0, a0, [repeat], r, c1, a0, first, AfterRepeat(k, mode, inside), State(), acks, said);
      outs := outs + said;
    }

    /** What a repeat of a standing condition is followed by: folded into the item inside its window,
        announced outside it when live, and left undecided there when replayed. */
    method FollowUp(k: Key, r: Reading, mode: Mode, inside: bool) returns (outs: seq<Outcome>)
      requires Valid() && k in items
      modifies this
      ensures Valid()
      ensures Did(old(State()), old(acks), AfterRepeat(k, mode, inside), r, State(), acks, outs)
    {
      if mode.Replay? && inside {
        DidNothing(State(), acks, r);
        return [];
      }
      if !inside && mode.Live? {
        outs := AnnounceOne(k, false, r);
        return;
      }
      var ann := items[k].ann;
      var edit := if inside then Suppress else Undecide;
      DidOne(State(), acks, Change(k, edit), r);
      SetAnnouncing(k, if inside then ann.(notification := Suppressed)
                       else ann.(since := None, lastNotified := None, level := None, notification := Undecided));
      return [];
    }

    method SetAnnouncing(k: Key, ann: Announcing)
      requires Valid() && k in items
      modifies this`items
      ensures Valid() && State() == old(State()).(items := old(items)[k := old(items)[k].(ann := ann)])
    {
      items := items[k := items[k].(ann := ann)];
    }

    method RepeatItem(raise: Raise, ghost r: Reading) returns (outs: seq<Outcome>)
      requires Valid() && raise.key in items
      modifies this`items, this`nextRevision
      ensures Valid() && items.Keys == old(items).Keys
      ensures State() == Apply(old(State()), Change(raise.key, Repeat(raise)), r)
      ensures outs == Outcomes(Note(old(State()), Change(raise.key, Repeat(raise)), r))
    {
      nextRevision := nextRevision + 1;
      items := items[raise.key := RepeatedItem(items[raise.key], raise, nextRevision)];
      outs := [Repeated(raise.key, items[raise.key].occurrences)];
    }

    method RaiseFresh(raise: Raise, r: Reading, mode: Mode) returns (outs: seq<Outcome>)
      requires Valid() && raise.key !in items
      modifies this
      ensures Valid()
      ensures Did(old(State()), old(acks), RaiseActs(old(State()), raise, r, mode), r, State(), acks, outs)
    {
      var k := raise.key;
      ghost var c0, a0 := State(), acks;
      outs := EnterItem(raise, r);
      ghost var c1, a1, first := State(), acks, outs;
      var let := EnforceBound(r);
      ghost var c2, a2 := State(), acks;
      DidThen(c0, a0, [Enter(raise)], r, c1, a1, first, BoundActs(c1, r), c2, a2, let);
      outs := outs + let;
      BoundSpares(c1, r, k);
      if mode.Live? && k in items {
        var said := AnnounceOne(k, false, r);
        DidThen(c0, a0, [Enter(raise)] + BoundActs(c1, r), r, c2, a2, outs, [Change(k, Edit.Announce(false))], State(), acks, said);
        outs := outs + said;
      } else {
        assert [Enter(raise)] + BoundActs(c1, r) + [] == [Enter(raise)] + BoundActs(c1, r);
      }
    }

    method EnterItem(raise: Raise, r: Reading) returns (outs: seq<Outcome>)
      requires Valid() && raise.key !in items
      modifies this`items, this`acks, this`nextRevision
      ensures Valid() && raise.key in items && State() == Apply(old(State()), Enter(raise), r)
      ensures Did(old(State()), old(acks), [Enter(raise)], r, State(), acks, outs)
    {
      DidOne(State(), acks, Enter(raise), r);
      ForgetAcks(raise.key);
      nextRevision := nextRevision + 1;
      var item := FreshItem(raise, nextRevision, r);
      items := items[raise.key := item];
      outs := [Raised(raise.key, raise.key.rule, item.level)];
    }

    method Resolve(k: Key, ghost r: Reading) returns (outs: seq<Outcome>)
      requires Valid()
      modifies this
      ensures Valid()
      ensures Did(old(State()), old(acks), ResolveActs(old(State()), k), r, State(), acks, outs)
    {
      ghost var c0, a0 := State(), acks;
      if k !in items {
        DidNothing(c0, a0, r);
        return [];
      }
      Remove(k);
      DidOne(c0, a0, Leave(k, Leaving.Resolve), r);
      return [Resolved(k)];
    }

    // ---- consuming events ------------------------------------------------------------------

    method NoteGap(gap: Gap, ghost r: Reading) returns (outs: seq<Outcome>)
      requires Valid()
      modifies this
      ensures Valid()
      ensures Did(old(State()), old(acks), NoteGapActs(old(State()), gap), r, State(), acks, outs)
    {
      DidNothing(State(), acks, r);
      if gap.to.Some? && gap.to.value <= gap.from { return []; }
      if gap in gaps { return []; }
      DidOne(State(), acks, RecordGap(gap), r);
      WriteGap(gap);
      return [GapRecorded(gap)];
    }

    /** Writes a range down, marks what it could have resolved, and moves the cursor past it. */
    method WriteGap(gap: Gap)
      requires Valid()
      modifies this
      ensures Valid() && acks == old(acks) && State() == GapNoted(old(State()), gap)
    {
      gaps := gaps + [gap];
      if |gaps| > MAX_GAPS { gaps := gaps[1..]; }
      items := map k | k in items ::
        if items[k].about.origin == gap.origin && items[k].about.source == gap.source
        then items[k].(uncertain := true) else items[k];
      if gap.to.Some? {
        var at := (gap.origin, gap.source);
        var before := if at in consumed then consumed[at] else 0;
        consumed := consumed[at := Max(before, Monus(gap.to.value, 1))];
      }
    }

    /** Keeps the pending requests inside their bound without taking one still owed its reminder. */
    method BoundPendingInputs(keep: QuestionId, ghost r: Reading)
      requires Valid()
      modifies this
      ensures Valid()
      ensures Did(old(State()), old(acks), PendingBoundActs(old(State()), keep, r), r, State(), acks, [])
    {
      ghost var c0, a0, all := State(), acks, PendingBoundActs(State(), keep, r);
      while |pending| >= MAX_PENDING
        invariant Valid()
        invariant Remains(c0, a0, all, r, [], State(), acks, PendingBoundActs(State(), keep, r))
        decreases |pending|
      {
        var oldest := PickOldest(keep);
        if oldest.None? { break; }
        ForgetOneMore(c0, a0, all, r, [], State(), acks, keep, oldest.value);
        pending := pending - {oldest.value};
      }
      assert PendingBoundActs(State(), keep, r) == [];
      NothingRemains(c0, a0, all, r, [], State(), acks);
    }

    /** The longest pending of the requests already reminded of, but for one. */
    method PickOldest(keep: QuestionId) returns (oldest: Option<QuestionId>)
      requires |pending| >= MAX_PENDING
      ensures oldest == Oldest(State(), keep)
    {
      var spent := set q | q in pending && q != keep && pending[q].reminded;
      ghost var c := State();
      if spent == {} {
        assert forall q :: q in c.pending && Forgettable(c, keep, q) ==> q in spent;
        return None;
      }
      ghost var some :| some in spent;
      OldestExists(c, keep, some);
      ghost var least :| IsOldest(c, keep, least);
      assert least in spent;
      assert forall x :: x in spent ==> Forgettable(c, keep, x);
      var q :| q in spent && forall x :: x in spent ==> LexLe([pending[q].since, q], [pending[x].since, x]);
      assert IsOldest(c, keep, q);
      OldestUnique(c, keep, q, Oldest(c, keep).value);
      return Some(q);
    }

    method Consume(e: Event, r: Reading, mode: Mode) returns (outs: seq<Outcome>)
      requires Valid()
      modifies this
      ensures Valid()
      ensures Did(old(State()), old(acks), ConsumeActs(old(State()), e, r, mode), r, State(), acks, outs)
    {
      ghost var c0, a0 := State(), acks;
      DidNothing(c0, a0, r);
      outs := [];
      var at := (e.cursor.origin, e.cursor.source);
      if e.cursor.origin.Session? && e.cursor.origin.id in finalised { return; }
      if at in consumed && e.cursor.sequence <= consumed[at] { return; }
      outs := NoteMissed(e.cursor, r);
      ghost var c1, a1, missed := State(), acks, outs;
      var said := Decide(e, r, mode);
      DidThen(c0, a0, MissedActs(c0, e.cursor), r, c1, a1, missed, DecideActs(c1, e, r, mode), State(), acks, said);
      outs := outs + said;
    }

    /** Records the range between the last record consumed and this one, where the source numbers them all. */
    method NoteMissed(cursor: Cursor, r: Reading) returns (outs: seq<Outcome>)
      requires Valid()
      modifies this
      ensures Valid()
      ensures Did(old(State()), old(acks), MissedActs(old(State()), cursor), r, State(), acks, outs)
    {
      var at := (cursor.origin, cursor.source);
      var next := if at in consumed then consumed[at] + 1 else 1;
      if NumbersEveryRecord(cursor.source) && cursor.sequence > next {
        outs := NoteGap(Gap(cursor.origin, cursor.source, next, Some(cursor.sequence)), r);
      } else {
        DidNothing(State(), acks, r);
        outs := [];
      }
    }

    /** Moves the cursor past a record that asks nothing. */
    method Take(cursor: Cursor, ghost r: Reading)
      requires Valid()
      modifies this`consumed
      ensures State() == Apply(old(State()), Advance(cursor, None), r)
      ensures Did(old(State()), acks, [Advance(cursor, None)], r, State(), acks, [])
    {
      DidOne(State(), acks, Advance(cursor, None), r);
      consumed := consumed[(cursor.origin, cursor.source) := cursor.sequence];
    }

    method Decide(e: Event, r: Reading, mode: Mode) returns (outs: seq<Outcome>)
      requires Valid()
      modifies this
      ensures Valid()
      ensures Did(old(State()), old(acks), DecideActs(old(State()), e, r, mode), r, State(), acks, outs)
    {
      var plan := PlanOf(digest, e);
      ghost var c0, a0 := State(), acks;
      match plan
      case Nothing =>
        Take(e.cursor, r);
        outs := [];
      case RaiseOne(raise) =>
        Take(e.cursor, r);
        ghost var c1 := State();
        assert c1 == Apply(c0, Advance(e.cursor, None), r);
        outs := Raise(raise, r, mode);
        DidThen(c0, a0, [Advance(e.cursor, None)], r, c1, a0, [], RaiseActs(c1, raise, r, mode), State(), acks, outs);
        assert [] + outs == outs;
      case EndOne(k) =>
        Take(e.cursor, r);
        ghost var c1 := State();
        outs := Resolve(k, r);
        DidThen(c0, a0, [Advance(e.cursor, None)], r, c1, a0, [], ResolveActs(c1, k), State(), acks, outs);
        assert [] + outs == outs;
      case AskOne(_, _, _, _, _) =>
        outs := Ask(e.cursor, plan, r, mode);
      case AnswerOne(q, asked, reminder) =>
        outs := TakeAnswer(e.cursor, q, asked, reminder, r);
    }

    method Ask(cursor: Cursor, plan: Plan, r: Reading, mode: Mode) returns (outs: seq<Outcome>)
      requires Valid() && plan.AskOne?
      modifies this
      ensures Valid()
      ensures Did(old(State()), old(acks), PlanActs(old(State()), cursor, plan, r, mode), r, State(), acks, outs)
    {
      ghost var c0, a0, bound := State(), acks, PendingBoundActs(State(), plan.question, r);
      BoundPendingInputs(plan.question, r);
      ghost var c1, a1 := State(), acks;
      var waited := Waited(plan.anchor, r);
      var wait := Wait(plan.session, cursor, plan.since, Elapsed(waited, r.ms), false, Some(AnchorOf(waited, r)));
      ghost var took := Advance(cursor, Some(AskedBy(cursor, plan, r)));
      DidOne(c1, a1, took, r);
      consumed := consumed[(cursor.origin, cursor.source) := cursor.sequence];
      pending := pending[plan.question := wait];
      ghost var c2 := State();
      assert c2 == Apply(c1, took, r);
      DidThen(c0, a0, bound, r, c1, a1, [], [took], c2, a1, []);
      outs := Raise(plan.raise, r, mode);
      DidThen(c0, a0, bound + [took], r, c2, a1, [], RaiseActs(c2, plan.raise, r, mode), State(), acks, outs);
      assert [] + outs == outs;
    }

    method TakeAnswer(cursor: Cursor, q: QuestionId, asked: Key, reminder: Key, r: Reading) returns (outs: seq<Outcome>)
      requires Valid() && asked != reminder
      modifies this
      ensures Valid()
      ensures Did(old(State()), old(acks), PlanActs(old(State()), cursor, AnswerOne(q, asked, reminder), r, Live), r, State(), acks, outs)
    {
      ghost var c0, a0 := State(), acks;
      Take(cursor, r);
      ghost var c1 := State();
      DidOne(c1, a0, Unask(q, true), r);
      pending := pending - {q};
      ghost var c2 := State();
      assert c2 == Apply(c1, Unask(q, true), r);
      outs := ResolveBoth(asked, reminder, r);
      ghost var ends := ResolveActs(c0, asked) + ResolveActs(c0, reminder);
      assert c2.items == c0.items;
      DidThen(c1, a0, [Unask(q, true)], r, c2, a0, [], ends, State(), acks, outs);
      assert [] + outs == outs;
      DidThen(c0, a0, [Advance(cursor, None)], r, c1, a0, [], [Unask(q, true)] + ends, State(), acks, outs);
      AnswerInOrder(c0, cursor, q, asked, reminder, r);
    }

    method ResolveBoth(asked: Key, reminder: Key, ghost r: Reading) returns (outs: seq<Outcome>)
      requires Valid() && asked != reminder
      modifies this
      ensures Valid()
      ensures Did(old(State()), old(acks), ResolveActs(old(State()), asked) + ResolveActs(old(State()), reminder), r, State(), acks, outs)
    {
      ghost var c0, a0 := State(), acks;
      outs := Resolve(asked, r);
      ghost var c1, a1, first := State(), acks, outs;
      ResolveEnabled(c0, asked, r);
      assert ResolveActs(c1, reminder) == ResolveActs(c0, reminder);
      var said := Resolve(reminder, r);
      DidThen(c0, a0, ResolveActs(c0, asked), r, c1, a1, first, ResolveActs(c1, reminder), State(), acks, said);
      outs := outs + said;
    }

    // ---- a tick ----------------------------------------------------------------------------

    method FireIdleReminders(r: Reading, certified: map<Origin, nat>) returns (outs: seq<Outcome>)
      requires Valid()
      modifies this
      ensures Valid()
      ensures var due := SortedQuestions(DueQuestions(old(State()), r, certified));
              Did(old(State()), old(acks), RemindActs(old(State()), due, r, certified), r, State(), acks, outs)
    {
      ghost var c0, a0 := State(), acks;
      var due := set q | q in pending && ReminderIsDue(q, r, certified);
      assert due == DueQuestions(c0, r, certified);
      ghost var all := RemindActs(c0, SortedQuestions(due), r, certified);
      var todo, waits := due, pending;
      outs := [];
      while todo != {}
        invariant Valid() && todo <= due
        invariant finalised == c0.finalised
        invariant forall q :: q in todo ==> q in pending && q in waits && pending[q] == waits[q] && waits[q] == c0.pending[q]
        invariant Remains(c0, a0, all, r, outs, State(), acks, RemindActs(State(), SortedQuestions(todo), r, certified))
        decreases todo
      {
        LeastQuestionExists(todo);
        var q :| q in todo && forall x :: x in todo ==> q <= x;
        ghost var c, a := State(), acks;
        StillDue(c0, c, r, certified, q);
        var more := Remind(q, waits[q], r, certified);
        RemindGoesOn(c0, a0, all, r, outs, c, a, todo, q, certified, State(), acks, more);
        outs := outs + more;
        todo := todo - {q};
      }
      assert SortedQuestions(todo) == [];
      NothingRemains(c0, a0, all, r, outs, State(), acks);
    }

    predicate ReminderIsDue(q: QuestionId, r: Reading, certified: map<Origin, nat>)
      requires q in pending
      reads this
    {
      var origin := pending[q].record.origin;
      !pending[q].reminded &&
      (if origin.Session? && origin.id in finalised then pending[q].waited.Ms(r) >= IDLE_REMINDER_MS
       else origin in certified && pending[q].waited.Ms(r.AtOrBefore(certified[origin])) >= IDLE_REMINDER_MS)
    }

    /** Fires one reminder, and marks its request so that it fires once. */
    method Remind(q: QuestionId, wait: Wait, r: Reading, ghost certified: map<Origin, nat>) returns (outs: seq<Outcome>)
      requires Valid() && q in pending && pending[q] == wait && ReminderDue(State(), r, certified, q)
      modifies this
      ensures Valid() && finalised == old(finalised)
      ensures pending == old(pending)[q := wait.(reminded := true)]
      ensures Did(old(State()), old(acks), RemindOneActs(old(State()), q, r, certified), r, State(), acks, outs)
    {
      ghost var c0, a0 := State(), acks;
      ghost var act := Act.Remind(q, CertifiedAt(c0, r, certified, wait.record.origin).value);
      DidOne(c0, a0, act, r);
      pending := pending[q := wait.(reminded := true)];
      ghost var c1 := State();
      assert c1 == Apply(c0, act, r);
      var raise := ReminderOf(digest, q, wait.session, wait.record, r);
      RaiseAddsOnly(c1, raise, r);
      outs := Raise(raise, r, Live);
      DidThen(c0, a0, [act], r, c1, a0, [], RaiseActs(c1, raise, r, Live), State(), acks, outs);
      assert [] + outs == outs;
    }

    function CertifiedFor(r: Reading, certified: map<Origin, nat>, origin: Origin): (at: Option<Reading>)
      reads this
      ensures at == CertifiedAt(State(), r, certified, origin)
    {
      if origin.Session? && origin.id in finalised then Some(r)
      else if origin in certified then Some(r.AtOrBefore(certified[origin]))
      else None
    }

    /** Settles every item's level against its origin's certified reading. */
    method Climb(r: Reading, certified: map<Origin, nat>) returns (outs: seq<Outcome>)
      requires Valid()
      modifies this`items
      ensures Valid()
      ensures Did(old(State()), old(acks), ClimbActs(old(State()), SortedKeys(old(State()).items.Keys), r, certified), r, State(), acks, outs)
    {
      ghost var c0, a0 := State(), acks;
      ghost var all := ClimbActs(c0, SortedKeys(c0.items.Keys), r, certified);
      var todo := items.Keys;
      outs := [];
      while todo != {}
        invariant Valid() && todo <= items.Keys && todo <= c0.items.Keys
        invariant forall k :: k in todo ==> items[k] == c0.items[k]
        invariant Remains(c0, a0, all, r, outs, State(), acks, ClimbActs(c0, SortedKeys(todo), r, certified))
        decreases todo
      {
        LeastKeyExists(todo);
        var k :| k in todo && forall x :: x in todo ==> KeyLe(k, x);
        ghost var c, a := State(), acks;
        var more := ClimbItem(k, r, certified);
        ClimbGoesOn(c0, a0, all, r, outs, c, a, todo, k, certified, State(), acks, more);
        outs := outs + more;
        todo := todo - {k};
      }
      assert SortedKeys(todo) == [];
      NothingRemains(c0, a0, all, r, outs, State(), acks);
    }

    method ClimbItem(k: Key, r: Reading, certified: map<Origin, nat>) returns (outs: seq<Outcome>)
      requires Valid() && k in items
      modifies this`items
      ensures Valid() && items.Keys == old(items).Keys && forall x :: x in items && x != k ==> items[x] == old(items)[x]
      ensures Did(old(State()), acks, ClimbAct(old(State()), k, r, certified), r, State(), acks, outs)
    {
      var reached := Reached(k, r, certified);
      if reached.None? {
        DidNothing(State(), acks, r);
        return [];
      }
      DidOne(State(), acks, Change(k, Edit.Climb(reached.value.0, reached.value.1)), r);
      outs := [Escalated(k, items[k].level, reached.value.0)];
      TakeStep(k, reached.value.0, reached.value.1, r);
    }

    /** How far an item has climbed, when that is further than it stands. */
    method Reached(k: Key, r: Reading, certified: map<Origin, nat>) returns (reached: Option<(Level, nat)>)
      requires Valid() && k in items
      ensures reached == ClimbOf(State(), k, r, certified)
    {
      var at := CertifiedFor(r, certified, items[k].about.origin);
      if at.None? { return None; }
      var level, taken := ReadLadder(Policy(k.rule), items[k].age.Ms(at.value));
      return if taken > items[k].steps then Some((level, taken)) else None;
    }

    method TakeStep(k: Key, level: Level, taken: nat, ghost r: Reading)
      requires Valid() && k in items
      modifies this`items
      ensures Valid() && items.Keys == old(items).Keys && forall x :: x in items && x != k ==> items[x] == old(items)[x]
      ensures State() == Apply(old(State()), Change(k, Edit.Climb(level, taken)), r)
    {
      items := items[k := items[k].(level := level, steps := taken)];
    }

    /** Makes at most one announcement decision for each item whose origin the host has certified. */
    method AnnounceDue(r: Reading, certified: map<Origin, nat>) returns (outs: seq<Outcome>)
      requires Valid()
      modifies this
      ensures Valid()
      ensures Did(old(State()), old(acks), DueActs(old(State()), SortedKeys(old(State()).items.Keys), r, certified), r, State(), acks, outs)
    {
      var due := ListDue(r, certified);
      ghost var c0, a0 := State(), acks;
      outs := [];
      DidNothing(c0, a0, r);
      for i := 0 to |due|
        invariant Valid()
        invariant Did(c0, a0, AnnounceActs(due[..i]), r, State(), acks, outs)
      {
        ghost var c, a, said := State(), acks, outs;
        var more := AnnounceOne(due[i].0, due[i].1, r);
        AnnouncedUpTo(due, i);
        DidThen(c0, a0, AnnounceActs(due[..i]), r, c, a, said, [Change(due[i].0, Edit.Announce(due[i].1))], State(), acks, more);
        outs := outs + more;
      }
      assert due[..|due|] == due;
    }

    method AnnounceOne(k: Key, released: bool, r: Reading) returns (outs: seq<Outcome>)
      requires Valid()
      modifies this
      ensures Valid()
      ensures Did(old(State()), old(acks), [Change(k, Edit.Announce(released))], r, State(), acks, outs)
    {
      DidOne(State(), acks, Change(k, Edit.Announce(released)), r);
      outs := Announce(k, r, released);
    }

    method ListDue(r: Reading, certified: map<Origin, nat>) returns (due: seq<(Key, bool)>)
      requires Valid()
      ensures AnnounceActs(due) == DueActs(State(), SortedKeys(items.Keys), r, certified)
    {
      ghost var all := DueActs(State(), SortedKeys(items.Keys), r, certified);
      var todo := items.Keys;
      due := [];
      while todo != {}
        invariant todo <= items.Keys
        invariant AnnounceActs(due) + DueActs(State(), SortedKeys(todo), r, certified) == all
        decreases todo
      {
        LeastKeyExists(todo);
        var k :| k in todo && forall x :: x in todo ==> KeyLe(k, x);
        DueGoesOn(State(), todo, k, r, certified, due, all);
        var now := DueFor(k, r, certified);
        if now.Some? { due := due + [(k, now.value)]; }
        todo := todo - {k};
      }
      assert SortedKeys(todo) == [];
      assert AnnounceActs(due) + [] == AnnounceActs(due);
    }

    function DueFor(k: Key, r: Reading, certified: map<Origin, nat>): (due: Option<bool>)
      requires k in items
      reads this
      ensures due == DueNow(State(), k, r, certified)
    {
      var item, policy := items[k], Policy(k.rule);
      var at := CertifiedFor(r, certified, item.about.origin);
      if at.None? then None
      else if item.ann.deferred then (if QuietAt(quiet, r) then None else Some(true))
      else if item.ann.since.None? then Some(false)
      else
        var ran := item.ann.since.value.Ms(at.value);
        if (item.ann.level != Some(item.level) || (policy.repeatMs.Some? && ran >= policy.repeatMs.value))
           && ran >= policy.dedupMs
        then Some(false) else None
    }

    method Tick(r: Reading, certified: map<Origin, nat>) returns (outs: seq<Outcome>)
      requires Valid()
      modifies this
      ensures Valid()
      ensures Did(old(State()), old(acks), TickActs(old(State()), r, certified), r, State(), acks, outs)
    {
      ghost var c0, a0 := State(), acks;
      ghost var p := Passes(c0, r, certified);
      ghost var b1 := RemindActs(c0, SortedQuestions(DueQuestions(c0, r, certified)), r, certified);
      outs := FireIdleReminders(r, certified);
      ghost var a1, o1 := acks, outs;
      ghost var b2 := ClimbActs(p.reminded, SortedKeys(p.reminded.items.Keys), r, certified);
      var more := Climb(r, certified);
      DidThen(c0, a0, b1, r, p.reminded, a1, o1, b2, State(), acks, more);
      outs := outs + more;
      ghost var a2, o2 := acks, outs;
      ghost var b3 := DueActs(p.climbed, SortedKeys(p.climbed.items.Keys), r, certified);
      more := AnnounceDue(r, certified);
      DidThen(c0, a0, b1 + b2, r, p.climbed, a2, o2, b3, State(), acks, more);
      outs := outs + more;
      ghost var a3, o3 := acks, outs;
      more := EnforceBound(r);
      DidThen(c0, a0, b1 + b2 + b3, r, p.decided, a3, o3, BoundActs(p.decided, r), State(), acks, more);
      outs := outs + more;
    }

    // ---- the host's other calls ------------------------------------------------------------

    method SetQuietHours(quiet: Option<QuietHours>)
      modifies this`quiet
      ensures forall r :: State() == Apply(old(State()), SetQuiet(quiet), r)
    {
      this.quiet := quiet;
    }

    method StartFrom(origin: Origin, source: Source, sequence: nat)
      modifies this`consumed
      ensures forall r :: State() == Apply(old(State()), Skip(origin, source, sequence), r)
    {
      var at := (origin, source);
      var stood := if at in consumed then consumed[at] else sequence;
      consumed := consumed[at := Max(stood, sequence)];
    }

    /** Ends the live conditions of a session that has closed, and nothing else of it. */
    method Finalise(session: SessionId, ghost r: Reading) returns (outs: seq<Outcome>)
      requires Valid()
      modifies this
      ensures Valid()
      ensures Did(old(State()), old(acks), FinaliseActs(old(State()), session), r, State(), acks, outs)
    {
      ghost var c0, a0 := State(), acks;
      var ending := set k | k in items && EndsWith(items[k], session);
      DidOne(c0, a0, Close(session), r);
      CloseSession(session, r);
      ghost var c1 := State();
      outs := EndItems(ending, r);
      DidThen(c0, a0, [Close(session)], r, c1, a0, [], EndActs(SortedKeys(ending)), State(), acks, outs);
      assert [] + outs == outs;
    }

    method EndItems(ended: set<Key>, ghost r: Reading) returns (outs: seq<Outcome>)
      requires Valid() && ended <= items.Keys
      modifies this`items, this`acks
      ensures Valid()
      ensures Did(old(State()), old(acks), EndActs(SortedKeys(ended)), r, State(), acks, outs)
    {
      ghost var c0, a0, all := State(), acks, EndActs(SortedKeys(ended));
      var ending := ended;
      outs := [];
      AllRemains(c0, a0, all, r);
      while ending != {}
        invariant Valid() && ending <= items.Keys
        invariant Remains(c0, a0, all, r, outs, State(), acks, EndActs(SortedKeys(ending)))
        decreases ending
      {
        LeastKeyExists(ending);
        var k :| k in ending && forall x :: x in ending ==> KeyLe(k, x);
        EndGoesOn(c0, a0, all, r, outs, State(), acks, ending, k);
        EndItem(k);
        outs := outs + [Ended(k)];
        ending := ending - {k};
      }
      assert SortedKeys(ending) == [];
      NothingRemains(c0, a0, all, r, outs, State(), acks);
    }

    method EndItem(k: Key)
      requires Valid()
      modifies this`items, this`acks
      ensures Valid() && items == old(items) - {k} && acks == Without(old(acks), k)
      ensures State() == old(State()).(items := old(items) - {k})
    {
      Remove(k);
    }

    method CloseSession(session: SessionId, ghost r: Reading)
      modifies this`finalised, this`pending
      ensures State() == Apply(old(State()), Close(session), r)
    {
      finalised := finalised + {session};
      pending := map q | q in pending && pending[q].session != session && pending[q].record.origin != Session(session)
        :: pending[q];
    }

    /** Forgets the announcements a consumer has taken responsibility for, and no later ones. */
    method SettleAnnouncements(settled: seq<(Key, nat)>, ghost r: Reading)
      requires Valid()
      modifies this`items
      ensures Valid()
      ensures Did(old(State()), acks, SettleActs(old(State()), settled), r, State(), acks, [])
    {
      ghost var c0 := State();
      DidNothing(c0, acks, r);
      for i := 0 to |settled|
        invariant Valid() && items.Keys == c0.items.Keys
        invariant Did(c0, acks, SettleActs(c0, settled[..i]), r, State(), acks, [])
      {
        ghost var c := State();
        var k, number := settled[i].0, settled[i].1;
        SettleActsConcat(c0, settled[..i], settled[i]);
        assert settled[..i + 1] == settled[..i] + [settled[i]];
        SettleOne(k, number, r);
        if k in c.items {
          DidThenSilently(c0, acks, SettleActs(c0, settled[..i]), r, c, acks, [Change(k, Edit.Settle(number))], State(), acks);
        } else {
          assert SettleActs(c0, settled[..i]) + [] == SettleActs(c0, settled[..i]);
        }
      }
      assert settled[..|settled|] == settled;
    }

    method SettleOne(k: Key, number: nat, ghost r: Reading)
      requires Valid()
      modifies this`items
      ensures Valid() && items.Keys == old(items).Keys
      ensures k in items ==> Did(old(State()), acks, [Change(k, Edit.Settle(number))], r, State(), acks, [])
      ensures k !in items ==> State() == old(State())
    {
      if k in items {
        DidSettle(State(), acks, k, number, r);
        if items[k].ann.pending == Some(number) {
          items := items[k := items[k].(ann := items[k].ann.(pending := None))];
        }
      }
    }

    // ---- what callers see ------------------------------------------------------------------

    method DatedAt(item: Item) returns (at: Option<nat>)
      ensures at == Dated(State(), item)
    {
      if !item.about.rule.InputIdleReminder? { return Some(item.firstSeen); }
      if !item.about.text.Record? { return None; }
      var asked := set k | k in items && items[k].about.rule.PendingInput? && items[k].about.text == Record(item.about.text.cursor);
      assert asked == AskedIn(State(), item.about.text.cursor);
      if asked == {} { return None; }
      LeastKeyExists(asked);
      var k :| k in asked && forall x :: x in asked ==> KeyLe(k, x);
      forall x | LeastKey(asked, x) ensures x == k { LeastKeyUnique(asked, x, k); }
      return Some(items[k].firstSeen);
    }

    method IsShown(viewer: Viewer, item: Item) returns (shown: bool)
      ensures shown == ShownTo(State(), viewer, item)
    {
      var at := DatedAt(item);
      return viewer.Sees(item.about) && viewer.Reaches(at);
    }

    /** Records one actor's acknowledgement of each item it saw at the revision it stands at, or, when
        it names a revision the host never handed out, of none. */
    method Acknowledge(actor: ActorId, viewer: Viewer, requested: seq<(Key, nat)>, r: Reading)
      returns (refused: bool, acknowledged: seq<Key>, stale: seq<Key>)
      requires Valid()
      modifies this`acks
      ensures refused == Refused(State(), viewer, requested)
      ensures Did(State(), old(acks), AcknowledgeActs(State(), actor, viewer, requested), r, State(), acks, [])
      ensures !refused ==> acknowledged == AnswerKeys(State(), viewer, requested, true)
                           && stale == AnswerKeys(State(), viewer, requested, false)
    {
      DidNothing(State(), acks, r);
      acknowledged, stale := [], [];
      refused := NamesARevisionAhead(viewer, requested);
      if !refused {
        acknowledged, stale := RecordAcks(actor, viewer, requested, r);
      }
    }

    method NamesARevisionAhead(viewer: Viewer, requested: seq<(Key, nat)>) returns (ahead: bool)
      ensures ahead == Refused(State(), viewer, requested)
    {
      for i := 0 to |requested|
        invariant forall j :: 0 <= j < i ==> !Ahead(State(), viewer, requested[j])
      {
        var k, revision := requested[i].0, requested[i].1;
        if k in items {
          var shown := IsShown(viewer, items[k]);
          if shown && revision > items[k].revision {
            assert Ahead(State(), viewer, requested[i]);
            return true;
          }
        }
      }
      return false;
    }

    method StandsAt(viewer: Viewer, k: Key, revision: nat) returns (current: bool)
      ensures current == Current(State(), viewer, (k, revision))
    {
      current := false;
      if k in items {
        var shown := IsShown(viewer, items[k]);
        current := shown && items[k].revision == revision;
      }
    }

    method RecordAcks(actor: ActorId, viewer: Viewer, requested: seq<(Key, nat)>, r: Reading)
      returns (acknowledged: seq<Key>, stale: seq<Key>)
      modifies this`acks
      ensures Did(State(), old(acks), AckActs(State(), actor, viewer, requested), r, State(), acks, [])
      ensures acknowledged == AnswerKeys(State(), viewer, requested, true)
      ensures stale == AnswerKeys(State(), viewer, requested, false)
    {
      ghost var c, a0 := State(), acks;
      DidNothing(c, a0, r);
      acknowledged, stale := [], [];
      assert requested[..0] == [];
      for i := 0 to |requested|
        invariant Did(c, a0, AckActs(c, actor, viewer, requested[..i]), r, c, acks, [])
        invariant acknowledged == AnswerKeys(c, viewer, requested[..i], true)
        invariant stale == AnswerKeys(c, viewer, requested[..i], false)
      {
        var k, revision := requested[i].0, requested[i].1;
        AckActsConcat(c, actor, viewer, requested[..i], requested[i]);
        AnswerKeysConcat(c, viewer, requested[..i], requested[i], true);
        AnswerKeysConcat(c, viewer, requested[..i], requested[i], false);
        assert requested[..i + 1] == requested[..i] + [requested[i]];
        var current := StandsAt(viewer, k, revision);
        if current {
          ghost var a := acks;
          WriteAck(actor, k, revision, r);
          DidThenSilently(c, a0, AckActs(c, actor, viewer, requested[..i]), r, c, a, [Ack(actor, k, revision)], c, acks);
          acknowledged := acknowledged + [k];
        } else {
          assert AckActs(c, actor, viewer, requested[..i]) + [] == AckActs(c, actor, viewer, requested[..i]);
          stale := stale + [k];
        }
      }
      assert requested[..|requested|] == requested;
    }

    method WriteAck(actor: ActorId, k: Key, revision: nat, r: Reading)
      requires k in items
      modifies this`acks
      ensures Did(State(), old(acks), [Ack(actor, k, revision)], r, State(), acks, [])
    {
      DidOne(State(), acks, Ack(actor, k, revision), r);
      var own := if actor in acks then acks[actor] else map[];
      acks := acks[actor := own[k := ItemAck(revision, r.wall)]];
    }

    /** The host's own acknowledgement of an item at the revision it stands at. */
    method AcknowledgeCurrent(actor: ActorId, k: Key, r: Reading)
      modifies this`acks
      ensures Did(State(), old(acks), AcknowledgeCurrentActs(State(), actor, k), r, State(), acks, [])
    {
      DidNothing(State(), acks, r);
      if k in items { WriteAck(actor, k, items[k].revision, r); }
    }

    /** The announcements decided and not settled, among the items the host offers, in the order of their keys. */
    method TakeAnnouncements(offer: Item -> bool) returns (taken: seq<Announcement>)
      requires Valid()
      ensures forall a :: a in taken <==>
                && a.key in items && offer(items[a.key]) && items[a.key].ann.pending.Some?
                && a == AnnouncementOf(items[a.key])
      ensures forall i, j :: 0 <= i < j < |taken| ==> KeyLe(taken[i].key, taken[j].key) && taken[i].key != taken[j].key
    {
      taken := [];
      var todo := items.Keys;
      while todo != {}
        invariant todo <= items.Keys
        invariant forall a :: a in taken <==>
                    && a.key in items.Keys - todo && offer(items[a.key]) && items[a.key].ann.pending.Some?
                    && a == AnnouncementOf(items[a.key])
        invariant forall i, k :: 0 <= i < |taken| && k in todo ==> KeyLe(taken[i].key, k)
        invariant forall i, j :: 0 <= i < j < |taken| ==> KeyLe(taken[i].key, taken[j].key) && taken[i].key != taken[j].key
        decreases todo
      {
        LeastKeyExists(todo);
        var k :| k in todo && forall x :: x in todo ==> KeyLe(k, x);
        if offer(items[k]) && items[k].ann.pending.Some? {
          assert forall a :: a in taken ==> a.key != k;
          taken := taken + [AnnouncementOf(items[k])];
        }
        todo := todo - {k};
      }
    }

    /** The items one caller is sent, oldest first. */
    method Inbox(actor: ActorId, viewer: Viewer, all: bool, session: Option<SessionId>) returns (sent: seq<WireItem>)
      requires Valid()
      ensures IsInbox(sent, Listed(State(), acks, actor, viewer, all, session))
    {
      var listed := ListFor(actor, viewer, all, session);
      sent := OldestFirst(listed);
    }

    method ListFor(actor: ActorId, viewer: Viewer, all: bool, session: Option<SessionId>) returns (listed: set<WireItem>)
      requires Valid()
      ensures listed == Listed(State(), acks, actor, viewer, all, session)
    {
      listed := {};
      var todo := items.Keys;
      while todo != {}
        invariant todo <= items.Keys && listed <= Listed(State(), acks, actor, viewer, all, session)
        invariant forall k ::
                    (k in items.Keys - todo && ShownTo(State(), viewer, items[k])
                     && (session.Some? ==> items[k].SessionOf() == session)
                     && (all || !IsAcknowledged(acks, actor, items[k])))
                    ==> ToWire(items[k], IsAcknowledged(acks, actor, items[k])) in listed
        decreases todo
      {
        var k :| k in todo;
        var item := items[k];
        var shown := IsShown(viewer, item);
        var acknowledged := IsAcknowledged(acks, actor, item);
        if shown && (session.Some? ==> item.SessionOf() == session) && (all || !acknowledged) {
          listed := listed + {ToWire(item, acknowledged)};
        }
        todo := todo - {k};
      }
    }

    // ---- deadlines -------------------------------------------------------------------------

    method NextDeadline(r: Reading, only: Option<Origin>) returns (deadline: Option<nat>)
      ensures Earliest(Deadlines(State(), r, only), deadline)
    {
      deadline := NextReminder(only);
      deadline := ConsiderInbox(r, only, deadline, ReminderDeadlines(State(), only));
      assert ReminderDeadlines(State(), only) + InboxDeadlines(State(), r, only) == Deadlines(State(), r, only);
    }

    method ConsiderInbox(r: Reading, only: Option<Origin>, before: Option<nat>, ghost reminders: set<nat>)
      returns (deadline: Option<nat>)
      requires Earliest(reminders, before)
      ensures Earliest(reminders + InboxDeadlines(State(), r, only), deadline)
    {
      deadline := before;
      ghost var seen: set<nat> := {};
      assert reminders + seen == reminders;
      var todo := items.Keys;
      while todo != {}
        invariant todo <= items.Keys && Earliest(reminders + seen, deadline) && seen <= InboxDeadlines(State(), r, only)
        invariant forall k :: k in items.Keys - todo && Included(only, items[k].about.origin) ==> ItemDeadlines(State(), k, r) <= seen
        decreases todo
      {
        var k :| k in todo;
        if Included(only, items[k].about.origin) {
          deadline := ConsiderItem(k, r, deadline, reminders + seen);
          assert reminders + seen + ItemDeadlines(State(), k, r) == reminders + (seen + ItemDeadlines(State(), k, r));
          seen := seen + ItemDeadlines(State(), k, r);
        }
        todo := todo - {k};
      }
      assert seen == InboxDeadlines(State(), r, only);
    }

    method NextReminder(only: Option<Origin>) returns (deadline: Option<nat>)
      ensures Earliest(ReminderDeadlines(State(), only), deadline)
    {
      ghost var all := ReminderDeadlines(State(), only);
      ghost var seen: set<nat> := {};
      deadline := None;
      var waits := pending.Keys;
      while waits != {}
        invariant waits <= pending.Keys && Earliest(seen, deadline) && seen <= all
        invariant forall q :: q in pending.Keys - waits && Included(only, pending[q].record.origin) ==> WaitDeadlines(pending[q]) <= seen
        decreases waits
      {
        var q :| q in waits;
        if Included(only, pending[q].record.origin) && !pending[q].reminded {
          var due := pending[q].waited.DueAt(IDLE_REMINDER_MS);
          assert due in WaitDeadlines(pending[q]);
          SoonerIsEarliest(seen, deadline, due);
          deadline, seen := Sooner(deadline, due), seen + {due};
        }
        waits := waits - {q};
      }
      assert seen == all;
    }

    /** Everything one item waits for, considered in turn. */
    method ConsiderItem(k: Key, r: Reading, before: Option<nat>, ghost seen: set<nat>) returns (deadline: Option<nat>)
      requires k in items && Earliest(seen, before)
      ensures Earliest(seen + ItemDeadlines(State(), k, r), deadline)
    {
      var item, policy := items[k], Policy(k.rule);
      ghost var now := seen;
      deadline := before;
      if item.ann.deferred {
        var release := QuietRelease(quiet, r);
        var due := if release.Some? then release.value else r.ms;
        SoonerIsEarliest(now, deadline, due);
        deadline, now := Sooner(deadline, due), now + {due};
      }
      var next := NextStepAfter(policy, item.steps);
      if next.Some? {
        SoonerIsEarliest(now, deadline, item.age.DueAt(next.value));
        deadline, now := Sooner(deadline, item.age.DueAt(next.value)), now + {item.age.DueAt(next.value)};
      }
      if !(item.ann.deferred && QuietAt(quiet, r)) {
        ghost var rest := AnnouncementDeadlines(item, policy, r);
        deadline := ConsiderAnnouncement(item, policy, r, deadline, now);
        now := now + rest;
      }
      assert now == seen + ItemDeadlines(State(), k, r);
    }

    /** What an item that is not held back waits for before it is announced again. */
    static ghost function AnnouncementDeadlines(item: Item, policy: Rule, r: Reading): set<nat> {
      if item.ann.since.None? then {r.ms}
      else
        (if item.ann.level != Some(item.level) then {item.ann.since.value.DueAt(policy.dedupMs)} else {}) +
        (if policy.repeatMs.Some? then {item.ann.since.value.DueAt(policy.repeatMs.value)} else {})
    }

    static method ConsiderAnnouncement(item: Item, policy: Rule, r: Reading, before: Option<nat>, ghost seen: set<nat>)
      returns (deadline: Option<nat>)
      requires Earliest(seen, before)
      ensures Earliest(seen + AnnouncementDeadlines(item, policy, r), deadline)
    {
      deadline := before;
      ghost var now := seen;
      if item.ann.since.None? {
        SoonerIsEarliest(seen, deadline, r.ms);
        return Sooner(deadline, r.ms);
      }
      if item.ann.level != Some(item.level) {
        var due := item.ann.since.value.DueAt(policy.dedupMs);
        SoonerIsEarliest(now, deadline, due);
        deadline, now := Sooner(deadline, due), now + {due};
      }
      if policy.repeatMs.Some? {
        var due := item.ann.since.value.DueAt(policy.repeatMs.value);
        SoonerIsEarliest(now, deadline, due);
        deadline, now := Sooner(deadline, due), now + {due};
      }
      assert now == seen + AnnouncementDeadlines(item, policy, r);
    }

    // ---- restarts --------------------------------------------------------------------------

    /** Takes back what the store read, with both counters past every number it carries. */
    method Install(restored: Restored)
      modifies this
      ensures items == restored.items && acks == restored.acks && consumed == restored.consumed
      ensures gaps == restored.gaps && pending == restored.pending && quiet == restored.quiet
      ensures dropped == restored.dropped && finalised == restored.finalised
      ensures Highest(restored.nextAnnouncement, NumbersCarried(items), nextAnnouncement)
      ensures Highest(restored.nextRevision, RevisionsCarried(items), nextRevision)
    {
      TakeBack(restored);
      nextAnnouncement := HighestOf(restored.nextAnnouncement, NumbersCarried(items));
      nextRevision := HighestOf(restored.nextRevision, RevisionsCarried(items));
    }

    method TakeBack(restored: Restored)
      modifies this
      ensures items == restored.items && acks == restored.acks && consumed == restored.consumed
      ensures gaps == restored.gaps && pending == restored.pending && quiet == restored.quiet
      ensures dropped == restored.dropped && finalised == restored.finalised
    {
      items, acks, consumed, gaps := restored.items, restored.acks, restored.consumed, restored.gaps;
      pending, quiet, dropped, finalised := restored.pending, restored.quiet, restored.dropped, restored.finalised;
    }

    /** Measures every interval again from the anchors the store kept, and writes the anchors back. */
    method Reanchor(r: Reading)
      requires Valid()
      modifies this`items, this`pending
      ensures Valid() && State() == Reanchored(old(State()), r)
    {
      items := map k | k in items :: ReanchoredItem(items[k], r);
      pending := map q | q in pending :: ReanchoredWait(pending[q], r);
    }
  }

  /** Whatever the store read back, the next number the engine hands out is above every one it carries
      and every one it had handed out, and so is the next revision. */
  lemma {:induction false} InstallNeverReuses(restored: Restored, nextAnnouncement: nat, nextRevision: nat, k: Key)
    requires Highest(restored.nextAnnouncement, NumbersCarried(restored.items), nextAnnouncement)
    requires Highest(restored.nextRevision, RevisionsCarried(restored.items), nextRevision)
    ensures restored.nextAnnouncement < nextAnnouncement + 1 && restored.nextRevision < nextRevision + 1
    ensures k in restored.items ==> restored.items[k].revision < nextRevision + 1
    ensures k in restored.items && restored.items[k].ann.pending.Some? ==>
              restored.items[k].ann.pending.value < nextAnnouncement + 1
  {
    if k in restored.items {
      assert k in RevisionsCarried(restored.items);
      assert restored.items[k].ann.pending.Some? ==> k in NumbersCarried(restored.items);
    }
  }

  /** A faithful save comes back as it was: both counters are where the saved state left them. */
  lemma {:induction false} FaithfulRestore(c: Core, now: Reading, nextAnnouncement: nat, nextRevision: nat)
    requires Consistent(c, now)
    requires Highest(c.nextAnnouncement, NumbersCarried(c.items), nextAnnouncement)
    requires Highest(c.nextRevision, RevisionsCarried(c.items), nextRevision)
    ensures nextAnnouncement == c.nextAnnouncement && nextRevision == c.nextRevision
  {
    assert forall k :: k in NumbersCarried(c.items) ==> ItemNamed(c, k);
    assert forall k :: k in RevisionsCarried(c.items) ==> ItemNamed(c, k);
  }
}
