/** A caller learns nothing of what it is not shown: its inbox and the answers to its acknowledgements
    follow from the items it is shown and from its own acknowledgements alone. */
module Disclosure {
  import opened Common
  import opened Rules
  import opened Events
  import opened EngineModel
  import opened Scope

  /** An item as it is sent to one actor; a session's text is named by its record, never sent with it. */
  datatype WireItem = WireItem(
    key: Key, rule: RuleId, source: Source, level: Level, session: Option<SessionId>, trusted: bool,
    routing: Routing, occurrences: nat, firstSeen: nat, lastSeen: nat, notification: Notification,
    awaitingDelivery: bool, acknowledged: bool, uncertain: bool, revision: nat,
    automation: Option<AutomationSubject>, record: Option<Cursor>)

  function ToWire(item: Item, acknowledged: bool): WireItem {
    WireItem(item.key, item.about.rule, item.about.source, item.level, item.SessionOf(),
             Policy(item.about.rule).trusted, item.about.routing, item.occurrences, item.firstSeen, item.lastSeen,
             item.ann.notification, item.ann.pending.Some?, acknowledged, item.uncertain, item.revision,
             item.about.automation, item.about.text.RecordOf())
  }

  /** What one caller is sent: the items shown to it, of one session when it asks for one, and only
      what it has not acknowledged when it asks for that. */
  ghost function Listed(
    c: Core, acks: Acks, actor: ActorId, viewer: Viewer, all: bool, session: Option<SessionId>): set<WireItem>
  {
    set k | k in c.items && ShownTo(c, viewer, c.items[k])
            && (session.Some? ==> c.items[k].SessionOf() == session)
            && (all || !IsAcknowledged(acks, actor, c.items[k]))
      :: ToWire(c.items[k], IsAcknowledged(acks, actor, c.items[k]))
  }

  function WireRank(w: WireItem): seq<nat> {
    [w.firstSeen] + KeyRank(w.key)
  }

  /** Oldest first, and by key where two are equally old. */
  ghost predicate IsInbox(sent: seq<WireItem>, listed: set<WireItem>) {
    && (forall w :: w in sent <==> w in listed) && NoDuplicates(sent) && |sent| == |listed|
    && forall i, j :: 0 <= i < j < |sent| ==> LexLe(WireRank(sent[i]), WireRank(sent[j]))
  }

  /** Puts what is listed in the order it is sent. */
  method OldestFirst(listed: set<WireItem>) returns (sent: seq<WireItem>)
    ensures IsInbox(sent, listed)
  {
    var left := listed;
    sent := [];
    ghost var done := {};
    while left != {}
      invariant IsInbox(sent, done) && done !! left && done + left == listed && ComesAfter(sent, left)
      decreases left
    {
      var w := FirstToSend(left);
      OneMoreSent(sent, done, left, w);
      sent := sent + [w];
      left := left - {w};
      done := done + {w};
    }
  }

  method FirstToSend(left: set<WireItem>) returns (w: WireItem)
    requires left != {}
    ensures w in left && forall x :: x in left ==> LexLe(WireRank(w), WireRank(x))
  {
    ghost var least := LeastExists(left, WireRank);
    w :| w in left && forall x :: x in left ==> LexLe(WireRank(w), WireRank(x));
  }

  ghost predicate ComesAfter(sent: seq<WireItem>, left: set<WireItem>) {
    forall i, w :: 0 <= i < |sent| && w in left ==> LexLe(WireRank(sent[i]), WireRank(w))
  }

  lemma {:induction false} OneMoreSent(sent: seq<WireItem>, done: set<WireItem>, left: set<WireItem>, w: WireItem)
    requires IsInbox(sent, done) && ComesAfter(sent, left) && w in left && w !in done
    requires forall x :: x in left ==> LexLe(WireRank(w), WireRank(x))
    ensures IsInbox(sent + [w], done + {w}) && ComesAfter(sent + [w], left - {w})
  {
  }

  /** Two engines look alike to a caller: it is shown the same items and has acknowledged the same ones. */
  ghost predicate LookAlike(c: Core, acks: Acks, d: Core, others: Acks, actor: ActorId, viewer: Viewer) {
    && Shown(c, viewer) == Shown(d, viewer)
    && forall k :: k in Shown(c, viewer) ==>
         (IsAcknowledged(acks, actor, Shown(c, viewer)[k]) <==> IsAcknowledged(others, actor, Shown(c, viewer)[k]))
  }

  lemma {:induction false} ShownKeys(c: Core, d: Core, viewer: Viewer, k: Key)
    requires Shown(c, viewer) == Shown(d, viewer)
    ensures (k in c.items && ShownTo(c, viewer, c.items[k])) <==> (k in d.items && ShownTo(d, viewer, d.items[k]))
    ensures k in c.items && ShownTo(c, viewer, c.items[k]) ==> c.items[k] == d.items[k]
  {
    assert k in Shown(c, viewer) <==> k in Shown(d, viewer);
    if k in Shown(c, viewer) { assert Shown(c, viewer)[k] == Shown(d, viewer)[k]; }
  }

  lemma {:induction false} ListedWithin(
    c: Core, acks: Acks, d: Core, others: Acks, actor: ActorId, viewer: Viewer, all: bool, session: Option<SessionId>)
    requires LookAlike(c, acks, d, others, actor, viewer)
    ensures Listed(c, acks, actor, viewer, all, session) <= Listed(d, others, actor, viewer, all, session)
  {
    forall w | w in Listed(c, acks, actor, viewer, all, session)
      ensures w in Listed(d, others, actor, viewer, all, session)
    {
      var k :| k in c.items && ShownTo(c, viewer, c.items[k])
               && (session.Some? ==> c.items[k].SessionOf() == session)
               && (all || !IsAcknowledged(acks, actor, c.items[k]))
               && w == ToWire(c.items[k], IsAcknowledged(acks, actor, c.items[k]));
      ShownKeys(c, d, viewer, k);
      assert k in Shown(c, viewer) && Shown(c, viewer)[k] == c.items[k];
    }
  }

  lemma {:induction false} InboxesMatch(a: seq<WireItem>, b: seq<WireItem>, listed: set<WireItem>)
    requires IsInbox(a, listed) && IsInbox(b, listed)
    requires forall v, w :: v in listed && w in listed && v.key == w.key ==> v == w
    ensures a == b
    decreases |a|
  {
    if a == [] {
      assert |b| == 0;
    } else {
      HeadsMatch(a, b, listed);
      RestIsInbox(a, listed);
      RestIsInbox(b, listed);
      InboxesMatch(a[1..], b[1..], listed - {a[0]});
      assert a == [a[0]] + a[1..] && b == [b[0]] + b[1..];
    }
  }

  lemma {:induction false} HeadIsFirst(a: seq<WireItem>, listed: set<WireItem>, w: WireItem)
    requires IsInbox(a, listed) && w in listed
    ensures a != [] && LexLe(WireRank(a[0]), WireRank(w))
  {
    assert w in a;
    var i :| 0 <= i < |a| && a[i] == w;
    LexTotal(WireRank(w), WireRank(w));
  }

  lemma {:induction false} HeadsMatch(a: seq<WireItem>, b: seq<WireItem>, listed: set<WireItem>)
    requires IsInbox(a, listed) && IsInbox(b, listed) && a != []
    requires forall v, w :: v in listed && w in listed && v.key == w.key ==> v == w
    ensures b != [] && a[0] == b[0]
  {
    assert a[0] in listed;
    HeadIsFirst(b, listed, a[0]);
    assert b[0] in listed;
    HeadIsFirst(a, listed, b[0]);
    LexAntisymmetric(WireRank(a[0]), WireRank(b[0]));
    assert WireRank(a[0])[1] == WireRank(b[0])[1] && WireRank(a[0])[2] == WireRank(b[0])[2];
  }

  lemma {:induction false} RestIsInbox(a: seq<WireItem>, listed: set<WireItem>)
    requires IsInbox(a, listed) && a != []
    ensures IsInbox(a[1..], listed - {a[0]})
  {
    assert forall w :: w in a <==> w == a[0] || w in a[1..];
  }

  lemma {:induction false} ListedByKey(
    c: Core, acks: Acks, actor: ActorId, viewer: Viewer, all: bool, session: Option<SessionId>, v: WireItem, w: WireItem)
    requires forall k :: k in c.items ==> c.items[k].key == k
    requires v in Listed(c, acks, actor, viewer, all, session) && w in Listed(c, acks, actor, viewer, all, session)
    requires v.key == w.key
    ensures v == w
  {
  }

  /** Two engines that look alike to a caller send it the same inbox. */
  lemma {:induction false} InboxFollowsFromWhatIsShown(
    c: Core, acks: Acks, d: Core, others: Acks, actor: ActorId, viewer: Viewer, all: bool, session: Option<SessionId>,
    sent: seq<WireItem>, other: seq<WireItem>)
    requires forall k :: k in c.items ==> c.items[k].key == k
    requires LookAlike(c, acks, d, others, actor, viewer)
    requires IsInbox(sent, Listed(c, acks, actor, viewer, all, session))
    requires IsInbox(other, Listed(d, others, actor, viewer, all, session))
    ensures sent == other
  {
    ListedWithin(c, acks, d, others, actor, viewer, all, session);
    ListedWithin(d, others, c, acks, actor, viewer, all, session);
    var listed := Listed(c, acks, actor, viewer, all, session);
    assert listed == Listed(d, others, actor, viewer, all, session);
    forall v, w | v in listed && w in listed && v.key == w.key ensures v == w {
      ListedByKey(c, acks, actor, viewer, all, session, v, w);
    }
    InboxesMatch(sent, other, listed);
  }

  // ---- acknowledging -----------------------------------------------------------------------

  lemma {:induction false} SameStanding(c: Core, d: Core, viewer: Viewer, asked: (Key, nat))
    requires Shown(c, viewer) == Shown(d, viewer)
    ensures Ahead(c, viewer, asked) <==> Ahead(d, viewer, asked)
    ensures Current(c, viewer, asked) <==> Current(d, viewer, asked)
  {
    ShownKeys(c, d, viewer, asked.0);
  }

  lemma {:induction false} SameAnswers(c: Core, d: Core, actor: ActorId, viewer: Viewer, requested: seq<(Key, nat)>, current: bool)
    requires Shown(c, viewer) == Shown(d, viewer)
    ensures AnswerKeys(c, viewer, requested, current) == AnswerKeys(d, viewer, requested, current)
    ensures AckActs(c, actor, viewer, requested) == AckActs(d, actor, viewer, requested)
    decreases |requested|
  {
    if requested != [] {
      SameStanding(c, d, viewer, requested[0]);
      SameAnswers(c, d, actor, viewer, requested[1..], current);
    }
  }

  /** Two engines that show a caller the same items refuse it the same requests, give the same answers
      and record the same acknowledgements, so a hidden item answers like an absent one. */
  lemma {:induction false} AnswerFollowsFromWhatIsShown(c: Core, d: Core, actor: ActorId, viewer: Viewer, requested: seq<(Key, nat)>)
    requires Shown(c, viewer) == Shown(d, viewer)
    ensures Refused(c, viewer, requested) <==> Refused(d, viewer, requested)
    ensures forall current :: AnswerKeys(c, viewer, requested, current) == AnswerKeys(d, viewer, requested, current)
    ensures AcknowledgeActs(c, actor, viewer, requested) == AcknowledgeActs(d, actor, viewer, requested)
  {
    forall i | 0 <= i < |requested| ensures Ahead(c, viewer, requested[i]) <==> Ahead(d, viewer, requested[i]) {
      SameStanding(c, d, viewer, requested[i]);
    }
    SameAnswers(c, d, actor, viewer, requested, true);
    SameAnswers(c, d, actor, viewer, requested, false);
  }

  function KeysOf(requested: seq<(Key, nat)>): seq<Key> {
    seq(|requested|, i requires 0 <= i < |requested| => requested[i].0)
  }

  /** The acknowledged and the stale keys partition the request; a refusal records nothing. */
  lemma {:induction false} AnswersPartitionTheRequest(c: Core, viewer: Viewer, requested: seq<(Key, nat)>)
    ensures multiset(KeysOf(requested)) ==
            multiset(AnswerKeys(c, viewer, requested, true)) + multiset(AnswerKeys(c, viewer, requested, false))
    ensures Refused(c, viewer, requested) ==> forall actor :: AcknowledgeActs(c, actor, viewer, requested) == []
    decreases |requested|
  {
    if requested != [] {
      AnswersPartitionTheRequest(c, viewer, requested[1..]);
      AnswersOfFirst(c, viewer, requested);
    }
  }

  lemma {:induction false} AnswersOfFirst(c: Core, viewer: Viewer, requested: seq<(Key, nat)>)
    requires requested != []
    ensures KeysOf(requested) == [requested[0].0] + KeysOf(requested[1..])
    ensures forall current ::
              AnswerKeys(c, viewer, requested, current) ==
              (if Current(c, viewer, requested[0]) == current then [requested[0].0] else [])
              + AnswerKeys(c, viewer, requested[1..], current)
  {
  }

  /** The engine with everything hidden from a caller taken out of it. */
  ghost function OnlyShown(c: Core, viewer: Viewer): Core {
    c.(items := Shown(c, viewer))
  }

  ghost predicate IsReminder(item: Item) {
    item.about.rule.InputIdleReminder? && item.about.text.Record?
  }

  /** A reminder is about some question the caller is shown. */
  ghost predicate QuestionIsShown(c: Core, viewer: Viewer, item: Item)
    requires item.about.text.Record?
  {
    exists q :: q in AskedIn(c, item.about.text.cursor) && q in Shown(c, viewer)
  }

  /** With everything hidden taken out, a device is still shown an item exactly when the item is no
      reminder, or a reminder about a question the device is shown. */
  lemma {:induction false} StillShown(c: Core, viewer: Viewer, k: Key)
    requires viewer.Device? && k in Shown(c, viewer)
    ensures k in Shown(OnlyShown(c, viewer), viewer) <==>
            (IsReminder(c.items[k]) ==> QuestionIsShown(c, viewer, c.items[k]))
  {
    var d, item := OnlyShown(c, viewer), c.items[k];
    assert d.items[k] == item;
    if IsReminder(item) {
      var asked, left := AskedIn(c, item.about.text.cursor), AskedIn(d, item.about.text.cursor);
      assert forall q :: q in left <==> q in asked && q in Shown(c, viewer);
      assert forall q :: q in left ==> viewer.Reaches(Some(d.items[q].firstSeen));
    }
  }

  /** Taking out everything hidden from a caller changes nothing it is shown if and only if the caller is
      the owner or is shown a question behind each reminder it is shown: a reminder is dated by its
      question, and one whose questions are all hidden would lose its date with them. */
  lemma {:induction false} HiddenIsAbsent(c: Core, viewer: Viewer)
    ensures Shown(OnlyShown(c, viewer), viewer) == Shown(c, viewer) <==>
            || viewer.Owner?
            || forall k :: k in Shown(c, viewer) && IsReminder(c.items[k]) ==> QuestionIsShown(c, viewer, c.items[k])
  {
    var d := OnlyShown(c, viewer);
    if viewer.Owner? {
      assert forall k :: k in c.items ==> k in Shown(c, viewer);
      assert d.items == c.items;
    } else {
      forall k | k in Shown(c, viewer)
        ensures k in Shown(d, viewer) <==> (IsReminder(c.items[k]) ==> QuestionIsShown(c, viewer, c.items[k]))
      {
        StillShown(c, viewer, k);
      }
      assert forall k :: k in Shown(d, viewer) ==> k in Shown(c, viewer) && Shown(d, viewer)[k] == Shown(c, viewer)[k];
    }
  }
}
