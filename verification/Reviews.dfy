/** Review state: which version of each subject the host holds, which each actor has read, and pages over
    both that stay in one order while versions move under them. */
module Reviews {
  import opened Common
  import opened Events
  import opened Scope

  const MAX_REVIEW_SUBJECTS: nat := 200

  datatype ReviewSubject = CompletedTurn(session: SessionId, turn: string) | ChangeSet(session: SessionId, id: nat)

  /** The version held of a subject, when it was recorded, and where the subject stands in first-heard order. */
  datatype Held = Held(version: nat, at: nat, sequence: nat)
  datatype ReviewAck = ReviewAck(version: nat, at: nat)

  datatype Table = Table(
    subjects: map<ReviewSubject, Held>, acks: map<ActorId, map<ReviewSubject, ReviewAck>>, next: nat)

  datatype ReviewState = ReviewState(
    subject: ReviewSubject, current: nat, acknowledged: Option<nat>, acknowledgedAt: Option<nat>, outstanding: bool)

  datatype Answer<T> = Granted(value: T) | UnknownSubject | UnknownVersion(current: nat) | UnknownContinuation

  function AckOf(t: Table, actor: ActorId, s: ReviewSubject): Option<ReviewAck> {
    if actor in t.acks && s in t.acks[actor] then Some(t.acks[actor][s]) else None
  }

  function StateOf(t: Table, actor: ActorId, s: ReviewSubject): ReviewState
    requires s in t.subjects
  {
    var ack := AckOf(t, actor, s);
    ReviewState(s, t.subjects[s].version,
                if ack.Some? then Some(ack.value.version) else None,
                if ack.Some? then Some(ack.value.at) else None,
                ack.None? || ack.value.version < t.subjects[s].version)
  }

  // ---- what changes ------------------------------------------------------------------------

  function Moves(t: Table, s: ReviewSubject, version: nat): bool {
    s !in t.subjects || t.subjects[s].version < version
  }

  function Recorded(t: Table, s: ReviewSubject, version: nat, at: nat): Table {
    if !Moves(t, s, version) then t
    else if s in t.subjects then t.(subjects := t.subjects[s := t.subjects[s].(version := version, at := at)])
    else t.(subjects := t.subjects[s := Held(version, at, t.next)], next := t.next + 1)
  }

  function Acknowledged(t: Table, actor: ActorId, s: ReviewSubject, version: nat, at: nat): Table {
    if s !in t.subjects || version > t.subjects[s].version then t
    else
      var ack := AckOf(t, actor, s);
      var own := if actor in t.acks then t.acks[actor] else map[];
      var kept := if ack.Some? && version < ack.value.version then ack.value else ReviewAck(version, at);
      t.(acks := t.acks[actor := own[s := kept]])
  }

  /** Places in first-heard order are all different and all used up, and nobody has read past what is held. */
  ghost predicate Sound(t: Table) {
    Placed(t) && Reached(t)
  }

  /** No two subjects share a place, and the next place is past them all. */
  ghost predicate Placed(t: Table) {
    && (forall s :: s in t.subjects ==> t.subjects[s].sequence < t.next)
    && (forall s, u :: s in t.subjects && u in t.subjects && t.subjects[s].sequence == t.subjects[u].sequence ==> s == u)
  }

  /** Nothing is acknowledged past the version it has come to. */
  ghost predicate Reached(t: Table) {
    forall actor, s :: AckOf(t, actor, s).Some? ==>
      s in t.subjects && AckOf(t, actor, s).value.version <= t.subjects[s].version
  }

  /** What any change keeps: a subject its place, every version and every acknowledgement its height. */
  ghost predicate Evolves(t: Table, u: Table) {
    && t.next <= u.next
    && (forall s :: s in t.subjects ==>
          s in u.subjects && u.subjects[s].sequence == t.subjects[s].sequence && t.subjects[s].version <= u.subjects[s].version)
    && (forall s :: s in u.subjects && s !in t.subjects ==> t.next <= u.subjects[s].sequence)
    && (forall actor, s :: AckOf(t, actor, s).Some? ==>
          AckOf(u, actor, s).Some? && AckOf(t, actor, s).value.version <= AckOf(u, actor, s).value.version)
  }

  lemma {:induction false} RecordingKeepsSound(t: Table, s: ReviewSubject, version: nat, at: nat)
    requires Sound(t)
    ensures Sound(Recorded(t, s, version, at))
  {
    RecordingKeepsPlaces(t, s, version, at);
    RecordingKeepsReached(t, s, version, at);
  }

  lemma {:induction false} RecordingKeepsPlaces(t: Table, s: ReviewSubject, version: nat, at: nat)
    requires Placed(t)
    ensures Placed(Recorded(t, s, version, at))
  {
    var u := Recorded(t, s, version, at);
    forall x | x in u.subjects
      ensures u.subjects[x].sequence < u.next
      ensures if x in t.subjects then u.subjects[x].sequence == t.subjects[x].sequence else x == s && u.subjects[x].sequence == t.next
    {
    }
  }

  lemma {:induction false} RecordingKeepsReached(t: Table, s: ReviewSubject, version: nat, at: nat)
    requires Reached(t)
    ensures Reached(Recorded(t, s, version, at))
  {
    assert forall actor, x :: AckOf(Recorded(t, s, version, at), actor, x) == AckOf(t, actor, x);
  }

  lemma {:induction false} RecordingEvolves(t: Table, s: ReviewSubject, version: nat, at: nat)
    requires Sound(t)
    ensures Sound(Recorded(t, s, version, at)) && Evolves(t, Recorded(t, s, version, at))
  {
    RecordingKeepsSound(t, s, version, at);
    assert forall actor, x :: AckOf(Recorded(t, s, version, at), actor, x) == AckOf(t, actor, x);
  }

  lemma {:induction false} AckAfter(t: Table, actor: ActorId, s: ReviewSubject, version: nat, at: nat, other: ActorId, x: ReviewSubject)
    ensures AckOf(Acknowledged(t, actor, s, version, at), other, x) ==
            if s in t.subjects && version <= t.subjects[s].version && other == actor && x == s
            then (if AckOf(t, actor, s).Some? && version < AckOf(t, actor, s).value.version
                  then AckOf(t, actor, s) else Some(ReviewAck(version, at)))
            else AckOf(t, other, x)
  {
  }

  lemma {:induction false} AcknowledgingEvolves(t: Table, actor: ActorId, s: ReviewSubject, version: nat, at: nat)
    requires Sound(t)
    ensures Sound(Acknowledged(t, actor, s, version, at)) && Evolves(t, Acknowledged(t, actor, s, version, at))
  {
    forall other, x ensures AckOf(Acknowledged(t, actor, s, version, at), other, x) ==
            if s in t.subjects && version <= t.subjects[s].version && other == actor && x == s
            then (if AckOf(t, actor, s).Some? && version < AckOf(t, actor, s).value.version
                  then AckOf(t, actor, s) else Some(ReviewAck(version, at)))
            else AckOf(t, other, x)
    {
      AckAfter(t, actor, s, version, at, other, x);
    }
  }

  datatype Change =
    | Record(subject: ReviewSubject, version: nat, at: nat)
    | Acknowledge(actor: ActorId, subject: ReviewSubject, version: nat, at: nat)

  function Changed(t: Table, change: Change): Table {
    match change
    case Record(s, version, at) => Recorded(t, s, version, at)
    case Acknowledge(actor, s, version, at) => Acknowledged(t, actor, s, version, at)
  }

  function After(t: Table, changes: seq<Change>): Table
    decreases |changes|
  {
    if changes == [] then t else After(Changed(t, changes[0]), changes[1..])
  }

  /** Versions held and acknowledged never go down, no acknowledgement exceeds what is held, and no
      subject moves in first-heard order, over any run of changes. */
  lemma {:induction false} AnyRunEvolves(t: Table, changes: seq<Change>)
    requires Sound(t)
    ensures Sound(After(t, changes)) && Evolves(t, After(t, changes))
    decreases |changes|
  {
    if changes != [] {
      match changes[0] {
        case Record(s, version, at) => RecordingEvolves(t, s, version, at);
        case Acknowledge(actor, s, version, at) => AcknowledgingEvolves(t, actor, s, version, at);
      }
      AnyRunEvolves(Changed(t, changes[0]), changes[1..]);
    }
  }

  /** A version that moves is new work for every actor, and one that does not changes nothing. */
  lemma {:induction false} NewVersionIsNewWork(t: Table, s: ReviewSubject, version: nat, at: nat, actor: ActorId)
    requires Sound(t)
    ensures Moves(t, s, version) ==> StateOf(Recorded(t, s, version, at), actor, s).outstanding
    ensures !Moves(t, s, version) ==> Recorded(t, s, version, at) == t
  {
    assert AckOf(Recorded(t, s, version, at), actor, s) == AckOf(t, actor, s);
  }

  // ---- pages -------------------------------------------------------------------------------

  /** A subject a caller may be shown: of a session it sees, recorded within its history. */
  predicate Visible(t: Table, viewer: Viewer, session: Option<SessionId>, s: ReviewSubject) {
    && s in t.subjects && (session.Some? ==> s.session == session.value)
    && viewer.SeesSession(s.session) && viewer.Reaches(Some(t.subjects[s].at))
  }

  /** Where a subject stands in first-heard order. */
  function PlaceOf(t: Table, s: ReviewSubject): nat {
    if s in t.subjects then t.subjects[s].sequence else 0
  }

  ghost predicate Ascending(t: Table, subjects: seq<ReviewSubject>) {
    forall i, j :: 0 <= i < j < |subjects| ==> PlaceOf(t, subjects[i]) < PlaceOf(t, subjects[j])
  }

  /** The subjects a caller may see, in the order the host first heard of them. */
  ghost predicate IsOrder(t: Table, viewer: Viewer, session: Option<SessionId>, order: seq<ReviewSubject>) {
    && (forall s :: s in order <==> Visible(t, viewer, session, s))
    && Ascending(t, order)
  }

  /** One page: what follows `after` in the order, as much of it as was asked for, and whether there is more. */
  ghost predicate IsPage(
    t: Table, viewer: Viewer, session: Option<SessionId>, after: Option<ReviewSubject>, max: nat,
    page: seq<ReviewSubject>, more: bool)
  {
    && (after.Some? ==> Visible(t, viewer, session, after.value))
    && |page| <= Max(1, Min(max, MAX_REVIEW_SUBJECTS))
    && (more ==> |page| == Max(1, Min(max, MAX_REVIEW_SUBJECTS)))
    && (forall s :: s in page ==> Visible(t, viewer, session, s) && Follows(t, after, s))
    && Ascending(t, page)
    && (forall s :: Visible(t, viewer, session, s) && Follows(t, after, s) && s !in page ==>
          more && forall x :: x in page ==> PlaceOf(t, x) < PlaceOf(t, s))
    && (more ==> exists s :: Visible(t, viewer, session, s) && Follows(t, after, s) && s !in page)
  }

  predicate Follows(t: Table, after: Option<ReviewSubject>, s: ReviewSubject) {
    s in t.subjects && (after.Some? ==> after.value in t.subjects && PlaceOf(t, after.value) < PlaceOf(t, s))
  }

  /** One page as it was served, from the table as it stood then, and what changed before the next. */
  datatype Served = Served(table: Table, max: nat, page: seq<ReviewSubject>, more: bool, meanwhile: seq<Change>)

  /** Pages fetched one after another, each continuing after the last subject of the one before, until
      there is no more; any run of changes may come in between. */
  ghost predicate Followed(viewer: Viewer, session: Option<SessionId>, after: Option<ReviewSubject>, turns: seq<Served>)
    decreases |turns|
  {
    && turns != []
    && IsPage(turns[0].table, viewer, session, after, turns[0].max, turns[0].page, turns[0].more)
    && (if |turns| == 1 then !turns[0].more
        else
          && turns[0].more && turns[0].page != [] && turns[1].table == After(turns[0].table, turns[0].meanwhile)
          && Followed(viewer, session, Some(turns[0].page[|turns[0].page| - 1]), turns[1..]))
  }

  /** What one turn hands to the next. */
  lemma {:induction false} NextTurn(viewer: Viewer, session: Option<SessionId>, after: Option<ReviewSubject>, turns: seq<Served>)
    requires Followed(viewer, session, after, turns) && Sound(turns[0].table) && |turns| > 1
    ensures turns[0].page != [] && turns[0].more && turns[1..] != [] && turns[1..][0] == turns[1]
    ensures Followed(viewer, session, Some(turns[0].page[|turns[0].page| - 1]), turns[1..])
    ensures Sound(turns[1].table)
  {
    NextTable(viewer, session, after, turns);
  }

  lemma {:induction false} NextTable(viewer: Viewer, session: Option<SessionId>, after: Option<ReviewSubject>, turns: seq<Served>)
    requires Followed(viewer, session, after, turns) && Sound(turns[0].table) && |turns| > 1
    ensures Sound(turns[1].table) && Evolves(turns[0].table, turns[1].table)
  {
    AnyRunEvolves(turns[0].table, turns[0].meanwhile);
  }

  lemma {:induction false} ServedFromHere(
    viewer: Viewer, session: Option<SessionId>, after: Option<ReviewSubject>, turns: seq<Served>, s: ReviewSubject)
    requires Followed(viewer, session, after, turns) && Sound(turns[0].table)
    requires forall i :: 0 <= i < |turns| ==> Visible(turns[i].table, viewer, session, s)
    requires Follows(turns[0].table, after, s)
    ensures exists i :: 0 <= i < |turns| && s in turns[i].page
    decreases |turns|
  {
    if s !in turns[0].page {
      var last := turns[0].page[|turns[0].page| - 1];
      assert last in turns[0].page;
      NextTurn(viewer, session, after, turns);
      NextTable(viewer, session, after, turns);
      assert PlaceOf(turns[0].table, last) < PlaceOf(turns[0].table, s);
      assert Follows(turns[1].table, Some(last), s);
      ServedFromHere(viewer, session, Some(last), turns[1..], s);
      var i :| 0 <= i < |turns[1..]| && s in turns[1..][i].page;
      assert s in turns[i + 1].page;
    }
  }

  /** Everything served from here on follows `after`. */
  lemma {:induction false} ServedFollows(
    viewer: Viewer, session: Option<SessionId>, after: Option<ReviewSubject>, turns: seq<Served>, b: nat, s: ReviewSubject)
    requires Followed(viewer, session, after, turns) && Sound(turns[0].table) && b < |turns| && s in turns[b].page
    ensures s in turns[b].table.subjects
    ensures after.Some? ==> PlaceOf(turns[0].table, after.value) < PlaceOf(turns[b].table, s)
    decreases |turns|
  {
    if b > 0 {
      var last := turns[0].page[|turns[0].page| - 1];
      NextTurn(viewer, session, after, turns);
      NextTable(viewer, session, after, turns);
      assert turns[1..][b - 1] == turns[b] && last in turns[0].page;
      ServedFollows(viewer, session, Some(last), turns[1..], b - 1, s);
    }
  }

  /** A later page serves only later places than an earlier one. */
  lemma {:induction false} LaterPagesAreLater(
    viewer: Viewer, session: Option<SessionId>, after: Option<ReviewSubject>, turns: seq<Served>,
    a: nat, s: ReviewSubject, b: nat, u: ReviewSubject)
    requires Followed(viewer, session, after, turns) && Sound(turns[0].table) && a < b < |turns| && s in turns[a].page && u in turns[b].page
    ensures PlaceOf(turns[a].table, s) < PlaceOf(turns[b].table, u)
    decreases |turns|
  {
    NextTurn(viewer, session, after, turns);
    if a > 0 {
      var last := turns[0].page[|turns[0].page| - 1];
      assert turns[1..][a - 1] == turns[a] && turns[1..][b - 1] == turns[b];
      LaterPagesAreLater(viewer, session, Some(last), turns[1..], a - 1, s, b - 1, u);
    } else {
      FirstPageIsEarlier(viewer, session, after, turns, s, b, u);
    }
  }

  lemma {:induction false} FirstPageIsEarlier(
    viewer: Viewer, session: Option<SessionId>, after: Option<ReviewSubject>, turns: seq<Served>,
    s: ReviewSubject, b: nat, u: ReviewSubject)
    requires Followed(viewer, session, after, turns) && Sound(turns[0].table) && 0 < b < |turns| && s in turns[0].page && u in turns[b].page
    ensures PlaceOf(turns[0].table, s) < PlaceOf(turns[b].table, u)
  {
    var last := turns[0].page[|turns[0].page| - 1];
    NextTurn(viewer, session, after, turns);
    NextTable(viewer, session, after, turns);
    assert turns[1..][b - 1] == turns[b];
    ServedFollows(viewer, session, Some(last), turns[1..], b - 1, u);
    LastIsLatest(turns[0].table, turns[0].page, s);
    assert last in turns[0].page;
  }

  lemma {:induction false} LastIsLatest(t: Table, page: seq<ReviewSubject>, s: ReviewSubject)
    requires Ascending(t, page) && s in page
    ensures PlaceOf(t, s) <= PlaceOf(t, page[|page| - 1])
  {
    var i :| 0 <= i < |page| && page[i] == s;
  }

  lemma {:induction false} PlacesNeverMove(
    viewer: Viewer, session: Option<SessionId>, after: Option<ReviewSubject>, turns: seq<Served>, b: nat, s: ReviewSubject)
    requires Followed(viewer, session, after, turns) && Sound(turns[0].table) && b < |turns| && s in turns[0].table.subjects
    ensures s in turns[b].table.subjects && turns[b].table.subjects[s].sequence == turns[0].table.subjects[s].sequence
    decreases |turns|
  {
    if b > 0 {
      NextTurn(viewer, session, after, turns);
      NextTable(viewer, session, after, turns);
      assert turns[1..][b - 1] == turns[b];
      PlacesNeverMove(viewer, session, Some(turns[0].page[|turns[0].page| - 1]), turns[1..], b - 1, s);
    }
  }

  /** Following pages to the end serves every subject that was visible throughout, in first-heard order,
      and none of them twice, whatever was recorded and acknowledged between the pages. */
  lemma {:induction false} PagesServeEachOnce(
    viewer: Viewer, session: Option<SessionId>, turns: seq<Served>, s: ReviewSubject, a: nat, x: nat, b: nat, y: nat)
    requires Followed(viewer, session, None, turns) && Sound(turns[0].table)
    ensures (forall i :: 0 <= i < |turns| ==> Visible(turns[i].table, viewer, session, s)) ==>
              exists i :: 0 <= i < |turns| && s in turns[i].page
    ensures a < |turns| && x < |turns[a].page| && b < |turns| && y < |turns[b].page| && (a < b || (a == b && x < y)) ==>
              && turns[a].page[x] != turns[b].page[y]
              && PlaceOf(turns[a].table, turns[a].page[x]) < PlaceOf(turns[b].table, turns[b].page[y])
  {
    if forall i :: 0 <= i < |turns| ==> Visible(turns[i].table, viewer, session, s) {
      assert Visible(turns[0].table, viewer, session, s);
      ServedFromHere(viewer, session, None, turns, s);
    }
    if a < |turns| && x < |turns[a].page| && b < |turns| && y < |turns[b].page| && (a < b || (a == b && x < y)) {
      var u, v := turns[a].page[x], turns[b].page[y];
      if a < b {
        LaterPagesAreLater(viewer, session, None, turns, a, u, b, v);
        ServedFollows(viewer, session, None, turns, a, u);
        SamePlaceLater(viewer, session, None, turns, a, b, u);
      } else {
        PageAscends(viewer, session, None, turns, a);
      }
    }
  }

  lemma {:induction false} PageAscends(
    viewer: Viewer, session: Option<SessionId>, after: Option<ReviewSubject>, turns: seq<Served>, a: nat)
    requires Followed(viewer, session, after, turns) && Sound(turns[0].table) && a < |turns|
    ensures Ascending(turns[a].table, turns[a].page)
    decreases |turns|
  {
    if a > 0 {
      NextTurn(viewer, session, after, turns);
      assert turns[1..][a - 1] == turns[a];
      PageAscends(viewer, session, Some(turns[0].page[|turns[0].page| - 1]), turns[1..], a - 1);
    }
  }

  lemma {:induction false} SamePlaceLater(
    viewer: Viewer, session: Option<SessionId>, after: Option<ReviewSubject>, turns: seq<Served>, a: nat, b: nat, s: ReviewSubject)
    requires Followed(viewer, session, after, turns) && Sound(turns[0].table) && a <= b < |turns| && s in turns[a].table.subjects
    ensures s in turns[b].table.subjects && turns[b].table.subjects[s].sequence == turns[a].table.subjects[s].sequence
    decreases |turns|
  {
    if a == 0 {
      PlacesNeverMove(viewer, session, after, turns, b, s);
    } else {
      var last := turns[0].page[|turns[0].page| - 1];
      NextTurn(viewer, session, after, turns);
      assert turns[1..][a - 1] == turns[a] && turns[1..][b - 1] == turns[b];
      SamePlaceLater(viewer, session, Some(last), turns[1..], a - 1, b - 1, s);
    }
  }

  // ---- continuations -----------------------------------------------------------------------

  /** What a run of changes makes of one subject held. */
  function HeldAfter(held: Held, changes: seq<Change>, s: ReviewSubject): Held
    decreases |changes|
  {
    if changes == [] then held
    else
      var first := changes[0];
      HeldAfter(if first.Record? && first.subject == s && held.version < first.version
                then held.(version := first.version, at := first.at) else held, changes[1..], s)
  }

  lemma {:induction false} HeldIsFollowed(t: Table, changes: seq<Change>, s: ReviewSubject)
    requires s in t.subjects
    ensures s in After(t, changes).subjects && After(t, changes).subjects[s] == HeldAfter(t.subjects[s], changes, s)
    decreases |changes|
  {
    if changes != [] { HeldIsFollowed(Changed(t, changes[0]), changes[1..], s); }
  }

  /** A continuation after a subject the caller was served is answered, after any run of changes, if and only
      if the caller's history reaches the moment the subject's version was last moved at. */
  lemma {:induction false} ContinuationIsAnsweredExactlyWhen(
    t: Table, viewer: Viewer, session: Option<SessionId>, s: ReviewSubject, changes: seq<Change>)
    requires Visible(t, viewer, session, s)
    ensures Visible(After(t, changes), viewer, session, s) <==>
            viewer.Reaches(Some(HeldAfter(t.subjects[s], changes, s).at))
  {
    HeldIsFollowed(t, changes, s);
  }

  /** Versions recorded at moments the caller's history reaches, whichever they are, leave every continuation
      it was given answered. */
  lemma {:induction false} ContinuationStays(
    t: Table, viewer: Viewer, session: Option<SessionId>, s: ReviewSubject, changes: seq<Change>)
    requires Visible(t, viewer, session, s)
    requires forall change :: change in changes && change.Record? && change.subject == s ==> viewer.Reaches(Some(change.at))
    ensures Visible(After(t, changes), viewer, session, s)
  {
    ContinuationIsAnsweredExactlyWhen(t, viewer, session, s, changes);
    ReachedThroughout(t.subjects[s], viewer, s, changes);
  }

  lemma {:induction false} ReachedThroughout(held: Held, viewer: Viewer, s: ReviewSubject, changes: seq<Change>)
    requires viewer.Reaches(Some(held.at))
    requires forall change :: change in changes && change.Record? && change.subject == s ==> viewer.Reaches(Some(change.at))
    ensures viewer.Reaches(Some(HeldAfter(held, changes, s).at))
    decreases |changes|
  {
    if changes != [] {
      var first := changes[0];
      assert first in changes;
      ReachedThroughout(if first.Record? && first.subject == s && held.version < first.version
                        then held.(version := first.version, at := first.at) else held, viewer, s, changes[1..]);
    }
  }

  /** A device whose history starts at ten, and two subjects recorded then. */
  const SINCE_TEN := Device(0, true, false, false, (s: SessionId) => true, 10)
  const FIRST := ChangeSet(1, 1)
  const SECOND := ChangeSet(1, 2)

  function TwoSubjects(): Table {
    Table(map[FIRST := Held(1, 10, 0), SECOND := Held(1, 10, 1)], map[], 2)
  }

  /** A version recorded late, at a moment before a device's history, hides the subject it was served last:
      the page it was given and was told goes on has no continuation. */
  lemma {:induction false} ContinuationCanBeLost()
    ensures TwoSubjects() == After(Table(map[], map[], 0), [Record(FIRST, 1, 10), Record(SECOND, 1, 10)])
    ensures IsPage(TwoSubjects(), SINCE_TEN, None, None, 1, [FIRST], true)
    ensures !Visible(After(TwoSubjects(), [Record(FIRST, 2, 5)]), SINCE_TEN, None, FIRST)
  {
    var t := TwoSubjects();
    var changes := [Record(FIRST, 1, 10), Record(SECOND, 1, 10)];
    assert changes[1..] == [Record(SECOND, 1, 10)] && changes[1..][1..] == [];
    var empty := Table(map[], map[], 0);
    var one := Changed(empty, changes[0]);
    assert After(empty, changes) == After(Changed(one, changes[1]), []);
    assert Visible(t, SINCE_TEN, None, SECOND) && Visible(t, SINCE_TEN, None, FIRST);
    var late := [Record(FIRST, 2, 5)];
    assert late[1..] == [];
    ContinuationIsAnsweredExactlyWhen(t, SINCE_TEN, None, FIRST, late);
    assert HeldAfter(t.subjects[FIRST], late, FIRST) == HeldAfter(Held(2, 5, 0), [], FIRST);
  }

  // ---- the object --------------------------------------------------------------------------

  /** The first place a subject is listed at, or one past the end. */
  method PositionOf(order: seq<ReviewSubject>, s: ReviewSubject) returns (at: nat)
    ensures at <= |order| && (at < |order| <==> s in order) && (at < |order| ==> order[at] == s)
  {
    at := 0;
    while at < |order| && order[at] != s
      invariant at <= |order| && forall i :: 0 <= i < at ==> order[i] != s
    {
      at := at + 1;
    }
  }

  class Reviews {
    var subjects: map<ReviewSubject, Held>
    var acks: map<ActorId, map<ReviewSubject, ReviewAck>>
    var next: nat

    ghost function State(): Table
      reads this
    {
      Table(subjects, acks, next)
    }

    constructor ()
      ensures State() == Table(map[], map[], 0) && Sound(State())
    {
      subjects, acks, next := map[], map[], 0;
    }

    method RecordVersion(s: ReviewSubject, version: nat, at: nat) returns (moved: bool)
      requires Sound(State())
      modifies this
      ensures Sound(State()) && State() == Recorded(old(State()), s, version, at)
      ensures moved == Moves(old(State()), s, version)
    {
      RecordingEvolves(State(), s, version, at);
      if s in subjects {
        if subjects[s].version >= version { return false; }
        subjects := subjects[s := subjects[s].(version := version, at := at)];
        return true;
      }
      subjects := subjects[s := Held(version, at, next)];
      next := next + 1;
      return true;
    }

    method Acknowledge(actor: ActorId, s: ReviewSubject, version: nat, at: nat) returns (answer: Answer<ReviewState>)
      requires Sound(State())
      modifies this
      ensures Sound(State()) && State() == Acknowledged(old(State()), actor, s, version, at)
      ensures answer == if s !in subjects then UnknownSubject
                        else if version > subjects[s].version then UnknownVersion(subjects[s].version)
                        else Granted(StateOf(State(), actor, s))
    {
      AcknowledgingEvolves(State(), actor, s, version, at);
      if s !in subjects { return UnknownSubject; }
      if version > subjects[s].version { return UnknownVersion(subjects[s].version); }
      var own := if actor in acks then acks[actor] else map[];
      var record := if s in own then own[s] else ReviewAck(version, at);
      if version >= record.version { record := ReviewAck(version, at); }
      acks := acks[actor := own[s := record]];
      return Granted(ReviewState(s, subjects[s].version, Some(record.version), Some(record.at), record.version < subjects[s].version));
    }

    /** The subjects a caller may see, ordered by where each was first heard of. */
    method Ordered(viewer: Viewer, session: Option<SessionId>) returns (order: seq<ReviewSubject>)
      requires Sound(State())
      ensures IsOrder(State(), viewer, session, order)
    {
      var left := set s | s in subjects && (session.Some? ==> s.session == session.value)
                          && viewer.SeesSession(s.session) && viewer.Reaches(Some(subjects[s].at));
      order := [];
      while left != {}
        invariant forall s :: s in order || s in left <==> Visible(State(), viewer, session, s)
        invariant forall s :: s in order ==> s !in left
        invariant left <= subjects.Keys && Ascending(State(), order)
        invariant forall x, s :: x in order && s in left ==> PlaceOf(State(), x) < PlaceOf(State(), s)
        decreases left
      {
        LeastHeardExists(State(), left);
        var s :| s in left && forall x :: x in left ==> subjects[s].sequence <= subjects[x].sequence;
        order := order + [s];
        left := left - {s};
      }
    }

    /** One page of one actor's state, or a refusal to continue after a subject it cannot be shown. */
    method StatesPage(actor: ActorId, viewer: Viewer, session: Option<SessionId>, after: Option<ReviewSubject>, max: nat)
      returns (answer: Answer<(seq<ReviewState>, bool)>, ghost page: seq<ReviewSubject>)
      requires Sound(State())
      ensures answer.Granted? || answer.UnknownContinuation?
      ensures answer.Granted? <==> after.None? || Visible(State(), viewer, session, after.value)
      ensures answer.Granted? ==>
                && IsPage(State(), viewer, session, after, max, page, answer.value.1)
                && |answer.value.0| == |page|
                && forall i :: 0 <= i < |page| ==> page[i] in subjects && answer.value.0[i] == StateOf(State(), actor, page[i])
    {
      page := [];
      var order := Ordered(viewer, session);
      var start := 0;
      if after.Some? {
        var at := PositionOf(order, after.value);
        if at == |order| {
          return UnknownContinuation, page;
        }
        start := at + 1;
      }
      var end := Min(start + Max(1, Min(max, MAX_REVIEW_SUBJECTS)), |order|);
      var listed := order[start..end];
      PageOfOrder(State(), viewer, session, order, after, max, start, end);
      page := listed;
      var states := StatesOf(actor, listed);
      assert start + |states| == end;
      answer := Granted((states, |order| > start + |states|));
    }

    /** Every listed subject's state, in the same order. */
    method StatesOf(actor: ActorId, listed: seq<ReviewSubject>) returns (states: seq<ReviewState>)
      requires forall s :: s in listed ==> s in subjects
      ensures |states| == |listed|
      ensures forall i :: 0 <= i < |listed| ==> listed[i] in subjects && states[i] == StateOf(State(), actor, listed[i])
    {
      states := [];
      for n := 0 to |listed|
        invariant |states| == n
        invariant forall i :: 0 <= i < n ==> listed[i] in subjects && states[i] == StateOf(State(), actor, listed[i])
      {
        states := states + [StateAt(actor, listed[n])];
      }
    }

    function StateAt(actor: ActorId, s: ReviewSubject): (state: ReviewState)
      requires s in subjects
      reads this
      ensures state == StateOf(State(), actor, s)
    {
      var own := if actor in acks then acks[actor] else map[];
      if s in own
      then ReviewState(s, subjects[s].version, Some(own[s].version), Some(own[s].at), own[s].version < subjects[s].version)
      else ReviewState(s, subjects[s].version, None, None, true)
    }

    /** Takes back what the store read; the next place is past every one it carries. */
    method Install(restored: map<ReviewSubject, Held>, read: map<ActorId, map<ReviewSubject, ReviewAck>>)
      requires Sound(Table(restored, read, 0).(next := PastAll(restored)))
      modifies this
      ensures State() == Table(restored, read, PastAll(restored)) && Sound(State())
    {
      subjects, acks, next := restored, read, 0;
      var todo := restored.Keys;
      while todo != {}
        invariant todo <= restored.Keys && subjects == restored && acks == read
        invariant forall s :: s in restored && s !in todo ==> restored[s].sequence < next
        invariant next == 0 || exists s :: s in restored && restored[s].sequence + 1 == next
        decreases todo
      {
        var s :| s in todo;
        next := Max(next, restored[s].sequence + 1);
        todo := todo - {s};
      }
      PastAllIs(restored, next);
    }
  }

  /** One past the highest place a set of subjects carries. */
  ghost function PastAll(subjects: map<ReviewSubject, Held>): (n: nat)
    ensures forall s :: s in subjects ==> subjects[s].sequence < n
    ensures n == 0 || exists s :: s in subjects && subjects[s].sequence + 1 == n
  {
    if subjects == map[] then 0
    else
      assert subjects.Keys != {};
      assert exists s :: s in subjects && forall x :: x in subjects ==> subjects[x].sequence <= subjects[s].sequence by {
        var s := LatestExists(subjects, subjects.Keys);
      }
      var s :| s in subjects && forall x :: x in subjects ==> subjects[x].sequence <= subjects[s].sequence;
      subjects[s].sequence + 1
  }

  lemma {:induction false} PastAllIs(subjects: map<ReviewSubject, Held>, n: nat)
    requires forall s :: s in subjects ==> subjects[s].sequence < n
    requires n == 0 || exists s :: s in subjects && subjects[s].sequence + 1 == n
    ensures n == PastAll(subjects)
  {
  }

  lemma {:induction false} LatestExists(subjects: map<ReviewSubject, Held>, among: set<ReviewSubject>) returns (s: ReviewSubject)
    requires among != {} && among <= subjects.Keys
    ensures s in among && forall x :: x in among ==> subjects[x].sequence <= subjects[s].sequence
    decreases among
  {
    s :| s in among;
    if among != {s} {
      var other := LatestExists(subjects, among - {s});
      if subjects[s].sequence < subjects[other].sequence { s := other; }
    }
  }

  lemma {:induction false} LeastHeardExists(t: Table, left: set<ReviewSubject>)
    requires left != {} && left <= t.subjects.Keys
    ensures exists s :: s in left && forall x :: x in left ==> t.subjects[s].sequence <= t.subjects[x].sequence
    decreases left
  {
    var s :| s in left;
    if left != {s} {
      LeastHeardExists(t, left - {s});
      var other :| other in left - {s} && forall x :: x in left - {s} ==> t.subjects[other].sequence <= t.subjects[x].sequence;
      var least := if t.subjects[s].sequence <= t.subjects[other].sequence then s else other;
      assert least in left && forall x :: x in left ==> t.subjects[least].sequence <= t.subjects[x].sequence;
    }
  }

  /** What an order lists from a place on is exactly what follows the subject before that place. */
  lemma {:induction false} TailOfOrder(
    t: Table, viewer: Viewer, session: Option<SessionId>, order: seq<ReviewSubject>, after: Option<ReviewSubject>,
    start: nat, j: nat)
    requires Sound(t) && IsOrder(t, viewer, session, order) && j < |order|
    requires if after.None? then start == 0 else 0 < start <= |order| && order[start - 1] == after.value
    ensures order[j] in t.subjects && (Follows(t, after, order[j]) <==> start <= j)
  {
    assert order[j] in order && Visible(t, viewer, session, order[j]);
    if after.Some? {
      assert order[start - 1] in order && Visible(t, viewer, session, after.value);
    }
  }

  lemma {:induction false} SliceHolds(order: seq<ReviewSubject>, start: nat, end: nat, j: nat)
    requires start <= end <= |order|
    ensures start <= j < end ==> order[j] in order[start..end]
  {
    if start <= j < end { assert order[start..end][j - start] == order[j]; }
  }

  lemma {:induction false} RestComesLater(
    t: Table, viewer: Viewer, session: Option<SessionId>, order: seq<ReviewSubject>, after: Option<ReviewSubject>,
    start: nat, end: nat, s: ReviewSubject)
    requires Sound(t) && IsOrder(t, viewer, session, order) && start <= end <= |order|
    requires if after.None? then start == 0 else 0 < start <= |order| && order[start - 1] == after.value
    requires Visible(t, viewer, session, s) && Follows(t, after, s) && s !in order[start..end]
    ensures |order| > end && forall x :: x in order[start..end] ==> PlaceOf(t, x) < PlaceOf(t, s)
  {
    assert s in order;
    var j :| 0 <= j < |order| && order[j] == s;
    TailOfOrder(t, viewer, session, order, after, start, j);
    SliceHolds(order, start, end, j);
    forall x | x in order[start..end] ensures PlaceOf(t, x) < PlaceOf(t, s) {
      var i :| 0 <= i < |order[start..end]| && order[start..end][i] == x;
      assert order[start + i] == x;
    }
  }

  lemma {:induction false} PageOfOrder(
    t: Table, viewer: Viewer, session: Option<SessionId>, order: seq<ReviewSubject>, after: Option<ReviewSubject>,
    max: nat, start: nat, end: nat)
    requires Sound(t) && IsOrder(t, viewer, session, order)
    requires if after.None? then start == 0 else 0 < start <= |order| && order[start - 1] == after.value
    requires end == Min(start + Max(1, Min(max, MAX_REVIEW_SUBJECTS)), |order|) && start <= |order|
    ensures IsPage(t, viewer, session, after, max, order[start..end], |order| > end)
  {
    var page := order[start..end];
    if after.Some? {
      assert after.value in order;
    }
    PageIsVisible(t, viewer, session, order, after, start, end);
    forall s | Visible(t, viewer, session, s) && Follows(t, after, s) && s !in page
      ensures |order| > end && forall x :: x in page ==> PlaceOf(t, x) < PlaceOf(t, s)
    {
      RestComesLater(t, viewer, session, order, after, start, end, s);
    }
  }

  lemma {:induction false} PageIsVisible(
    t: Table, viewer: Viewer, session: Option<SessionId>, order: seq<ReviewSubject>, after: Option<ReviewSubject>,
    start: nat, end: nat)
    requires Sound(t) && IsOrder(t, viewer, session, order) && start <= end <= |order|
    requires if after.None? then start == 0 else 0 < start <= |order| && order[start - 1] == after.value
    ensures forall s :: s in order[start..end] ==> Visible(t, viewer, session, s) && Follows(t, after, s)
    ensures Ascending(t, order[start..end])
    ensures |order| > end ==>
              exists s :: Visible(t, viewer, session, s) && Follows(t, after, s) && s !in order[start..end]
  {
    var page := order[start..end];
    forall i | 0 <= i < |page| ensures Visible(t, viewer, session, page[i]) && Follows(t, after, page[i]) {
      TailOfOrder(t, viewer, session, order, after, start, start + i);
      assert page[i] in order;
    }
    if |order| > end {
      TailOfOrder(t, viewer, session, order, after, start, end);
      assert order[end] in order;
      assert forall i :: 0 <= i < |page| ==> PlaceOf(t, page[i]) < PlaceOf(t, order[end]);
    }
  }
}
