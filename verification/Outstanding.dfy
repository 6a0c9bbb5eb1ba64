/** Review work, read off the versions recorded and the acknowledgements made: what is held is the highest
    version recorded, what an actor has read is the furthest of its own acknowledgements, and a subject is
    outstanding for it exactly while none of those named what is held. */
module Outstanding {
  import opened Common
  import opened Events
  import opened Reviews

  const NOTHING := Table(map[], map[], 0)

  /** The table as the change at place `n` finds it. */
  function Found(changes: seq<Change>, n: nat): Table
    requires n <= |changes|
  {
    After(NOTHING, changes[..n])
  }

  lemma {:induction false} AfterThen(t: Table, a: seq<Change>, b: seq<Change>)
    ensures After(t, a + b) == After(After(t, a), b)
    decreases |a|
  {
    if a == [] {
      assert a + b == b;
    } else {
      assert (a + b)[0] == a[0] && (a + b)[1..] == a[1..] + b;
      AfterThen(Changed(t, a[0]), a[1..], b);
    }
  }

  lemma {:induction false} FoundNext(changes: seq<Change>, n: nat)
    requires n < |changes|
    ensures Found(changes, n + 1) == Changed(Found(changes, n), changes[n])
  {
    var last := [changes[n]];
    assert changes[..n + 1] == changes[..n] + last && last[1..] == [];
    AfterThen(NOTHING, changes[..n], last);
    assert After(Found(changes, n), last) == After(Changed(Found(changes, n), last[0]), []);
  }

  lemma {:induction false} FoundIsSound(changes: seq<Change>, n: nat)
    requires n <= |changes|
    ensures Sound(Found(changes, n))
  {
    AnyRunEvolves(NOTHING, changes[..n]);
  }

  // ---- what the changes say ----------------------------------------------------------------

  /** The change at place `i` records a version of a subject. */
  predicate RecordsAt(changes: seq<Change>, i: nat, s: ReviewSubject) {
    i < |changes| && changes[i].Record? && changes[i].subject == s
  }

  /** The change at place `i` records a version of a subject higher than any before it. */
  predicate MovesAt(changes: seq<Change>, i: nat, s: ReviewSubject) {
    RecordsAt(changes, i, s) && forall j :: 0 <= j < i && RecordsAt(changes, j, s) ==> changes[j].version < changes[i].version
  }

  /** The change at place `i` is an actor's own acknowledgement of a version that had been recorded by then, or
      of one below it: any other is refused. */
  predicate ReadsAt(changes: seq<Change>, i: nat, actor: ActorId, s: ReviewSubject) {
    && i < |changes| && changes[i].Acknowledge? && changes[i].actor == actor && changes[i].subject == s
    && exists j :: 0 <= j < i && RecordsAt(changes, j, s) && changes[i].version <= changes[j].version
  }

  /** The highest version recorded of a subject in the first `n` changes. */
  ghost predicate Highest(changes: seq<Change>, n: nat, s: ReviewSubject, version: nat) {
    && (exists i :: 0 <= i < n && RecordsAt(changes, i, s) && changes[i].version == version)
    && forall i :: 0 <= i < n && RecordsAt(changes, i, s) ==> changes[i].version <= version
  }

  /** What is held of a subject is the highest version recorded of it, and nothing is held of one never recorded. */
  ghost predicate HeldTruly(changes: seq<Change>, n: nat, s: ReviewSubject)
    requires n <= |changes|
  {
    if s in Found(changes, n).subjects then Highest(changes, n, s, Found(changes, n).subjects[s].version)
    else forall i :: 0 <= i < n ==> !RecordsAt(changes, i, s)
  }

  lemma {:induction false} HeldIsHighest(changes: seq<Change>, n: nat, s: ReviewSubject)
    requires n <= |changes|
    ensures HeldTruly(changes, n, s)
    decreases n
  {
    if n == 0 {
      assert changes[..0] == [];
    } else {
      HeldIsHighest(changes, n - 1, s);
      FoundNext(changes, n - 1);
      HeldNext(changes, n - 1, s);
    }
  }

  lemma {:induction false} HeldNext(changes: seq<Change>, n: nat, s: ReviewSubject)
    requires n < |changes| && HeldTruly(changes, n, s) && Found(changes, n + 1) == Changed(Found(changes, n), changes[n])
    ensures HeldTruly(changes, n + 1, s)
  {
    var t := Found(changes, n);
    if RecordsAt(changes, n, s) && Moves(t, s, changes[n].version) {
      assert Highest(changes, n + 1, s, changes[n].version);
    } else if s in t.subjects {
      assert Found(changes, n + 1).subjects[s].version == t.subjects[s].version;
      var i :| 0 <= i < n && RecordsAt(changes, i, s) && changes[i].version == t.subjects[s].version;
      assert Highest(changes, n + 1, s, t.subjects[s].version);
    }
  }

  /** An acknowledgement is accepted exactly when it names a version recorded by then, or one below. */
  lemma {:induction false} ReadIsAccepted(changes: seq<Change>, i: nat, actor: ActorId, s: ReviewSubject)
    requires i < |changes| && changes[i].Acknowledge? && changes[i].actor == actor && changes[i].subject == s
    ensures ReadsAt(changes, i, actor, s) <==>
            s in Found(changes, i).subjects && changes[i].version <= Found(changes, i).subjects[s].version
  {
    HeldIsHighest(changes, i, s);
  }

  /** What an actor's own acknowledgements say it has read furthest, and when it last said so. */
  ghost predicate Furthest(changes: seq<Change>, n: nat, actor: ActorId, s: ReviewSubject, ack: Option<ReviewAck>) {
    match ack
    case None => forall i :: 0 <= i < n ==> !ReadsAt(changes, i, actor, s)
    case Some(furthest) => exists i :: 0 <= i < n && IsFurthest(changes, n, actor, s, furthest, i)
  }

  ghost predicate IsFurthest(changes: seq<Change>, n: nat, actor: ActorId, s: ReviewSubject, ack: ReviewAck, i: nat) {
    && ReadsAt(changes, i, actor, s) && changes[i].version == ack.version && changes[i].at == ack.at
    && forall j :: 0 <= j < n && ReadsAt(changes, j, actor, s) ==>
         changes[j].version < ack.version || (changes[j].version == ack.version && j <= i)
  }

  lemma {:induction false} AckIsFurthest(changes: seq<Change>, n: nat, actor: ActorId, s: ReviewSubject)
    requires n <= |changes|
    ensures Furthest(changes, n, actor, s, AckOf(Found(changes, n), actor, s))
    decreases n
  {
    if n == 0 {
      assert changes[..0] == [];
    } else {
      AckIsFurthest(changes, n - 1, actor, s);
      FoundNext(changes, n - 1);
      AckNext(changes, n - 1, actor, s);
    }
  }

  lemma {:induction false} AckNext(changes: seq<Change>, n: nat, actor: ActorId, s: ReviewSubject)
    requires n < |changes| && Found(changes, n + 1) == Changed(Found(changes, n), changes[n])
    requires Furthest(changes, n, actor, s, AckOf(Found(changes, n), actor, s))
    ensures Furthest(changes, n + 1, actor, s, AckOf(Found(changes, n + 1), actor, s))
  {
    var t, change := Found(changes, n), changes[n];
    if change.Acknowledge? && change.actor == actor && change.subject == s {
      ReadIsAccepted(changes, n, actor, s);
      AckAfter(t, actor, s, change.version, change.at, actor, s);
      OwnNext(changes, n, actor, s, AckOf(t, actor, s), AckOf(Found(changes, n + 1), actor, s));
    } else {
      OtherChange(t, change, actor, s);
      FurthestStill(changes, n, actor, s, AckOf(t, actor, s));
    }
  }

  /** A change that is not the actor's own acknowledgement of the subject leaves what it has read alone. */
  lemma {:induction false} OtherChange(t: Table, change: Change, actor: ActorId, s: ReviewSubject)
    requires !(change.Acknowledge? && change.actor == actor && change.subject == s)
    ensures AckOf(Changed(t, change), actor, s) == AckOf(t, actor, s)
  {
    if change.Acknowledge? { AckAfter(t, change.actor, change.subject, change.version, change.at, actor, s); }
  }

  lemma {:induction false} FurthestStill(changes: seq<Change>, n: nat, actor: ActorId, s: ReviewSubject, ack: Option<ReviewAck>)
    requires n < |changes| && Furthest(changes, n, actor, s, ack) && !ReadsAt(changes, n, actor, s)
    ensures Furthest(changes, n + 1, actor, s, ack)
  {
    if ack.Some? {
      var i :| 0 <= i < n && IsFurthest(changes, n, actor, s, ack.value, i);
      assert IsFurthest(changes, n + 1, actor, s, ack.value, i);
    }
  }

  lemma {:induction false} OwnNext(
    changes: seq<Change>, n: nat, actor: ActorId, s: ReviewSubject, before: Option<ReviewAck>, after: Option<ReviewAck>)
    requires n < |changes| && changes[n].Acknowledge? && Furthest(changes, n, actor, s, before)
    requires after ==
             if !ReadsAt(changes, n, actor, s) || (before.Some? && changes[n].version < before.value.version) then before
             else Some(ReviewAck(changes[n].version, changes[n].at))
    ensures Furthest(changes, n + 1, actor, s, after)
  {
    if !ReadsAt(changes, n, actor, s) {
      FurthestStill(changes, n, actor, s, before);
    } else if before.Some? {
      var i :| 0 <= i < n && IsFurthest(changes, n, actor, s, before.value, i);
      assert IsFurthest(changes, n + 1, actor, s, after.value, if changes[n].version < before.value.version then i else n);
    } else {
      assert IsFurthest(changes, n + 1, actor, s, after.value, n);
    }
  }

  // ---- what a state says -------------------------------------------------------------------

  /** The actor's own acknowledgement at place `i` named the version that is held, and no version has moved since. */
  ghost predicate ReadSince(changes: seq<Change>, i: nat, actor: ActorId, s: ReviewSubject, held: nat) {
    && ReadsAt(changes, i, actor, s) && changes[i].version == held
    && forall j :: i < j < |changes| ==> !MovesAt(changes, j, s)
  }

  /** A state names the highest version recorded and the furthest its actor acknowledged, and is outstanding
      exactly when no acknowledgement of the actor's own since the subject last moved named what is held. */
  lemma {:induction false} StateSaysExactly(changes: seq<Change>, actor: ActorId, s: ReviewSubject)
    requires s in After(NOTHING, changes).subjects
    ensures var state := StateOf(After(NOTHING, changes), actor, s);
            && state.subject == s && Highest(changes, |changes|, s, state.current)
            && (state.acknowledged.Some? <==> state.acknowledgedAt.Some?)
            && Furthest(changes, |changes|, actor, s,
                        if state.acknowledged.Some? then Some(ReviewAck(state.acknowledged.value, state.acknowledgedAt.value)) else None)
            && (state.outstanding <==> forall i: nat :: !ReadSince(changes, i, actor, s, state.current))
  {
    var n := |changes|;
    assert changes[..n] == changes;
    HeldIsHighest(changes, n, s);
    AckIsFurthest(changes, n, actor, s);
    FoundIsSound(changes, n);
    OutstandingExactly(changes, actor, s, After(NOTHING, changes).subjects[s].version, AckOf(After(NOTHING, changes), actor, s));
  }

  lemma {:induction false} OutstandingExactly(changes: seq<Change>, actor: ActorId, s: ReviewSubject, held: nat, ack: Option<ReviewAck>)
    requires Highest(changes, |changes|, s, held) && Furthest(changes, |changes|, actor, s, ack)
    requires ack.Some? ==> ack.value.version <= held
    ensures (ack.None? || ack.value.version < held) <==> forall i: nat :: !ReadSince(changes, i, actor, s, held)
  {
    if ack.Some? {
      var i :| 0 <= i < |changes| && IsFurthest(changes, |changes|, actor, s, ack.value, i);
      if ack.value.version == held { NothingMovesSince(changes, i, actor, s, held); }
    }
  }

  lemma {:induction false} NothingMovesSince(changes: seq<Change>, i: nat, actor: ActorId, s: ReviewSubject, held: nat)
    requires Highest(changes, |changes|, s, held) && ReadsAt(changes, i, actor, s) && changes[i].version == held
    ensures ReadSince(changes, i, actor, s, held)
  {
    var j :| 0 <= j < i && RecordsAt(changes, j, s) && changes[i].version <= changes[j].version;
    forall m | i < m < |changes| ensures !MovesAt(changes, m, s) {
      if RecordsAt(changes, m, s) { assert changes[m].version <= held <= changes[j].version; }
    }
  }

  /** One actor's acknowledgement of one subject changes the state of no other actor and of no other subject. */
  lemma {:induction false} OthersReadForThemselves(
    t: Table, actor: ActorId, s: ReviewSubject, version: nat, at: nat, other: ActorId, x: ReviewSubject)
    requires x in t.subjects && (other != actor || x != s)
    ensures x in Acknowledged(t, actor, s, version, at).subjects
    ensures StateOf(Acknowledged(t, actor, s, version, at), other, x) == StateOf(t, other, x)
  {
    AckAfter(t, actor, s, version, at, other, x);
  }

  /** Once an actor has acknowledged the version held, the subject is not outstanding for it until a higher
      version is recorded, whatever else changes. */
  lemma {:induction false} ReadUntilItMoves(t: Table, actor: ActorId, s: ReviewSubject, at: nat, more: seq<Change>)
    requires Sound(t) && s in t.subjects
    requires forall i :: 0 <= i < |more| && RecordsAt(more, i, s) ==> more[i].version <= t.subjects[s].version
    ensures var u := After(Acknowledged(t, actor, s, t.subjects[s].version, at), more);
            s in u.subjects && !StateOf(u, actor, s).outstanding
  {
    var read := Acknowledged(t, actor, s, t.subjects[s].version, at);
    AcknowledgingEvolves(t, actor, s, t.subjects[s].version, at);
    AckAfter(t, actor, s, t.subjects[s].version, at, actor, s);
    AnyRunEvolves(read, more);
    HeldIsFollowed(read, more, s);
    HeldStays(read.subjects[s], more, s);
  }

  lemma {:induction false} HeldStays(held: Held, more: seq<Change>, s: ReviewSubject)
    requires forall i :: 0 <= i < |more| && RecordsAt(more, i, s) ==> more[i].version <= held.version
    ensures HeldAfter(held, more, s) == held
    decreases |more|
  {
    if more != [] {
      assert more[0].Record? && more[0].subject == s ==> RecordsAt(more, 0, s);
      forall i | 0 <= i < |more[1..]| && RecordsAt(more[1..], i, s) ensures more[1..][i].version <= held.version {
        assert RecordsAt(more, i + 1, s);
      }
      HeldStays(held, more[1..], s);
    }
  }
}
