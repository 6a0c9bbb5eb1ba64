/** Reminders are late, never early: a request waits out its whole interval by a reading its origin's
    records have been read up to, is reminded of once, and is never forgotten while it is owed. */
module Reminders {
  import opened Common
  import opened Time
  import opened Rules
  import opened Events
  import opened EngineModel
  import opened Runs
  import opened Handoff

  /** A request somebody is waiting on, as the log tells it. */
  datatype Waiting = Waiting(session: SessionId, record: Cursor, began: Option<Anchor>, reminded: bool)

  /** What one entry makes of the request on a question. */
  function WaitAfter(e: Entry, q: QuestionId, before: Option<Waiting>): Option<Waiting> {
    match e
    case Took(cursor, asked) =>
      if asked.Some? && asked.value.question == q
      then Some(Waiting(asked.value.wait.session, cursor, asked.value.wait.anchor, false)) else before
    case Answered(question) => if question == q then None else before
    case LetGo(question) => if question == q then None else before
    case Reminded(question, _, _) => if question == q && before.Some? then Some(before.value.(reminded := true)) else before
    case Closed(s) =>
      if before.Some? && (before.value.session == s || before.value.record.origin == Session(s)) then None else before
    case _ => before
  }

  /** The request on a question that the log says is waiting. */
  function WaitOf(log: seq<Entry>, q: QuestionId): Option<Waiting> {
    if log == [] then None else WaitAfter(log[|log| - 1], q, WaitOf(log[..|log| - 1], q))
  }

  /** The engine waits on exactly what the log says, and counts each wait from no earlier than it began. */
  ghost predicate WaitExact(w: World, q: QuestionId) {
    match WaitOf(w.log, q)
    case None => q !in w.core.pending
    case Some(x) =>
      && q in w.core.pending
      && w.core.pending[q].session == x.session && w.core.pending[q].record == x.record
      && w.core.pending[q].reminded == x.reminded
      && x.began.Some? && w.core.pending[q].waited.already <= w.core.pending[q].waited.anchor
      && w.At(x.began.value.boot, x.began.value.ms) <= w.At(w.now.boot, w.core.pending[q].waited.Start())
  }

  /** A record the engine has consumed. */
  predicate Known(c: Core, cursor: Cursor) {
    (cursor.origin, cursor.source) in c.consumed && cursor.sequence <= c.consumed[(cursor.origin, cursor.source)]
  }

  /** Every request comes from one consumed record of an origin that has not closed, and no two share one. */
  ghost predicate RecordsDistinct(c: Core) {
    && (forall q :: q in c.pending ==> Known(c, c.pending[q].record) && !IsFinalised(c, c.pending[q].record.origin))
    && (forall q, x :: q in c.pending && x in c.pending && c.pending[q].record == c.pending[x].record ==> q == x)
  }

  /** A record that has been reminded of once is not waiting to be reminded of again. */
  ghost predicate SpentOnce(w: World) {
    forall i :: 0 <= i < |w.log| && w.log[i].Reminded? ==>
      && Known(w.core, w.log[i].record)
      && forall q :: q in w.core.pending && w.core.pending[q].record == w.log[i].record ==> w.core.pending[q].reminded
  }

  /** What each reminder in the log was fired on. */
  ghost predicate Late(w: World, i: nat)
    requires i < |w.log| && w.log[i].Reminded?
  {
    var e := w.log[i];
    var wait := WaitOf(w.log[..i], e.question);
    && wait.Some? && wait.value.record == e.record && !wait.value.reminded && wait.value.began.Some?
    && w.At(wait.value.began.value.boot, wait.value.began.value.ms) + IDLE_REMINDER_MS <= w.Of(e.certified)
  }

  ghost predicate RemindedLate(w: World) {
    && (forall i :: 0 <= i < |w.log| && w.log[i].Reminded? ==> Late(w, i))
    && (forall i, j :: 0 <= i < j < |w.log| && w.log[i].Reminded? && w.log[j].Reminded? ==> w.log[i].record != w.log[j].record)
  }

  ghost predicate Reminding(w: World) {
    (forall q :: WaitExact(w, q)) && RecordsDistinct(w.core) && SpentOnce(w) && RemindedLate(w)
  }

  // ---- acts that leave the waits alone -----------------------------------------------------

  predicate OnWaits(act: Act) {
    act.Advance? || act.Unask? || act.Remind? || act.Close?
  }

  lemma {:induction false} WaitsStay(c: Core, act: Act, r: Reading)
    requires !OnWaits(act)
    ensures Apply(c, act, r).pending == c.pending && Apply(c, act, r).finalised == c.finalised
    ensures forall x: Cursor :: Known(c, x) ==> Known(Apply(c, act, r), x)
    ensures forall e :: e in Note(c, act, r) ==> e.Said? || e.Settled? || e.Acked?
  {
  }

  lemma {:induction false} OtherKeepsReminding(w: World, act: Act)
    requires Reminding(w) && !OnWaits(act)
    ensures Reminding(w.Do(act))
  {
    var d, note := w.Do(act), Note(w.core, act, w.now);
    WaitsStay(w.core, act, w.now);
    forall q ensures WaitExact(d, q) {
      assert WaitExact(w, q);
      OtherKeepsWait(w, act, q);
    }
    OtherKeepsRemindedLate(w, d, note);
  }

  lemma {:induction false} OtherKeepsWait(w: World, act: Act, q: QuestionId)
    requires WaitExact(w, q) && !OnWaits(act)
    ensures WaitExact(w.Do(act), q)
  {
    WaitsStay(w.core, act, w.now);
    LogGrows(w.log, Note(w.core, act, w.now));
  }

  lemma {:induction false} OtherKeepsRemindedLate(w: World, d: World, note: seq<Entry>)
    requires RemindedLate(w) && |note| <= 1 && d.log == w.log + note && d.epoch == w.epoch
    requires forall e :: e in note ==> !e.Reminded?
    ensures RemindedLate(d)
  {
    forall i | 0 <= i < |d.log| && d.log[i].Reminded? ensures i < |w.log| && w.log[i] == d.log[i] && Late(d, i) {
      assert Late(w, i);
      assert d.log[..i] == w.log[..i];
    }
  }

  // ---- acts on the waits -------------------------------------------------------------------

  lemma {:induction false} WaitActKeepsExact(w: World, act: Act, q: QuestionId)
    requires WaitExact(w, q) && Enabled(w.core, act, w.now) && OnWaits(act)
    ensures WaitExact(w.Do(act), q)
  {
    if act.Unask? {
      UnaskKeepsExact(w, act, q);
    } else if act.Remind? {
      RemindKeepsExact(w, act, q);
    } else {
      LogGrows(w.log, Note(w.core, act, w.now));
    }
  }

  lemma {:induction false} RemindKeepsExact(w: World, act: Act, q: QuestionId)
    requires WaitExact(w, q) && Enabled(w.core, act, w.now) && act.Remind?
    ensures WaitExact(w.Do(act), q)
  {
    LogGrows(w.log, Note(w.core, act, w.now));
  }

  lemma {:induction false} UnaskKeepsExact(w: World, act: Act, q: QuestionId)
    requires WaitExact(w, q) && Enabled(w.core, act, w.now) && act.Unask?
    ensures WaitExact(w.Do(act), q)
  {
    LogGrows(w.log, Note(w.core, act, w.now));
  }

  lemma {:induction false} KnownGrows(c: Core, act: Act, r: Reading, x: Cursor)
    requires Known(c, x) && Enabled(c, act, r) && OnWaits(act)
    ensures Known(Apply(c, act, r), x)
  {
  }

  lemma {:induction false} WaitActKeepsDistinct(c: Core, act: Act, r: Reading)
    requires RecordsDistinct(c) && Enabled(c, act, r) && OnWaits(act)
    ensures RecordsDistinct(Apply(c, act, r))
  {
    var d := Apply(c, act, r);
    forall q | q in d.pending ensures Known(d, d.pending[q].record) && !IsFinalised(d, d.pending[q].record.origin) {
      if q in c.pending { KnownGrows(c, act, r, c.pending[q].record); }
    }
    if act.Advance? && act.asked.Some? { assert !Known(c, act.cursor); }
  }

  lemma {:induction false} WaitActKeepsSpent(w: World, act: Act)
    requires SpentOnce(w) && RecordsDistinct(w.core) && Enabled(w.core, act, w.now) && OnWaits(act)
    ensures SpentOnce(w.Do(act))
  {
    var d := w.Do(act);
    LogGrows(w.log, Note(w.core, act, w.now));
    forall i | 0 <= i < |d.log| && d.log[i].Reminded?
      ensures Known(d.core, d.log[i].record)
      ensures forall q :: q in d.core.pending && d.core.pending[q].record == d.log[i].record ==> d.core.pending[q].reminded
    {
      if i < |w.log| {
        assert d.log[i] == w.log[i];
        assert act.Advance? ==> !Known(w.core, act.cursor);
      } else {
        assert act.Remind? && Known(w.core, w.core.pending[act.question].record);
      }
      KnownGrows(w.core, act, w.now, d.log[i].record);
    }
  }

  lemma {:induction false} RemindIsLate(w: World, q: QuestionId, certified: Reading)
    requires WaitExact(w, q) && SpentOnce(w) && RemindedLate(w)
    requires Enabled(w.core, Remind(q, certified), w.now)
    requires WaitConsistent(w.core.pending[q], w.now)
    ensures RemindedLate(w.Do(Remind(q, certified)))
  {
    var d := w.Do(Remind(q, certified));
    var wait := w.core.pending[q];
    LogGrows(w.log, Note(w.core, Remind(q, certified), w.now));
    forall i | 0 <= i < |d.log| && d.log[i].Reminded? ensures Late(d, i) {
      if i < |w.log| {
        assert Late(w, i) && d.log[..i] == w.log[..i];
      } else {
        assert d.log[..i] == w.log;
        assert wait.waited.Ms(certified) == Monus(certified.ms, wait.waited.Start());
      }
    }
    assert forall i :: 0 <= i < |w.log| && w.log[i].Reminded? ==> w.log[i].record != wait.record;
  }

  lemma {:induction false} ActKeepsReminding(w: World, act: Act)
    requires Reminding(w) && Consistent(w.core, w.now) && Enabled(w.core, act, w.now)
    ensures Reminding(w.Do(act))
  {
    if !OnWaits(act) {
      OtherKeepsReminding(w, act);
    } else {
      forall q ensures WaitExact(w.Do(act), q) {
        assert WaitExact(w, q);
        WaitActKeepsExact(w, act, q);
      }
      WaitActKeepsDistinct(w.core, act, w.now);
      WaitActKeepsSpent(w, act);
      if act.Remind? {
        assert WaitExact(w, act.question);
        RemindIsLate(w, act.question, act.certified);
      } else {
        OtherKeepsRemindedLate(w, w.Do(act), Note(w.core, act, w.now));
      }
    }
  }

  lemma {:induction false} LaterKeepsReminding(w: World, r: Reading)
    requires Reminding(w) && w.now.boot == r.boot
    ensures Reminding(w.(now := r))
  {
    var d := w.(now := r);
    forall q ensures WaitExact(d, q) { assert WaitExact(w, q); }
    forall i | 0 <= i < |d.log| && d.log[i].Reminded? ensures Late(d, i) { assert Late(w, i); }
  }

  /** A restart in the same boot keeps where a wait is counted from; one in another boot counts it
      from the restart, which is later. */
  lemma {:induction false} RestartOnlyLengthens(w: World, wait: Wait, r: Reading)
    requires WaitConsistent(wait, w.now) && w.Of(w.now) <= w.Of(r)
    ensures w.At(w.now.boot, wait.waited.Start()) <= w.At(r.boot, ReanchoredWait(wait, r).waited.Start())
    ensures r.boot == w.now.boot ==> ReanchoredWait(wait, r).waited.Start() == wait.waited.Start()
    ensures r.boot != w.now.boot ==> ReanchoredWait(wait, r).waited.Start() == r.ms
  {
  }

  lemma {:induction false} RestartKeepsReminding(w: World, r: Reading)
    requires Reminding(w) && Consistent(w.core, w.now) && w.Of(w.now) <= w.Of(r)
    ensures Reminding(w.(core := Reanchored(w.core, r), now := r))
  {
    var d := w.(core := Reanchored(w.core, r), now := r);
    forall q ensures WaitExact(d, q) {
      assert WaitExact(w, q);
      if q in w.core.pending { RestartOnlyLengthens(w, w.core.pending[q], r); }
    }
    forall i | 0 <= i < |d.log| && d.log[i].Reminded? ensures Late(d, i) { assert Late(w, i); }
  }

  // ---- what the log says of reminders ------------------------------------------------------

  /** Nothing has answered the request an entry made, taken its place, reminded of it or closed its session since. */
  ghost predicate StillOwed(log: seq<Entry>, i: nat, q: QuestionId)
  {
    && i < |log| && log[i].Took? && log[i].asked.Some? && log[i].asked.value.question == q
    && forall m :: i < m < |log| ==>
         && !(log[m].Took? && log[m].asked.Some? && log[m].asked.value.question == q)
         && log[m] != Answered(q) && !(log[m].Reminded? && log[m].question == q)
         && log[m] != Closed(log[i].asked.value.wait.session)
         && !(log[m].Closed? && log[i].cursor.origin == Session(log[m].session))
  }

  /** The bound on pending requests never takes one still owed its reminder. */
  ghost predicate OnlySpentLetGo(log: seq<Entry>) {
    forall i :: 0 <= i < |log| && log[i].LetGo? ==>
      WaitOf(log[..i], log[i].question).Some? && WaitOf(log[..i], log[i].question).value.reminded
  }

  lemma {:induction false} ActKeepsOnlySpentLetGo(w: World, act: Act)
    requires OnlySpentLetGo(w.log) && Reminding(w) && Enabled(w.core, act, w.now)
    ensures OnlySpentLetGo(w.Do(act).log)
  {
    var d, note := w.Do(act), Note(w.core, act, w.now);
    LogGrows(w.log, note);
    forall i | 0 <= i < |d.log| && d.log[i].LetGo?
      ensures WaitOf(d.log[..i], d.log[i].question).Some? && WaitOf(d.log[..i], d.log[i].question).value.reminded
    {
      if i < |w.log| {
        assert d.log[i] == w.log[i] && d.log[..i] == w.log[..i];
      } else {
        assert d.log[..i] == w.log && act.Unask?;
        assert WaitExact(w, act.question);
      }
    }
  }

  /** A request nobody answered, replaced, reminded of or closed is still waiting to be reminded of,
      however many others came and went. */
  lemma {:induction false} OwedIsKept(log: seq<Entry>, i: nat, q: QuestionId)
    requires StillOwed(log, i, q) && OnlySpentLetGo(log)
    ensures var wait := log[i].asked.value.wait;
            WaitOf(log, q) == Some(Waiting(wait.session, log[i].cursor, wait.anchor, false))
    decreases |log|
  {
    if i < |log| - 1 {
      var rest := log[..|log| - 1];
      forall m | 0 <= m < |rest| ensures rest[m] == log[m] && rest[..m] == log[..m] {}
      OwedIsKept(rest, i, q);
      assert log[..|log| - 1] == rest;
    }
  }

  /** The last entry by which a question was asked. */
  lemma {:induction false} LastAsked(log: seq<Entry>, q: QuestionId, x: nat) returns (y: nat)
    requires x < |log| && log[x].Took? && log[x].asked.Some? && log[x].asked.value.question == q
    ensures x <= y < |log| && log[y].Took? && log[y].asked.Some? && log[y].asked.value.question == q
    ensures forall m :: y < m < |log| ==> !(log[m].Took? && log[m].asked.Some? && log[m].asked.value.question == q)
    decreases |log| - x
  {
    y := x;
    if exists m :: x < m < |log| && log[m].Took? && log[m].asked.Some? && log[m].asked.value.question == q {
      var m :| x < m < |log| && log[m].Took? && log[m].asked.Some? && log[m].asked.value.question == q;
      y := LastAsked(log, q, m);
    }
  }

  /** An entry that takes a request on `q` away, or puts another in its place. */
  predicate Supersedes(e: Entry, q: QuestionId, wait: Waiting) {
    || (e.Took? && e.asked.Some? && e.asked.value.question == q)
    || e == Answered(q) || e == LetGo(q) || e == Closed(wait.session)
    || (e.Closed? && wait.record.origin == Session(e.session))
  }

  /** A waiting request was asked by its own record, and nothing since has answered or replaced it or
      closed the session it came from or names. */
  lemma {:induction false} WaitWasAsked(log: seq<Entry>, q: QuestionId) returns (i: nat)
    requires WaitOf(log, q).Some?
    ensures var wait := WaitOf(log, q).value;
            && i < |log| && log[i].Took? && log[i].cursor == wait.record
            && log[i].asked.Some? && log[i].asked.value.question == q
            && log[i].asked.value.wait.session == wait.session && log[i].asked.value.wait.anchor == wait.began
            && forall m :: i < m < |log| ==> !Supersedes(log[m], q, wait)
    decreases |log|
  {
    var e, rest := log[|log| - 1], log[..|log| - 1];
    if e.Took? && e.asked.Some? && e.asked.value.question == q {
      i := |log| - 1;
    } else {
      i := WaitWasAsked(rest, q);
      forall m | i < m < |log| ensures !Supersedes(log[m], q, WaitOf(log, q).value) {
        if m < |rest| {
          assert rest[m] == log[m];
          assert !Supersedes(rest[m], q, WaitOf(rest, q).value);
        }
      }
    }
  }

  /** A reminder follows the record that asked, with no answer, closure or newer request between them,
      at a certified reading a whole interval past where that request's wait began; and no other
      reminder is of the same record. */
  lemma {:induction false} ReminderIsOwed(w: World, j: nat) returns (i: nat)
    requires Reminding(w) && j < |w.log| && w.log[j].Reminded?
    ensures i < j && w.log[i].Took? && w.log[i].cursor == w.log[j].record
    ensures w.log[i].asked.Some? && w.log[i].asked.value.question == w.log[j].question
    ensures var wait := w.log[i].asked.value.wait;
            && (forall m :: i < m < j ==>
                  !Supersedes(w.log[m], w.log[j].question, Waiting(wait.session, w.log[j].record, wait.anchor, false)))
            && wait.anchor.Some?
            && w.At(wait.anchor.value.boot, wait.anchor.value.ms) + IDLE_REMINDER_MS <= w.Of(w.log[j].certified)
    ensures forall x :: 0 <= x < |w.log| && x != j && w.log[x].Reminded? ==> w.log[x].record != w.log[j].record
  {
    assert Late(w, j);
    i := WaitWasAsked(w.log[..j], w.log[j].question);
    var wait := w.log[i].asked.value.wait;
    forall m | i < m < j
      ensures !Supersedes(w.log[m], w.log[j].question, Waiting(wait.session, w.log[j].record, wait.anchor, false))
    {
      assert w.log[..j][m] == w.log[m];
    }
  }

  // ---- the bound on requests ---------------------------------------------------------------

  /** The bound on requests forgets those already reminded of, the longest pending first, never the one being
      asked, and no more than it has to. */
  lemma {:induction false} BoundForgetsTheOldest(c: Core, keep: QuestionId, r: Reading, q: QuestionId, x: QuestionId)
    requires q in c.pending && q !in Exec(c, PendingBoundActs(c, keep, r), r).pending
    ensures q != keep && c.pending[q].reminded && |Exec(c, PendingBoundActs(c, keep, r), r).pending| + 1 >= MAX_PENDING
    ensures x in c.pending && x in Exec(c, PendingBoundActs(c, keep, r), r).pending && x != keep && c.pending[x].reminded ==>
              c.pending[q].since < c.pending[x].since || (c.pending[q].since == c.pending[x].since && q < x)
    decreases |c.pending|
  {
    var oldest := Oldest(c, keep);
    if oldest.Some? {
      var o := oldest.value;
      FewerPending(c, o, r);
      var forgot := Apply(c, Unask(o, false), r);
      var rest := PendingBoundActs(forgot, keep, r);
      assert ([Unask(o, false)] + rest)[1..] == rest;
      assert forgot.pending == c.pending - {o};
      PendingBoundStops(forgot, keep, r);
      ForgottenStays(forgot, keep, r, o);
      if q != o {
        BoundForgetsTheOldest(forgot, keep, r, q, x);
      } else if x in c.pending && x != keep && c.pending[x].reminded {
        assert Forgettable(c, keep, x);
        OlderFirst(c.pending[o].since, o, c.pending[x].since, x);
      }
    }
  }

  lemma {:induction false} OlderFirst(since: nat, q: nat, later: nat, x: nat)
    requires LexLe([since, q], [later, x])
    ensures since < later || (since == later && q <= x)
  {
    assert [since, q][1..] == [q] && [later, x][1..] == [x];
  }

  lemma {:induction false} PendingBoundStops(c: Core, keep: QuestionId, r: Reading)
    requires |c.pending| + 1 >= MAX_PENDING
    ensures |Exec(c, PendingBoundActs(c, keep, r), r).pending| + 1 >= MAX_PENDING
    decreases |c.pending|
  {
    var oldest := Oldest(c, keep);
    if oldest.Some? {
      FewerPending(c, oldest.value, r);
      var forgot := Apply(c, Unask(oldest.value, false), r);
      PendingBoundStops(forgot, keep, r);
      assert ([Unask(oldest.value, false)] + PendingBoundActs(forgot, keep, r))[1..] == PendingBoundActs(forgot, keep, r);
    }
  }

  lemma {:induction false} ForgottenStays(c: Core, keep: QuestionId, r: Reading, q: QuestionId)
    requires q !in c.pending
    ensures q !in Exec(c, PendingBoundActs(c, keep, r), r).pending
    decreases |c.pending|
  {
    var oldest := Oldest(c, keep);
    if oldest.Some? {
      FewerPending(c, oldest.value, r);
      var forgot := Apply(c, Unask(oldest.value, false), r);
      ForgottenStays(forgot, keep, r, q);
      assert ([Unask(oldest.value, false)] + PendingBoundActs(forgot, keep, r))[1..] == PendingBoundActs(forgot, keep, r);
    }
  }
}
