/** Workflow admission: a sliding-window rate decided against a journal that forgets what no window
    can count any more, and the limits on one workflow's runs. */
module Admission {
  import opened Common

  const HOST_MAX_PER_WINDOW: nat := 600
  const GRANT_MAX_PER_WINDOW: nat := 120
  const WINDOW_MS: nat := 60_000
  const CONCURRENT_RUNS: nat := 4
  const PENDING_RUNS: nat := 100

  datatype Row = Row(at: nat, grant: nat)
  datatype Status = Running | Pending | Done
  datatype RunOf = RunOf(workflow: nat, status: Status)

  /** The rows the rates are counted from, and every run recorded. */
  datatype Journal = Journal(rows: seq<Row>, runs: map<nat, RunOf>)

  datatype Placement = Start | Queue | RateExceeded | PendingExceeded

  predicate Counts(row: Row, since: nat, grant: Option<nat>) {
    row.at >= since && (grant.Some? ==> row.grant == grant.value)
  }

  /** How many rows were admitted at or after `since`: the boundary itself is counted. */
  function AdmissionsSince(rows: seq<Row>, since: nat, grant: Option<nat>): nat {
    if rows == [] then 0
    else AdmissionsSince(rows[..|rows| - 1], since, grant) + if Counts(rows[|rows| - 1], since, grant) then 1 else 0
  }

  function RunsIn(runs: map<nat, RunOf>, workflow: nat, status: Status): set<nat> {
    set id | id in runs && runs[id] == RunOf(workflow, status)
  }

  /** The host's rate first, then the grant's, then the workflow's own limits. */
  function Place(j: Journal, workflow: nat, grant: nat, now: nat): Placement {
    var since := Monus(now, WINDOW_MS);
    if AdmissionsSince(j.rows, since, None) >= HOST_MAX_PER_WINDOW then RateExceeded
    else if AdmissionsSince(j.rows, since, Some(grant)) >= GRANT_MAX_PER_WINDOW then RateExceeded
    else if |RunsIn(j.runs, workflow, Running)| < CONCURRENT_RUNS then Start
    else if |RunsIn(j.runs, workflow, Pending)| < PENDING_RUNS then Queue
    else PendingExceeded
  }

  /** The rows an admission keeps, or the ones it deletes: those before the window it was decided over. */
  function Prune(rows: seq<Row>, since: nat, kept: bool): seq<Row> {
    if rows == [] then []
    else Prune(rows[..|rows| - 1], since, kept) + if (rows[|rows| - 1].at >= since) == kept then [rows[|rows| - 1]] else []
  }

  /** What the journal is asked to do; an admission and its row are one transaction. */
  datatype Step =
    | Admit(id: nat, workflow: nat, grant: nat, now: nat)
    | Claim(id: nat)
    | Finish(id: nat)

  function Apply(j: Journal, step: Step): Journal {
    match step
    case Admit(id, workflow, grant, now) =>
      var placed := Place(j, workflow, grant, now);
      if id in j.runs || placed.RateExceeded? || placed.PendingExceeded? then j
      else Journal(Prune(j.rows, Monus(now, WINDOW_MS), true) + [Row(now, grant)],
                   j.runs[id := RunOf(workflow, if placed.Start? then Running else Pending)])
    case Claim(id) =>
      if id in j.runs && j.runs[id].status.Pending?
         && |RunsIn(j.runs, j.runs[id].workflow, Running)| < CONCURRENT_RUNS
      then j.(runs := j.runs[id := j.runs[id].(status := Running)]) else j
    case Finish(id) =>
      if id in j.runs then j.(runs := j.runs[id := j.runs[id].(status := Done)]) else j
  }

  predicate Admits(j: Journal, step: Step) {
    step.Admit? && Apply(j, step) != j && step.id !in j.runs
  }

  /** A journal beside the whole history of its admissions, and the rows of it that it has deleted. */
  datatype Ledger = Ledger(journal: Journal, history: seq<Row>, forgotten: seq<Row>)

  const EMPTY := Ledger(Journal([], map[]), [], [])

  function Take(l: Ledger, step: Step): Ledger {
    if Admits(l.journal, step)
    then Ledger(Apply(l.journal, step), l.history + [Row(step.now, step.grant)],
                l.forgotten + Prune(l.journal.rows, Monus(step.now, WINDOW_MS), false))
    else l.(journal := Apply(l.journal, step))
  }

  function Run(l: Ledger, steps: seq<Step>): Ledger
    decreases |steps|
  {
    if steps == [] then l else Run(Take(l, steps[0]), steps[1..])
  }

  /** Nothing the journal has deleted falls in the window this step is decided over. */
  ghost predicate Counted(l: Ledger, step: Step) {
    step.Admit? ==> forall row :: row in l.forgotten ==> row.at < Monus(step.now, WINDOW_MS)
  }

  ghost predicate AllCounted(l: Ledger, steps: seq<Step>)
    decreases |steps|
  {
    steps == [] || (Counted(l, steps[0]) && AllCounted(Take(l, steps[0]), steps[1..]))
  }

  /** The times a run is given never go back. */
  predicate Forward(now: nat, steps: seq<Step>)
    decreases |steps|
  {
    steps == [] || (if steps[0].Admit? then now <= steps[0].now && Forward(steps[0].now, steps[1..])
                    else Forward(now, steps[1..]))
  }

  /** How many admissions of a history fall in the closed window that starts at `from`. */
  function InWindow(history: seq<Row>, from: nat, grant: Option<nat>): nat {
    if history == [] then 0
    else InWindow(history[..|history| - 1], from, grant) +
         if Counts(history[|history| - 1], from, grant) && history[|history| - 1].at <= from + WINDOW_MS then 1 else 0
  }

  /** No window, wherever it starts, holds more than its rate. */
  ghost predicate WithinRates(history: seq<Row>) {
    forall from: nat, grant :: InWindow(history, from, grant) <= if grant.None? then HOST_MAX_PER_WINDOW else GRANT_MAX_PER_WINDOW
  }

  ghost predicate WithinLimits(runs: map<nat, RunOf>) {
    forall workflow :: |RunsIn(runs, workflow, Running)| <= CONCURRENT_RUNS && |RunsIn(runs, workflow, Pending)| <= PENDING_RUNS
  }

  /** What the journal counts and what it has deleted make up the history. */
  ghost predicate Balanced(l: Ledger) {
    forall since, grant ::
      AdmissionsSince(l.history, since, grant) ==
      AdmissionsSince(l.journal.rows, since, grant) + AdmissionsSince(l.forgotten, since, grant)
  }

  ghost predicate Kept(l: Ledger) {
    Balanced(l) && WithinRates(l.history) && WithinLimits(l.journal.runs)
  }

  lemma {:induction false} CountOneMore(rows: seq<Row>, row: Row, since: nat, grant: Option<nat>)
    ensures AdmissionsSince(rows + [row], since, grant) ==
            AdmissionsSince(rows, since, grant) + if Counts(row, since, grant) then 1 else 0
  {
    assert (rows + [row])[..|rows|] == rows;
  }

  lemma {:induction false} CountBoth(a: seq<Row>, b: seq<Row>, since: nat, grant: Option<nat>)
    ensures AdmissionsSince(a + b, since, grant) == AdmissionsSince(a, since, grant) + AdmissionsSince(b, since, grant)
    decreases |b|
  {
    if b == [] {
      assert a + b == a;
    } else {
      var rest, last := b[..|b| - 1], b[|b| - 1];
      CountBoth(a, rest, since, grant);
      CountOneMore(a + rest, last, since, grant);
      assert a + b == a + rest + [last];
    }
  }

  /** Deleting moves rows from the journal to what it has forgotten, and loses none. */
  lemma {:induction false} PruneSplits(rows: seq<Row>, cut: nat, since: nat, grant: Option<nat>)
    ensures AdmissionsSince(rows, since, grant) ==
            AdmissionsSince(Prune(rows, cut, true), since, grant) + AdmissionsSince(Prune(rows, cut, false), since, grant)
    decreases |rows|
  {
    if rows != [] {
      var rest, last := rows[..|rows| - 1], rows[|rows| - 1];
      PruneSplits(rest, cut, since, grant);
      var kept := last.at >= cut;
      CountOneMore(Prune(rest, cut, kept), last, since, grant);
      assert Prune(rest, cut, !kept) + [] == Prune(rest, cut, !kept);
    }
  }

  lemma {:induction false} PrunedAreEarlier(rows: seq<Row>, cut: nat)
    ensures forall row :: row in Prune(rows, cut, false) ==> row.at < cut
    decreases |rows|
  {
    if rows != [] { PrunedAreEarlier(rows[..|rows| - 1], cut); }
  }

  lemma {:induction false} NoneSince(rows: seq<Row>, since: nat, grant: Option<nat>)
    requires forall row :: row in rows ==> row.at < since
    ensures AdmissionsSince(rows, since, grant) == 0
    decreases |rows|
  {
    if rows != [] { NoneSince(rows[..|rows| - 1], since, grant); }
  }

  lemma {:induction false} SomeSince(rows: seq<Row>, since: nat, row: Row)
    requires row in rows && row.at >= since
    ensures AdmissionsSince(rows, since, None) > 0
    decreases |rows|
  {
    if rows[|rows| - 1] != row {
      assert row in rows[..|rows| - 1];
      SomeSince(rows[..|rows| - 1], since, row);
    }
  }

  /** The journal's count of a window is the history's exactly when nothing it has deleted is in it. */
  lemma {:induction false} CountIsTrueExactlyWhen(l: Ledger, since: nat)
    requires Balanced(l)
    ensures AdmissionsSince(l.journal.rows, since, None) == AdmissionsSince(l.history, since, None) <==>
            forall row :: row in l.forgotten ==> row.at < since
  {
    if forall row :: row in l.forgotten ==> row.at < since {
      NoneSince(l.forgotten, since, None);
    } else {
      var row :| row in l.forgotten && row.at >= since;
      SomeSince(l.forgotten, since, row);
    }
  }

  lemma {:induction false} WindowIsCounted(history: seq<Row>, from: nat, since: nat, grant: Option<nat>)
    requires since <= from
    ensures InWindow(history, from, grant) <= AdmissionsSince(history, since, grant)
    decreases |history|
  {
    if history != [] { WindowIsCounted(history[..|history| - 1], from, since, grant); }
  }

  lemma {:induction false} WindowOneMore(history: seq<Row>, row: Row, from: nat, grant: Option<nat>)
    ensures InWindow(history + [row], from, grant) ==
            InWindow(history, from, grant) + if Counts(row, from, grant) && row.at <= from + WINDOW_MS then 1 else 0
  {
    assert (history + [row])[..|history|] == history;
  }

  /** One more admission the journal let in leaves every window within its rate. */
  lemma {:induction false} AdmissionKeepsRates(l: Ledger, step: Step)
    requires Kept(l) && Admits(l.journal, step) && Counted(l, step)
    ensures WithinRates(Take(l, step).history)
  {
    var row := Row(step.now, step.grant);
    var since := Monus(step.now, WINDOW_MS);
    forall from: nat, grant
      ensures InWindow(l.history + [row], from, grant) <= if grant.None? then HOST_MAX_PER_WINDOW else GRANT_MAX_PER_WINDOW
    {
      WindowOneMore(l.history, row, from, grant);
      if Counts(row, from, grant) && row.at <= from + WINDOW_MS {
        WindowIsCounted(l.history, from, since, grant);
        NoneSince(l.forgotten, since, grant);
      }
    }
  }

  lemma {:induction false} AdmissionKeepsBalance(l: Ledger, step: Step)
    requires Balanced(l) && Admits(l.journal, step)
    ensures Balanced(Take(l, step))
  {
    var row, cut := Row(step.now, step.grant), Monus(step.now, WINDOW_MS);
    var rows := l.journal.rows;
    forall since, grant
      ensures AdmissionsSince(l.history + [row], since, grant) ==
              AdmissionsSince(Prune(rows, cut, true) + [row], since, grant)
              + AdmissionsSince(l.forgotten + Prune(rows, cut, false), since, grant)
    {
      CountOneMore(l.history, row, since, grant);
      CountOneMore(Prune(rows, cut, true), row, since, grant);
      CountBoth(l.forgotten, Prune(rows, cut, false), since, grant);
      PruneSplits(rows, cut, since, grant);
    }
  }

  lemma {:induction false} MovedRun(runs: map<nat, RunOf>, id: nat, run: RunOf, workflow: nat, status: Status)
    ensures var after := RunsIn(runs[id := run], workflow, status);
            after == if run == RunOf(workflow, status) then RunsIn(runs, workflow, status) + {id}
                     else RunsIn(runs, workflow, status) - {id}
  {
  }

  lemma {:induction false} StepKeepsLimits(j: Journal, step: Step)
    requires WithinLimits(j.runs)
    ensures WithinLimits(Apply(j, step).runs)
  {
    var d := Apply(j, step);
    if d != j && d.runs != j.runs {
      var run := d.runs[step.id];
      assert d.runs == j.runs[step.id := run];
      forall workflow
        ensures |RunsIn(d.runs, workflow, Running)| <= CONCURRENT_RUNS && |RunsIn(d.runs, workflow, Pending)| <= PENDING_RUNS
      {
        MovedRun(j.runs, step.id, run, workflow, Running);
        MovedRun(j.runs, step.id, run, workflow, Pending);
      }
    }
  }

  lemma {:induction false} StepKeeps(l: Ledger, step: Step)
    requires Kept(l) && Counted(l, step)
    ensures Kept(Take(l, step))
  {
    StepKeepsLimits(l.journal, step);
    if Admits(l.journal, step) {
      AdmissionKeepsBalance(l, step);
      AdmissionKeepsRates(l, step);
    } else {
      assert Apply(l.journal, step).rows == l.journal.rows;
    }
  }

  lemma {:induction false} RunKeeps(l: Ledger, steps: seq<Step>)
    requires Kept(l) && AllCounted(l, steps)
    ensures Kept(Run(l, steps))
    decreases |steps|
  {
    if steps != [] {
      StepKeeps(l, steps[0]);
      RunKeeps(Take(l, steps[0]), steps[1..]);
    }
  }

  lemma {:induction false} EmptyIsKept()
    ensures Kept(EMPTY)
  {
    assert forall w: nat, s: Status :: RunsIn(map[], w, s) == {};
  }

  /** From an empty journal, as long as nothing it deleted falls in the window an admission is decided
      over, no closed window of sixty seconds anywhere in the whole history holds more admissions than
      its rate, and no workflow exceeds its limits. */
  lemma {:induction false} RatesHoldOverEveryWindow(steps: seq<Step>, from: nat, grant: Option<nat>, workflow: nat)
    requires AllCounted(EMPTY, steps)
    ensures var l := Run(EMPTY, steps);
            && InWindow(l.history, from, grant) <= (if grant.None? then HOST_MAX_PER_WINDOW else GRANT_MAX_PER_WINDOW)
            && |RunsIn(l.journal.runs, workflow, Running)| <= CONCURRENT_RUNS
            && |RunsIn(l.journal.runs, workflow, Pending)| <= PENDING_RUNS
  {
    EmptyIsKept();
    RunKeeps(EMPTY, steps);
  }

  /** Times that never go back are enough: what is deleted lies before every later window. */
  lemma {:induction false} ForwardIsCounted(l: Ledger, now: nat, steps: seq<Step>)
    requires Forward(now, steps) && forall row :: row in l.forgotten ==> row.at < Monus(now, WINDOW_MS)
    ensures AllCounted(l, steps)
    decreases |steps|
  {
    if steps != [] {
      var step := steps[0];
      if step.Admit? { PrunedAreEarlier(l.journal.rows, Monus(step.now, WINDOW_MS)); }
      ForwardIsCounted(Take(l, step), if step.Admit? then step.now else now, steps[1..]);
    }
  }

  /** While time does not go back, every window is within its rate. */
  lemma {:induction false} RatesHoldWhileTimeGoesForward(steps: seq<Step>, now: nat, from: nat, grant: Option<nat>)
    requires Forward(now, steps)
    ensures InWindow(Run(EMPTY, steps).history, from, grant) <=
            if grant.None? then HOST_MAX_PER_WINDOW else GRANT_MAX_PER_WINDOW
  {
    ForwardIsCounted(EMPTY, now, steps);
    RatesHoldOverEveryWindow(steps, from, grant, 0);
  }

  // ---- a clock that goes back --------------------------------------------------------------

  lemma {:induction false} RunThen(l: Ledger, a: seq<Step>, b: seq<Step>)
    ensures Run(l, a + b) == Run(Run(l, a), b)
    decreases |a|
  {
    if a == [] {
      assert a + b == b;
    } else {
      assert (a + b)[0] == a[0] && (a + b)[1..] == a[1..] + b;
      RunThen(Take(l, a[0]), a[1..], b);
    }
  }

  lemma {:induction false} RunOfTwo(l: Ledger, a: Step, b: Step)
    ensures Run(l, [a, b]) == Take(Take(l, a), b)
  {
    var steps := [a, b];
    assert steps[1..] == [b] && steps[1..][1..] == [];
    assert Run(Take(l, a), steps[1..]) == Run(Take(Take(l, a), b), []);
  }

  /** One grant's runs, each admitted at one moment and finished at once. */
  function Spend(n: nat): seq<Step> {
    if n == 0 then [] else Spend(n - 1) + [Admit(n - 1, 1, 7, 10), Finish(n - 1)]
  }

  function Alike(n: nat): (rows: seq<Row>)
    ensures |rows| == n
  {
    seq(n, i => Row(10, 7))
  }

  lemma {:induction false} AlikeCounts(n: nat, grant: Option<nat>)
    ensures AdmissionsSince(Alike(n), 0, grant) == if grant == None || grant == Some(7) then n else 0
    ensures InWindow(Alike(n), 0, Some(7)) == n && Prune(Alike(n), 0, true) == Alike(n) && Prune(Alike(n), 0, false) == []
    ensures Prune(Alike(n), 40_000, true) == []
    decreases n
  {
    if n > 0 {
      assert Alike(n)[..n - 1] == Alike(n - 1);
      AlikeCounts(n - 1, grant);
      assert Alike(n) == Alike(n - 1) + [Row(10, 7)];
    }
  }

  /** What spending leaves: every admission in the journal and in the history, and no run still running. */
  ghost predicate SpentIs(l: Ledger, n: nat) {
    && l.journal.rows == Alike(n) && l.history == Alike(n) && l.forgotten == []
    && forall id :: id in l.journal.runs ==> id < n && l.journal.runs[id] == RunOf(1, Done)
  }

  lemma {:induction false} OneMoreIsAdmitted(l: Ledger, n: nat)
    requires SpentIs(l, n) && n < GRANT_MAX_PER_WINDOW
    ensures Take(l, Admit(n, 1, 7, 10)) ==
            Ledger(Journal(Alike(n + 1), l.journal.runs[n := RunOf(1, Running)]), Alike(n + 1), [])
  {
    AlikeCounts(n, None);
    AlikeCounts(n, Some(7));
    assert RunsIn(l.journal.runs, 1, Running) == {};
    assert Alike(n + 1) == Alike(n) + [Row(10, 7)];
    assert Place(l.journal, 1, 7, 10) == Start && n in Apply(l.journal, Admit(n, 1, 7, 10)).runs;
  }

  lemma {:induction false} OneMoreIsSpent(l: Ledger, n: nat)
    requires SpentIs(l, n) && n < GRANT_MAX_PER_WINDOW
    ensures SpentIs(Run(l, [Admit(n, 1, 7, 10), Finish(n)]), n + 1)
  {
    OneMoreIsAdmitted(l, n);
    RunOfTwo(l, Admit(n, 1, 7, 10), Finish(n));
    assert !Admits(Take(l, Admit(n, 1, 7, 10)).journal, Finish(n));
  }

  lemma {:induction false} SpendingSpends(n: nat)
    requires n <= GRANT_MAX_PER_WINDOW
    ensures SpentIs(Run(EMPTY, Spend(n)), n)
    decreases n
  {
    if n > 0 {
      SpendingSpends(n - 1);
      RunThen(EMPTY, Spend(n - 1), [Admit(n - 1, 1, 7, 10), Finish(n - 1)]);
      OneMoreIsSpent(Run(EMPTY, Spend(n - 1)), n - 1);
    }
  }

  /** Another grant's run much later, and then the first grant's again at the moment it had spent. */
  const BACK := [Admit(1000, 1, 8, 100_000), Admit(1001, 1, 7, 10)]

  lemma {:induction false} LateIsAdmitted(l: Ledger, n: nat)
    requires SpentIs(l, n) && n == GRANT_MAX_PER_WINDOW
    ensures var once := Take(l, Admit(1000, 1, 8, 100_000));
            && once.journal.rows == [Row(100_000, 8)] && once.history == Alike(n) + [Row(100_000, 8)]
            && RunsIn(once.journal.runs, 1, Running) == {1000} && 1001 !in once.journal.runs
  {
    assert forall i :: 0 <= i < n ==> Alike(n)[i] == Row(10, 7);
    NoneSince(Alike(n), 40_000, None);
    NoneSince(Alike(n), 40_000, Some(8));
    AlikeCounts(n, None);
    assert RunsIn(l.journal.runs, 1, Running) == {};
    assert 1000 !in l.journal.runs;
    assert Prune(Alike(n), 40_000, true) + [Row(100_000, 8)] == [Row(100_000, 8)];
  }

  lemma {:induction false} BackIsAdmitted(j: Journal)
    requires j.rows == [Row(100_000, 8)] && RunsIn(j.runs, 1, Running) == {1000} && 1001 !in j.runs
    ensures Admits(j, Admit(1001, 1, 7, 10))
  {
    CountOneMore([], Row(100_000, 8), 0, None);
    CountOneMore([], Row(100_000, 8), 0, Some(7));
    assert [] + [Row(100_000, 8)] == j.rows;
    assert Place(j, 1, 7, 10) == Start;
    assert 1001 in Apply(j, Admit(1001, 1, 7, 10)).runs;
  }

  /** A run from an empty journal whose clock goes back lets a grant past its rate: the journal has
      deleted, for a later moment, what an earlier window still holds. */
  lemma {:induction false} RateFailsWhenTimeGoesBack(n: nat)
    requires n == GRANT_MAX_PER_WINDOW
    ensures InWindow(Run(EMPTY, Spend(n) + BACK).history, 0, Some(7)) == GRANT_MAX_PER_WINDOW + 1
    ensures !AllCounted(EMPTY, Spend(n) + BACK)
  {
    var l, late, back := Run(EMPTY, Spend(n)), BACK[0], BACK[1];
    SpendingSpends(n);
    LateIsAdmitted(l, n);
    var once := Take(l, late);
    BackIsAdmitted(once.journal);
    var twice := Take(once, back);
    RunThen(EMPTY, Spend(n), BACK);
    RunOfTwo(l, late, back);
    assert BACK == [late, back];
    AlikeCounts(n, None);
    WindowOneMore(Alike(n), Row(100_000, 8), 0, Some(7));
    WindowOneMore(once.history, Row(10, 7), 0, Some(7));
    if AllCounted(EMPTY, Spend(n) + BACK) {
      RatesHoldOverEveryWindow(Spend(n) + BACK, 0, Some(7), 0);
      assert false;
    }
  }

  // ---- while there is room -----------------------------------------------------------------

  /** Fewer admissions than the rates in the window up to `now`, of the whole history. */
  ghost predicate RateLeft(history: seq<Row>, grant: nat, now: nat) {
    && AdmissionsSince(history, Monus(now, WINDOW_MS), None) < HOST_MAX_PER_WINDOW
    && AdmissionsSince(history, Monus(now, WINDOW_MS), Some(grant)) < GRANT_MAX_PER_WINDOW
  }

  lemma {:induction false} BalancedThroughout(l: Ledger, steps: seq<Step>)
    requires Balanced(l)
    ensures Balanced(Run(l, steps))
    decreases |steps|
  {
    if steps != [] {
      if Admits(l.journal, steps[0]) {
        AdmissionKeepsBalance(l, steps[0]);
      } else {
        assert Apply(l.journal, steps[0]).rows == l.journal.rows;
      }
      BalancedThroughout(Take(l, steps[0]), steps[1..]);
    }
  }

  /** What a placement comes to: whether the run is recorded, and as what. */
  lemma {:induction false} PlacedIsRecorded(j: Journal, step: Step)
    requires step.Admit? && step.id !in j.runs
    ensures var placed := Place(j, step.workflow, step.grant, step.now);
            && (Admits(j, step) <==> placed.Start? || placed.Queue?)
            && (Admits(j, step) ==>
                  Apply(j, step).runs == j.runs[step.id := RunOf(step.workflow, if placed.Start? then Running else Pending)])
            && (!Admits(j, step) ==> Apply(j, step) == j)
  {
    var placed := Place(j, step.workflow, step.grant, step.now);
    if placed.Start? || placed.Queue? { assert step.id in Apply(j, step).runs; }
  }

  /** From an empty journal, after any run that deleted nothing of the window, a new run is admitted if and only
      if both rates have room in the window of the whole history and the workflow has a slot or a place in
      its queue; it starts if and only if there is a slot, waits otherwise, and a refusal changes nothing. */
  lemma {:induction false} AdmittedExactlyWhileThereIsRoom(steps: seq<Step>, step: Step)
    requires step.Admit? && step.id !in Run(EMPTY, steps).journal.runs && Counted(Run(EMPTY, steps), step)
    ensures var l := Run(EMPTY, steps);
            var running, waiting := |RunsIn(l.journal.runs, step.workflow, Running)|, |RunsIn(l.journal.runs, step.workflow, Pending)|;
            var after := Take(l, step).journal;
            && (step.id in after.runs <==>
                  RateLeft(l.history, step.grant, step.now) && (running < CONCURRENT_RUNS || waiting < PENDING_RUNS))
            && (step.id in after.runs ==>
                  after.runs == l.journal.runs[step.id := RunOf(step.workflow, if running < CONCURRENT_RUNS then Running else Pending)])
            && (step.id !in after.runs ==> after == l.journal)
  {
    var l := Run(EMPTY, steps);
    EmptyIsKept();
    BalancedThroughout(EMPTY, steps);
    NoneSince(l.forgotten, Monus(step.now, WINDOW_MS), None);
    NoneSince(l.forgotten, Monus(step.now, WINDOW_MS), Some(step.grant));
    PlacedIsRecorded(l.journal, step);
  }
}
