/** Where in the log of a run each call of the run wrote. */
module RunLog {
  import opened EngineModel
  import opened Runs
  import opened Calls

  /** The world as the call at place `n` of a run finds it. */
  ghost function Before(w: World, ops: seq<Op>, n: nat): World
    requires n <= |ops|
  {
    Run(w, ops[..n])
  }

  lemma {:induction false} RunThen(w: World, a: seq<Op>, b: seq<Op>)
    ensures Run(w, a + b) == Run(Run(w, a), b)
    decreases |a|
  {
    if a == [] {
      assert a + b == b;
    } else {
      assert (a + b)[0] == a[0] && (a + b)[1..] == a[1..] + b;
      RunThen(Step(w, a[0]), a[1..], b);
    }
  }

  lemma {:induction false} RunOfOne(w: World, op: Op)
    ensures Run(w, [op]) == Step(w, op)
  {
    assert [op][1..] == [];
    assert Run(Step(w, op), []) == Step(w, op);
  }

  lemma {:induction false} RunLast(w: World, ops: seq<Op>)
    requires ops != []
    ensures Run(w, ops) == Step(Run(w, ops[..|ops| - 1]), ops[|ops| - 1])
  {
    var n := |ops| - 1;
    assert ops == ops[..n] + [ops[n]];
    RunThen(w, ops[..n], [ops[n]]);
    RunOfOne(Run(w, ops[..n]), ops[n]);
  }

  lemma {:induction false} StepAt(w: World, ops: seq<Op>, n: nat)
    requires n < |ops|
    ensures Before(w, ops, n + 1) == Step(Before(w, ops, n), ops[n])
    ensures Before(w, ops, n + 1).log == Before(w, ops, n).log + Wrote(Before(w, ops, n), ops[n])
  {
    RunLast(w, ops[..n + 1]);
    assert ops[..n + 1][..n] == ops[..n];
    StepWrites(Before(w, ops, n), ops[n]);
  }

  lemma {:induction false} TimelyTo(w: World, ops: seq<Op>, n: nat)
    requires TimelyRun(w, ops) && n <= |ops|
    ensures TimelyRun(w, ops[..n])
    decreases n
  {
    if n > 0 {
      assert ops[..n][0] == ops[0] && ops[..n][1..] == ops[1..][..n - 1];
      TimelyTo(Step(w, ops[0]), ops[1..], n - 1);
    }
  }

  lemma {:induction false} TimelyAt(w: World, ops: seq<Op>, n: nat)
    requires TimelyRun(w, ops) && n < |ops|
    ensures Timely(Before(w, ops, n), ops[n])
    decreases n
  {
    if n > 0 {
      assert ops[..n][0] == ops[0] && ops[..n][1..] == ops[1..][..n - 1];
      TimelyAt(Step(w, ops[0]), ops[1..], n - 1);
    } else {
      assert ops[..0] == [];
    }
  }

  /** A call that is no restart performs its acts at its own reading. */
  lemma {:induction false} StepIsExec(w: World, op: Op)
    requires !op.Restart?
    ensures var r := ReadingOf(w.now, op);
            Step(w, op).core == Exec(w.core, ActsOf(w.core, op, r), r) && Step(w, op).now == r
  {
    var at := w.(now := ReadingOf(w.now, op));
    PerformIsExec(at, ActsOf(at.core, op, at.now));
  }

  /** What is written stays written, where it was. */
  lemma {:induction false} LogsGrow(w: World, ops: seq<Op>, m: nat, n: nat)
    requires m <= n <= |ops|
    ensures Before(w, ops, m).log <= Before(w, ops, n).log
    decreases n
  {
    if m < n {
      LogsGrow(w, ops, m, n - 1);
      CallGrowsLog(w, ops, n - 1);
      StartsLonger(Before(w, ops, m).log, Before(w, ops, n - 1).log, Before(w, ops, n).log);
    }
  }

  lemma {:induction false} CallGrowsLog(w: World, ops: seq<Op>, n: nat)
    requires n < |ops|
    ensures Before(w, ops, n).log <= Before(w, ops, n + 1).log
  {
    StepAt(w, ops, n);
  }

  lemma {:induction false} StartsLonger(a: seq<Entry>, b: seq<Entry>, c: seq<Entry>)
    requires a <= b <= c
    ensures a <= c
  {
  }

  lemma {:induction false} FoundIn(before: seq<Entry>, wrote: seq<Entry>, whole: seq<Entry>, e: Entry) returns (x: nat)
    requires before + wrote <= whole && e in wrote
    ensures |before| <= x < |before + wrote| && x < |whole| && whole[x] == e
  {
    var y :| 0 <= y < |wrote| && wrote[y] == e;
    x := |before| + y;
    assert (before + wrote)[x] == e;
  }

  /** A run keeps to its own time line. */
  lemma {:induction false} SameTimeLine(w: World, ops: seq<Op>)
    ensures Run(w, ops).epoch == w.epoch
    decreases |ops|
  {
    if ops != [] {
      StepWrites(w, ops[0]);
      SameTimeLine(Step(w, ops[0]), ops[1..]);
    }
  }

  /** The call at place `n` wrote the entry at place `x`. */
  ghost predicate WroteAt(w: World, ops: seq<Op>, n: nat, x: nat) {
    && n < |ops| && |Before(w, ops, n).log| <= x < |Before(w, ops, n + 1).log|
    && x < |Run(w, ops).log| && Run(w, ops).log[x] in Wrote(Before(w, ops, n), ops[n])
  }

  lemma {:induction false} WriterBy(w: World, ops: seq<Op>, k: nat, x: nat) returns (n: nat)
    requires k <= |ops| && |w.log| <= x < |Before(w, ops, k).log|
    ensures n < k && |Before(w, ops, n).log| <= x < |Before(w, ops, n + 1).log|
    decreases k
  {
    assert k > 0 by { assert ops[..0] == []; }
    n := k - 1;
    if x < |Before(w, ops, n).log| {
      n := WriterBy(w, ops, n, x);
    }
  }

  /** Every entry a run wrote was written by one of its calls. */
  lemma {:induction false} WriterOf(w: World, ops: seq<Op>, x: nat) returns (n: nat)
    requires |w.log| <= x < |Run(w, ops).log|
    ensures WroteAt(w, ops, n, x)
  {
    assert ops[..|ops|] == ops;
    n := WriterBy(w, ops, |ops|, x);
    StepAt(w, ops, n);
    LogsGrow(w, ops, n + 1, |ops|);
    PlaceIn(Before(w, ops, n).log, Wrote(Before(w, ops, n), ops[n]), Run(w, ops).log, x);
  }

  lemma {:induction false} PlaceIn(before: seq<Entry>, wrote: seq<Entry>, whole: seq<Entry>, x: nat)
    requires before + wrote <= whole && |before| <= x < |before + wrote|
    ensures whole[x] in wrote
  {
    assert whole[x] == (before + wrote)[x] == wrote[x - |before|];
  }

  /** Every entry a call wrote is in the log, after what was there before the call. */
  lemma {:induction false} PlaceOfEntry(w: World, ops: seq<Op>, n: nat, e: Entry) returns (x: nat)
    requires n < |ops| && e in Wrote(Before(w, ops, n), ops[n])
    ensures WroteAt(w, ops, n, x) && Run(w, ops).log[x] == e
  {
    StepAt(w, ops, n);
    LogsGrow(w, ops, n + 1, |ops|);
    assert ops[..|ops|] == ops;
    x := FoundIn(Before(w, ops, n).log, Wrote(Before(w, ops, n), ops[n]), Run(w, ops).log, e);
  }

  /** Later entries are written by later calls, or by the same one. */
  lemma {:induction false} LaterWriter(w: World, ops: seq<Op>, m: nat, x: nat, n: nat, y: nat)
    requires WroteAt(w, ops, m, x) && WroteAt(w, ops, n, y)
    ensures x < y ==> m <= n
    ensures m < n ==> x < y
  {
    if n < m { LogsGrow(w, ops, n + 1, m); }
    if m < n { LogsGrow(w, ops, m + 1, n); }
  }
}
