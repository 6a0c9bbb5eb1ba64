/** Everything each act of the engine keeps, kept together over every run. */
module Soundness {
  import opened Time
  import opened Events
  import opened EngineModel
  import opened Runs
  import opened Guards
  import opened Spacing
  import opened Handoff
  import opened Stamps
  import opened Conservation
  import opened Acknowledgements
  import opened Reminders
  import opened RunLog

  /** Everything each act keeps. */
  ghost predicate Sound(w: World) {
    && Consistent(w.core, w.now) && Spaced(w) && HandedOff(w) && Stamped(w)
    && Conserved(w) && AcksExact(w) && Reminding(w) && OnlySpentLetGo(w.log)
  }

  lemma {:induction false} StartIsSound(digest: Subject -> nat, r: Reading, epoch: nat -> nat)
    ensures Sound(Start(digest, r, epoch))
  {
  }

  lemma {:induction false} ActKeepsSound(w: World, act: Act)
    requires Sound(w) && Enabled(w.core, act, w.now)
    ensures Sound(w.Do(act))
  {
    ActKeepsConsistent(w.core, act, w.now);
    ActKeepsSpaced(w, act);
    ActKeepsHandedOff(w, act);
    ActKeepsStamped(w, act);
    ActKeepsConserved(w, act);
    ActKeepsAcks(w, act);
    ActKeepsReminding(w, act);
    ActKeepsOnlySpentLetGo(w, act);
  }

  lemma {:induction false} ActsKeepSound(w: World, acts: seq<Act>)
    requires Sound(w) && AllEnabled(w.core, acts, w.now)
    ensures Sound(Perform(w, acts))
    decreases |acts|
  {
    if acts != [] {
      ActKeepsSound(w, acts[0]);
      ActsKeepSound(w.Do(acts[0]), acts[1..]);
    }
  }

  lemma {:induction false} LaterKeepsSound(w: World, r: Reading)
    requires Sound(w) && w.now.boot == r.boot && w.now.ms <= r.ms
    ensures Sound(w.(now := r))
  {
    LaterKeepsConsistent(w.core, w.now, r);
    LaterKeepsSpaced(w, r);
    LaterKeepsReminding(w, r);
    assert HandedOff(w.(now := r)) && Stamped(w.(now := r)) && Conserved(w.(now := r));
    forall actor, k ensures AckExact(w.(now := r), actor, k) { assert AckExact(w, actor, k); }
  }

  lemma {:induction false} RestartKeepsSound(w: World, r: Reading)
    requires Sound(w) && w.Of(w.now) <= w.Of(r)
    ensures Sound(w.(core := Reanchored(w.core, r), now := r))
  {
    RestartKeepsConsistent(w.core, w.now, r);
    RestartKeepsSpaced(w, r);
    RestartKeepsHandedOff(w, r);
    RestartKeepsStamped(w, r);
    RestartKeepsConserved(w, r);
    RestartKeepsAcks(w, r);
    RestartKeepsReminding(w, r);
  }

  lemma {:induction false} StepKeepsSound(w: World, op: Op)
    requires Sound(w) && Timely(w, op)
    ensures Sound(Step(w, op))
  {
    if op.Restart? {
      RestartKeepsSound(w, op.r);
    } else {
      CallKeepsSound(w, op);
    }
  }

  lemma {:induction false} CallKeepsSound(w: World, op: Op)
    requires Sound(w) && Timely(w, op) && !op.Restart?
    ensures Sound(Step(w, op))
  {
    var at := w.(now := ReadingOf(w.now, op));
    LaterKeepsSound(w, at.now);
    OperationKeepsSound(at, op);
  }

  lemma {:induction false} OperationKeepsSound(w: World, op: Op)
    requires Sound(w)
    ensures Sound(Perform(w, ActsOf(w.core, op, w.now)))
  {
    OperationsAreEnabled(w.core, op, w.now);
    ActsKeepSound(w, ActsOf(w.core, op, w.now));
  }

  /** Every run keeps everything. */
  lemma {:induction false} RunKeepsSound(w: World, ops: seq<Op>)
    requires Sound(w) && TimelyRun(w, ops)
    ensures Sound(Run(w, ops))
    decreases |ops|
  {
    if ops != [] {
      StepKeepsSound(w, ops[0]);
      RunKeepsSound(Step(w, ops[0]), ops[1..]);
    }
  }

  /** A run from an empty store whose readings never go back. */
  ghost predicate FromEmpty(start: World, ops: seq<Op>) {
    start == Start(start.core.digest, start.now, start.epoch) && TimelyRun(start, ops)
  }

  /** Every world such a run reaches is sound, at its end and before each of its calls. */
  lemma {:induction false} ReachedIsSound(start: World, ops: seq<Op>)
    requires FromEmpty(start, ops)
    ensures Sound(Run(start, ops))
  {
    StartIsSound(start.core.digest, start.now, start.epoch);
    RunKeepsSound(start, ops);
  }

  lemma {:induction false} SoundBefore(start: World, ops: seq<Op>, n: nat)
    requires FromEmpty(start, ops) && n <= |ops|
    ensures Sound(Before(start, ops, n))
  {
    TimelyTo(start, ops, n);
    ReachedIsSound(start, ops[..n]);
  }
}
