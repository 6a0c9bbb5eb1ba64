/** Gaps account for exactly what is missing, and never end anything. */
module Gaps {
  import opened Time
  import opened Events
  import opened EngineModel
  import opened Runs
  import opened Guards
  import opened Handoff

  /** An entry accounts for record `n` of a source: the record was taken, or lies in a range recorded as a gap. */
  predicate Accounts(e: Entry, origin: Origin, source: Source, n: nat) {
    || (e.Took? && e.cursor == Cursor(origin, source, n))
    || (e.Said? && e.out.GapRecorded? && e.out.gap.origin == origin && e.out.gap.source == source
        && e.out.gap.to.Some? && e.out.gap.from <= n < e.out.gap.to.value)
  }

  /** How many entries of the log account for one record. */
  function TimesAccounted(log: seq<Entry>, origin: Origin, source: Source, n: nat): nat {
    if log == [] then 0
    else TimesAccounted(log[..|log| - 1], origin, source, n) + if Accounts(log[|log| - 1], origin, source, n) then 1 else 0
  }

  /** Every record up to the last consumed is accounted for once, and no later one is. */
  ghost predicate Accounted(w: World, origin: Origin, source: Source) {
    forall n :: n >= 1 ==>
      TimesAccounted(w.log, origin, source, n) == if n < NextSequence(w.core, origin, source) then 1 else 0
  }

  /** An act that takes no record of a source out of turn: the host itself may say where a source
      stands, or name a range of its own, and then the engine vouches for nothing. */
  ghost predicate InTurn(c: Core, act: Act, origin: Origin, source: Source) {
    match act
    case Skip(o, s, _) => (o, s) != (origin, source)
    case RecordGap(gap) =>
      (gap.origin, gap.source) == (origin, source) ==>
        gap.from == NextSequence(c, origin, source) && gap.to.Some?
    case _ => true
  }

  ghost predicate AllInTurn(c: Core, acts: seq<Act>, r: Reading, origin: Origin, source: Source)
    decreases |acts|
  {
    acts == [] || (InTurn(c, acts[0], origin, source) && AllInTurn(Apply(c, acts[0], r), acts[1..], r, origin, source))
  }

  lemma {:induction false} SourcesStay(c: Core, act: Act, r: Reading)
    requires !act.Skip? && !act.RecordGap? && !act.Advance?
    ensures Apply(c, act, r).consumed == c.consumed
    ensures forall e :: e in Note(c, act, r) ==> !e.Took? && (e.Said? ==> !e.out.GapRecorded?)
  {
  }

  lemma {:induction false} ActKeepsAccounted(w: World, act: Act, origin: Origin, source: Source)
    requires Accounted(w, origin, source) && NumbersEveryRecord(source)
    requires Enabled(w.core, act, w.now) && InTurn(w.core, act, origin, source)
    ensures Accounted(w.Do(act), origin, source)
  {
    if act.Skip? || act.RecordGap? || act.Advance? {
      forall n: nat | n >= 1
        ensures TimesAccounted(w.Do(act).log, origin, source, n) ==
                if n < NextSequence(w.Do(act).core, origin, source) then 1 else 0
      {
        SourceMoves(w, act, origin, source, n);
      }
    } else {
      SourcesStay(w.core, act, w.now);
      OthersKeepAccounted(w, act, origin, source);
    }
  }

  lemma {:induction false} OthersKeepAccounted(w: World, act: Act, origin: Origin, source: Source)
    requires Accounted(w, origin, source)
    requires Apply(w.core, act, w.now).consumed == w.core.consumed && |Note(w.core, act, w.now)| <= 1
    requires forall e :: e in Note(w.core, act, w.now) ==> !e.Took? && (e.Said? ==> !e.out.GapRecorded?)
    ensures Accounted(w.Do(act), origin, source)
  {
    LogGrows(w.log, Note(w.core, act, w.now));
  }

  lemma {:induction false} SourceMoves(w: World, act: Act, origin: Origin, source: Source, n: nat)
    requires Accounted(w, origin, source) && NumbersEveryRecord(source) && n >= 1
    requires Enabled(w.core, act, w.now) && InTurn(w.core, act, origin, source)
    requires act.Skip? || act.RecordGap? || act.Advance?
    ensures TimesAccounted(w.Do(act).log, origin, source, n) ==
            if n < NextSequence(w.Do(act).core, origin, source) then 1 else 0
  {
    if act.RecordGap? {
      GapMoves(w, act, origin, source, n);
    } else {
      LogGrows(w.log, Note(w.core, act, w.now));
    }
  }

  lemma {:induction false} GapMoves(w: World, act: Act, origin: Origin, source: Source, n: nat)
    requires Accounted(w, origin, source) && NumbersEveryRecord(source) && n >= 1
    requires Enabled(w.core, act, w.now) && InTurn(w.core, act, origin, source) && act.RecordGap?
    ensures TimesAccounted(w.Do(act).log, origin, source, n) ==
            if n < NextSequence(w.Do(act).core, origin, source) then 1 else 0
  {
    LogGrows(w.log, Note(w.core, act, w.now));
  }

  lemma {:induction false} ActsKeepAccounted(w: World, acts: seq<Act>, origin: Origin, source: Source)
    requires Accounted(w, origin, source) && NumbersEveryRecord(source)
    requires AllEnabled(w.core, acts, w.now) && AllInTurn(w.core, acts, w.now, origin, source)
    ensures Accounted(Perform(w, acts), origin, source)
    decreases |acts|
  {
    if acts != [] {
      ActKeepsAccounted(w, acts[0], origin, source);
      ActsKeepAccounted(w.Do(acts[0]), acts[1..], origin, source);
    }
  }

  lemma {:induction false} OtherActsInTurn(c: Core, acts: seq<Act>, r: Reading, origin: Origin, source: Source)
    requires forall act :: act in acts ==> !act.Skip? && !act.RecordGap?
    ensures AllInTurn(c, acts, r, origin, source)
    decreases |acts|
  {
    if acts != [] { OtherActsInTurn(Apply(c, acts[0], r), acts[1..], r, origin, source); }
  }

  lemma {:induction false} ConsumeInTurn(c: Core, e: Event, r: Reading, mode: Mode, origin: Origin, source: Source)
    ensures AllInTurn(c, ConsumeActs(c, e, r, mode), r, origin, source)
  {
    if Takes(c, e.cursor) {
      var missed := MissedActs(c, e.cursor);
      var c1 := Exec(c, missed, r);
      var rest := PlanActs(c1, e.cursor, PlanOf(c1.digest, e), r, mode);
      OtherActsInTurn(c1, rest, r, origin, source);
      if missed == [] {
        assert missed + rest == rest;
      } else {
        assert (missed + rest)[0] == missed[0] && (missed + rest)[1..] == rest;
        OneExec(c, missed[0], [], r);
        assert missed == [missed[0]] + [];
      }
    }
  }

  /** The host says nothing of its own about a source. */
  predicate LeavesToEvents(op: Op, origin: Origin, source: Source) {
    && (op.NoteGap? ==> (op.gap.origin, op.gap.source) != (origin, source))
    && (op.StartFrom? ==> (op.origin, op.source) != (origin, source))
  }

  lemma {:induction false} OperationInTurn(c: Core, op: Op, r: Reading, origin: Origin, source: Source)
    requires LeavesToEvents(op, origin, source)
    ensures AllInTurn(c, ActsOf(c, op, r), r, origin, source)
  {
    if op.Consume? {
      ConsumeInTurn(c, op.event, r, op.mode, origin, source);
    } else if !op.NoteGap? && !op.StartFrom? {
      OtherOperations(c, op, r);
      OtherActsInTurn(c, ActsOf(c, op, r), r, origin, source);
    }
  }

  lemma {:induction false} OtherOperations(c: Core, op: Op, r: Reading)
    requires !op.Consume? && !op.NoteGap? && !op.StartFrom?
    ensures forall act :: act in ActsOf(c, op, r) ==> !act.Skip? && !act.RecordGap?
  {
    match op
    case Tick(_, certified) => TickMovesNoSource(c, r, certified);
    case Finalise(session) => FinaliseMovesNoSource(c, session);
    case SettleAnnouncements(settled) => SettlingMovesNoSource(c, settled);
    case _ =>
  }

  lemma {:induction false} TickMovesNoSource(c: Core, r: Reading, certified: map<Origin, nat>)
    ensures forall act :: act in TickActs(c, r, certified) ==> !act.Skip? && !act.RecordGap?
  {
    InboxMovesNoSource(TickActs(c, r, certified));
  }

  lemma {:induction false} InboxMovesNoSource(acts: seq<Act>)
    requires forall act :: act in acts ==> OnInbox(act) || act.Remind?
    ensures forall act :: act in acts ==> !act.Skip? && !act.RecordGap?
  {
  }

  lemma {:induction false} FinaliseMovesNoSource(c: Core, session: SessionId)
    ensures forall act :: act in FinaliseActs(c, session) ==> !act.Skip? && !act.RecordGap?
  {
  }

  lemma {:induction false} SettlingMovesNoSource(c: Core, settled: seq<(Key, nat)>)
    ensures forall act :: act in SettleActs(c, settled) ==> !act.Skip? && !act.RecordGap?
  {
  }

  /** For a source that numbers every record, driven by events alone, the records up to the last one
      consumed are exactly those the engine took and those it recorded as missing, each once, even
      after the engine's own list has let old gaps go. */
  lemma {:induction false} GapsAccountForWhatIsMissing(w: World, ops: seq<Op>, origin: Origin, source: Source)
    requires Consistent(w.core, w.now) && TimelyRun(w, ops)
    requires Accounted(w, origin, source) && NumbersEveryRecord(source)
    requires forall op :: op in ops ==> LeavesToEvents(op, origin, source)
    ensures Accounted(Run(w, ops), origin, source)
    decreases |ops|
  {
    if ops != [] {
      var op := ops[0];
      if op.Restart? {
        RestartKeepsConsistent(w.core, w.now, op.r);
      } else {
        var at := w.(now := ReadingOf(w.now, op));
        LaterKeepsConsistent(w.core, w.now, at.now);
        var acts := ActsOf(at.core, op, at.now);
        OperationsAreEnabled(at.core, op, at.now);
        OperationInTurn(at.core, op, at.now, origin, source);
        ActsKeepAccounted(at, acts, origin, source);
        PerformIsExec(at, acts);
        ActsKeepConsistent(at.core, acts, at.now);
      }
      GapsAccountForWhatIsMissing(Step(w, op), ops[1..], origin, source);
    }
  }

  /** Recording a range removes nothing from the inbox and marks uncertain exactly the items of that
      origin's source; a range that is empty or recorded already changes nothing at all. */
  lemma {:induction false} GapEndsNothing(c: Core, gap: Gap, r: Reading)
    ensures var d := Exec(c, NoteGapActs(c, gap), r);
            && d.items.Keys == c.items.Keys && d.pending == c.pending
            && (NoteGapActs(c, gap) == [] ==> d == c)
            && forall k :: k in c.items ==>
                 && d.items[k] == c.items[k].(uncertain := d.items[k].uncertain)
                 && (d.items[k].uncertain <==>
                     c.items[k].uncertain ||
                     (NoteGapActs(c, gap) != [] && c.items[k].about.origin == gap.origin && c.items[k].about.source == gap.source))
  {
    if NoteGapActs(c, gap) != [] {
      assert Exec(c, [RecordGap(gap)], r) == GapNoted(c, gap);
    }
  }
}
