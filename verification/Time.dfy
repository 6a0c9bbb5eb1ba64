/** Readings of the host's two clocks, intervals on the continuous one, and quiet hours on the wall
    clock. Nothing here reads a clock: a reading is always a value somebody hands over. */
module Time {
  import opened Common

  const MS_IN_DAY: nat := 86_400_000
  const MS_IN_MINUTE: nat := 60_000
  const MINUTES_IN_DAY: nat := 1_440

  /** A moment on the continuous clock of one boot. */
  datatype Anchor = Anchor(boot: nat, ms: nat)

  datatype PrivacyStamp = PrivacyStamp(generation: nat, private: bool)

  datatype Reading = Reading(
    boot: nat, ms: nat, wall: nat, wallProven: bool, privacy: Option<PrivacyStamp>)
  {
    function Anchored(): Anchor {
      Anchor(boot, ms)
    }

    function MsOfDay(): nat {
      wall % MS_IN_DAY
    }

    function MinuteOfDay(): nat {
      MsOfDay() / MS_IN_MINUTE
    }

    /** This reading as it stood at an earlier continuous moment, or itself when that is not earlier. */
    function AtOrBefore(certificate: nat): (r: Reading)
      ensures r.boot == boot && r.ms == Min(certificate, ms)
    {
      if certificate >= ms then this
      else Reading(boot, certificate, Monus(wall, ms - certificate), wallProven, privacy)
    }
  }

  /** How much of an interval measured from `anchor` had run at `r`: nought unless both are of one boot. */
  function Waited(anchor: Option<Anchor>, r: Reading): nat {
    if anchor.Some? && anchor.value.boot == r.boot then Monus(r.ms, anchor.value.ms) else 0
  }

  /** The anchor, on this reading's clock, of an interval that has run for `elapsed`. */
  function AnchorOf(elapsed: nat, r: Reading): Anchor {
    Anchor(r.boot, Monus(r.ms, elapsed))
  }

  /** A running interval: what had passed at a moment, and the continuous reading of that moment. */
  datatype Elapsed = Elapsed(already: nat, anchor: nat) {
    function Ms(r: Reading): nat {
      if r.ms >= anchor then already + (r.ms - anchor) else Monus(already, anchor - r.ms)
    }

    function DueAt(after: nat): nat {
      anchor + Monus(after, already)
    }

    /** The interval was begun on this boot's clock, at `Start()`, and last measured by `now`. */
    ghost predicate Began(now: nat) {
      already <= anchor <= now
    }

    ghost function Start(): nat
      requires already <= anchor
    {
      anchor - already
    }
  }

  function Starting(r: Reading): Elapsed {
    Elapsed(0, r.ms)
  }

  /** A deadline is exact for readings at or after the interval was last measured. */
  lemma {:induction false} DueExact(e: Elapsed, r: Reading, after: nat)
    requires e.anchor <= r.ms
    ensures e.Ms(r) >= after <==> r.ms >= e.DueAt(after)
  {
  }

  /** A deadline agrees with the interval at every reading from the anchor on, and before it exactly when
      the interval had not run so long by then. */
  lemma {:induction false} DeadlineAgreesExactlyWhen(e: Elapsed, r: Reading, after: nat)
    ensures (e.Ms(r) >= after <==> r.ms >= e.DueAt(after)) <==>
            e.anchor <= r.ms || (0 < after && e.already < after + (e.anchor - r.ms))
  {
  }

  /** An interval of ten measured at twenty had run for five at fifteen, and its deadline for five says twenty. */
  lemma {:induction false} DeadlineMissesBeforeTheAnchor()
    ensures exists e: Elapsed, r: Reading, after: nat :: e.Ms(r) >= after && r.ms < e.DueAt(after)
  {
    var e, r := Elapsed(10, 20), Reading(0, 15, 0, true, None);
    assert e.Ms(r) == 5 && e.DueAt(5) == 20;
  }

  /** An interval only grows with the reading it is measured at. */
  lemma {:induction false} ElapsedMonotone(e: Elapsed, early: Reading, late: Reading)
    requires early.ms <= late.ms
    ensures e.Ms(early) <= e.Ms(late)
  {
  }

  // ---- quiet hours -------------------------------------------------------------------------

  datatype QuietHours = QuietHours(startMinute: nat, endMinute: nat) {
    predicate Covers(minuteOfDay: nat) {
      var start := startMinute % MINUTES_IN_DAY;
      var end := endMinute % MINUTES_IN_DAY;
      var minute := minuteOfDay % MINUTES_IN_DAY;
      if start == end then true
      else if start < end then start <= minute < end
      else minute >= start || minute < end
    }

    function MinutesUntilEnd(minuteOfDay: nat): nat {
      var end := endMinute % MINUTES_IN_DAY;
      var minute := minuteOfDay % MINUTES_IN_DAY;
      if startMinute % MINUTES_IN_DAY == end then MINUTES_IN_DAY
      else if end > minute then end - minute
      else MINUTES_IN_DAY - minute + end
    }
  }

  /** A host that cannot prove its wall clock is never inside quiet hours. */
  predicate QuietAt(quiet: Option<QuietHours>, r: Reading) {
    r.wallProven && quiet.Some? && quiet.value.Covers(r.MinuteOfDay())
  }

  /** The continuous reading quiet hours end at, when the host is inside them. */
  function QuietRelease(quiet: Option<QuietHours>, r: Reading): Option<nat> {
    if QuietAt(quiet, r)
    then Some(r.ms + Monus(quiet.value.MinutesUntilEnd(r.MinuteOfDay()) * MS_IN_MINUTE, r.MsOfDay() % MS_IN_MINUTE))
    else None
  }

  /** Two readings of an undisturbed machine: the wall clock moved exactly as the continuous one did. */
  ghost predicate InStep(r: Reading, later: Reading) {
    && r.boot == later.boot && r.ms <= later.ms
    && r.wallProven == later.wallProven
    && later.wall - r.wall == later.ms - r.ms
  }

  lemma {:induction false} MinuteParts(r: Reading)
    ensures r.MinuteOfDay() < MINUTES_IN_DAY
    ensures r.MsOfDay() == r.MinuteOfDay() * MS_IN_MINUTE + r.MsOfDay() % MS_IN_MINUTE
  {
  }

  /** Where a reading of the same machine falls in its day, some time less than a day later. */
  lemma {:induction false} LaterInDay(r: Reading, later: Reading)
    requires InStep(r, later) && later.ms - r.ms < MS_IN_DAY
    ensures var run := r.MsOfDay() + (later.ms - r.ms);
            later.MsOfDay() == if run < MS_IN_DAY then run else run - MS_IN_DAY
  {
    var run := r.MsOfDay() + (later.ms - r.ms);
    var days := r.wall / MS_IN_DAY;
    assert r.wall == days * MS_IN_DAY + r.MsOfDay();
    assert later.wall == days * MS_IN_DAY + run;
    if run < MS_IN_DAY {
      assert later.wall / MS_IN_DAY == days;
    } else {
      assert later.wall == (days + 1) * MS_IN_DAY + (run - MS_IN_DAY);
      assert later.wall / MS_IN_DAY == days + 1;
    }
  }

  /** The release lies after the reading, and the window stands at every moment before it. */
  lemma {:induction false} QuietUntilRelease(quiet: Option<QuietHours>, r: Reading, later: Reading)
    requires QuietAt(quiet, r) && InStep(r, later)
    ensures QuietRelease(quiet, r).value > r.ms
    ensures later.ms < QuietRelease(quiet, r).value ==> QuietAt(quiet, later)
  {
    MinuteParts(r);
    MinuteParts(later);
    if later.ms < QuietRelease(quiet, r).value {
      LaterInDay(r, later);
    }
  }

  /** The release is the end of the window itself, unless the window is the whole day. */
  lemma {:induction false} QuietEndsAtRelease(quiet: Option<QuietHours>, r: Reading, later: Reading)
    requires QuietAt(quiet, r) && InStep(r, later)
    requires quiet.value.startMinute % MINUTES_IN_DAY != quiet.value.endMinute % MINUTES_IN_DAY
    requires later.ms == QuietRelease(quiet, r).value
    ensures !QuietAt(quiet, later)
  {
    MinuteParts(r);
    MinuteParts(later);
    LaterInDay(r, later);
  }

  /** A window covers a minute exactly when fewer minutes have passed since its start than lie between its start
      and its end, counted round the clock; one that starts where it ends covers every minute. */
  lemma {:induction false} CoversFromItsStart(quiet: QuietHours, minute: nat)
    ensures var start, end := quiet.startMinute % MINUTES_IN_DAY, quiet.endMinute % MINUTES_IN_DAY;
            quiet.Covers(minute) <==>
            start == end || (minute % MINUTES_IN_DAY - start) % MINUTES_IN_DAY < (end - start) % MINUTES_IN_DAY
  {
    var start, end, at := quiet.startMinute % MINUTES_IN_DAY, quiet.endMinute % MINUTES_IN_DAY, minute % MINUTES_IN_DAY;
    RoundTheClock(at - start);
    RoundTheClock(end - start);
  }

  lemma {:induction false} RoundTheClock(minutes: int)
    requires -1_440 < minutes < 1_440
    ensures minutes % MINUTES_IN_DAY == if minutes < 0 then minutes + MINUTES_IN_DAY else minutes
  {
  }
}
