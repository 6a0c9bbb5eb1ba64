/** The attention rule set: what each rule asks for, the ladder it climbs, how often it is announced
    again, and whether the inbox's bound may let go of it. */
module Rules {
  import opened Common

  datatype RuleId =
    | PendingApproval | PendingInput | InputIdleReminder | CommandFailed | ReviewReady
    | AdapterFailed | HostContactLost | ApplicationNotice | AutomationPaused | AuthorityFeedRemoved

  datatype Level = Informational | Notable | Urgent {
    function Rank(): nat {
      match this case Informational => 0 case Notable => 1 case Urgent => 2
    }
  }

  datatype Rung = Rung(after: nat, level: Level)

  datatype Rule = Rule(
    initial: Level, steps: seq<Rung>, repeatMs: Option<nat>, dedupMs: nat, trusted: bool, droppable: bool)

  const DEDUPLICATION_WINDOW_MS: nat := 60_000
  const REMINDER_INTERVAL_MS: nat := 300_000
  const ADAPTER_ESCALATION_MS: nat := 300_000
  const HOST_CONTACT_ESCALATION_MS: nat := 60_000
  const IDLE_REMINDER_MS: nat := 300_000

  function Policy(id: RuleId): (rule: Rule)
    ensures Ascending(rule.steps)
    ensures 0 < rule.dedupMs
    ensures rule.repeatMs.Some? ==> rule.dedupMs <= rule.repeatMs.value
  {
    var window := DEDUPLICATION_WINDOW_MS;
    var again := Some(REMINDER_INTERVAL_MS);
    match id
    case PendingApproval => Rule(Urgent, [], again, window, true, false)
    case PendingInput => Rule(Notable, [], None, window, true, false)
    case InputIdleReminder => Rule(Urgent, [], again, window, true, false)
    case CommandFailed => Rule(Notable, [], None, window, true, true)
    case ReviewReady => Rule(Notable, [], None, window, true, true)
    case AdapterFailed => Rule(Notable, [Rung(ADAPTER_ESCALATION_MS, Urgent)], again, window, true, false)
    case HostContactLost => Rule(Notable, [Rung(HOST_CONTACT_ESCALATION_MS, Urgent)], again, window, true, false)
    case ApplicationNotice => Rule(Informational, [], None, window, false, true)
    case AutomationPaused => Rule(Notable, [], None, window, true, false)
    case AuthorityFeedRemoved => Rule(Urgent, [], None, window, true, false)
  }

  /** The thresholds of a ladder strictly increase. */
  ghost predicate Ascending(steps: seq<Rung>) {
    forall i, j :: 0 <= i < j < |steps| ==> steps[i].after < steps[j].after
  }

  /** How many steps of a ladder an age has passed. */
  function StepsPassed(steps: seq<Rung>, elapsed: nat): (taken: nat)
    requires Ascending(steps)
    ensures taken <= |steps|
    ensures forall i :: 0 <= i < |steps| ==> (i < taken <==> steps[i].after <= elapsed)
  {
    if steps == [] then 0
    else if steps[|steps| - 1].after <= elapsed then |steps|
    else StepsPassed(steps[..|steps| - 1], elapsed)
  }

  /** What an item of this age asks for, and how many steps of the ladder that is. */
  function LevelAfter(rule: Rule, elapsed: nat): (Level, nat)
    requires Ascending(rule.steps)
  {
    var taken := StepsPassed(rule.steps, elapsed);
    (if taken == 0 then rule.initial else rule.steps[taken - 1].level, taken)
  }

  /** The ladder read one step at a time. */
  method ReadLadder(rule: Rule, elapsed: nat) returns (level: Level, taken: nat)
    requires Ascending(rule.steps)
    ensures (level, taken) == LevelAfter(rule, elapsed)
  {
    level, taken := rule.initial, 0;
    for i := 0 to |rule.steps|
      invariant taken <= i
      invariant forall j :: 0 <= j < i ==> (j < taken <==> rule.steps[j].after <= elapsed)
      invariant level == if taken == 0 then rule.initial else rule.steps[taken - 1].level
    {
      if elapsed >= rule.steps[i].after {
        assert forall j :: 0 <= j < i ==> rule.steps[j].after < rule.steps[i].after;
        assert rule.steps[taken].after <= rule.steps[i].after;
        level, taken := rule.steps[i].level, taken + 1;
      }
    }
    var passed := StepsPassed(rule.steps, elapsed);
    assert passed < |rule.steps| ==> (passed < taken <==> rule.steps[passed].after <= elapsed);
    assert taken < |rule.steps| ==> (taken < passed <==> rule.steps[taken].after <= elapsed);
  }

  function NextStepAfter(rule: Rule, taken: nat): Option<nat> {
    if taken < |rule.steps| then Some(rule.steps[taken].after) else None
  }
}
