/** The typed events the engine runs from, and the keys the conditions they name land on. */
module Events {
  import opened Common
  import opened Time
  import opened Rules

  type SessionId = nat
  type QuestionId = nat
  type GrantId = nat
  type ActorId = nat

  /** Whose retained source a record came from. */
  datatype Origin = Environment | Session(id: SessionId) {
    function SessionOf(): Option<SessionId> {
      if Session? then Some(id) else None
    }
  }

  datatype Source = Receipts | Questions | Approvals | HostEvents | Semantic | Automation | Authority

  /** Whether a jump in a source's sequence is a range retention took. */
  predicate NumbersEveryRecord(source: Source) {
    !source.Automation? && !source.Authority?
  }

  datatype Cursor = Cursor(origin: Origin, source: Source, sequence: nat)

  datatype AutomationSubject = WorkflowRevision(workflow: nat, revision: nat) | CausalChain(root: nat)

  /** What an item is keyed on. Each form keeps its parts apart, so two conditions never share one. */
  datatype Subject =
    | ApprovalOf(session: SessionId, request: string)
    | QuestionOf(question: QuestionId)
    | CommandOf(session: SessionId, command: string)
    | TurnOf(session: SessionId, turn: string)
    | AdapterOf(origin: Origin, plugin: string)
    | HostItself
    | NoticeById(session: SessionId, id: string)
    | NoticeByFingerprint(session: SessionId, fingerprint: nat)
    | NoticeByRecord(session: SessionId, record: Cursor)
    | AutomationOf(subject: AutomationSubject)
    | AuthorityFeed

  /** A key: the rule, and the digest of the subject under the store's own secret. */
  datatype Key = Key(rule: RuleId, digest: nat)

  /** Where a rule's wire word sorts among the others. */
  function WordRank(id: RuleId): (n: nat) {
    match id
    case AdapterFailed => 0 case ApplicationNotice => 1 case AuthorityFeedRemoved => 2
    case AutomationPaused => 3 case CommandFailed => 4 case HostContactLost => 5
    case InputIdleReminder => 6 case PendingApproval => 7 case PendingInput => 8 case ReviewReady => 9
  }

  function KeyRank(k: Key): seq<nat> {
    [WordRank(k.rule), k.digest]
  }

  /** What decides where an application's notice lands: its own identifier, its fingerprint, or neither. */
  datatype Notice = Notice(id: Option<string>, leaseHeld: bool, fingerprint: Option<nat>)

  datatype EventKind =
    | Observed
    | ApprovalRequested(request: string, session: SessionId)
    | ApprovalResolved(request: string, session: SessionId)
    | QuestionPending(
        question: QuestionId, session: SessionId, verified: bool, pendingSince: nat, pendingAnchor: Option<Anchor>)
    | QuestionResolved(question: QuestionId, session: SessionId, answered: bool)
    | CommandCompleted(session: SessionId, command: string, exitCode: int)
    | TurnCompleted(session: SessionId, turn: string, version: nat)
    | ChangeSetCaptured(session: SessionId, changeSet: nat, version: nat)
    | AdapterDown(plugin: string, served: Option<SessionId>)
    | AdapterRecovered(plugin: string)
    | ContactLost
    | ContactRestored
    | ApplicationNoticed(session: SessionId, notice: Notice)
    | AutomationStopped(subject: AutomationSubject, grant: Option<GrantId>)
    | AutomationResumed(subject: AutomationSubject)
    | FeedRemoved
    | FeedLeft

  datatype Event = Event(cursor: Cursor, at: nat, atAnchor: Option<Anchor>, kind: EventKind)
}
