# Verified model of the attention host

This project models the parts of the repository that decide things over time, and proves what the
repository promises of them over every run.

**The attention engine** (`crates/kr-attention/src/engine.rs`). A clock-free state machine that consumes
typed events, raises and de-duplicates inbox items, holds announcements through quiet hours, escalates,
reminds, resolves and lets go, under certified readings, in live and replay mode and across restarts.

- `Time`, `Rules`, `Events` and `Scope` hold readings, intervals, quiet hours, the rule table, the event
  alphabet and what a caller may be shown.
- `EngineModel` says what each operation does as a list of small acts on the engine's state, and what each
  act writes in a log. `AttentionEngine` is the engine itself, a class whose methods update its fields in
  place; every method is proved to perform exactly the acts of its specification and to report exactly
  their outcomes.
- `Calls`, `Certificates` and `RunLog` tie the log to the calls of a run: which call writes each entry,
  that it always does, and where in the log it wrote.
- `Runs` and `Guards` drive any sequence of operations from an empty store. Boots are placed on one
  physical time line, readings never go back on it, and every act an operation performs is shown to meet
  its guard. `Deadline`, `Spacing`, `Handoff`, `Stamps`, `Conservation`, `Acknowledgements`, `Reminders`,
  `Gaps`, `LiveReplay` and `Disclosure` each prove one family of promises from those guards. `Soundness`
  keeps them together over every run. `Timers`, `Repeats`, `Deferrals` and `Tallies` follow an item's age,
  its last announcement, its being held and what it says of all that through the calls of a run.
  `Conditions`, `Standings` and `Closures` say which conditions stand after any run from the kinds of event
  consumed, `Wakeups` that a deadline is given only where something falls due, and `Theorems` states the
  promises over the events consumed and the calls made.

**Review state and reader numbering** (`Reviews`, `Outstanding`, `Numbering`), **workflow admission** (`Admission`), and
three cores of the release scripts: **`cfg` conditions** (`CfgConditions`, `CfgCanonical`, `CfgLists`,
`CfgText`, `CfgShow`), **version ranges** (`VersionOrder`, `VersionRanges`, `VersionText`) and the
**Mach-O comparison** (`MachO`). `Texts` holds the stripping and splitting both scripts share.

Seven facts about the code that a caller might not expect are stated as lemmas, each with the condition
under which the promise does hold. A deadline and the interval it belongs to can disagree at a certified
reading before the interval's anchor (`Time.DeadlineMissesBeforeTheAnchor`,
`Time.DeadlineAgreesExactlyWhen`). What a quiet window of the whole day holds is given a deadline at which
nothing happens, because the window has no end; every other deadline is one at which a tick speaks
(`Theorems.DeadlinesAreNotEarly`). The admission rate is lost when
the clock goes back, because the journal forgets by the latest admission's time
(`Admission.RateFailsWhenTimeGoesBack`). A comma inside a quoted `cfg` value splits it
(`CfgLists.CommaAlwaysSplits`, `CfgLists.PartsOfJoin`). A hidden item is not always like an absent one: a
reminder is dated by its question, so a shown reminder can depend on a hidden question
(`Disclosure.HiddenIsAbsent`, `HiddenQuestion.HiddenQuestionHidesItsReminder`). A version recorded late, at
a moment before a device's history, leaves the page that ended with its subject without a continuation
(`Reviews.ContinuationCanBeLost`, `Reviews.ContinuationIsAnsweredExactlyWhen`). And two staged files can
differ before the signature where the last segment's place is described after the signature starts
(`MachO.UncomparedPlaceIsNotFixed`).

The journal's count of admissions includes its boundary: a row exactly sixty seconds old still counts, so
the rates are proved for closed windows.

## Model

| member | source | states |
|---|---|---|
| `Theorems.AnnouncementsAreSpaced` | crates/kr-attention/src/engine.rs:1458-1690 | In every reachable world, any two announcements that went out about a condition that did not end between them are at least the rule's window apart in physical time, through repeats, replays, escalations, releases, bound drops and restarts |
| `Theorems.AnnouncementsAreNeitherLostNorConfused` | crates/kr-attention/src/engine.rs:935-967 | A number is outstanding for a condition exactly when the run announced the condition under it and since then announced it under no other, did not end it, and no settlement call named that very number |
| `Theorems.StaleSettlementsClearNothing` | crates/kr-attention/src/engine.rs:959-967 | Settling a number that was replaced, or whose condition ended and perhaps came back, changes nothing; later announcements carry higher numbers |
| `Theorems.DeadlinesAreExact` | crates/kr-attention/src/engine.rs:901-1046 | Before the next deadline no tick, whatever its certificates, says anything but what the bound let go of; after a tick that read every origin through, the next deadline is none or strictly ahead |
| `Theorems.DeadlinesAreNotEarly` | crates/kr-attention/src/engine.rs:982-1046 | A tick that reads every origin through at the next deadline says something besides what the bound lets go of if and only if something waits for that moment but announcements held in a window of the whole day |
| `Theorems.InboxFollowsFromEvents` | crates/kr-attention/src/engine.rs:1122-1416 | A condition's item is in the inbox exactly when an event of the one kind that raises its rule, naming its subject, was taken, or a tick reminded of its question, and since then no event of the kind that ends it was taken, no closure was of its session and it was not dropped |
| `Theorems.InboxSaysWhatEventsSaid` | crates/kr-attention/src/engine.rs:1458-1560 | An item's rule, sessions, record, words, grant, automation and routing, when it was first and last seen and how often, are what the events taken and reminders written since it came in say, the first of them or the latest as the case may be |
| `Theorems.SomeEventsSayNothing` | crates/kr-attention/src/engine.rs:1160-1416 | A record no rule covers, a change set, a command that exited with nought and an unverified question leave every condition as it stood |
| `Theorems.OnlyRecordsAreLetGo` | crates/kr-attention/src/engine.rs:1574-1621 | Only failed commands, review work and application notices are ever dropped |
| `Theorems.ClosuresEndRequests` | crates/kr-attention/src/engine.rs:836-864 | After a closure the inbox holds exactly what it held but the pending approvals, pending questions and reminders whose record is the session's or that name it, and every other item is as it was |
| `Theorems.EndingsAreSaid` | crates/kr-attention/src/engine.rs:836-864 | That a condition ended is said by closures alone, and by each closure of exactly those requests |
| `Theorems.ClosedSessionsAskNothing` | crates/kr-attention/src/engine.rs:830-864 | Once a session has closed, no approval, question or reminder from its records is in the inbox again |
| `Theorems.DevicesAreShownTheirOwn` | crates/kr-attention/src/scope.rs:74-119 | What a device is shown names no session, and is worded by no record of a session, that it may not see; a pause of automation is of its own grant; and what it is shown was first seen within its history |
| `Theorems.AnnouncingIsStatedTruly` | crates/kr-attention/src/engine.rs:1623-1690 | An item says it is undecided exactly when it gives no time of a decision, gives the time of the latest decision since it was raised, and says delivered or held only where that one was |
| `Theorems.TalliesAreTrue` | crates/kr-attention/src/engine.rs:788-824 | The count of announcements of an item is how many went out since it was raised, and the gaps listed are the newest 64 of those recorded, in order |
| `Theorems.InboxIsConserved` | crates/kr-attention/src/engine.rs:1574-1621 | Raised = in the inbox + resolved + ended + dropped over every run, and the dropped counter is the number of drops said |
| `Theorems.StampsAreNeverNewer` | crates/kr-attention/src/engine.rs:1623-1690 | Both decision stamps of an item come from one and the same non-release decision about it since it was last raised, and while a hand-off is pending that decision is no later than the one the hand-off came from |
| `Theorems.AcknowledgementsAreExact` | crates/kr-attention/src/engine.rs:708-781 | An actor has an item acknowledged exactly when a call of that actor's own, not refused, named the item shown to it at the revision it stood at, and no call since raised or repeated it |
| `Theorems.RemindersAreNeverLost` | crates/kr-attention/src/engine.rs:1418-1450 | A request an event of the run made, with no later event that resolves or repeats it, no closure of its session and no reminder, is still pending, of that record and session, and owed its reminder |
| `Theorems.RemindersAreLateNeverEarly` | crates/kr-attention/src/engine.rs:1772-1816 | A reminder is written by a tick, for a request an earlier event made and none since resolved, repeated or closed the session of, at its origin's own certificate in that tick, at least the idle interval of physical time past where that event's wait began, and no other tick reminds of the record |
| `Theorems.NothingIsRemindedAfterwards` | crates/kr-attention/src/engine.rs:1418-1450 | After a consumed resolution of a question, and until an event makes it pending again, nothing is reminded of it; after a closure, only a request that neither came from that session nor names it |
| `Theorems.RemindersFollowTheirQuestions` | crates/kr-attention/src/engine.rs:1796-1816 | Every reminder raised or repeated in the inbox directly follows the reminding of the question its key is made of |
| `Theorems.ReminderIsCertified` | crates/kr-attention/src/engine.rs:1772-1795 | The origin of a reminder's request is open, so the reading it is fired at is that origin's certificate and nothing else |
| `Theorems.EscalationsAreLateNeverEarly` | crates/kr-attention/src/engine.rs:1708-1731 | An escalation is written by a tick, decided at the present for a closed session and otherwise no later than the origin's own certificate in that tick; the threshold of the level it reaches, counted in physical time from where the last call that raised the item counts its age, lies at or before that reading |
| `Theorems.RepeatsAreLateNeverEarly` | crates/kr-attention/src/engine.rs:1733-1770 | An announcement a tick makes is that of a reminder the same tick wrote, or is decided at the origin's own reading; for an item decided about before, the rule's window since the last announcement about it has run in physical time by that reading, and its repeat too unless the item climbed since |
| `Theorems.QuietHoursAreKept` | crates/kr-attention/src/engine.rs:1623-1690 | Over every run, nothing is announced, again or for the first time, and nothing held is released, at a reading inside the window in force |
| `Theorems.DeferralsAreExact` | crates/kr-attention/src/engine.rs:1623-1690 | An item is held exactly when the latest decision about it since it was raised was to hold it, a release follows such a decision with no other about it between, and nothing held is dropped |
| `Theorems.HeldIsReleased` | crates/kr-attention/src/engine.rs:1742-1770 | After a tick outside the window that can decide an item's origin, the item is not held |
| `Theorems.NumbersComeFromTheCounter` | crates/kr-attention/src/engine.rs:1667-1676 | The number of an announcement is one the engine's counter passed in the very call that made it |
| `Theorems.GapsAreExact` | crates/kr-attention/src/engine.rs:1122-1154 | For a source that numbers every record and is moved by events alone, each record up to the last consumed was taken once or recorded missing once, and no later one was, even after old gaps left the list |
| `Soundness.RunKeepsSound` | crates/kr-attention/src/engine.rs:11-55 | Every run of operations whose readings never go back keeps all the invariants together |
| `Calls.CallsAreWritten` | crates/kr-attention/src/engine.rs:708-967 | Every entry of the log that is no outcome is written by the call it stands for and by no other, and every such call writes it: records taken, questions answered, sessions closed, reminders, acknowledgements of the calling actor, and settlements asked for |
| `Calls.EventIsWritten` | crates/kr-attention/src/engine.rs:1122-1154 | Consuming an event takes its record with the request it makes and answers the question it says is resolved, exactly when the event is taken |
| `Calls.TickReminds` | crates/kr-attention/src/engine.rs:1772-1816 | A tick reminds of exactly the requests whose wait has run out at their origin's certified reading |
| `Calls.FinaliseCloses` | crates/kr-attention/src/engine.rs:836-864 | A closure closes its session, and writes nothing but that and what it ended |
| `Calls.SettlementsWritten` | crates/kr-attention/src/engine.rs:959-967 | A settlement call settles exactly the pairs it names whose item is in the inbox |
| `Calls.AcksWritten` | crates/kr-attention/src/engine.rs:708-750 | An acknowledgement is recorded for the calling actor, for exactly the items shown to it that it names at their current revision |
| `Certificates.TimersWaitForCertificates` | crates/kr-attention/src/engine.rs:901-924 | A tick neither escalates, announces nor releases an item of an open origin the host has not certified, unless it is the reminder of a question whose own origin lets it be reminded of now: it leaves it as it is, or the bound lets it go, and says nothing else of it |
| `Conditions.ConsumeOnStanding` | crates/kr-attention/src/engine.rs:1122-1416 | Consuming an event, in either mode, raises or ends exactly the condition its kind says, with what the event says of it, if the event is taken, and leaves every other standing unless it says that it dropped it |
| `Standings.TickOnStanding` | crates/kr-attention/src/engine.rs:901-924 | A tick raises exactly the reminders it writes, drops what it says it drops, and otherwise leaves what stands as it was |
| `Standings.CallOnStanding` | crates/kr-attention/src/engine.rs:830-967 | Each call leaves of every condition exactly what its event, its reminders, its closure and its drops say |
| `Wakeups.DueIsSaid` | crates/kr-attention/src/engine.rs:901-924 | A tick says something besides drops exactly when a reminder, a step, an announcement or a release is due at its readings |
| `Wakeups.DeadlineFallsDue` | crates/kr-attention/src/engine.rs:991-1046 | At the deadline of one origin, or of all, once it has been read through, something of it is due, unless only a window of the whole day is waited for |
| `Guards.OperationsAreEnabled` | crates/kr-attention/src/engine.rs:836-967 | Every operation of the host, from any consistent state, performs only acts whose guards hold at the moment each is performed |
| `Guards.BoundSpares` | crates/kr-attention/src/engine.rs:1549-1621 | What the bound may not let go of survives it unchanged, so a just-raised item is never its own victim |
| `Guards.TickEnabled` | crates/kr-attention/src/engine.rs:901-924 | A tick is its four passes one after another, each on the state the one before left, and each pass reaches every item and request it is due on |
| `Deadline.TickIsQuietBeforeDeadline` | crates/kr-attention/src/engine.rs:995-1046 | Nothing is reminded, escalated, announced or released by a tick before the earliest deadline |
| `Deadline.DeadlineLiesAhead` | crates/kr-attention/src/engine.rs:995-1046 | After a fully certified tick every deadline left is strictly later than the reading, so no timer was missed and no wake-up loop exists; `Wakeups.DeadlineFallsDue` that something is due when it comes |
| `Spacing.DecisionKeepsRested` | crates/kr-attention/src/engine.rs:1623-1690 | The interval an item keeps since its last announcement never starts before that announcement went out, through announcing and through a replay that clears it |
| `Handoff.OutstandingExactly` | crates/kr-attention/src/engine.rs:935-967 | The pending numbers are exactly those the log handed out and did not settle, replace or end since; `Calls.SettlementsWritten` says which calls settle |
| `Handoff.StaleSettlementClearsNothing` | crates/kr-attention/src/engine.rs:959-967 | A settlement of an older number leaves the state as it is |
| `Handoff.NumbersIncrease` | crates/kr-attention/src/engine.rs:1667-1676 | Announcement numbers strictly increase, and the engine's counter has reached every one of them |
| `Stamps.StampIsNotLater` | crates/kr-attention/src/engine.rs:144-166 | While an announcement stands, the item's stamp is of no later decision than the announcement's own |
| `Stamps.StampsAreTrue` | crates/kr-attention/src/engine.rs:1485-1497 | The time and the privacy stamp of an item are those of one decision in the log, made since the item was last raised |
| `Conservation.BoundIsExact` | crates/kr-attention/src/engine.rs:1574-1621 | Enforcing the bound removes only droppable items, touches no other, and stops only within the bound or with no eligible victim |
| `Conservation.BoundTakesTheLeastUrgent` | crates/kr-attention/src/engine.rs:1574-1621 | What the bound lets go of is less urgent than what it could have and did not, or as urgent and seen earlier, or as old and named earlier, and it stops as soon as the inbox is within its bound |
| `Acknowledgements.AcknowledgedExactly` | crates/kr-attention/src/engine.rs:776-781 | The revision test agrees with the log: acknowledged after the latest occurrence; `Calls.AcksWritten` says whose calls acknowledge |
| `Acknowledgements.AcknowledgementsDecideNothing` | crates/kr-attention/src/engine.rs:708-781 | Two runs that differ only in who acknowledged what reach the same state and say the same things, so their deadlines are equal too |
| `Reminders.ReminderIsOwed` | crates/kr-attention/src/engine.rs:1772-1816 | In the log, a reminder follows the taking of its own request with nothing superseding it between, an idle interval past the anchor that request was taken with, and once; `Calls.TickReminds` says at which reading |
| `Reminders.OwedIsKept` | crates/kr-attention/src/engine.rs:1418-1445 | The pending bound never removes a request still owed a reminder |
| `Reminders.BoundForgetsTheOldest` | crates/kr-attention/src/engine.rs:1418-1445 | What the bound on requests forgets has been reminded of, is not the one being asked, has been pending longer than any other it could have forgotten, and is no more than it has to |
| `Timers.RestartKeepsIntervals` | crates/kr-attention/src/engine.rs:1092-1120 | A restart in the same boot keeps where an item's age and its last announcement are counted from exactly; one in another boot counts both from the restart; nothing else of the item changes |
| `Reminders.RestartOnlyLengthens` | crates/kr-attention/src/engine.rs:1092-1120 | A restart in the same boot keeps where a wait is counted from exactly; one in another boot counts it from the restart, which is later |
| `Gaps.GapsAccountForWhatIsMissing` | crates/kr-attention/src/engine.rs:1122-1154 | Records taken and ranges recorded as missing account for every record once, from any accounted world |
| `Gaps.GapEndsNothing` | crates/kr-attention/src/engine.rs:788-824 | Recording a gap removes no item and no request, marks uncertain exactly the items of that origin and source, and an empty or known range changes nothing |
| `LiveReplay.LiveAndReplayAgree` | crates/kr-attention/src/engine.rs:872-886 | The same events at the same readings leave equal state and equal acknowledgements in both modes once what was announced is projected away, while the inbox stays within its bound |
| `LiveReplay.ReplayIsSilent` | crates/kr-attention/src/engine.rs:884-886 | A replay announces, defers and releases nothing and hands out no number |
| `LiveReplay.ReconsumingChangesNothing` | crates/kr-attention/src/engine.rs:1122-1154 | Consuming anything a run consumed again, in either mode and after anything else, changes neither state, acknowledgements nor log |
| `Disclosure.InboxFollowsFromWhatIsShown` | crates/kr-attention/src/engine.rs:639-689 | Two engines that show a caller the same items, equally acknowledged, send it the very same inbox |
| `Disclosure.AnswerFollowsFromWhatIsShown` | crates/kr-attention/src/engine.rs:708-750 | Two engines that show a caller the same items refuse it alike, answer it alike and record the same acknowledgements |
| `Disclosure.AnswersPartitionTheRequest` | crates/kr-attention/src/engine.rs:708-750 | Acknowledged and stale keys together are the request as a multiset, and a refusal records nothing |
| `Disclosure.HiddenIsAbsent` | crates/kr-attention/src/engine.rs:639-660 | Taking out everything hidden from a caller changes nothing it is shown if and only if it is the owner or is shown a question behind each reminder it is shown |
| `HiddenQuestion.HiddenQuestionHidesItsReminder` | crates/kr-attention/src/engine.rs:639-660 | A run of three calls from an empty store after which a device is shown a reminder and not the question it is dated by, and taking the hidden question out takes the reminder away |
| `Disclosure.OldestFirst` | crates/kr-attention/src/engine.rs:663-689 | The inbox lists each item once, in the source's order |
| `AttentionEngine.Engine.Consume` | crates/kr-attention/src/engine.rs:1122-1154 | Performs exactly the acts of consuming an event, in either mode, and reports exactly their outcomes; `Conditions.ConsumeOnStanding` says what they come to for each kind of event |
| `AttentionEngine.Engine.Decide` | crates/kr-attention/src/engine.rs:1160-1416 | Performs exactly the acts of the plan each kind of event stands for; `Theorems.InboxFollowsFromEvents` says which kinds raise and end which conditions |
| `AttentionEngine.Engine.Raise` | crates/kr-attention/src/engine.rs:1458-1560 | Performs exactly the acts of a raise, repeated or fresh, live or replayed |
| `AttentionEngine.Engine.Announce` | crates/kr-attention/src/engine.rs:1623-1690 | Leaves the state, the number and the outcome of one announcement decision, deferred, released or notified |
| `AttentionEngine.Engine.EnforceBound` | crates/kr-attention/src/engine.rs:1574-1621 | The loop lets go of exactly the victims of the specification, in order; `Conservation.BoundTakesTheLeastUrgent` says which go first |
| `AttentionEngine.Engine.BoundPendingInputs` | crates/kr-attention/src/engine.rs:1418-1445 | The loop forgets exactly the oldest reminded requests, never the one being asked |
| `AttentionEngine.Engine.Resolve` | crates/kr-attention/src/engine.rs:1697-1706 | Removes a standing condition with its acknowledgements, and nothing when there is none |
| `AttentionEngine.Engine.NoteGap` | crates/kr-attention/src/engine.rs:788-824 | Performs exactly the acts of recording a gap |
| `AttentionEngine.Engine.Finalise` | crates/kr-attention/src/engine.rs:836-864 | Closes the session's waits and ends exactly the items that end with it, which `Theorems.ClosuresEndRequests` names |
| `AttentionEngine.Engine.FireIdleReminders` | crates/kr-attention/src/engine.rs:1772-1816 | Reminds of exactly the requests due under the certificates, in order |
| `AttentionEngine.Engine.Climb` | crates/kr-attention/src/engine.rs:1710-1738 | Escalates exactly the items whose certified age passed a further step |
| `AttentionEngine.Engine.AnnounceDue` | crates/kr-attention/src/engine.rs:1740-1770 | Decides about exactly the items due, each at most once |
| `AttentionEngine.Engine.Tick` | crates/kr-attention/src/engine.rs:901-924 | Performs exactly the reminders, climbs, decisions and bound of a tick |
| `AttentionEngine.Engine.SettleAnnouncements` | crates/kr-attention/src/engine.rs:959-967 | Settles exactly the named numbers and says nothing |
| `AttentionEngine.Engine.TakeAnnouncements` | crates/kr-attention/src/engine.rs:935-952 | Offers exactly the pending decisions of the items the host offers, in the order of their keys, each with its number, rule, level, routing, session and text |
| `AttentionEngine.Engine.Acknowledge` | crates/kr-attention/src/engine.rs:708-750 | Refuses exactly a request that names a revision ahead, and otherwise records and answers as specified |
| `AttentionEngine.Engine.AcknowledgeCurrent` | crates/kr-attention/src/engine.rs:756-770 | Acknowledges an item at the revision it stands at |
| `AttentionEngine.Engine.Inbox` | crates/kr-attention/src/engine.rs:663-689 | Sends exactly what the caller may be shown and asked for, oldest first |
| `AttentionEngine.Engine.NextDeadline` | crates/kr-attention/src/engine.rs:982-1046 | Answers the earliest of all the moments the included origins wait for, or none when there is none; `Theorems.DeadlinesAreExact` and `Theorems.DeadlinesAreNotEarly` say that nothing is due before it and something at it |
| `AttentionEngine.Engine.SetQuietHours` | crates/kr-attention/src/engine.rs:528-530 | Replaces the window and nothing else |
| `AttentionEngine.Engine.StartFrom` | crates/kr-attention/src/engine.rs:582-585 | Moves a source's cursor forward only |
| `AttentionEngine.Engine.Install` | crates/kr-attention/src/engine.rs:1049-1077 | Takes back what was restored with both counters at the highest of the stored one and those the items carry |
| `AttentionEngine.InstallNeverReuses` | crates/kr-attention/src/engine.rs:1061-1074 | The next number and revision after a restore are above every one stored or carried |
| `AttentionEngine.FaithfulRestore` | crates/kr-attention/src/engine.rs:1049-1077 | A faithful save comes back with both counters where they were |
| `AttentionEngine.Engine.Reanchor` | crates/kr-attention/src/engine.rs:1092-1108 | Measures every interval again from the anchors kept, on this boot's clock |
| `Time.DueExact` | crates/kr-attention/src/time.rs:281-300 | From its anchor on, an interval reaches a length exactly at its deadline |
| `Time.DeadlineAgreesExactlyWhen` | crates/kr-attention/src/time.rs:281-300 | Exactly when a deadline and its interval agree, before the anchor too |
| `Time.QuietUntilRelease` | crates/kr-attention/src/engine.rs:1819-1833 | The release of quiet hours lies ahead, and the window stands at every moment before it, across midnight |
| `Time.QuietEndsAtRelease` | crates/kr-attention/src/engine.rs:1819-1833 | At the release the window is over, unless it is the whole day |
| `Time.CoversFromItsStart` | crates/kr-protocol/src/attention.rs:488-501 | A window covers a minute exactly when fewer minutes have passed since its start than it has, counted round the clock, and all of them when it starts where it ends |
| `Rules.Policy` | crates/kr-attention/src/rule.rs:73-190 | Every rule's ladder strictly rises, its window is positive and its repeat is no shorter than its window |
| `Rules.ReadLadder` | crates/kr-attention/src/rule.rs:205-217 | The loop over a ladder gives the level of the last threshold passed and how many were |
| `Reviews.PagesServeEachOnce` | crates/kr-attention/src/review.rs:215-266 | With any changes between pages, following them to the end, each continuation being answered, serves every subject visible throughout, in first-heard order, and none twice |
| `Reviews.ContinuationIsAnsweredExactlyWhen` | crates/kr-attention/src/review.rs:215-227 | After any run of changes, the continuation after a subject the caller was served is answered if and only if the caller's history reaches the moment the subject's version last moved at |
| `Reviews.ContinuationStays` | crates/kr-attention/src/review.rs:215-227 | Changes whose versions of the subject are recorded at moments the caller's history reaches leave its continuation answered |
| `Reviews.ContinuationCanBeLost` | crates/kr-attention/src/review.rs:215-227 | A page of two subjects that says there is more, and a version recorded at an earlier moment after which its continuation is refused |
| `Reviews.AnyRunEvolves` | crates/kr-attention/src/review.rs:113-186 | Over any run, held and acknowledged versions never go down, no acknowledgement exceeds the held version, and no subject moves in first-heard order |
| `Reviews.NewVersionIsNewWork` | crates/kr-attention/src/review.rs:113-143 | A version that moves is outstanding for every actor, and one that does not changes nothing |
| `Outstanding.StateSaysExactly` | crates/kr-attention/src/review.rs:309-319 | Over any run of changes, a state names the highest version recorded and the furthest version its actor acknowledged and when it last did, and is outstanding exactly when no acknowledgement of the actor's own since the subject last moved named the version held |
| `Outstanding.OthersReadForThemselves` | crates/kr-attention/src/review.rs:152-186 | One actor's acknowledgement changes the state of no other actor and of no other subject |
| `Outstanding.ReadUntilItMoves` | crates/kr-attention/src/review.rs:152-186 | Once an actor has acknowledged the version held, the subject is not outstanding for it until a higher version is recorded, whatever else changes |
| `Reviews.PageOfOrder` | crates/kr-attention/src/review.rs:228-242 | A slice of the order is the page that follows its continuation, and whether there is more |
| `Reviews.Reviews.RecordVersion` | crates/kr-attention/src/review.rs:113-143 | Records a version that moves and answers whether it moved |
| `Reviews.Reviews.Acknowledge` | crates/kr-attention/src/review.rs:152-186 | Records the furthest version read, or refuses an unknown subject or version, and answers the actor's state; `Outstanding.StateSaysExactly` says what a state is |
| `Reviews.Reviews.Ordered` | crates/kr-attention/src/review.rs:248-266 | Lists exactly the visible subjects, strictly by first-heard place |
| `Reviews.Reviews.StatesPage` | crates/kr-attention/src/review.rs:215-242 | Serves one page with the actor's state of each subject, or refuses exactly a continuation the caller cannot be shown; `Outstanding.StateSaysExactly` says what a state is |
| `Reviews.Reviews.Install` | crates/kr-attention/src/review.rs:295-307 | Takes back restored state with the next place one past the highest carried |
| `Numbering.NumberingRoundTrips` | crates/kr-attention/src/numbering.rs:45-88 | Cursor of shown is the cursor raised to the floor, shown of cursor is the identity, and the numbers accepted are exactly those that can be shown |
| `Numbering.CountBeforeTheFloorIsHidden` | crates/kr-attention/src/numbering.rs:45-88 | Two logs that differ only in how much lies before the reader's floor show and accept the same numbers |
| `Numbering.CursorOffset` | crates/kr-attention/src/key.rs:124-138 | The offset lies in the interval from 2^60 to 2^61 |
| `Admission.RatesHoldOverEveryWindow` | crates/kr-automation/src/admission.rs:25-84 | Over every run in which no row the journal deleted lies in the window an admission is decided over, no closed window of 60,000 ms anywhere holds more than 600 admissions, or 120 under one grant, and no workflow exceeds 4 running or 100 pending |
| `Admission.RatesHoldWhileTimeGoesForward` | crates/kr-automation/src/admission.rs:52-84 | Times that never go back are enough for that |
| `Admission.AdmittedExactlyWhileThereIsRoom` | crates/kr-automation/src/admission.rs:52-84 | After any run from an empty journal that deleted nothing of the window, a new run is admitted if and only if both rates have room over the whole history and its workflow has a slot or a place in its queue; it starts exactly when there is a slot; a refusal changes nothing |
| `Admission.CountIsTrueExactlyWhen` | crates/kr-automation/src/store.rs:1153-1161 | The journal's count of a window is the count of the whole history exactly when nothing it has deleted lies in the window |
| `Admission.RateFailsWhenTimeGoesBack` | crates/kr-automation/src/store.rs:1332-1343 | A run from an empty journal whose clock goes back and admits 121 runs of one grant in one window |
| `Admission.PruneSplits` | crates/kr-automation/src/store.rs:1334-1343 | Deleting rows at an admission moves them out of the count and loses none |
| `CfgConditions.TopLevelParts` | scripts/check-moved-items.py:597-611 | The loop over a depth counter splits a list as the specification does |
| `CfgConditions.ReadAlternatives` | scripts/check-moved-items.py:574-586 | The recursive reader with set accumulators computes the specified alternatives |
| `CfgConditions.AlternativesKeepTheMeaning` | scripts/check-moved-items.py:574-586 | For every text and every assignment, the alternatives hold exactly when the predicate the text stands for does |
| `CfgCanonical.Expand` | scripts/check-moved-items.py:589-594 | The loop over a set gives one result whatever order the set is gone through in |
| `CfgCanonical.ExpandedMeansEvery` | scripts/check-moved-items.py:589-594 | An expanded conjunction holds exactly when every predicate of it does |
| `CfgCanonical.MinimalKeepsTheMeaning` | scripts/check-moved-items.py:614-617 | Dropping implied conjunctions changes the condition under no assignment |
| `CfgCanonical.MinimalIsCanonical` | scripts/check-moved-items.py:614-617 | Two conditions are equivalent under all assignments if and only if their minimal sets are equal |
| `CfgCanonical.MinimalIsLeast` | scripts/check-moved-items.py:614-617 | Every equivalent set of conjunctions contains the minimal set |
| `CfgCanonical.AcceptsExactlyTheUnion` | scripts/check-moved-items.py:1894-1914 | The test on an import passes exactly when it is compiled wherever some code naming it is and nowhere else, or everywhere when no code names it |
| `CfgCanonical.SplittingKeepsTheCondition` | scripts/check-moved-items.py:567-571 | Splitting `all(..)` into an item's conditions leaves its minimal condition as it was |
| `CfgLists.PartsOfJoin` | scripts/check-moved-items.py:597-611 | Splitting a joined list gives back the list if and only if its texts are trimmed, have no comma at depth nought, each but the last close what they open, and the last is not empty |
| `CfgLists.TrailingComma` | scripts/check-moved-items.py:597-611 | A comma at the end of a list is not part of it |
| `CfgLists.CommaAlwaysSplits` | scripts/check-moved-items.py:597-611 | A comma outside parentheses splits, inside a quoted value too |
| `CfgText.ParseOfRender` | scripts/check-moved-items.py:574-586 | Reading a written predicate, however deeply nested, gives back the predicate if and only if it is legible: no simple predicate is itself a list, and the texts of every list can be told apart |
| `CfgText.AlternativesOfRender` | scripts/check-moved-items.py:574-586 | The alternatives of a legible predicate hold exactly where the predicate does |
| `CfgText.PlainIsLegible` | scripts/check-moved-items.py:574-586 | Simple predicates that are trimmed, closed and free of bare commas make every predicate over them legible |
| `CfgShow.ShownConditionReadsBack` | scripts/check-moved-items.py:620-629 | A shown condition reads back as the very predicate shown if and only if that predicate is legible, and its alternatives are then the minimal set; `always` is shown for the empty conjunction |
| `CfgShow.ShownInOrder` | scripts/check-moved-items.py:620-629 | The conjunctions of a shown condition, and the predicates of each, stand in ascending order of their text |
| `CfgShow.ShownAlikeIsEquivalent` | scripts/check-moved-items.py:620-629 | Equivalent conditions are shown as one text, and two shown legibly as one text, both or neither always true, are equivalent |
| `VersionOrder.KeysFollowSemanticVersioning` | scripts/check-shell-advisories.py:140-166 | Keys order three-part versions exactly as section 11 of Semantic Versioning 2.0.0 does, with words compared letter by letter, and in the second reading a capital as its small letter |
| `VersionOrder.CaseIsDisregarded` | scripts/check-shell-advisories.py:158-166 | In the second reading two words are one exactly when they are letter by letter the same or the capital and small form of one letter |
| `VersionOrder.VersionsInAnyCase` | scripts/check-shell-advisories.py:158-166 | Versions that differ only in the case of their labels have one key in the second reading |
| `VersionOrder.AfterIsNext` | scripts/check-shell-advisories.py:169-174 | A version is above another exactly when it is at or above the key after it |
| `VersionOrder.AfterIsAbove` | scripts/check-shell-advisories.py:169-174 | The key after is strictly above, and after a pre-release it is itself a version's |
| `VersionOrder.SeriesStartIsFirst` | scripts/check-shell-advisories.py:177-179 | The start of a series is below exactly the versions, pre-releases too, with at least its numbers |
| `VersionRanges.BoundsAreTheComparators` | scripts/check-shell-advisories.py:237-252 | The interval of a list of comparators holds exactly the versions that satisfy every one of them, and there is none exactly when one cannot be read |
| `VersionRanges.RangeIsItsIntervals` | scripts/check-shell-advisories.py:211-253 | A range's intervals hold exactly the versions one of its alternatives covers |
| `VersionRanges.RangeIntervals` | scripts/check-shell-advisories.py:217-253 | The loop over the alternatives of a range gives the specified intervals, or none when one cannot be read |
| `VersionText.RangeTextIntervals` | scripts/check-shell-advisories.py:211-253 | The intervals of a range as it is written hold exactly the versions that satisfy one of its alternatives, and there are none exactly when some part of the text cannot be read |
| `VersionRanges.OverlapIsSharing` | scripts/check-shell-advisories.py:256-259 | Intervals that share a key overlap, and of two that overlap the later lower bound lies in both |
| `VersionRanges.Reaches` | scripts/check-shell-advisories.py:268-274 | Over a range taken apart, true exactly when it cannot be read or overlaps an accepted interval under either reading of case; `VersionOrder.CaseIsDisregarded` says what the second reading is |
| `VersionText.RangeTextReaches` | scripts/check-shell-advisories.py:262-274 | Over a range as it is written, true exactly when it cannot be read or overlaps an accepted interval under either reading of case, and so for every version it covers that lies in an accepted interval |
| `VersionText.VersionReadsBack` | scripts/check-shell-advisories.py:158-166 | Every writable version reads back as it was written |
| `VersionText.RangeReadsBack` | scripts/check-shell-advisories.py:218-240 | Every range written with operators reads back, alternative by alternative and comparator by comparator, as it was written |
| `VersionText.BareReadsBack` | scripts/check-shell-advisories.py:237-240 | A version without an operator reads as a comparator without one, which asks for exactly it |
| `VersionText.SpanReadsBack` | scripts/check-shell-advisories.py:218-236 | Two releases with a hyphen between them read as the span from the first to the second, and at once as the first with the second for its label |
| `VersionText.BuildIsIgnored` | scripts/check-shell-advisories.py:158-166 | Build metadata after a plus sign is no part of a version |
| `VersionText.SecondReadingReaches` | scripts/check-shell-advisories.py:262-274 | A range from one pre-release to below another that is above it only without regard to case reaches nothing by codes, and by the second reading every interval its start lies in |
| `VersionText.PreviewsBelowCandidates` | scripts/check-shell-advisories.py:262-274 | The range from 7.7.0-preview.1 to below 7.7.0-RC.1 reaches the series 7.7, by the second reading alone |
| `VersionText.WrittenRangeMissesNothing` | scripts/check-shell-advisories.py:262-274 | A version that satisfies every comparator of one alternative of a written range, and lies in an accepted interval, makes the text reach |
| `VersionRanges.NoVersionIsMissed` | scripts/check-shell-advisories.py:262-274 | A version in the range and in an accepted interval under a reading makes the range reach, and so does an unreadable range |
| `MachO.ReadCommands` | scripts/check-staged-tree.py:70-87 | The walk with a moving offset gives the specified commands, refusal or crash |
| `MachO.CommandsTile` | scripts/check-staged-tree.py:70-87 | The commands found follow one another without a gap, inside the header, and are what the file says |
| `MachO.LastSegmentIsFirst` | scripts/check-staged-tree.py:105-106 | The last segment is the first of those that start furthest into the file |
| `MachO.LayoutSays` | scripts/check-staged-tree.py:90-116 | What an accepted layout says of the lengths and offsets in the file |
| `MachO.EqualOutsideSignature` | scripts/check-staged-tree.py:119-140 | Accepts exactly two files of one layout that agree before the signature wherever signing sets nothing, and otherwise names the refusal or the first differing byte |
| `MachO.MaskingOneMore` | scripts/check-staged-tree.py:134-136 | Masking a range of a buffer, past its end too, hides exactly that range of the file |
| `MachO.SigningSetsOnlyTheSignature` | scripts/check-staged-tree.py:119-140 | Two staged files of one length accepted against one built file are the same before the signature, because each masked field there is forced by the length and the compared bytes |
| `MachO.UncomparedPlaceIsNotFixed` | scripts/check-staged-tree.py:105-117 | Two files accepted against one built file that differ before the signature, where the last segment's place in the file follows the start of the signature |
| `MachO.CommandsBeforeSignature` | scripts/check-staged-tree.py:90-116 | Load commands that end before the signature, with segments large enough for their fields, meet the condition of that result |

## Left out

- Saturation of 64-bit counters at their maximum: counters are unbounded, and uniqueness past saturation is not claimed.
- Item text, summaries, the wire form of items and error texts: formatting only.
- The keyed digest, its secret and fingerprints: a digest is an arbitrary function of the subject, and only the range of the cursor offset is kept.
- The store, its errors and the host around the engine: a restart brings back exactly what was saved, and `Install` is modelled on its own.
- MachO.SigningSetsOnlyTheSignature: asks that the last segment's place in the file is described before the signature, or none of its sizes is but a byte that is always nought; `MachO.UncomparedPlaceIsNotFixed` shows why, and whether a file between the two can vary depends on its length as well.
- VersionOrder.KeysFollowSemanticVersioning: is about three-part versions, which is what the standard orders.
- Theorems.AnnouncingIsStatedTruly: that a repeat was suppressed is said by no outcome, so when an item says so is not tied to the calls.
- LiveReplay.LiveAndReplayAgree: asks that the inbox stays within its bound, because what the bound lets go of depends on what was announced.
- CfgShow.ShownConditionReadsBack: the exact condition is for the predicate; that an illegible text never happens to have the minimal set for its alternatives is not claimed.
- CfgShow.ShownAlikeIsEquivalent: one text stands for one condition only where it is legible; an illegible text can stand for another.
- `in_range`, network reading and the register in check-shell-advisories.py; digits beyond ASCII in a version, which no range's text can hold.
- Lexing, Git, moved items and import reports in check-moved-items.py: only the conditions and the test that compares them.
- Tar reading, digests and file modes in check-staged-tree.py.
- Definitions being disabled or paused, deadlines and node rows in the workflow journal: a pending run starts into a free slot, and any run may finish.
- `sees_gap`, `awaiting_delivery` and the plain accessors: each is one filter or one field.
- Record scanners, archive and package checks, device drivers and all user interface code.
