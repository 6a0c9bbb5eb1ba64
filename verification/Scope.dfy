/** What one caller is shown of the environment's inbox, and what it may acknowledge. */
module Scope {
  import opened Common
  import opened Events
  import opened EngineModel

  datatype Viewer =
    | Owner
    | Device(
        grant: GrantId, sessionView: bool, automationManage: bool, hostManage: bool,
        admits: SessionId -> bool, historyFrom: nat)
  {
    predicate SeesSession(session: SessionId) {
      Owner? || (sessionView && admits(session))
    }

    /** Every session an item names, or whose records raised it, has to be one the device may see. */
    predicate Sees(about: About) {
      if Owner? then true
      else if about.origin.Session? || about.session.Some? then
        && (about.origin.Session? ==> SeesSession(about.origin.id))
        && (about.session.Some? ==> SeesSession(about.session.value))
      else if about.automation.Some? then automationManage && about.grant == Some(grant)
      else hostManage
    }

    predicate Reaches(firstSeen: Option<nat>) {
      Owner? || (firstSeen.Some? && firstSeen.value >= historyFrom)
    }
  }

  /** The questions whose text is read from `record`. */
  ghost function AskedIn(c: Core, record: Cursor): set<Key> {
    set k | k in c.items && c.items[k].about.rule.PendingInput? && c.items[k].about.text == Record(record)
  }

  /** When a condition was first seen; a reminder is dated by the question it is about, and never
      by the moment it fired. */
  ghost function Dated(c: Core, item: Item): Option<nat> {
    if !item.about.rule.InputIdleReminder? then Some(item.firstSeen)
    else if !item.about.text.Record? then None
    else
      var asked := AskedIn(c, item.about.text.cursor);
      if asked == {} then None
      else LeastKeyExists(asked);
           var k :| LeastKey(asked, k);
           Some(c.items[k].firstSeen)
  }

  ghost predicate ShownTo(c: Core, viewer: Viewer, item: Item) {
    viewer.Sees(item.about) && viewer.Reaches(Dated(c, item))
  }

  /** Everything a caller is shown, as the engine holds it. */
  ghost function Shown(c: Core, viewer: Viewer): map<Key, Item> {
    map k | k in c.items && ShownTo(c, viewer, c.items[k]) :: c.items[k]
  }

  predicate IsAcknowledged(acks: Acks, actor: ActorId, item: Item) {
    actor in acks && item.key in acks[actor] && acks[actor][item.key].revision >= item.revision
  }

  // ---- acknowledging -----------------------------------------------------------------------

  /** One item of a request names a revision past the item's own. */
  ghost predicate Ahead(c: Core, viewer: Viewer, asked: (Key, nat)) {
    && asked.0 in c.items && ShownTo(c, viewer, c.items[asked.0])
    && asked.1 > c.items[asked.0].revision
  }

  /** One item of a request is shown to the caller and still stands at the revision named. */
  ghost predicate Current(c: Core, viewer: Viewer, asked: (Key, nat)) {
    && asked.0 in c.items && ShownTo(c, viewer, c.items[asked.0])
    && asked.1 == c.items[asked.0].revision
  }

  ghost predicate Refused(c: Core, viewer: Viewer, requested: seq<(Key, nat)>) {
    exists i :: 0 <= i < |requested| && Ahead(c, viewer, requested[i])
  }

  /** The requested keys that are, or are not, acknowledged, in the order they were asked for. */
  ghost function AnswerKeys(c: Core, viewer: Viewer, requested: seq<(Key, nat)>, current: bool): seq<Key> {
    if requested == [] then []
    else
      (if Current(c, viewer, requested[0]) == current then [requested[0].0] else []) +
      AnswerKeys(c, viewer, requested[1..], current)
  }

  ghost function AckActs(c: Core, actor: ActorId, viewer: Viewer, requested: seq<(Key, nat)>): (acts: seq<Act>)
    ensures forall act :: act in acts ==> act.Ack?
  {
    if requested == [] then []
    else
      (if Current(c, viewer, requested[0]) then [Ack(actor, requested[0].0, requested[0].1)] else []) +
      AckActs(c, actor, viewer, requested[1..])
  }

  ghost function AcknowledgeActs(c: Core, actor: ActorId, viewer: Viewer, requested: seq<(Key, nat)>): seq<Act> {
    if Refused(c, viewer, requested) then [] else AckActs(c, actor, viewer, requested)
  }

  function AcknowledgeCurrentActs(c: Core, actor: ActorId, key: Key): seq<Act> {
    if key in c.items then [Ack(actor, key, c.items[key].revision)] else []
  }
}
