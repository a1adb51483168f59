/**
 * `createEvent`: check the event type against the fixed list, then reuse
 * the Event of the same (name, type) when its description is the same,
 * reject it when the description differs, and create it otherwise.
 */
module EventController {
  import opened Wrappers
  import opened Tables
  import opened EntityStore

  /** The event types `createEvent` accepts. */
  const ValidEventTypes: seq<string> := ["track", "identify", "alias", "screen", "page"]

  /** The reply of the endpoint. */
  datatype EventReply =
    | EventCreated(row: EventRow)   // 201 with the new event
    | EventReused(row: EventRow)    // 200 with the existing event
    | InvalidEventType              // 400
    | EventExists                   // 409

  /** The `message` of an error reply; the success replies carry the record instead. */
  function EventReplyMessage(r: EventReply): Option<string> {
    match r
    case InvalidEventType => Some("Invalid event type.")
    case EventExists => Some("Event already exists with a different description.")
    case _ => None
  }

  /** The event table afterwards, and the reply. */
  function CreateEventResult(events: EventTable, name: string, kind: string, description: string): (EventTable, EventReply) {
    var k := Identity(name, kind);
    if kind !in ValidEventTypes then (events, InvalidEventType)
    else if Has(events, k) then
      var row := events.rows[IndexOf(events.rows, k).value];
      if row.val != description then (events, EventExists) else (events, EventReused(row))
    else (Insert(events, k, (), description), EventCreated(Row(events.nextId, k, (), description)))
  }

  /** A type outside the list is rejected and nothing is looked up or written. */
  lemma InvalidTypeRejected(events: EventTable, name: string, kind: string, description: string)
    requires kind !in {"track", "identify", "alias", "screen", "page"}
    ensures CreateEventResult(events, name, kind, description) == (events, InvalidEventType)
    ensures EventReplyMessage(CreateEventResult(events, name, kind, description).1) == Some("Invalid event type.")
  {
  }

  /** An event of the same identity with another description is a conflict,
      and the table is unchanged. */
  lemma ExistingDifferentConflicts(events: EventTable, name: string, kind: string, description: string)
    requires kind in ValidEventTypes
    requires Has(events, Identity(name, kind))
    requires events.rows[IndexOf(events.rows, Identity(name, kind)).value].val != description
    ensures CreateEventResult(events, name, kind, description) == (events, EventExists)
    ensures EventReplyMessage(CreateEventResult(events, name, kind, description).1)
         == Some("Event already exists with a different description.")
  {
  }

  /** An event of the same identity with the same description is returned
      as stored, and no record is created. */
  lemma ExistingSameReused(events: EventTable, name: string, kind: string, description: string)
    requires kind in ValidEventTypes
    requires Has(events, Identity(name, kind))
    requires events.rows[IndexOf(events.rows, Identity(name, kind)).value].val == description
    ensures var (t, reply) := CreateEventResult(events, name, kind, description);
      t == events && reply.EventReused? && reply.row in events.rows
      && reply.row.key == Identity(name, kind) && reply.row.val == description
  {
  }

  /** Whatever the request, the table either stays as it is or gains exactly
      one record at its end, carrying the next id and the requested name,
      type and description; then the reply carries that record. */
  lemma CreateAppendsOne(events: EventTable, name: string, kind: string, description: string)
    ensures var (t, reply) := CreateEventResult(events, name, kind, description);
      && (reply.EventCreated? <==> kind in ValidEventTypes && !Has(events, Identity(name, kind)))
      && (reply.EventCreated? ==>
            t.rows == events.rows + [reply.row]
            && reply.row == Row(events.nextId, Identity(name, kind), (), description))
      && (!reply.EventCreated? ==> t == events)
  {
  }

  /** The call never leaves two events of one (name, type); after a
      successful call exactly one event has the requested identity and its
      description is the requested one. */
  lemma NeverDuplicates(events: EventTable, name: string, kind: string, description: string)
    requires UniqueKeys(events) && FreshIds(events)
    ensures var (t, reply) := CreateEventResult(events, name, kind, description);
      && UniqueKeys(t) && FreshIds(t)
      && ((reply.EventCreated? || reply.EventReused?) ==>
            ExactlyOne(t, Identity(name, kind))
            && t.rows[IndexOf(t.rows, Identity(name, kind)).value].val == description
            && IdOf(t, Identity(name, kind)) == reply.row.id)
  {
    var k := Identity(name, kind);
    if kind in ValidEventTypes {
      if Has(events, k) {
        UniqueExactlyOne(events, k);
      } else {
        InsertUnique(events, k, (), description);
        InsertFresh(events, k, (), description);
      }
    }
  }

  /** `createEvent` with body `{ name, type, description }`. */
  method CreateEvent(store: Store, name: string, kind: string, description: string) returns (reply: EventReply)
    requires store.Valid()
    modifies store
    ensures store.Valid()
    ensures var (t, r) := CreateEventResult(old(store.events), name, kind, description);
      store.Snapshot() == old(store.Snapshot()).(events := t) && reply == r
  {
    if kind !in ValidEventTypes {
      return InvalidEventType;
    }
    var existing := store.FindEvent(Identity(name, kind));
    if existing.Some? {
      if existing.value.val != description {
        return EventExists;
      } else {
        return EventReused(existing.value);
      }
    }
    var row := store.CreateEvent(Identity(name, kind), description);
    return EventCreated(row);
  }
}
