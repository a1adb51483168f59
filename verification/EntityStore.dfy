/**
 * The entity store the controllers and the reconciler talk to: the Event,
 * Property, TrackingPlan, TrackingPlanEvent and EventProperty tables, each
 * a sequence of records with its own fresh-id counter, and the findFirst,
 * findUnique, create and update calls the core makes on them.
 */
module EntityStore {
  import opened Wrappers
  import opened JsValues
  import opened Tables

  /** What events and properties are looked up by: `{ name, type }`. */
  datatype Identity = Identity(name: string, kind: string)

  /** What a TrackingPlanEvent link is looked up by. */
  datatype PlanEventKey = PlanEventKey(planId: nat, eventId: nat)

  /** What an EventProperty link is looked up by. */
  datatype EventPropertyKey = EventPropertyKey(eventId: nat, propertyId: nat)

  /** Events: identity, nothing else fixed, the description overwritten. */
  type EventTable = TableState<Identity, (), string>
  type EventRow = Row<Identity, (), string>

  /** Properties: identity, the `validationRules` given at creation (None when
      none were given), the description overwritten. */
  type PropertyTable = TableState<Identity, Option<Json>, string>
  type PropertyRow = Row<Identity, Option<Json>, string>

  /** Tracking plans: the unique name and the description. */
  type PlanTable = TableState<string, (), string>
  type PlanRow = Row<string, (), string>

  /** Plan-event links: the `additionalProperties` flag overwritten. */
  type PlanEventTable = TableState<PlanEventKey, (), bool>
  type PlanEventRow = Row<PlanEventKey, (), bool>

  /** Event-property links: the `required` flag overwritten. */
  type EventPropertyTable = TableState<EventPropertyKey, (), bool>
  type EventPropertyRow = Row<EventPropertyKey, (), bool>

  /** The whole store as a value. */
  datatype Db = Db(
    events: EventTable,
    properties: PropertyTable,
    plans: PlanTable,
    planEvents: PlanEventTable,
    eventProperties: EventPropertyTable)

  /** Every table hands out fresh, distinct ids. */
  ghost predicate ValidDb(db: Db) {
    && FreshIds(db.events)
    && FreshIds(db.properties)
    && FreshIds(db.plans)
    && FreshIds(db.planEvents)
    && FreshIds(db.eventProperties)
  }

  /** The store as the Prisma client presents it to the core. */
  class Store {
    var events: EventTable
    var properties: PropertyTable
    var plans: PlanTable
    var planEvents: PlanEventTable
    var eventProperties: EventPropertyTable

    /** The current contents of every table. */
    function Snapshot(): Db
      reads this
    {
      Db(events, properties, plans, planEvents, eventProperties)
    }

    ghost predicate Valid()
      reads this
    {
      ValidDb(Snapshot())
    }

    /** An empty store. */
    constructor ()
      ensures Valid()
      ensures events.rows == [] && properties.rows == [] && plans.rows == []
      ensures planEvents.rows == [] && eventProperties.rows == []
    {
      events := TableState([], 0);
      properties := TableState([], 0);
      plans := TableState([], 0);
      planEvents := TableState([], 0);
      eventProperties := TableState([], 0);
    }

    // -- Event ------------------------------------------------------------

    /** `event.findFirst({ where: { name, type } })`. */
    method FindEvent(k: Identity) returns (r: Option<EventRow>)
      ensures r.Some? <==> Has(events, k)
      ensures r.Some? ==> r.value == events.rows[IndexOf(events.rows, k).value]
    {
      r := FindFirst(events, k);
    }

    /** `event.create({ data: { name, type, description } })`. */
    method CreateEvent(k: Identity, description: string) returns (row: EventRow)
      requires Valid()
      modifies this
      ensures Valid()
      ensures Snapshot() == old(Snapshot()).(events := Insert(old(events), k, (), description))
      ensures row == Row(old(events).nextId, k, (), description)
    {
      InsertFresh(events, k, (), description);
      row := Row(events.nextId, k, (), description);
      events := Insert(events, k, (), description);
    }

    /** `event.update({ where: { id }, data: { description } })`. */
    method UpdateEvent(id: nat, description: string)
      requires Valid()
      modifies this
      ensures Valid()
      ensures Snapshot() == old(Snapshot()).(events := SetById(old(events), id, description))
    {
      SetByIdFresh(events, id, description);
      events := SetById(events, id, description);
    }

    // -- Property ---------------------------------------------------------

    /** `property.findFirst({ where: { name, type } })`. */
    method FindProperty(k: Identity) returns (r: Option<PropertyRow>)
      ensures r.Some? <==> Has(properties, k)
      ensures r.Some? ==> r.value == properties.rows[IndexOf(properties.rows, k).value]
    {
      r := FindFirst(properties, k);
    }

    /** `property.create({ data: { name, type, description, validationRules } })`. */
    method CreateProperty(k: Identity, rules: Option<Json>, description: string) returns (row: PropertyRow)
      requires Valid()
      modifies this
      ensures Valid()
      ensures Snapshot() == old(Snapshot()).(properties := Insert(old(properties), k, rules, description))
      ensures row == Row(old(properties).nextId, k, rules, description)
    {
      InsertFresh(properties, k, rules, description);
      row := Row(properties.nextId, k, rules, description);
      properties := Insert(properties, k, rules, description);
    }

    /** `property.update({ where: { id }, data: { description } })`. */
    method UpdateProperty(id: nat, description: string)
      requires Valid()
      modifies this
      ensures Valid()
      ensures Snapshot() == old(Snapshot()).(properties := SetById(old(properties), id, description))
    {
      SetByIdFresh(properties, id, description);
      properties := SetById(properties, id, description);
    }

    // -- TrackingPlan -----------------------------------------------------

    /** `trackingPlan.findUnique({ where: { name } })`. */
    method FindPlan(name: string) returns (r: Option<PlanRow>)
      ensures r.Some? <==> Has(plans, name)
      ensures r.Some? ==> r.value == plans.rows[IndexOf(plans.rows, name).value]
    {
      r := FindFirst(plans, name);
    }

    /** `trackingPlan.create({ data: { name, description } })`. */
    method CreatePlan(name: string, description: string) returns (row: PlanRow)
      requires Valid()
      modifies this
      ensures Valid()
      ensures Snapshot() == old(Snapshot()).(plans := Insert(old(plans), name, (), description))
      ensures row == Row(old(plans).nextId, name, (), description)
    {
      InsertFresh(plans, name, (), description);
      row := Row(plans.nextId, name, (), description);
      plans := Insert(plans, name, (), description);
    }

    // -- TrackingPlanEvent ------------------------------------------------

    /** `trackingPlanEvent.findFirst({ where: { trackingPlanId, eventId } })`. */
    method FindPlanEvent(k: PlanEventKey) returns (r: Option<PlanEventRow>)
      ensures r.Some? <==> Has(planEvents, k)
      ensures r.Some? ==> r.value == planEvents.rows[IndexOf(planEvents.rows, k).value]
    {
      r := FindFirst(planEvents, k);
    }

    /** `trackingPlanEvent.create({ data: { trackingPlanId, eventId, additionalProperties } })`. */
    method CreatePlanEvent(k: PlanEventKey, additionalProperties: bool) returns (row: PlanEventRow)
      requires Valid()
      modifies this
      ensures Valid()
      ensures Snapshot() == old(Snapshot()).(planEvents := Insert(old(planEvents), k, (), additionalProperties))
      ensures row == Row(old(planEvents).nextId, k, (), additionalProperties)
    {
      InsertFresh(planEvents, k, (), additionalProperties);
      row := Row(planEvents.nextId, k, (), additionalProperties);
      planEvents := Insert(planEvents, k, (), additionalProperties);
    }

    /** `trackingPlanEvent.update({ where: { id }, data: { additionalProperties } })`. */
    method UpdatePlanEvent(id: nat, additionalProperties: bool)
      requires Valid()
      modifies this
      ensures Valid()
      ensures Snapshot() == old(Snapshot()).(planEvents := SetById(old(planEvents), id, additionalProperties))
    {
      SetByIdFresh(planEvents, id, additionalProperties);
      planEvents := SetById(planEvents, id, additionalProperties);
    }

    // -- EventProperty ----------------------------------------------------

    /** `eventProperty.findFirst({ where: { eventId, propertyId } })`. */
    method FindEventProperty(k: EventPropertyKey) returns (r: Option<EventPropertyRow>)
      ensures r.Some? <==> Has(eventProperties, k)
      ensures r.Some? ==> r.value == eventProperties.rows[IndexOf(eventProperties.rows, k).value]
    {
      r := FindFirst(eventProperties, k);
    }

    /** `eventProperty.create({ data: { eventId, propertyId, required } })`. */
    method CreateEventProperty(k: EventPropertyKey, required: bool) returns (row: EventPropertyRow)
      requires Valid()
      modifies this
      ensures Valid()
      ensures Snapshot() == old(Snapshot()).(eventProperties := Insert(old(eventProperties), k, (), required))
      ensures row == Row(old(eventProperties).nextId, k, (), required)
    {
      InsertFresh(eventProperties, k, (), required);
      row := Row(eventProperties.nextId, k, (), required);
      eventProperties := Insert(eventProperties, k, (), required);
    }

    /** `eventProperty.update({ where: { id }, data: { required } })`. */
    method UpdateEventProperty(id: nat, required: bool)
      requires Valid()
      modifies this
      ensures Valid()
      ensures Snapshot() == old(Snapshot()).(eventProperties := SetById(old(eventProperties), id, required))
    {
      SetByIdFresh(eventProperties, id, required);
      eventProperties := SetById(eventProperties, id, required);
    }
  }
}
