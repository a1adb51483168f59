/**
 * The strict plan creation `createTrackingPlan`: reject a duplicate plan
 * name, create the plan, then for every event definition in order reuse or
 * create the Event (rejecting an existing one whose description differs),
 * create the plan's link to it, and for each of its properties reuse or
 * create the Property (with the same rejection) and create the
 * event-property link. A rejection stops the walk; nothing written before it
 * is undone.
 */
module PlanCreation {
  import opened Wrappers
  import opened JsValues
  import opened Tables
  import opened EntityStore
  import opened Reconciler

  /** Why the walk stopped. */
  datatype Conflict =
    | EventConflict(name: string, kind: string)
    | PropertyConflict(name: string, kind: string)

  /** The store after a walk, and whether the walk stopped on a conflict. */
  datatype Outcome = Done(db: Db) | Stopped(db: Db, conflict: Conflict)

  /** The reply of the endpoint. */
  datatype PlanReply =
    | PlanCreated(planId: nat)      // 201
    | DuplicateName                 // 409
    | Rejected(conflict: Conflict)  // 409

  /** The message of each reply. */
  function ReplyMessage(r: PlanReply): string {
    match r
    case PlanCreated(_) => "Tracking plan created successfully"
    case DuplicateName => "TrackingPlan with this name already exists"
    case Rejected(EventConflict(n, k)) =>
      "Event '" + n + "' of type '" + k + "' already exists with a different description."
    case Rejected(PropertyConflict(n, k)) =>
      "Property '" + n + "' of type '" + k + "' already exists with a different description."
  }

  /** The stored value of the record a lookup of k finds. */
  function FoundVal<K(==), A, V>(t: TableState<K, A, V>, k: K): V
    requires Has(t, k)
  {
    t.rows[IndexOf(t.rows, k).value].val
  }

  /** A record with identity k exists but carries another value than v. */
  predicate Differs<K(==), A, V(==)>(t: TableState<K, A, V>, k: K, v: V) {
    Has(t, k) && FoundVal(t, k) != v
  }

  /** Reuse the record of k or create it: the table, and the record's id. */
  function Reuse<K(==), A, V>(t: TableState<K, A, V>, k: K, a: A, v: V): (TableState<K, A, V>, nat) {
    if Has(t, k) then (t, IdOf(t, k)) else (Insert(t, k, a, v), t.nextId)
  }

  /** The property loop of one event, stopping at the first conflict. */
  function StrictProps(db: Db, eventId: nat, ps: seq<PropertyDef>): Outcome
    decreases |ps|
  {
    if ps == [] then Done(db)
    else
      var p := ps[0];
      if Differs(db.properties, PropertyKey(p), p.description) then Stopped(db, PropertyConflict(p.name, p.kind))
      else
        var (props, propertyId) := Reuse(db.properties, PropertyKey(p), None, p.description);
        var links := Insert(db.eventProperties, EventPropertyKey(eventId, propertyId), (), p.required);
        StrictProps(db.(properties := props, eventProperties := links), eventId, ps[1..])
  }

  /** One event definition: the event, its plan link, its properties. */
  function StrictEvent(db: Db, planId: nat, e: EventDef): Outcome {
    if Differs(db.events, EventKey(e), e.description) then Stopped(db, EventConflict(e.name, e.kind))
    else
      var (events, eventId) := Reuse(db.events, EventKey(e), (), e.description);
      var links := Insert(db.planEvents, PlanEventKey(planId, eventId), (), e.additionalProperties);
      StrictProps(db.(events := events, planEvents := links), eventId, e.properties)
  }

  /** The event loop, stopping at the first conflict. */
  function StrictEvents(db: Db, planId: nat, es: seq<EventDef>): Outcome
    decreases |es|
  {
    if es == [] then Done(db)
    else match StrictEvent(db, planId, es[0])
      case Stopped(d, c) => Stopped(d, c)
      case Done(d) => StrictEvents(d, planId, es[1..])
  }

  /** `createTrackingPlan`: the store afterwards and the reply. */
  function CreatePlan(db: Db, name: string, description: string, es: seq<EventDef>): (Db, PlanReply) {
    if Has(db.plans, name) then (db, DuplicateName)
    else
      var planId := db.plans.nextId;
      match StrictEvents(db.(plans := Insert(db.plans, name, (), description)), planId, es)
      case Done(d) => (d, PlanCreated(planId))
      case Stopped(d, c) => (d, Rejected(c))
  }

  // ---------------------------------------------------------------------
  // What strict creation guarantees
  // ---------------------------------------------------------------------

  /** A duplicate plan name is rejected before anything is written. */
  lemma DuplicateNameFirst(db: Db, name: string, description: string, es: seq<EventDef>)
    requires Has(db.plans, name)
    ensures CreatePlan(db, name, description, es) == (db, DuplicateName)
    ensures ReplyMessage(CreatePlan(db, name, description, es).1) == "TrackingPlan with this name already exists"
  {
  }

  /** Every table only ever gains records at its end. */
  ghost predicate Grows(d1: Db, d2: Db) {
    && d1.events.rows <= d2.events.rows && d1.events.nextId <= d2.events.nextId
    && d1.properties.rows <= d2.properties.rows && d1.properties.nextId <= d2.properties.nextId
    && d1.plans == d2.plans
    && d1.planEvents.rows <= d2.planEvents.rows
    && d1.eventProperties.rows <= d2.eventProperties.rows
  }

  lemma {:induction false} StrictPropsGrows(db: Db, eventId: nat, ps: seq<PropertyDef>)
    ensures Grows(db, StrictProps(db, eventId, ps).db)
    decreases |ps|
  {
    if ps != [] && !Differs(db.properties, PropertyKey(ps[0]), ps[0].description) {
      var p := ps[0];
      var (props, propertyId) := Reuse(db.properties, PropertyKey(p), None, p.description);
      var links := Insert(db.eventProperties, EventPropertyKey(eventId, propertyId), (), p.required);
      var d := db.(properties := props, eventProperties := links);
      StrictPropsGrows(d, eventId, ps[1..]);
    }
  }

  lemma StrictEventGrows(db: Db, planId: nat, e: EventDef)
    ensures Grows(db, StrictEvent(db, planId, e).db)
  {
    if !Differs(db.events, EventKey(e), e.description) {
      var (events, eventId) := Reuse(db.events, EventKey(e), (), e.description);
      var links := Insert(db.planEvents, PlanEventKey(planId, eventId), (), e.additionalProperties);
      StrictPropsGrows(db.(events := events, planEvents := links), eventId, e.properties);
    }
  }

  lemma {:induction false} StrictEventsGrows(db: Db, planId: nat, es: seq<EventDef>)
    ensures Grows(db, StrictEvents(db, planId, es).db)
    decreases |es|
  {
    if es != [] {
      StrictEventGrows(db, planId, es[0]);
      var o := StrictEvent(db, planId, es[0]);
      if o.Done? {
        StrictEventsGrows(o.db, planId, es[1..]);
      }
    }
  }

  /** No rollback: whatever the reply, every record stored before stays in
      place, nothing is overwritten, and once the name was free the new plan
      stays stored, and so does everything the walk wrote for the event
      definitions it handled, also when a conflict stopped it later. */
  lemma AppendOnly(db: Db, name: string, description: string, es: seq<EventDef>)
    ensures var (d, reply) := CreatePlan(db, name, description, es);
      && db.events.rows <= d.events.rows
      && db.properties.rows <= d.properties.rows
      && db.planEvents.rows <= d.planEvents.rows
      && db.eventProperties.rows <= d.eventProperties.rows
      && (!Has(db.plans, name) ==> d.plans == Insert(db.plans, name, (), description))
      && (!Has(db.plans, name) ==>
            var start := db.(plans := Insert(db.plans, name, (), description));
            forall k :: 0 <= k <= |es| ==> Grows(StrictEvents(start, db.plans.nextId, es[..k]).db, d))
      && (reply.PlanCreated? ==> reply.planId == db.plans.nextId && !Has(db.plans, name))
  {
    if !Has(db.plans, name) {
      var start := db.(plans := Insert(db.plans, name, (), description));
      StrictEventsGrows(start, db.plans.nextId, es);
      forall k | 0 <= k <= |es|
        ensures Grows(StrictEvents(start, db.plans.nextId, es[..k]).db, StrictEvents(start, db.plans.nextId, es).db)
      {
        PrefixGrows(start, db.plans.nextId, es, k);
      }
    }
  }

  /** The store after the walk over a prefix of the definitions is kept by
      the walk over all of them. */
  lemma {:induction false} PrefixGrows(db: Db, planId: nat, es: seq<EventDef>, k: nat)
    requires k <= |es|
    ensures Grows(StrictEvents(db, planId, es[..k]).db, StrictEvents(db, planId, es).db)
    decreases k
  {
    if k == 0 {
      assert es[..0] == [];
      StrictEventsGrows(db, planId, es);
    } else {
      var o := StrictEvent(db, planId, es[0]);
      assert es[..k][0] == es[0];
      assert es[..k][1..] == es[1..][..k - 1];
      if o.Done? {
        PrefixGrows(o.db, planId, es[1..], k - 1);
      }
    }
  }

  /** A record already stored keeps being found, with its value. */
  lemma FoundKept<K, A, V>(t1: TableState<K, A, V>, t2: TableState<K, A, V>, k: K)
    requires t1.rows <= t2.rows && t1.nextId <= t2.nextId && Has(t1, k)
    ensures Has(t2, k) && FoundVal(t2, k) == FoundVal(t1, k)
  {
    assert Extends(t1, t2);
    IndexStable(t1, t2, k);
  }

  /** An event definition whose identity is already stored with another
      description makes the walk stop: the plan is never reported created. */
  lemma {:induction false} EventConflictStops(db: Db, planId: nat, es: seq<EventDef>, i: nat)
    requires i < |es| && Differs(db.events, EventKey(es[i]), es[i].description)
    ensures StrictEvents(db, planId, es).Stopped?
    decreases |es|
  {
    var o := StrictEvent(db, planId, es[0]);
    if i > 0 && o.Done? {
      StrictEventGrows(db, planId, es[0]);
      FoundKept(db.events, o.db.events, EventKey(es[i]));
      assert es[1..][i - 1] == es[i];
      EventConflictStops(o.db, planId, es[1..], i - 1);
    }
  }

  /** A property definition whose identity is already stored with another
      description makes the property walk stop. */
  lemma {:induction false} PropertyConflictStops(db: Db, eventId: nat, ps: seq<PropertyDef>, j: nat)
    requires j < |ps| && Differs(db.properties, PropertyKey(ps[j]), ps[j].description)
    ensures StrictProps(db, eventId, ps).Stopped?
    decreases |ps|
  {
    if j > 0 && !Differs(db.properties, PropertyKey(ps[0]), ps[0].description) {
      var p := ps[0];
      var (props, propertyId) := Reuse(db.properties, PropertyKey(p), None, p.description);
      var links := Insert(db.eventProperties, EventPropertyKey(eventId, propertyId), (), p.required);
      var d := db.(properties := props, eventProperties := links);
      FoundKept(db.properties, props, PropertyKey(ps[j]));
      assert ps[1..][j - 1] == ps[j];
      PropertyConflictStops(d, eventId, ps[1..], j - 1);
    }
  }

  /** ... and so the event walk stops too. */
  lemma {:induction false} PropertyConflictStopsAll(db: Db, planId: nat, es: seq<EventDef>, i: nat, j: nat)
    requires i < |es| && j < |es[i].properties|
    requires Differs(db.properties, PropertyKey(es[i].properties[j]), es[i].properties[j].description)
    ensures StrictEvents(db, planId, es).Stopped?
    decreases |es|
  {
    var o := StrictEvent(db, planId, es[0]);
    StrictEventGrows(db, planId, es[0]);
    if o.Done? {
      if i == 0 {
        var e := es[0];
        var (events, eventId) := Reuse(db.events, EventKey(e), (), e.description);
        var links := Insert(db.planEvents, PlanEventKey(planId, eventId), (), e.additionalProperties);
        PropertyConflictStops(db.(events := events, planEvents := links), eventId, e.properties, j);
      } else {
        FoundKept(db.properties, o.db.properties, PropertyKey(es[i].properties[j]));
        assert es[1..][i - 1] == es[i];
        PropertyConflictStopsAll(o.db, planId, es[1..], i - 1, j);
      }
    }
  }

  /** An event or property already stored with another description is
      rejected: the reply is a conflict, never a created plan. */
  lemma ConflictRejected(db: Db, name: string, description: string, es: seq<EventDef>, i: nat)
    requires !Has(db.plans, name) && i < |es|
    requires Differs(db.events, EventKey(es[i]), es[i].description)
          || exists j :: 0 <= j < |es[i].properties| && Differs(db.properties, PropertyKey(es[i].properties[j]), es[i].properties[j].description)
    ensures CreatePlan(db, name, description, es).1.Rejected?
  {
    var d := db.(plans := Insert(db.plans, name, (), description));
    if Differs(db.events, EventKey(es[i]), es[i].description) {
      EventConflictStops(d, db.plans.nextId, es, i);
    } else {
      var j :| 0 <= j < |es[i].properties| && Differs(db.properties, PropertyKey(es[i].properties[j]), es[i].properties[j].description);
      PropertyConflictStopsAll(d, db.plans.nextId, es, i, j);
    }
  }

  /** Reusing a record whose value equals the request, or creating it, is
      the reconciler's upsert. */
  lemma ReuseIsUpsert<K, A, V>(t: TableState<K, A, V>, w: Write<K, A, V>)
    requires !Differs(t, w.key, w.val)
    ensures Reuse(t, w.key, w.fixed, w.val).0 == Upsert(t, w)
    ensures Reuse(t, w.key, w.fixed, w.val).1 == IdOf(Upsert(t, w), w.key)
  {
    UpsertId(t, w);
    if Has(t, w.key) {
      UpsertSame(t, w);
    }
  }

  /** The property upserts of a batch, first event's first. */
  lemma {:induction false} AllPropertyWritesCons(es: seq<EventDef>)
    requires es != []
    ensures AllPropertyWrites(es) == PropertyWrites(es[0].properties) + AllPropertyWrites(es[1..])
  {
    if |es| > 1 {
      var init, rest := es[..|es| - 1], es[1..];
      AllPropertyWritesCons(init);
      assert init[1..] == rest[..|rest| - 1];
      assert init[0] == es[0];
      assert rest[|rest| - 1] == es[|es| - 1];
      var front := PropertyWrites(es[0].properties);
      var mid := AllPropertyWrites(init[1..]);
      var last := PropertyWrites(es[|es| - 1].properties);
      assert AllPropertyWrites(es) == (front + mid) + last;
      assert AllPropertyWrites(rest) == mid + last;
      assert (front + mid) + last == front + (mid + last);
    } else {
      assert es[1..] == [];
      assert es[..0] == [];
    }
  }

  /** A successful property walk leaves the property table as the
      reconciler's upserts would, and appends one link per property. */
  lemma {:induction false} StrictPropsDone(db: Db, eventId: nat, ps: seq<PropertyDef>)
    requires StrictProps(db, eventId, ps).Done?
    ensures StrictProps(db, eventId, ps).db.properties == UpsertAll(db.properties, PropertyWrites(ps))
    ensures StrictProps(db, eventId, ps).db.events == db.events
    ensures StrictProps(db, eventId, ps).db.planEvents == db.planEvents
    ensures |StrictProps(db, eventId, ps).db.eventProperties.rows| == |db.eventProperties.rows| + |ps|
    decreases |ps|
  {
    if ps != [] {
      var p := ps[0];
      var (props, propertyId) := Reuse(db.properties, PropertyKey(p), None, p.description);
      var links := Insert(db.eventProperties, EventPropertyKey(eventId, propertyId), (), p.required);
      var d := db.(properties := props, eventProperties := links);
      StrictPropsDone(d, eventId, ps[1..]);
      ReuseIsUpsert(db.properties, PropertyWrite(p));
      assert PropertyWrites(ps) == [PropertyWrite(p)] + PropertyWrites(ps[1..]);
      UpsertAllCons(db.properties, PropertyWrite(p), PropertyWrites(ps[1..]));
    }
  }

  /** ... and those links are exactly the reconciler's link writes for the
      event, in order, under the ids of the final property table. */
  lemma {:induction false} StrictPropsLinks(db: Db, eventId: nat, ps: seq<PropertyDef>)
    requires StrictProps(db, eventId, ps).Done?
    ensures var d := StrictProps(db, eventId, ps).db;
      && PropsIn(d.properties, ps)
      && AppendedAre(db.eventProperties.rows, d.eventProperties.rows, LinkWrites(eventId, d.properties, ps))
    decreases |ps|
  {
    var d := StrictProps(db, eventId, ps).db;
    StrictPropsDone(db, eventId, ps);
    PropsCovered(db.properties, ps);
    if ps != [] {
      var p := ps[0];
      var (props, propertyId) := Reuse(db.properties, PropertyKey(p), None, p.description);
      var links := Insert(db.eventProperties, EventPropertyKey(eventId, propertyId), (), p.required);
      var d1 := db.(properties := props, eventProperties := links);
      assert d == StrictProps(d1, eventId, ps[1..]).db;
      StrictPropsLinks(d1, eventId, ps[1..]);
      // the first link carries the id the final table gives the property
      ReuseIsUpsert(db.properties, PropertyWrite(p));
      StrictPropsGrows(d1, eventId, ps[1..]);
      assert Extends(props, d.properties);
      IndexStable(props, d.properties, PropertyKey(p));
      var w := Write(EventPropertyKey(eventId, propertyId), (), p.required);
      assert AppendedAre(db.eventProperties.rows, links.rows, [w]);
      AppendedTrans(db.eventProperties.rows, links.rows, d.eventProperties.rows, [w], LinkWrites(eventId, d.properties, ps[1..]));
      assert LinkWrites(eventId, d.properties, ps) == [w] + LinkWrites(eventId, d.properties, ps[1..]);
    } else {
      assert LinkWrites(eventId, d.properties, ps) == [];
    }
  }

  /** A successful walk over one event definition upserts the event and its
      properties, and appends its plan link and its property links as the
      reconciler writes them. */
  lemma StrictEventDone(db: Db, planId: nat, e: EventDef)
    requires StrictEvent(db, planId, e).Done?
    ensures StrictEvent(db, planId, e).db.events == Upsert(db.events, EventWrite(e))
    ensures StrictEvent(db, planId, e).db.properties == UpsertAll(db.properties, PropertyWrites(e.properties))
    ensures |StrictEvent(db, planId, e).db.planEvents.rows| == |db.planEvents.rows| + 1
    ensures |StrictEvent(db, planId, e).db.eventProperties.rows| == |db.eventProperties.rows| + |e.properties|
    ensures var d := StrictEvent(db, planId, e).db;
      && Has(d.events, EventKey(e)) && PropsIn(d.properties, e.properties)
      && AppendedAre(db.planEvents.rows, d.planEvents.rows,
           [Write(PlanEventKey(planId, IdOf(d.events, EventKey(e))), (), e.additionalProperties)])
      && AppendedAre(db.eventProperties.rows, d.eventProperties.rows,
           LinkWrites(IdOf(d.events, EventKey(e)), d.properties, e.properties))
  {
    var (events, eventId) := Reuse(db.events, EventKey(e), (), e.description);
    var links := Insert(db.planEvents, PlanEventKey(planId, eventId), (), e.additionalProperties);
    var d0 := db.(events := events, planEvents := links);
    StrictPropsDone(d0, eventId, e.properties);
    StrictPropsLinks(d0, eventId, e.properties);
    ReuseIsUpsert(db.events, EventWrite(e));
  }

  /** The number of property definitions of a batch. */
  function PropertyCount(es: seq<EventDef>): nat {
    if es == [] then 0 else |es[0].properties| + PropertyCount(es[1..])
  }

  /** A slice of a batch whose events and properties are stored is stored too. */
  lemma InSlice(events: EventTable, props: PropertyTable, es: seq<EventDef>, a: nat, b: nat)
    requires a <= b <= |es| && EventsIn(events, es) && AllPropsIn(props, es)
    ensures EventsIn(events, es[a..b]) && AllPropsIn(props, es[a..b])
  {
    forall i | 0 <= i < b - a ensures es[a..b][i] == es[a + i] { }
  }

  /** The items of each element's list, element by element, built from the end. */
  function FlatMap<T, W>(xs: seq<T>, f: T -> seq<W>): seq<W> {
    if xs == [] then [] else FlatMap(xs[..|xs| - 1], f) + f(xs[|xs| - 1])
  }

  lemma {:induction false} FlatMapCons<T, W>(xs: seq<T>, f: T -> seq<W>)
    requires xs != []
    ensures FlatMap(xs, f) == f(xs[0]) + FlatMap(xs[1..], f)
  {
    if |xs| > 1 {
      var init, rest := xs[..|xs| - 1], xs[1..];
      FlatMapCons(init, f);
      assert init[1..] == rest[..|rest| - 1];
      assert init[0] == xs[0];
      assert rest[|rest| - 1] == xs[|xs| - 1];
      var front, mid, last := f(xs[0]), FlatMap(init[1..], f), f(xs[|xs| - 1]);
      assert FlatMap(xs, f) == (front + mid) + last;
      assert FlatMap(rest, f) == mid + last;
      assert (front + mid) + last == front + (mid + last);
    } else {
      assert xs[1..] == [];
      assert xs[..0] == [];
    }
  }

  /** The link upserts of one event definition, as a total function. */
  ghost function EventLinks(events: EventTable, props: PropertyTable): EventDef -> seq<Write<EventPropertyKey, (), bool>> {
    e => if Has(events, EventKey(e)) && PropsIn(props, e.properties)
         then LinkWrites(IdOf(events, EventKey(e)), props, e.properties) else []
  }

  /** The link upserts of a batch are those of its definitions one after the other. */
  lemma {:induction false} AllLinkWritesFlat(events: EventTable, props: PropertyTable, es: seq<EventDef>)
    requires EventsIn(events, es) && AllPropsIn(props, es)
    ensures AllLinkWrites(events, props, es) == FlatMap(es, EventLinks(events, props))
  {
    if es != [] {
      var init := es[..|es| - 1];
      AllLinkWritesFlat(events, props, init);
    }
  }

  /** The link upserts of a batch, first event's first. */
  lemma AllLinkWritesCons(events: EventTable, props: PropertyTable, es: seq<EventDef>)
    requires es != [] && EventsIn(events, es) && AllPropsIn(props, es)
    ensures EventsIn(events, es[1..]) && AllPropsIn(props, es[1..])
    ensures AllLinkWrites(events, props, es)
      == LinkWrites(IdOf(events, EventKey(es[0])), props, es[0].properties) + AllLinkWrites(events, props, es[1..])
  {
    InSlice(events, props, es, 1, |es|);
    AllLinkWritesFlat(events, props, es);
    AllLinkWritesFlat(events, props, es[1..]);
    FlatMapCons(es, EventLinks(events, props));
  }

  /** A successful walk leaves the event and property tables exactly as the
      reconciler's upserts would, and appends one plan link per event and
      one event-property link per property definition. */
  lemma {:induction false} StrictEventsDone(db: Db, planId: nat, es: seq<EventDef>)
    requires StrictEvents(db, planId, es).Done?
    ensures StrictEvents(db, planId, es).db.events == UpsertAll(db.events, EventWrites(es))
    ensures StrictEvents(db, planId, es).db.properties == UpsertAll(db.properties, AllPropertyWrites(es))
    ensures |StrictEvents(db, planId, es).db.planEvents.rows| == |db.planEvents.rows| + |es|
    ensures |StrictEvents(db, planId, es).db.eventProperties.rows| == |db.eventProperties.rows| + PropertyCount(es)
    decreases |es|
  {
    if es != [] {
      var e := es[0];
      StrictEventDone(db, planId, e);
      var d := StrictEvent(db, planId, e).db;
      StrictEventsDone(d, planId, es[1..]);
      assert EventWrites(es) == [EventWrite(e)] + EventWrites(es[1..]);
      UpsertAllCons(db.events, EventWrite(e), EventWrites(es[1..]));
      AllPropertyWritesCons(es);
      UpsertAllAppend(db.properties, PropertyWrites(e.properties), AllPropertyWrites(es[1..]));
    }
  }

  /** After a successful walk every event and property of the batch is stored. */
  lemma StrictEventsStored(db: Db, planId: nat, es: seq<EventDef>)
    requires StrictEvents(db, planId, es).Done?
    ensures EventsIn(StrictEvents(db, planId, es).db.events, es)
    ensures AllPropsIn(StrictEvents(db, planId, es).db.properties, es)
  {
    StrictEventsDone(db, planId, es);
    EventsCovered(db.events, es);
    PropertiesCovered(db.properties, es);
  }

  /** ... and the links it appends are exactly the reconciler's plan links
      and event-property links, in order, under the final tables' ids. */
  lemma {:induction false} StrictEventsLinks(db: Db, planId: nat, es: seq<EventDef>)
    requires StrictEvents(db, planId, es).Done?
    ensures var d := StrictEvents(db, planId, es).db;
      && EventsIn(d.events, es) && AllPropsIn(d.properties, es)
      && AppendedAre(db.planEvents.rows, d.planEvents.rows, PlanEventWrites(d.events, planId, es))
      && AppendedAre(db.eventProperties.rows, d.eventProperties.rows, AllLinkWrites(d.events, d.properties, es))
    decreases |es|
  {
    var d := StrictEvents(db, planId, es).db;
    StrictEventsStored(db, planId, es);
    if es != [] {
      var e := es[0];
      StrictEventDone(db, planId, e);
      var d0 := StrictEvent(db, planId, e).db;
      assert d == StrictEvents(d0, planId, es[1..]).db;
      StrictEventsLinks(d0, planId, es[1..]);
      StrictEventsGrows(d0, planId, es[1..]);
      PlanLinksStep(db.planEvents, d0.planEvents, d.planEvents, d0.events, d.events, planId, es);
      PropertyLinksStep(db.eventProperties, d0.eventProperties, d.eventProperties, d0.events, d.events, d0.properties, d.properties, es);
    } else {
      assert PlanEventWrites(d.events, planId, es) == [];
    }
  }

  /** The plan link of a batch's first event followed by the plan links of
      the rest are the batch's plan links, once the event keeps its id. */
  lemma PlanLinksStep(t0: PlanEventTable, t1: PlanEventTable, t2: PlanEventTable, e1: EventTable, e2: EventTable,
                      planId: nat, es: seq<EventDef>)
    requires es != [] && Extends(e1, e2) && Has(e1, EventKey(es[0])) && EventsIn(e2, es)
    requires AppendedAre(t0.rows, t1.rows, [Write(PlanEventKey(planId, IdOf(e1, EventKey(es[0]))), (), es[0].additionalProperties)])
    requires AppendedAre(t1.rows, t2.rows, PlanEventWrites(e2, planId, es[1..]))
    ensures AppendedAre(t0.rows, t2.rows, PlanEventWrites(e2, planId, es))
  {
    IndexStable(e1, e2, EventKey(es[0]));
    var pw := Write(PlanEventKey(planId, IdOf(e2, EventKey(es[0]))), (), es[0].additionalProperties);
    AppendedTrans(t0.rows, t1.rows, t2.rows, [pw], PlanEventWrites(e2, planId, es[1..]));
    assert PlanEventWrites(e2, planId, es) == [pw] + PlanEventWrites(e2, planId, es[1..]);
  }

  /** The property links of a batch's first event followed by those of the
      rest are the batch's property links, once ids stay put. */
  lemma PropertyLinksStep(t0: EventPropertyTable, t1: EventPropertyTable, t2: EventPropertyTable,
                          e1: EventTable, e2: EventTable, p1: PropertyTable, p2: PropertyTable, es: seq<EventDef>)
    requires es != [] && Extends(e1, e2) && Extends(p1, p2)
    requires Has(e1, EventKey(es[0])) && PropsIn(p1, es[0].properties)
    requires EventsIn(e2, es) && AllPropsIn(p2, es)
    requires AppendedAre(t0.rows, t1.rows, LinkWrites(IdOf(e1, EventKey(es[0])), p1, es[0].properties))
    requires AppendedAre(t1.rows, t2.rows, AllLinkWrites(e2, p2, es[1..]))
    ensures AppendedAre(t0.rows, t2.rows, AllLinkWrites(e2, p2, es))
  {
    IndexStable(e1, e2, EventKey(es[0]));
    PropsInExtends(p1, p2, es[0].properties);
    var lw := LinkWrites(IdOf(e2, EventKey(es[0])), p2, es[0].properties);
    assert LinkWrites(IdOf(e1, EventKey(es[0])), p1, es[0].properties) == lw;
    AppendedTrans(t0.rows, t1.rows, t2.rows, lw, AllLinkWrites(e2, p2, es[1..]));
    AllLinkWritesCons(e2, p2, es);
  }

  /** A created plan leaves events and properties as the reconciler would
      have, and appends as new records exactly the plan links and
      event-property links the reconciler writes, in definition order. */
  lemma CreatedLikeReconciler(db: Db, name: string, description: string, es: seq<EventDef>)
    requires CreatePlan(db, name, description, es).1.PlanCreated?
    ensures var d := CreatePlan(db, name, description, es).0;
      && d.events == UpsertAll(db.events, EventWrites(es))
      && d.properties == UpsertAll(db.properties, AllPropertyWrites(es))
      && |d.planEvents.rows| == |db.planEvents.rows| + |es|
      && |d.eventProperties.rows| == |db.eventProperties.rows| + PropertyCount(es)
      && EventsIn(d.events, es) && AllPropsIn(d.properties, es)
      && AppendedAre(db.planEvents.rows, d.planEvents.rows, PlanEventWrites(d.events, db.plans.nextId, es))
      && AppendedAre(db.eventProperties.rows, d.eventProperties.rows, AllLinkWrites(d.events, d.properties, es))
  {
    StrictEventsDone(db.(plans := Insert(db.plans, name, (), description)), db.plans.nextId, es);
    StrictEventsLinks(db.(plans := Insert(db.plans, name, (), description)), db.plans.nextId, es);
  }

  // ---------------------------------------------------------------------
  // The handler over the store
  // ---------------------------------------------------------------------

  function AsOutcome(db: Db, c: Option<Conflict>): Outcome {
    if c.Some? then Stopped(db, c.value) else Done(db)
  }

  /** The inner loop: one event's property definitions. */
  method LinkProperties(store: Store, eventId: nat, ps: seq<PropertyDef>) returns (conflict: Option<Conflict>)
    requires store.Valid()
    modifies store
    ensures store.Valid()
    ensures AsOutcome(store.Snapshot(), conflict) == StrictProps(old(store.Snapshot()), eventId, ps)
  {
    for j := 0 to |ps|
      invariant store.Valid()
      invariant StrictProps(old(store.Snapshot()), eventId, ps) == StrictProps(store.Snapshot(), eventId, ps[j..])
    {
      var p := ps[j];
      assert ps[j..][1..] == ps[j + 1..];
      var existing := store.FindProperty(PropertyKey(p));
      var propertyId: nat;
      if existing.Some? {
        if existing.value.val != p.description {
          return Some(PropertyConflict(p.name, p.kind));
        }
        propertyId := existing.value.id;
      } else {
        var row := store.CreateProperty(PropertyKey(p), None, p.description);
        propertyId := row.id;
      }
      var _ := store.CreateEventProperty(EventPropertyKey(eventId, propertyId), p.required);
    }
    return None;
  }

  /** One iteration of the outer loop. */
  method LinkEvent(store: Store, planId: nat, e: EventDef) returns (conflict: Option<Conflict>)
    requires store.Valid()
    modifies store
    ensures store.Valid()
    ensures AsOutcome(store.Snapshot(), conflict) == StrictEvent(old(store.Snapshot()), planId, e)
  {
    var existing := store.FindEvent(EventKey(e));
    var eventId: nat;
    if existing.Some? {
      if existing.value.val != e.description {
        return Some(EventConflict(e.name, e.kind));
      }
      eventId := existing.value.id;
    } else {
      var row := store.CreateEvent(EventKey(e), e.description);
      eventId := row.id;
    }
    var _ := store.CreatePlanEvent(PlanEventKey(planId, eventId), e.additionalProperties);
    conflict := LinkProperties(store, eventId, e.properties);
  }

  /** `createTrackingPlan` with body `{ name, description, events }`. */
  method CreateTrackingPlan(store: Store, name: string, description: string, events: seq<EventDef>)
    returns (reply: PlanReply)
    requires store.Valid()
    modifies store
    ensures store.Valid()
    ensures (store.Snapshot(), reply) == CreatePlan(old(store.Snapshot()), name, description, events)
  {
    var existing := store.FindPlan(name);
    if existing.Some? {
      return DuplicateName;
    }
    var plan := store.CreatePlan(name, description);
    ghost var start := store.Snapshot();
    for i := 0 to |events|
      invariant store.Valid()
      invariant StrictEvents(start, plan.id, events) == StrictEvents(store.Snapshot(), plan.id, events[i..])
    {
      assert events[i..][1..] == events[i + 1..];
      var conflict := LinkEvent(store, plan.id, events[i]);
      if conflict.Some? {
        return Rejected(conflict.value);
      }
    }
    return PlanCreated(plan.id);
  }

  // ---------------------------------------------------------------------
  // Links are created, never looked up
  // ---------------------------------------------------------------------

  /** Two plans that declare the same event with the same property each
      create an event-property link, so the store ends up with two links for
      one (event, property) pair. */
  lemma SharedEventDuplicatesLink(db: Db)
    requires db.plans.rows == [] && db.events.rows == [] && db.properties.rows == []
    requires db.eventProperties.rows == []
    ensures var e := EventDef("Signup", "track", "a signup", false, [PropertyDef("plan", "string", "chosen plan", true)]);
      var d1 := CreatePlan(db, "A", "", [e]).0;
      var d2 := CreatePlan(d1, "B", "", [e]).0;
      && |d2.eventProperties.rows| == 2
      && d2.eventProperties.rows[0].key == d2.eventProperties.rows[1].key
      && !UniqueKeys(d2.eventProperties)
  {
    var e := EventDef("Signup", "track", "a signup", false, [PropertyDef("plan", "string", "chosen plan", true)]);
    var p := e.properties[0];
    // plan A: event and property created, one link
    var a0 := db.(plans := Insert(db.plans, "A", (), ""));
    var eid, pid := db.events.nextId, db.properties.nextId;
    var a1 := a0.(events := Insert(a0.events, EventKey(e), (), e.description),
                  planEvents := Insert(a0.planEvents, PlanEventKey(db.plans.nextId, eid), (), false));
    var a2 := a1.(properties := Insert(a1.properties, PropertyKey(p), None, p.description),
                  eventProperties := Insert(a1.eventProperties, EventPropertyKey(eid, pid), (), true));
    assert StrictProps(a2, eid, []) == Done(a2);
    assert e.properties[1..] == [];
    assert StrictProps(a1, eid, e.properties) == Done(a2);
    assert StrictEvent(a0, db.plans.nextId, e) == Done(a2);
    assert [e][1..] == [];
    assert StrictEvents(a0, db.plans.nextId, [e]) == Done(a2);
    var d1 := CreatePlan(db, "A", "", [e]).0;
    assert d1 == a2;
    // plan B: event and property found with the same description, a second link
    assert IndexOf(a2.plans.rows, "B") == None by {
      assert a2.plans.rows == [Row(db.plans.nextId, "A", (), "")];
    }
    assert IndexOf(a2.events.rows, EventKey(e)) == Some(0);
    assert IndexOf(a2.properties.rows, PropertyKey(p)) == Some(0);
    var b0 := a2.(plans := Insert(a2.plans, "B", (), ""));
    var b1 := b0.(planEvents := Insert(b0.planEvents, PlanEventKey(a2.plans.nextId, eid), (), false));
    var b2 := b1.(eventProperties := Insert(b1.eventProperties, EventPropertyKey(eid, pid), (), true));
    assert StrictProps(b2, eid, []) == Done(b2);
    assert StrictProps(b1, eid, e.properties) == Done(b2);
    assert StrictEvent(b0, a2.plans.nextId, e) == Done(b2);
    assert StrictEvents(b0, a2.plans.nextId, [e]) == Done(b2);
    var d2 := CreatePlan(d1, "B", "", [e]).0;
    assert d2 == b2;
  }
}
