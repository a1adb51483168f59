/**
 * The schema reconciler `upsertEventsAndProperties`: for every event
 * definition of a batch, in order, find-or-create the Event by (name, type)
 * and overwrite its description, find-or-create the plan's link to it and
 * overwrite `additionalProperties`; then, for each of the event's property
 * definitions in order, do the same for the Property and for the
 * event-property link with its `required` flag.
 */
module Reconciler {
  import opened Wrappers
  import opened JsValues
  import opened Tables
  import opened EntityStore

  /** A property definition of the batch. */
  datatype PropertyDef = PropertyDef(name: string, kind: string, description: string, required: bool)

  /** An event definition of the batch. */
  datatype EventDef = EventDef(
    name: string, kind: string, description: string,
    additionalProperties: bool, properties: seq<PropertyDef>)

  function EventKey(e: EventDef): Identity {
    Identity(e.name, e.kind)
  }

  function PropertyKey(p: PropertyDef): Identity {
    Identity(p.name, p.kind)
  }

  /** The event upsert a definition asks for. */
  function EventWrite(e: EventDef): Write<Identity, (), string> {
    Write(EventKey(e), (), e.description)
  }

  /** The property upsert a definition asks for; a property the reconciler
      creates gets no validation rules. */
  function PropertyWrite(p: PropertyDef): Write<Identity, Option<Json>, string> {
    Write(PropertyKey(p), None, p.description)
  }

  // ---------------------------------------------------------------------
  // The reconciler, step by step, in the order of its loops
  // ---------------------------------------------------------------------

  /** One property definition under the event with id eventId: upsert the
      property, then the link from the event to the property found. */
  function PropertyStep(db: Db, eventId: nat, p: PropertyDef): Db {
    var props := Upsert(db.properties, PropertyWrite(p));
    var link := Write(EventPropertyKey(eventId, IdOf(props, PropertyKey(p))), (), p.required);
    db.(properties := props, eventProperties := Upsert(db.eventProperties, link))
  }

  /** The property loop of one event. */
  function ApplyProps(db: Db, eventId: nat, ps: seq<PropertyDef>): Db {
    if ps == [] then db else PropertyStep(ApplyProps(db, eventId, ps[..|ps| - 1]), eventId, ps[|ps| - 1])
  }

  /** Upsert the event, then the plan's link to the event found. */
  function EventStep(db: Db, planId: nat, e: EventDef): Db {
    var events := Upsert(db.events, EventWrite(e));
    var link := Write(PlanEventKey(planId, IdOf(events, EventKey(e))), (), e.additionalProperties);
    db.(events := events, planEvents := Upsert(db.planEvents, link))
  }

  /** One event definition with all of its properties. */
  function ApplyEvent(db: Db, planId: nat, e: EventDef): Db {
    var d := EventStep(db, planId, e);
    ApplyProps(d, IdOf(d.events, EventKey(e)), e.properties)
  }

  /** The whole batch, events in input order. */
  function ApplyBatch(db: Db, planId: nat, es: seq<EventDef>): Db {
    if es == [] then db else ApplyEvent(ApplyBatch(db, planId, es[..|es| - 1]), planId, es[|es| - 1])
  }

  // ---------------------------------------------------------------------
  // The same batch, table by table
  // ---------------------------------------------------------------------

  /** The event upserts of a batch, in order. */
  function EventWrites(es: seq<EventDef>): (ws: seq<Write<Identity, (), string>>)
    ensures |ws| == |es| && forall i :: 0 <= i < |es| ==> ws[i] == EventWrite(es[i])
  {
    seq(|es|, i requires 0 <= i < |es| => EventWrite(es[i]))
  }

  /** The property upserts of one event, in order. */
  function PropertyWrites(ps: seq<PropertyDef>): (ws: seq<Write<Identity, Option<Json>, string>>)
    ensures |ws| == |ps| && forall i :: 0 <= i < |ps| ==> ws[i] == PropertyWrite(ps[i])
  {
    seq(|ps|, i requires 0 <= i < |ps| => PropertyWrite(ps[i]))
  }

  /** The property upserts of a batch: event by event, each event's in order. */
  function AllPropertyWrites(es: seq<EventDef>): seq<Write<Identity, Option<Json>, string>> {
    if es == [] then [] else AllPropertyWrites(es[..|es| - 1]) + PropertyWrites(es[|es| - 1].properties)
  }

  ghost predicate EventsIn(events: EventTable, es: seq<EventDef>) {
    forall i :: 0 <= i < |es| ==> Has(events, EventKey(es[i]))
  }

  ghost predicate PropsIn(props: PropertyTable, ps: seq<PropertyDef>) {
    forall j :: 0 <= j < |ps| ==> Has(props, PropertyKey(ps[j]))
  }

  ghost predicate AllPropsIn(props: PropertyTable, es: seq<EventDef>) {
    forall i :: 0 <= i < |es| ==> PropsIn(props, es[i].properties)
  }

  /** The plan-link upserts of a batch, given the final event table. */
  function PlanEventWrites(events: EventTable, planId: nat, es: seq<EventDef>): (ws: seq<Write<PlanEventKey, (), bool>>)
    requires EventsIn(events, es)
    ensures |ws| == |es|
    ensures forall i :: 0 <= i < |es| ==>
      ws[i] == Write(PlanEventKey(planId, IdOf(events, EventKey(es[i]))), (), es[i].additionalProperties)
  {
    seq(|es|, i requires 0 <= i < |es| && EventsIn(events, es) =>
      Write(PlanEventKey(planId, IdOf(events, EventKey(es[i]))), (), es[i].additionalProperties))
  }

  /** The event-property link upserts of one event, given the final property table. */
  function LinkWrites(eventId: nat, props: PropertyTable, ps: seq<PropertyDef>): (ws: seq<Write<EventPropertyKey, (), bool>>)
    requires PropsIn(props, ps)
    ensures |ws| == |ps|
    ensures forall j :: 0 <= j < |ps| ==>
      ws[j] == Write(EventPropertyKey(eventId, IdOf(props, PropertyKey(ps[j]))), (), ps[j].required)
  {
    seq(|ps|, j requires 0 <= j < |ps| && PropsIn(props, ps) =>
      Write(EventPropertyKey(eventId, IdOf(props, PropertyKey(ps[j]))), (), ps[j].required))
  }

  /** The event-property link upserts of a batch. */
  function AllLinkWrites(events: EventTable, props: PropertyTable, es: seq<EventDef>): seq<Write<EventPropertyKey, (), bool>>
    requires EventsIn(events, es) && AllPropsIn(props, es)
  {
    if es == [] then []
    else
      var e := es[|es| - 1];
      AllLinkWrites(events, props, es[..|es| - 1]) + LinkWrites(IdOf(events, EventKey(e)), props, e.properties)
  }

  /** Every event of a batch is stored once the batch's event upserts ran. */
  lemma EventsCovered(t: EventTable, es: seq<EventDef>)
    ensures EventsIn(UpsertAll(t, EventWrites(es)), es)
  {
    forall i | 0 <= i < |es| ensures Has(UpsertAll(t, EventWrites(es)), EventKey(es[i])) {
      LastWriteWins(t, EventWrites(es), EventWrites(es)[i].key);
    }
  }

  /** A property upsert of one event is among the batch's property upserts. */
  lemma {:induction false} PropertyWritten(es: seq<EventDef>, i: nat, j: nat)
    requires i < |es| && j < |es[i].properties|
    ensures Writes(AllPropertyWrites(es), PropertyKey(es[i].properties[j]))
  {
    var init, e := es[..|es| - 1], es[|es| - 1];
    var ws := AllPropertyWrites(es);
    assert ws == AllPropertyWrites(init) + PropertyWrites(e.properties);
    if i < |es| - 1 {
      assert init[i] == es[i];
      PropertyWritten(init, i, j);
      var m :| 0 <= m < |AllPropertyWrites(init)| && AllPropertyWrites(init)[m].key == PropertyKey(es[i].properties[j]);
      assert ws[m] == AllPropertyWrites(init)[m];
    } else {
      var m := |AllPropertyWrites(init)| + j;
      assert ws[m] == PropertyWrites(e.properties)[j];
    }
  }

  /** Every property of a batch is stored once the batch's property upserts ran. */
  lemma PropertiesCovered(t: PropertyTable, es: seq<EventDef>)
    ensures AllPropsIn(UpsertAll(t, AllPropertyWrites(es)), es)
  {
    forall i, j | 0 <= i < |es| && 0 <= j < |es[i].properties|
      ensures Has(UpsertAll(t, AllPropertyWrites(es)), PropertyKey(es[i].properties[j]))
    {
      PropertyWritten(es, i, j);
      LastWriteWins(t, AllPropertyWrites(es), PropertyKey(es[i].properties[j]));
    }
  }

  /** The batch, table by table: every table is its old contents with the
      batch's upserts for that table applied in order; the links are written
      under the ids the final event and property tables give. */
  function Reconciled(db: Db, planId: nat, es: seq<EventDef>): Db {
    var events := UpsertAll(db.events, EventWrites(es));
    var props := UpsertAll(db.properties, AllPropertyWrites(es));
    EventsCovered(db.events, es);
    PropertiesCovered(db.properties, es);
    Db(events, props, db.plans,
       UpsertAll(db.planEvents, PlanEventWrites(events, planId, es)),
       UpsertAll(db.eventProperties, AllLinkWrites(events, props, es)))
  }

  // ---------------------------------------------------------------------
  // From the loops to the tables
  // ---------------------------------------------------------------------

  lemma EventsInExtends(t1: EventTable, t2: EventTable, es: seq<EventDef>)
    requires Extends(t1, t2) && EventsIn(t1, es)
    ensures EventsIn(t2, es)
    ensures forall i :: 0 <= i < |es| ==> IdOf(t2, EventKey(es[i])) == IdOf(t1, EventKey(es[i]))
  {
    forall i | 0 <= i < |es|
      ensures Has(t2, EventKey(es[i])) && IdOf(t2, EventKey(es[i])) == IdOf(t1, EventKey(es[i]))
    {
      IndexStable(t1, t2, EventKey(es[i]));
    }
  }

  lemma PropsInExtends(t1: PropertyTable, t2: PropertyTable, ps: seq<PropertyDef>)
    requires Extends(t1, t2) && PropsIn(t1, ps)
    ensures PropsIn(t2, ps)
    ensures forall j :: 0 <= j < |ps| ==> IdOf(t2, PropertyKey(ps[j])) == IdOf(t1, PropertyKey(ps[j]))
  {
    forall j | 0 <= j < |ps|
      ensures Has(t2, PropertyKey(ps[j])) && IdOf(t2, PropertyKey(ps[j])) == IdOf(t1, PropertyKey(ps[j]))
    {
      IndexStable(t1, t2, PropertyKey(ps[j]));
    }
  }

  /** Link writes computed against an earlier table are the same as against
      a later one: ids never move. */
  lemma {:induction false} AllLinkWritesStable(e1: EventTable, e2: EventTable, p1: PropertyTable, p2: PropertyTable, es: seq<EventDef>)
    requires Extends(e1, e2) && Extends(p1, p2) && EventsIn(e1, es) && AllPropsIn(p1, es)
    ensures EventsIn(e2, es) && AllPropsIn(p2, es)
    ensures AllLinkWrites(e1, p1, es) == AllLinkWrites(e2, p2, es)
  {
    EventsInExtends(e1, e2, es);
    forall i | 0 <= i < |es| ensures PropsIn(p2, es[i].properties) {
      PropsInExtends(p1, p2, es[i].properties);
    }
    if es != [] {
      var init, e := es[..|es| - 1], es[|es| - 1];
      AllLinkWritesStable(e1, e2, p1, p2, init);
      PropsInExtends(p1, p2, e.properties);
      assert LinkWrites(IdOf(e1, EventKey(e)), p1, e.properties) == LinkWrites(IdOf(e2, EventKey(e)), p2, e.properties);
    }
  }

  /** Every property of one event is stored once its upserts ran. */
  lemma PropsCovered(t: PropertyTable, ps: seq<PropertyDef>)
    ensures PropsIn(UpsertAll(t, PropertyWrites(ps)), ps)
  {
    forall j | 0 <= j < |ps| ensures Has(UpsertAll(t, PropertyWrites(ps)), PropertyKey(ps[j])) {
      LastWriteWins(t, PropertyWrites(ps), PropertyWrites(ps)[j].key);
    }
  }

  /** The property loop of one event after one more definition. */
  lemma ApplyPropsSnoc(db: Db, eventId: nat, ps: seq<PropertyDef>, j: nat)
    requires j < |ps|
    ensures ApplyProps(db, eventId, ps[..j + 1]) == PropertyStep(ApplyProps(db, eventId, ps[..j]), eventId, ps[j])
  {
    assert ps[..j + 1][..j] == ps[..j];
  }

  /** One more property definition: one more property upsert, and one more
      link upsert, the earlier ones unchanged against the later table. */
  lemma PropsSnoc(t: PropertyTable, eventId: nat, ps: seq<PropertyDef>)
    requires ps != []
    ensures var init, p := ps[..|ps| - 1], ps[|ps| - 1];
      var mid := UpsertAll(t, PropertyWrites(init));
      var props := UpsertAll(t, PropertyWrites(ps));
      && props == Upsert(mid, PropertyWrite(p))
      && PropsIn(mid, init) && PropsIn(props, ps)
      && LinkWrites(eventId, props, ps)
         == LinkWrites(eventId, mid, init) + [Write(EventPropertyKey(eventId, IdOf(props, PropertyKey(p))), (), p.required)]
  {
    var init, p := ps[..|ps| - 1], ps[|ps| - 1];
    var mid := UpsertAll(t, PropertyWrites(init));
    var props := UpsertAll(t, PropertyWrites(ps));
    assert PropertyWrites(ps)[..|ps| - 1] == PropertyWrites(init);
    assert props == Upsert(mid, PropertyWrite(p));
    PropsCovered(t, init);
    PropsCovered(t, ps);
    UpsertShape(mid, PropertyWrite(p));
    LinkWritesSnoc(mid, props, eventId, ps);
  }

  /** The links of all but the last property, against the table before its
      upsert, followed by the last property's link. */
  lemma LinkWritesSnoc(mid: PropertyTable, props: PropertyTable, eventId: nat, ps: seq<PropertyDef>)
    requires ps != [] && Extends(mid, props) && PropsIn(mid, ps[..|ps| - 1]) && PropsIn(props, ps)
    ensures LinkWrites(eventId, props, ps)
         == LinkWrites(eventId, mid, ps[..|ps| - 1])
            + [Write(EventPropertyKey(eventId, IdOf(props, PropertyKey(ps[|ps| - 1]))), (), ps[|ps| - 1].required)]
  {
    var init := ps[..|ps| - 1];
    PropsInExtends(mid, props, init);
    assert LinkWrites(eventId, props, ps)[..|ps| - 1] == LinkWrites(eventId, mid, init);
  }

  /** The property loop of one event, table by table. */
  lemma {:induction false} PropsDecompose(db: Db, eventId: nat, ps: seq<PropertyDef>)
    ensures PropsIn(UpsertAll(db.properties, PropertyWrites(ps)), ps)
    ensures ApplyProps(db, eventId, ps) ==
      var props := UpsertAll(db.properties, PropertyWrites(ps));
      db.(properties := props,
          eventProperties := UpsertAll(db.eventProperties, LinkWrites(eventId, props, ps)))
  {
    PropsCovered(db.properties, ps);
    if ps != [] {
      var init, p := ps[..|ps| - 1], ps[|ps| - 1];
      PropsDecompose(db, eventId, init);
      PropsSnoc(db.properties, eventId, ps);
      var mid := UpsertAll(db.properties, PropertyWrites(init));
      var links := UpsertAll(db.eventProperties, LinkWrites(eventId, mid, init));
      assert ApplyProps(db, eventId, ps) == PropertyStep(db.(properties := mid, eventProperties := links), eventId, p);
    }
  }

  /** The event table after a batch is the table after all but its last
      event, with the last event upserted. */
  lemma EventTableSnoc(t: EventTable, es: seq<EventDef>)
    requires es != []
    ensures UpsertAll(t, EventWrites(es)) == Upsert(UpsertAll(t, EventWrites(es[..|es| - 1])), EventWrite(es[|es| - 1]))
  {
    assert EventWrites(es)[..|es| - 1] == EventWrites(es[..|es| - 1]);
  }

  /** The plan-link upserts of a batch are those of all but its last event,
      computed against the earlier table, then the last event's. */
  lemma PlanEventWritesSnoc(e0: EventTable, ev: EventTable, planId: nat, es: seq<EventDef>)
    requires es != [] && Extends(e0, ev) && EventsIn(e0, es[..|es| - 1]) && EventsIn(ev, es)
    ensures PlanEventWrites(ev, planId, es)
         == PlanEventWrites(e0, planId, es[..|es| - 1])
            + [Write(PlanEventKey(planId, IdOf(ev, EventKey(es[|es| - 1]))), (), es[|es| - 1].additionalProperties)]
  {
    var init := es[..|es| - 1];
    EventsInExtends(e0, ev, init);
    assert PlanEventWrites(ev, planId, es)[..|es| - 1] == PlanEventWrites(e0, planId, init);
  }

  /** The property table after a batch is the table after all but its last
      event, with the last event's property upserts applied. */
  lemma PropertyTableSnoc(t: PropertyTable, es: seq<EventDef>)
    requires es != []
    ensures UpsertAll(t, AllPropertyWrites(es))
         == UpsertAll(UpsertAll(t, AllPropertyWrites(es[..|es| - 1])), PropertyWrites(es[|es| - 1].properties))
  {
    UpsertAllAppend(t, AllPropertyWrites(es[..|es| - 1]), PropertyWrites(es[|es| - 1].properties));
  }

  /** The reconciler's loops do, table by table, what Reconciled says. */
  lemma {:induction false} Decompose(db: Db, planId: nat, es: seq<EventDef>)
    ensures ApplyBatch(db, planId, es) == Reconciled(db, planId, es)
  {
    if es != [] {
      var init, e := es[..|es| - 1], es[|es| - 1];
      Decompose(db, planId, init);
      EventsCovered(db.events, init);
      PropertiesCovered(db.properties, init);
      EventsCovered(db.events, es);
      PropertiesCovered(db.properties, es);
      var e0 := UpsertAll(db.events, EventWrites(init));
      var p0 := UpsertAll(db.properties, AllPropertyWrites(init));
      var ev := UpsertAll(db.events, EventWrites(es));
      var pr := UpsertAll(db.properties, AllPropertyWrites(es));
      var r0 := ApplyBatch(db, planId, init);
      assert r0 == Db(e0, p0, db.plans,
        UpsertAll(db.planEvents, PlanEventWrites(e0, planId, init)),
        UpsertAll(db.eventProperties, AllLinkWrites(e0, p0, init)));
      // the event and its plan link
      EventTableSnoc(db.events, es);
      UpsertShape(e0, EventWrite(e));
      var eid := IdOf(ev, EventKey(e));
      PlanEventWritesSnoc(e0, ev, planId, es);
      var d := EventStep(r0, planId, e);
      assert d == r0.(events := ev,
        planEvents := UpsertAll(db.planEvents, PlanEventWrites(ev, planId, es)));
      // the event's properties and their links
      PropsDecompose(d, eid, e.properties);
      PropertyTableSnoc(db.properties, es);
      UpsertAllShape(p0, PropertyWrites(e.properties));
      AllLinkWritesStable(e0, ev, p0, pr, init);
      var lw := LinkWrites(eid, pr, e.properties);
      assert AllLinkWrites(ev, pr, es) == AllLinkWrites(e0, p0, init) + lw;
      UpsertAllAppend(db.eventProperties, AllLinkWrites(e0, p0, init), lw);
      assert ApplyBatch(db, planId, es) == ApplyProps(d, eid, e.properties);
    }
  }

  // ---------------------------------------------------------------------
  // What the reconciler guarantees
  // ---------------------------------------------------------------------

  /** Running the same batch twice for the same plan leaves the store as
      running it once: no duplicate entity or link, no changed value. */
  lemma BatchIdempotent(db: Db, planId: nat, es: seq<EventDef>)
    ensures ApplyBatch(ApplyBatch(db, planId, es), planId, es) == ApplyBatch(db, planId, es)
  {
    var once := ApplyBatch(db, planId, es);
    Decompose(db, planId, es);
    Decompose(once, planId, es);
    UpsertAllIdempotent(db.events, EventWrites(es));
    UpsertAllIdempotent(db.properties, AllPropertyWrites(es));
    EventsCovered(db.events, es);
    PropertiesCovered(db.properties, es);
    UpsertAllIdempotent(db.planEvents, PlanEventWrites(once.events, planId, es));
    UpsertAllIdempotent(db.eventProperties, AllLinkWrites(once.events, once.properties, es));
  }

  /** The last definition of an event identity decides the stored Event's
      description and the plan link's `additionalProperties`; there is then
      exactly one such Event and one such link. */
  lemma BatchLastEventWins(db: Db, planId: nat, es: seq<EventDef>, j: nat)
    requires ValidDb(db) && UniqueKeys(db.events) && UniqueKeys(db.planEvents)
    requires j < |es| && forall m :: j < m < |es| ==> EventKey(es[m]) != EventKey(es[j])
    ensures var r := ApplyBatch(db, planId, es);
      && ExactlyOne(r.events, EventKey(es[j]))
      && r.events.rows[IndexOf(r.events.rows, EventKey(es[j])).value].val == es[j].description
      && ExactlyOne(r.planEvents, PlanEventKey(planId, IdOf(r.events, EventKey(es[j]))))
      && r.planEvents.rows[IndexOf(r.planEvents.rows, PlanEventKey(planId, IdOf(r.events, EventKey(es[j])))).value].val
         == es[j].additionalProperties
  {
    Decompose(db, planId, es);
    EventsCovered(db.events, es);
    var events := UpsertAll(db.events, EventWrites(es));
    EventLastWins(db.events, es, j);
    PlanLinkLastWins(db.planEvents, events, planId, es, j);
  }

  /** The event upserts of a batch leave one event per identity, with the
      description of the identity's last definition. */
  lemma EventLastWins(t: EventTable, es: seq<EventDef>, j: nat)
    requires FreshIds(t) && UniqueKeys(t)
    requires j < |es| && forall m :: j < m < |es| ==> EventKey(es[m]) != EventKey(es[j])
    ensures var events := UpsertAll(t, EventWrites(es));
      && FreshIds(events) && UniqueKeys(events)
      && ExactlyOne(events, EventKey(es[j]))
      && events.rows[IndexOf(events.rows, EventKey(es[j])).value].val == es[j].description
  {
    var k := EventKey(es[j]);
    var ew := EventWrites(es);
    assert ew[j].key == k;
    LastWriteWins(t, ew, k);
    assert LastIndex(ew, k) == j;
    UpsertAllUnique(t, ew);
    UpsertAllFresh(t, ew);
    UniqueExactlyOne(UpsertAll(t, ew), k);
  }

  /** The plan-link upserts of a batch leave one link per event identity,
      with the flag of the identity's last definition. */
  lemma PlanLinkLastWins(t: PlanEventTable, events: EventTable, planId: nat, es: seq<EventDef>, j: nat)
    requires UniqueKeys(t) && FreshIds(events) && EventsIn(events, es)
    requires j < |es| && forall m :: j < m < |es| ==> EventKey(es[m]) != EventKey(es[j])
    ensures var link := PlanEventKey(planId, IdOf(events, EventKey(es[j])));
      var links := UpsertAll(t, PlanEventWrites(events, planId, es));
      && ExactlyOne(links, link)
      && links.rows[IndexOf(links.rows, link).value].val == es[j].additionalProperties
  {
    var k := EventKey(es[j]);
    var pw := PlanEventWrites(events, planId, es);
    var link := PlanEventKey(planId, IdOf(events, k));
    assert pw[j].key == link;
    forall m | j < m < |es| ensures pw[m].key != link {
      IdOfInjective(events, EventKey(es[m]), k);
    }
    LastWriteWins(t, pw, link);
    assert LastIndex(pw, link) == j;
    UpsertAllUnique(t, pw);
    UniqueExactlyOne(UpsertAll(t, pw), link);
  }

  /** Every property definition leaves exactly one Property of its identity,
      carrying the description of the batch's last write about it, and
      exactly one link from its event to it, carrying the `required` flag
      of the batch's last write about that link. */
  lemma BatchProperty(db: Db, planId: nat, es: seq<EventDef>, i: nat, j: nat)
    requires ValidDb(db) && UniqueKeys(db.properties) && UniqueKeys(db.eventProperties)
    requires i < |es| && j < |es[i].properties|
    ensures var r := ApplyBatch(db, planId, es);
      var k := PropertyKey(es[i].properties[j]);
      var ws := AllPropertyWrites(es);
      && Writes(ws, k)
      && ExactlyOne(r.properties, k)
      && r.properties.rows[IndexOf(r.properties.rows, k).value].val == ws[LastIndex(ws, k)].val
      && EventsIn(r.events, es) && AllPropsIn(r.properties, es)
      && var link := EventPropertyKey(IdOf(r.events, EventKey(es[i])), IdOf(r.properties, k));
         var lw := AllLinkWrites(r.events, r.properties, es);
         && Writes(lw, link)
         && ExactlyOne(r.eventProperties, link)
         && r.eventProperties.rows[IndexOf(r.eventProperties.rows, link).value].val == lw[LastIndex(lw, link)].val
  {
    var r := ApplyBatch(db, planId, es);
    Decompose(db, planId, es);
    var k := PropertyKey(es[i].properties[j]);
    var ws := AllPropertyWrites(es);
    PropertyWritten(es, i, j);
    LastWriteWins(db.properties, ws, k);
    UpsertAllUnique(db.properties, ws);
    EventsCovered(db.events, es);
    PropertiesCovered(db.properties, es);
    BatchLinkWritten(r.events, r.properties, es, i, j);
    var lw := AllLinkWrites(r.events, r.properties, es);
    var link := EventPropertyKey(IdOf(r.events, EventKey(es[i])), IdOf(r.properties, k));
    UpsertAllUnique(db.eventProperties, lw);
    LastWriteWins(db.eventProperties, lw, link);
    UniqueExactlyOne(r.properties, k);
    UniqueExactlyOne(r.eventProperties, link);
  }

  /** The link of a property definition is among the batch's link upserts. */
  lemma {:induction false} BatchLinkWritten(events: EventTable, props: PropertyTable, es: seq<EventDef>, i: nat, j: nat)
    requires EventsIn(events, es) && AllPropsIn(props, es)
    requires i < |es| && j < |es[i].properties|
    ensures Writes(AllLinkWrites(events, props, es),
      EventPropertyKey(IdOf(events, EventKey(es[i])), IdOf(props, PropertyKey(es[i].properties[j]))))
  {
    var init, e := es[..|es| - 1], es[|es| - 1];
    var key := EventPropertyKey(IdOf(events, EventKey(es[i])), IdOf(props, PropertyKey(es[i].properties[j])));
    var front := AllLinkWrites(events, props, init);
    var ws := AllLinkWrites(events, props, es);
    assert ws == front + LinkWrites(IdOf(events, EventKey(e)), props, e.properties);
    if i < |es| - 1 {
      assert init[i] == es[i];
      BatchLinkWritten(events, props, init, i, j);
      var m :| 0 <= m < |front| && front[m].key == key;
      assert ws[m] == front[m];
    } else {
      assert ws[|front| + j].key == key;
    }
  }

  /** Nothing is deleted and nothing outside the batch changes: the plans
      table is untouched; every record keeps its place, id and identity; an
      event or property the batch does not name is unchanged; another
      plan's links are unchanged. */
  lemma BatchFrame(db: Db, planId: nat, es: seq<EventDef>)
    ensures var r := ApplyBatch(db, planId, es);
      && r.plans == db.plans
      && Extends(db.events, r.events) && Extends(db.properties, r.properties)
      && Extends(db.planEvents, r.planEvents) && Extends(db.eventProperties, r.eventProperties)
      && (forall n :: 0 <= n < |db.events.rows| && (forall i :: 0 <= i < |es| ==> EventKey(es[i]) != db.events.rows[n].key)
            ==> r.events.rows[n] == db.events.rows[n])
      && (forall n :: 0 <= n < |db.planEvents.rows| && db.planEvents.rows[n].key.planId != planId
            ==> r.planEvents.rows[n] == db.planEvents.rows[n])
      && (forall n :: |db.planEvents.rows| <= n < |r.planEvents.rows| ==> r.planEvents.rows[n].key.planId == planId)
      && (forall n :: 0 <= n < |db.properties.rows| && !Named(es, db.properties.rows[n].key)
            ==> r.properties.rows[n] == db.properties.rows[n])
      && EventsIn(r.events, es) && AllPropsIn(r.properties, es)
      && (forall n :: 0 <= n < |db.planEvents.rows|
            && (forall i :: 0 <= i < |es| ==> db.planEvents.rows[n].key != PlanEventKey(planId, IdOf(r.events, EventKey(es[i]))))
            ==> r.planEvents.rows[n] == db.planEvents.rows[n])
      && (forall n :: 0 <= n < |db.eventProperties.rows| && !Linked(r.events, r.properties, es, db.eventProperties.rows[n].key)
            ==> r.eventProperties.rows[n] == db.eventProperties.rows[n])
  {
    var r := ApplyBatch(db, planId, es);
    Decompose(db, planId, es);
    EventsCovered(db.events, es);
    PropertiesCovered(db.properties, es);
    var events := UpsertAll(db.events, EventWrites(es));
    var props := UpsertAll(db.properties, AllPropertyWrites(es));
    assert r.events == events && r.properties == props;
    EventsFrame(db.events, es);
    PlanLinksFrame(db.planEvents, events, planId, es);
    PropertiesFrame(db.properties, es);
    LinksFrame(db.eventProperties, events, props, es);
  }

  /** Some property definition of the batch has identity k. */
  ghost predicate Named(es: seq<EventDef>, k: Identity) {
    exists i, j :: 0 <= i < |es| && 0 <= j < |es[i].properties| && PropertyKey(es[i].properties[j]) == k
  }

  /** k links an event of the batch to one of that event's properties, under
      the ids the given tables assign. */
  ghost predicate Linked(events: EventTable, props: PropertyTable, es: seq<EventDef>, k: EventPropertyKey)
    requires EventsIn(events, es) && AllPropsIn(props, es)
  {
    exists i, j :: 0 <= i < |es| && 0 <= j < |es[i].properties|
      && k == EventPropertyKey(IdOf(events, EventKey(es[i])), IdOf(props, PropertyKey(es[i].properties[j])))
  }

  /** Only properties the batch defines are written. */
  lemma {:induction false} PropertyWriteNamed(es: seq<EventDef>, k: Identity)
    requires Writes(AllPropertyWrites(es), k)
    ensures Named(es, k)
  {
    var init, e := es[..|es| - 1], es[|es| - 1];
    var front := AllPropertyWrites(init);
    var ws := AllPropertyWrites(es);
    assert ws == front + PropertyWrites(e.properties);
    var m :| 0 <= m < |ws| && ws[m].key == k;
    if m < |front| {
      assert front[m].key == k;
      PropertyWriteNamed(init, k);
      var i, j :| 0 <= i < |init| && 0 <= j < |init[i].properties| && PropertyKey(init[i].properties[j]) == k;
      assert es[i] == init[i];
    } else {
      assert PropertyKey(es[|es| - 1].properties[m - |front|]) == k;
    }
  }

  /** Only links the batch defines are written. */
  lemma {:induction false} LinkWriteLinked(events: EventTable, props: PropertyTable, es: seq<EventDef>, k: EventPropertyKey)
    requires EventsIn(events, es) && AllPropsIn(props, es)
    requires Writes(AllLinkWrites(events, props, es), k)
    ensures Linked(events, props, es, k)
  {
    var init, e := es[..|es| - 1], es[|es| - 1];
    var front := AllLinkWrites(events, props, init);
    var ws := AllLinkWrites(events, props, es);
    assert ws == front + LinkWrites(IdOf(events, EventKey(e)), props, e.properties);
    var m :| 0 <= m < |ws| && ws[m].key == k;
    if m < |front| {
      assert front[m].key == k;
      LinkWriteLinked(events, props, init, k);
      var i, j :| 0 <= i < |init| && 0 <= j < |init[i].properties|
        && k == EventPropertyKey(IdOf(events, EventKey(init[i])), IdOf(props, PropertyKey(init[i].properties[j])));
      assert es[i] == init[i];
    } else {
      var j := m - |front|;
      assert k == EventPropertyKey(IdOf(events, EventKey(es[|es| - 1])), IdOf(props, PropertyKey(es[|es| - 1].properties[j])));
    }
  }

  /** The property upserts of a batch keep every property it does not name. */
  lemma PropertiesFrame(t: PropertyTable, es: seq<EventDef>)
    ensures var r := UpsertAll(t, AllPropertyWrites(es));
      && Extends(t, r)
      && forall n :: 0 <= n < |t.rows| && !Named(es, t.rows[n].key) ==> r.rows[n] == t.rows[n]
  {
    var pw := AllPropertyWrites(es);
    UpsertAllShape(t, pw);
    forall n | 0 <= n < |t.rows| && !Named(es, t.rows[n].key)
      ensures !Writes(pw, t.rows[n].key)
    {
      if Writes(pw, t.rows[n].key) {
        PropertyWriteNamed(es, t.rows[n].key);
      }
    }
  }

  /** The link upserts of a batch keep every link it does not define. */
  lemma LinksFrame(t: EventPropertyTable, events: EventTable, props: PropertyTable, es: seq<EventDef>)
    requires EventsIn(events, es) && AllPropsIn(props, es)
    ensures var r := UpsertAll(t, AllLinkWrites(events, props, es));
      && Extends(t, r)
      && forall n :: 0 <= n < |t.rows| && !Linked(events, props, es, t.rows[n].key) ==> r.rows[n] == t.rows[n]
  {
    var lw := AllLinkWrites(events, props, es);
    UpsertAllShape(t, lw);
    forall n | 0 <= n < |t.rows| && !Linked(events, props, es, t.rows[n].key)
      ensures !Writes(lw, t.rows[n].key)
    {
      if Writes(lw, t.rows[n].key) {
        LinkWriteLinked(events, props, es, t.rows[n].key);
      }
    }
  }

  /** The event upserts of a batch keep every event it does not name. */
  lemma EventsFrame(t: EventTable, es: seq<EventDef>)
    ensures var r := UpsertAll(t, EventWrites(es));
      && Extends(t, r)
      && forall n :: 0 <= n < |t.rows| && (forall i :: 0 <= i < |es| ==> EventKey(es[i]) != t.rows[n].key)
           ==> r.rows[n] == t.rows[n]
  {
    var ew := EventWrites(es);
    UpsertAllShape(t, ew);
    forall n | 0 <= n < |t.rows| && (forall i :: 0 <= i < |es| ==> EventKey(es[i]) != t.rows[n].key)
      ensures !Writes(ew, t.rows[n].key)
    {
    }
  }

  /** The plan-link upserts of a batch keep other plans' links and this
      plan's links to events outside the batch, and every link they add
      belongs to the plan. */
  lemma PlanLinksFrame(t: PlanEventTable, events: EventTable, planId: nat, es: seq<EventDef>)
    requires EventsIn(events, es)
    ensures var r := UpsertAll(t, PlanEventWrites(events, planId, es));
      && Extends(t, r)
      && (forall n :: 0 <= n < |t.rows| && t.rows[n].key.planId != planId ==> r.rows[n] == t.rows[n])
      && (forall n :: |t.rows| <= n < |r.rows| ==> r.rows[n].key.planId == planId)
      && (forall n :: 0 <= n < |t.rows|
            && (forall i :: 0 <= i < |es| ==> t.rows[n].key != PlanEventKey(planId, IdOf(events, EventKey(es[i]))))
            ==> r.rows[n] == t.rows[n])
  {
    var pw := PlanEventWrites(events, planId, es);
    var r := UpsertAll(t, pw);
    UpsertAllShape(t, pw);
    forall n | 0 <= n < |t.rows|
        && (forall i :: 0 <= i < |es| ==> t.rows[n].key != PlanEventKey(planId, IdOf(events, EventKey(es[i]))))
      ensures !Writes(pw, t.rows[n].key)
    {
    }
    forall n | 0 <= n < |t.rows| && t.rows[n].key.planId != planId
      ensures !Writes(pw, t.rows[n].key)
    {
    }
    forall n | |t.rows| <= n < |r.rows|
      ensures r.rows[n].key.planId == planId
    {
      var m :| 0 <= m < |pw| && pw[m].key == r.rows[n].key;
    }
  }

  /** The batch keeps ids fresh and identities unique. */
  lemma BatchKeepsInvariants(db: Db, planId: nat, es: seq<EventDef>)
    requires ValidDb(db)
    ensures ValidDb(ApplyBatch(db, planId, es))
    ensures UniqueKeys(db.events) ==> UniqueKeys(ApplyBatch(db, planId, es).events)
    ensures UniqueKeys(db.properties) ==> UniqueKeys(ApplyBatch(db, planId, es).properties)
    ensures UniqueKeys(db.planEvents) ==> UniqueKeys(ApplyBatch(db, planId, es).planEvents)
    ensures UniqueKeys(db.eventProperties) ==> UniqueKeys(ApplyBatch(db, planId, es).eventProperties)
  {
    var r := ApplyBatch(db, planId, es);
    Decompose(db, planId, es);
    EventsCovered(db.events, es);
    PropertiesCovered(db.properties, es);
    var pw := PlanEventWrites(r.events, planId, es);
    var lw := AllLinkWrites(r.events, r.properties, es);
    UpsertAllFresh(db.events, EventWrites(es));
    UpsertAllFresh(db.properties, AllPropertyWrites(es));
    UpsertAllFresh(db.planEvents, pw);
    UpsertAllFresh(db.eventProperties, lw);
    if UniqueKeys(db.events) { UpsertAllUnique(db.events, EventWrites(es)); }
    if UniqueKeys(db.properties) { UpsertAllUnique(db.properties, AllPropertyWrites(es)); }
    if UniqueKeys(db.planEvents) { UpsertAllUnique(db.planEvents, pw); }
    if UniqueKeys(db.eventProperties) { UpsertAllUnique(db.eventProperties, lw); }
  }

  // ---------------------------------------------------------------------
  // The service function over the store
  // ---------------------------------------------------------------------

  /** Step 1 and 2 of one event definition: find-or-create the event,
      update its description only when it differs, then find-or-create the
      plan's link and set its flag. */
  method UpsertEvent(store: Store, planId: nat, e: EventDef) returns (eventId: nat)
    requires store.Valid()
    modifies store
    ensures store.Valid()
    ensures store.Snapshot() == EventStep(old(store.Snapshot()), planId, e)
    ensures eventId == IdOf(store.events, EventKey(e))
  {
    ghost var db := store.Snapshot();
    var w := EventWrite(e);
    UpsertId(db.events, w);
    var existing := store.FindEvent(EventKey(e));
    if existing.Some? {
      eventId := existing.value.id;
      if existing.value.val != e.description {
        SetByIdIsUpsert(db.events, w);
        store.UpdateEvent(eventId, e.description);
      } else {
        UpsertSame(db.events, w);
      }
    } else {
      var row := store.CreateEvent(EventKey(e), e.description);
      eventId := row.id;
    }
    assert store.events == Upsert(db.events, w);
    ghost var mid := store.Snapshot();
    var link := Write(PlanEventKey(planId, eventId), (), e.additionalProperties);
    var existingLink := store.FindPlanEvent(link.key);
    if existingLink.Some? {
      SetByIdIsUpsert(mid.planEvents, link);
      store.UpdatePlanEvent(existingLink.value.id, e.additionalProperties);
    } else {
      var _ := store.CreatePlanEvent(link.key, e.additionalProperties);
    }
    assert store.planEvents == Upsert(db.planEvents, link);
  }

  /** Steps 3 and 4 for one property definition of the event eventId. */
  method UpsertProperty(store: Store, eventId: nat, p: PropertyDef)
    requires store.Valid()
    modifies store
    ensures store.Valid()
    ensures store.Snapshot() == PropertyStep(old(store.Snapshot()), eventId, p)
  {
    ghost var db := store.Snapshot();
    var w := PropertyWrite(p);
    UpsertId(db.properties, w);
    var propertyId: nat;
    var existing := store.FindProperty(PropertyKey(p));
    if existing.Some? {
      propertyId := existing.value.id;
      if existing.value.val != p.description {
        SetByIdIsUpsert(db.properties, w);
        store.UpdateProperty(propertyId, p.description);
      } else {
        UpsertSame(db.properties, w);
      }
    } else {
      var row := store.CreateProperty(PropertyKey(p), None, p.description);
      propertyId := row.id;
    }
    assert store.properties == Upsert(db.properties, w);
    ghost var mid := store.Snapshot();
    var link := Write(EventPropertyKey(eventId, propertyId), (), p.required);
    var existingLink := store.FindEventProperty(link.key);
    if existingLink.Some? {
      SetByIdIsUpsert(mid.eventProperties, link);
      store.UpdateEventProperty(existingLink.value.id, p.required);
    } else {
      var _ := store.CreateEventProperty(link.key, p.required);
    }
    assert store.eventProperties == Upsert(db.eventProperties, link);
  }

  /** One iteration of the outer loop: the event, its plan link, and the
      inner loop over its properties. */
  method UpsertEventDefinition(store: Store, planId: nat, e: EventDef)
    requires store.Valid()
    modifies store
    ensures store.Valid()
    ensures store.Snapshot() == ApplyEvent(old(store.Snapshot()), planId, e)
  {
    ghost var db := store.Snapshot();
    var eventId := UpsertEvent(store, planId, e);
    ghost var start := store.Snapshot();
    assert ApplyEvent(db, planId, e) == ApplyProps(start, eventId, e.properties);
    for j := 0 to |e.properties|
      invariant store.Valid()
      invariant store.Snapshot() == ApplyProps(start, eventId, e.properties[..j])
    {
      ApplyPropsSnoc(start, eventId, e.properties, j);
      UpsertProperty(store, eventId, e.properties[j]);
    }
    assert e.properties[..|e.properties|] == e.properties;
  }

  /** `upsertEventsAndProperties({ trackingPlanId, events })`. */
  method UpsertEventsAndProperties(store: Store, planId: nat, events: seq<EventDef>)
    requires store.Valid()
    modifies store
    ensures store.Valid()
    ensures store.Snapshot() == ApplyBatch(old(store.Snapshot()), planId, events)
  {
    for i := 0 to |events|
      invariant store.Valid()
      invariant store.Snapshot() == ApplyBatch(old(store.Snapshot()), planId, events[..i])
    {
      assert events[..i + 1][..i] == events[..i];
      UpsertEventDefinition(store, planId, events[i]);
    }
    assert events[..|events|] == events;
  }
}
