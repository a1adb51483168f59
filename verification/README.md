# Data catalog: validator, reconciler and entity endpoints in Dafny

The data catalog records named **events** and their typed **properties**. It
groups events into named **tracking plans** and checks incoming JSON
payloads against the schema a plan declares. This project models the
catalog's core and proves properties of that model:

* **The payload validator** (`validateEventPayload` and its `typeCheckMap`).
  A request names a plan, an event and a payload. The handler finds the
  first event of the plan with that name. For every declared property it
  reports a missing required key or a type mismatch. Otherwise it applies
  the `validationRules`: `min`/`max` for numbers, `maxLength`/`pattern` for
  strings, and `enum` for any type. When the plan forbids additional
  properties, one last error lists the payload keys nobody declared. The
  model keeps the JavaScript semantics the handler relies on. Truthiness
  decides which rules apply. `null` is compared as 0 and `undefined` as
  NaN. A string's length counts UTF-16 code units. Some property accesses
  throw, and the handler answers a throw with a server error: `.length` of
  an absent value, a truthy `enum` that is neither an array nor a string,
  a string `enum` that does not contain the value (it has no `join`), and
  a declared type whose `typeCheckMap` entry is missing or throws. The
  map is a plain object, so a type named like an inherited
  Object.prototype member (`toString`, `hasOwnProperty`, ...) calls that
  member.
* **The schema reconciler** (`upsertEventsAndProperties`). For each event
  definition of a batch, in order, it finds or creates the Event by
  (name, type) and overwrites its description. It then finds or creates the
  plan's link to that event and overwrites `additionalProperties`. For each
  of the event's properties it does the same for the Property and for the
  event-property link, with its `required` flag.
* **Strict plan creation** (`createTrackingPlan`). It rejects a duplicate
  plan name and then creates the plan. It reuses an existing event or
  property only when the description is the same, and otherwise stops with
  a conflict. It always creates new links, and nothing is rolled back.
* **`createEvent` and `createProperty`.** Each checks the type against a
  fixed list, then reuses, rejects (different description) or creates.
  `createProperty` also checks that new validation rules are an object.

The persistence layer is the `EntityStore.Store` class. It has five tables:
events, properties, plans, plan-event links and event-property links. Each
table is a sequence of records with a fresh-id counter. Its methods are the
`findFirst`/`findUnique`/`create`/`update` calls the core makes.
`Store.Snapshot()` gives the whole store as a `Db` value. Every handler is a
method over the store, and it is proved to leave exactly the `Db` that a pure
function of the old snapshot describes:

* `ApplyBatch` for the reconciler;
* `CreatePlan` for strict creation;
* `CreateEventResult` and `CreatePropertyResult` for the two controllers.

The guarantees are proved about those functions.

Modules:

* `Wrappers`: `Option`.
* `Tables`: a generic keyed table with upsert. It carries the theory that
  the reconciler's guarantees come from: last write wins, idempotence,
  frame, fresh ids and unique keys.
* `JsValues`: JSON values and the JavaScript operations the handlers use.
* `PayloadValidator` and `ValidatorProperties`: the validator and what it
  promises.
* `EntityStore`: the store.
* `Reconciler`: the reconciler, and its table-by-table decomposition
  `Reconciled`.
* `PlanCreation`: strict plan creation.
* `EventController` and `PropertyController`: the two create endpoints.

Some behaviours of the code are easy to expect otherwise; the model follows
the code:

* The reconciler and `createTrackingPlan` do not check event or property
  types. Any type string is stored.
* A `null` value skips the missing-key and type checks but not the rules.
  It is compared as 0 against `min`/`max` (`ValidatorProperties.NullComparedAsZero`)
  and checked against `enum`.
* An absent optional property is still checked against its rules. With an
  `enum` it is reported as not among the options
  (`ValidatorProperties.AbsentOptionalFailsEnum`). With a `maxLength` the
  handler throws (`ValidatorProperties.AbsentOptionalMaxLengthThrows`).
* `createTrackingPlan` creates links without looking for existing ones.
  Two plans that share an event and property leave two links for one
  (event, property) pair (`PlanCreation.SharedEventDuplicatesLink`).
  Uniqueness of links is therefore a store constraint and not something the
  core guarantees.

## Model

| member | source | states |
|---|---|---|
| PayloadValidator.TypeCheck | src/controllers/trackingPlan.controller.ts:6-10 | a result exists exactly for the three declared types and the inherited Object.prototype functions that return; for a declared type it is true exactly when the value's runtime kind is that type; `constructor`, `toString`, `toLocaleString` and `valueOf` always pass, `isPrototypeOf` never does, and `hasOwnProperty` passes exactly a value whose string form is a declared type |
| JsValues.Utf16Length | src/controllers/trackingPlan.controller.ts:196 | the length lies between the number of characters and twice it, and equals it exactly when no character lies outside the Basic Multilingual Plane |
| PayloadValidator.FindEvent | src/controllers/trackingPlan.controller.ts:154-160 | the index found holds an event of that name and every earlier event has another name; no index means no event of the plan has the name |
| PayloadValidator.CheckDeclared | src/controllers/trackingPlan.controller.ts:166-208 | the loop over the declared properties collects exactly the per-property errors in declaration order, or reports the throw of the first property whose check throws |
| PayloadValidator.FilterUnknown | src/controllers/trackingPlan.controller.ts:211-213 | the loop keeps exactly the payload keys that are not declared names, in payload order |
| PayloadValidator.CheckObject | src/controllers/trackingPlan.controller.ts:165-217 | the declared-property errors followed by the unexpected-keys error, if extra keys are forbidden and any exist |
| PayloadValidator.ValidateEventPayload | src/controllers/trackingPlan.controller.ts:122-228 | the reply is 400 for a missing name or non-object payload, 404 for a missing plan or event, 400 with every error message, 200 when none, and 500 on a throw |
| PayloadValidator.DeclaredViolationsSplit | src/controllers/trackingPlan.controller.ts:168-208 | checking a list of properties is checking a prefix and then the rest, errors concatenated and a throw propagating |
| ValidatorProperties.MissingRequiredOnly | src/controllers/trackingPlan.controller.ts:172-175 | a required absent key gives exactly the missing-property message and nothing else for that property |
| ValidatorProperties.TypeMismatchOnly | src/controllers/trackingPlan.controller.ts:177-180 | a non-null value of the wrong kind gives exactly one type error and skips the rules |
| ValidatorProperties.NullIsNeitherMissingNorMistyped | src/controllers/trackingPlan.controller.ts:172-180 | a key present with null is never reported missing or mistyped |
| ValidatorProperties.UnknownKindThrows | src/controllers/trackingPlan.controller.ts:177 | a declared type for which typeCheckMap yields no function that returns throws as soon as a non-null value is present |
| ValidatorProperties.InheritedKindPasses | src/controllers/trackingPlan.controller.ts:177-206 | a type named `constructor`, `toString`, `toLocaleString` or `valueOf` never gives a type error, and of the rules only enum applies |
| ValidatorProperties.PrototypeKindRejects | src/controllers/trackingPlan.controller.ts:177-180 | a type named `isPrototypeOf` gives a type error for every present non-null value |
| ValidatorProperties.NumberBounds | src/controllers/trackingPlan.controller.ts:185-193 | each bound on its own: a below-min error is reported exactly when min is neither null nor undefined and the number is below it, and then it carries min; the same for max; without an enum there are at most these two errors |
| ValidatorProperties.ZeroMinEnforced | src/controllers/trackingPlan.controller.ts:187-189 | a min of 0 is enforced: every negative number is reported below it |
| ValidatorProperties.FalsyMaxLengthDisabled | src/controllers/trackingPlan.controller.ts:196-198 | an absent, null, 0 or empty maxLength never reports the length error and never throws from it |
| ValidatorProperties.MaxLengthEnforced | src/controllers/trackingPlan.controller.ts:196-198 | a non-zero numeric maxLength reports a string exactly when its UTF-16 length exceeds it |
| ValidatorProperties.MaxLengthCountsCodeUnits | src/controllers/trackingPlan.controller.ts:196-198 | one emoji exceeds a maxLength of 1, because it is two UTF-16 code units |
| ValidatorProperties.PatternChecked | src/controllers/trackingPlan.controller.ts:196-201 | for a string value, or with a falsy maxLength, nothing throws; a truthy pattern reports exactly the values the regular expression rejects and a falsy one reports nothing; for a string the length error is reported exactly when a truthy maxLength is below its UTF-16 length |
| ValidatorProperties.EnumAnyKind | src/controllers/trackingPlan.controller.ts:204-206 | an array enum is checked for every declared type and reports the value exactly when no option is the same value |
| ValidatorProperties.NullComparedAsZero | src/controllers/trackingPlan.controller.ts:186-189 | a null number fails a min of 1, because null compares as 0 |
| ValidatorProperties.AbsentOptionalFailsEnum | src/controllers/trackingPlan.controller.ts:204-206 | an absent optional property with an enum is reported as not among the options |
| ValidatorProperties.AbsentOptionalMaxLengthThrows | src/controllers/trackingPlan.controller.ts:196 | an absent optional string property with a maxLength makes the check throw |
| ValidatorProperties.DeclaredViolationsOwned | src/controllers/trackingPlan.controller.ts:168-208 | every per-property error names a declared property and none is the unexpected-keys error |
| ValidatorProperties.DeclaredOrder | src/controllers/trackingPlan.controller.ts:168-208 | the errors of the first k properties are a prefix of all errors, and a throw among them ends the whole check |
| ValidatorProperties.MissingReported | src/controllers/trackingPlan.controller.ts:172-175 | every required key absent from the payload is reported missing |
| ValidatorProperties.UnknownKeysExact | src/controllers/trackingPlan.controller.ts:212-213 | a key is unknown exactly when it is a payload key and not a declared name, and with no declared name among the keys all are unknown |
| ValidatorProperties.KeyUnknownIff | src/controllers/trackingPlan.controller.ts:212-213 | a payload key is unknown exactly when no declared property has its name |
| ValidatorProperties.UnexpectedLast | src/controllers/trackingPlan.controller.ts:211-217 | the unexpected-keys error comes after all declared-property errors; it appears exactly when extra keys are forbidden and some key is unknown, and it lists those keys |
| ValidatorProperties.UnexpectedKeyReported | src/controllers/trackingPlan.controller.ts:209-217 | a payload key is reported unexpected exactly when extra keys are forbidden and no declared property has that name |
| ValidatorProperties.EventChosenByName | src/controllers/trackingPlan.controller.ts:154-164 | a valid request is answered from the check of the payload against the first event of the plan with that name |
| ValidatorProperties.EventMissingNotFound | src/controllers/trackingPlan.controller.ts:154-162 | a valid request naming an event the plan does not have is answered 404 |
| ValidatorProperties.VerdictValidIff | src/controllers/trackingPlan.controller.ts:219-223 | the verdict is valid exactly when the check collected no error, and otherwise carries every error message in order |
| ValidatorProperties.BadRequestFirst | src/controllers/trackingPlan.controller.ts:126-128 | a falsy event name or a payload that is not of object type gives 400 whatever the plan |
| Tables.FindFirst | src/services/trackingPlan.service.ts:20 | the lookup returns the first record with the key, and nothing exactly when no record has it |
| Tables.LastWriteWins | src/services/trackingPlan.service.ts:19-33 | after a sequence of upserts, every written key has a record, and it carries the value of the last write to that key |
| Tables.UpsertAllIdempotent | src/services/trackingPlan.service.ts:10-100 | repeating a sequence of upserts after it changes nothing |
| Tables.UpsertAllShape | src/services/trackingPlan.service.ts:19-33 | upserts only append new records or overwrite values; ids, keys and fixed fields of stored records stay |
| Tables.UpsertAllUnique | src/services/trackingPlan.service.ts:19-33 | upserts keep keys unique |
| Tables.SetByIdIsUpsert | src/services/trackingPlan.service.ts:22-28 | updating the found record by its id is the upsert of its key |
| EntityStore.Store.FindEvent | src/services/trackingPlan.service.ts:20 | the first event with that name and type, if any |
| EntityStore.Store.CreateEvent | src/services/trackingPlan.service.ts:30-32 | the event table gains one record with the next id; nothing else changes |
| EntityStore.Store.UpdateEvent | src/services/trackingPlan.service.ts:24-27 | only the description of the record with that id changes |
| EntityStore.Store.FindProperty | src/services/trackingPlan.service.ts:62 | the first property with that name and type, if any |
| EntityStore.Store.CreateProperty | src/controllers/property.controller.ts:30-32 | the property table gains one record with the next id and the given rules; nothing else changes |
| EntityStore.Store.UpdateProperty | src/services/trackingPlan.service.ts:66-69 | only the description of the record with that id changes |
| EntityStore.Store.FindPlan | src/controllers/trackingPlan.controller.ts:17 | the plan with that name, if any |
| EntityStore.Store.CreatePlan | src/controllers/trackingPlan.controller.ts:23-28 | the plan table gains one record with the next id; nothing else changes |
| EntityStore.Store.FindPlanEvent | src/services/trackingPlan.service.ts:36-41 | the first link of that plan to that event, if any |
| EntityStore.Store.CreatePlanEvent | src/services/trackingPlan.service.ts:49-55 | the plan-event table gains one link with the flag; nothing else changes |
| EntityStore.Store.UpdatePlanEvent | src/services/trackingPlan.service.ts:44-47 | only the flag of the link with that id changes |
| EntityStore.Store.FindEventProperty | src/services/trackingPlan.service.ts:78-83 | the first link of that event to that property, if any |
| EntityStore.Store.CreateEventProperty | src/services/trackingPlan.service.ts:91-97 | the event-property table gains one link with the flag; nothing else changes |
| EntityStore.Store.UpdateEventProperty | src/services/trackingPlan.service.ts:86-89 | only the flag of the link with that id changes |
| Reconciler.UpsertEvent | src/services/trackingPlan.service.ts:19-56 | steps 1 and 2 upsert the event and the plan's link to it, and return the event's id |
| Reconciler.UpsertProperty | src/services/trackingPlan.service.ts:60-98 | steps 3 and 4 upsert the property and the event's link to it |
| Reconciler.UpsertEventDefinition | src/services/trackingPlan.service.ts:10-99 | one event definition with all of its properties, in order |
| Reconciler.UpsertEventsAndProperties | src/services/trackingPlan.service.ts:3-101 | the store afterwards is the batch applied to the old store, definition by definition |
| Reconciler.PropsDecompose | src/services/trackingPlan.service.ts:59-99 | the property loop of one event is one sequence of upserts on properties and one on links |
| Reconciler.Decompose | src/services/trackingPlan.service.ts:10-100 | the interleaved loops equal four independent sequences of upserts, one per table, with the plan's links and the event-property links keyed by the final ids |
| Reconciler.BatchIdempotent | src/services/trackingPlan.service.ts:10-100 | running the same batch twice for the same plan leaves the store as running it once |
| Reconciler.BatchLastEventWins | src/services/trackingPlan.service.ts:20-56 | exactly one event of each identity remains, with the description of its last definition, and exactly one plan link to it, with that definition's additionalProperties |
| Reconciler.EventLastWins | src/services/trackingPlan.service.ts:20-33 | the event upserts leave one event per identity, carrying the description of its last definition, and keep ids fresh and identities unique |
| Reconciler.PlanLinkLastWins | src/services/trackingPlan.service.ts:35-56 | the plan-link upserts leave one link per event identity, carrying the flag of its last definition |
| Reconciler.BatchProperty | src/services/trackingPlan.service.ts:59-98 | exactly one property of each identity remains, with the description of its last definition, and exactly one link from each defining event to it, with the `required` flag of the batch's last write of that link |
| Reconciler.BatchFrame | src/services/trackingPlan.service.ts:10-100 | nothing is deleted; plans, events and properties the batch does not name, other plans' links, this plan's links to events outside the batch and event-property links the batch does not define are unchanged; new plan links belong to this plan |
| Reconciler.PropertiesFrame | src/services/trackingPlan.service.ts:60-76 | the property upserts keep every property no definition of the batch names |
| Reconciler.LinksFrame | src/services/trackingPlan.service.ts:78-97 | the link upserts keep every link that is not an (event, property) pair of the batch |
| Reconciler.BatchKeepsInvariants | src/services/trackingPlan.service.ts:10-100 | ids stay fresh and distinct, and unique identities stay unique in every table |
| PlanCreation.DuplicateNameFirst | src/controllers/trackingPlan.controller.ts:17-20 | an existing plan name is rejected before anything is written, with its message |
| PlanCreation.AppendOnly | src/controllers/trackingPlan.controller.ts:22-87 | no rollback: stored records stay; the new plan stays, and so does everything written for each event definition handled before a conflict stopped the walk; a created plan has the next id |
| PlanCreation.PrefixGrows | src/controllers/trackingPlan.controller.ts:31-87 | the store after the walk over a prefix of the definitions is kept, record for record, by the walk over all of them |
| PlanCreation.EventConflictStops | src/controllers/trackingPlan.controller.ts:35-42 | an event stored with another description stops the event walk |
| PlanCreation.PropertyConflictStops | src/controllers/trackingPlan.controller.ts:63-70 | a property stored with another description stops the property walk |
| PlanCreation.PropertyConflictStopsAll | src/controllers/trackingPlan.controller.ts:31-87 | such a property also stops the event walk |
| PlanCreation.ConflictRejected | src/controllers/trackingPlan.controller.ts:31-89 | an event or property already stored with another description gives a conflict reply, never a created plan |
| PlanCreation.CreatedLikeReconciler | src/controllers/trackingPlan.controller.ts:31-89 | a created plan leaves events and properties as the reconciler's upserts would, and appends as new records, in definition order, exactly the plan links and event-property links (ids and flags) the reconciler writes |
| PlanCreation.StrictPropsLinks | src/controllers/trackingPlan.controller.ts:60-86 | a successful property walk appends exactly the reconciler's links of the event, in order, with the final property ids and the `required` flags |
| PlanCreation.StrictEventsLinks | src/controllers/trackingPlan.controller.ts:31-87 | a successful event walk appends exactly the reconciler's plan links and event-property links, in order |
| PlanCreation.SharedEventDuplicatesLink | src/controllers/trackingPlan.controller.ts:79-85 | two plans with the same event and property leave two links for one (event, property) pair |
| PlanCreation.LinkProperties | src/controllers/trackingPlan.controller.ts:60-86 | the property loop reuses or creates each property and creates its link, stopping at the first conflict |
| PlanCreation.LinkEvent | src/controllers/trackingPlan.controller.ts:32-86 | one event definition: the conflict check, reuse or creation, the plan link and the property loop |
| PlanCreation.CreateTrackingPlan | src/controllers/trackingPlan.controller.ts:12-94 | the store afterwards and the reply are those of CreatePlan on the old store |
| EventController.InvalidTypeRejected | src/controllers/event.controller.ts:9-12 | a type outside the five event types is rejected with its message and the table is unchanged |
| EventController.ExistingDifferentConflicts | src/controllers/event.controller.ts:15-18 | an event of the same identity with another description is a conflict with its message, and the table is unchanged |
| EventController.ExistingSameReused | src/controllers/event.controller.ts:15-21 | an event of the same identity and description is returned as stored, and nothing is created |
| EventController.CreateAppendsOne | src/controllers/event.controller.ts:9-28 | exactly a valid type and an unknown identity create a record, appended with the next id and the request's values; otherwise the table is unchanged |
| EventController.NeverDuplicates | src/controllers/event.controller.ts:14-28 | ids stay fresh and identities unique, and after success exactly one event has the identity, with the requested description and the reply's id |
| EventController.CreateEvent | src/controllers/event.controller.ts:4-32 | the store afterwards and the reply are those of CreateEventResult; only the event table changes |
| PropertyController.InvalidTypeRejected | src/controllers/property.controller.ts:10-12 | a type outside string, number and boolean is rejected with its message and the table is unchanged |
| PropertyController.ExistingIgnoresRules | src/controllers/property.controller.ts:14-23 | an existing identity is answered (conflict with its message, or reuse) without looking at the rules, and the table is unchanged |
| PropertyController.BadRulesRejected | src/controllers/property.controller.ts:25-28 | for a new property, exactly truthy string, number or boolean rules are rejected, with the message, and then nothing is created |
| PropertyController.CreateAppendsOne | src/controllers/property.controller.ts:10-32 | exactly a valid type, an unknown identity and acceptable rules create a record, appended with the next id, the request's values and rules; otherwise the table is unchanged |
| PropertyController.NeverDuplicates | src/controllers/property.controller.ts:14-32 | ids stay fresh and identities unique, and after success exactly one property has the identity, with the requested description and the reply's id |
| PropertyController.CreateProperty | src/controllers/property.controller.ts:6-38 | the store afterwards and the reply are those of CreatePropertyResult; only the property table changes |

## Left out

- HTTP transport: requests are method parameters and responses are reply datatypes that carry the status and message. Response bodies that echo whole records are the records themselves.
- The catch branches that answer 500 for store failures: the store never fails here. A thrown `TypeError` inside the validator is modelled, as `Thrown`.
- Timestamps and other columns the core does not read. The reconciler skips the update when the description is unchanged. Without timestamps that skip cannot be observed, so the model proves it equals the upsert (`Tables.UpsertSame`).
- Descriptions are strings; a `null` or absent description is not modelled.
- JSON numbers are integers: there is no floating point, NaN, infinity or `-0` in payloads or rules.
- In `<`, `>` and `.length` comparisons, a string, array or object operand counts as NaN, and a boolean as 0 or 1. Numeric strings are not converted.
- The `pattern` regular expression is a parameter (`Matcher`) standing for `new RegExp(p).test(v)`. An invalid pattern, which makes the constructor throw, is not modelled.
- Keys reached through the prototype chain (`"toString" in payload`) and the `length` key of array payloads are not modelled: `in` looks only at the payload's own keys.
- `payload` with the value `null` passes the `typeof` check and then throws; that is modelled. A non-object, non-null body field is the 400 reply.
- Prisma's fetch of the plan with its events and properties: the validator takes the resolved plan as its input (`Option<seq<EventSchema>>`). Its link to the store tables is not modelled.
- Non-string `eventName`, `name` or `type` inputs, and a missing `events` or `properties` array (which would throw) are not modelled.
- The store's own unique constraints and the errors they raise: the model lets strict creation add a second link for a pair, as the code asks the store to.
- `ValidPropertyTypes` comes from `src/utils/constant`, which is not part of this model. Its three values are taken from the API schema in src/docs/schemas/property.schema.ts:13.
- How Prisma stores a `null` `validationRules`: the model stores what the request carried.
- The read-only handlers (`getAllTrackingPlans` and the other list and get endpoints) and the update and delete handlers that are not shown; routing and the API documentation.
- Concurrency: every call runs alone against the store.
- Tables.IndexOf: a `findFirst` lookup returns the first matching record in insertion order. The store promises no order without `orderBy`; the choice matters only when an identity is stored twice, as `PlanCreation.SharedEventDuplicatesLink` shows can happen for event-property links.
- ValidatorProperties.NumberBounds: the bound of at most two errors is stated for rules without a truthy `enum`, which can add one more error (`EnumAnyKind` covers that rule).
- Reconciler.UpsertEventsAndProperties: `additionalProperties` and `required` are always booleans. A request may omit them, and the code then passes `undefined` to the store, which keeps the stored flag on update and uses the column default on create; that case is not modelled, here or in `createTrackingPlan`.
- Parsed JSON objects hold each key once. A body with a repeated key, where the parser keeps the last value, is not modelled; `JsValues.Lookup` takes the first.
- Converting an object to a string calls its own `toString`; the model renders every object as `[object Object]` and every array by joining its elements, so a payload object that carries its own `toString` or `valueOf` key is not modelled.
