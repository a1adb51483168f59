/**
 * The payload validator of the tracking-plan controller: the `typeCheckMap`
 * kind predicates and the `validateEventPayload` handler, which picks the
 * named event of a tracking plan and checks a JSON payload against the
 * event's declared properties, collecting error messages in order.
 *
 * The regular-expression engine is a parameter (`matches(pattern, text)`
 * stands for `new RegExp(pattern).test(text)`); the plan graph the handler
 * fetches from the store is an input.
 */
module PayloadValidator {
  import opened Wrappers
  import opened JsValues

  /** A property declared for an event, as the fetched plan graph carries it:
      the linked Property's name, type and validation rules, and the
      `required` flag of the event-property link. */
  datatype DeclaredProperty = DeclaredProperty(name: string, kind: string, required: bool, rules: Json)

  /** An event of a tracking plan, as the fetched plan graph carries it: the
      Event's name and type, the `additionalProperties` flag of the
      plan-event link, and the event's properties in stored order. */
  datatype EventSchema = EventSchema(name: string, kind: string, additionalProperties: bool, properties: seq<DeclaredProperty>)

  /** One entry of the error list, before it is rendered as a message. */
  datatype Violation =
    | Missing(name: string)
    | WrongType(name: string, kind: string)
    | BelowMin(name: string, bound: Json)
    | AboveMax(name: string, bound: Json)
    | TooLong(name: string)
    | PatternMismatch(name: string)
    | NotInEnum(name: string, options: seq<Json>)
    | Unexpected(keys: seq<string>)

  /** The outcome of running checks: the errors pushed, or a TypeError thrown
      by the handler's own code (which the handler turns into a 500 reply). */
  datatype Checked = Errors(list: seq<Violation>) | Thrown

  /** `new RegExp(pattern).test(text)`. */
  type Matcher = (string, string) -> bool

  /** The reply of the validation endpoint. */
  datatype Reply =
    | Valid                          // 200 { valid: true }
    | Invalid(errors: seq<string>)   // 400 { valid: false, errors }
    | BadRequest(message: string)    // 400 { message }
    | NotFound(message: string)      // 404 { message }
    | ServerError                    // 500

  const RequestFieldsMessage := "`eventName` and `payload` are required."
  const PlanNotFoundMessage := "Tracking plan not found"
  const EventNotFoundMessage := "Event not found in this tracking plan"

  /** The rendered error message. */
  function Message(v: Violation): string {
    match v
    case Missing(n) => "Missing required property: '" + n + "'"
    case WrongType(n, k) => "Property '" + n + "' should be of type '" + k + "'"
    case BelowMin(n, b) => "Property '" + n + "' must be >= " + JsString(b)
    case AboveMax(n, b) => "Property '" + n + "' must be <= " + JsString(b)
    case TooLong(n) => "Property '" + n + "' exceeds max length"
    case PatternMismatch(n) => "Property '" + n + "' does not match required pattern"
    case NotInEnum(n, opts) => "Property '" + n + "' must be one of: " + JoinValues(opts, ", ")
    case Unexpected(keys) => "Unexpected properties: " + Join(keys, ", ")
  }

  function Messages(vs: seq<Violation>): (r: seq<string>)
    ensures |r| == |vs| && forall i :: 0 <= i < |vs| ==> r[i] == Message(vs[i])
  {
    seq(|vs|, i requires 0 <= i < |vs| => Message(vs[i]))
  }

  /** A violation that a validation rule reports (as opposed to a missing
      key, a type mismatch or the unexpected-keys error). */
  predicate IsRuleViolation(v: Violation) {
    v.BelowMin? || v.AboveMax? || v.TooLong? || v.PatternMismatch? || v.NotInEnum?
  }

  /** Checks run one after the other: a throw ends the run, errors accumulate. */
  function Then(a: Checked, b: Checked): Checked {
    if a.Thrown? || b.Thrown? then Thrown else Errors(a.list + b.list)
  }

  /** The kinds `typeCheckMap` declares. */
  const OwnKinds: set<string> := {"string", "number", "boolean"}

  /** Functions `typeCheckMap` inherits from Object.prototype whose call with
      the map as receiver returns a truthy value whatever the argument:
      `Object(v)`, "[object Object]" twice, and the map itself. */
  const AlwaysTruthyKinds: set<string> := {"constructor", "toString", "toLocaleString", "valueOf"}

  /** Inherited functions whose call answers by the argument's property key:
      whether the map owns it (`hasOwnProperty`, `propertyIsEnumerable`), or
      whether the prototype chain has a getter or setter for it, which only
      `__proto__` has (`__lookupGetter__`, `__lookupSetter__`). */
  const KeyTestKinds: set<string> := {"hasOwnProperty", "propertyIsEnumerable", "__lookupGetter__", "__lookupSetter__"}

  /** Every kind for which the call `typeCheckMap[kind](v)` returns; for any
      other kind it throws: the entry is missing, is Object.prototype itself
      (`__proto__`), or demands a function argument (`__defineGetter__`,
      `__defineSetter__`). `isPrototypeOf` returns false for every parsed
      JSON value. */
  const AnsweringKinds: set<string> := OwnKinds + AlwaysTruthyKinds + KeyTestKinds + {"isPrototypeOf"}

  /** `typeCheckMap[kind](v)` for a value that is neither null nor undefined:
      Some(whether the result is truthy), None when the call throws. */
  function TypeCheck(kind: string, v: Json): (r: Option<bool>)
    ensures r.Some? <==> kind in AnsweringKinds
    ensures kind in OwnKinds ==>
      (r == Some(true) <==> (kind == "string" && v.JStr?) || (kind == "number" && v.JNum?) || (kind == "boolean" && v.JBool?))
    ensures kind in AlwaysTruthyKinds ==> r == Some(true)
    ensures kind == "isPrototypeOf" ==> r == Some(false)
    ensures kind in {"hasOwnProperty", "propertyIsEnumerable"} ==> (r == Some(true) <==> JsString(v) in OwnKinds)
    ensures kind in {"__lookupGetter__", "__lookupSetter__"} ==> (r == Some(true) <==> JsString(v) == "__proto__")
  {
    if kind == "string" then Some(v.JStr?)
    else if kind == "number" then Some(v.JNum?)
    else if kind == "boolean" then Some(v.JBool?)
    else if kind in AlwaysTruthyKinds then Some(true)
    else if kind == "hasOwnProperty" || kind == "propertyIsEnumerable" then Some(JsString(v) in OwnKinds)
    else if kind == "__lookupGetter__" || kind == "__lookupSetter__" then Some(JsString(v) == "__proto__")
    else if kind == "isPrototypeOf" then Some(false)
    else None
  }

  /** The `min`/`max` checks of a number property. */
  function NumberRules(name: string, rules: Json, value: Option<Json>): (r: seq<Violation>)
    ensures forall v :: v in r ==> (v.BelowMin? || v.AboveMax?) && v.name == name
  {
    var min, max := Field(rules, "min"), Field(rules, "max");
    (if NotNullish(min) && Less(ToNumber(value), ToNumber(min)) then [BelowMin(name, min.value)] else [])
    + (if NotNullish(max) && Less(ToNumber(max), ToNumber(value)) then [AboveMax(name, max.value)] else [])
  }

  /** `value.length`: a TypeError (Thrown) on null or undefined; None when the
      value has no length, so that the comparison is false. A string's
      length counts UTF-16 code units. */
  function LengthOf(value: Option<Json>): Option<Option<int>> {
    match value
    case None => None
    case Some(JNull) => None
    case Some(JStr(s)) => Some(Some(Utf16Length(s)))
    case Some(JArr(items)) => Some(Some(|items|))
    case Some(_) => Some(None)
  }

  /** The `maxLength`/`pattern` checks of a string property. */
  function StringRules(name: string, rules: Json, value: Option<Json>, matches: Matcher): (r: Checked)
    ensures r.Errors? ==> forall v :: v in r.list ==> (v.TooLong? || v.PatternMismatch?) && v.name == name
  {
    var maxLength, pattern := Field(rules, "maxLength"), Field(rules, "pattern");
    var lengthCheck :=
      if !Truthy(maxLength) then Errors([])
      else match LengthOf(value)
        case None => Thrown
        case Some(len) => Errors(if Less(ToNumber(maxLength), len) then [TooLong(name)] else []);
    var patternCheck :=
      if Truthy(pattern) && !matches(JsString(pattern.value), StringOf(value)) then [PatternMismatch(name)] else [];
    Then(lengthCheck, Errors(patternCheck))
  }

  /** The `enum` check, for a property of any type: an array is searched with
      SameValueZero; a string is searched as a substring, and a miss throws
      because a string has no `join`; anything else truthy has no `includes`. */
  function EnumRule(name: string, rules: Json, value: Option<Json>): (r: Checked)
    ensures r.Errors? ==> forall v :: v in r.list ==> v.NotInEnum? && v.name == name
  {
    var options := Field(rules, "enum");
    if !Truthy(options) then Errors([])
    else match options.value
      case JArr(items) =>
        if exists i :: 0 <= i < |items| && SameValueZero(items[i], value) then Errors([])
        else Errors([NotInEnum(name, items)])
      case JStr(s) => if Contains(s, StringOf(value)) then Errors([]) else Thrown
      case _ => Thrown
  }

  /** The rule checks applied to a property whose rules are truthy, by
      declared type, then the enum check. */
  function RuleViolations(name: string, kind: string, rules: Json, value: Option<Json>, matches: Matcher): (r: Checked)
    ensures r.Errors? ==> forall v :: v in r.list ==> IsRuleViolation(v) && v.name == name
  {
    var numbers := if kind == "number" then NumberRules(name, rules, value) else [];
    var strings := if kind == "string" then StringRules(name, rules, value, matches) else Errors([]);
    Then(Errors(numbers), Then(strings, EnumRule(name, rules, value)))
  }

  /** All checks of one declared property, in the handler's order: missing
      required key, then type, then the rules. */
  function CheckProperty(p: DeclaredProperty, fields: seq<(string, Json)>, matches: Matcher): (r: Checked)
    ensures r.Errors? ==> forall v :: v in r.list ==> !v.Unexpected? && v.name == p.name
  {
    var value := Lookup(fields, p.name);
    if p.required && !HasKey(fields, p.name) then Errors([Missing(p.name)])
    else if NotNullish(value) && TypeCheck(p.kind, value.value).None? then Thrown
    else if NotNullish(value) && TypeCheck(p.kind, value.value) == Some(false) then Errors([WrongType(p.name, p.kind)])
    else if !Truthy(Some(p.rules)) then Errors([])
    else RuleViolations(p.name, p.kind, p.rules, value, matches)
  }

  /** The checks of every declared property, in declared order. */
  function DeclaredViolations(props: seq<DeclaredProperty>, fields: seq<(string, Json)>, matches: Matcher): Checked {
    RunAll(props, PropertyCheck(fields, matches))
  }

  /** The check of one declared property against a given payload. */
  function PropertyCheck(fields: seq<(string, Json)>, matches: Matcher): DeclaredProperty -> Checked {
    p => CheckProperty(p, fields, matches)
  }

  /** Checks run over a list one after the other, in list order. */
  function RunAll<T>(xs: seq<T>, check: T -> Checked): Checked {
    if xs == [] then Errors([]) else Then(RunAll(xs[..|xs| - 1], check), check(xs[|xs| - 1]))
  }

  /** The names of the declared properties (`knownProps`). */
  function Names(props: seq<DeclaredProperty>): (r: seq<string>)
    ensures |r| == |props| && forall i :: 0 <= i < |props| ==> r[i] == props[i].name
  {
    seq(|props|, i requires 0 <= i < |props| => props[i].name)
  }

  /** The keys not among the known names, in key order. */
  function UnknownKeys(keys: seq<string>, known: seq<string>): seq<string> {
    if keys == [] then []
    else UnknownKeys(keys[..|keys| - 1], known) + (if keys[|keys| - 1] in known then [] else [keys[|keys| - 1]])
  }

  /** The single error about undeclared keys, when they are not allowed. */
  function UnexpectedCheck(schema: EventSchema, fields: seq<(string, Json)>): seq<Violation> {
    var unknown := UnknownKeys(Keys(fields), Names(schema.properties));
    if !schema.additionalProperties && unknown != [] then [Unexpected(unknown)] else []
  }

  /** The checks of a payload object against an event schema. */
  function Validate(schema: EventSchema, fields: seq<(string, Json)>, matches: Matcher): Checked {
    Then(DeclaredViolations(schema.properties, fields, matches), Errors(UnexpectedCheck(schema, fields)))
  }

  /** The checks of a payload that passed the `typeof payload === "object"`
      test: null throws as soon as it is indexed or listed; an array is
      checked under its index keys. */
  function CheckPayload(schema: EventSchema, payload: Json, matches: Matcher): Checked
    requires IsObjectType(payload)
  {
    match payload
    case JObj(fields) => Validate(schema, fields, matches)
    case JArr(items) => Validate(schema, IndexFields(items), matches)
    case JNull => if schema.properties != [] || !schema.additionalProperties then Thrown else Errors([])
  }

  /** `plan.trackingPlanEvents.find(e => e.event.name === eventName)`. */
  function FindEvent(events: seq<EventSchema>, name: string): (r: Option<nat>)
    ensures r.Some? ==> r.value < |events| && events[r.value].name == name
    ensures r.Some? ==> forall j :: 0 <= j < r.value ==> events[j].name != name
    ensures r.None? ==> forall j :: 0 <= j < |events| ==> events[j].name != name
  {
    if events == [] then None
    else if events[0].name == name then Some(0)
    else match FindEvent(events[1..], name)
      case None => None
      case Some(i) => Some(i + 1)
  }

  /** The reply of the endpoint, given the plan graph the store returns for
      the plan id (None when there is no such plan). */
  function ValidationReply(plan: Option<seq<EventSchema>>, eventName: string, payload: Option<Json>, matches: Matcher): Reply {
    if eventName == "" || payload.None? || !IsObjectType(payload.value) then BadRequest(RequestFieldsMessage)
    else if plan.None? then NotFound(PlanNotFoundMessage)
    else match FindEvent(plan.value, eventName)
      case None => NotFound(EventNotFoundMessage)
      case Some(i) =>
        Verdict(CheckPayload(plan.value[i], payload.value, matches))
  }

  /** The reply once the payload was checked: 500 on a throw, otherwise
      valid exactly when no error was collected. */
  function Verdict(c: Checked): Reply {
    match c
    case Thrown => ServerError
    case Errors(list) => if list == [] then Valid else Invalid(Messages(list))
  }

  // ---------------------------------------------------------------------
  // The handler, as a loop that pushes errors
  // ---------------------------------------------------------------------

  lemma ThenAssoc(a: Checked, b: Checked, c: Checked)
    ensures Then(Then(a, b), c) == Then(a, Then(b, c))
  {
    if !a.Thrown? && !b.Thrown? && !c.Thrown? {
      assert (a.list + b.list) + c.list == a.list + (b.list + c.list);
    }
  }

  lemma ThenMember(a: Checked, b: Checked, v: Violation)
    ensures Then(a, b).Errors? ==> (v in Then(a, b).list <==> v in a.list || v in b.list)
  {
  }

  lemma ThenUnit(a: Checked)
    ensures Then(a, Errors([])) == a
  {
    if a.Errors? {
      assert a.list + [] == a.list;
    }
  }

  /** Running the checks of a list is running those of a prefix and then
      those of the rest. */
  lemma {:induction false} RunAllSplit<T>(xs: seq<T>, k: nat, check: T -> Checked)
    requires k <= |xs|
    ensures RunAll(xs, check) == Then(RunAll(xs[..k], check), RunAll(xs[k..], check))
  {
    if k == |xs| {
      assert xs[..k] == xs;
      assert xs[k..] == [];
      ThenUnit(RunAll(xs, check));
    } else {
      var n := |xs|;
      var init := xs[..n - 1];
      RunAllSplit(init, k, check);
      assert init[..k] == xs[..k];
      assert xs[k..][..n - k - 1] == init[k..];
      ThenAssoc(RunAll(xs[..k], check), RunAll(init[k..], check), check(xs[n - 1]));
    }
  }

  /** The checks of a prefix of the declared properties and of the rest
      combine in order: errors appear in declared-property order. */
  lemma DeclaredViolationsSplit(props: seq<DeclaredProperty>, k: nat, fields: seq<(string, Json)>, matches: Matcher)
    requires k <= |props|
    ensures DeclaredViolations(props, fields, matches)
         == Then(DeclaredViolations(props[..k], fields, matches), DeclaredViolations(props[k..], fields, matches))
  {
    RunAllSplit(props, k, PropertyCheck(fields, matches));
  }

  /** One more declared property appends its checks. */
  lemma DeclaredViolationsStep(props: seq<DeclaredProperty>, i: nat, fields: seq<(string, Json)>, matches: Matcher)
    requires i < |props|
    ensures DeclaredViolations(props[..i + 1], fields, matches)
         == Then(DeclaredViolations(props[..i], fields, matches), CheckProperty(props[i], fields, matches))
  {
    assert props[..i + 1][..i] == props[..i];
  }

  /** The handler's loop over the declared properties: it pushes errors and
      skips to the next property after a missing key or a type mismatch. */
  method CheckDeclared(props: seq<DeclaredProperty>, fields: seq<(string, Json)>, matches: Matcher) returns (r: Checked)
    ensures r == DeclaredViolations(props, fields, matches)
  {
    var errors: seq<Violation> := [];
    for i := 0 to |props|
      invariant DeclaredViolations(props[..i], fields, matches) == Errors(errors)
    {
      DeclaredViolationsStep(props, i, fields, matches);
      var p := props[i];
      var value := Lookup(fields, p.name);
      if p.required && !HasKey(fields, p.name) {
        errors := errors + [Missing(p.name)];
        continue;
      }
      if NotNullish(value) {
        var ok := TypeCheck(p.kind, value.value);
        if ok.None? {
          DeclaredViolationsSplit(props, i + 1, fields, matches);
          return Thrown;
        }
        if !ok.value {
          errors := errors + [WrongType(p.name, p.kind)];
          continue;
        }
      }
      if Truthy(Some(p.rules)) {
        var ruleErrors := RuleViolations(p.name, p.kind, p.rules, value, matches);
        if ruleErrors.Thrown? {
          DeclaredViolationsSplit(props, i + 1, fields, matches);
          return Thrown;
        }
        errors := errors + ruleErrors.list;
      }
    }
    assert props[..|props|] == props;
    return Errors(errors);
  }

  /** `Object.keys(payload).filter(k => !knownProps.includes(k))`. */
  method FilterUnknown(keys: seq<string>, known: seq<string>) returns (unknown: seq<string>)
    ensures unknown == UnknownKeys(keys, known)
  {
    unknown := [];
    for j := 0 to |keys|
      invariant unknown == UnknownKeys(keys[..j], known)
    {
      assert keys[..j + 1][..j] == keys[..j];
      if keys[j] !in known {
        unknown := unknown + [keys[j]];
      }
    }
    assert keys[..|keys|] == keys;
  }

  /** The checks of a payload object, as the handler runs them. */
  method CheckObject(schema: EventSchema, fields: seq<(string, Json)>, matches: Matcher) returns (r: Checked)
    ensures r == Validate(schema, fields, matches)
  {
    r := CheckDeclared(schema.properties, fields, matches);
    if r.Thrown? {
      return;
    }
    var errors := r.list;
    if !schema.additionalProperties {
      var unknown := FilterUnknown(Keys(fields), Names(schema.properties));
      if |unknown| > 0 {
        errors := errors + [Unexpected(unknown)];
      }
    }
    assert errors == r.list + UnexpectedCheck(schema, fields);
    return Errors(errors);
  }

  /** The `validateEventPayload` handler over a fetched plan graph. */
  method ValidateEventPayload(plan: Option<seq<EventSchema>>, eventName: string, payload: Option<Json>, matches: Matcher)
    returns (reply: Reply)
    ensures reply == ValidationReply(plan, eventName, payload, matches)
  {
    if eventName == "" || payload.None? || !IsObjectType(payload.value) {
      return BadRequest(RequestFieldsMessage);
    }
    if plan.None? {
      return NotFound(PlanNotFoundMessage);
    }
    var events := plan.value;
    var k := 0;
    while k < |events| && events[k].name != eventName
      invariant 0 <= k <= |events|
      invariant forall j :: 0 <= j < k ==> events[j].name != eventName
    {
      k := k + 1;
    }
    if k == |events| {
      return NotFound(EventNotFoundMessage);
    }
    var schema := events[k];
    var checked: Checked;
    match payload.value {
      case JObj(fields) => checked := CheckObject(schema, fields, matches);
      case JArr(items) => checked := CheckObject(schema, IndexFields(items), matches);
      case JNull =>
        checked := if schema.properties != [] || !schema.additionalProperties then Thrown else Errors([]);
    }
    if checked.Thrown? {
      return ServerError;
    }
    if |checked.list| > 0 {
      return Invalid(Messages(checked.list));
    }
    return Valid;
  }
}
