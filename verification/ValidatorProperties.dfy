/**
 * What the payload validator promises: the per-property short cuts (a
 * missing key, a type mismatch), the rule checks, the unexpected-keys error,
 * the order of the errors and the final verdict.
 */
module ValidatorProperties {
  import opened Wrappers
  import opened JsValues
  import opened PayloadValidator

  // ---------------------------------------------------------------------
  // One declared property
  // ---------------------------------------------------------------------

  /** A required key absent from the payload yields exactly the missing-key
      message, and no other error for that property. */
  lemma MissingRequiredOnly(p: DeclaredProperty, fields: seq<(string, Json)>, matches: Matcher)
    requires p.required && !HasKey(fields, p.name)
    ensures CheckProperty(p, fields, matches) == Errors([Missing(p.name)])
    ensures Messages(CheckProperty(p, fields, matches).list) == ["Missing required property: '" + p.name + "'"]
  {
  }

  /** A present, non-null value of the wrong runtime kind yields exactly one
      type error and none of the rule errors. */
  lemma TypeMismatchOnly(p: DeclaredProperty, fields: seq<(string, Json)>, matches: Matcher, v: Json)
    requires Lookup(fields, p.name) == Some(v) && v != JNull
    requires p.kind in OwnKinds
    requires !((p.kind == "string" && v.JStr?) || (p.kind == "number" && v.JNum?) || (p.kind == "boolean" && v.JBool?))
    ensures CheckProperty(p, fields, matches) == Errors([WrongType(p.name, p.kind)])
    ensures Messages(CheckProperty(p, fields, matches).list) == ["Property '" + p.name + "' should be of type '" + p.kind + "'"]
  {
    assert HasKey(fields, p.name);
    assert TypeCheck(p.kind, v) == Some(false);
  }

  /** A key present with the value null is never reported missing nor as a
      type mismatch, whether or not it is required; only rule errors remain. */
  lemma NullIsNeitherMissingNorMistyped(p: DeclaredProperty, fields: seq<(string, Json)>, matches: Matcher)
    requires Lookup(fields, p.name) == Some(JNull)
    ensures CheckProperty(p, fields, matches).Errors? ==>
      forall v :: v in CheckProperty(p, fields, matches).list ==> IsRuleViolation(v) && v.name == p.name
  {
    assert HasKey(fields, p.name);
  }

  /** The declared type is looked up in `typeCheckMap`; a type for which the
      lookup yields no function that returns makes the call throw as soon as
      a non-null value is present. */
  lemma UnknownKindThrows(p: DeclaredProperty, fields: seq<(string, Json)>, matches: Matcher, v: Json)
    requires Lookup(fields, p.name) == Some(v) && v != JNull
    requires p.kind !in AnsweringKinds
    ensures CheckProperty(p, fields, matches) == Thrown
  {
    assert HasKey(fields, p.name);
  }

  /** A type named like a function the map inherits and whose result is
      always truthy (`constructor`, `toString`, ...) passes every value: no
      type error, and of the rules only `enum` applies. */
  lemma InheritedKindPasses(p: DeclaredProperty, fields: seq<(string, Json)>, matches: Matcher, v: Json)
    requires Lookup(fields, p.name) == Some(v) && v != JNull
    requires p.kind in AlwaysTruthyKinds
    ensures CheckProperty(p, fields, matches)
      == if Truthy(Some(p.rules)) then EnumRule(p.name, p.rules, Some(v)) else Errors([])
  {
    assert HasKey(fields, p.name);
    assert p.kind != "number" && p.kind != "string";
    assert TypeCheck(p.kind, v) == Some(true);
    var e := EnumRule(p.name, p.rules, Some(v));
    assert Then(Errors([]), e) == e by {
      if e.Errors? { assert [] + e.list == e.list; }
    }
  }

  /** The type `isPrototypeOf` rejects every present non-null value. */
  lemma PrototypeKindRejects(p: DeclaredProperty, fields: seq<(string, Json)>, matches: Matcher, v: Json)
    requires Lookup(fields, p.name) == Some(v) && v != JNull
    requires p.kind == "isPrototypeOf"
    ensures CheckProperty(p, fields, matches) == Errors([WrongType(p.name, p.kind)])
  {
    assert HasKey(fields, p.name);
  }

  // ---------------------------------------------------------------------
  // The rule checks
  // ---------------------------------------------------------------------

  /** Once a number value passed the type check, `min` and `max` are checked
      independently, each adding at most its own error; a bound is enforced
      whenever it is not null or undefined, so a bound of 0 counts. Without
      an `enum` the bounds are the only checks. */
  lemma NumberBounds(p: DeclaredProperty, fields: seq<(string, Json)>, matches: Matcher, n: int)
    requires p.kind == "number" && Lookup(fields, p.name) == Some(JNum(n)) && Truthy(Some(p.rules))
    ensures var r := CheckProperty(p, fields, matches);
      var min, max := Field(p.rules, "min"), Field(p.rules, "max");
      r.Errors? ==>
        && ((exists v :: v in r.list && v.BelowMin?) <==> NotNullish(min) && Less(Some(n), ToNumber(min)))
        && (NotNullish(min) && Less(Some(n), ToNumber(min)) ==> BelowMin(p.name, min.value) in r.list)
        && ((exists v :: v in r.list && v.AboveMax?) <==> NotNullish(max) && Less(ToNumber(max), Some(n)))
        && (NotNullish(max) && Less(ToNumber(max), Some(n)) ==> AboveMax(p.name, max.value) in r.list)
    ensures !Truthy(Field(p.rules, "enum")) ==>
      CheckProperty(p, fields, matches).Errors? && |CheckProperty(p, fields, matches).list| <= 2
  {
    assert HasKey(fields, p.name);
    assert TypeCheck(p.kind, JNum(n)) == Some(true);
    var r := CheckProperty(p, fields, matches);
    var numbers := NumberRules(p.name, p.rules, Some(JNum(n)));
    var e := EnumRule(p.name, p.rules, Some(JNum(n)));
    assert r == Then(Errors(numbers), Then(Errors([]), e));
    if r.Errors? {
      assert r.list == numbers + e.list;
      assert forall v :: v in e.list ==> v.NotInEnum?;
    }
  }

  /** A `min` of 0 rejects every negative number. */
  lemma ZeroMinEnforced(p: DeclaredProperty, fields: seq<(string, Json)>, matches: Matcher, n: int)
    requires p.kind == "number" && Lookup(fields, p.name) == Some(JNum(n)) && n < 0
    requires p.rules.JObj? && Field(p.rules, "min") == Some(JNum(0))
    ensures CheckProperty(p, fields, matches).Errors? ==> BelowMin(p.name, JNum(0)) in CheckProperty(p, fields, matches).list
  {
    assert HasKey(fields, p.name);
    assert TypeCheck(p.kind, JNum(n)) == Some(true);
    var numbers := NumberRules(p.name, p.rules, Some(JNum(n)));
    assert BelowMin(p.name, JNum(0)) in numbers;
  }

  /** A falsy `maxLength` (absent, null, 0 or "") turns the length check off:
      no length error and no throw from it, whatever the value. */
  lemma FalsyMaxLengthDisabled(name: string, rules: Json, value: Option<Json>, matches: Matcher)
    requires !Truthy(Field(rules, "maxLength"))
    ensures StringRules(name, rules, value, matches).Errors?
    ensures TooLong(name) !in StringRules(name, rules, value, matches).list
  {
  }

  /** A truthy numeric `maxLength` rejects exactly the strings longer in
      UTF-16 code units. */
  lemma MaxLengthEnforced(name: string, rules: Json, s: string, matches: Matcher, m: int)
    requires Field(rules, "maxLength") == Some(JNum(m)) && m != 0
    ensures StringRules(name, rules, Some(JStr(s)), matches).Errors?
    ensures TooLong(name) in StringRules(name, rules, Some(JStr(s)), matches).list <==> Utf16Length(s) > m
  {
  }

  /** The pattern is tested only when truthy, and then reports exactly the
      values the regular expression rejects; a string value never makes the
      length check throw, so both checks run on it. */
  lemma PatternChecked(name: string, rules: Json, value: Option<Json>, matches: Matcher)
    requires !Truthy(Field(rules, "maxLength")) || (value.Some? && value.value.JStr?)
    ensures StringRules(name, rules, value, matches).Errors?
    ensures PatternMismatch(name) in StringRules(name, rules, value, matches).list
        <==> Truthy(Field(rules, "pattern")) && !matches(JsString(Field(rules, "pattern").value), StringOf(value))
    ensures value.Some? && value.value.JStr? ==>
      var maxLength := Field(rules, "maxLength");
      (TooLong(name) in StringRules(name, rules, value, matches).list <==>
         Truthy(maxLength) && Less(ToNumber(maxLength), Some(Utf16Length(value.value.s))))
  {
  }

  /** A character outside the Basic Multilingual Plane counts twice against
      `maxLength`: a single emoji exceeds a `maxLength` of 1. */
  lemma MaxLengthCountsCodeUnits(name: string, matches: Matcher)
    ensures var rules := JObj([("maxLength", JNum(1))]);
      StringRules(name, rules, Some(JStr("\U{1F600}")), matches) == Errors([TooLong(name)])
  {
    var rules := JObj([("maxLength", JNum(1))]);
    assert Field(rules, "maxLength") == Some(JNum(1));
    assert Field(rules, "pattern") == None;
    assert Utf16Length("\U{1F600}") == 2 by {
      assert "\U{1F600}"[..0] == [];
    }
  }

  /** An array `enum` is checked whatever the declared type: the property is
      reported exactly when no option is the same value. */
  lemma EnumAnyKind(name: string, kind: string, rules: Json, value: Option<Json>, matches: Matcher, items: seq<Json>)
    requires Field(rules, "enum") == Some(JArr(items))
    ensures RuleViolations(name, kind, rules, value, matches).Errors? ==>
      ((NotInEnum(name, items) in RuleViolations(name, kind, rules, value, matches).list)
         <==> !exists i :: 0 <= i < |items| && SameValueZero(items[i], value))
  {
    var numbers := if kind == "number" then NumberRules(name, rules, value) else [];
    var strings := if kind == "string" then StringRules(name, rules, value, matches) else Errors([]);
    var e := EnumRule(name, rules, value);
    ThenMember(strings, e, NotInEnum(name, items));
    ThenMember(Errors(numbers), Then(strings, e), NotInEnum(name, items));
  }

  // ---------------------------------------------------------------------
  // How the handler actually treats null and absent values
  // ---------------------------------------------------------------------

  /** A null number is compared as 0, so it fails a positive `min`. */
  lemma NullComparedAsZero(matches: Matcher)
    ensures CheckProperty(DeclaredProperty("qty", "number", false, JObj([("min", JNum(1))])), [("qty", JNull)], matches)
         == Errors([BelowMin("qty", JNum(1))])
  {
    var fields := [("qty", JNull)];
    assert fields[0].0 == "qty";
    assert HasKey(fields, "qty");
    assert Lookup(fields, "qty") == Some(JNull);
    var rules := JObj([("min", JNum(1))]);
    assert Field(rules, "min") == Some(JNum(1));
    assert Field(rules, "max") == None;
    assert Field(rules, "enum") == None;
    assert NumberRules("qty", rules, Some(JNull)) == [BelowMin("qty", JNum(1))];
  }

  /** An absent optional property still meets an array `enum`, and undefined
      is never among the options. */
  lemma AbsentOptionalFailsEnum(matches: Matcher)
    ensures CheckProperty(DeclaredProperty("plan", "string", false, JObj([("enum", JArr([JStr("free")]))])), [], matches)
         == Errors([NotInEnum("plan", [JStr("free")])])
  {
    var rules := JObj([("enum", JArr([JStr("free")]))]);
    assert Field(rules, "maxLength") == None;
    assert Field(rules, "pattern") == None;
  }

  /** An absent optional string property with a `maxLength` makes the handler
      read `undefined.length`, which throws. */
  lemma AbsentOptionalMaxLengthThrows(matches: Matcher)
    ensures CheckProperty(DeclaredProperty("title", "string", false, JObj([("maxLength", JNum(3))])), [], matches) == Thrown
  {
    var rules := JObj([("maxLength", JNum(3))]);
    assert Field(rules, "maxLength") == Some(JNum(3));
  }

  // ---------------------------------------------------------------------
  // The declared properties together
  // ---------------------------------------------------------------------

  /** The per-property errors never include the unexpected-keys error, and
      each names a declared property. */
  lemma {:induction false} DeclaredViolationsOwned(props: seq<DeclaredProperty>, fields: seq<(string, Json)>, matches: Matcher)
    ensures DeclaredViolations(props, fields, matches).Errors? ==>
      forall v :: v in DeclaredViolations(props, fields, matches).list ==>
        !v.Unexpected? && exists i :: 0 <= i < |props| && props[i].name == v.name
  {
    if props != [] {
      var n := |props|;
      var init := props[..n - 1];
      DeclaredViolationsOwned(init, fields, matches);
      var a := DeclaredViolations(init, fields, matches);
      var c := CheckProperty(props[n - 1], fields, matches);
      if a.Errors? && c.Errors? {
        forall v | v in a.list + c.list
          ensures !v.Unexpected? && exists i :: 0 <= i < n && props[i].name == v.name
        {
          if v in a.list {
            var i :| 0 <= i < n - 1 && init[i].name == v.name;
            assert props[i] == init[i];
          } else {
            assert props[n - 1].name == v.name;
          }
        }
      }
    }
  }

  /** Errors appear in declared-property order: the errors of a prefix of the
      declared properties are a prefix of all errors, and a throw among the
      first properties ends the whole check. */
  lemma DeclaredOrder(props: seq<DeclaredProperty>, k: nat, fields: seq<(string, Json)>, matches: Matcher)
    requires k <= |props|
    ensures DeclaredViolations(props[..k], fields, matches).Thrown? ==> DeclaredViolations(props, fields, matches).Thrown?
    ensures DeclaredViolations(props, fields, matches).Errors? ==>
      DeclaredViolations(props[..k], fields, matches).Errors?
      && DeclaredViolations(props[..k], fields, matches).list <= DeclaredViolations(props, fields, matches).list
  {
    DeclaredViolationsSplit(props, k, fields, matches);
  }

  /** Every required key absent from the payload is reported missing. */
  lemma MissingReported(props: seq<DeclaredProperty>, k: nat, fields: seq<(string, Json)>, matches: Matcher)
    requires k < |props| && props[k].required && !HasKey(fields, props[k].name)
    ensures DeclaredViolations(props, fields, matches).Errors? ==>
      Missing(props[k].name) in DeclaredViolations(props, fields, matches).list
  {
    DeclaredViolationsSplit(props, k + 1, fields, matches);
    DeclaredViolationsStep(props, k, fields, matches);
  }

  // ---------------------------------------------------------------------
  // Undeclared keys
  // ---------------------------------------------------------------------

  /** The unknown keys are exactly the payload keys outside the declared
      names, kept in payload order. */
  lemma {:induction false} UnknownKeysExact(keys: seq<string>, known: seq<string>)
    ensures forall k :: k in UnknownKeys(keys, known) <==> k in keys && k !in known
    ensures |UnknownKeys(keys, known)| <= |keys|
    ensures (forall i :: 0 <= i < |keys| ==> keys[i] !in known) ==> UnknownKeys(keys, known) == keys
  {
    if keys != [] {
      var init, last := keys[..|keys| - 1], keys[|keys| - 1];
      UnknownKeysExact(init, known);
      assert keys == init + [last];
      var tail := if last in known then [] else [last];
      assert UnknownKeys(keys, known) == UnknownKeys(init, known) + tail;
      forall k ensures k in UnknownKeys(keys, known) <==> k in keys && k !in known {
        assert k in keys <==> k in init || k == last;
      }
      if forall i :: 0 <= i < |keys| ==> keys[i] !in known {
        assert forall i :: 0 <= i < |init| ==> init[i] == keys[i];
      }
    }
  }

  /** When extra keys are not allowed, one error lists every undeclared key
      after all per-property errors; when they are allowed there is no such
      error. */
  lemma UnexpectedLast(schema: EventSchema, fields: seq<(string, Json)>, matches: Matcher)
    ensures Validate(schema, fields, matches).Errors? ==>
      var all := Validate(schema, fields, matches).list;
      var declared := DeclaredViolations(schema.properties, fields, matches).list;
      var unknown := UnknownKeys(Keys(fields), Names(schema.properties));
      && declared <= all
      && (if !schema.additionalProperties && unknown != []
          then all == declared + [Unexpected(unknown)]
          else all == declared)
      && forall v :: v in all && v.Unexpected? ==> v == all[|all| - 1]
  {
    DeclaredViolationsOwned(schema.properties, fields, matches);
  }

  /** A payload key is among the unknown keys exactly when no declared
      property has its name. */
  lemma KeyUnknownIff(props: seq<DeclaredProperty>, fields: seq<(string, Json)>, key: string)
    requires HasKey(fields, key)
    ensures key in UnknownKeys(Keys(fields), Names(props))
        <==> forall i :: 0 <= i < |props| ==> props[i].name != key
  {
    var names := Names(props);
    var keys := Keys(fields);
    UnknownKeysExact(keys, names);
    var i :| 0 <= i < |fields| && fields[i].0 == key;
    assert keys[i] == key;
    if key in names {
      var j :| 0 <= j < |names| && names[j] == key;
      assert props[j].name == key;
    }
  }

  /** A payload key is reported unexpected exactly when extra keys are not
      allowed and no declared property has that name. */
  lemma UnexpectedKeyReported(schema: EventSchema, fields: seq<(string, Json)>, matches: Matcher, key: string)
    requires HasKey(fields, key)
    ensures Validate(schema, fields, matches).Errors? ==>
      ((exists v :: v in Validate(schema, fields, matches).list && v.Unexpected? && key in v.keys)
         <==> !schema.additionalProperties && forall i :: 0 <= i < |schema.properties| ==> schema.properties[i].name != key)
  {
    var r := Validate(schema, fields, matches);
    if r.Errors? {
      var unknown := UnknownKeys(Keys(fields), Names(schema.properties));
      var declared := DeclaredViolations(schema.properties, fields, matches).list;
      var tail := UnexpectedCheck(schema, fields);
      assert r.list == declared + tail;
      KeyUnknownIff(schema.properties, fields, key);
      DeclaredViolationsOwned(schema.properties, fields, matches);
      if !schema.additionalProperties && key in unknown {
        assert Unexpected(unknown) in r.list;
      }
      forall v | v in r.list && v.Unexpected? && key in v.keys
        ensures !schema.additionalProperties && key in unknown
      {
        assert v !in declared;
        assert v in tail;
      }
    }
  }

  // ---------------------------------------------------------------------
  // The endpoint
  // ---------------------------------------------------------------------

  /** The event is chosen by name alone: the first event of the plan with
      that name decides the reply. */
  lemma EventChosenByName(plan: seq<EventSchema>, eventName: string, payload: Json, matches: Matcher, k: nat)
    requires eventName != "" && IsObjectType(payload)
    requires k < |plan| && plan[k].name == eventName && forall j :: 0 <= j < k ==> plan[j].name != eventName
    ensures ValidationReply(Some(plan), eventName, Some(payload), matches) == Verdict(CheckPayload(plan[k], payload, matches))
  {
    var r := FindEvent(plan, eventName);
    assert r.Some? ==> r.value == k;
  }

  /** A plan without an event of that name answers 404. */
  lemma EventMissingNotFound(plan: seq<EventSchema>, eventName: string, payload: Json, matches: Matcher)
    requires eventName != "" && IsObjectType(payload)
    requires forall j :: 0 <= j < |plan| ==> plan[j].name != eventName
    ensures ValidationReply(Some(plan), eventName, Some(payload), matches) == NotFound(EventNotFoundMessage)
  {
  }

  /** The verdict is valid exactly when no error was collected; otherwise the
      reply carries every error message, in order. */
  lemma VerdictValidIff(plan: seq<EventSchema>, eventName: string, payload: Json, matches: Matcher, i: nat)
    requires eventName != "" && IsObjectType(payload)
    requires FindEvent(plan, eventName) == Some(i)
    ensures ValidationReply(Some(plan), eventName, Some(payload), matches) == Valid
        <==> CheckPayload(plan[i], payload, matches) == Errors([])
    ensures ValidationReply(Some(plan), eventName, Some(payload), matches).Invalid? <==>
        CheckPayload(plan[i], payload, matches).Errors? && CheckPayload(plan[i], payload, matches).list != []
    ensures ValidationReply(Some(plan), eventName, Some(payload), matches).Invalid? ==>
        var list := CheckPayload(plan[i], payload, matches).list;
        var errs := ValidationReply(Some(plan), eventName, Some(payload), matches).errors;
        |errs| == |list| && forall j :: 0 <= j < |list| ==> errs[j] == Message(list[j])
  {
  }

  /** Requests without an event name or an object payload are rejected
      before the plan is read. */
  lemma BadRequestFirst(plan: Option<seq<EventSchema>>, eventName: string, payload: Option<Json>, matches: Matcher)
    ensures ValidationReply(plan, eventName, payload, matches).BadRequest?
        <==> eventName == "" || payload.None? || !IsObjectType(payload.value)
  {
  }
}
