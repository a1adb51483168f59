/**
 * `createProperty`: check the property type, then reuse the Property of
 * the same (name, type) when its description is the same and reject it when
 * the description differs; only for a new property are the validation rules
 * checked to be an object, and the property created with them.
 */
module PropertyController {
  import opened Wrappers
  import opened JsValues
  import opened Tables
  import opened EntityStore

  /** The property types accepted, as the API documents them. */
  const ValidPropertyTypes: seq<string> := ["string", "number", "boolean"]

  /** The reply of the endpoint. */
  datatype PropertyReply =
    | PropertyCreated(row: PropertyRow)   // 201 with the new property
    | PropertyReused(row: PropertyRow)    // 200 with the existing property
    | InvalidPropertyType                 // 400
    | PropertyExists                      // 409
    | InvalidRules                        // 400

  /** The `message` of an error reply; the success replies carry the record instead. */
  function PropertyReplyMessage(r: PropertyReply, name: string, kind: string): Option<string> {
    match r
    case InvalidPropertyType => Some("Invalid property type.")
    case PropertyExists => Some("Property '" + name + "' of type '" + kind + "' already exists with a different description.")
    case InvalidRules => Some("`validationRules` must be a JSON object.")
    case _ => None
  }

  /** `validationRules && typeof validationRules !== "object"`: a truthy
      string, number or boolean (null and arrays pass). */
  predicate BadRules(rules: Option<Json>) {
    Truthy(rules) && !IsObjectType(rules.value)
  }

  /** The property table afterwards, and the reply. */
  function CreatePropertyResult(props: PropertyTable, name: string, kind: string, description: string, rules: Option<Json>)
    : (PropertyTable, PropertyReply)
  {
    var k := Identity(name, kind);
    if kind !in ValidPropertyTypes then (props, InvalidPropertyType)
    else if Has(props, k) then
      var row := props.rows[IndexOf(props.rows, k).value];
      if row.val != description then (props, PropertyExists) else (props, PropertyReused(row))
    else if BadRules(rules) then (props, InvalidRules)
    else (Insert(props, k, rules, description), PropertyCreated(Row(props.nextId, k, rules, description)))
  }

  /** A type outside the list is rejected before any lookup. */
  lemma InvalidTypeRejected(props: PropertyTable, name: string, kind: string, description: string, rules: Option<Json>)
    requires kind !in {"string", "number", "boolean"}
    ensures CreatePropertyResult(props, name, kind, description, rules) == (props, InvalidPropertyType)
    ensures PropertyReplyMessage(CreatePropertyResult(props, name, kind, description, rules).1, name, kind)
         == Some("Invalid property type.")
  {
  }

  /** An existing property of the same identity is answered without looking
      at the validation rules: the reply and the table are the same whatever
      rules the request carries, and the table is unchanged. */
  lemma ExistingIgnoresRules(props: PropertyTable, name: string, kind: string, description: string, r1: Option<Json>, r2: Option<Json>)
    requires Has(props, Identity(name, kind))
    ensures CreatePropertyResult(props, name, kind, description, r1) == CreatePropertyResult(props, name, kind, description, r2)
    ensures CreatePropertyResult(props, name, kind, description, r1).0 == props
    ensures kind in ValidPropertyTypes ==>
      var row := props.rows[IndexOf(props.rows, Identity(name, kind)).value];
      CreatePropertyResult(props, name, kind, description, r1).1
        == if row.val != description then PropertyExists else PropertyReused(row)
    ensures CreatePropertyResult(props, name, kind, description, r1).1 == PropertyExists ==>
      PropertyReplyMessage(CreatePropertyResult(props, name, kind, description, r1).1, name, kind)
        == Some("Property '" + name + "' of type '" + kind + "' already exists with a different description.")
  {
  }

  /** Truthy rules that are not an object reject a new property, and
      nothing is created. */
  lemma BadRulesRejected(props: PropertyTable, name: string, kind: string, description: string, rules: Option<Json>)
    requires kind in ValidPropertyTypes && !Has(props, Identity(name, kind))
    ensures CreatePropertyResult(props, name, kind, description, rules).1 == InvalidRules
        <==> rules.Some? && (rules.value.JBool? || rules.value.JNum? || rules.value.JStr?) && Truthy(rules)
    ensures CreatePropertyResult(props, name, kind, description, rules).1 == InvalidRules
        ==> CreatePropertyResult(props, name, kind, description, rules).0 == props
    ensures CreatePropertyResult(props, name, kind, description, rules).1 == InvalidRules
        ==> PropertyReplyMessage(CreatePropertyResult(props, name, kind, description, rules).1, name, kind) == Some("`validationRules` must be a JSON object.")
  {
  }

  /** The table either stays as it is or gains exactly one record at its
      end, carrying the next id and the requested name, type, description
      and rules. */
  lemma CreateAppendsOne(props: PropertyTable, name: string, kind: string, description: string, rules: Option<Json>)
    ensures var (t, reply) := CreatePropertyResult(props, name, kind, description, rules);
      && (reply.PropertyCreated? <==> kind in ValidPropertyTypes && !Has(props, Identity(name, kind)) && !BadRules(rules))
      && (reply.PropertyCreated? ==>
            t.rows == props.rows + [reply.row]
            && reply.row == Row(props.nextId, Identity(name, kind), rules, description))
      && (!reply.PropertyCreated? ==> t == props)
  {
  }

  /** The call never leaves two properties of one (name, type); after a
      successful call exactly one has the requested identity, with the
      requested description. */
  lemma NeverDuplicates(props: PropertyTable, name: string, kind: string, description: string, rules: Option<Json>)
    requires UniqueKeys(props) && FreshIds(props)
    ensures var (t, reply) := CreatePropertyResult(props, name, kind, description, rules);
      && UniqueKeys(t) && FreshIds(t)
      && ((reply.PropertyCreated? || reply.PropertyReused?) ==>
            ExactlyOne(t, Identity(name, kind))
            && t.rows[IndexOf(t.rows, Identity(name, kind)).value].val == description
            && IdOf(t, Identity(name, kind)) == reply.row.id)
  {
    var k := Identity(name, kind);
    if kind in ValidPropertyTypes {
      if Has(props, k) {
        UniqueExactlyOne(props, k);
      } else if !BadRules(rules) {
        InsertUnique(props, k, rules, description);
        InsertFresh(props, k, rules, description);
      }
    }
  }

  /** `createProperty` with body `{ name, type, description, validationRules }`. */
  method CreateProperty(store: Store, name: string, kind: string, description: string, rules: Option<Json>)
    returns (reply: PropertyReply)
    requires store.Valid()
    modifies store
    ensures store.Valid()
    ensures var (t, r) := CreatePropertyResult(old(store.properties), name, kind, description, rules);
      store.Snapshot() == old(store.Snapshot()).(properties := t) && reply == r
  {
    if kind !in ValidPropertyTypes {
      return InvalidPropertyType;
    }
    var existing := store.FindProperty(Identity(name, kind));
    if existing.Some? {
      if existing.value.val != description {
        return PropertyExists;
      }
      return PropertyReused(existing.value);
    }
    if Truthy(rules) && !IsObjectType(rules.value) {
      return InvalidRules;
    }
    var row := store.CreateProperty(Identity(name, kind), rules, description);
    return PropertyCreated(row);
  }
}
