/**
 * Parsed JSON values and the few JavaScript operations the validation
 * handler applies to them: truthiness, loose comparison with null, numeric
 * coercion for `<` and `>`, `String(v)`, `Array.prototype.includes`,
 * `String.prototype.includes`, and property access on a parsed object.
 * JavaScript numbers are modelled as integers.
 */
module JsValues {
  import opened Wrappers

  /** A value as the JSON body parser produces it; an object is its
      key/value pairs in the order Object.keys lists them. */
  datatype Json =
    | JNull
    | JBool(b: bool)
    | JNum(n: int)
    | JStr(s: string)
    | JArr(items: seq<Json>)
    | JObj(fields: seq<(string, Json)>)

  /** Truthiness; None stands for `undefined`. */
  predicate Truthy(v: Option<Json>) {
    match v
    case None => false
    case Some(JNull) => false
    case Some(JBool(b)) => b
    case Some(JNum(n)) => n != 0
    case Some(JStr(s)) => s != ""
    case Some(_) => true
  }

  /** `v != null`: neither undefined nor null. */
  predicate NotNullish(v: Option<Json>) {
    v.Some? && v.value != JNull
  }

  /** `typeof v === "object"`, which holds of null and of arrays too. */
  predicate IsObjectType(v: Json) {
    v.JNull? || v.JArr? || v.JObj?
  }

  /** The number a relational operator compares, None standing for NaN.
      Strings, arrays and objects are taken as NaN here. */
  function ToNumber(v: Option<Json>): Option<int> {
    match v
    case None => None
    case Some(JNull) => Some(0)
    case Some(JBool(b)) => Some(if b then 1 else 0)
    case Some(JNum(n)) => Some(n)
    case Some(_) => None
  }

  /** `a < b` after numeric coercion: false as soon as either side is NaN. */
  predicate Less(a: Option<int>, b: Option<int>) {
    a.Some? && b.Some? && a.value < b.value
  }

  function DigitChar(d: nat): char
    requires d < 10
  {
    "0123456789"[d]
  }

  function NatToString(n: nat): string {
    if n < 10 then [DigitChar(n)] else NatToString(n / 10) + [DigitChar(n % 10)]
  }

  function IntToString(n: int): string {
    if n < 0 then "-" + NatToString(-n) else NatToString(n)
  }

  /** parts joined with sep between neighbours (`Array.prototype.join`). */
  function Join(parts: seq<string>, sep: string): string {
    if parts == [] then ""
    else if |parts| == 1 then parts[0]
    else Join(parts[..|parts| - 1], sep) + sep + parts[|parts| - 1]
  }

  /** `String(v)`, as template literals and `join` render a value. */
  function JsString(v: Json): string {
    match v
    case JNull => "null"
    case JBool(b) => if b then "true" else "false"
    case JNum(n) => IntToString(n)
    case JStr(s) => s
    case JArr(items) => JoinValues(items, ",")
    case JObj(_) => "[object Object]"
  }

  /** `items.join(sep)`: null elements render as the empty string. */
  function JoinValues(items: seq<Json>, sep: string): string {
    Join(seq(|items|, i requires 0 <= i < |items| => if items[i] == JNull then "" else JsString(items[i])), sep)
  }

  /** `s.length`: the number of UTF-16 code units, two for every character
      outside the Basic Multilingual Plane. */
  function Utf16Length(s: string): (r: nat)
    ensures |s| <= r <= 2 * |s|
    ensures (forall i :: 0 <= i < |s| ==> s[i] as int <= 0xFFFF) <==> r == |s|
  {
    if s == [] then 0
    else
      var init := s[..|s| - 1];
      var r := Utf16Length(init) + (if s[|s| - 1] as int > 0xFFFF then 2 else 1);
      assert (forall i :: 0 <= i < |s| ==> s[i] as int <= 0xFFFF)
         <==> (forall i :: 0 <= i < |init| ==> init[i] as int <= 0xFFFF) && s[|s| - 1] as int <= 0xFFFF by {
        forall i | 0 <= i < |init| ensures init[i] == s[i] { }
      }
      r
  }

  /** `String(v)` where v may be undefined. */
  function StringOf(v: Option<Json>): string {
    match v
    case None => "undefined"
    case Some(x) => JsString(x)
  }

  /** The SameValueZero test `includes` uses: primitives by value; an array
      or object from the payload is never the same object as a stored one. */
  predicate SameValueZero(stored: Json, v: Option<Json>) {
    v.Some? && !stored.JArr? && !stored.JObj? && stored == v.value
  }

  /** `hay.includes(needle)` on strings. */
  predicate Contains(hay: string, needle: string) {
    needle <= hay || (hay != [] && Contains(hay[1..], needle))
  }

  /** `key in obj` on a parsed object. */
  predicate HasKey(fields: seq<(string, Json)>, key: string) {
    exists i :: 0 <= i < |fields| && fields[i].0 == key
  }

  /** `obj[key]`: the value stored under key, None (undefined) if absent. */
  function Lookup(fields: seq<(string, Json)>, key: string): (r: Option<Json>)
    ensures r.Some? <==> HasKey(fields, key)
    ensures r.Some? ==> exists i :: 0 <= i < |fields| && fields[i] == (key, r.value)
  {
    if fields == [] then None
    else if fields[0].0 == key then Some(fields[0].1)
    else
      var r := Lookup(fields[1..], key);
      assert HasKey(fields, key) ==> HasKey(fields[1..], key) by {
        if HasKey(fields, key) {
          var i :| 0 <= i < |fields| && fields[i].0 == key;
          assert fields[1..][i - 1].0 == key;
        }
      }
      assert r.Some? ==> exists i :: 0 <= i < |fields| && fields[i] == (key, r.value) by {
        if r.Some? {
          var i :| 0 <= i < |fields[1..]| && fields[1..][i] == (key, r.value);
          assert fields[i + 1] == (key, r.value);
        }
      }
      r
  }

  /** `Object.keys(obj)`. */
  function Keys(fields: seq<(string, Json)>): (r: seq<string>)
    ensures |r| == |fields| && forall i :: 0 <= i < |fields| ==> r[i] == fields[i].0
  {
    seq(|fields|, i requires 0 <= i < |fields| => fields[i].0)
  }

  /** Property access `obj.key` on a stored JSON value: only an object has
      the keys the rules use; on any other value the access is undefined. */
  function Field(v: Json, key: string): Option<Json> {
    if v.JObj? then Lookup(v.fields, key) else None
  }

  /** An array seen as an object: its elements under the keys "0", "1", ... */
  function IndexFields(items: seq<Json>): seq<(string, Json)> {
    seq(|items|, i requires 0 <= i < |items| => (NatToString(i), items[i]))
  }
}
