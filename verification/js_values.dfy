/** The JavaScript values the browser client reads from the JSON the API
    sends, with the three rules its controllers lean on: truthiness (`!!v`,
    `a && b`), property reads that answer `undefined` for a missing key, and
    the loose equality `==`.  Numbers and arrays do not occur in the fields
    the client tests and are left out. */
module JsValues {
  import opened GoStrings

  /** A JavaScript value; an object carries its identity `ref` (what `==`
      compares) and its own properties. */
  datatype JsValue =
    | Undefined
    | Null
    | Bool(b: bool)
    | Str(s: String)
    | Obj(ref: int, fields: Object)

  /** A decoded JSON object: its properties by name. */
  type Object = map<String, JsValue>

  /** `!!v`: everything is truthy except `undefined`, `null`, `false` and the
      empty string. */
  predicate Truthy(v: JsValue) {
    match v
    case Undefined => false
    case Null => false
    case Bool(b) => b
    case Str(s) => |s| > 0
    case Obj(_, _) => true
  }

  /** `o.name` on an object: the property, or `undefined` when it has none. */
  function Get(o: Object, name: String): (v: JsValue)
    ensures name in o ==> v == o[name]
    ensures name !in o ==> v == Undefined
  {
    if name in o then o[name] else Undefined
  }

  /** `v.name` on any value but `undefined` and `null` (reading a property of
      those throws): an object's property, and `undefined` for the named
      fields the client reads from a boolean or a string. */
  function Field(v: JsValue, name: String): (r: JsValue)
    requires !v.Undefined? && !v.Null?
    ensures v.Obj? ==> r == Get(v.fields, name)
    ensures !v.Obj? ==> r == Undefined
  {
    if v.Obj? then Get(v.fields, name) else Undefined
  }

  /** `String(v)`, which is also how a value used as a property name is
      turned into a key. */
  function ToString(v: JsValue): (r: String)
    ensures v.Str? ==> r == v.s
    ensures v.Undefined? ==> r == "undefined"
  {
    match v
    case Undefined => "undefined"
    case Null => "null"
    case Bool(b) => if b then "true" else "false"
    case Str(s) => s
    case Obj(_, _) => "[object Object]"
  }

  /** `a === b`: the same kind and the same value, objects by identity. */
  predicate StrictEquals(a: JsValue, b: JsValue) {
    match (a, b)
    case (Undefined, Undefined) => true
    case (Null, Null) => true
    case (Bool(x), Bool(y)) => x == y
    case (Str(x), Str(y)) => x == y
    case (Obj(x, _), Obj(y, _)) => x == y
    case _ => false
  }

  /** The pairs `==` is modelled on: a boolean against a string goes through
      numeric conversion of the string, which this model does not carry. */
  predicate Comparable(a: JsValue, b: JsValue) {
    !(a.Bool? && b.Str?) && !(a.Str? && b.Bool?)
  }

  /** `a == b`: `undefined` and `null` equal each other and nothing else, an
      object against a string compares the object's text "[object Object]",
      a boolean never equals an object, and otherwise as `===`. */
  function LooseEquals(a: JsValue, b: JsValue): (r: bool)
    requires Comparable(a, b)
    ensures StrictEquals(a, b) ==> r
    ensures (a.Undefined? || a.Null?) ==> (r <==> (b.Undefined? || b.Null?))
    ensures a.Str? && b.Str? ==> (r <==> a.s == b.s)
  {
    match (a, b)
    case (Undefined, _) => b.Undefined? || b.Null?
    case (Null, _) => b.Undefined? || b.Null?
    case (_, Undefined) => false
    case (_, Null) => false
    case (Obj(_, _), Str(t)) => t == "[object Object]"
    case (Str(s), Obj(_, _)) => s == "[object Object]"
    case _ => StrictEquals(a, b)
  }

  /** `==` is symmetric, and a defined value equals `undefined` only when it
      is `null`. */
  lemma LooseEqualsLaws(a: JsValue, b: JsValue)
    requires Comparable(a, b)
    ensures LooseEquals(a, b) == LooseEquals(b, a)
    ensures LooseEquals(a, a)
    ensures LooseEquals(a, Undefined) <==> (a.Undefined? || a.Null?)
    ensures a.Obj? && b.Str? ==> (LooseEquals(a, b) <==> b.s == "[object Object]")
  {
  }
}
