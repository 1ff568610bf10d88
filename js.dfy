/**
 * The JavaScript values the site passes around: parsed JSON request bodies,
 * stored records and the objects the pages read fields from.
 * `Undefined` is what reading an absent property yields.
 * Numbers are modelled as integers.
 */
module Js {

  datatype Value =
    | Undefined
    | Null
    | Bool(b: bool)
    | Num(n: int)
    | Str(s: string)
    | Arr(items: seq<Value>)
    | Obj(fields: map<string, Value>)

  /** A plain object: a map from field name to value. */
  type Record = map<string, Value>

  /** `r[key]`: the field's value, or `undefined` when the key is absent. */
  function Get(r: Record, key: string): Value
  {
    if key in r then r[key] else Undefined
  }

  /** `v.key` on any value: only objects have named properties here. */
  function Prop(v: Value, key: string): Value
  {
    if v.Obj? then Get(v.fields, key) else Undefined
  }

  /** JavaScript truthiness: `undefined`, `null`, `false`, `0` and `""` are falsy. */
  predicate Truthy(v: Value)
  {
    match v
    case Undefined => false
    case Null => false
    case Bool(b) => b
    case Num(n) => n != 0
    case Str(s) => s != ""
    case Arr(_) => true
    case Obj(_) => true
  }

  /** `a || b`: the left operand when it is truthy, otherwise the right one. */
  function Or(a: Value, b: Value): Value
  {
    if Truthy(a) then a else b
  }

  /**
   * The object spread `{...a, ...b}`: every key of `b` takes `b`'s value, every
   * other key of `a` keeps `a`'s value; nested objects are replaced whole.
   */
  function Spread(a: Record, b: Record): (r: Record)
    ensures r.Keys == a.Keys + b.Keys
    ensures forall k :: k in b ==> r[k] == b[k]
    ensures forall k :: k in a && k !in b ==> r[k] == a[k]
  {
    a + b
  }

  /** The spread `{...v}` of a value: an object's own fields; `null` and `undefined` spread to nothing. */
  function FieldsOf(v: Value): Record
  {
    if v.Obj? then v.fields else map[]
  }
}
