/**
 * The JavaScript values that reach the avatar module: request payloads arrive
 * as JSON-like objects from the application socket, and attribute values of
 * stanza elements are plain JavaScript values as well.
 */
module JsValues {
  import opened Wrappers

  /** A JavaScript value. Numbers are modelled as integers (NaN and fractions are not modelled). */
  datatype JsValue =
    | Undefined
    | Null
    | Bool(b: bool)
    | Num(n: int)
    | Str(s: string)
    | Arr(elems: seq<JsValue>)
    | Obj(props: map<string, JsValue>)
    | Func(handle: nat)

  /** JavaScript truthiness: what `!v` negates. `undefined`, `null`, `false`, `0` and `""` are falsy. */
  predicate Truthy(v: JsValue)
  {
    match v
    case Undefined => false
    case Null => false
    case Bool(b) => b
    case Num(n) => n != 0
    case Str(s) => s != ""
    case _ => true
  }

  /** `null == v` under loose equality: only `null` and `undefined`. */
  predicate Nullish(v: JsValue)
  {
    v.Undefined? || v.Null?
  }

  /** Reading `bag[key]` from an object's own properties; a missing key reads as `undefined`. */
  function Get(bag: map<string, JsValue>, key: string): JsValue
  {
    if key in bag then bag[key] else Undefined
  }

  /**
   * Reading `v.key` from any value: None is the TypeError JavaScript throws when
   * `v` is `null` or `undefined`; values other than objects have none of the
   * properties this module reads.
   */
  function Member(v: JsValue, key: string): Option<JsValue>
  {
    match v
    case Undefined => None
    case Null => None
    case Obj(props) => Some(Get(props, key))
    case _ => Some(Undefined)
  }
}
