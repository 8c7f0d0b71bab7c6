/**
 JavaScript values as the adapter observes them: configuration fields, cell
 values, bound parameter values and resolved scalars. Numbers are modelled as
 integers; floating point (and NaN) is not part of this model.
 */
module JsValues {

  /** An optional value: `None` stands for a field or argument that is absent. */
  datatype Option<+T> = None | Some(value: T)

  datatype JsValue =
    | Undefined
    | Null
    | Bool(b: bool)
    | Num(n: int)
    | Str(s: string)
    | Obj(fields: map<string, JsValue>)

  /** JavaScript truthiness, as tested by `if (v)` and `a && b`. */
  predicate Truthy(v: JsValue) {
    match v
    case Undefined => false
    case Null => false
    case Bool(b) => b
    case Num(n) => n != 0
    case Str(s) => s != ""
    case Obj(_) => true
  }

  /** `v == undefined` under loose equality holds exactly for undefined and null. */
  predicate LooselyUndefined(v: JsValue) {
    v.Undefined? || v.Null?
  }

  /** Reading a property of an object: a missing key reads as undefined. */
  function Property(o: map<string, JsValue>, key: string): JsValue {
    if key in o then o[key] else Undefined
  }

  /** An `Error` object; the adapter only ever reads its `message`. */
  datatype Error = Error(message: string)
}
