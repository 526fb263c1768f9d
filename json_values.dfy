/** Option, for Python's "may be None" results and for the opaque
    coercions of pandas. */
module Wrappers {
  datatype Option<+T> = None | Some(value: T)
}

/** JSON values as Python's json module produces them: None, bools,
    numbers, strings, lists and dicts. Integers and floats share one
    numeric constructor (the pipeline never does arithmetic on them). */
module JsonValues {
  import opened Wrappers

  datatype Json =
    | JNull
    | JBool(b: bool)
    | JNum(n: real)
    | JStr(s: string)
    | JArr(items: seq<Json>)
    | JObj(fields: map<string, Json>)

  /** One line of a JSON-lines file, without its trailing newline. */
  type Line = string

  /** The empty dict `{}`, the default of every chained `.get`. */
  const EmptyObject: Json := JObj(map[])

  /** Python's `bool(v)`: None, False, zero, "" and empty containers are false. */
  predicate Truthy(v: Json)
  {
    match v
    case JNull => false
    case JBool(b) => b
    case JNum(n) => n != 0.0
    case JStr(s) => s != ""
    case JArr(items) => items != []
    case JObj(fields) => fields != map[]
  }

  /** Python's `v.get(key, default)`. Calling `.get` on anything but a dict
      raises AttributeError, which is the `None` outcome here. */
  function Get(v: Json, key: string, default: Json): Option<Json>
  {
    if !v.JObj? then None
    else if key in v.fields then Some(v.fields[key])
    else Some(default)
  }
}
