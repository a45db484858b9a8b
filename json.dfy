/** Values of the decoded model response and of the accumulated result
    dictionary, with Python's notion of truthiness. */
module Json {

  /** A decoded JSON value. Numbers are represented by an integer stand-in
      (only whether they are zero matters to the code); arrays and objects
      only by their size, since the code never looks inside them. */
  datatype Value =
    | Null
    | Bool(b: bool)
    | Num(n: int)
    | Str(s: string)
    | Container(size: nat)

  /** The dictionary the parser accumulates across model round trips. */
  type Record = map<string, Value>

  /** Python's `bool(v)`: None, False, 0, "" and empty containers are falsy. */
  predicate Truthy(v: Value) {
    match v
    case Null => false
    case Bool(b) => b
    case Num(n) => n != 0
    case Str(s) => s != ""
    case Container(size) => size != 0
  }

  /** `not d.get(key)`: true when the key is absent or its value is falsy. */
  predicate Falsy(d: Record, key: string) {
    key !in d || !Truthy(d[key])
  }

  /** `d.get(key)` as it ends up in a JSON payload: an absent key gives null. */
  function GetOrNull(d: Record, key: string): (v: Value)
    ensures key in d ==> v == d[key]
    ensures key !in d ==> v == Null
  {
    if key in d then d[key] else Null
  }
}
