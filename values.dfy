/** Decoded JSON values as the Python code sees them, with Python's truthiness
    and Python's `in` operator for a string key. */
module Values {
  import opened Wrappers

  /** A value produced by `json.loads`. Numbers are integers; floats are not modelled. */
  datatype Json =
    | JNull
    | JBool(b: bool)
    | JInt(i: int)
    | JStr(s: string)
    | JArr(items: seq<Json>)
    | JObj(fields: map<string, Json>)

  /** Python's `bool(v)`: None, False, 0 and empty containers are false. */
  predicate Truthy(v: Json) {
    match v
    case JNull => false
    case JBool(b) => b
    case JInt(i) => i != 0
    case JStr(s) => s != ""
    case JArr(a) => a != []
    case JObj(f) => f != map[]
  }

  /** The values on which Python's `in` is defined: dict, list and str. */
  predicate Iterable(v: Json) {
    v.JObj? || v.JArr? || v.JStr?
  }

  /** `k` occurs as a contiguous substring of `s`. */
  predicate IsSubstring(k: string, s: string) {
    exists i :: 0 <= i <= |s| && k <= s[i..]
  }

  /** Python's `k in v` for a string `k`: key membership on a dict, element
      membership on a list, substring on a str, and a TypeError on a number,
      a bool or None. */
  function In(k: string, v: Json): (r: Outcome<bool>)
    ensures r.Raised? <==> !Iterable(v)
    ensures v.JObj? ==> r == Returned(k in v.fields)
  {
    match v
    case JObj(f) => Returned(k in f)
    case JArr(a) => Returned(JStr(k) in a)
    case JStr(s) => Returned(IsSubstring(k, s))
    case _ => Raised
  }

  /** Python's `all(k in v for k in keys)`: stops at the first key that is
      absent, and raises when testing a key raises. */
  function AllIn(keys: seq<string>, v: Json): (r: Outcome<bool>)
    ensures r.Raised? <==> keys != [] && !Iterable(v)
    ensures r == Returned(true) <==>
              !r.Raised? && forall i :: 0 <= i < |keys| ==> In(keys[i], v) == Returned(true)
    ensures v.JObj? ==> r == Returned(forall i :: 0 <= i < |keys| ==> keys[i] in v.fields)
  {
    if keys == [] then Returned(true)
    else match In(keys[0], v)
      case Raised => Raised
      case Returned(present) =>
        if present then AllIn(keys[1..], v) else Returned(false)
  }
}
