/**
 A JSON value as Python's `json` module hands it to the payload normaliser:
 `None`, booleans, numbers (ints and floats alike, as reals), strings, dicts
 and lists. Python's `None` and JSON `null` are the same value, `JNull`.
 The Python value semantics the normaliser relies on (truthiness, `== 0`,
 `dict.get`) are defined here once.
 */
module Json {

  datatype Option<+T> = None | Some(value: T)

  datatype JSON =
    | JNull
    | JBool(b: bool)
    | JNum(n: real)
    | JStr(s: string)
    | JObj(obj: map<string, JSON>)
    | JArr(arr: seq<JSON>)

  /** Python truthiness: `None`, `False`, `0`, `""`, `{}` and `[]` are false. */
  predicate Truthy(v: JSON)
  {
    match v
    case JNull => false
    case JBool(b) => b
    case JNum(n) => n != 0.0
    case JStr(s) => s != ""
    case JObj(m) => |m| > 0
    case JArr(a) => |a| > 0
  }

  /** Python `v == 0`: true for the numbers equal to zero and, since `False == 0`, for `False`. */
  predicate EqualsZero(v: JSON)
  {
    v == JNum(0.0) || v == JBool(false)
  }

  /** Python `d.get(k)` on a dict: the value under `k`, or `None` when `k` is absent. */
  function Get(m: map<string, JSON>, k: string): JSON
  {
    if k in m then m[k] else JNull
  }

  /** Python `a or b`: `a` when it is truthy, otherwise `b`. */
  function Or(a: JSON, b: JSON): JSON
  {
    if Truthy(a) then a else b
  }
}
