/**
  The application stores sessions as JSON documents and manipulates them as
  Python dictionaries.  `Json` is that value space; the predicates below are
  Python's `isinstance` tests and truthiness, on which the validators rely.
 */
module Records {
  import opened PyText

  datatype Json =
    | JNull
    | JBool(b: bool)
    | JInt(i: int)
    | JFloat(x: real)
    | JStr(s: string)
    | JList(items: seq<Json>)
    | JObj(fields: map<string, Json>)

  /** `bool(v)` */
  predicate Truthy(v: Json) {
    match v
    case JNull => false
    case JBool(b) => b
    case JInt(i) => i != 0
    case JFloat(x) => x != 0.0
    case JStr(s) => s != ""
    case JList(xs) => |xs| > 0
    case JObj(m) => |m| > 0
  }

  /** `isinstance(v, int)`: in Python a `bool` is an `int`. */
  predicate IsInt(v: Json) {
    v.JInt? || v.JBool?
  }

  /** The integer value of an `int` (`True` is 1, `False` is 0). */
  function IntValue(v: Json): int
    requires IsInt(v)
  {
    if v.JBool? then (if v.b then 1 else 0) else v.i
  }

  /** `str(v)` of an `int` or `bool`. */
  function IntText(v: Json): string
    requires IsInt(v)
  {
    if v.JBool? then (if v.b then "True" else "False") else IntToStr(v.i)
  }

  /** A string with a non-whitespace character: what `v and v.strip()` accepts. */
  predicate NonBlankStr(v: Json) {
    v.JStr? && !IsBlank(v.s)
  }

  /** The first key of `keys` that `m` lacks, by position. */
  function FirstMissing(keys: seq<string>, m: map<string, Json>): (k: nat)
    ensures k <= |keys|
    ensures forall j :: 0 <= j < k ==> keys[j] in m
    ensures k < |keys| ==> keys[k] !in m
    decreases |keys|
  {
    if |keys| == 0 || keys[0] !in m then 0 else 1 + FirstMissing(keys[1..], m)
  }
}
