/** Decoded JSON documents, as `json.loads` produces them. */
module Json {
  import opened Strings

  /** A JSON value; `Int` and `Num` keep Python's int/float distinction. */
  datatype Value =
    | Null
    | Bool(b: bool)
    | Int(i: int)
    | Num(r: real)
    | Str(s: string)
    | Arr(items: seq<Value>)
    | Obj(fields: map<string, Value>)

  /** Python's `str()` of a float, list or dict: left opaque. */
  type Repr = Value -> string

  /** Python truthiness, as used by `x or default`. */
  predicate Truthy(v: Value) {
    match v
    case Null => false
    case Bool(b) => b
    case Int(i) => i != 0
    case Num(r) => r != 0.0
    case Str(s) => |s| > 0
    case Arr(a) => |a| > 0
    case Obj(m) => |m| > 0
  }

  /** Python's `str(v)`; floats and containers go through `repr`. */
  function PyStr(v: Value, repr: Repr): string {
    match v
    case Null => "None"
    case Bool(b) => if b then "True" else "False"
    case Int(i) => IntToString(i)
    case Str(s) => s
    case _ => repr(v)
  }

  /** `[str(x) for x in xs]`. */
  function PyStrs(xs: seq<Value>, repr: Repr): (r: seq<string>)
    ensures |r| == |xs|
    ensures forall i :: 0 <= i < |xs| ==> r[i] == PyStr(xs[i], repr)
  {
    seq(|xs|, i requires 0 <= i < |xs| => PyStr(xs[i], repr))
  }

  /** `d.get(key)`: an absent key reads as `None`, exactly like a JSON null. */
  function Get(m: map<string, Value>, key: string): Value {
    if key in m then m[key] else Null
  }

  /** A list of strings as a JSON array. */
  function StrArr(xs: seq<string>): (v: Value)
    ensures v.Arr? && |v.items| == |xs|
    ensures forall i :: 0 <= i < |xs| ==> v.items[i] == Str(xs[i])
  {
    Arr(seq(|xs|, i requires 0 <= i < |xs| => Str(xs[i])))
  }

  /** Strings survive `str()` unchanged, so publishing a string domain keeps it. */
  lemma PyStrsOfStrings(xs: seq<string>, repr: Repr)
    ensures PyStrs(StrArr(xs).items, repr) == xs
  {
  }
}
