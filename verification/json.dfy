/** Decoded JSON / YAML values, the shape the source's `dict[str, Any]` payloads take. */
module Json {
  import opened Wrappers

  datatype Value =
    | Null
    | Bool(b: bool)
    | Int(i: int)
    | Float(r: real)
    | Str(s: string)
    | List(items: seq<Value>)
    | Object(fields: map<string, Value>)

  /** `data.get(key)`: a missing key reads as `None`, like an explicit null. */
  function Get(data: map<string, Value>, key: string): Value {
    if key in data then data[key] else Null
  }

  /** `data.get(key, default)`: unlike `Get`, a present null stays null. */
  function GetOr(data: map<string, Value>, key: string, default: Value): (v: Value)
    ensures key in data ==> v == data[key]
    ensures key !in data ==> v == default
  {
    if key in data then data[key] else default
  }

  /** Python truthiness of a decoded value. */
  predicate Truthy(v: Value) {
    match v
    case Null => false
    case Bool(b) => b
    case Int(i) => i != 0
    case Float(r) => r != 0.0
    case Str(s) => s != ""
    case List(xs) => xs != []
    case Object(m) => m != map[]
  }

  /** Python's `v == 1` for a decoded value: `True` and `1.0` compare equal to `1`. */
  predicate EqualsOne(v: Value) {
    v == Int(1) || v == Bool(true) || v == Float(1.0)
  }

  /** A list of strings as a JSON array, order preserved. */
  function StrList(xs: seq<string>): (v: Value)
    ensures v.List? && |v.items| == |xs|
    ensures forall i :: 0 <= i < |xs| ==> v.items[i] == Str(xs[i])
  {
    List(seq(|xs|, i requires 0 <= i < |xs| => Str(xs[i])))
  }

  /** The strings of a JSON array whose every element is a string. */
  function AsStrList(v: Value): (r: Option<seq<string>>)
    ensures r.Some? <==> v.List? && forall i :: 0 <= i < |v.items| ==> v.items[i].Str?
    ensures r.Some? ==> (|r.value| == |v.items|
                         && forall i :: 0 <= i < |r.value| ==> v.items[i] == Str(r.value[i]))
  {
    if v.List? && forall i :: 0 <= i < |v.items| ==> v.items[i].Str? then
      Some(seq(|v.items|, i requires 0 <= i < |v.items| && v.items[i].Str? => v.items[i].s))
    else None
  }

  /** Reading back a written string list gives the same list. */
  lemma AsStrListOfStrList(xs: seq<string>)
    ensures AsStrList(StrList(xs)) == Some(xs)
  {
    var r := AsStrList(StrList(xs));
    assert r.Some?;
    assert r.value == xs;
  }
}
