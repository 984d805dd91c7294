/** The Python values that flow through the run command: option values as
    click delivers them, the results of `literal_eval`, and the nested
    dicts and lists of the run request. */
module PyValues {
  import opened Wrappers

  datatype Value =
    | Null
    | Bool(b: bool)
    | Int(i: int)
    | Str(s: string)
    | List(items: seq<Value>)
    | Dict(entries: map<string, Value>)
      /** Any other value `literal_eval` can return (a float, tuple, set,
          bytes, complex number, or a dict with keys that are not strings),
          kept only as its truthiness. */
    | Opaque(truthy: bool)

  /** Python truthiness (`if v:`): `None`, `False`, `0` and empty
      strings, lists and dicts are falsy; an `Opaque` value has its
      recorded truthiness; every other value is truthy. */
  predicate Truthy(v: Value) {
    match v
    case Null => false
    case Bool(b) => b
    case Int(i) => i != 0
    case Str(s) => s != []
    case List(items) => items != []
    case Dict(entries) => entries != map[]
    case Opaque(truthy) => truthy
  }

  /** The falsy values are exactly the false, zero and empty value of each kind. */
  lemma FalsyValues(v: Value)
    ensures !Truthy(v) <==> v in {Null, Bool(false), Int(0), Str([]), List([]), Dict(map[]), Opaque(false)}
  {
  }

  /** A single-valued click option: `None` when not given, else the string. */
  function OptionValue(o: Option<string>): (v: Value)
    ensures Truthy(v) <==> o.Some? && o.value != []
  {
    match o
    case None => Null
    case Some(s) => Str(s)
  }

  /** A `multiple=True` click option: the tuple of strings given, in order. */
  function TupleValue(ss: seq<string>): (v: Value)
    ensures Truthy(v) <==> ss != []
    ensures v.List? && |v.items| == |ss|
    ensures forall k :: 0 <= k < |ss| ==> v.items[k] == Str(ss[k])
  {
    List(seq(|ss|, k requires 0 <= k < |ss| => Str(ss[k])))
  }
}
