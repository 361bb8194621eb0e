/** Option, JSON values as Python's `json` module produces them, and the
    services of the Python runtime that the pipeline uses but that are not
    modelled here (the JSON parser and serialiser, `str()` and `float()`). */
module Wrappers {
  datatype Option<+T> = None | Some(value: T)
}

module JsonValues {
  import opened Wrappers

  /** A value as `json.loads` returns it: `None`, a bool, a number, a str,
      a list or a dict with str keys. Numbers are exact decimals: the
      model does not round to binary floating point. */
  datatype Json =
    | JNull
    | JBool(b: bool)
    | JNum(n: real)
    | JStr(s: string)
    | JArr(items: seq<Json>)
    | JObj(fields: map<string, Json>)

  /** The parts of the Python runtime the pipeline calls into, as oracles:
      - parse: `json.loads`, None where it raises;
      - dumps: `json.dumps(v, ensure_ascii=...)`;
      - repr: `str(v)` for numbers, lists and dicts;
      - floatText: whether `float(s)` accepts the str s. */
  datatype Host = Host(
    parse: string -> Option<Json>,
    dumps: (Json, bool) -> string,
    repr: Json -> string,
    floatText: string -> bool)

  /** Python's `str(v)`, written out where it is fixed by the language. */
  function Str(host: Host, v: Json): (r: string)
    ensures v.JStr? ==> r == v.s
    ensures v == JNull ==> r == "None"
  {
    match v
    case JStr(s) => s
    case JNull => "None"
    case JBool(b) => if b then "True" else "False"
    case _ => host.repr(v)
  }

  /** Whether `float(v)` returns rather than raises: a number or a bool is
      taken to convert (the model does not tell an int too large for a float
      from other numbers), a str when Python's float literal syntax accepts
      it, and None, lists and dicts never. */
  predicate FloatCoercible(host: Host, v: Json) {
    match v
    case JNum(_) => true
    case JBool(_) => true
    case JStr(s) => host.floatText(s)
    case _ => false
  }

  /** `d.get(k)` on a dict: None when the key is absent. */
  function Get(m: map<string, Json>, k: string): (r: Json)
    ensures k in m ==> r == m[k]
    ensures k !in m ==> r == JNull
  {
    if k in m then m[k] else JNull
  }
}
