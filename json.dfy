/** Parsed JSON values as the analyzers see them, with the Python and
    JavaScript behaviours the core depends on: key lookup, truthiness and
    Python's `str()` of a value. Parsing itself is not modelled: every
    parser is a function-typed parameter of the member that uses it. */
module Json {
  import opened Wrappers
  import Strings

  /** A JSON value. An object keeps its entries in source order; a parser
      that meets a key twice keeps the last value (see Get). Fractional
      numbers are not modelled. */
  datatype Json =
    | JNull
    | JBool(b: bool)
    | JInt(n: int)
    | JStr(s: string)
    | JArr(items: seq<Json>)
    | JObj(entries: seq<(string, Json)>)

  /** What Python's `json.loads` gives back: a value, or a
      `JSONDecodeError` with its message. */
  datatype ParseOutcome = Parsed(value: Json) | DecodeError(message: string)

  /** The value stored under `key` (Python's `dict.get`, JavaScript's
      property read): the last entry with that key, since both parsers keep
      the last duplicate. */
  function Get(entries: seq<(string, Json)>, key: string): (r: Option<Json>)
    ensures r.None? <==> forall i | 0 <= i < |entries| :: entries[i].0 != key
    ensures r.Some? ==> exists i | 0 <= i < |entries| :: entries[i] == (key, r.value)
  {
    if entries == [] then None
    else
      var last := entries[|entries| - 1];
      if last.0 == key then Some(last.1)
      else
        var r := Get(entries[..|entries| - 1], key);
        assert forall i | 0 <= i < |entries| - 1 :: entries[..|entries| - 1][i] == entries[i];
        r
  }

  /** JavaScript's `key in value` for an object value. */
  predicate HasKey(v: Json, key: string) {
    v.JObj? && Get(v.entries, key).Some?
  }

  /** The `{"error": message}` object every analyzer returns on failure. */
  function ErrorObject(message: string): (r: Json)
    ensures HasKey(r, "error") && Get(r.entries, "error") == Some(JStr(message))
  {
    JObj([("error", JStr(message))])
  }

  /** Python truthiness of a parsed value. */
  predicate Truthy(v: Json) {
    match v
    case JNull => false
    case JBool(b) => b
    case JInt(n) => n != 0
    case JStr(s) => s != ""
    case JArr(items) => items != []
    case JObj(entries) => entries != []
  }

  /** Python's type name, as it appears in an `AttributeError` message. */
  function PyTypeName(v: Json): string {
    match v
    case JNull => "NoneType"
    case JBool(_) => "bool"
    case JInt(_) => "int"
    case JStr(_) => "str"
    case JArr(_) => "list"
    case JObj(_) => "dict"
  }

  /** The distinct keys of an object in first-occurrence order: what Python
      yields when a dict is iterated. */
  function Keys(entries: seq<(string, Json)>): (r: seq<string>)
    ensures forall i | 0 <= i < |r| :: Get(entries, r[i]).Some?
    ensures forall i | 0 <= i < |entries| :: entries[i].0 in r
    ensures forall i, j | 0 <= i < j < |r| :: r[i] != r[j]
  {
    if entries == [] then []
    else
      var init := entries[..|entries| - 1];
      var k := entries[|entries| - 1].0;
      var ks := Keys(init);
      assert forall i | 0 <= i < |init| :: init[i] == entries[i];
      if k in ks then ks else ks + [k]
  }

  /** Python's `str(v)`, what an f-string shows. Strings inside containers
      are shown between single quotes and not escaped (Python's `repr`
      also chooses its quote character and escapes). */
  function PyStr(v: Json): string
    decreases v, 0
  {
    match v
    case JNull => "None"
    case JBool(b) => if b then "True" else "False"
    case JInt(n) => Strings.IntToString(n)
    case JStr(s) => s
    case JArr(items) =>
      "[" + Strings.Join(seq(|items|, i requires 0 <= i < |items| => PyRepr(items[i])), ", ") + "]"
    case JObj(entries) =>
      "{" + Strings.Join(
        seq(|entries|, i requires 0 <= i < |entries| =>
          "'" + entries[i].0 + "': " + PyRepr(entries[i].1)), ", ") + "}"
  }

  /** Python's `repr(v)` inside a container. */
  function PyRepr(v: Json): string
    decreases v, 1
  {
    match v
    case JStr(s) => "'" + s + "'"
    case _ => PyStr(v)
  }
}
