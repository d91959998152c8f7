/** JSON values as Python's `json` module hands them over, with the bits of
    Python semantics the scripts apply to them: truthiness, `or`,
    `dict.get`, `str()`, and the encoding of the server's `(str, str)` rows. */
module Json {
  import opened Text

  /** A decoded JSON value; numbers are integers (see README). */
  datatype Json =
    | JNull
    | JBool(b: bool)
    | JInt(n: int)
    | JStr(s: string)
    | JList(items: seq<Json>)
    | JDict(fields: map<string, Json>)

  /** Python's truth value of a decoded JSON value. */
  predicate Truthy(j: Json) {
    match j
    case JNull => false
    case JBool(b) => b
    case JInt(n) => n != 0
    case JStr(s) => s != []
    case JList(items) => items != []
    case JDict(fields) => fields != map[]
  }

  /** Python's `a or b`. */
  function Or(a: Json, b: Json): Json {
    if Truthy(a) then a else b
  }

  /** Python's `d.get(key)`; a missing key gives `None`, which is `JNull`. */
  function Lookup(fields: map<string, Json>, key: string): Json {
    if key in fields then fields[key] else JNull
  }

  /** Python's `str(v)` for the scalar values; a list or dict is rendered as
      a fixed placeholder (see README). */
  function PyStr(j: Json): string {
    match j
    case JNull => "None"
    case JBool(b) => if b then "True" else "False"
    case JInt(n) => IntToString(n)
    case JStr(s) => s
    case JList(_) => "[...]"
    case JDict(_) => "{...}"
  }

  /** A list or tuple with exactly two items. */
  predicate IsPairShaped(j: Json) {
    j.JList? && |j.items| == 2
  }

  /** `isinstance(x, list) and len(x) == 2 and x[0] == "__time__"`. */
  predicate IsTimeRow(j: Json) {
    IsPairShaped(j) && j.items[0] == JStr("__time__")
  }

  /** One `(str, str)` row as `jsonify` encodes it. */
  function RowToJson(row: (string, string)): Json {
    JList([JStr(row.0), JStr(row.1)])
  }

  /** A list of `(str, str)` rows as `jsonify` encodes it. */
  function RowsToJson(rows: seq<(string, string)>): (r: seq<Json>)
    ensures |r| == |rows|
    ensures forall i | 0 <= i < |rows| :: r[i] == RowToJson(rows[i])
  {
    seq(|rows|, i requires 0 <= i < |rows| => RowToJson(rows[i]))
  }
}
