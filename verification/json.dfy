/** Decoded JSON values as the backend sees them after `json.loads`. */
module Json {
  import Text

  /** A decoded JSON document.  Numbers are integers only: fractional and
      exponent forms are not part of this model. */
  datatype Json =
    | JNull
    | JBool(b: bool)
    | JNum(n: int)
    | JStr(s: string)
    | JArr(items: seq<Json>)
    | JObj(fields: map<string, Json>)

  const EmptyObject: Json := JObj(map[])

  /** `d.get(key, default)` on a dict. */
  function Get(fields: map<string, Json>, key: string, default: Json): Json
  {
    if key in fields then fields[key] else default
  }

  /** Python's `str(value)`.  Strings come back unchanged; `None`, booleans
      and integers print as Python prints them; the `repr` of a list or dict
      is supplied by `render`. */
  function PyStr(j: Json, render: Json -> string): (r: string)
    ensures j.JStr? ==> r == j.s
    ensures j.JNum? && j.n >= 0 ==> Text.AllDigits(r) && Text.ParseNat(r) == j.n
    ensures j.JNum? && j.n < 0 ==> |r| >= 2 && r[0] == '-' && Text.AllDigits(r[1..]) && Text.ParseNat(r[1..]) == -j.n
  {
    match j
    case JNull => "None"
    case JBool(b) => if b then "True" else "False"
    case JNum(n) =>
      Text.ParseNatToString(if n < 0 then -n else n);
      if n < 0 then "-" + Text.NatToString(-n) else Text.NatToString(n)
    case JStr(s) => s
    case JArr(_) => render(j)
    case JObj(_) => render(j)
  }
}
