/** A parsed JSON document, as `json.loads` returns it. */
module Json {
  import opened PyText
  import opened Wrappers

  datatype Json =
    | Null
    | Bool(b: bool)
    | Int(n: int)
    | Float(r: real)
    | Str(s: string)
    | Arr(items: seq<Json>)
    | Obj(fields: map<string, Json>)

  /** `d.get(key)`: an absent key reads like an explicit null. */
  function Get(d: Json, key: string): Json
    requires d.Obj?
  {
    if key in d.fields then d.fields[key] else Null
  }

  /** A value accepted by `_as_address`: a string matching the address pattern. */
  function AsAddress(j: Json): (r: Option<string>)
    ensures r.Some? <==> j.Str? && MatchesAddress(j.s)
  {
    if j.Str? && MatchesAddress(j.s) then Some(j.s) else None
  }

  /** A value accepted by `_as_hex`. */
  function AsHex(j: Json): (r: Option<string>)
    ensures r.Some? <==> j.Str? && MatchesHex(j.s)
  {
    if j.Str? && MatchesHex(j.s) then Some(j.s) else None
  }

  /** A value accepted by `_as_numeric`: a non-negative integer or a digit string. Booleans
      print as `True`/`False` and so never match. */
  function AsNumeric(j: Json): (r: Option<nat>)
    ensures r.Some? <==> (j.Int? && j.n >= 0) || (j.Str? && MatchesDigits(j.s))
  {
    match j
    case Int(n) => if n >= 0 then Some(n) else None
    case Str(s) => if MatchesDigits(s) then Some(ParseNat(DropFinalNewline(s))) else None
    case _ => None
  }
}
