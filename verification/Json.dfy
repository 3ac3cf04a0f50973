/** JSON documents as values, and the way Go's `encoding/json` fills struct fields from them. */
module Json {
  import opened Wrappers

  /** A Go `int64`. */
  type int64 = n: int | -0x8000_0000_0000_0000 <= n < 0x8000_0000_0000_0000

  /** A byte string seen through a JSON parser: `Malformed` stands for bytes that do not parse,
      `Int` for a number literal without fraction or exponent, `Dec` for one with,
      `Other` for booleans and arrays. */
  datatype Json =
    | Malformed
    | Null
    | Int(n: int)
    | Dec(x: real)
    | Str(s: string)
    | Other
    | Obj(fields: seq<(string, Json)>)

  /** The outcome of `json.Unmarshal`: a mismatched field is reported in `ok`, but the fields that
      do match are still filled in. */
  datatype Decoded<+T> = Decoded(value: T, ok: bool)

  function Field(fields: seq<(string, Json)>, name: string): Option<Json> {
    if fields == [] then None
    else if fields[|fields| - 1].0 == name then Some(fields[|fields| - 1].1)
    else Field(fields[..|fields| - 1], name)
  }

  function StringField(fields: seq<(string, Json)>, name: string): Decoded<string> {
    match Field(fields, name)
    case None => Decoded("", true)
    case Some(Null) => Decoded("", true)
    case Some(Str(s)) => Decoded(s, true)
    case Some(_) => Decoded("", false)
  }

  function IntField(fields: seq<(string, Json)>, name: string): Decoded<int64> {
    match Field(fields, name)
    case None => Decoded(0, true)
    case Some(Null) => Decoded(0, true)
    case Some(Int(n)) =>
      if -0x8000_0000_0000_0000 <= n < 0x8000_0000_0000_0000 then Decoded(n, true) else Decoded(0, false)
    case Some(_) => Decoded(0, false)
  }

  function RealField(fields: seq<(string, Json)>, name: string): Decoded<real> {
    match Field(fields, name)
    case None => Decoded(0.0, true)
    case Some(Null) => Decoded(0.0, true)
    case Some(Int(n)) => Decoded(n as real, true)
    case Some(Dec(x)) => Decoded(x, true)
    case Some(_) => Decoded(0.0, false)
  }

  /** A float prints without a fraction exactly when it is integral. */
  function EncodeReal(x: real): Json {
    if x.Floor as real == x then Int(x.Floor) else Dec(x)
  }
}
