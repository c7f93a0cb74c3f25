/**
 * The untyped tree that `JSON.parse` returns, with Rails' notion of a
 * blank value and Ruby's `Hash#[]` lookup.
 */
module Json {
  import opened Text

  /** A hash key: a string, or a symbol such as `:email`. */
  datatype Key = Name(name: string) | Symbol(symbol: string)

  /** A JSON value; `Nil` stands for Ruby's `nil` (and JSON `null`). */
  datatype Json =
    | Nil
    | Bool(b: bool)
    | Num(n: int)
    | Str(s: string)
    | Arr(items: seq<Json>)
    | Hash(fields: map<Key, Json>)

  /** Rails `blank?`: nil, false, white space, an empty array or hash. */
  predicate Blank(v: Json) {
    match v
    case Nil => true
    case Bool(b) => !b
    case Num(_) => false
    case Str(s) => BlankString(s)
    case Arr(items) => |items| == 0
    case Hash(fields) => |fields| == 0
  }

  /** Rails `present?`. */
  predicate Present(v: Json) {
    !Blank(v)
  }

  /** Ruby truthiness: only `nil` and `false` are false. */
  predicate Falsy(v: Json) {
    v == Nil || v == Bool(false)
  }

  /**
   * `Hash#[]`: the value under `k`, or `nil` when there is none, for the
   * profile's hashes and for the `user_details` hash alike.
   */
  function Lookup<K>(fields: map<K, Json>, k: K): Json {
    if k in fields then fields[k] else Nil
  }
}
