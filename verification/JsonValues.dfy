/** JSON values, as the tree of `cJsonDap` nodes denotes them. */
module JsonValues {
  import opened CStrings

  datatype Member = Member(name: string, value: Json)

  /** `Number` holds the exact value; the code keeps it in a double. */
  datatype Json =
    | Null
    | False
    | True
    | Number(value: real)
    | String(text: string)
    | Array(items: seq<Json>)
    | Object(members: seq<Member>)

  const INT_MIN: int := -0x8000_0000
  const INT_MAX: int := 0x7fff_ffff

  predicate IsInt32(n: int) {
    INT_MIN <= n <= INT_MAX
  }

  function Int(n: int): Json {
    Number(n as real)
  }

  /** Numbers are 32-bit integers and strings are C strings, at every depth. */
  predicate Printable(v: Json) {
    match v
    case Number(r) => r == r.Floor as real && IsInt32(r.Floor)
    case String(t) => NulFree(t)
    case Array(items) => forall i | 0 <= i < |items| :: Printable(items[i])
    case Object(members) =>
      forall i | 0 <= i < |members| :: NulFree(members[i].name) && Printable(members[i].value)
    case _ => true
  }
}
