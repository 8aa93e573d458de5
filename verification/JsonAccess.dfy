/** Reading properties and elements of a Json, by value (dap/JSON.cpp). */
module JsonAccess {
  import opened Wrappers
  import opened JsonValues

  /** `json[name]`: the first child of exactly that name; entries of an array have no names. */
  function Property(v: Option<Json>, name: string): Option<Json> {
    match v
    case Some(Object(members)) => FindMember(members, name)
    case _ => None
  }

  function FindMember(members: seq<Member>, name: string): Option<Json> {
    if members == [] then None
    else if members[0].name == name then Some(members[0].value)
    else FindMember(members[1..], name)
  }

  /** What GetCount counts and `json[i]` gives: the children, of an array or an object. */
  function Children(v: Option<Json>): seq<Json> {
    match v
    case Some(Array(items)) => items
    case Some(Object(members)) => seq(|members|, i requires 0 <= i < |members| => members[i].value)
    case _ => []
  }

  function GetString(v: Option<Json>, default: string): string {
    match v
    case Some(String(text)) => text
    case _ => default
  }

  /** Conversion of a double to an int, toward zero. */
  function Truncate(r: real): int {
    if r >= 0.0 then r.Floor else -(-r).Floor
  }

  /** GetInteger, and GetNumber stored into an int */
  function GetInteger(v: Option<Json>, default: int): int {
    match v
    case Some(Number(r)) => Truncate(r)
    case _ => default
  }

  /** GetBool: the test for a stored false compares a pointer, so false reads as the default. */
  function GetBool(v: Option<Json>, default: bool): bool {
    match v
    case Some(True) => true
    case _ => default
  }

  /** A stored boolean reads back exactly when it is true or the default is false. */
  lemma BoolReadsBack(b: bool, default: bool)
    ensures GetBool(Some(if b then True else False), default) == b <==> b || !default
  {
  }

  lemma {:induction false} FindInConcat(a: seq<Member>, b: seq<Member>, name: string)
    ensures FindMember(a + b, name) == if FindMember(a, name).Some? then FindMember(a, name) else FindMember(b, name)
  {
    if a == [] {
      assert a + b == b;
    } else {
      assert (a + b)[1..] == a[1..] + b;
      FindInConcat(a[1..], b, name);
    }
  }

  /** The value of a name in a list is that of its first member of that name. */
  lemma {:induction false} FindAt(members: seq<Member>, i: nat)
    requires i < |members| && forall j | 0 <= j < i :: members[j].name != members[i].name
    ensures FindMember(members, members[i].name) == Some(members[i].value)
  {
    if i > 0 {
      assert members[0].name != members[i].name;
      assert members[1..][i - 1] == members[i];
      FindAt(members[1..], i - 1);
    }
  }
}
