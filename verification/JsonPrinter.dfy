/** The text that dap/cJSON.cpp prints for a value. */
module JsonPrinter {
  import opened CStrings
  import opened JsonValues

  /** One byte of a string literal. */
  function Escaped(c: char): (s: string)
    ensures 1 <= |s| <= 6
  {
    if c == BACKSLASH then [BACKSLASH, BACKSLASH]
    else if c == QUOTE then [BACKSLASH, QUOTE]
    else if c == BACKSPACE then [BACKSLASH, 'b']
    else if c == FORMFEED then [BACKSLASH, 'f']
    else if c == '\n' then [BACKSLASH, 'n']
    else if c == '\r' then [BACKSLASH, 'r']
    else if c == '\t' then [BACKSLASH, 't']
    else if c < ' ' then [BACKSLASH, 'u', '0', '0', HexChar(c as int / 16), HexChar(c as int % 16)]
    else [c]
  }

  function EscapedAll(s: string): string {
    if s == "" then "" else Escaped(s[0]) + EscapedAll(s[1..])
  }

  /** print_string_ptr */
  function Quoted(s: string): string {
    [QUOTE] + EscapedAll(s) + [QUOTE]
  }

  /** `fmt ? t : ""` */
  function Pretty(fmt: bool, t: string): string {
    if fmt then t else ""
  }

  function Indent(fmt: bool, depth: nat): string {
    Pretty(fmt, Spaces(depth))
  }

  /** print_value */
  function Print(v: Json, depth: nat, fmt: bool): string
    decreases v, 1
  {
    match v
    case Null => "null"
    case False => "false"
    case True => "true"
    case Number(r) => Decimal(r.Floor)
    case String(t) => Quoted(t)
    case Array(items) => "[" + PrintItems(items, depth + 1, fmt) + "]"
    case Object(members) =>
      "{" + Pretty(fmt, "\n") + PrintMembers(members, depth + 1, fmt) + Indent(fmt, depth) + "}"
  }

  function ItemEnd(more: bool, fmt: bool): string {
    if more then "," + Pretty(fmt, " ") else ""
  }

  /** The entries of an array, all at depth `depth`. */
  function PrintItems(items: seq<Json>, depth: nat, fmt: bool): string
    decreases items, 0
  {
    if items == [] then ""
    else Print(items[0], depth, fmt) + ItemEnd(|items| > 1, fmt) + PrintItems(items[1..], depth, fmt)
  }

  function MemberEnd(more: bool, fmt: bool): string {
    (if more then "," else "") + Pretty(fmt, "\n")
  }

  /** The members of an object, all at depth `depth`. */
  function PrintMembers(members: seq<Member>, depth: nat, fmt: bool): string
    decreases members, 0
  {
    if members == [] then ""
    else
      Indent(fmt, depth) + Quoted(members[0].name) + ":" + Pretty(fmt, " ")
      + Print(members[0].value, depth, fmt) + MemberEnd(|members| > 1, fmt)
      + PrintMembers(members[1..], depth, fmt)
  }
}
