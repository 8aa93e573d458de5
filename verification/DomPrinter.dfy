/** The printer as it runs: it walks the nodes, prints every entry into a buffer of its own
    and composes the buffers (dap/cJSON.cpp). */
module DomPrinter {
  import opened CStrings
  import opened JsonValues
  import opened JsonPrinter
  import opened PrintBuffers
  import JsonRoundTrip
  import opened Dom
  import opened DomParser

  // ---------------------------------------------------------------- printed text has no terminator in it

  lemma {:induction false} QuotedIsNulFree(s: string)
    requires NulFree(s)
    ensures NulFree(EscapedAll(s)) && NulFree(Quoted(s))
  {
    if s != "" {
      QuotedIsNulFree(s[1..]);
    }
  }

  lemma {:induction false} PrintedIsNulFree(v: Json, depth: nat, fmt: bool)
    requires Printable(v)
    ensures NulFree(Print(v, depth, fmt))
    decreases v, 1
  {
    match v
    case String(s) => QuotedIsNulFree(s);
    case Array(items) => ItemsAreNulFree(items, depth + 1, fmt);
    case Object(members) => MembersAreNulFree(members, depth + 1, fmt);
    case _ =>
  }

  lemma {:induction false} ItemsAreNulFree(items: seq<Json>, depth: nat, fmt: bool)
    requires forall i | 0 <= i < |items| :: Printable(items[i])
    ensures NulFree(PrintItems(items, depth, fmt))
    decreases items, 0
  {
    if items != [] {
      PrintedIsNulFree(items[0], depth, fmt);
      ItemsAreNulFree(items[1..], depth, fmt);
    }
  }

  lemma {:induction false} MembersAreNulFree(members: seq<Member>, depth: nat, fmt: bool)
    requires forall i | 0 <= i < |members| :: NulFree(members[i].name) && Printable(members[i].value)
    ensures NulFree(PrintMembers(members, depth, fmt))
    decreases members, 0
  {
    if members != [] {
      QuotedIsNulFree(members[0].name);
      PrintedIsNulFree(members[0].value, depth, fmt);
      MembersAreNulFree(members[1..], depth, fmt);
    }
  }

  // ---------------------------------------------------------------- entries and the whole

  function PrintEach(items: seq<Json>, depth: nat, fmt: bool): (texts: seq<string>)
    ensures |texts| == |items|
  {
    if items == [] then [] else [Print(items[0], depth, fmt)] + PrintEach(items[1..], depth, fmt)
  }

  function QuoteEach(members: seq<Member>): (names: seq<string>)
    ensures |names| == |members|
  {
    if members == [] then [] else [Quoted(members[0].name)] + QuoteEach(members[1..])
  }

  function PrintValues(members: seq<Member>, depth: nat, fmt: bool): (texts: seq<string>)
    ensures |texts| == |members|
  {
    if members == [] then [] else [Print(members[0].value, depth, fmt)] + PrintValues(members[1..], depth, fmt)
  }

  lemma {:induction false} JoinedItems(items: seq<Json>, depth: nat, fmt: bool)
    ensures JoinItems(PrintEach(items, depth, fmt), fmt) == PrintItems(items, depth, fmt)
  {
    if items != [] {
      JoinedItems(items[1..], depth, fmt);
      Assoc(Print(items[0], depth, fmt), ItemEnd(|items| > 1, fmt), PrintItems(items[1..], depth, fmt));
    }
  }

  lemma {:induction false} JoinedMembers(members: seq<Member>, depth: nat, fmt: bool)
    ensures JoinMembers(QuoteEach(members), PrintValues(members, depth, fmt), depth, fmt)
         == PrintMembers(members, depth, fmt)
  {
    if members != [] {
      JoinedMembers(members[1..], depth, fmt);
      var a, b, c := Indent(fmt, depth), Quoted(members[0].name), Pretty(fmt, " ");
      var d, e := Print(members[0].value, depth, fmt), MemberEnd(|members| > 1, fmt);
      var f := PrintMembers(members[1..], depth, fmt);
      Assoc(a + b + ":" + c + d, e, f);
      Assoc(a + b + ":" + c, d, e + f);
      Assoc(a + b + ":", c, d + (e + f));
      Assoc(a + b, ":", c + (d + (e + f)));
      Assoc(a, b, ":" + (c + (d + (e + f))));
    }
  }

  /** The buffer print_array allocates, for any array at any depth, is long enough for the text
      and its terminator, and how much of it is left over. */
  lemma ArrayBufferFits(items: seq<Json>, depth: nat, fmt: bool)
    ensures ArrayLength(PrintEach(items, depth + 1, fmt), fmt) ==
      |Print(Array(items), depth, fmt)| + 1 + 2 + |items| + (if items == [] then 0 else 1 + IfPretty(fmt, 1))
  {
    JoinedItems(items, depth + 1, fmt);
    ArrayFits(PrintEach(items, depth + 1, fmt), fmt);
  }

  /** The same for print_object. */
  lemma ObjectBufferFits(members: seq<Member>, depth: nat, fmt: bool)
    ensures ObjectLength(QuoteEach(members), PrintValues(members, depth + 1, fmt), depth + 1, fmt) ==
      |Print(Object(members), depth, fmt)| + 1 + (if members == [] then 4 else 5)
  {
    JoinedMembers(members, depth + 1, fmt);
    ObjectFits(QuoteEach(members), PrintValues(members, depth + 1, fmt), depth, fmt);
  }

  lemma {:induction false} OneMoreItem(items: seq<Json>, v: Json, depth: nat, fmt: bool)
    ensures PrintEach(items + [v], depth, fmt) == PrintEach(items, depth, fmt) + [Print(v, depth, fmt)]
    ensures ArrayLength(PrintEach(items + [v], depth, fmt), fmt) ==
      ArrayLength(PrintEach(items, depth, fmt), fmt) + |Print(v, depth, fmt)| + 2 + IfPretty(fmt, 1)
  {
    if items == [] {
      assert items + [v] == [v] && [v][1..] == [];
      assert PrintEach([v], depth, fmt)[1..] == [];
    } else {
      assert (items + [v])[1..] == items[1..] + [v];
      OneMoreItem(items[1..], v, depth, fmt);
    }
  }

  ghost function MembersLength(members: seq<Member>, depth: nat, fmt: bool): nat {
    ObjectLength(QuoteEach(members), PrintValues(members, depth, fmt), depth, fmt)
  }

  lemma {:induction false} OneMoreMember(members: seq<Member>, m: Member, depth: nat, fmt: bool)
    ensures QuoteEach(members + [m]) == QuoteEach(members) + [Quoted(m.name)]
    ensures PrintValues(members + [m], depth, fmt) == PrintValues(members, depth, fmt) + [Print(m.value, depth, fmt)]
    ensures MembersLength(members + [m], depth, fmt) ==
      MembersLength(members, depth, fmt)
      + |Print(m.value, depth, fmt)| + |Quoted(m.name)| + 2 + IfPretty(fmt, 2 + depth)
  {
    if members == [] {
      assert members + [m] == [m] && [m][1..] == [];
      assert QuoteEach([m])[1..] == [] && PrintValues([m], depth, fmt)[1..] == [];
    } else {
      assert (members + [m])[1..] == members[1..] + [m];
      OneMoreMember(members[1..], m, depth, fmt);
    }
  }

  // ---------------------------------------------------------------- numbers

  lemma {:induction false} DigitsBound(n: nat, k: nat)
    requires k > 0 && n < Power(k)
    ensures |Digits(n)| <= k
    decreases k
  {
    if n >= 10 {
      var bound := Power(k - 1);
      assert n < 10 * bound;
      assert n / 10 < bound;
      DigitsBound(n / 10, k - 1);
    }
  }

  function Power(k: nat): nat {
    if k == 0 then 1 else 10 * Power(k - 1)
  }

  /** A 32-bit integer and its terminator fit into the 21 bytes print_number allocates. */
  lemma DecimalFits(n: int)
    requires IsInt32(n)
    ensures |Decimal(n)| + 1 <= 12
  {
    assert Power(10) == 10_000_000_000 by {
      assert Power(5) == 100000;
    }
    DigitsBound(if n < 0 then -n else n, 10);
  }

  // ---------------------------------------------------------------- buffers

  /** strlen, and the bytes before the terminator. */
  method Contents(out: array<char>, ghost text: string) returns (s: string)
    requires Holds(out, text) && NulFree(text)
    ensures s == text
  {
    forall k | 0 <= k < |text| ensures out[k] == text[k] != '\0' {
      assert out[k] == out[..|text|][k];
    }
    var i := 0;
    while out[i] != '\0'
      invariant 0 <= i <= |text|
      decreases |text| - i
    {
      i := i + 1;
    }
    s := out[..i];
  }

  /** cJSON_strdup */
  method Duplicate(text: string, size: nat) returns (out: array<char>)
    requires |text| < size
    ensures fresh(out) && out.Length == size && Holds(out, text)
  {
    out := new char[size];
    var end := StrCpy(out, 0, text);
    assert out[..0] + text == text;
  }

  // ---------------------------------------------------------------- printing

  /** print_value */
  method PrintValue(item: Node, depth: nat, fmt: bool, ghost mem: Allocator, ghost t: Tree, ghost v: Json)
    returns (out: array<char>)
    requires item == t.node && Built(t) && Objects(t) <= mem.live && Denotes(t, v) && Printable(v)
    ensures fresh(out) && Holds(out, Print(v, depth, fmt))
    decreases v, 2
  {
    match item.kind
    case KNull =>
      out := Duplicate("null", 5);
    case KFalse =>
      out := Duplicate("false", 6);
    case KTrue =>
      out := Duplicate("true", 5);
    case KNumber =>
      DecimalFits(item.number.Floor);
      out := Duplicate(Decimal(item.number.Floor), 21);
    case KString =>
      out := StringCodec.PrintStringPtr(item.valuestring.text);
    case KArray =>
      out := PrintArray(item, depth, fmt, mem, t, v.items);
    case KObject =>
      out := PrintObject(item, depth, fmt, mem, t, v.members);
  }

  /** print_array */
  method PrintArray(item: Node, depth: nat, fmt: bool, ghost mem: Allocator, ghost t: Tree, ghost items: seq<Json>)
    returns (out: array<char>)
    requires item == t.node && Built(t) && Objects(t) <= mem.live
    requires Denotes(t, Array(items)) && Printable(Array(items))
    ensures fresh(out) && Holds(out, Print(Array(items), depth, fmt))
    decreases items, 1
  {
    var texts, len := PrintEntries(item.child, depth + 1, fmt, mem, t.kids, items);
    out := ComposeArray(texts, fmt, len);
    JoinedItems(items, depth + 1, fmt);
    Assoc("[", PrintItems(items, depth + 1, fmt), "]");
  }

  /** The loop that prints the entries and adds up their lengths. */
  method PrintEntries(first: Node?, depth: nat, fmt: bool, ghost mem: Allocator, ghost ts: seq<Tree>,
          ghost items: seq<Json>)
    returns (texts: seq<string>, len: nat)
    requires first == First(ts, null) && Siblings(null, ts, null) && ObjectsOf(ts) <= mem.live
    requires DenoteItems(ts, items) && forall i | 0 <= i < |items| :: Printable(items[i])
    ensures texts == PrintEach(items, depth, fmt) && len == ArrayLength(texts, fmt)
    decreases items, 0
  {
    var child := first;
    ghost var previous, rest, i := null, ts, 0;
    texts, len := [], 5;
    while child != null
      invariant 0 <= i <= |items| && child == First(rest, null)
      invariant Siblings(previous, rest, null) && ObjectsOf(rest) <= mem.live && DenoteItems(rest, items[i..])
      invariant texts == PrintEach(items[..i], depth, fmt) && len == ArrayLength(texts, fmt)
      decreases |rest|
    {
      UpToItem(items, i, depth, fmt);
      var text := PrintEntry(child, depth, fmt, mem, rest[0], items[i]);
      texts, len := texts + [text], len + |text| + 2 + (if fmt then 1 else 0);
      previous, rest, i := child, rest[1..], i + 1;
      child := child.next;
    }
    assert items[..i] == items;
  }

  lemma UpToItem(items: seq<Json>, i: nat, depth: nat, fmt: bool)
    ensures i < |items| ==>
      var text, before := Print(items[i], depth, fmt), PrintEach(items[..i], depth, fmt);
      && items[i..] != [] && items[i..][0] == items[i] && items[i..][1..] == items[i + 1..]
      && PrintEach(items[..i + 1], depth, fmt) == before + [text]
      && ArrayLength(before + [text], fmt) == ArrayLength(before, fmt) + |text| + 2 + IfPretty(fmt, 1)
  {
    if i < |items| {
      assert items[..i + 1] == items[..i] + [items[i]];
      OneMoreItem(items[..i], items[i], depth, fmt);
    }
  }

  method PrintEntry(child: Node, depth: nat, fmt: bool, ghost mem: Allocator, ghost t: Tree, ghost v: Json)
    returns (text: string)
    requires child == t.node && Built(t) && Objects(t) <= mem.live && Denotes(t, v) && Printable(v)
    ensures text == Print(v, depth, fmt)
    decreases v, 3
  {
    PrintedIsNulFree(v, depth, fmt);
    var ret := PrintValue(child, depth, fmt, mem, t, v);
    text := Contents(ret, Print(v, depth, fmt));
  }

  /** print_object */
  method PrintObject(item: Node, depth: nat, fmt: bool, ghost mem: Allocator, ghost t: Tree, ghost members: seq<Member>)
    returns (out: array<char>)
    requires item == t.node && Built(t) && Objects(t) <= mem.live
    requires Denotes(t, Object(members)) && Printable(Object(members))
    ensures fresh(out) && Holds(out, Print(Object(members), depth, fmt))
    decreases members, 1
  {
    var names, texts, len := PrintPairs(item.child, depth + 1, fmt, mem, t.kids, members);
    out := ComposeObject(names, texts, depth, fmt, len);
    JoinedMembers(members, depth + 1, fmt);
    ghost var body := PrintMembers(members, depth + 1, fmt);
    Assoc("{" + Pretty(fmt, "\n") + body, Indent(fmt, depth), "}");
    Assoc("{" + Pretty(fmt, "\n"), body, Indent(fmt, depth) + "}");
    Assoc("{", Pretty(fmt, "\n"), body + (Indent(fmt, depth) + "}"));
  }

  /** The loop that prints names and values and adds up their lengths. */
  method PrintPairs(first: Node?, depth: nat, fmt: bool, ghost mem: Allocator, ghost ts: seq<Tree>,
          ghost members: seq<Member>)
    returns (names: seq<string>, texts: seq<string>, len: nat)
    requires first == First(ts, null) && Siblings(null, ts, null) && ObjectsOf(ts) <= mem.live
    requires DenoteMembers(ts, members)
    requires forall i | 0 <= i < |members| :: NulFree(members[i].name) && Printable(members[i].value)
    ensures names == QuoteEach(members) && texts == PrintValues(members, depth, fmt)
    ensures len == ObjectLength(names, texts, depth, fmt)
    decreases members, 0
  {
    var child := first;
    ghost var previous, rest, i := null, ts, 0;
    names, texts, len := [], [], 7 + (if fmt then depth else 0);
    while child != null
      invariant 0 <= i <= |members| && child == First(rest, null)
      invariant Siblings(previous, rest, null) && ObjectsOf(rest) <= mem.live && DenoteMembers(rest, members[i..])
      invariant names == QuoteEach(members[..i]) && texts == PrintValues(members[..i], depth, fmt)
      invariant len == MembersLength(members[..i], depth, fmt)
      decreases |rest|
    {
      UpToMember(members, i, depth, fmt);
      var str, ret := PrintPair(child, depth, fmt, mem, rest[0], members[i]);
      names, texts := names + [str], texts + [ret];
      len := len + |ret| + |str| + 2 + (if fmt then 2 + depth else 0);
      previous, rest, i := child, rest[1..], i + 1;
      child := child.next;
    }
    assert members[..i] == members;
  }

  lemma UpToMember(members: seq<Member>, i: nat, depth: nat, fmt: bool)
    ensures i < |members| ==>
      var m := members[i];
      && members[i..] != [] && members[i..][0] == m && members[i..][1..] == members[i + 1..]
      && QuoteEach(members[..i + 1]) == QuoteEach(members[..i]) + [Quoted(m.name)]
      && PrintValues(members[..i + 1], depth, fmt) ==
           PrintValues(members[..i], depth, fmt) + [Print(m.value, depth, fmt)]
      && MembersLength(members[..i + 1], depth, fmt) ==
           MembersLength(members[..i], depth, fmt)
           + |Print(m.value, depth, fmt)| + |Quoted(m.name)| + 2 + IfPretty(fmt, 2 + depth)
  {
    if i < |members| {
      assert members[..i + 1] == members[..i] + [members[i]];
      OneMoreMember(members[..i], members[i], depth, fmt);
    }
  }

  method PrintPair(child: Node, depth: nat, fmt: bool, ghost mem: Allocator, ghost t: Tree, ghost m: Member)
    returns (name: string, text: string)
    requires child == t.node && Built(t) && Objects(t) <= mem.live && Denotes(t, m.value)
    requires t.name != null && t.name.text == m.name && NulFree(m.name) && Printable(m.value)
    ensures name == Quoted(m.name) && text == Print(m.value, depth, fmt)
    decreases m, 0
  {
    QuotedIsNulFree(m.name);
    PrintedIsNulFree(m.value, depth, fmt);
    var str := StringCodec.PrintStringPtr(child.name.text);
    name := Contents(str, Quoted(m.name));
    var ret := PrintValue(child, depth, fmt, mem, t, m.value);
    text := Contents(ret, Print(m.value, depth, fmt));
  }

  // ---------------------------------------------------------------- and back

  /** cJSON_Print or cJSON_PrintUnformatted, and cJSON_Parse of the result: a second tree for the
      same value, in memory of its own, with the first left as it was. */
  method PrintAndParse(item: Node, fmt: bool, mem: Allocator, ghost t: Tree, ghost v: Json)
    returns (c: Node?, ghost t2: Tree)
    requires item == t.node && Built(t) && Objects(t) <= mem.live && mem !in Objects(t)
    requires Denotes(t, v) && Printable(v)
    modifies mem
    ensures c != null && t2.node == c && c.Alone()
    ensures Sound(t2) && Built(t2) && Denotes(t2, v)
    ensures fresh(Objects(t2)) && mem.live == old(mem.live) + Objects(t2)
    ensures Built(t)
  {
    var text := PrintEntry(item, 0, fmt, mem, t, v);
    JsonRoundTrip.PrintedIsParsed(v, fmt);
    c, t2 := Parse(text, mem);
  }
}
