/** The parser as it runs: it fills nodes it is given and links the ones it allocates
    (dap/cJSON.cpp). */
module DomParser {
  import opened CStrings
  import opened JsonValues
  import P = JsonParser
  import NumberCodec
  import StringCodec
  import opened Dom
  import DomEdit

  // ---------------------------------------------------------------- what a tree stands for

  ghost predicate Denotes(t: Tree, v: Json)
    decreases v, 1
  {
    && !t.reference
    && match v
       case Null => t.kind == KNull
       case False => t.kind == KFalse
       case True => t.kind == KTrue
       case Number(r) => t.kind == KNumber && t.number == r
       case String(s) => t.kind == KString && t.text != null && t.text.text == s
       case Array(items) => t.kind == KArray && DenoteItems(t.kids, items)
       case Object(members) => t.kind == KObject && DenoteMembers(t.kids, members)
  }

  ghost predicate DenoteItems(ts: seq<Tree>, items: seq<Json>)
    decreases items, 0
  {
    && |ts| == |items|
    && (ts != [] ==> Denotes(ts[0], items[0]) && DenoteItems(ts[1..], items[1..]))
  }

  ghost predicate DenoteMembers(ts: seq<Tree>, members: seq<Member>)
    decreases members, 0
  {
    && |ts| == |members|
    && (ts != [] ==>
          && ts[0].name != null && ts[0].name.text == members[0].name
          && Denotes(ts[0], members[0].value) && DenoteMembers(ts[1..], members[1..]))
  }

  lemma {:induction false} DenoteItemsAppend(ts: seq<Tree>, items: seq<Json>, t: Tree, v: Json)
    requires DenoteItems(ts, items) && Denotes(t, v)
    ensures DenoteItems(ts + [t], items + [v])
    decreases ts
  {
    if ts == [] {
      assert ts + [t] == [t] && items + [v] == [v];
    } else {
      DenoteItemsAppend(ts[1..], items[1..], t, v);
      assert (ts + [t])[1..] == ts[1..] + [t] && (items + [v])[1..] == items[1..] + [v];
    }
  }

  lemma {:induction false} DenoteMembersAppend(ts: seq<Tree>, members: seq<Member>, t: Tree, m: Member)
    requires DenoteMembers(ts, members) && Denotes(t, m.value) && t.name != null && t.name.text == m.name
    ensures DenoteMembers(ts + [t], members + [m])
    decreases ts
  {
    if ts == [] {
      assert ts + [t] == [t] && members + [m] == [m];
    } else {
      DenoteMembersAppend(ts[1..], members[1..], t, m);
      assert (ts + [t])[1..] == ts[1..] + [t] && (members + [m])[1..] == members[1..] + [m];
    }
  }

  // ---------------------------------------------------------------- nodes

  /** A node about to be filled: it may have a name, and nothing else. */
  ghost predicate Empty(t: Tree) {
    t.text == null && !t.reference && t.kids == []
  }

  /** A node that the parser may fill. */
  ghost predicate Ready(mem: Allocator, item: Node, t0: Tree)
    reads *
  {
    && item == t0.node && Empty(t0) && Sound(t0) && Built(t0)
    && Objects(t0) <= mem.live && mem !in Objects(t0)
  }

  /** `t` is `t0` filled: what is new was allocated, and what was allocated is in `t`. */
  twostate predicate Filled(mem: Allocator, new t: Tree, t0: Tree)
    reads *
  {
    && t.node == t0.node && t.name == t0.name && !t.reference
    && Sound(t) && Built(t)
    && Objects(t0) <= Objects(t) && fresh(Objects(t) - Objects(t0))
    && mem.live == old(mem.live) + Objects(t)
  }

  /** parse_string, into a node */
  method ReadText(item: Node, s: string, mem: Allocator, ghost t0: Tree) returns (ok: bool, rest: string, ghost t: Tree)
    requires Ready(mem, item, t0) && !P.ParseString(s).Unspecified?
    modifies mem, item`kind, item`valuestring
    ensures Filled(mem, t, t0) && t.kids == []
    ensures ok <==> P.ParseString(s).Ok?
    ensures ok ==>
      var r := P.ParseString(s);
      rest == r.rest && t.kind == KString && t.text != null && t.text.text == r.value
    ensures !ok ==> t == t0
  {
    var r := StringCodec.ReadString(s);
    ok, rest, t := false, s, t0;
    if r.Ok? {
      var out := mem.Strdup(r.value);
      item.valuestring := out;
      item.kind := KString;
      ok, rest, t := true, r.rest, t0.(text := out, kind := KString);
    }
  }

  // ---------------------------------------------------------------- values

  /** parse_value */
  method ReadValue(item: Node, s: string, mem: Allocator, ghost t0: Tree)
    returns (ok: bool, rest: string, ghost t: Tree)
    requires Ready(mem, item, t0) && !P.ParseValue(s).Unspecified?
    modifies mem, item`child, item`kind, item`number, item`valuestring
    ensures Filled(mem, t, t0)
    ensures ok <==> P.ParseValue(s).Ok?
    ensures ok ==> rest == P.ParseValue(s).rest && Denotes(t, P.ParseValue(s).value)
    decreases |s|, 1
  {
    ok, rest, t := false, s, t0;
    if StartsWith(s, "null") {
      item.kind := KNull;
      ok, rest, t := true, s[4..], t0.(kind := KNull);
    } else if StartsWith(s, "false") {
      item.kind := KFalse;
      ok, rest, t := true, s[5..], t0.(kind := KFalse);
    } else if StartsWith(s, "true") {
      item.kind := KTrue;
      ok, rest, t := true, s[4..], t0.(kind := KTrue);
    } else if Peek(s) == QUOTE {
      ok, rest, t := ReadText(item, s, mem, t0);
    } else if Peek(s) == '-' || IsDigit(Peek(s)) {
      var n, end := NumberCodec.ReadNumber(s);
      item.number := n;
      item.kind := KNumber;
      ok, rest, t := true, end, t0.(number := n, kind := KNumber);
    } else if Peek(s) == '[' {
      ok, rest, t := ReadArray(item, s, mem, t0);
    } else if Peek(s) == '{' {
      ok, rest, t := ReadObject(item, s, mem, t0);
    }
  }

  /** parse_array */
  method ReadArray(item: Node, s: string, mem: Allocator, ghost t0: Tree)
    returns (ok: bool, rest: string, ghost t: Tree)
    requires Ready(mem, item, t0) && Peek(s) == '[' && !P.ParseValue(s).Unspecified?
    modifies mem, item`child, item`kind
    ensures Filled(mem, t, t0)
    ensures ok <==> P.ParseValue(s).Ok?
    ensures ok ==> rest == P.ParseValue(s).rest && Denotes(t, P.ParseValue(s).value)
    decreases |s|, 0
  {
    item.kind := KArray;
    ghost var t1 := t0.(kind := KArray);
    var value := Skip(s[1..]);
    if Peek(value) == ']' {
      return true, value[1..], t1;
    }
    var child := mem.NewItem();
    item.child := child;
    ghost var kids;
    ok, rest, kids := ReadItems(child, value, mem);
    t := DomEdit.WithKids(t1, kids);
    DomEdit.TopIsBuilt(t1, kids);
  }

  /** What the parser made of a list it was to start at `first`. */
  twostate predicate Listed(mem: Allocator, first: Node, new kids: seq<Tree>)
    reads *
  {
    && kids != [] && kids[0].node == first
    && SoundAll(kids) && Siblings(null, kids, null)
    && fresh(ObjectsOf(kids) - {first}) && mem.live == old(mem.live) + ObjectsOf(kids)
  }

  /** Values already read, then whatever the rest of the list gives. */
  ghost function After<T>(read: seq<T>, r: P.Parsed<seq<T>>): P.Parsed<seq<T>> {
    match r
    case Ok(more, rest) => P.Ok(read + more, rest)
    case _ => r
  }

  lemma AfterOne<T>(read: seq<T>, v: T, r: P.Parsed<seq<T>>)
    ensures After(read, P.Cons(v, r)) == After(read + [v], r)
    ensures After([v], r) == P.Cons(v, r)
  {
    if r.Ok? {
      assert read + ([v] + r.value) == read + [v] + r.value;
    }
  }

  /** The entries of an array. */
  method ReadItems(first: Node, s: string, mem: Allocator) returns (ok: bool, rest: string, ghost kids: seq<Tree>)
    requires Ready(mem, first, Blank(first)) && first.Alone() && !P.ParseItems(s).Unspecified?
    modifies mem, first
    ensures Listed(mem, first, kids)
    ensures ok <==> P.ParseItems(s).Ok?
    ensures ok ==> rest == P.ParseItems(s).rest && DenoteItems(kids, P.ParseItems(s).value)
    decreases |s|, 2
  {
    ghost var t;
    ok, rest, t := ReadValue(first, Skip(s), mem, Blank(first));
    kids := [t];
    ListOfOne(t);
    if !ok {
      return;
    }
    ghost var v := P.ParseValue(Skip(s)).value;
    rest := Skip(rest);
    AfterOne([], v, P.MoreItems(rest));
    ok, rest, kids := ReadMoreItems(first, rest, mem, kids, [v]);
  }

  /** The loop over the commas. */
  method ReadMoreItems(last: Node, s: string, mem: Allocator, ghost kids0: seq<Tree>, ghost values0: seq<Json>)
    returns (ok: bool, rest: string, ghost kids: seq<Tree>)
    requires last == Last(null, kids0) && DomEdit.AllLive(mem, kids0) && Siblings(null, kids0, null)
    requires DenoteItems(kids0, values0) && !P.MoreItems(s).Unspecified?
    modifies mem, last`next
    ensures kids0 <= kids && SoundAll(kids) && Siblings(null, kids, null)
    ensures fresh(ObjectsOf(kids) - ObjectsOf(kids0)) && mem.live == old(mem.live) + ObjectsOf(kids)
    ensures ok <==> P.MoreItems(s).Ok?
    ensures ok ==> rest == P.MoreItems(s).rest && DenoteItems(kids, values0 + P.MoreItems(s).value)
    decreases |s|, 0
  {
    ghost var values := values0;
    var child := last;
    ok, rest, kids := true, s, kids0;
    while ok && Peek(rest) == ','
      invariant child == Last(null, kids) && (child == last || fresh(child))
      invariant kids0 <= kids && SoundAll(kids) && Siblings(null, kids, null)
      invariant fresh(ObjectsOf(kids) - ObjectsOf(kids0)) && mem.live == old(mem.live) + ObjectsOf(kids)
      invariant mem !in ObjectsOf(kids)
      invariant if ok
                then |rest| <= |s| && DenoteItems(kids, values)
                     && After(values0, P.MoreItems(s)) == After(values, P.MoreItems(rest))
                else P.MoreItems(s).Rejected?
      decreases ok, |rest|
    {
      ghost var v, t := P.ParseValue(Skip(rest[1..])), Blank(child);
      child, ok, rest, t := ReadNext(child, Skip(rest[1..]), mem, kids);
      if ok {
        rest := Skip(rest);
        DenoteItemsAppend(kids, values, t, v.value);
        AfterOne(values, v.value, P.MoreItems(rest));
        values := values + [v.value];
      }
      kids := kids + [t];
    }
    if ok {
      ok := Peek(rest) == ']';
      if ok {
        rest := rest[1..];
        assert values + [] == values;
      }
    }
  }

  lemma ListOfOne(t: Tree)
    ensures ObjectsOf([t]) == Objects(t)
    ensures SoundAll([t]) <==> Sound(t)
  {
    assert [t][1..] == [];
  }

  /** A new node behind `prev`. */
  method LinkNext(prev: Node, mem: Allocator, ghost kids: seq<Tree>) returns (child: Node)
    requires prev == Last(null, kids) && DomEdit.AllLive(mem, kids) && Siblings(null, kids, null)
    modifies mem, prev`next
    ensures fresh(child) && Built(Blank(child)) && mem.live == old(mem.live) + {child}
    ensures Siblings(null, kids, child) && child.prev == prev && child.next == null
  {
    child := mem.NewItem();
    DomEdit.LastSibling(null, kids, Blank(child), null);
    DomEdit.SuffixObject(prev, child, mem, kids, Blank(child));
  }

  /** Link a new node behind `prev` and parse a value into it. */
  method ReadNext(prev: Node, s: string, mem: Allocator, ghost kids: seq<Tree>)
    returns (child: Node, ok: bool, rest: string, ghost t: Tree)
    requires prev == Last(null, kids) && DomEdit.AllLive(mem, kids) && Siblings(null, kids, null)
    requires !P.ParseValue(s).Unspecified?
    modifies mem, prev`next
    ensures child == t.node && SoundAll(kids + [t]) && Siblings(null, kids + [t], null)
    ensures ObjectsOf(kids + [t]) == ObjectsOf(kids) + Objects(t) && fresh(Objects(t))
    ensures mem.live == old(mem.live) + Objects(t)
    ensures ok <==> P.ParseValue(s).Ok?
    ensures ok ==> rest == P.ParseValue(s).rest && Denotes(t, P.ParseValue(s).value)
    decreases |s|, 2
  {
    hide Denotes, P.ParseValue;
    child := LinkNext(prev, mem, kids);
    ok, rest, t := ReadValue(child, s, mem, Blank(child));
    DomEdit.LastSibling(null, kids, t, null);
  }

  /** parse_object */
  method ReadObject(item: Node, s: string, mem: Allocator, ghost t0: Tree)
    returns (ok: bool, rest: string, ghost t: Tree)
    requires Ready(mem, item, t0) && Peek(s) == '{' && !P.ParseValue(s).Unspecified?
    modifies mem, item`child, item`kind
    ensures Filled(mem, t, t0)
    ensures ok <==> P.ParseValue(s).Ok?
    ensures ok ==> rest == P.ParseValue(s).rest && Denotes(t, P.ParseValue(s).value)
    decreases |s|, 0
  {
    item.kind := KObject;
    ghost var t1 := t0.(kind := KObject);
    var value := Skip(s[1..]);
    if Peek(value) == '}' {
      return true, value[1..], t1;
    }
    var child := mem.NewItem();
    item.child := child;
    ghost var kids;
    ok, rest, kids := ReadMembers(child, value, mem);
    t := DomEdit.WithKids(t1, kids);
    DomEdit.TopIsBuilt(t1, kids);
  }

  /** The members of an object. */
  method ReadMembers(first: Node, s: string, mem: Allocator) returns (ok: bool, rest: string, ghost kids: seq<Tree>)
    requires Ready(mem, first, Blank(first)) && first.Alone() && !P.ParseMembers(s).Unspecified?
    modifies mem, first
    ensures Listed(mem, first, kids)
    ensures ok <==> P.ParseMembers(s).Ok?
    ensures ok ==> rest == P.ParseMembers(s).rest && DenoteMembers(kids, P.ParseMembers(s).value)
    decreases |s|, 3
  {
    ghost var t;
    ok, rest, t := ReadMember(first, s, mem);
    kids := [t];
    ListOfOne(t);
    if !ok {
      return;
    }
    ghost var m := P.ParseMember(s).value;
    rest := Skip(rest);
    AfterOne([], m, P.MoreMembers(rest));
    ok, rest, kids := ReadMoreMembers(first, rest, mem, kids, [m]);
  }

  /** A member that was read into a node, as far as it went. */
  twostate predicate MemberRead(mem: Allocator, item: Node, new t: Tree)
    reads *
  {
    && t.node == item && Sound(t) && Built(t)
    && fresh(Objects(t) - {item}) && mem.live == old(mem.live) + Objects(t)
  }

  /** A name, which parse_string leaves in the value and the code moves over, and a value. */
  method ReadMember(item: Node, s: string, mem: Allocator) returns (ok: bool, rest: string, ghost t: Tree)
    requires Ready(mem, item, Blank(item)) && !P.ParseMember(s).Unspecified?
    modifies mem, item`child, item`kind, item`number, item`valuestring, item`name
    ensures MemberRead(mem, item, t)
    ensures ok <==> P.ParseMember(s).Ok?
    ensures ok ==>
      var m := P.ParseMember(s);
      rest == m.rest && t.name != null && t.name.text == m.value.name && Denotes(t, m.value.value)
    decreases |s|, 2
  {
    ok, rest, t := ReadText(item, Skip(s), mem, Blank(item));
    if !ok {
      return;
    }
    item.name := item.valuestring;
    item.valuestring := null;
    t := t.(name := t.text, text := null);
    rest := Skip(rest);
    if Peek(rest) != ':' {
      ok := false;
      return;
    }
    ok, rest, t := ReadValue(item, Skip(rest[1..]), mem, t);
  }

  /** Link a new node behind `prev` and parse a member into it. */
  method ReadNextMember(prev: Node, s: string, mem: Allocator, ghost kids: seq<Tree>)
    returns (child: Node, ok: bool, rest: string, ghost t: Tree)
    requires prev == Last(null, kids) && DomEdit.AllLive(mem, kids) && Siblings(null, kids, null)
    requires !P.ParseMember(s).Unspecified?
    modifies mem, prev`next
    ensures child == t.node && SoundAll(kids + [t]) && Siblings(null, kids + [t], null)
    ensures ObjectsOf(kids + [t]) == ObjectsOf(kids) + Objects(t) && fresh(Objects(t))
    ensures mem.live == old(mem.live) + Objects(t)
    ensures ok <==> P.ParseMember(s).Ok?
    ensures ok ==>
      var m := P.ParseMember(s);
      rest == m.rest && t.name != null && t.name.text == m.value.name && Denotes(t, m.value.value)
    decreases |s|, 3
  {
    hide Denotes, P.ParseMember;
    child := LinkNext(prev, mem, kids);
    ok, rest, t := ReadMember(child, s, mem);
    DomEdit.LastSibling(null, kids, t, null);
  }

  /** The loop over the commas. */
  method ReadMoreMembers(last: Node, s: string, mem: Allocator, ghost kids0: seq<Tree>, ghost values0: seq<Member>)
    returns (ok: bool, rest: string, ghost kids: seq<Tree>)
    requires last == Last(null, kids0) && DomEdit.AllLive(mem, kids0) && Siblings(null, kids0, null)
    requires DenoteMembers(kids0, values0) && !P.MoreMembers(s).Unspecified?
    modifies mem, last`next
    ensures kids0 <= kids && SoundAll(kids) && Siblings(null, kids, null)
    ensures fresh(ObjectsOf(kids) - ObjectsOf(kids0)) && mem.live == old(mem.live) + ObjectsOf(kids)
    ensures ok <==> P.MoreMembers(s).Ok?
    ensures ok ==> rest == P.MoreMembers(s).rest && DenoteMembers(kids, values0 + P.MoreMembers(s).value)
    decreases |s|, 0
  {
    ghost var values := values0;
    var child := last;
    ok, rest, kids := true, s, kids0;
    while ok && Peek(rest) == ','
      invariant child == Last(null, kids) && (child == last || fresh(child))
      invariant kids0 <= kids && SoundAll(kids) && Siblings(null, kids, null)
      invariant fresh(ObjectsOf(kids) - ObjectsOf(kids0)) && mem.live == old(mem.live) + ObjectsOf(kids)
      invariant mem !in ObjectsOf(kids)
      invariant if ok
                then |rest| <= |s| && DenoteMembers(kids, values)
                     && After(values0, P.MoreMembers(s)) == After(values, P.MoreMembers(rest))
                else P.MoreMembers(s).Rejected?
      decreases ok, |rest|
    {
      ghost var m, t := P.ParseMember(rest[1..]), Blank(child);
      child, ok, rest, t := ReadNextMember(child, rest[1..], mem, kids);
      if ok {
        rest := Skip(rest);
        DenoteMembersAppend(kids, values, t, m.value);
        AfterOne(values, m.value, P.MoreMembers(rest));
        values := values + [m.value];
      }
      kids := kids + [t];
    }
    if ok {
      ok := Peek(rest) == '}';
      if ok {
        rest := rest[1..];
        assert values + [] == values;
      }
    }
  }

  // ---------------------------------------------------------------- the whole

  /** cJSON_Parse: on failure everything that was allocated has been freed again, on success
      everything that was allocated is in the tree. */
  method Parse(value: string, mem: Allocator) returns (c: Node?, ghost t: Tree)
    requires !P.Parse(value).Unspecified?
    modifies mem
    ensures c != null <==> P.Parse(value).Ok?
    ensures c == null ==> mem.live == old(mem.live)
    ensures c != null ==>
      && t.node == c && fresh(Objects(t)) && mem.live == old(mem.live) + Objects(t)
      && c.Alone() && Sound(t) && Built(t) && Denotes(t, P.Parse(value).value)
  {
    var item := mem.NewItem();
    var ok, rest;
    ok, rest, t := ReadValue(item, Skip(value), mem, Blank(item));
    c := item;
    if !ok {
      DeleteTree(item, mem, t);
      c := null;
    }
  }
}
