/** Reading and building objects through their nodes (dap/JSON.cpp): the walk over the children
    agrees with the lookup by value, and adding a child adds a member. */
module JsonNodes {
  import opened Wrappers
  import opened JsonValues
  import opened Dom
  import opened DomEdit
  import DomNames
  import opened DomParser
  import opened JsonAccess
  import opened Messages

  /** Where the first member of a name is; the number of members if there is none. */
  ghost function Position(members: seq<Member>, name: string): (k: nat)
    ensures k <= |members|
    ensures FindMember(members, name) == if k < |members| then Some(members[k].value) else None
  {
    if members == [] || members[0].name == name then 0 else 1 + Position(members[1..], name)
  }

  /** operator[] of an object: the child of the first member of exactly that name. */
  method Lookup(object_: Node, index: string, ghost mem: Allocator, ghost t: Tree, ghost members: seq<Member>)
    returns (child: Node?)
    requires object_ == t.node && Built(t) && ObjectsOf(t.kids) <= mem.live && Denotes(t, Object(members))
    ensures |t.kids| == |members|
    ensures var k := Position(members, index);
      if k < |members| then child == t.kids[k].node && Denotes(t.kids[k], members[k].value) else child == null
  {
    hide Denotes;
    Children(t, members);
    child := object_.child;
    ghost var k, previous := 0, null;
    while child != null
      invariant k <= |t.kids| == |members| && Position(members, index) == k + Position(members[k..], index)
      invariant child == First(t.kids[k..], null) && Siblings(previous, t.kids[k..], null)
      invariant ObjectsOf(t.kids[k..]) <= mem.live && DenoteMembers(t.kids[k..], members[k..])
      decreases |t.kids| - k
    {
      assert t.kids[k..][1..] == t.kids[k + 1..] && members[k..][1..] == members[k + 1..];
      if child.name != null && child.name.text == index {
        return;
      }
      previous := child;
      k, child := k + 1, child.next;
    }
  }

  lemma Children(t: Tree, members: seq<Member>)
    requires Denotes(t, Object(members))
    ensures |t.kids| == |members| && DenoteMembers(t.kids[0..], members[0..]) && !t.reference
  {
    assert t.kids[0..] == t.kids && members[0..] == members;
  }

  /** cJSON_CreateString */
  method CreateString(text: string, mem: Allocator) returns (item: Node, ghost it: Tree)
    modifies mem
    ensures item == it.node && item.Alone() && Sound(it) && Built(it) && Denotes(it, String(text)) && it.name == null
    ensures fresh(Objects(it)) && mem.live == old(mem.live) + Objects(it)
  {
    item := mem.NewItem();
    item.kind := KString;
    item.valuestring := mem.Strdup(text);
    it := Blank(item).(kind := KString, text := item.valuestring);
  }

  /** cJSON_CreateNumber */
  method CreateNumber(number: real, mem: Allocator) returns (item: Node, ghost it: Tree)
    modifies mem
    ensures item == it.node && item.Alone() && Sound(it) && Built(it) && Denotes(it, Number(number)) && it.name == null
    ensures fresh(Objects(it)) && mem.live == old(mem.live) + Objects(it)
  {
    item := mem.NewItem();
    item.kind := KNumber;
    item.number := number;
    it := Blank(item).(kind := KNumber, number := number);
  }

  /** cJSON_CreateBool */
  method CreateBool(b: bool, mem: Allocator) returns (item: Node, ghost it: Tree)
    modifies mem
    ensures item == it.node && item.Alone() && Sound(it) && Built(it) && it.name == null
    ensures Denotes(it, if b then True else False)
    ensures fresh(Objects(it)) && mem.live == old(mem.live) + Objects(it)
  {
    item := mem.NewItem();
    item.kind := if b then KTrue else KFalse;
    it := Blank(item).(kind := if b then KTrue else KFalse);
  }

  lemma MemberAdded(t: Tree, members: seq<Member>, it: Tree, name: CString, v: Json)
    requires Denotes(t, Object(members)) && Denotes(it, v)
    ensures Denotes(WithKids(t, t.kids + [DomNames.Renamed(it, name)]), Object(members + [Member(name.text, v)]))
  {
    DenoteMembersAppend(t.kids, members, DomNames.Renamed(it, name), Member(name.text, v));
  }

  /** `t2` is `t` with more in it: what is new was allocated, and what was allocated is in `t2`. */
  twostate predicate Grown(mem: Allocator, t: Tree, new t2: Tree)
    reads *
  {
    Objects(t) <= Objects(t2) && fresh(Objects(t2) - Objects(t)) && mem.live == old(mem.live) + Objects(t2)
  }

  /** Add(name, value) to an object: its last member is new, and everything allocated is in it. */
  method AddString(parent: Node, name: string, value: string, mem: Allocator, ghost t: Tree, ghost members: seq<Member>)
    returns (ghost t2: Tree)
    requires InMemory(mem, parent, t) && Built(t) && Denotes(t, Object(members))
    modifies mem, Objects(t)
    ensures InMemory(mem, parent, t2) && Built(t2) && Denotes(t2, Object(members + [Member(name, String(value))]))
    ensures Grown(mem, t, t2)
  {
    hide Denotes;
    EndsAreOwned(t.kids);
    ghost var it;
    var item;
    item, it := CreateString(value, mem);
    t2 := AddMember(parent, name, item, mem, t, it, members, String(value));
  }

  method AddNumber(parent: Node, name: string, value: real, mem: Allocator, ghost t: Tree, ghost members: seq<Member>)
    returns (ghost t2: Tree)
    requires InMemory(mem, parent, t) && Built(t) && Denotes(t, Object(members))
    modifies mem, Objects(t)
    ensures InMemory(mem, parent, t2) && Built(t2) && Denotes(t2, Object(members + [Member(name, Number(value))]))
    ensures Grown(mem, t, t2)
  {
    hide Denotes;
    EndsAreOwned(t.kids);
    ghost var it;
    var item;
    item, it := CreateNumber(value, mem);
    t2 := AddMember(parent, name, item, mem, t, it, members, Number(value));
  }

  method AddBool(parent: Node, name: string, value: bool, mem: Allocator, ghost t: Tree, ghost members: seq<Member>)
    returns (ghost t2: Tree)
    requires InMemory(mem, parent, t) && Built(t) && Denotes(t, Object(members))
    modifies mem, Objects(t)
    ensures InMemory(mem, parent, t2) && Built(t2)
    ensures Denotes(t2, Object(members + [Member(name, if value then True else False)]))
    ensures Grown(mem, t, t2)
  {
    hide Denotes, Sound, Built;
    EndsAreOwned(t.kids);
    ghost var v := if value then True else False;
    ghost var it;
    var item;
    item, it := CreateBool(value, mem);
    t2 := AddMember(parent, name, item, mem, t, it, members, v);
  }

  /** cJSON_AddItemToObject with the node of a new value. */
  method AddMember(parent: Node, name: string, item: Node, mem: Allocator, ghost t: Tree, ghost it: Tree,
          ghost members: seq<Member>, ghost v: Json)
    returns (ghost t2: Tree)
    requires InMemory(mem, parent, t) && Built(t) && Denotes(t, Object(members))
    requires item == it.node && item.Alone() && Sound(it) && Built(it) && Denotes(it, v) && it.name == null
    requires Objects(it) <= mem.live && mem !in Objects(it) && Objects(it) !! Objects(t)
    modifies mem, parent`child, item`name, item`prev, LastNode(t.kids)`next
    ensures InMemory(mem, parent, t2) && Built(t2) && Denotes(t2, Object(members + [Member(name, v)]))
    ensures Objects(t) + Objects(it) <= Objects(t2) && fresh(Objects(t2) - Objects(t) - Objects(it))
    ensures mem.live == old(mem.live) + Objects(t2)
  {
    hide Denotes;
    DomNames.AddItemToObject(parent, name, item, mem, t, it);
    MemberAdded(t, members, it, item.name, v);
    t2 := WithKids(t, t.kids + [DomNames.Renamed(it, item.name)]);
  }

  // ---------------------------------------------------------------- a source, to nodes and back

  /** CreateObject */
  method CreateObject(mem: Allocator) returns (item: Node, ghost it: Tree)
    modifies mem
    ensures InMemory(mem, item, it) && Built(it) && Denotes(it, Object([]))
    ensures fresh(Objects(it)) && mem.live == old(mem.live) + Objects(it)
  {
    item := mem.NewItem();
    item.kind := KObject;
    it := Blank(item).(kind := KObject);
  }

  /** Source::To, call by call: the nodes it leaves denote what module Messages says. */
  method SourceToNodes(s: Source, mem: Allocator) returns (root: Node, ghost t: Tree)
    modifies mem
    ensures InMemory(mem, root, t) && Built(t) && Denotes(t, SourceTo(s))
    ensures fresh(Objects(t)) && mem.live == old(mem.live) + Objects(t)
  {
    hide Denotes, Sound, Built, Objects;
    assert [] + [Member("name", String(s.name))] == [Member("name", String(s.name))];
    root, t := CreateObject(mem);
    t := AddString(root, "name", s.name, mem, t, []);
    t := AddPath(root, s.path, mem, t, [Member("name", String(s.name))]);
    t := AddReference(root, s.sourceReference, mem, t, [Member("name", String(s.name))] + PathMember(s.path));
  }

  method AddPath(root: Node, path: string, mem: Allocator, ghost t: Tree, ghost members: seq<Member>)
    returns (ghost t2: Tree)
    requires InMemory(mem, root, t) && Built(t) && Denotes(t, Object(members))
    modifies mem, Objects(t)
    ensures InMemory(mem, root, t2) && Built(t2) && Denotes(t2, Object(members + PathMember(path))) && Grown(mem, t, t2)
  {
    hide Denotes;
    t2 := t;
    if path != "" {
      t2 := AddString(root, "path", path, mem, t, members);
    } else {
      assert members + [] == members;
    }
  }

  method AddReference(root: Node, reference: int, mem: Allocator, ghost t: Tree, ghost members: seq<Member>)
    returns (ghost t2: Tree)
    requires InMemory(mem, root, t) && Built(t) && Denotes(t, Object(members))
    modifies mem, Objects(t)
    ensures InMemory(mem, root, t2) && Built(t2) && Denotes(t2, Object(members + ReferenceMember(reference)))
    ensures Grown(mem, t, t2)
  {
    hide Denotes;
    t2 := t;
    if reference > 0 {
      t2 := AddNumber(root, "sourceReference", reference as real, mem, t, members);
    } else {
      assert members + [] == members;
    }
  }
}
