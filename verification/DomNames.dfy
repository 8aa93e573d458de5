/** The variants that find a child by its name, ignoring case (dap/cJSON.cpp). */
module DomNames {
  import opened CStrings
  import opened Dom
  import opened DomEdit

  /** `tolower` in the C locale */
  function Lower(c: char): char {
    if 'A' <= c <= 'Z' then (c as int + 32) as char else c
  }

  /** Two bytes are alike if they are equal or the same letter in two cases, and no others are. */
  lemma CaseIsAll(a: char, b: char)
    ensures Lower(a) == Lower(b) <==>
      || a == b
      || ('A' <= a <= 'Z' && b as int == a as int + 32)
      || ('A' <= b <= 'Z' && a as int == b as int + 32)
  {
  }

  /** The strings differ at most in the case of letters. */
  predicate SameLetters(a: string, b: string) {
    |a| == |b| && forall i | 0 <= i < |a| :: Lower(a[i]) == Lower(b[i])
  }

  /** cJSON_strcasecmp, as far as its callers look at the result */
  method StrCaseEqual(s1: string, s2: string) returns (equal: bool)
    requires NulFree(s1) && NulFree(s2)
    ensures equal <==> SameLetters(s1, s2)
  {
    var i := 0;
    while Lower(Peek(s1[i..])) == Lower(Peek(s2[i..]))
      invariant i <= |s1| && i <= |s2|
      invariant SameLetters(s1[..i], s2[..i])
      decreases |s1| - i
    {
      if i == |s1| {
        assert i == |s2|;
        assert s1[..i] == s1 && s2[..i] == s2;
        return true;
      }
      i := i + 1;
    }
    return false;
  }

  ghost predicate Named(t: Tree, name: string) {
    t.name != null && SameLetters(t.name.text, name)
  }

  /** Where the first child of a name is; the number of children if there is none. */
  ghost function Find(ts: seq<Tree>, name: string): (i: nat)
    ensures i <= |ts|
    ensures i < |ts| ==> Named(ts[i], name)
    ensures forall j :: 0 <= j < i ==> !Named(ts[j], name)
  {
    if ts == [] || Named(ts[0], name) then 0 else 1 + Find(ts[1..], name)
  }

  ghost predicate NamesAreCStrings(ts: seq<Tree>) {
    forall i :: 0 <= i < |ts| ==> ts[i].name != null ==> NulFree(ts[i].name.text)
  }

  /** The loop all the by-name functions share. */
  method Walk(parent: Node, name: string, ghost mem: Allocator, ghost t: Tree) returns (c: Node?, i: nat)
    requires InMemory(mem, parent, t) && Built(t)
    requires NulFree(name) && NamesAreCStrings(t.kids)
    ensures i == Find(t.kids, name)
    ensures c == if i < |t.kids| then t.kids[i].node else null
  {
    c, i := parent.child, 0;
    ghost var previous := null;
    while c != null
      invariant i <= |t.kids| && i + Find(t.kids[i..], name) == Find(t.kids, name)
      invariant c == First(t.kids[i..], null) && Siblings(previous, t.kids[i..], null)
      invariant ObjectsOf(t.kids[i..]) <= mem.live
      decreases |t.kids| - i
    {
      ghost var rest := t.kids[i..];
      assert rest[0] == t.kids[i] && rest[1..] == t.kids[i + 1..];
      if c.name != null {
        var equal := StrCaseEqual(c.name.text, name);
        if equal {
          return;
        }
      }
      previous := c;
      i, c := i + 1, c.next;
    }
  }

  /** cJSON_GetObjectItem */
  method GetObjectItem(parent: Node, name: string, ghost mem: Allocator, ghost t: Tree) returns (c: Node?)
    requires InMemory(mem, parent, t) && Built(t)
    requires NulFree(name) && NamesAreCStrings(t.kids)
    ensures var i := Find(t.kids, name); c == if i < |t.kids| then t.kids[i].node else null
  {
    var i;
    c, i := Walk(parent, name, mem, t);
  }

  /** cJSON_DetachItemFromObject */
  method DetachItemFromObject(parent: Node, name: string, ghost mem: Allocator, ghost t: Tree) returns (c: Node?)
    requires InMemory(mem, parent, t) && Built(t)
    requires NulFree(name) && NamesAreCStrings(t.kids)
    modifies parent`child, Around(t.kids, Find(t.kids, name))`next, Around(t.kids, Find(t.kids, name))`prev
    ensures var i := Find(t.kids, name);
      if i == |t.kids| then c == null && Built(t)
      else
        var k, t2 := t.kids[i], WithKids(t, Without(t.kids, i));
        && c == k.node && c.Alone() && Sound(k) && Built(k)
        && Sound(t2) && Built(t2) && Objects(t2) == Objects(t) - Objects(k) && Objects(k) <= Objects(t)
  {
    var i;
    c, i := Walk(parent, name, mem, t);
    if c != null {
      c := DetachItemFromArray(parent, i, mem, t);
    }
  }

  /** cJSON_DeleteItemFromObject */
  method DeleteItemFromObject(parent: Node, name: string, mem: Allocator, ghost t: Tree)
    requires InMemory(mem, parent, t) && Built(t)
    requires NulFree(name) && NamesAreCStrings(t.kids)
    modifies mem, parent`child, Around(t.kids, Find(t.kids, name))`next, Around(t.kids, Find(t.kids, name))`prev
    ensures var i := Find(t.kids, name);
      if i == |t.kids| then Built(t) && mem.live == old(mem.live)
      else
        var k, t2 := t.kids[i], WithKids(t, Without(t.kids, i));
        Sound(t2) && Built(t2) && mem.live == old(mem.live) - Objects(k)
  {
    var c := DetachItemFromObject(parent, name, mem, t);
    if c != null {
      DeleteTree(c, mem, t.kids[Find(t.kids, name)]);
    }
  }

  // ---------------------------------------------------------------- naming

  ghost function Renamed(t: Tree, name: CString?): Tree {
    t.(name := name)
  }

  ghost function NameOf(t: Tree): set<object> {
    if t.name != null then {t.name} else {}
  }

  lemma RenamedIsSound(t: Tree, name: CString)
    requires Sound(t) && name !in Objects(t)
    ensures Sound(Renamed(t, name)) && Objects(Renamed(t, name)) == Objects(t) - NameOf(t) + {name}
  {
  }

  /** `item->string = strdup(name)` */
  method SetName(item: Node, name: string, mem: Allocator, ghost it: Tree)
    requires item == it.node && Sound(it) && Built(it) && ObjectsOf(it.kids) <= mem.live && mem !in Objects(it)
    requires forall o: object :: o in Objects(it) ==> allocated(o)
    modifies mem, item`name
    ensures item.name != null && fresh(item.name) && item.name.text == name
    ensures Sound(Renamed(it, item.name)) && Built(Renamed(it, item.name))
    ensures Objects(Renamed(it, item.name)) == Objects(it) - NameOf(it) + {item.name}
    ensures mem.live == old(mem.live) + {item.name}
  {
    var s := mem.Strdup(name);
    RenamedIsSound(it, s);
    item.name := s;
  }

  /** The name an item already had is freed. */
  method SwapName(item: Node, name: string, mem: Allocator, ghost it: Tree)
    requires item == it.node && Sound(it) && Built(it) && Objects(it) <= mem.live && mem !in Objects(it)
    modifies mem, item`name
    ensures item.name != null && fresh(item.name) && item.name.text == name
    ensures Sound(Renamed(it, item.name)) && Built(Renamed(it, item.name))
    ensures Objects(Renamed(it, item.name)) == Objects(it) - NameOf(it) + {item.name}
    ensures mem.live == old(mem.live) - NameOf(it) + {item.name}
  {
    if item.name != null {
      mem.Free(item.name);
    }
    SetName(item, name, mem, it);
  }

  /** cJSON_AddItemToObject, for an item that is there */
  method AddItemToObject(parent: Node, name: string, item: Node, mem: Allocator, ghost t: Tree, ghost it: Tree)
    requires InMemory(mem, parent, t) && Built(t)
    requires item == it.node && item.Alone() && Built(it) && Sound(it)
    requires Objects(it) <= mem.live && mem !in Objects(it) && Objects(it) !! Objects(t)
    modifies mem, parent`child, item`name, item`prev, LastNode(t.kids)`next
    ensures item.name != null && fresh(item.name) && item.name.text == name
    ensures mem.live == old(mem.live) - NameOf(it) + {item.name}
    ensures var t2 := WithKids(t, t.kids + [Renamed(it, item.name)]);
      Sound(t2) && Built(t2) && Objects(t2) == Objects(t) + (Objects(it) - NameOf(it)) + {item.name}
  {
    assert item !in Objects(t);
    SwapName(item, name, mem, it);
    Append(parent, item, mem, t, Renamed(it, item.name));
  }

  /** What the tree owns after a replacement, and what nothing owns then: the former name of the
      new item. */
  lemma ReplacementOwns(live: set<object>, t: Tree, i: nat, nt: Tree, name: CString)
    requires Sound(t) && i < |t.kids| && Sound(nt) && Objects(nt) !! Objects(t)
    requires Objects(t) <= live && Objects(nt) <= live && name !in live
    ensures var t2 := WithKids(t, t.kids[i := Renamed(nt, name)]);
      && Objects(t2) == Objects(t) - Objects(t.kids[i]) + (Objects(nt) - NameOf(nt)) + {name}
      && live + {name} - Objects(t.kids[i]) == (live - Objects(t) - Objects(nt)) + Objects(t2) + NameOf(nt)
      && NameOf(nt) !! (live - Objects(t) - Objects(nt)) + Objects(t2)
  {
    var a, k, b := t.kids[..i], t.kids[i], t.kids[i + 1..];
    var n := Renamed(nt, name);
    SplitAround(t.kids, i, n);
    OwnAndKids(t);
    OwnAndKids(WithKids(t, t.kids[i := n]));
    MiddleObjects(a, k, b);
    MiddleObjects(a, n, b);
    RenamedIsSound(nt, name);
    NameIsOwned(nt);
    Accounts(live, Own(t), ObjectsOf(a), Objects(k), ObjectsOf(b), Objects(nt), NameOf(nt), name);
    hide *;
  }

  /** The same as sets: a tree `own + (a + k + b)` gets `n` for `k`, under a new name. */
  lemma Accounts(live: set<object>, own: set<object>, a: set<object>, k: set<object>, b: set<object>,
                 n: set<object>, former: set<object>, name: object)
    requires own !! a + k + b && a !! k + b && k !! b
    requires own + (a + k + b) <= live && n <= live && n !! own + (a + k + b) && former <= n && name !in live
    ensures var t, t2 := own + (a + k + b), own + (a + (n - former + {name}) + b);
      && t2 == t - k + (n - former) + {name}
      && live + {name} - k == (live - t - n) + t2 + former
      && former !! (live - t - n) + t2
  {
  }

  lemma NameIsOwned(t: Tree)
    ensures NameOf(t) <= Objects(t)
  {
  }

  /** cJSON_ReplaceItemInObject.  Everything that is allocated afterwards is in the new tree or was
      in neither of the two exactly when the new item had no name: a former name is not freed. */
  method ReplaceItemInObject(parent: Node, name: string, newitem: Node, mem: Allocator, ghost t: Tree, ghost nt: Tree)
    requires InMemory(mem, parent, t) && Built(t)
    requires NulFree(name) && NamesAreCStrings(t.kids)
    requires newitem == nt.node && Built(nt) && Sound(nt)
    requires Objects(nt) <= mem.live && mem !in Objects(nt) && Objects(nt) !! Objects(t)
    modifies mem, parent`child, newitem`name, newitem`next, newitem`prev
    modifies Around(t.kids, Find(t.kids, name))`next, Around(t.kids, Find(t.kids, name))`prev
    ensures var i := Find(t.kids, name);
      if i == |t.kids| then Built(t) && Built(nt) && mem.live == old(mem.live)
      else
        && newitem.name != null && fresh(newitem.name) && newitem.name.text == name
        && var t2 := WithKids(t, t.kids[i := Renamed(nt, newitem.name)]);
        && Sound(t2) && Built(t2)
        && mem.live == old(mem.live) + {newitem.name} - Objects(t.kids[i])
        && mem.live == (old(mem.live) - Objects(t) - Objects(nt)) + Objects(t2) + NameOf(nt)
        && (mem.live == (old(mem.live) - Objects(t) - Objects(nt)) + Objects(t2) <==> nt.name == null)
  {
    ghost var live, i := mem.live, Find(t.kids, name);
    var c, at := Walk(parent, name, mem, t);
    if c != null {
      RenameAndReplace(parent, at, name, newitem, mem, t, nt);
      OnlyNameLeaks(live, t, i, nt, newitem.name);
    }
  }

  lemma OnlyNameLeaks(live: set<object>, t: Tree, i: nat, nt: Tree, name: CString)
    requires Sound(t) && i < |t.kids| && Sound(nt) && Objects(nt) !! Objects(t)
    requires Objects(t) <= live && Objects(nt) <= live && name !in live
    ensures var after, t2 := live + {name} - Objects(t.kids[i]), WithKids(t, t.kids[i := Renamed(nt, name)]);
      && after == (live - Objects(t) - Objects(nt)) + Objects(t2) + NameOf(nt)
      && (after == (live - Objects(t) - Objects(nt)) + Objects(t2) <==> nt.name == null)
  {
    ReplacementOwns(live, t, i, nt, name);
    hide Objects;
    if nt.name != null {
      assert nt.name in NameOf(nt);
    }
  }

  method RenameAndReplace(parent: Node, which: nat, name: string, newitem: Node, mem: Allocator, ghost t: Tree,
          ghost nt: Tree)
    requires InMemory(mem, parent, t) && Built(t) && which < |t.kids|
    requires newitem == nt.node && Built(nt) && Sound(nt)
    requires Objects(nt) <= mem.live && mem !in Objects(nt) && Objects(nt) !! Objects(t)
    modifies mem, parent`child, newitem`name, newitem`next, newitem`prev
    modifies Around(t.kids, which)`next, Around(t.kids, which)`prev
    ensures newitem.name != null && fresh(newitem.name) && newitem.name.text == name
    ensures Sound(WithKids(t, t.kids[which := Renamed(nt, newitem.name)]))
    ensures Built(WithKids(t, t.kids[which := Renamed(nt, newitem.name)]))
    ensures mem.live == old(mem.live) + {newitem.name} - Objects(t.kids[which])
  {
    assert Index(which) == which;
    NameNewItem(parent, name, newitem, mem, t, nt);
    hide Index, Sound, Objects, Find, Renamed, Around, WithKids;
    ReplaceItemInArray(parent, which, newitem, mem, t, Renamed(nt, newitem.name));
  }

  /** The new item gets its name, and the list it is for is as it was. */
  method NameNewItem(parent: Node, name: string, newitem: Node, mem: Allocator, ghost t: Tree, ghost nt: Tree)
    requires InMemory(mem, parent, t) && Built(t)
    requires newitem == nt.node && Built(nt) && Sound(nt)
    requires Objects(nt) <= mem.live && mem !in Objects(nt) && Objects(nt) !! Objects(t)
    modifies mem, newitem`name
    ensures InMemory(mem, parent, t) && Built(t)
    ensures newitem.name != null && fresh(newitem.name) && newitem.name.text == name
    ensures mem.live == old(mem.live) + {newitem.name}
    ensures var n := Renamed(nt, newitem.name);
      && newitem == n.node && Built(n) && Sound(n)
      && Objects(n) <= mem.live && mem !in Objects(n) && Objects(n) !! Objects(t)
  {
    assert newitem !in Objects(t);
    OwnAndKids(t);
    hide Sound, SoundAll, ObjectsOf, Objects, Siblings;
    SetName(newitem, name, mem, nt);
  }

  lemma BlankOwns(n: Node)
    ensures Sound(Blank(n)) && Objects(Blank(n)) == {n}
  {
  }

  lemma FoundFirst(t: Tree, name: string)
    requires t.name != null && t.name.text == name
    ensures Find([] + [t], name) == 0 && ([] + [t])[0] == t
    ensures NulFree(name) ==> NamesAreCStrings([] + [t])
  {
  }

  /** A container with one item of that name. */
  method OneItem(name: string, mem: Allocator) returns (parent: Node, ghost t: Tree)
    requires NulFree(name)
    modifies mem
    ensures InMemory(mem, parent, t) && Built(t) && fresh(Objects(t)) && mem.live == old(mem.live) + Objects(t)
    ensures |t.kids| == 1 && Find(t.kids, name) == 0 && NamesAreCStrings(t.kids)
  {
    hide Find;
    parent := mem.NewItem();
    var child := mem.NewItem();
    BlankOwns(parent);
    BlankOwns(child);
    AddItemToObject(parent, name, child, mem, Blank(parent), Blank(child));
    ghost var kid := Renamed(Blank(child), child.name);
    FoundFirst(kid, name);
    t := WithKids(Blank(parent), [] + [kid]);
  }

  /** A detached item of that name. */
  method NamedItem(name: string, mem: Allocator) returns (item: Node, ghost t: Tree)
    modifies mem
    ensures item == t.node && t.name != null && t.name.text == name && Sound(t) && Built(t)
    ensures fresh(Objects(t)) && mem.live == old(mem.live) + Objects(t) && Objects(t) == {item, t.name}
  {
    item := mem.NewItem();
    BlankOwns(item);
    SetName(item, name, mem, Blank(item));
    t := Renamed(Blank(item), item.name);
  }

  lemma AroundIsOwned(ts: seq<Tree>, i: nat)
    ensures Around(ts, i) <= ObjectsOf(ts)
  {
    if i < |ts| {
      var a, k, b := ts[..i], ts[i], ts[i + 1..];
      SplitAround(ts, i, k);
      MiddleObjects(a, k, b);
      EndsAreOwned(a);
      EndsAreOwned(b);
    }
  }

  /** An input on which a name is lost: the new item is called "b" when it replaces "a". */
  method ReplaceNamedItem(mem: Allocator) returns (lost: CString, ghost t: Tree)
    modifies mem
    ensures Built(t) && lost.text == "b" && lost !in Objects(t) && lost !in old(mem.live)
    ensures mem.live == old(mem.live) + Objects(t) + {lost}
  {
    hide Find;
    ghost var live := mem.live;
    var parent, item;
    ghost var t1, it;
    parent, t1 := OneItem("a", mem);
    item, it := NamedItem("b", mem);
    lost := item.name;
    ghost var before := mem.live;
    AroundIsOwned(t1.kids, 0);
    OwnAndKids(t1);
    ReplaceItemInObject(parent, "a", item, mem, t1, it);
    t := WithKids(t1, t1.kids[0 := Renamed(it, item.name)]);
    ReplacementOwns(before, t1, 0, it, item.name);
    hide Objects, Sound;
    assert before - Objects(t1) - Objects(it) == live;
  }

  /** cJSON_AddItemReferenceToArray */
  method AddItemReferenceToArray(parent: Node, item: Node, mem: Allocator, ghost t: Tree, ghost it: Tree)
    returns (ref: Node)
    requires InMemory(mem, parent, t) && Built(t)
    requires item == it.node && Built(it)
    modifies mem, parent`child, LastNode(t.kids)`next
    ensures fresh(ref) && mem.live == old(mem.live) + {ref}
    ensures var t2 := WithKids(t, t.kids + [ReferenceTo(it, ref)]);
      Sound(t2) && Built(t2) && Objects(t2) == Objects(t) + {ref}
  {
    ref := CreateReference(item, mem, it);
    Append(parent, ref, mem, t, ReferenceTo(it, ref));
  }
}
