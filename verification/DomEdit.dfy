/** Child lists edited in place: each edit of the links is one edit of the sequence of
    children (dap/cJSON.cpp). */
module DomEdit {
  import opened Dom

  /** `while(c && which > 0)`: a negative index counts as zero. */
  function Index(which: int): nat {
    if which < 0 then 0 else which
  }

  ghost function WithKids(t: Tree, kids: seq<Tree>): Tree {
    t.(kids := kids)
  }

  ghost function Without(kids: seq<Tree>, i: nat): seq<Tree>
    requires i < |kids|
  {
    kids[..i] + kids[i + 1..]
  }

  /** `parent` is the top of a tree that is in memory. */
  ghost predicate InMemory(mem: Allocator, parent: Node, t: Tree)
    reads mem
  {
    parent == t.node && !t.reference && Sound(t) && Objects(t) <= mem.live && mem !in Objects(t)
  }

  lemma OwnAndKids(t: Tree)
    ensures t.node in Own(t) && Objects(t) == Own(t) + ObjectsOf(t.kids)
    ensures Sound(t) ==> Own(t) !! ObjectsOf(t.kids) && SoundAll(t.kids)
  {
  }

  // ---------------------------------------------------------------- reading

  /** cJSON_GetArraySize, for the children that `parent` has or, as a reference, shares */
  method GetArraySize(parent: Node, ghost kids: seq<Tree>) returns (size: nat)
    requires parent.child == First(kids, null) && Siblings(null, kids, null)
    ensures size == |kids|
  {
    var c := parent.child;
    ghost var previous, rest := null, kids;
    size := 0;
    while c != null
      invariant c == First(rest, null) && Siblings(previous, rest, null)
      invariant size + |rest| == |kids|
      decreases |rest|
    {
      previous, rest := c, rest[1..];
      size, c := size + 1, c.next;
    }
  }

  /** cJSON_GetArrayItem, likewise */
  method GetArrayItem(parent: Node, item: int, ghost kids: seq<Tree>) returns (c: Node?)
    requires parent.child == First(kids, null) && Siblings(null, kids, null)
    ensures c == if Index(item) < |kids| then kids[Index(item)].node else null
    ensures item < 0 ==> c == parent.child
    ensures 0 <= item < |kids| ==> c == kids[item].node
  {
    c := parent.child;
    var left := item;
    ghost var previous, i := null, 0;
    while c != null && left > 0
      invariant i <= |kids| && left == item - i && (i > 0 ==> left >= 0)
      invariant c == First(kids[i..], null) && Siblings(previous, kids[i..], null)
      decreases |kids| - i
    {
      assert kids[i..][1..] == kids[i + 1..];
      previous, i := c, i + 1;
      left, c := left - 1, c.next;
    }
  }

  lemma ChildList(parent: Node, t: Tree)
    requires parent == t.node && !t.reference && Built(t)
    ensures parent.child == First(t.kids, null) && Siblings(null, t.kids, null)
  {
  }

  // ---------------------------------------------------------------- links

  ghost predicate AllLive(mem: Allocator, ts: seq<Tree>)
    reads mem
  {
    SoundAll(ts) && ObjectsOf(ts) <= mem.live && mem !in ObjectsOf(ts)
  }

  /** A sibling list as what is before its last tree, and that tree. */
  lemma LastSibling(before: Node?, ts: seq<Tree>, last: Tree, after: Node?)
    ensures Siblings(before, ts + [last], after) <==>
      && Siblings(before, ts, last.node)
      && Built(last) && last.node.prev == Last(before, ts) && last.node.next == after
    ensures ObjectsOf(ts + [last]) == ObjectsOf(ts) + Objects(last)
    ensures SoundAll(ts + [last]) <==> SoundAll(ts) && Sound(last) && ObjectsOf(ts) !! Objects(last)
  {
    ConcatSiblings(before, ts, [last], after);
    ConcatLists(ts, [last]);
    assert [last][1..] == [];
  }

  lemma FirstSibling(before: Node?, first: Tree, ts: seq<Tree>, after: Node?)
    ensures Siblings(before, [first] + ts, after) <==>
      && Built(first) && first.node.prev == before && first.node.next == First(ts, after)
      && Siblings(first.node, ts, after)
    ensures ObjectsOf([first] + ts) == Objects(first) + ObjectsOf(ts)
    ensures SoundAll([first] + ts) <==> SoundAll(ts) && Sound(first) && Objects(first) !! ObjectsOf(ts)
  {
    assert ([first] + ts)[1..] == ts;
  }

  /** A sibling list around one of its trees. */
  lemma MiddleSibling(before: Node?, a: seq<Tree>, k: Tree, b: seq<Tree>, after: Node?)
    ensures Siblings(before, a + ([k] + b), after) <==>
      && Siblings(before, a, k.node)
      && Built(k) && k.node.prev == Last(before, a) && k.node.next == First(b, after)
      && Siblings(k.node, b, after)
  {
    ConcatSiblings(before, a, [k] + b, after);
    FirstSibling(Last(before, a), k, b, after);
  }

  lemma MiddleObjects(a: seq<Tree>, k: Tree, b: seq<Tree>)
    ensures ObjectsOf(a + ([k] + b)) == ObjectsOf(a) + Objects(k) + ObjectsOf(b)
    ensures SoundAll(a + ([k] + b)) <==>
      && SoundAll(a) && Sound(k) && SoundAll(b)
      && ObjectsOf(a) !! Objects(k) + ObjectsOf(b) && Objects(k) !! ObjectsOf(b)
    ensures SoundAll(a + ([k] + b)) ==> SoundAll(a + b) && ObjectsOf(a + b) == ObjectsOf(a) + ObjectsOf(b)
  {
    ConcatLists(a, [k] + b);
    ConcatLists(a, b);
    assert ([k] + b)[1..] == b;
  }

  /** `last->next = after`: the list now ends before `after`. */
  method SetNext(n: Node, after: Node?, ghost mem: Allocator, ghost before: Node?, ghost ts: seq<Tree>,
          ghost last: Tree)
    requires n == last.node && AllLive(mem, ts + [last]) && Siblings(before, ts + [last], n.next)
    modifies n`next
    ensures n.next == after && Siblings(before, ts + [last], after)
  {
    LastSibling(before, ts, last, n.next);
    n.next := after;
    LastSibling(before, ts, last, after);
  }

  /** `first->prev = before`: the list now begins behind `before`. */
  method SetPrev(n: Node, before: Node?, ghost mem: Allocator, ghost first: Tree, ghost ts: seq<Tree>,
          ghost after: Node?)
    requires n == first.node && AllLive(mem, [first] + ts) && Siblings(n.prev, [first] + ts, after)
    modifies n`prev
    ensures n.prev == before && Siblings(before, [first] + ts, after)
  {
    FirstSibling(n.prev, first, ts, after);
    n.prev := before;
    FirstSibling(before, first, ts, after);
  }

  /** `c->prev->next = next`, when there is something before `c` */
  method EndBefore(c: Node, next: Node?, ghost mem: Allocator, ghost a: seq<Tree>)
    requires AllLive(mem, a) && Siblings(null, a, c) && c.prev == Last(null, a)
    requires c !in ObjectsOf(a)
    modifies LastNode(a)`next
    ensures Siblings(null, a, next)
  {
    if c.prev != null {
      assert a == a[..|a| - 1] + [a[|a| - 1]];
      LastSibling(null, a[..|a| - 1], a[|a| - 1], c);
      SetNext(c.prev, next, mem, null, a[..|a| - 1], a[|a| - 1]);
    }
  }

  /** `c->next->prev = prev`, when there is something behind `c` */
  method BeginBehind(c: Node, prev: Node?, ghost mem: Allocator, ghost b: seq<Tree>)
    requires AllLive(mem, b) && Siblings(c, b, null) && c.next == First(b, null)
    requires c !in ObjectsOf(b)
    modifies FirstNode(b)`prev
    ensures Siblings(prev, b, null)
  {
    if c.next != null {
      assert b == [b[0]] + b[1..];
      SetPrev(c.next, prev, mem, b[0], b[1..], null);
    }
  }

  ghost function LastNode(ts: seq<Tree>): set<Node> {
    if ts == [] then {} else {ts[|ts| - 1].node}
  }

  /** The node at an index and its neighbours. */
  ghost function Around(ts: seq<Tree>, i: nat): set<Node> {
    if i < |ts| then LastNode(ts[..i]) + {ts[i].node} + FirstNode(ts[i + 1..]) else {}
  }

  lemma {:induction false} EndsAreOwned(ts: seq<Tree>)
    ensures LastNode(ts) <= ObjectsOf(ts) && FirstNode(ts) <= ObjectsOf(ts)
  {
    if |ts| > 1 {
      EndsAreOwned(ts[1..]);
    }
  }

  ghost function FirstNode(ts: seq<Tree>): set<Node> {
    if ts == [] then {} else {ts[0].node}
  }

  // ---------------------------------------------------------------- appending

  /** cJSON_AddItemToArray, for an item that is there */
  method Append(parent: Node, item: Node, ghost mem: Allocator, ghost t: Tree, ghost it: Tree)
    requires InMemory(mem, parent, t) && Built(t)
    requires item == it.node && item.Alone() && Built(it) && Sound(it)
    requires Objects(it) <= mem.live && mem !in Objects(it) && Objects(it) !! Objects(t)
    modifies parent`child, item`prev, LastNode(t.kids)`next
    ensures Sound(WithKids(t, t.kids + [it])) && Built(WithKids(t, t.kids + [it]))
    ensures Objects(WithKids(t, t.kids + [it])) == Objects(t) + Objects(it)
  {
    AppendedIsSound(mem, t, it);
    var c := parent.child;
    if c == null {
      parent.child := item;
    } else {
      c := FindLast(parent, t);
      SuffixObject(c, item, mem, t.kids, it);
    }
    LastSibling(null, t.kids, it, null);
    TopIsBuilt(t, t.kids + [it]);
  }

  lemma AppendedIsSound(mem: Allocator, t: Tree, it: Tree)
    requires InMemory(mem, t.node, t)
    requires Sound(it) && Objects(it) <= mem.live && mem !in Objects(it) && Objects(it) !! Objects(t)
    ensures AllLive(mem, t.kids + [it])
    ensures Sound(WithKids(t, t.kids + [it])) && Objects(WithKids(t, t.kids + [it])) == Objects(t) + Objects(it)
    ensures t.node !in ObjectsOf(t.kids) && t.node !in ObjectsOf(it.kids)
  {
    LastSibling(null, t.kids, it, null);
  }

  /** The walk to the last child. */
  method FindLast(parent: Node, ghost t: Tree) returns (c: Node)
    requires parent == t.node && !t.reference && Built(t) && t.kids != []
    ensures c == Last(null, t.kids)
  {
    c := parent.child;
    ghost var previous, rest := null, t.kids;
    while c.next != null
      invariant rest != [] && c == rest[0].node && Siblings(previous, rest, null)
      invariant Last(null, rest) == Last(null, t.kids)
      decreases |rest|
    {
      previous, rest := c, rest[1..];
      c := c.next;
    }
  }

  /** suffix_object */
  method SuffixObject(prev: Node, item: Node, ghost mem: Allocator, ghost ts: seq<Tree>, ghost it: Tree)
    requires prev == Last(null, ts) && Siblings(null, ts, null)
    requires item == it.node && item.Alone() && Built(it) && AllLive(mem, ts + [it])
    modifies prev`next, item`prev
    ensures Siblings(null, ts, item) && Built(it) && item.prev == prev && item.next == null
  {
    ConcatLists(ts, [it]);
    assert ts == ts[..|ts| - 1] + [ts[|ts| - 1]];
    LastSibling(null, ts[..|ts| - 1], ts[|ts| - 1], null);
    SetNext(prev, item, mem, null, ts[..|ts| - 1], ts[|ts| - 1]);
    item.prev := prev;
  }

  lemma SplitAround(ts: seq<Tree>, i: nat, nt: Tree)
    ensures i < |ts| ==> ts == ts[..i] + ([ts[i]] + ts[i + 1..])
    ensures i < |ts| ==> ts[i := nt] == ts[..i] + ([nt] + ts[i + 1..])
  {
  }

  // ---------------------------------------------------------------- detaching

  /** cJSON_DetachItemFromArray */
  method DetachItemFromArray(parent: Node, which: int, ghost mem: Allocator, ghost t: Tree) returns (c: Node?)
    requires InMemory(mem, parent, t) && Built(t)
    modifies parent`child, Around(t.kids, Index(which))`next, Around(t.kids, Index(which))`prev
    ensures Index(which) >= |t.kids| ==> c == null && Built(t)
    ensures Index(which) < |t.kids| ==>
      var k, t2 := t.kids[Index(which)], WithKids(t, Without(t.kids, Index(which)));
      && c == k.node && c.Alone() && Sound(k) && Built(k)
      && Sound(t2) && Built(t2) && Objects(t2) == Objects(t) - Objects(k) && Objects(k) <= Objects(t)
  {
    ChildList(parent, t);
    SplitAround(t.kids, Index(which), t);
    hide Built, Siblings, Sound, SoundAll, Objects, ObjectsOf;
    c := GetArrayItem(parent, which, t.kids);
    if c != null {
      ghost var i := Index(which);
      ghost var a, k, b := t.kids[..i], t.kids[i], t.kids[i + 1..];
      Unlink(parent, c, mem, t, a, k, b);
    }
  }

  /** Let what is before a node end at `next` and what is behind it begin at `prev`. */
  method Rewire(c: Node, next: Node?, prev: Node?, ghost mem: Allocator, ghost a: seq<Tree>, ghost k: Tree,
          ghost b: seq<Tree>)
    requires AllLive(mem, a + ([k] + b)) && Siblings(null, a + ([k] + b), null) && c == k.node
    modifies LastNode(a)`next, FirstNode(b)`prev
    ensures Siblings(null, a, next) && Siblings(prev, b, null) && Built(k)
    ensures c.prev == Last(null, a) && c.next == First(b, null)
  {
    MiddleSibling(null, a, k, b, null);
    MiddleObjects(a, k, b);
    EndsAreOwned(a);
    EndsAreOwned(b);
    EndBefore(c, next, mem, a);
    BeginBehind(c, prev, mem, b);
  }

  /** Make what is before a node and what is behind it neighbours. */
  method Bridge(c: Node, ghost mem: Allocator, ghost a: seq<Tree>, ghost k: Tree, ghost b: seq<Tree>)
    requires AllLive(mem, a + ([k] + b)) && Siblings(null, a + ([k] + b), null) && c == k.node
    modifies LastNode(a)`next, FirstNode(b)`prev
    ensures Siblings(null, a + b, null) && Built(k)
    ensures c.prev == Last(null, a) && c.next == First(b, null)
  {
    MiddleSibling(null, a, k, b, null);
    Rewire(c, c.next, c.prev, mem, a, k, b);
    ConcatSiblings(null, a, b, null);
  }

  /** Make `head` the head of the list if `c` was, and clear the links of `c`. */
  method Release(parent: Node, c: Node, head: Node?, ghost mem: Allocator, ghost k: Tree, ghost rest: seq<Tree>)
    requires c == k.node && AllLive(mem, [k] + rest) && parent !in ObjectsOf([k] + rest)
    requires parent in mem.live
    requires Built(k) && Siblings(null, rest, null)
    modifies parent`child, c`next, c`prev
    ensures Built(k) && Siblings(null, rest, null) && c.Alone()
    ensures parent.child == if old(parent.child) == c then head else old(parent.child)
  {
    FirstSibling(null, k, rest, null);
    if c == parent.child {
      parent.child := head;
    }
    c.prev, c.next := null, null;
  }

  /** A top node whose fields are right and whose child list is `kids`. */
  lemma TopIsBuilt(t: Tree, kids: seq<Tree>)
    requires !t.reference && TopFields(t) && t.node.child == First(kids, null) && Siblings(null, kids, null)
    ensures Built(WithKids(t, kids))
  {
  }

  ghost predicate TopFields(t: Tree)
    reads t.node`name, t.node`valuestring, t.node`reference, t.node`kind, t.node`number
  {
    && t.node.name == t.name && t.node.valuestring == t.text && t.node.reference == t.reference
    && t.node.kind == t.kind && t.node.number == t.number
  }

  /** The end of an edit: the head of the list, and the links of the node taken out. */
  method Settle(parent: Node, c: Node, head: Node?, ghost mem: Allocator, ghost t: Tree, ghost k: Tree,
          ghost kids: seq<Tree>)
    requires parent == t.node && !t.reference && TopFields(t)
    requires c == k.node && AllLive(mem, [k] + kids) && parent !in ObjectsOf([k] + kids) && parent in mem.live
    requires Built(k) && Siblings(null, kids, null)
    requires First(kids, null) == if parent.child == c then head else parent.child
    modifies parent`child, c`next, c`prev
    ensures c.Alone() && Built(k) && Built(WithKids(t, kids))
  {
    Release(parent, c, head, mem, k, kids);
    TopIsBuilt(t, kids);
  }

  method Unlink(parent: Node, c: Node, ghost mem: Allocator, ghost t: Tree, ghost a: seq<Tree>, ghost k: Tree,
          ghost b: seq<Tree>)
    requires InMemory(mem, parent, t) && Built(t) && t.kids == a + ([k] + b) && c == k.node
    modifies parent`child, c`next, c`prev, LastNode(a)`next, FirstNode(b)`prev
    ensures c.Alone() && Sound(k) && Built(k)
    ensures Sound(WithKids(t, a + b)) && Built(WithKids(t, a + b))
    ensures Objects(WithKids(t, a + b)) == Objects(t) - Objects(k) && Objects(k) <= Objects(t)
  {
    RestIsSound(mem, t, a, k, b);
    Bridge(c, mem, a, k, b);
    Settle(parent, c, c.next, mem, t, k, a + b);
  }

  lemma RestIsSound(mem: Allocator, t: Tree, a: seq<Tree>, k: Tree, b: seq<Tree>)
    requires InMemory(mem, t.node, t) && t.kids == a + ([k] + b)
    ensures Sound(k) && Sound(WithKids(t, a + b))
    ensures Objects(WithKids(t, a + b)) == Objects(t) - Objects(k) && Objects(k) <= Objects(t)
    ensures AllLive(mem, [k] + (a + b)) && t.node !in ObjectsOf([k] + (a + b))
  {
    MiddleObjects(a, k, b);
    FirstSibling(null, k, a + b, null);
  }

  /** cJSON_DeleteItemFromArray */
  method DeleteItemFromArray(parent: Node, which: int, mem: Allocator, ghost t: Tree)
    requires InMemory(mem, parent, t) && Built(t)
    modifies mem, parent`child, Around(t.kids, Index(which))`next, Around(t.kids, Index(which))`prev
    ensures Index(which) >= |t.kids| ==> Built(t) && mem.live == old(mem.live)
    ensures Index(which) < |t.kids| ==>
      var k, t2 := t.kids[Index(which)], WithKids(t, Without(t.kids, Index(which)));
      Sound(t2) && Built(t2) && mem.live == old(mem.live) - Objects(k)
  {
    var c := DetachItemFromArray(parent, which, mem, t);
    if c != null {
      DeleteTree(c, mem, t.kids[Index(which)]);
    }
  }

  // ---------------------------------------------------------------- replacing

  /** Give one node the neighbours of another. */
  method CopyLinks(c: Node, newitem: Node, ghost mem: Allocator, ghost list: seq<Tree>, ghost nt: Tree)
    requires ObjectsOf(list) <= mem.live && Siblings(null, list, null)
    requires newitem == nt.node && Built(nt) && Sound(nt) && Objects(nt) <= mem.live
    requires newitem !in ObjectsOf(list) && c != newitem
    modifies newitem`next, newitem`prev
    ensures Siblings(null, list, null) && Built(nt)
    ensures newitem.next == c.next && newitem.prev == c.prev
  {
    newitem.next := c.next;
    newitem.prev := c.prev;
  }

  /** Put a node that has the neighbours of another between them. */
  method Substitute(c: Node, newitem: Node, ghost mem: Allocator, ghost a: seq<Tree>, ghost k: Tree,
          ghost b: seq<Tree>, ghost nt: Tree)
    requires AllLive(mem, a + ([k] + b)) && Siblings(null, a + ([k] + b), null) && c == k.node
    requires newitem == nt.node && Built(nt) && Sound(nt) && Objects(nt) <= mem.live && mem !in Objects(nt)
    requires Objects(nt) !! ObjectsOf(a + ([k] + b))
    requires newitem.next == c.next && newitem.prev == c.prev
    modifies LastNode(a)`next, FirstNode(b)`prev
    ensures Siblings(null, a + ([nt] + b), null) && Built(k)
  {
    MiddleSibling(null, a, k, b, null);
    MiddleObjects(a, k, b);
    EndsAreOwned(a);
    EndsAreOwned(b);
    Rewire(c, newitem, newitem, mem, a, k, b);
    MiddleSibling(null, a, nt, b, null);
  }

  /** The list part of a replacement. */
  method Swap(c: Node, newitem: Node, ghost mem: Allocator, ghost a: seq<Tree>, ghost k: Tree, ghost b: seq<Tree>,
          ghost nt: Tree)
    requires AllLive(mem, a + ([k] + b)) && Siblings(null, a + ([k] + b), null) && c == k.node
    requires newitem == nt.node && Built(nt) && Sound(nt) && Objects(nt) <= mem.live && mem !in Objects(nt)
    requires Objects(nt) !! ObjectsOf(a + ([k] + b))
    modifies newitem`next, newitem`prev, LastNode(a)`next, FirstNode(b)`prev
    ensures Siblings(null, a + ([nt] + b), null) && Built(k)
  {
    assert c != newitem by { MiddleObjects(a, k, b); }
    CopyLinks(c, newitem, mem, a + ([k] + b), nt);
    Substitute(c, newitem, mem, a, k, b, nt);
  }

  lemma SwappedLists(a: seq<Tree>, k: Tree, b: seq<Tree>, nt: Tree)
    requires SoundAll(a + ([k] + b)) && Sound(nt) && Objects(nt) !! ObjectsOf(a + ([k] + b))
    ensures ObjectsOf(a + ([k] + b)) == ObjectsOf(a + b) + Objects(k) && Objects(k) !! ObjectsOf(a + b)
    ensures ObjectsOf(a + ([nt] + b)) == ObjectsOf(a + b) + Objects(nt) && SoundAll(a + ([nt] + b))
    ensures SoundAll([k] + (a + ([nt] + b)))
    ensures ObjectsOf([k] + (a + ([nt] + b))) == Objects(k) + ObjectsOf(a + b) + Objects(nt)
  {
    MiddleObjects(a, k, b);
    MiddleObjects(a, nt, b);
    FirstSibling(null, k, a + ([nt] + b), null);
  }

  lemma ReplacedIsSound(mem: Allocator, t: Tree, a: seq<Tree>, k: Tree, b: seq<Tree>, nt: Tree)
    requires InMemory(mem, t.node, t) && t.kids == a + ([k] + b)
    requires Sound(nt) && Objects(nt) <= mem.live && mem !in Objects(nt) && Objects(nt) !! Objects(t)
    ensures Sound(k) && Objects(k) <= Objects(t)
    ensures Sound(WithKids(t, a + ([nt] + b)))
    ensures Objects(WithKids(t, a + ([nt] + b))) <= Objects(t) - Objects(k) + Objects(nt)
    ensures AllLive(mem, [k] + (a + ([nt] + b))) && t.node !in ObjectsOf([k] + (a + ([nt] + b)))
  {
    SwappedLists(a, k, b, nt);
    MiddleObjects(a, k, b);
    OwnAndKids(t);
    OwnAndKids(WithKids(t, a + ([nt] + b)));
    hide Objects, ObjectsOf, SoundAll;
  }

  method Exchange(parent: Node, c: Node, newitem: Node, ghost mem: Allocator, ghost t: Tree, ghost a: seq<Tree>,
          ghost k: Tree, ghost b: seq<Tree>, ghost nt: Tree)
    requires InMemory(mem, parent, t) && Built(t) && t.kids == a + ([k] + b) && c == k.node
    requires newitem == nt.node && Built(nt) && Sound(nt)
    requires Objects(nt) <= mem.live && mem !in Objects(nt) && Objects(nt) !! Objects(t)
    modifies parent`child, newitem`next, newitem`prev, c`next, c`prev, LastNode(a)`next, FirstNode(b)`prev
    ensures c.Alone() && Built(k) && Built(WithKids(t, a + ([nt] + b)))
  {
    ReplacedIsSound(mem, t, a, k, b, nt);
    Swap(c, newitem, mem, a, k, b, nt);
    Settle(parent, c, newitem, mem, t, k, a + ([nt] + b));
  }

  /** Replace and free. */
  method ExchangeAndDelete(parent: Node, c: Node, newitem: Node, mem: Allocator, ghost t: Tree, ghost a: seq<Tree>,
          ghost k: Tree, ghost b: seq<Tree>, ghost nt: Tree)
    requires InMemory(mem, parent, t) && Built(t) && t.kids == a + ([k] + b) && c == k.node
    requires newitem == nt.node && Built(nt) && Sound(nt)
    requires Objects(nt) <= mem.live && mem !in Objects(nt) && Objects(nt) !! Objects(t)
    modifies mem, parent`child, newitem`next, newitem`prev, c`next, c`prev, LastNode(a)`next, FirstNode(b)`prev
    ensures Built(WithKids(t, a + ([nt] + b))) && mem.live == old(mem.live) - Objects(k)
  {
    ReplacedIsSound(mem, t, a, k, b, nt);
    ghost var t2 := WithKids(t, a + ([nt] + b));
    assert Objects(t2) <= mem.live && mem !in Objects(t2);
    Exchange(parent, c, newitem, mem, t, a, k, b, nt);
    DeleteTree(c, mem, k);
  }

  /** cJSON_ReplaceItemInArray: out of range, the new item is neither linked nor freed. */
  method ReplaceItemInArray(parent: Node, which: int, newitem: Node, mem: Allocator, ghost t: Tree, ghost nt: Tree)
    requires InMemory(mem, parent, t) && Built(t)
    requires newitem == nt.node && Built(nt) && Sound(nt)
    requires Objects(nt) <= mem.live && mem !in Objects(nt) && Objects(nt) !! Objects(t)
    modifies mem, parent`child, newitem`next, newitem`prev
    modifies Around(t.kids, Index(which))`next, Around(t.kids, Index(which))`prev
    ensures Index(which) >= |t.kids| ==> Built(t) && Built(nt) && mem.live == old(mem.live)
    ensures Index(which) < |t.kids| ==>
      var k, t2 := t.kids[Index(which)], WithKids(t, t.kids[Index(which) := nt]);
      Sound(t2) && Built(t2) && mem.live == old(mem.live) - Objects(k)
  {
    ghost var i := Index(which);
    if i < |t.kids| {
      SplitAround(t.kids, i, nt);
      ReplacedIsSound(mem, t, t.kids[..i], t.kids[i], t.kids[i + 1..], nt);
    }
    var c := GetArrayItem(parent, which, t.kids);
    if c != null {
      ExchangeAndDelete(parent, c, newitem, mem, t, t.kids[..i], t.kids[i], t.kids[i + 1..], nt);
    }
  }
}
