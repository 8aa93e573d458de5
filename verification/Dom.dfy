/** The tree of `cJsonDap` nodes on the heap: what a tree owns, and when the nodes' fields
    and links spell it out (dap/cJSON.cpp). */
module Dom {
  /** The low byte of `type`; a fresh node is all zeros, hence `KFalse`. */
  datatype Kind = KFalse | KTrue | KNull | KNumber | KString | KArray | KObject

  /** A `char*` that was allocated. */
  class CString {
    const text: string

    constructor (text: string)
      ensures this.text == text
    {
      this.text := text;
    }
  }

  /** `cJsonDap`; `reference` is the flag in `type`, `name` the field `string`. */
  class Node {
    var next: Node?
    var prev: Node?
    var child: Node?
    var kind: Kind
    var reference: bool
    var valuestring: CString?
    var number: real
    var name: CString?

    constructor ()
      ensures next == null && prev == null && child == null && valuestring == null && name == null
      ensures kind == KFalse && !reference && number == 0.0
    {
      next, prev, child, valuestring, name := null, null, null, null, null;
      kind, reference, number := KFalse, false, 0.0;
    }

    ghost predicate Alone()
      reads this`next, this`prev
    {
      next == null && prev == null
    }
  }

  /** malloc and free.  What is not allocated cannot be freed. */
  class Allocator {
    ghost var live: set<object>

    constructor ()
      ensures live == {}
    {
      live := {};
    }

    method Free(o: object)
      requires o in live
      modifies this
      ensures live == old(live) - {o}
    {
      live := live - {o};
    }

    /** cJSON_New_Item */
    method NewItem() returns (n: Node)
      modifies this
      ensures fresh(n) && n.Alone() && Built(Blank(n)) && live == old(live) + {n}
    {
      n := new Node();
      live := live + {n};
    }

    /** cJSON_strdup */
    method Strdup(text: string) returns (s: CString)
      modifies this
      ensures fresh(s) && s.text == text && live == old(live) + {s}
    {
      s := new CString(text);
      live := live + {s};
    }
  }

  // ---------------------------------------------------------------- what a tree owns

  /** What a node and everything below it should look like. */
  datatype Tree = Tree(node: Node, name: CString?, text: CString?, reference: bool,
                       kind: Kind, number: real, kids: seq<Tree>)

  ghost function Blank(n: Node): Tree {
    Tree(n, null, null, false, KFalse, 0.0, [])
  }

  /** A node and its own strings.  A reference does not own the value it points at. */
  ghost function Own(t: Tree): set<object> {
    {t.node} + (if t.name != null then {t.name} else {})
    + (if t.text != null && !t.reference then {t.text} else {})
  }

  ghost function Objects(t: Tree): set<object> {
    Own(t) + ObjectsOf(t.kids)
  }

  ghost function ObjectsOf(ts: seq<Tree>): set<object> {
    if ts == [] then {} else Objects(ts[0]) + ObjectsOf(ts[1..])
  }

  /** The head of a sibling list that `after` follows. */
  ghost function First(ts: seq<Tree>, after: Node?): Node? {
    if ts == [] then after else ts[0].node
  }

  /** The end of a sibling list that follows `before`. */
  ghost function Last(before: Node?, ts: seq<Tree>): Node? {
    if ts == [] then before else ts[|ts| - 1].node
  }

  /** Nothing is owned twice, and a reference owns no children. */
  ghost predicate Sound(t: Tree) {
    && (t.name != null && t.text != null && !t.reference ==> t.name != t.text)
    && (t.reference ==> t.kids == [])
    && Own(t) !! ObjectsOf(t.kids)
    && SoundAll(t.kids)
  }

  ghost predicate SoundAll(ts: seq<Tree>) {
    ts != [] ==> Sound(ts[0]) && Objects(ts[0]) !! ObjectsOf(ts[1..]) && SoundAll(ts[1..])
  }

  // ---------------------------------------------------------------- what the heap holds

  /** The nodes' fields and links are those of the tree.  The top node's own `next` and `prev`
      belong to the list it is in and are not looked at. */
  ghost predicate Built(t: Tree)
    reads t.node`name, t.node`valuestring, t.node`reference, t.node`kind, t.node`number, t.node`child
    reads ObjectsOf(t.kids)
    decreases t, 1
  {
    && t.node.name == t.name && t.node.valuestring == t.text && t.node.reference == t.reference
    && t.node.kind == t.kind && t.node.number == t.number
    && (!t.reference ==> t.node.child == First(t.kids, null))
    && Siblings(null, t.kids, null)
  }

  /** A stretch of a doubly linked list between `before` and `after`: neighbours point at each
      other and every node is the top of its tree. */
  ghost predicate Siblings(before: Node?, ts: seq<Tree>, after: Node?)
    reads ObjectsOf(ts)
    decreases ts, 0
  {
    ts != [] ==>
      assert ts[0].node in Objects(ts[0]);
      && Built(ts[0])
      && ts[0].node.prev == before
      && ts[0].node.next == First(ts[1..], after)
      && Siblings(ts[0].node, ts[1..], after)
  }

  // ---------------------------------------------------------------- lists of trees

  lemma {:induction false} ConcatLists(a: seq<Tree>, b: seq<Tree>)
    ensures ObjectsOf(a + b) == ObjectsOf(a) + ObjectsOf(b)
    ensures SoundAll(a + b) <==> SoundAll(a) && SoundAll(b) && ObjectsOf(a) !! ObjectsOf(b)
  {
    if a == [] {
      assert a + b == b;
    } else {
      assert (a + b)[1..] == a[1..] + b;
      ConcatLists(a[1..], b);
    }
  }

  lemma {:induction false} ConcatSiblings(before: Node?, a: seq<Tree>, b: seq<Tree>, after: Node?)
    ensures Siblings(before, a + b, after)
       <==> Siblings(before, a, First(b, after)) && Siblings(Last(before, a), b, after)
    decreases a
  {
    if a == [] {
      assert a + b == b;
    } else {
      assert (a + b)[1..] == a[1..] + b;
      ConcatSiblings(a[0].node, a[1..], b, after);
    }
  }

  // ---------------------------------------------------------------- deleting

  /** cJSON_Delete frees exactly what a sibling list of trees owns, each object once, since only
      live objects can be freed.  Nothing behind a reference is touched. */
  method Delete(first: Node?, mem: Allocator, ghost before: Node?, ghost list: seq<Tree>)
    requires first == First(list, null) && SoundAll(list) && Siblings(before, list, null)
    requires ObjectsOf(list) <= mem.live && mem !in ObjectsOf(list)
    modifies mem
    ensures mem.live == old(mem.live) - ObjectsOf(list)
    decreases list, 1
  {
    var c := first;
    ghost var previous, rest, i := before, list, 0;
    while c != null
      invariant c == First(rest, null) && SoundAll(rest) && Siblings(previous, rest, null)
      invariant ObjectsOf(rest) <= ObjectsOf(list)
      invariant mem.live == old(mem.live) - (ObjectsOf(list) - ObjectsOf(rest))
      invariant 0 <= i <= |list| && rest == list[i..]
      decreases |rest|
    {
      var next := c.next;
      DeleteNode(c, mem, list[i]);
      previous, rest, i := c, rest[1..], i + 1;
      c := next;
    }
  }

  /** One turn of the loop. */
  method DeleteNode(c: Node, mem: Allocator, ghost t: Tree)
    requires c == t.node && Sound(t) && Built(t)
    requires Objects(t) <= mem.live && mem !in Objects(t)
    modifies mem
    ensures mem.live == old(mem.live) - Objects(t)
    decreases t, 0
  {
    if !c.reference && c.child != null {
      Delete(c.child, mem, null, t.kids);
    }
    if !c.reference && c.valuestring != null {
      mem.Free(c.valuestring);
    }
    if c.name != null {
      mem.Free(c.name);
    }
    mem.Free(c);
  }

  /** Deleting one detached tree. */
  method DeleteTree(c: Node, mem: Allocator, ghost t: Tree)
    requires c == t.node && c.Alone() && Sound(t) && Built(t)
    requires Objects(t) <= mem.live && mem !in Objects(t)
    modifies mem
    ensures mem.live == old(mem.live) - Objects(t)
  {
    Delete(c, mem, null, [t]);
  }

  // ---------------------------------------------------------------- references

  /** create_reference: a copy that shares the children and the string value. */
  method CreateReference(item: Node, mem: Allocator, ghost t: Tree) returns (ref: Node)
    requires item == t.node && Built(t)
    modifies mem
    ensures fresh(ref) && ref.Alone() && mem.live == old(mem.live) + {ref}
    ensures ref.child == item.child
    ensures Sound(ReferenceTo(t, ref)) && Built(ReferenceTo(t, ref)) && Objects(ReferenceTo(t, ref)) == {ref}
  {
    ref := mem.NewItem();
    ref.child, ref.kind, ref.valuestring, ref.number := item.child, item.kind, item.valuestring, item.number;
    ref.reference := true;
  }

  ghost function ReferenceTo(t: Tree, ref: Node): Tree {
    Tree(ref, null, t.text, true, t.kind, t.number, [])
  }

  /** Any node of a live tree can be referred to, and the reference and then the tree deleted:
      what was live before and not in the tree is what is live afterwards. */
  method DeleteReferenceThenTree(root: Node, item: Node, mem: Allocator, ghost t: Tree, ghost sub: Tree)
    requires root == t.node && root.Alone() && Sound(t) && Built(t)
    requires item == sub.node && Built(sub)
    requires Objects(t) <= mem.live && mem !in Objects(t)
    modifies mem
    ensures mem.live == old(mem.live) - Objects(t)
  {
    var ref := CreateReference(item, mem, sub);
    DeleteTree(ref, mem, ReferenceTo(sub, ref));
    DeleteTree(root, mem, t);
  }
}
