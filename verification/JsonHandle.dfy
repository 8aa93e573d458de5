/** The reference counting of `Json` handles in dap/JSON.cpp.  Handles, counters and trees are
    known by their addresses; a tree is its root, and what deleting it frees is stated in
    module Dom. */
module JsonHandle {
  import opened Wrappers

  type Address = int

  /** `dap::Json`: the fields m_cjson and m_refCount. */
  datatype Handle = Handle(cjson: Option<Address>, refCount: Option<Address>)

  ghost function Sharing(handles: map<Address, Handle>, c: Address): set<Address> {
    set h | h in handles && handles[h].refCount == Some(c)
  }

  /** A managed handle holds a live counter and a live tree, or no tree at all: that is what
      Parse makes of a text that is rejected. */
  ghost predicate Holding(x: Handle, counters: set<Address>, trees: set<Address>) {
    x.refCount.Some? ==> x.refCount.value in counters && (x.cjson.Some? ==> x.cjson.value in trees)
  }

  /** Handles that share a counter share what they hold, and handles that share a tree share its counter. */
  ghost predicate Agree(x: Handle, y: Handle) {
    x.refCount.Some? && y.refCount.Some? ==>
      && (x.refCount == y.refCount ==> x.cjson == y.cjson)
      && (x.cjson.Some? && x.cjson == y.cjson ==> x.refCount == y.refCount)
  }

  /** The tree that a handle holds, if it holds one. */
  function TreeOf(x: Handle): set<Address> {
    if x.cjson.Some? then {x.cjson.value} else {}
  }

  ghost predicate Held(handles: map<Address, Handle>, t: Address) {
    exists h :: h in handles && handles[h].refCount.Some? && handles[h].cjson == Some(t)
  }

  /** Every counter is the number of its handles and not zero. */
  ghost predicate Counted(handles: map<Address, Handle>, counters: map<Address, int>) {
    forall c | c in counters :: counters[c] == |Sharing(handles, c)| > 0
  }

  ghost predicate AllHolding(handles: map<Address, Handle>, counters: set<Address>, trees: set<Address>) {
    forall h | h in handles :: Holding(handles[h], counters, trees)
  }

  ghost predicate AllAgree(handles: map<Address, Handle>) {
    forall h, g | h in handles && g in handles :: Agree(handles[h], handles[g])
  }

  ghost predicate AllHeld(handles: map<Address, Handle>, trees: set<Address>) {
    forall t | t in trees :: Held(handles, t)
  }

  /** The counters are right, and exactly the trees and counters of managed handles are allocated. */
  ghost predicate Consistent(handles: map<Address, Handle>, counters: map<Address, int>, trees: set<Address>) {
    && Counted(handles, counters)
    && AllHolding(handles, counters.Keys, trees)
    && AllAgree(handles)
    && AllHeld(handles, trees)
  }

  /** No other handle shares the counter of `h`. */
  ghost predicate Last(handles: map<Address, Handle>, h: Address)
    requires h in handles
  {
    handles[h].refCount.Some? && Sharing(handles, handles[h].refCount.value) == {h}
  }

  function Added(counters: map<Address, int>, c: Option<Address>, n: int): map<Address, int>
    requires c.Some? ==> c.value in counters
  {
    if c.Some? then counters[c.value := counters[c.value] + n] else counters
  }

  // ---------------------------------------------------------------- one handle less, one more

  lemma SharingWithout(handles: map<Address, Handle>, h: Address, c: Address)
    ensures Sharing(handles - {h}, c) == Sharing(handles, c) - {h}
  {
  }

  lemma SharingWith(handles: map<Address, Handle>, h: Address, y: Handle, c: Address)
    requires h !in handles
    ensures Sharing(handles[h := y], c) == Sharing(handles, c) + if y.refCount == Some(c) then {h} else {}
  {
  }

  lemma OneOrMore(users: set<Address>, h: Address)
    requires h in users
    ensures users == {h} || exists other :: other in users && other != h
  {
    if forall other | other in users :: other == h {
      assert users == {h};
    }
  }

  /** A tree is still held without `h`, unless `h` was the last handle on it. */
  lemma StillHeld(handles: map<Address, Handle>, counters: map<Address, int>, trees: set<Address>, h: Address,
          t: Address)
    requires Consistent(handles, counters, trees) && h in handles && t in trees
    requires Last(handles, h) ==> handles[h].cjson != Some(t)
    ensures Held(handles - {h}, t)
  {
    assert Held(handles, t);
    var g :| g in handles && handles[g].refCount.Some? && handles[g].cjson == Some(t);
    if g == h {
      var users := Sharing(handles, handles[h].refCount.value);
      OneOrMore(users, h);
      var other :| other in users && other != h;
      assert Agree(handles[h], handles[other]);
      assert other in handles - {h};
    } else {
      assert g in handles - {h};
    }
  }

  lemma LeavingCounted(handles: map<Address, Handle>, counters: map<Address, int>, h: Address)
    requires Counted(handles, counters) && h in handles
    requires handles[h].refCount.Some? ==> handles[h].refCount.value in counters
    ensures var x := handles[h];
      if Last(handles, h) then
        counters[x.refCount.value] == 1 && Counted(handles - {h}, counters - {x.refCount.value})
      else
        (x.refCount.Some? ==> counters[x.refCount.value] > 1)
        && Counted(handles - {h}, Added(counters, x.refCount, -1))
  {
    var x := handles[h];
    if x.refCount.Some? {
      var users := Sharing(handles, x.refCount.value);
      assert h in users && |users - {h}| == |users| - 1;
      assert !Last(handles, h) ==> users - {h} != {};
    }
    forall c | c in counters
      ensures |Sharing(handles - {h}, c)| == counters[c] + if x.refCount == Some(c) then -1 else 0
    {
      CountWithout(handles, h, c);
    }
  }

  lemma CountWithout(handles: map<Address, Handle>, h: Address, c: Address)
    requires h in handles
    ensures |Sharing(handles - {h}, c)| == |Sharing(handles, c)| + if handles[h].refCount == Some(c) then -1 else 0
  {
    SharingWithout(handles, h, c);
    if handles[h].refCount == Some(c) {
      assert h in Sharing(handles, c);
    } else {
      assert Sharing(handles, c) - {h} == Sharing(handles, c);
    }
  }

  /** What remains when a handle has given up its count. */
  lemma Leaving(handles: map<Address, Handle>, counters: map<Address, int>, trees: set<Address>, h: Address)
    requires Consistent(handles, counters, trees) && h in handles
    ensures var x := handles[h];
      if !Last(handles, h) then
        Consistent(handles - {h}, Added(counters, x.refCount, -1), trees)
        && (x.refCount.Some? ==> counters[x.refCount.value] > 1)
      else
        Consistent(handles - {h}, counters - {x.refCount.value}, trees - TreeOf(x))
        && counters[x.refCount.value] == 1
  {
    hide Counted, Held, Sharing;
    var x := handles[h];
    LeavingCounted(handles, counters, h);
    forall t | t in trees && (Last(handles, h) ==> x.cjson != Some(t)) ensures Held(handles - {h}, t) {
      StillHeld(handles, counters, trees, h, t);
    }
    if Last(handles, h) {
      OnlyHolder(handles, counters, trees, h);
    }
  }

  lemma OnlyHolder(handles: map<Address, Handle>, counters: map<Address, int>, trees: set<Address>, h: Address)
    requires Consistent(handles, counters, trees) && h in handles && Last(handles, h)
    ensures forall g | g in handles && g != h && handles[g].refCount.Some? ::
      handles[g].refCount != handles[h].refCount && TreeOf(handles[g]) !! TreeOf(handles[h])
  {
    forall g | g in handles && g != h && handles[g].refCount.Some?
      ensures handles[g].refCount != handles[h].refCount && TreeOf(handles[g]) !! TreeOf(handles[h])
    {
      assert g !in Sharing(handles, handles[h].refCount.value);
      assert Agree(handles[g], handles[h]);
    }
  }

  lemma HeldWith(handles: map<Address, Handle>, h: Address, y: Handle, t: Address)
    requires h !in handles && (Held(handles, t) || (y.refCount.Some? && y.cjson == Some(t)))
    ensures Held(handles[h := y], t)
  {
    if y.refCount.Some? && y.cjson == Some(t) {
      assert h in handles[h := y];
    } else {
      var g :| g in handles && handles[g].refCount.Some? && handles[g].cjson == Some(t);
      assert g in handles[h := y];
    }
  }

  lemma JoiningCounted(handles: map<Address, Handle>, counters: map<Address, int>, h: Address, y: Handle)
    requires Counted(handles, counters) && h !in handles && (y.refCount.Some? ==> y.refCount.value in counters)
    ensures Counted(handles[h := y], Added(counters, y.refCount, 1))
  {
    forall c | c in counters
      ensures |Sharing(handles[h := y], c)| == counters[c] + if y.refCount == Some(c) then 1 else 0
    {
      SharingWith(handles, h, y, c);
      assert h !in Sharing(handles, c);
    }
  }

  /** A new handle that points only, or shares with one that exists. */
  lemma Joining(handles: map<Address, Handle>, counters: map<Address, int>, trees: set<Address>, h: Address, y: Handle)
    requires Consistent(handles, counters, trees) && h !in handles
    requires y.refCount.Some? ==> exists g :: g in handles && handles[g] == y
    ensures y.refCount.Some? ==> y.refCount.value in counters
    ensures Consistent(handles[h := y], Added(counters, y.refCount, 1), trees)
  {
    hide Counted, Held;
    JoiningCounted(handles, counters, h, y);
    forall t | t in trees ensures Held(handles[h := y], t) {
      HeldWith(handles, h, y, t);
    }
  }

  /** The first handle on a new tree, or on none. */
  lemma Managing(handles: map<Address, Handle>, counters: map<Address, int>, trees: set<Address>,
                 h: Address, t: Option<Address>, c: Address)
    requires Consistent(handles, counters, trees) && h !in handles && c !in counters
    requires t.Some? ==> t.value !in trees
    ensures Consistent(handles[h := Handle(t, Some(c))], counters[c := 1], trees + TreeOf(Handle(t, Some(c))))
  {
    hide Counted, Held;
    var y := Handle(t, Some(c));
    ManagingCounted(handles, counters, trees, h, y);
    forall u | u in trees + TreeOf(y) ensures Held(handles[h := y], u) {
      HeldWith(handles, h, y, u);
    }
  }

  lemma ManagingCounted(handles: map<Address, Handle>, counters: map<Address, int>, trees: set<Address>,
                        h: Address, y: Handle)
    requires Consistent(handles, counters, trees) && h !in handles
    requires y.refCount.Some? && y.refCount.value !in counters
    ensures Counted(handles[h := y], counters[y.refCount.value := 1])
  {
    forall c | c in counters || c == y.refCount.value
      ensures |Sharing(handles[h := y], c)| == if c in counters then counters[c] else 1
    {
      SharingWith(handles, h, y, c);
      assert forall g | g in handles && handles[g].refCount == Some(c) :: Holding(handles[g], counters.Keys, trees);
    }
  }

  lemma SharedIsNotLast(handles: map<Address, Handle>, h: Address, other: Address)
    requires h in handles && other in handles && h != other && handles[h].refCount == handles[other].refCount
    ensures !Last(handles, h)
  {
    if handles[h].refCount.Some? {
      assert other in Sharing(handles, handles[h].refCount.value);
    }
  }

  /** The heap the handles live on. */
  class Memory {
    var handles: map<Address, Handle>
    var counters: map<Address, int>
    var trees: set<Address>

    ghost predicate Valid()
      reads this
    {
      Consistent(handles, counters, trees)
    }

    constructor ()
      ensures Valid() && handles == map[] && counters == map[] && trees == {}
    {
      handles, counters, trees := map[], map[], {};
    }

    method IncRef(h: Address)
      requires h in handles && (handles[h].refCount.Some? ==> handles[h].refCount.value in counters)
      modifies this`counters
      ensures counters == Added(old(counters), handles[h].refCount, 1)
    {
      if handles[h].refCount.Some? {
        var c := handles[h].refCount.value;
        counters := counters[c := counters[c] + 1];
      }
    }

    method DecRef(h: Address)
      requires h in handles && Holding(handles[h], counters.Keys, trees)
      modifies this
      ensures var x := old(handles[h]);
        if x.refCount.None? || old(counters[x.refCount.value]) != 1 then
          handles == old(handles) && trees == old(trees) && counters == Added(old(counters), x.refCount, -1)
        else
          && handles == old(handles)[h := Handle(None, None)]
          && trees == old(trees) - TreeOf(x) && counters == old(counters) - {x.refCount.value}
    {
      if handles[h].refCount.Some? {
        var c := handles[h].refCount.value;
        counters := counters[c := counters[c] - 1];
        if counters[c] == 0 {
          Delete(h);
          counters := counters - {c};
          handles := handles[h := handles[h].(refCount := None)];
        }
      }
    }

    method Delete(h: Address)
      requires h in handles && (handles[h].cjson.Some? ==> handles[h].cjson.value in trees)
      modifies this`handles, this`trees
      ensures handles == old(handles)[h := old(handles[h]).(cjson := None)]
      ensures trees == old(trees) - TreeOf(old(handles[h]))
    {
      if handles[h].cjson.Some? {
        trees := trees - {handles[h].cjson.value};
        handles := handles[h := handles[h].(cjson := None)];
      }
    }

    /** operator=.  A tree goes exactly when its last handle is turned to another tree or to none. */
    method Assign(h: Address, other: Address)
      requires Valid() && h in handles && other in handles
      modifies this
      ensures Valid() && handles == old(handles)[h := old(handles[other])]
      ensures trees ==
        if Last(old(handles), h) && old(handles[other].refCount != handles[h].refCount)
        then old(trees) - TreeOf(old(handles[h])) else old(trees)
    {
      if h == other {
        return;
      }
      hide Consistent, Last;
      ghost var before := handles;
      Leaving(handles, counters, trees, h);
      if handles[h].refCount == handles[other].refCount {
        SharedIsNotLast(handles, h, other);
      }
      DecRef(h);
      handles := handles[h := handles[h].(refCount := handles[other].refCount)];
      handles := handles[h := handles[h].(cjson := handles[other].cjson)];
      ghost var y := handles[other];
      assert (before - {h})[other] == y;
      Joining(before - {h}, counters, trees, h, y);
      assert (before - {h})[h := y] == handles;
      IncRef(h);
    }

    /** Json(const Json&) */
    method Copy(h: Address, other: Address)
      requires Valid() && h !in handles && other in handles
      modifies this
      ensures Valid() && handles == old(handles)[h := old(handles[other])] && trees == old(trees)
    {
      Borrow(h, None);
      Assign(h, other);
      assert !Last(old(handles)[h := Handle(None, None)], h);
    }

    /** ~Json */
    method Destroy(h: Address)
      requires Valid() && h in handles
      modifies this
      ensures Valid() && handles == old(handles) - {h}
      ensures trees == if Last(old(handles), h) then old(trees) - TreeOf(old(handles[h])) else old(trees)
    {
      Leaving(handles, counters, trees, h);
      DecRef(h);
      handles := handles[h := handles[h].(cjson := None)];
      handles := handles - {h};
      assert handles == old(handles) - {h};
    }

    /** Json(cJsonDap*): a handle that only points. */
    method Borrow(h: Address, ptr: Option<Address>)
      requires Valid() && h !in handles
      modifies this`handles
      ensures Valid() && handles == old(handles)[h := Handle(ptr, None)]
    {
      Joining(handles, counters, trees, h, Handle(ptr, None));
      handles := handles[h := Handle(ptr, None)];
    }

    /** CreateArray and CreateObject: a new tree `t` and its first counter `c`. */
    method Create(h: Address, t: Address, c: Address)
      requires Valid() && h !in handles && t !in trees && c !in counters
      modifies this
      ensures Valid() && handles == old(handles)[h := Handle(Some(t), Some(c))] && trees == old(trees) + {t}
    {
      Parse(h, Some(t), c);
    }

    /** Parse: what cJSON_Parse returned, a new tree or nothing, is managed. */
    method Parse(h: Address, t: Option<Address>, c: Address)
      requires Valid() && h !in handles && c !in counters && (t.Some? ==> t.value !in trees)
      modifies this
      ensures Valid() && handles == old(handles)[h := Handle(t, Some(c))]
      ensures trees == old(trees) + if t.Some? then {t.value} else {}
    {
      Managing(handles, counters, trees, h, t, c);
      if t.Some? {
        trees := trees + {t.value};
      }
      handles := handles[h := Handle(t, None)];
      Manage(h, c);
      assert handles == old(handles)[h := Handle(t, Some(c))];
    }

    /** A handle that is managed already is left alone. */
    method Manage(h: Address, c: Address)
      requires h in handles
      modifies this`handles, this`counters
      ensures if old(handles[h]).refCount.Some? then handles == old(handles) && counters == old(counters)
        else handles == old(handles)[h := old(handles[h]).(refCount := Some(c))] && counters == old(counters)[c := 1]
    {
      if handles[h].refCount.None? {
        handles := handles[h := handles[h].(refCount := Some(c))];
        counters := counters[c := 1];
      }
    }

    /** UnManage: the counter goes, whoever shares it. */
    method UnManage(h: Address)
      requires h in handles
      modifies this`handles, this`counters
      ensures var x := old(handles[h]);
        && handles == old(handles)[h := x.(refCount := None)]
        && counters == if x.refCount.Some? then old(counters) - {x.refCount.value} else old(counters)
    {
      if handles[h].refCount.Some? {
        counters := counters - {handles[h].refCount.value};
        handles := handles[h := handles[h].(refCount := None)];
      } else {
        assert handles == handles[h := handles[h].(refCount := None)];
      }
    }

    /** AddObject: a tree that is managed becomes part of the parent's and its counter is deleted.  That
        leaves the accounts right exactly when no other handle shared it. */
    method AddObject(parent: Address, h: Address)
      requires Valid() && parent in handles && h in handles
      modifies this
      ensures var x, given := old(handles[h]), old(handles[parent].cjson.Some? && handles[h].refCount.Some?);
        && handles == (if given then old(handles)[h := Handle(x.cjson, None)] else old(handles))
        && trees == (if given then old(trees) - TreeOf(x) else old(trees))
        && (Valid() <==> !given || Last(old(handles), h))
    {
      if handles[parent].cjson.Some? && handles[h].refCount.Some? {
        ghost var before, x := handles, handles[h];
        GivenAway(handles, counters, trees, h);
        trees := trees - TreeOf(handles[h]);
        UnManage(h);
        assert handles == before[h := Handle(x.cjson, None)];
      }
    }

    /** The delivery loop's `json = DoProcessBuffer()` for a payload that is rejected: the message
        before goes with its last handle, and the empty handle leaves nothing behind. */
    method AssignRejected(h: Address, temporary: Address, c: Address)
      requires Valid() && h in handles && temporary !in handles && c !in counters
      modifies this
      ensures Valid() && handles == old(handles)[h := Handle(None, Some(c))]
      ensures trees == if Last(old(handles), h) then old(trees) - TreeOf(old(handles[h])) else old(trees)
    {
      ghost var before := handles;
      LastWith(handles, counters, trees, h, temporary, c);
      Parse(temporary, None, c);
      Assign(h, temporary);
      SharedIsNotLast(handles, temporary, h);
      Destroy(temporary);
      assert handles == before[h := Handle(None, Some(c))];
    }
  }

  /** A counter that is deleted with its tree given away is missed exactly by those who shared it. */
  lemma GivenAway(handles: map<Address, Handle>, counters: map<Address, int>, trees: set<Address>, h: Address)
    requires Consistent(handles, counters, trees) && h in handles && handles[h].refCount.Some?
    ensures var x := handles[h];
      Consistent(handles[h := Handle(x.cjson, None)], counters - {x.refCount.value}, trees - TreeOf(x))
      <==> Last(handles, h)
  {
    var x := handles[h];
    var c, after := x.refCount.value, handles[h := Handle(x.cjson, None)];
    if Last(handles, h) {
      Leaving(handles, counters, trees, h);
      Joining(handles - {h}, counters - {c}, trees - TreeOf(x), h, Handle(x.cjson, None));
      assert (handles - {h})[h := Handle(x.cjson, None)] == after;
    } else {
      OneOrMore(Sharing(handles, c), h);
      var other :| other in Sharing(handles, c) && other != h;
      assert other in after && !Holding(after[other], (counters - {c}).Keys, trees - TreeOf(x));
    }
  }

  /** A new handle with a counter of its own is no other handle's company. */
  lemma LastWith(handles: map<Address, Handle>, counters: map<Address, int>, trees: set<Address>,
                 h: Address, other: Address, c: Address)
    requires AllHolding(handles, counters.Keys, trees) && h in handles && other !in handles && c !in counters
    ensures Last(handles[other := Handle(None, Some(c))], h) <==> Last(handles, h)
    ensures handles[h].refCount != Some(c)
  {
    assert Holding(handles[h], counters.Keys, trees);
    if handles[h].refCount.Some? {
      SharingWith(handles, other, Handle(None, Some(c)), handles[h].refCount.value);
      assert Sharing(handles, handles[h].refCount.value) + {} == Sharing(handles, handles[h].refCount.value);
    }
  }

  /** Allocated are the trees and counters of managed handles and nothing else: no tree is lost
      and none is freed early. */
  lemma LiveIsHeld(handles: map<Address, Handle>, counters: map<Address, int>, trees: set<Address>)
    requires Consistent(handles, counters, trees)
    ensures forall t :: t in trees <==> Held(handles, t)
    ensures forall c :: c in counters <==> Sharing(handles, c) != {}
  {
    forall c | c !in counters ensures Sharing(handles, c) == {} {
      assert forall g | g in handles && handles[g].refCount == Some(c) :: Holding(handles[g], counters.Keys, trees);
    }
  }
}
