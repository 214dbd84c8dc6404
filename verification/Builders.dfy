/** Building value trees: constructors, list append, and the sorted dictionary. */
module Builders {
  import opened Bytes
  import opened Values
  import opened Memory
  import opened Tree

  /** `out` is a complete tree from `a` that denotes `v`. */
  ghost predicate Built(a: Allocator, out: Node?, t: Option<Shape>, v: Value)
    reads a, if t.Some? then Footprint(t.value) else {}
  {
    t.Some? && out == t.value.node && Owns(a, t.value) && Den(t.value) == v
  }

  /** `value_alloc` */
  method NewNode(a: Allocator, body: Body) returns (n: Node?)
    requires a.Valid()
    modifies a
    ensures a.Valid()
    ensures n == null ==> a.live == old(a.live)
    ensures n != null ==>
              && fresh(n) && n.alloc == a && n.body == body
              && n !in old(a.live) && a.live == old(a.live) + {n}
    ensures a.Asked(n != null) && (n != null <==> a.Granted())
    ensures a.Asks([40]) && (n != null <==> a.answers(old(a.calls), 40))
  {
    RanOne(a.answers, a.asked, a.refused, NODE_SIZE);
    var granted := a.Request(NODE_SIZE);
    if !granted {
      return null;
    }
    n := new Node(a, body);
    a.Adopt(n);
  }

  method IntNew(i: int, a: Allocator) returns (st: Status, out: Node?, ghost t: Option<Shape>)
    requires a.Valid()
    modifies a
    ensures a.Valid() && st in {Ok, NoMem} && a.Asked(st == Ok) && (st == Ok <==> a.Granted())
    ensures a.Asks([40])
    ensures st != Ok ==> out == null && a.live == old(a.live)
    ensures st == Ok ==>
              && Built(a, out, t, VInt(i)) && Borrowed(t.value) == {}
              && fresh(Owned(t.value)) && a.live == old(a.live) + Owned(t.value)
  {
    out := NewNode(a, IntB(i));
    if out == null {
      return NoMem, null, None;
    }
    return Ok, out, Some(IntS(out, i));
  }

  /** The copying string constructor: the payload is a block of its own. */
  method StringNew(bytes: Bytes, a: Allocator) returns (st: Status, out: Node?, ghost t: Option<Shape>)
    requires a.Valid() && |bytes| <= SIZE_MAX
    modifies a
    ensures a.Valid() && st in {Ok, NoMem} && a.Asked(st == Ok) && (st == Ok <==> a.Granted())
    ensures a.Asks(StringPlan(bytes))
    ensures st != Ok ==> out == null && a.live == old(a.live)
    ensures st == Ok ==>
              && Built(a, out, t, VStr(bytes)) && Borrowed(t.value) == {}
              && fresh(Owned(t.value)) && a.live == old(a.live) + Owned(t.value)
  {
    hide Allocator.NeverRefuses;
    out := NewNode(a, StrB(Literal, 0));
    if out == null {
      return NoMem, null, None;
    }
    if |bytes| == 0 {
      return Ok, out, Some(StrS(out, Literal, []));
    }
    var copy := NewKeyBlock(a, bytes);
    if copy == null {
      a.Release(out);
      return NoMem, null, None;
    }
    out.body := StrB(Own(copy), |bytes|);
    return Ok, out, Some(StrS(out, Own(copy), bytes));
  }

  /** A block holding a copy of `bytes`. */
  method NewKeyBlock(a: Allocator, bytes: Bytes) returns (buf: array?<byte>)
    requires a.Valid() && 0 < |bytes| <= SIZE_MAX
    modifies a
    ensures a.Valid()
    ensures a.Asks([|bytes|])
    ensures buf == null ==> a.live == old(a.live)
    ensures buf != null ==>
              && fresh(buf) && buf[..] == bytes
              && buf !in old(a.live) && a.live == old(a.live) + {buf}
    ensures a.Asked(buf != null) && (buf != null <==> a.Granted())
  {
    buf := NewArray<byte>(a, |bytes|, 1);
    if buf != null {
      forall i | 0 <= i < |bytes| {
        buf[i] := bytes[i];
      }
      assert buf[..] == bytes;
    }
  }

  /** The zero-copy string constructor of the tree builder. */
  method StringNewBorrowed(buf: array<byte>, off: nat, len: nat, a: Allocator)
    returns (st: Status, out: Node?, ghost t: Option<Shape>)
    requires a.Valid() && off + len <= buf.Length
    modifies a
    ensures a.Valid() && st in {Ok, NoMem} && a.Asked(st == Ok) && (st == Ok <==> a.Granted())
    ensures a.Asks([40])
    ensures st != Ok ==> out == null && a.live == old(a.live)
    ensures st == Ok ==>
              && Built(a, out, t, VStr(buf[off..off+len])) && Borrowed(t.value) <= {buf}
              && fresh(Owned(t.value)) && a.live == old(a.live) + Owned(t.value)
  {
    var pay := if len == 0 then Literal else Borrow(buf, off);
    out := NewNode(a, StrB(pay, len));
    if out == null {
      return NoMem, null, None;
    }
    return Ok, out, Some(StrS(out, pay, buf[off..off+len]));
  }

  lemma EmptyShapes(n: Node)
    ensures Owned(ListS(n, null, [])) == Owned(DictS(n, null, [])) == {n}
    ensures Borrowed(ListS(n, null, [])) == Borrowed(DictS(n, null, [])) == {}
    ensures Den(ListS(n, null, [])) == VList([]) && Den(DictS(n, null, [])) == VDict([])
    ensures Nodes([]) == [] && Cells([]) == []
  {
    assert DenKids([]) == [] && DenBinds([]) == [];
  }

  method ListNew(a: Allocator) returns (st: Status, out: Node?)
    requires a.Valid()
    modifies a
    ensures a.Valid() && st in {Ok, NoMem} && a.Asked(st == Ok) && (st == Ok <==> a.Granted())
    ensures a.Asks([40])
    ensures st != Ok ==> out == null && a.live == old(a.live)
    ensures st == Ok ==>
              && out != null && Built(a, out, Some(ListS(out, null, [])), VList([]))
              && fresh(out) && a.live == old(a.live) + {out}
  {
    out := NewNode(a, ListB(null, 0, 0));
    if out == null {
      return NoMem, null;
    }
    EmptyShapes(out);
    ghost var t := ListS(out, null, []);
    assert Den(t) == VList([]) && Rep(a, t);
    return Ok, out;
  }

  method DictNew(a: Allocator) returns (st: Status, out: Node?)
    requires a.Valid()
    modifies a
    ensures a.Valid() && st in {Ok, NoMem} && a.Asked(st == Ok) && (st == Ok <==> a.Granted())
    ensures a.Asks([40])
    ensures st != Ok ==> out == null && a.live == old(a.live)
    ensures st == Ok ==>
              && out != null && Built(a, out, Some(DictS(out, null, [])), VDict([]))
              && fresh(out) && a.live == old(a.live) + {out}
  {
    out := NewNode(a, DictB(null, 0, 0));
    if out == null {
      return NoMem, null;
    }
    EmptyShapes(out);
    ghost var t := DictS(out, null, []);
    assert Den(t) == VDict([]) && Rep(a, t);
    return Ok, out;
  }

  // ---- List append ----

  /** The array part of `bencode_list_append`. */
  method AppendNode(list: Node, child: Node, ghost items: array?<Node?>, ghost nodes: seq<Node?>)
    returns (st: Status, ghost items': array?<Node?>)
    requires HoldsList(list, items, nodes)
    requires list.alloc.Valid() && list in list.alloc.live && Block(items) <= list.alloc.live
    modifies list, Block(items), list.alloc
    ensures list.alloc.Valid() && st in {Ok, NoMem}
    ensures st != Ok ==>
              && items' == items && unchanged(list) && unchanged(Block(items))
              && list.alloc.live == old(list.alloc.live)
    ensures st == Ok ==>
              && HoldsList(list, items', nodes + [child])
              && (items' == items || fresh(Block(items')))
              && Block(items') !! old(list.alloc.live) - Block(items)
              && list.alloc.live == old(list.alloc.live) - Block(items) + Block(items')
    ensures list.alloc.Asked(st == Ok) && (st == Ok <==> list.alloc.Granted() && |nodes| < MAX_ITEMS)
    ensures list.alloc.Asks(GrowPlan(|nodes|, 8))
  {
    var a := list.alloc;
    var buf, count, capacity := list.body.items, list.body.count, list.body.capacity;
    LargestDoublings();
    RoomExactly(capacity, count, MAX_ITEMS, POINTER_SIZE);
    var grown, newCapacity;
    st, grown, newCapacity := GrowArray<Node?>(a, buf, POINTER_SIZE, capacity, count + 1);
    if st != Ok {
      return st, items;
    }
    items' := grown;
    assert grown[..count] == nodes;
    grown[count] := child;
    assert grown[..count+1] == nodes + [child];
    list.body := ListB(grown, count + 1, newCapacity);
  }

  lemma KidsOwnedSnoc(kids: seq<Shape>, c: Shape)
    ensures KidsOwned(kids + [c]) == KidsOwned(kids) + Owned(c)
    ensures KidsBorrowed(kids + [c]) == KidsBorrowed(kids) + Borrowed(c)
  {
    hide Owned, Borrowed;
    var all := kids + [c];
    assert all[|kids|] == c;
    assert forall i :: 0 <= i < |kids| ==> all[i] == kids[i];
  }

  /** A list with one more element is again a tree. */
  lemma SnocSeparate(t: Shape, c: Shape, items: array?<Node?>)
    requires t.ListS? && Separate(t) && Separate(c) && Owned(t) !! Owned(c)
    requires Block(items) !! KidsOwned(t.kids) + Owned(c)
    ensures Separate(ListS(t.node, items, t.kids + [c]))
    ensures Owned(ListS(t.node, items, t.kids + [c]))
         == {t.node} + Block(items) + KidsOwned(t.kids) + Owned(c)
  {
    hide Separate, Owned, KidsOwned, Borrowed, KidsBorrowed;
    ListUnfolds(t.node, t.items, t.kids);
    ListUnfolds(t.node, items, t.kids + [c]);
    KidsOwnedSnoc(t.kids, c);
    KidsInside(t.kids);
  }

  lemma KidsInside(kids: seq<Shape>)
    ensures forall i :: 0 <= i < |kids| ==> Owned(kids[i]) <= KidsOwned(kids)
    ensures forall i :: 0 <= i < |kids| ==> Borrowed(kids[i]) <= KidsBorrowed(kids)
  {
    hide Owned, Borrowed;
  }

  /** `bencode_list_append`: on success the list owns the child; on failure
      nothing changes. */
  method ListAppend(list: Node, child: Node, ghost t: Shape, ghost c: Shape)
    returns (st: Status, ghost r: Shape)
    requires t.ListS? && t.node == list && c.node == child
    requires Owns(list.alloc, t) && Owns(list.alloc, c) && Owned(t) !! Owned(c)
    modifies list, Block(t.items), list.alloc
    ensures list.alloc.Valid() && st in {Ok, NoMem}
    ensures st != Ok ==>
              && r == t && Owns(list.alloc, t) && Owns(list.alloc, c)
              && list.alloc.live == old(list.alloc.live)
    ensures st == Ok ==>
              && r.ListS? && r.node == list && r.kids == t.kids + [c]
              && Owns(list.alloc, r) && Owned(c) <= Owned(r)
              && list.alloc.live == old(list.alloc.live) - Owned(t) + Owned(r)
              && fresh(Owned(r) - Owned(t) - Owned(c))
    ensures list.alloc.Asked(st == Ok) && (st == Ok <==> list.alloc.Granted() && |t.kids| < MAX_ITEMS)
    ensures list.alloc.Asks(GrowPlan(|t.kids|, 8))
    ensures st == Ok <==>
              && |t.kids| < 0x1000_0000_0000_0000
              && AllGranted(list.alloc.answers, old(list.alloc.calls), GrowPlan(|t.kids|, 8))
  {
    hide Allocator.NeverRefuses, Served, KidsOwned, Separate, Rep, Owned, Borrowed, GrowPlan, AllGranted, Ran;
    var a := list.alloc;
    FootprintAllocated(t);
    FootprintAllocated(c);
    ghost var kids := t.kids;
    ListParts(a, t);
    ghost var items;
    st, items := AppendNode(list, child, t.items, Nodes(kids));
    a.Counted(GrowPlan(|kids|, POINTER_SIZE));
    assert RepKids(a, kids) && Rep(a, c);
    if st != Ok {
      ListWhole(a, t);
      return st, t;
    }
    r := ListS(list, items, kids + [c]);
    SnocSeparate(t, c, items);
    assert Nodes(kids) + [child] == Nodes(r.kids);
    assert RepKids(a, r.kids);
    ListWhole(a, r);
  }

  lemma ListWhole(a: Allocator, t: Shape)
    requires t.ListS? && t.node.alloc == a
    requires HoldsList(t.node, t.items, Nodes(t.kids)) && RepKids(a, t.kids)
    ensures Rep(a, t)
  {
  }

  lemma ListParts(a: Allocator, t: Shape)
    requires t.ListS? && Owns(a, t)
    ensures {t.node} + Block(t.items) !! KidsOwned(t.kids)
    ensures Owned(t) == {t.node} + Block(t.items) + KidsOwned(t.kids)
    ensures Borrowed(t) == KidsBorrowed(t.kids)
    ensures HoldsList(t.node, t.items, Nodes(t.kids)) && RepKids(a, t.kids)
  {
  }

  lemma TopBlocks(t: Shape)
    ensures t.node in Owned(t)
    ensures t.ListS? ==> Block(t.items) <= Owned(t)
    ensures t.DictS? ==> Block(t.entries) <= Owned(t)
  {
  }

  lemma SnocDenotes(kids: seq<Shape>, c: Shape)
    ensures DenKids(kids + [c]) == DenKids(kids) + [Den(c)]
  {
    hide Den;
  }
}
