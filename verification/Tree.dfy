/** The value tree on the heap: nodes, the buffers they own, and the shape that
    a well-formed tree has. */
module Tree {
  import opened Bytes
  import opened Values
  import opened Memory

  /** Where a string's bytes are: the static empty string, a stretch of the
      parser's input, or a block of our own. */
  datatype Payload = Literal | Borrow(buf: array<byte>, off: nat) | Own(buf: array<byte>)

  /** One slot of a dictionary's entry array; the key block is always owned. */
  datatype Entry = Entry(key: array?<byte>, keyLen: nat, value: Node?)

  /** The tagged union inside a node. */
  datatype Body =
    | IntB(i: int)
    | StrB(pay: Payload, len: nat)
    | ListB(items: array?<Node?>, count: nat, capacity: nat)
    | DictB(entries: array?<Entry>, count: nat, capacity: nat)

  class Node {
    const alloc: Allocator
    var body: Body

    constructor (alloc: Allocator, body: Body)
      ensures this.alloc == alloc && this.body == body
    {
      this.alloc := alloc;
      this.body := body;
    }
  }

  // ---- Shapes: which blocks make up a tree and what they hold ----

  datatype Shape =
    | IntS(node: Node, i: int)
    | StrS(node: Node, pay: Payload, bytes: Bytes)
    | ListS(node: Node, items: array?<Node?>, kids: seq<Shape>)
    | DictS(node: Node, entries: array?<Entry>, binds: seq<Bind>)

  datatype Bind = Bind(key: Bytes, buf: array?<byte>, val: Shape)

  /** The blocks a tree owns: exactly what freeing it must give back. */
  ghost function Owned(t: Shape): set<object>
    decreases t, 1
  {
    match t
    case IntS(n, _) => {n}
    case StrS(n, pay, _) => {n} + (if pay.Own? then {pay.buf} else {})
    case ListS(n, items, kids) => {n} + Block(items) + KidsOwned(kids)
    case DictS(n, entries, binds) => {n} + Block(entries) + BindsOwned(binds)
  }

  ghost function KidsOwned(kids: seq<Shape>): set<object>
    decreases kids, 0
  {
    set i, o | 0 <= i < |kids| && o in Owned(kids[i]) :: o
  }

  ghost function BindOwned(b: Bind): set<object>
    decreases b, 0
  {
    Block(b.buf) + Owned(b.val)
  }

  ghost function BindsOwned(binds: seq<Bind>): set<object>
    decreases binds, 0
  {
    set i, o | 0 <= i < |binds| && o in BindOwned(binds[i]) :: o
  }

  /** The input buffers a tree still points into. */
  ghost function Borrowed(t: Shape): set<array<byte>>
    decreases t, 1
  {
    match t
    case IntS(_, _) => {}
    case StrS(_, pay, _) => if pay.Borrow? then {pay.buf} else {}
    case ListS(_, _, kids) => KidsBorrowed(kids)
    case DictS(_, _, binds) => BindsBorrowed(binds)
  }

  ghost function KidsBorrowed(kids: seq<Shape>): set<array<byte>>
    decreases kids, 0
  {
    set i, o | 0 <= i < |kids| && o in Borrowed(kids[i]) :: o
  }

  ghost function BindsBorrowed(binds: seq<Bind>): set<array<byte>>
    decreases binds, 0
  {
    set i, o | 0 <= i < |binds| && o in Borrowed(binds[i].val) :: o
  }

  /** No block occurs twice: the blocks form a tree. */
  ghost predicate Separate(t: Shape)
    decreases t
  {
    match t
    case IntS(_, _) => true
    case StrS(_, _, _) => true
    case ListS(n, items, kids) =>
      && {n} + Block(items) !! KidsOwned(kids)
      && (forall i, j :: 0 <= i < j < |kids| ==> Owned(kids[i]) !! Owned(kids[j]))
      && (forall i :: 0 <= i < |kids| ==> Separate(kids[i]))
    case DictS(n, entries, binds) =>
      && {n} + Block(entries) !! BindsOwned(binds)
      && (forall i, j :: 0 <= i < j < |binds| ==> BindOwned(binds[i]) !! BindOwned(binds[j]))
      && (forall i :: 0 <= i < |binds| ==> SeparateBind(binds[i]))
  }

  ghost predicate SeparateBind(b: Bind)
    decreases b
  {
    Block(b.buf) !! Owned(b.val) && Separate(b.val)
  }

  /** The abstract value of a tree. */
  function Den(t: Shape): Value
    decreases t, 1
  {
    match t
    case IntS(_, i) => VInt(i)
    case StrS(_, _, bytes) => VStr(bytes)
    case ListS(_, _, kids) => VList(DenKids(kids))
    case DictS(_, _, binds) => VDict(DenBinds(binds))
  }

  function DenKids(kids: seq<Shape>): (vs: seq<Value>)
    ensures |vs| == |kids|
    ensures forall i :: 0 <= i < |kids| ==> vs[i] == Den(kids[i])
    decreases kids, 0
  {
    seq(|kids|, i requires 0 <= i < |kids| => Den(kids[i]))
  }

  function DenBind(b: Bind): Pair
    decreases b, 0
  {
    Pair(b.key, Den(b.val))
  }

  function DenBinds(binds: seq<Bind>): (es: seq<Pair>)
    ensures |es| == |binds|
    ensures forall i :: 0 <= i < |binds| ==> es[i] == DenBind(binds[i])
    decreases binds, 0
  {
    seq(|binds|, i requires 0 <= i < |binds| => DenBind(binds[i]))
  }

  // ---- What the heap must hold ----

  ghost predicate HoldsString(pay: Payload, bytes: Bytes)
    reads if pay.Literal? then {} else {pay.buf}
  {
    match pay
    case Literal => bytes == []
    case Borrow(buf, off) => off + |bytes| <= buf.Length && buf[off..off+|bytes|] == bytes
    case Own(buf) => bytes != [] && buf[..] == bytes
  }

  ghost predicate HoldsKey(buf: array?<byte>, key: Bytes)
    reads Block(buf)
  {
    if buf == null then key == [] else key != [] && buf[..] == key
  }

  ghost predicate HoldsList(n: Node, items: array?<Node?>, nodes: seq<Node?>)
    reads n, Block(items)
  {
    && n.body.ListB? && n.body.items == items && n.body.count == |nodes|
    && n.body.capacity == (if items == null then 0 else items.Length)
    && |nodes| <= n.body.capacity && Sized(n.body.capacity, |nodes|, MAX_ITEMS)
    && (items != null ==> items[..|nodes|] == nodes)
  }

  ghost predicate HoldsDict(n: Node, entries: array?<Entry>, cells: seq<Entry>)
    reads n, Block(entries)
  {
    && n.body.DictB? && n.body.entries == entries && n.body.count == |cells|
    && n.body.capacity == (if entries == null then 0 else entries.Length)
    && |cells| <= n.body.capacity && Sized(n.body.capacity, |cells|, MAX_ENTRIES)
    && (entries != null ==> entries[..|cells|] == cells)
  }

  ghost function Nodes(kids: seq<Shape>): (ns: seq<Node?>)
    ensures |ns| == |kids|
    ensures forall i :: 0 <= i < |kids| ==> ns[i] == kids[i].node
  {
    seq(|kids|, i requires 0 <= i < |kids| => kids[i].node)
  }

  ghost function Cell(b: Bind): Entry {
    Entry(b.buf, |b.key|, b.val.node)
  }

  ghost function Cells(binds: seq<Bind>): (es: seq<Entry>)
    ensures |es| == |binds|
    ensures forall i :: 0 <= i < |binds| ==> es[i] == Cell(binds[i])
  {
    seq(|binds|, i requires 0 <= i < |binds| => Cell(binds[i]))
  }

  ghost function Footprint(t: Shape): set<object> {
    Owned(t) + Borrowed(t)
  }

  /** The heap holds the tree `t`, all of whose nodes come from `a`. */
  ghost predicate Rep(a: Allocator, t: Shape)
    reads Footprint(t)
    decreases t, 1
  {
    && t.node.alloc == a
    && match t
       case IntS(n, i) => n.body == IntB(i)
       case StrS(n, pay, bytes) => n.body == StrB(pay, |bytes|) && HoldsString(pay, bytes)
       case ListS(n, items, kids) => HoldsList(n, items, Nodes(kids)) && RepKids(a, kids)
       case DictS(n, entries, binds) => HoldsDict(n, entries, Cells(binds)) && RepBinds(a, binds)
  }

  ghost predicate RepKids(a: Allocator, kids: seq<Shape>)
    reads KidsOwned(kids), KidsBorrowed(kids)
    decreases kids, 0
  {
    forall i :: 0 <= i < |kids| ==> Rep(a, kids[i])
  }

  ghost predicate RepBind(a: Allocator, b: Bind)
    reads BindOwned(b), Borrowed(b.val)
    decreases b, 0
  {
    HoldsKey(b.buf, b.key) && Rep(a, b.val)
  }

  ghost predicate RepBinds(a: Allocator, binds: seq<Bind>)
    reads BindsOwned(binds), BindsBorrowed(binds)
    decreases binds, 0
  {
    forall i :: 0 <= i < |binds| ==> RepBind(a, binds[i])
  }

  /** A complete tree whose blocks are all live. */
  ghost predicate Owns(a: Allocator, t: Shape)
    reads a, Footprint(t)
  {
    a.Valid() && t.node.alloc == a && Rep(a, t) && Separate(t) && Owned(t) <= a.live
  }

  /** The blocks named by an existing shape exist. */
  lemma {:induction false} FootprintAllocated(t: Shape)
    ensures allocated(Owned(t)) && allocated(Borrowed(t)) && allocated(Footprint(t))
    decreases t
  {
    match t
    case IntS(_, _) =>
    case StrS(_, _, _) =>
    case ListS(_, _, kids) =>
      forall i | 0 <= i < |kids| ensures allocated(Owned(kids[i])) && allocated(Borrowed(kids[i])) {
        FootprintAllocated(kids[i]);
      }
    case DictS(_, _, binds) =>
      forall i | 0 <= i < |binds|
        ensures allocated(BindOwned(binds[i])) && allocated(Borrowed(binds[i].val))
      {
        FootprintAllocated(binds[i].val);
      }
  }

  // ---- Freeing ----

  lemma KidsOwnedTake(kids: seq<Shape>, i: nat)
    requires i < |kids|
    ensures KidsOwned(kids[..i+1]) == KidsOwned(kids[..i]) + Owned(kids[i])
  {
    hide Owned;
    var a, b := kids[..i], kids[..i+1];
    forall o | o in KidsOwned(b) ensures o in KidsOwned(a) + Owned(kids[i]) {
      var j :| 0 <= j < |b| && o in Owned(b[j]);
      if j < i {
        assert a[j] == b[j];
      }
    }
    forall o | o in KidsOwned(a) + Owned(kids[i]) ensures o in KidsOwned(b) {
      if o in Owned(kids[i]) {
        assert b[i] == kids[i];
      } else {
        var j :| 0 <= j < |a| && o in Owned(a[j]);
        assert b[j] == a[j];
      }
    }
  }

  lemma BindsOwnedTake(binds: seq<Bind>, i: nat)
    requires i < |binds|
    ensures BindsOwned(binds[..i+1]) == BindsOwned(binds[..i]) + BindOwned(binds[i])
  {
    hide BindOwned;
    var a, b := binds[..i], binds[..i+1];
    forall o | o in BindsOwned(b) ensures o in BindsOwned(a) + BindOwned(binds[i]) {
      var j :| 0 <= j < |b| && o in BindOwned(b[j]);
      if j < i {
        assert a[j] == b[j];
      }
    }
    forall o | o in BindsOwned(a) + BindOwned(binds[i]) ensures o in BindsOwned(b) {
      if o in BindOwned(binds[i]) {
        assert b[i] == binds[i];
      } else {
        var j :| 0 <= j < |a| && o in BindOwned(a[j]);
        assert b[j] == a[j];
      }
    }
  }

  /** The blocks of an earlier child are disjoint from those of a later one. */
  lemma KidsApart(kids: seq<Shape>, i: nat)
    requires i < |kids|
    requires forall i, j :: 0 <= i < j < |kids| ==> Owned(kids[i]) !! Owned(kids[j])
    ensures KidsOwned(kids[..i]) !! Owned(kids[i])
    ensures Owned(kids[i]) <= KidsOwned(kids)
  {
    hide Owned;
  }

  lemma ListUnfolds(n: Node, items: array?<Node?>, kids: seq<Shape>)
    ensures var t := ListS(n, items, kids);
            && Owned(t) == {n} + Block(items) + KidsOwned(kids)
            && Borrowed(t) == KidsBorrowed(kids)
            && (Separate(t) <==>
                  && {n} + Block(items) !! KidsOwned(kids)
                  && (forall i, j :: 0 <= i < j < |kids| ==> Owned(kids[i]) !! Owned(kids[j]))
                  && (forall i :: 0 <= i < |kids| ==> Separate(kids[i])))
  {
    hide KidsOwned, KidsBorrowed;
  }

  lemma DictUnfolds(n: Node, entries: array?<Entry>, binds: seq<Bind>)
    ensures var t := DictS(n, entries, binds);
            && Owned(t) == {n} + Block(entries) + BindsOwned(binds)
            && Borrowed(t) == BindsBorrowed(binds)
            && (Separate(t) <==>
                  && {n} + Block(entries) !! BindsOwned(binds)
                  && (forall i, j :: 0 <= i < j < |binds| ==> BindOwned(binds[i]) !! BindOwned(binds[j]))
                  && (forall i :: 0 <= i < |binds| ==> SeparateBind(binds[i])))
  {
    hide BindsOwned, BindsBorrowed;
  }

  lemma BindsApart(binds: seq<Bind>, i: nat)
    requires i < |binds|
    requires forall i, j :: 0 <= i < j < |binds| ==> BindOwned(binds[i]) !! BindOwned(binds[j])
    ensures BindsOwned(binds[..i]) !! BindOwned(binds[i])
    ensures BindOwned(binds[i]) <= BindsOwned(binds)
  {
    hide BindOwned;
  }

  /** `bencode_value_free`: every block of the tree is released exactly once and
      nothing else is. */
  method Free(v: Node, ghost t: Shape)
    requires t.node == v && Owns(v.alloc, t)
    modifies v.alloc
    ensures v.alloc.Valid()
    ensures v.alloc.live == old(v.alloc.live) - Owned(t) && v.alloc.Quiet()
    decreases t, 1
  {
    var a := v.alloc;
    match v.body {
      case IntB(_) =>
      case StrB(pay, _) =>
        if pay.Own? {
          a.Release(pay.buf);
        }
      case ListB(items, count, _) =>
        FreeItems(v, t);
        FreeArray(a, items);
      case DictB(entries, count, _) =>
        FreeEntries(v, t);
        FreeArray(a, entries);
    }
    a.Release(v);
  }

  method FreeItems(v: Node, ghost t: Shape)
    requires t.ListS? && t.node == v && Owns(v.alloc, t)
    modifies v.alloc
    ensures v.alloc.Valid()
    ensures v.alloc.live == old(v.alloc.live) - KidsOwned(t.kids) && v.alloc.Quiet()
    decreases t, 0
  {
    hide Separate, Owned, Borrowed;
    FootprintAllocated(t);
    var a := v.alloc;
    var i := 0;
    ghost var kids := t.kids;
    assert kids[..0] == [] && a !in Footprint(t);
    while i < v.body.count
      invariant i <= |kids|
      invariant a.Valid() && Rep(a, t)
      invariant a.live == old(a.live) - KidsOwned(kids[..i]) && a.Quiet()
    {
      KidReady(a, t, i);
      KidsOwnedTake(kids, i);
      Free(v.body.items[i], kids[i]);
      i := i + 1;
    }
    assert kids[..i] == kids;
  }

  lemma KidReady(a: Allocator, t: Shape, i: nat)
    requires t.ListS? && i < |t.kids| && Rep(a, t) && Separate(t)
    ensures HoldsList(t.node, t.items, Nodes(t.kids)) && t.items != null && t.items[i] == t.kids[i].node
    ensures Rep(a, t.kids[i]) && Separate(t.kids[i])
    ensures t.kids[i].node.alloc == a
    ensures KidsOwned(t.kids[..i]) !! Owned(t.kids[i])
    ensures Owned(t.kids[i]) <= KidsOwned(t.kids) <= Owned(t)
    ensures Borrowed(t.kids[i]) <= Borrowed(t)
  {
    KidsApart(t.kids, i);
    assert t.items[..|t.kids|][i] == t.kids[i].node;
  }

  method FreeEntries(v: Node, ghost t: Shape)
    requires t.DictS? && t.node == v && Owns(v.alloc, t)
    modifies v.alloc
    ensures v.alloc.Valid()
    ensures v.alloc.live == old(v.alloc.live) - BindsOwned(t.binds) && v.alloc.Quiet()
    decreases t, 0
  {
    hide Separate, Owned, Borrowed;
    FootprintAllocated(t);
    var a := v.alloc;
    var i := 0;
    ghost var binds := t.binds;
    assert binds[..0] == [] && a !in Footprint(t);
    while i < v.body.count
      invariant i <= |binds|
      invariant a.Valid() && Rep(a, t)
      invariant a.live == old(a.live) - BindsOwned(binds[..i]) && a.Quiet()
    {
      BindReady(a, t, i);
      BindsOwnedTake(binds, i);
      FreeEntry(a, v.body.entries[i], binds[i]);
      i := i + 1;
    }
    assert binds[..i] == binds;
  }

  method FreeEntry(a: Allocator, e: Entry, ghost b: Bind)
    requires a.Valid() && e == Cell(b) && RepBind(a, b) && SeparateBind(b) && BindOwned(b) <= a.live
    modifies a
    ensures a.Valid()
    ensures a.live == old(a.live) - BindOwned(b) && a.Quiet()
    decreases b, 0
  {
    hide Separate, Owned, Borrowed;
    FootprintAllocated(b.val);
    assert a !in Footprint(b.val);
    assert Rep(a, b.val);
    FreeArray(a, e.key);
    Free(e.value, b.val);
  }

  lemma BindReady(a: Allocator, t: Shape, i: nat)
    requires t.DictS? && i < |t.binds| && Rep(a, t) && Separate(t)
    ensures HoldsDict(t.node, t.entries, Cells(t.binds)) && t.entries != null
    ensures t.entries[i] == Cell(t.binds[i])
    ensures RepBind(a, t.binds[i]) && SeparateBind(t.binds[i])
    ensures t.binds[i].val.node.alloc == a
    ensures BindsOwned(t.binds[..i]) !! BindOwned(t.binds[i])
    ensures BindOwned(t.binds[i]) <= BindsOwned(t.binds) <= Owned(t)
    ensures Borrowed(t.binds[i].val) <= Borrowed(t)
  {
    assert RepBind(a, t.binds[i]);
    BindRepParts(a, t.binds[i]);
    assert HoldsDict(t.node, t.entries, Cells(t.binds));
    assert t.entries[..|t.binds|][i] == Cell(t.binds[i]);
    hide Rep, RepBind, Separate, SeparateBind, BindOwned, Owned, Borrowed;
    DictUnfolds(t.node, t.entries, t.binds);
    BindsApart(t.binds, i);
  }

  lemma BindRepParts(a: Allocator, b: Bind)
    requires RepBind(a, b)
    ensures b.val.node.alloc == a
  {
  }
}
