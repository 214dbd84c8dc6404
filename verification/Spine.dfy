/** The containers that are still open while a tree is being built: each holds
    its finished children and, except the innermost one, the next open container
    as its last child. */
module Spine {
  import opened Bytes
  import opened Memory
  import opened Tree
  import opened Builders
  import opened DictStore

  /** In a dictionary, the key and its block under which the open child sits. */
  datatype Hole = Hole(key: Bytes, buf: array?<byte>)

  /** A container with its finished children only; `hole` is present when an open
      container follows them. */
  datatype Open = Open(sh: Shape, hole: Option<Hole>)

  ghost function OpenOwned(o: Open): set<object> {
    Owned(o.sh) + (if o.hole.Some? then Block(o.hole.value.buf) else {})
  }

  ghost predicate SeparateOpen(o: Open) {
    && (o.sh.ListS? || o.sh.DictS?)
    && Separate(o.sh)
    && (o.hole.Some? ==> Block(o.hole.value.buf) !! Owned(o.sh))
    && (o.hole.Some? && o.sh.ListS? ==> o.hole.value.buf == null)
  }

  /** The heap holds the container, with `child` after the finished children when
      there is a hole. */
  ghost predicate RepOpen(a: Allocator, o: Open, child: Node?)
    reads OpenOwned(o), Borrowed(o.sh)
  {
    && o.sh.node.alloc == a
    && match o.sh
       case ListS(n, items, kids) =>
         HoldsList(n, items, if o.hole.Some? then Nodes(kids) + [child] else Nodes(kids)) && RepKids(a, kids)
       case DictS(n, entries, binds) =>
         && HoldsDict(n, entries, if o.hole.Some? then Cells(binds) + [HoleCell(o.hole.value, child)]
                                  else Cells(binds))
         && RepBinds(a, binds)
         && (o.hole.Some? ==> HoldsKey(o.hole.value.buf, o.hole.value.key))
       case _ => false
  }

  ghost function HoleCell(h: Hole, child: Node?): Entry {
    Entry(h.buf, |h.key|, child)
  }

  /** The container with a finished child in its hole. */
  ghost function Plug(o: Open, c: Shape): Shape
    requires o.hole.Some? && (o.sh.ListS? || o.sh.DictS?)
  {
    match o.sh
    case ListS(n, items, kids) => ListS(n, items, kids + [c])
    case DictS(n, entries, binds) =>
      DictS(n, entries, binds + [Bind(o.hole.value.key, o.hole.value.buf, c)])
  }

  lemma PlugRep(a: Allocator, o: Open, c: Shape)
    requires o.hole.Some? && (o.sh.ListS? || o.sh.DictS?)
    ensures RepOpen(a, o, c.node) && Rep(a, c) <==> Rep(a, Plug(o, c))
  {
    match o.sh
    case ListS(n, items, kids) =>
      assert Nodes(kids + [c]) == Nodes(kids) + [c.node];
      assert RepKids(a, kids + [c]) <==> RepKids(a, kids) && Rep(a, c) by {
        assert (kids + [c])[|kids|] == c;
        assert forall i :: 0 <= i < |kids| ==> (kids + [c])[i] == kids[i];
      }
    case DictS(n, entries, binds) =>
      var b := Bind(o.hole.value.key, o.hole.value.buf, c);
      assert Cells(binds + [b]) == Cells(binds) + [Cell(b)];
      assert RepBinds(a, binds + [b]) <==> RepBinds(a, binds) && RepBind(a, b) by {
        assert (binds + [b])[|binds|] == b;
        assert forall i :: 0 <= i < |binds| ==> (binds + [b])[i] == binds[i];
      }
  }

  lemma PlugOwned(o: Open, c: Shape)
    requires o.hole.Some? && SeparateOpen(o)
    ensures Owned(Plug(o, c)) == OpenOwned(o) + Owned(c)
    ensures Borrowed(Plug(o, c)) == Borrowed(o.sh) + Borrowed(c)
  {
    match o.sh
    case ListS(n, items, kids) =>
      KidsOwnedSnoc(kids, c);
    case DictS(n, entries, binds) =>
      var b := Bind(o.hole.value.key, o.hole.value.buf, c);
      InsertAtEnd(binds, b);
      BindsOwnedInsert(binds, |binds|, b);
  }

  lemma PlugSeparate(o: Open, c: Shape)
    requires o.hole.Some? && SeparateOpen(o) && Separate(c) && OpenOwned(o) !! Owned(c)
    ensures Separate(Plug(o, c))
  {
    match o.sh
    case ListS(n, items, kids) =>
      SnocSeparate(o.sh, c, items);
    case DictS(n, entries, binds) =>
      var b := Bind(o.hole.value.key, o.hole.value.buf, c);
      InsertAtEnd(binds, b);
      InsertSeparate(o.sh, |binds|, b, entries);
  }

  lemma UnplugSeparate(o: Open, c: Shape)
    requires o.hole.Some? && (o.sh.ListS? || o.sh.DictS?) && Separate(Plug(o, c))
    requires o.sh.ListS? ==> o.hole.value.buf == null
    ensures SeparateOpen(o) && Separate(c) && OpenOwned(o) !! Owned(c)
  {
    match o.sh
    case ListS(n, items, kids) =>
      UnsnocSeparate(o.sh, c);
    case DictS(n, entries, binds) =>
      UninsertSeparate(o.sh, Bind(o.hole.value.key, o.hole.value.buf, c));
  }

  lemma UnsnocSeparate(t: Shape, c: Shape)
    requires t.ListS? && Separate(ListS(t.node, t.items, t.kids + [c]))
    ensures Separate(t) && Separate(c) && Owned(t) !! Owned(c)
  {
    var all := t.kids + [c];
    KidsOwnedSnoc(t.kids, c);
    assert all[|t.kids|] == c;
    assert forall i :: 0 <= i < |t.kids| ==> all[i] == t.kids[i];
    KidsApart(all, |t.kids|);
    assert all[..|t.kids|] == t.kids;
  }

  lemma UninsertSeparate(t: Shape, b: Bind)
    requires t.DictS? && Separate(DictS(t.node, t.entries, t.binds + [b]))
    ensures Separate(t) && SeparateBind(b) && Owned(t) !! BindOwned(b)
  {
    var all := t.binds + [b];
    InsertAtEnd(t.binds, b);
    BindsOwnedInsert(t.binds, |t.binds|, b);
    assert all[|t.binds|] == b;
    assert forall i :: 0 <= i < |t.binds| ==> all[i] == t.binds[i];
    BindsApart(all, |t.binds|);
    assert all[..|t.binds|] == t.binds;
  }

  // ---- The containers below the innermost one ----

  ghost function LowerOwned(lower: seq<Open>): set<object> {
    set i, o | 0 <= i < |lower| && o in OpenOwned(lower[i]) :: o
  }

  ghost function LowerBorrowed(lower: seq<Open>): set<array<byte>> {
    set i, o | 0 <= i < |lower| && o in Borrowed(lower[i].sh) :: o
  }

  /** Each container has the next one in its hole; the last one has `next`. */
  ghost predicate LowerRep(a: Allocator, lower: seq<Open>, next: Node?)
    reads LowerOwned(lower), LowerBorrowed(lower)
  {
    forall k :: 0 <= k < |lower| ==> RepOpen(a, lower[k], Link(lower, k, next))
  }

  ghost function Link(lower: seq<Open>, k: nat, next: Node?): Node?
    requires k < |lower|
  {
    if k + 1 < |lower| then lower[k+1].sh.node else next
  }

  ghost predicate LowerSeparate(lower: seq<Open>) {
    && (forall k :: 0 <= k < |lower| ==> SeparateOpen(lower[k]) && lower[k].hole.Some?)
    && (forall i, j :: 0 <= i < j < |lower| ==> OpenOwned(lower[i]) !! OpenOwned(lower[j]))
  }

  lemma LowerAllocated(lower: seq<Open>)
    ensures allocated(LowerOwned(lower)) && allocated(LowerBorrowed(lower))
  {
    hide Owned, Borrowed;
    forall k | 0 <= k < |lower|
      ensures allocated(OpenOwned(lower[k])) && allocated(Borrowed(lower[k].sh))
    {
      FootprintAllocated(lower[k].sh);
    }
  }

  lemma LowerOwnedSnoc(lower: seq<Open>, o: Open)
    ensures LowerOwned(lower + [o]) == LowerOwned(lower) + OpenOwned(o)
    ensures LowerBorrowed(lower + [o]) == LowerBorrowed(lower) + Borrowed(o.sh)
  {
    hide OpenOwned, Borrowed;
    var all := lower + [o];
    assert all[|lower|] == o;
    assert forall i :: 0 <= i < |lower| ==> all[i] == lower[i];
  }

  lemma LowerRepSnoc(a: Allocator, lower: seq<Open>, o: Open, next: Node?)
    ensures LowerRep(a, lower + [o], next) <==> LowerRep(a, lower, o.sh.node) && RepOpen(a, o, next)
  {
    hide RepOpen;
    var all := lower + [o];
    assert all[|lower|] == o && Link(all, |lower|, next) == next;
    assert forall i :: 0 <= i < |lower| ==> all[i] == lower[i] && Link(all, i, next) == Link(lower, i, o.sh.node);
    if LowerRep(a, all, next) {
      forall i | 0 <= i < |lower| ensures RepOpen(a, lower[i], Link(lower, i, o.sh.node)) {
        assert RepOpen(a, all[i], Link(all, i, next));
      }
    }
  }

  lemma LowerSeparateSnoc(lower: seq<Open>, o: Open)
    ensures LowerSeparate(lower + [o]) <==>
              LowerSeparate(lower) && SeparateOpen(o) && o.hole.Some? && LowerOwned(lower) !! OpenOwned(o)
  {
    hide SeparateOpen, OpenOwned;
    var all := lower + [o];
    assert all[|lower|] == o;
    assert forall i :: 0 <= i < |lower| ==> all[i] == lower[i];
    if LowerSeparate(all) {
      forall i | 0 <= i < |lower| ensures OpenOwned(lower[i]) !! OpenOwned(o) {
        assert OpenOwned(all[i]) !! OpenOwned(all[|lower|]);
      }
      forall i, j | 0 <= i < j < |lower| ensures OpenOwned(lower[i]) !! OpenOwned(lower[j]) {
        assert OpenOwned(all[i]) !! OpenOwned(all[j]);
      }
    }
  }

  // ---- A tree under construction ----

  ghost function BuildOwned(lower: seq<Open>, top: Shape): set<object> {
    LowerOwned(lower) + Owned(top)
  }

  ghost predicate BuildRep(a: Allocator, lower: seq<Open>, top: Shape)
    reads LowerOwned(lower), LowerBorrowed(lower), Footprint(top)
  {
    LowerRep(a, lower, top.node) && top.node.alloc == a && Rep(a, top)
  }

  ghost predicate BuildSeparate(lower: seq<Open>, top: Shape) {
    LowerSeparate(lower) && Separate(top) && LowerOwned(lower) !! Owned(top)
  }

  /** The outermost node. */
  ghost function RootNode(lower: seq<Open>, top: Shape): Node {
    if lower == [] then top.node else lower[0].sh.node
  }

  ghost predicate Pluggable(o: Open) {
    && o.hole.Some?
    && (o.sh.ListS? || o.sh.DictS?)
    && (o.sh.ListS? ==> o.hole.value.buf == null)
  }

  /** Whether the innermost container is still open or already a child makes no
      difference to the heap. */
  lemma BuildRepSame(a: Allocator, lower: seq<Open>, o: Open, c: Shape)
    requires Pluggable(o) && c.node.alloc == a && o.sh.node.alloc == a
    ensures BuildRep(a, lower + [o], c) <==> BuildRep(a, lower, Plug(o, c))
  {
    assert Plug(o, c).node == o.sh.node;
    hide LowerRep, Rep, RepOpen, Plug;
    LowerRepSnoc(a, lower, o, c.node);
    PlugRep(a, o, c);
  }

  lemma BuildSetsSame(lower: seq<Open>, o: Open, c: Shape)
    requires Pluggable(o) && SeparateOpen(o)
    ensures BuildOwned(lower, Plug(o, c)) == BuildOwned(lower + [o], c)
    ensures LowerBorrowed(lower) + Borrowed(Plug(o, c)) == LowerBorrowed(lower + [o]) + Borrowed(c)
  {
    hide Owned, Borrowed, LowerOwned, LowerBorrowed, OpenOwned, SeparateOpen, Plug;
    LowerOwnedSnoc(lower, o);
    PlugOwned(o, c);
  }

  lemma RootSame(lower: seq<Open>, o: Open, c: Shape)
    requires Pluggable(o)
    ensures RootNode(lower, Plug(o, c)) == RootNode(lower + [o], c)
  {
  }

  lemma BuildSeparateClose(lower: seq<Open>, o: Open, c: Shape)
    requires BuildSeparate(lower + [o], c)
    ensures Pluggable(o) && SeparateOpen(o) && BuildSeparate(lower, Plug(o, c))
  {
    LowerSeparateSnoc(lower, o);
    assert Pluggable(o);
    hide Owned, LowerOwned, OpenOwned, Separate, SeparateOpen, LowerSeparate, Plug;
    LowerOwnedSnoc(lower, o);
    PlugOwned(o, c);
    PlugSeparate(o, c);
  }

  lemma BuildSeparateOpen(lower: seq<Open>, o: Open, c: Shape)
    requires Pluggable(o) && BuildSeparate(lower, Plug(o, c))
    ensures SeparateOpen(o) && BuildSeparate(lower + [o], c)
  {
    hide Owned, LowerOwned, OpenOwned, Separate, SeparateOpen, LowerSeparate, Plug;
    UnplugSeparate(o, c);
    PlugOwned(o, c);
    LowerOwnedSnoc(lower, o);
    LowerSeparateSnoc(lower, o);
  }

  /** A finished innermost container becomes an ordinary child of the next one;
      nothing moves on the heap. */
  lemma CloseInto(a: Allocator, lower: seq<Open>, o: Open, c: Shape)
    requires BuildRep(a, lower + [o], c) && BuildSeparate(lower + [o], c)
    ensures Pluggable(o) && Plug(o, c).node == o.sh.node && o.sh.node.alloc == a
    ensures BuildRep(a, lower, Plug(o, c)) && BuildSeparate(lower, Plug(o, c))
    ensures BuildOwned(lower, Plug(o, c)) == BuildOwned(lower + [o], c)
    ensures LowerBorrowed(lower) + Borrowed(Plug(o, c)) == LowerBorrowed(lower + [o]) + Borrowed(c)
    ensures RootNode(lower, Plug(o, c)) == RootNode(lower + [o], c)
  {
    BuildSeparateClose(lower, o, c);
    LowerRepSnoc(a, lower, o, c.node);
    assert RepOpen(a, o, c.node);
    assert Plug(o, c).node == o.sh.node;
    hide LowerRep, Rep, Owned, LowerOwned, LowerBorrowed;
    hide Borrowed, Plug, BuildSeparate, BuildOwned, SeparateOpen, RootNode;
    BuildRepSame(a, lower, o, c);
    BuildSetsSame(lower, o, c);
    RootSame(lower, o, c);
  }

  /** The other way round: a child just attached stays open. */
  lemma OpenFrom(a: Allocator, lower: seq<Open>, o: Open, c: Shape)
    requires Pluggable(o) && c.node.alloc == a
    requires BuildRep(a, lower, Plug(o, c)) && BuildSeparate(lower, Plug(o, c))
    ensures BuildRep(a, lower + [o], c) && BuildSeparate(lower + [o], c)
    ensures BuildOwned(lower, Plug(o, c)) == BuildOwned(lower + [o], c)
    ensures LowerBorrowed(lower) + Borrowed(Plug(o, c)) == LowerBorrowed(lower + [o]) + Borrowed(c)
    ensures RootNode(lower, Plug(o, c)) == RootNode(lower + [o], c)
  {
    assert Plug(o, c).node == o.sh.node;
    hide LowerRep, Rep, Owned, LowerOwned, LowerBorrowed;
    hide Borrowed, Plug, BuildSeparate, BuildOwned, SeparateOpen, RootNode;
    BuildSeparateOpen(lower, o, c);
    BuildRepSame(a, lower, o, c);
    BuildSetsSame(lower, o, c);
    RootSame(lower, o, c);
  }

  /** Closing everything that is open yields one whole tree: what a failed parse
      has to free. */
  lemma {:induction false} CloseAll(a: Allocator, lower: seq<Open>, top: Shape) returns (t: Shape)
    requires BuildRep(a, lower, top) && BuildSeparate(lower, top)
    ensures t.node == RootNode(lower, top) && t.node.alloc == a
    ensures Rep(a, t) && Separate(t) && Owned(t) == BuildOwned(lower, top)
    decreases |lower|
  {
    hide LowerSeparate, Owned, Rep, LowerOwned, LowerBorrowed, Separate, Borrowed;
    if lower == [] {
      t := top;
      NoneBelow();
    } else {
      var o, rest := lower[|lower|-1], lower[..|lower|-1];
      assert lower == rest + [o];
      CloseInto(a, rest, o, top);
      t := CloseAll(a, rest, Plug(o, top));
    }
  }

  lemma NoneBelow()
    ensures LowerOwned([]) == {} && LowerBorrowed([]) == {}
  {
  }
}
