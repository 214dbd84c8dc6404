/** The tree builder behind the parser's callbacks: a stack of open containers
    that turns events into a value tree in place. */
module Dom {
  import opened Bytes
  import opened Values
  import opened Dicts
  import opened Zipper
  import opened Capacity
  import opened Memory
  import opened Tree
  import opened Builders
  import opened DictStore
  import opened Spine

  /** A stretch of a caller's buffer: pointer and length. */
  datatype Slice = Slice(buf: array<byte>, off: nat, len: nat)

  predicate InBounds(s: Slice) {
    s.off + s.len <= s.buf.Length
  }

  function SliceBytes(s: Slice): (b: Bytes)
    requires InBounds(s)
    reads s.buf
    ensures |b| == s.len
  {
    s.buf[s.off..s.off+s.len]
  }

  const FRAME_CAP: nat := 257

  /** One entry per open container. */
  datatype DomFrame = DomFrame(container: Node?, expectingKey: bool, pendingKey: Option<Slice>)

  /** What an open container with an open child stands for. */
  ghost function HoleFrame(o: Open): Frame
    requires Pluggable(o)
  {
    match o.sh
    case ListS(_, _, kids) => FList(DenKids(kids))
    case DictS(_, _, binds) => FDict(DenBinds(binds), Some(o.hole.value.key))
  }

  /** The innermost frame agrees with the abstract one. The key flag is up
      exactly when no key is pending, and a pending key is the one just read. */
  ghost predicate TopAgrees(f: DomFrame, t: Shape, input: array<byte>, af: Frame)
    reads input
  {
    && f.container == t.node
    && match t
       case ListS(_, _, kids) => !f.expectingKey && f.pendingKey.None? && af == FList(DenKids(kids))
       case DictS(_, _, binds) =>
         && af.FDict? && af.pairs == DenBinds(binds)
         && f.expectingKey == af.key.None?
         && f.pendingKey.Some? == af.key.Some?
         && (f.pendingKey.Some? ==>
               && f.pendingKey.value.buf == input && InBounds(f.pendingKey.value)
               && SliceBytes(f.pendingKey.value) == af.key.value)
       case _ => false
  }

  /** An outer frame agrees with the abstract one; its key flag is already up,
      ahead of the parser's. */
  ghost predicate LowerAgrees(f: DomFrame, o: Open, af: Frame) {
    && f.container == o.sh.node
    && Pluggable(o)
    && af == HoleFrame(o)
    && f.expectingKey == o.sh.DictS?
    && f.pendingKey.None?
  }

  // ---- Attaching below the surface: the heap part ----

  /** The live blocks are those from before, those of the tree, and `extra`. */
  ghost predicate Ledger(a: Allocator, base: set<object>, built: set<object>, extra: set<object>)
    reads a
  {
    a.Valid() && a.live == base + built + extra && base !! built && base + built !! extra
  }

  /** The live blocks after the innermost container has taken in a new child. */
  lemma Account(live0: set<object>, live1: set<object>, base: set<object>, outer: set<object>,
                was: set<object>, child: set<object>, now: set<object>)
    requires live0 == base + (outer + was) + child
    requires outer !! was && base !! outer + was && base + (outer + was) !! child
    requires live1 == live0 - was + now && child <= now && (now - was - child) !! live0
    ensures live1 == base + (outer + now) && base !! outer + now && outer !! now
  {
  }

  lemma PlugOwnedList(t: Shape, r: Shape, c: Shape)
    requires t.ListS? && r.ListS? && r.kids == t.kids + [c]
    ensures Borrowed(r) == Borrowed(t) + Borrowed(c)
    ensures Owned(r) == {r.node} + Block(r.items) + KidsOwned(t.kids) + Owned(c)
  {
    KidsOwnedSnoc(t.kids, c);
  }

  /** Append to the innermost container, a list, and keep the whole unfinished
      tree in order. */
  method AppendUnder(list: Node, child: Node, ghost base: set<object>, ghost lower: seq<Open>,
                     ghost t: Shape, ghost c: Shape)
    returns (st: Status, ghost o: Option<Open>)
    requires t.ListS? && t.node == list && c.node == child && Owns(list.alloc, c)
    requires BuildRep(list.alloc, lower, t) && BuildSeparate(lower, t)
    requires Ledger(list.alloc, base, BuildOwned(lower, t), Owned(c))
    modifies list, Block(t.items), list.alloc
    ensures st in {Ok, NoMem}
    ensures list.alloc.Asked(st == Ok) && (st == Ok <==> list.alloc.Granted() && |t.kids| < MAX_ITEMS)
    ensures list.alloc.Asks(GrowPlan(|t.kids|, POINTER_SIZE))
    ensures st != Ok ==>
              && BuildRep(list.alloc, lower, t) && Owns(list.alloc, c)
              && list.alloc.live == old(list.alloc.live)
    ensures st == Ok ==>
              && Attached(o, t, c, []) && Plug(o.value, c).node == list
              && BuildRep(list.alloc, lower, Plug(o.value, c)) && BuildSeparate(lower, Plug(o.value, c))
              && Ledger(list.alloc, base, BuildOwned(lower, Plug(o.value, c)), {})
              && fresh(list.alloc.live - old(list.alloc.live))
  {
    hide Rep, Owned, Borrowed, Separate, LowerRep, LowerSeparate, LowerOwned, LowerBorrowed;
    FootprintAllocated(c);
    FootprintAllocated(t);
    LowerAllocated(lower);
    TopBlocks(t);
    ghost var live0 := list.alloc.live;
    ghost var r;
    st, r := ListAppend(list, child, t, c);
    assert LowerRep(list.alloc, lower, list);
    if st != Ok {
      return st, None;
    }
    o := Some(Open(ListS(list, r.items, t.kids), Some(Hole([], null))));
    assert Plug(o.value, c) == r;
    PlugOwnedList(t, r, c);
    Account(live0, list.alloc.live, base, LowerOwned(lower), Owned(t), Owned(c), Owned(r));
  }

  /** `o` is the old innermost container `t`, regrown, with a hole for `c` that
      sits under `key` when it is a dictionary. */
  ghost predicate Attached(o: Option<Open>, t: Shape, c: Shape, key: Bytes)
  {
    && o.Some? && Pluggable(o.value) && o.value.sh.node == t.node
    && o.value.hole.value.key == key
    && (t.ListS? ==> o.value.sh.ListS? && o.value.sh.kids == t.kids)
    && (t.DictS? ==> o.value.sh.DictS? && o.value.sh.binds == t.binds)
    && Borrowed(Plug(o.value, c)) <= Borrowed(t) + Borrowed(c)
  }

  /** Set in the innermost container, a dictionary whose keys are all smaller:
      the entry goes to the end and nothing is replaced. */
  method SetUnder(dict: Node, key: Bytes, child: Node, ghost base: set<object>, ghost lower: seq<Open>,
                  ghost t: Shape, ghost c: Shape)
    returns (st: Status, ghost o: Option<Open>)
    requires t.DictS? && t.node == dict && c.node == child && Owns(dict.alloc, c)
    requires BuildRep(dict.alloc, lower, t) && BuildSeparate(lower, t)
    requires Ledger(dict.alloc, base, BuildOwned(lower, t), Owned(c))
    requires Sorted(DenBinds(t.binds)) && |key| <= SIZE_MAX
    requires forall i :: 0 <= i < |t.binds| ==> Less(DenBinds(t.binds)[i].key, key)
    modifies dict, Block(t.entries), dict.alloc
    ensures st in {Ok, NoMem}
    ensures dict.alloc.Asked(st == Ok) && (st == Ok <==> dict.alloc.Granted() && |t.binds| < MAX_ENTRIES)
    ensures dict.alloc.Asks(SetPlan(key, |t.binds|))
    ensures st != Ok ==>
              && BuildRep(dict.alloc, lower, t) && Owns(dict.alloc, c)
              && dict.alloc.live == old(dict.alloc.live)
    ensures st == Ok ==>
              && Attached(o, t, c, key) && Plug(o.value, c).node == dict
              && BuildRep(dict.alloc, lower, Plug(o.value, c)) && BuildSeparate(lower, Plug(o.value, c))
              && Ledger(dict.alloc, base, BuildOwned(lower, Plug(o.value, c)), {})
              && fresh(dict.alloc.live - old(dict.alloc.live))
  {
    hide Rep, Owned, Borrowed, Separate, LowerRep, LowerSeparate, LowerOwned, LowerBorrowed, Less, Slot, Sorted, Put;
    FootprintAllocated(c);
    FootprintAllocated(t);
    LowerAllocated(lower);
    TopBlocks(t);
    PutAfterAll(DenBinds(t.binds), key, Den(c));
    ghost var live0 := dict.alloc.live;
    ghost var r;
    st, r := DictSet(dict, key, child, t, c);
    assert LowerRep(dict.alloc, lower, dict);
    if st != Ok {
      return st, None;
    }
    ghost var buf := r.binds[|t.binds|].buf;
    o := Some(Open(DictS(dict, r.entries, t.binds), Some(Hole(key, buf))));
    assert Plug(o.value, c) == r;
    Account(live0, dict.alloc.live, base, LowerOwned(lower), Owned(t), Owned(c), Owned(r));
  }

  class DomState {
    const alloc: Allocator
    ghost const input: array<byte>
    ghost const base: set<object>
    ghost const before: nat
    ghost const askedBefore: seq<nat>
    const frames: array<DomFrame>
    var root: Node?
    var depth: nat
    ghost var lower: seq<Open>
    ghost var top: Option<Shape>

    constructor (alloc: Allocator, input: array<byte>)
      requires alloc.Valid() && input.Length <= SIZE_MAX
      ensures fresh(this) && fresh(frames)
      ensures this.alloc == alloc && this.input == input && base == alloc.live
      ensures before == alloc.refused && askedBefore == alloc.asked
      ensures Valid(Start)
    {
      this.alloc := alloc;
      this.input := input;
      base := alloc.live;
      before, askedBefore := alloc.refused, alloc.asked;
      root := null;
      depth := 0;
      lower := [];
      top := None;
      frames := new DomFrame[FRAME_CAP];
    }

    /** Everything the builder may change. */
    ghost function Repr(): set<object>
      reads this, alloc
    {
      {this, frames, alloc} + (alloc.live - base)
    }

    ghost function Built(): set<object>
      reads this
    {
      if top.Some? then BuildOwned(lower, top.value) else {}
    }

    /** The tree so far is whole on the heap, and the live blocks are those from
        before the parse, those of the tree, and `extra`. */
    ghost predicate Structural(extra: set<object>)
      reads this, alloc, frames, Built(), LowerBorrowed(lower), if top.Some? then Footprint(top.value) else {}
    {
      && this !in alloc.live && frames !in alloc.live
      && frames.Length == FRAME_CAP && input.Length <= SIZE_MAX
      && depth < FRAME_CAP
      && |lower| == (if depth == 0 then 0 else depth - 1)
      && (depth > 0 ==> top.Some?)
      && Ledger(alloc, base, Built(), extra)
      && root == (if top.Some? then RootNode(lower, top.value) else null)
      && (top.Some? ==>
            && BuildRep(alloc, lower, top.value) && BuildSeparate(lower, top.value)
            && LowerBorrowed(lower) + Borrowed(top.value) <= {input})
    }

    /** The frames agree with the abstract state. */
    ghost predicate Agrees(z: Zip)
      requires frames.Length == FRAME_CAP && depth < FRAME_CAP
      requires |lower| == (if depth == 0 then 0 else depth - 1) && (depth > 0 ==> top.Some?)
      reads this, frames, input
    {
      && |z.stack| == depth
      && (depth == 0 ==> z.root == if top.Some? then Some(Den(top.value)) else None)
      && (forall k :: 0 <= k < |lower| ==> LowerAgrees(frames[k], lower[k], z.stack[k]))
      && (depth > 0 ==> TopAgrees(frames[depth-1], top.value, input, z.stack[depth-1]))
    }

    ghost predicate Valid(z: Zip)
      reads this, alloc, frames, input, Built(), LowerBorrowed(lower), if top.Some? then Footprint(top.value) else {}
    {
      Structural({}) && Agrees(z)
    }

    // ---- Attaching a value ----

    /** The list branch of `attach`. */
    method AttachItem(value: Node, ghost c: Shape, ghost z: Zip) returns (st: Status, ghost o: Option<Open>)
      requires Structural(Owned(c)) && Agrees(z) && WellZip(z)
      requires depth > 0 && top.value.ListS?
      requires Owns(alloc, c) && c.node == value && Borrowed(c) <= {input}
      modifies Repr()
      ensures st in {Ok, NoMem}
      ensures alloc.Asked(st == Ok) && (st == Ok <==> alloc.Granted() && HasRoom(z))
      ensures alloc.Asks(AttachPlan(z))
      ensures depth == old(depth) && lower == old(lower) && fresh(alloc.live - old(alloc.live))
      ensures st != Ok ==> Structural(Owned(c)) && Owns(alloc, c)
      ensures st == Ok ==>
                && o.Some? && Pluggable(o.value) && HoleFrame(o.value) == Top(z)
                && top == Some(Plug(o.value, c))
                && Structural({}) && Agrees(Deliver(z, Den(c)))
    {
      hide Den, RootNode, WellZip;
      hide Rep, Owned, Borrowed, Separate, LowerRep, LowerSeparate, LowerOwned, LowerBorrowed, LowerAgrees;
      hide Plug, BuildSeparate;
      ghost var t := top.value;
      TopInside(lower, t);
      st, o := AppendUnder(frames[depth-1].container, value, base, lower, t, c);
      if st != Ok {
        BuildAllocated(lower, t);
        return st, None;
      }
      ghost var r := Plug(o.value, c);
      BuildAllocated(lower, r);
      PlugDenotes(o.value, c);
      PlugRoot(lower, t, r);
      assert this !in Footprint(r);
      top := Some(r);
    }

    /** The dictionary branch of `attach`: the pending key is used up either way. */
    method AttachEntry(value: Node, ghost c: Shape, ghost z: Zip) returns (st: Status, ghost o: Option<Open>)
      requires Structural(Owned(c)) && Agrees(z) && WellZip(z)
      requires depth > 0 && top.value.DictS? && Awaits(z)
      requires Owns(alloc, c) && c.node == value && Borrowed(c) <= {input}
      modifies Repr()
      ensures st in {Ok, NoMem}
      ensures alloc.Asked(st == Ok) && (st == Ok <==> alloc.Granted() && HasRoom(z))
      ensures alloc.Asks(AttachPlan(z))
      ensures depth == old(depth) && lower == old(lower) && fresh(alloc.live - old(alloc.live))
      ensures st != Ok ==> Structural(Owned(c)) && Owns(alloc, c)
      ensures st == Ok ==>
                && o.Some? && Pluggable(o.value) && HoleFrame(o.value) == Top(z)
                && top == Some(Plug(o.value, c))
                && Structural({}) && Agrees(Deliver(z, Den(c)))
    {
      hide Rep, Owned, Borrowed, Separate, LowerRep, LowerSeparate, LowerOwned, LowerBorrowed, LowerAgrees;
      hide Plug, BuildRep, BuildSeparate, Less, Sorted, Den, DenBinds, Ledger;
      st, o := SetPending(value, c, z);
      FootprintAllocated(c);
      if st == Ok {
        PlugDenotes(o.value, c);
        ConsumeKey({});
      } else {
        ConsumeKey(Owned(c));
      }
    }

    /** The value goes to the end of the innermost dictionary, under the pending
        key; the frames are not touched. */
    method SetPending(value: Node, ghost c: Shape, ghost z: Zip) returns (st: Status, ghost o: Option<Open>)
      requires Structural(Owned(c)) && Agrees(z) && WellZip(z)
      requires depth > 0 && top.value.DictS? && Awaits(z)
      requires Owns(alloc, c) && c.node == value && Borrowed(c) <= {input}
      modifies Repr()
      ensures st in {Ok, NoMem} && frames[..] == old(frames[..])
      ensures alloc.Asked(st == Ok) && (st == Ok <==> alloc.Granted() && HasRoom(z))
      ensures alloc.Asks(AttachPlan(z))
      ensures depth == old(depth) && lower == old(lower) && fresh(alloc.live - old(alloc.live))
      ensures st != Ok ==> top == old(top) && Structural(Owned(c)) && Owns(alloc, c)
      ensures st == Ok ==>
                && o.Some? && Pluggable(o.value) && HoleFrame(o.value) == Top(z)
                && top == Some(Plug(o.value, c)) && Plug(o.value, c).node == old(top.value.node)
                && Structural({})
    {
      hide Rep, Owned, Borrowed, Separate, LowerRep, LowerSeparate, LowerOwned, LowerBorrowed, LowerAgrees;
      hide Plug, BuildSeparate, Less, Sorted, Den, DenBinds;
      ghost var t := top.value;
      TopInside(lower, t);
      assert WellFrame(Top(z));
      var f := frames[depth-1];
      st, o := SetUnder(f.container, SliceBytes(f.pendingKey.value), value, base, lower, t, c);
      FootprintAllocated(c);
      if st != Ok {
        BuildAllocated(lower, t);
        return st, None;
      }
      ghost var r := Plug(o.value, c);
      BuildAllocated(lower, r);
      PlugRoot(lower, t, r);
      assert this !in Footprint(r);
      top := Some(r);
    }

    /** The key of the innermost dictionary has been used; the next string is a
        key again. */
    method ConsumeKey(ghost extra: set<object>)
      requires Structural(extra) && depth > 0
      modifies frames
      ensures Structural(extra)
      ensures frames[depth-1] == old(frames[depth-1]).(expectingKey := true, pendingKey := None)
      ensures forall k :: 0 <= k < FRAME_CAP && k != depth - 1 ==> frames[k] == old(frames[k])
    {
      hide Rep, Owned, Borrowed, Separate, LowerRep, LowerOwned, LowerBorrowed, BuildSeparate;
      BuildAllocated(lower, top.value);
      assert frames !in Footprint(top.value);
      frames[depth-1] := frames[depth-1].(expectingKey := true, pendingKey := None);
    }

    /** `attach`: the value goes to the innermost open container, or becomes the
        root when none is open. */
    method Attach(value: Node, ghost c: Shape, ghost z: Zip) returns (st: Status, ghost o: Option<Open>)
      requires Structural(Owned(c)) && Agrees(z) && WellZip(z) && Awaits(z)
      requires Owns(alloc, c) && c.node == value && Borrowed(c) <= {input}
      modifies Repr()
      ensures st in {Ok, NoMem}
      ensures alloc.Asked(st == Ok) && (st == Ok <==> alloc.Granted() && HasRoom(z))
      ensures alloc.Asks(AttachPlan(z))
      ensures depth == old(depth) && lower == old(lower) && fresh(alloc.live - old(alloc.live))
      ensures st != Ok ==> Structural(Owned(c)) && Owns(alloc, c)
      ensures st == Ok ==> Structural({}) && Agrees(Deliver(z, Den(c)))
      ensures st == Ok && depth == 0 ==> top == Some(c)
      ensures st == Ok && depth > 0 ==>
                && o.Some? && Pluggable(o.value) && HoleFrame(o.value) == Top(z)
                && top == Some(Plug(o.value, c))
    {
      hide Rep, Owned, Borrowed, Separate, LowerRep, LowerSeparate, LowerAgrees, Plug, Less, WellZip;
      if depth == 0 {
        FootprintAllocated(c);
        NoneBelow();
        assert this !in Footprint(c);
        assert top.None?;
        root := value;
        top := Some(c);
        NoLower(alloc);
        return Ok, None;
      }
      ghost var t := top.value;
      TopInside(lower, t);
      ListOrDict(alloc, lower, t);
      var container := frames[depth-1].container;
      if container.body.ListB? {
        st, o := AttachItem(value, c, z);
      } else {
        st, o := AttachEntry(value, c, z);
      }
    }

    // ---- The callbacks ----

    /** Free a node that could not be attached. */
    method Drop(value: Node, ghost c: Shape)
      requires Structural(Owned(c)) && Owns(alloc, c) && c.node == value
      modifies Repr()
      ensures Structural({}) && alloc.live <= old(alloc.live) && alloc.Quiet()
      ensures depth == old(depth)
    {
      hide Rep, Owned, Borrowed, Separate, LowerRep, LowerOwned, LowerBorrowed, BuildSeparate;
      if top.Some? {
        BuildAllocated(lower, top.value);
        NotInBuild(alloc, lower, top.value);
      }
      Free(value, c);
    }

    /** Attach a new node, or free it: the tail of every callback that makes one. */
    method AttachOrDrop(value: Node, ghost c: Shape, ghost z: Zip) returns (st: Status, ghost o: Option<Open>)
      requires Structural(Owned(c)) && Agrees(z) && WellZip(z) && Awaits(z)
      requires Owns(alloc, c) && c.node == value && Borrowed(c) <= {input}
      modifies Repr()
      ensures st in {Ok, NoMem} && Structural({})
      ensures alloc.Asked(st == Ok) && (st == Ok <==> alloc.Granted() && HasRoom(z))
      ensures alloc.Asks(AttachPlan(z))
      ensures depth == old(depth) && fresh(alloc.live - old(alloc.live))
      ensures st == Ok ==> lower == old(lower) && Agrees(Deliver(z, Den(c)))
      ensures st == Ok && depth == 0 ==> top == Some(c)
      ensures st == Ok && depth > 0 ==>
                && o.Some? && Pluggable(o.value) && HoleFrame(o.value) == Top(z)
                && top == Some(Plug(o.value, c))
    {
      hide Rep, Owned, Borrowed, Separate, LowerRep, LowerOwned, LowerBorrowed, BuildSeparate, LowerAgrees, TopAgrees;
      hide Plug, WellZip, WellFrame, Deliver;
      st, o := Attach(value, c, z);
      if st != Ok {
        Drop(value, c);
      }
    }

    /** `dom_on_int` */
    method OnInt(i: int, ghost z: Zip) returns (st: Status)
      requires Valid(z) && WellZip(z) && Legal(z, EInt(i))
      modifies Repr()
      ensures st in {Ok, NoMem} && fresh(alloc.live - old(alloc.live))
      ensures alloc.Asked(st == Ok) && (st == Ok <==> alloc.Granted() && HasRoom(z))
      ensures alloc.Asks(EventPlan(z, EInt(i)))
      ensures if st == Ok then Valid(Step(z, EInt(i))) else Structural({})
    {
      hide Rep, Owned, Borrowed, Separate, LowerRep, LowerOwned, LowerBorrowed, BuildSeparate, LowerAgrees, TopAgrees;
      hide Plug, WellZip;
      ghost var asked0, refused0 := alloc.asked, alloc.refused;
      var node;
      ghost var t;
      KeepTree();
      st, node, t := IntNew(i, alloc);
      if st != Ok {
        RanStop(alloc.answers, asked0, refused0, [NODE_SIZE], alloc.asked, alloc.refused, AttachPlan(z));
        return;
      }
      ghost var o, asked1 := None, alloc.asked;
      st, o := AttachOrDrop(node, t.value, z);
      RanThen(alloc.answers, asked0, refused0, [NODE_SIZE], asked1, refused0, AttachPlan(z),
              alloc.asked, alloc.refused);
    }

    /** `dom_on_string`: a key is remembered, anything else is a value. */
    method OnString(s: Slice, ghost z: Zip) returns (st: Status)
      requires Valid(z) && WellZip(z)
      requires s.buf == input && InBounds(s) && Legal(z, EStr(SliceBytes(s)))
      modifies Repr()
      ensures st in {Ok, NoMem} && fresh(alloc.live - old(alloc.live))
      ensures alloc.Asked(st == Ok) && (st == Ok <==> alloc.Granted() && Fits(z, EStr(old(SliceBytes(s)))))
      ensures alloc.Asks(EventPlan(z, EStr(old(SliceBytes(s)))))
      ensures if st == Ok then Valid(Step(z, EStr(old(SliceBytes(s))))) else Structural({})
    {
      hide Rep, Owned, Borrowed, Separate, LowerRep, LowerOwned, LowerBorrowed, BuildSeparate, LowerAgrees;
      hide Plug, WellZip, Less, LastKey;
      if depth > 0 {
        var f := frames[depth-1];
        ListOrDict(alloc, lower, top.value);
        if f.container.body.DictB? && f.expectingKey {
          StashKey(s, z);
          return Ok;
        }
      }
      st := AddString(s, z);
    }

    /** A string in value position borrows its bytes from the input. */
    method AddString(s: Slice, ghost z: Zip) returns (st: Status)
      requires Valid(z) && WellZip(z) && Awaits(z)
      requires s.buf == input && InBounds(s)
      modifies Repr()
      ensures st in {Ok, NoMem} && fresh(alloc.live - old(alloc.live))
      ensures alloc.Asked(st == Ok) && (st == Ok <==> alloc.Granted() && HasRoom(z))
      ensures alloc.Asks([NODE_SIZE] + AttachPlan(z))
      ensures if st == Ok then Valid(Deliver(z, VStr(old(SliceBytes(s))))) else Structural({})
    {
      hide Rep, Owned, Borrowed, Separate, LowerRep, LowerOwned, LowerBorrowed, BuildSeparate, LowerAgrees, TopAgrees;
      hide Plug, WellZip, Deliver, Awaits;
      ghost var asked0, refused0 := alloc.asked, alloc.refused;
      var node;
      ghost var t;
      KeepTree();
      st, node, t := StringNewBorrowed(s.buf, s.off, s.len, alloc);
      if st != Ok {
        RanStop(alloc.answers, asked0, refused0, [NODE_SIZE], alloc.asked, alloc.refused, AttachPlan(z));
        return;
      }
      ghost var o, asked1 := None, alloc.asked;
      st, o := AttachOrDrop(node, t.value, z);
      RanThen(alloc.answers, asked0, refused0, [NODE_SIZE], asked1, refused0, AttachPlan(z),
              alloc.asked, alloc.refused);
    }

    /** Remember a key for the value to come. */
    method StashKey(s: Slice, ghost z: Zip)
      requires Valid(z) && depth > 0 && top.value.DictS? && AwaitsKey(z)
      requires s.buf == input && InBounds(s)
      modifies frames
      ensures Valid(Hold(z, old(SliceBytes(s))))
    {
      hide Rep, Owned, Borrowed, Separate, LowerRep, LowerOwned, LowerBorrowed, BuildSeparate, LowerAgrees;
      BuildAllocated(lower, top.value);
      assert frames !in Footprint(top.value);
      frames[depth-1] := frames[depth-1].(pendingKey := Some(s), expectingKey := false);
    }

    /** `open_container`: make the node, attach it, and push its frame. The
        frame array never runs out. */
    method OpenContainer(isDict: bool, ghost z: Zip) returns (st: Status)
      requires Valid(z) && WellZip(z) && Awaits(z) && |z.stack| < FRAME_CAP - 1
      modifies Repr()
      ensures st in {Ok, NoMem} && fresh(alloc.live - old(alloc.live))
      ensures alloc.Asked(st == Ok) && (st == Ok <==> alloc.Granted() && HasRoom(z))
      ensures alloc.Asks([NODE_SIZE] + AttachPlan(z))
      ensures if st == Ok then Valid(Push(z, EmptyFrame(isDict))) else Structural({})
    {
      hide Ran, Den, BuildRep, RootNode, WellZip;
      hide Rep, Owned, Borrowed, Separate, LowerRep, LowerOwned, LowerBorrowed, BuildSeparate, LowerAgrees, TopAgrees;
      hide Plug, Deliver, EmptyShape, EmptyFrame, EmptyValue, WellFrame;
      ghost var asked0, refused0 := alloc.asked, alloc.refused;
      var node: Node?;
      KeepTree();
      st, node := NewContainer(isDict, alloc);
      if st != Ok {
        RanStop(alloc.answers, asked0, refused0, [NODE_SIZE], alloc.asked, alloc.refused, AttachPlan(z));
        return;
      }
      ghost var c := EmptyShape(node, isDict);
      ghost var o, asked1 := None, alloc.asked;
      st, o := AttachOrDrop(node, c, z);
      RanThen(alloc.answers, asked0, refused0, [NODE_SIZE], asked1, refused0, AttachPlan(z),
              alloc.asked, alloc.refused);
      if st != Ok {
        return;
      }
      if depth >= frames.Length {
        assert false;
      }
      PushFrame(node, isDict, z, c, o);
    }

    /** The container just attached becomes the innermost open one. */
    method PushFrame(node: Node, isDict: bool, ghost z: Zip, ghost c: Shape, ghost o: Option<Open>)
      requires Structural({}) && Awaits(z) && |z.stack| < FRAME_CAP - 1
      requires c == EmptyShape(node, isDict) && Den(c) == EmptyValue(isDict) && node.alloc == alloc
      requires Agrees(Deliver(z, Den(c)))
      requires depth == 0 ==> top == Some(c) && z.root.None?
      requires depth > 0 ==>
                 && z.stack != [] && o.Some? && Pluggable(o.value) && HoleFrame(o.value) == Top(z)
                 && top == Some(Plug(o.value, c))
      modifies this, frames
      ensures Valid(Push(z, EmptyFrame(isDict)))
      ensures alloc.live == old(alloc.live)
    {
      hide Rep, Owned, Borrowed, Separate, LowerRep, LowerOwned, LowerBorrowed, BuildSeparate, Plug;
      hide HoleFrame, LowerAgrees;
      EmptyParts(node, isDict);
      if depth > 0 {
        TopBecomesLower(z, o.value, c);
        ReopenTop(o.value, c);
      }
      EnterFrame(node, isDict, z);
    }

    /** Write the new frame above the ones already there. */
    method EnterFrame(node: Node, isDict: bool, ghost z: Zip)
      requires this !in alloc.live && frames !in alloc.live && frames.Length == FRAME_CAP
      requires input.Length <= SIZE_MAX && depth < FRAME_CAP - 1
      requires Ledger(alloc, base, Built(), {}) && top == Some(EmptyShape(node, isDict))
      requires root == RootNode(lower, top.value)
      requires BuildRep(alloc, lower, top.value) && BuildSeparate(lower, top.value)
      requires LowerBorrowed(lower) + Borrowed(top.value) <= {input}
      requires |lower| == depth == |z.stack|
      requires forall k :: 0 <= k < depth ==> LowerAgrees(frames[k], lower[k], z.stack[k])
      modifies this`depth, frames
      ensures Valid(Push(z, EmptyFrame(isDict)))
    {
      hide Rep, Owned, Borrowed, Separate, LowerRep, LowerOwned, LowerBorrowed, BuildSeparate, LowerAgrees;
      EmptyParts(node, isDict);
      BuildAllocated(lower, top.value);
      assert frames !in Footprint(top.value) && this !in Footprint(top.value);
      frames[depth] := DomFrame(node, isDict, None);
      depth := depth + 1;
    }

    /** Ghost step of `PushFrame`: the heap is seen with the child still open. */
    ghost method ReopenTop(o: Open, c: Shape)
      requires Structural({}) && depth > 0 && Pluggable(o) && top == Some(Plug(o, c))
      requires c.node.alloc == alloc
      modifies this`lower, this`top
      ensures lower == old(lower) + [o] && top == Some(c)
      ensures this !in alloc.live && frames !in alloc.live && frames.Length == FRAME_CAP
      ensures input.Length <= SIZE_MAX
      ensures Ledger(alloc, base, Built(), {}) && root == RootNode(lower, c)
      ensures BuildRep(alloc, lower, c) && BuildSeparate(lower, c)
      ensures LowerBorrowed(lower) + Borrowed(c) <= {input}
    {
      hide Rep, Owned, Borrowed, Separate, LowerRep, LowerOwned, LowerBorrowed, BuildSeparate, Plug;
      OpenFrom(alloc, lower, o, c);
      BuildAllocated(lower + [o], c);
      BuildAllocated(lower, Plug(o, c));
      assert this !in BuildOwned(lower + [o], c);
      assert this !in Footprint(c);
      lower := lower + [o];
      top := Some(c);
    }

    /** After a container has been attached, the frame that holds it is already
        in the state of an outer frame. */
    lemma TopBecomesLower(z: Zip, o: Open, c: Shape)
      requires Structural({}) && Awaits(z) && depth > 0 && Pluggable(o) && top == Some(Plug(o, c))
      requires z.stack != [] && HoleFrame(o) == Top(z) && Agrees(Deliver(z, Den(c)))
      ensures LowerAgrees(frames[depth-1], o, z.stack[depth-1])
      ensures |z.stack| == depth
      ensures forall k :: 0 <= k < |lower| ==> LowerAgrees(frames[k], lower[k], z.stack[k])
    {
      hide LowerAgrees, Ledger, BuildRep, BuildSeparate, Plug, TopAgrees, HoleFrame;
      var d := Deliver(z, Den(c));
      assert TopAgrees(frames[depth-1], Plug(o, c), input, d.stack[depth-1]);
      assert forall k :: 0 <= k < |lower| ==> d.stack[k] == z.stack[k];
      LowerFromTop(z, o, c);
    }

    lemma LowerFromTop(z: Zip, o: Open, c: Shape)
      requires Awaits(z) && frames.Length == FRAME_CAP && 0 < depth < FRAME_CAP && |z.stack| == depth
      requires Pluggable(o) && HoleFrame(o) == Top(z)
      requires TopAgrees(frames[depth-1], Plug(o, c), input, Deliver(z, Den(c)).stack[depth-1])
      ensures LowerAgrees(frames[depth-1], o, z.stack[depth-1])
    {
    }

    /** `dom_on_list_end` and `dom_on_dict_end`: the innermost container is
        finished. */
    method OnEnd(isDict: bool, ghost z: Zip) returns (st: Status)
      requires Valid(z) && WellZip(z) && Legal(z, EndEvent(isDict))
      modifies this
      ensures st == Ok && Valid(Step(z, EndEvent(isDict))) && alloc.live == old(alloc.live)
    {
      hide Rep, Owned, Borrowed, Separate, LowerRep, LowerOwned, LowerBorrowed, BuildSeparate, Plug;
      hide LowerAgrees, WellFrame, TopAgrees, Legal, Step, BuildRep;
      EndStep(z, isDict);
      ghost var c := top.value;
      if depth > 1 {
        LowerBecomesTop(z, lower[depth-2], c);
        CloseTop();
      }
      BuildAllocated(lower, top.value);
      assert this !in BuildOwned(lower, top.value);
      assert this !in Footprint(top.value);
      if depth > 0 {
        depth := depth - 1;
      }
      return Ok;
    }

    lemma EndClosesTop(z: Zip, isDict: bool)
      requires Legal(z, EndEvent(isDict))
      ensures z.stack != [] && Awaits(Pop(z)) && Top(z).FDict? == isDict
      ensures Step(z, EndEvent(isDict))
           == Deliver(Pop(z), if isDict then VDict(Top(z).pairs) else VList(Top(z).items))
    {
    }

    lemma TopDenotes(c: Shape, z: Zip)
      requires Valid(z) && depth > 0 && c == top.value
      ensures z.stack != []
      ensures Top(z).FList? ==> c.ListS? && Den(c) == VList(Top(z).items)
      ensures Top(z).FDict? ==> c.DictS? && Den(c) == VDict(Top(z).pairs)
    {
      hide BuildRep, BuildSeparate, Ledger, RootNode, LowerAgrees, TopAgrees, Den;
      FrameDenotes(frames[depth-1], c, Top(z));
    }

    lemma FrameDenotes(f: DomFrame, c: Shape, af: Frame)
      requires TopAgrees(f, c, input, af)
      ensures af.FList? ==> c.ListS? && Den(c) == VList(af.items)
      ensures af.FDict? ==> c.DictS? && Den(c) == VDict(af.pairs)
    {
      hide SliceBytes;
    }

    lemma EndStep(z: Zip, isDict: bool)
      requires Valid(z) && WellZip(z) && Legal(z, EndEvent(isDict))
      ensures depth > 0 && Awaits(Pop(z)) && Step(z, EndEvent(isDict)) == Deliver(Pop(z), Den(top.value))
    {
      hide BuildRep, BuildSeparate, Ledger, RootNode, Deliver, Den, LowerAgrees, TopAgrees, WellFrame, Legal, Step;
      EndClosesTop(z, isDict);
      TopDenotes(top.value, z);
    }

    /** Ghost step of `OnEnd`: the finished container is seen as a child. */
    ghost method CloseTop()
      requires Structural({}) && depth > 1
      modifies this`lower, this`top
      ensures lower == old(lower)[..depth-2] && Pluggable(old(lower)[depth-2])
      ensures top == Some(Plug(old(lower)[depth-2], old(top.value)))
      ensures this !in alloc.live && frames !in alloc.live && frames.Length == FRAME_CAP
      ensures input.Length <= SIZE_MAX
      ensures Ledger(alloc, base, Built(), {}) && root == RootNode(lower, top.value)
      ensures BuildRep(alloc, lower, top.value) && BuildSeparate(lower, top.value)
      ensures LowerBorrowed(lower) + Borrowed(top.value) <= {input}
    {
      hide Rep, Owned, Borrowed, Separate, LowerRep, LowerOwned, LowerBorrowed, BuildSeparate, Plug, RootNode;
      var o, rest, c := lower[depth-2], lower[..depth-2], top.value;
      assert lower == rest + [o];
      CloseInto(alloc, rest, o, c);
      BuildAllocated(rest, Plug(o, c));
      assert this !in BuildOwned(rest, Plug(o, c));
      lower := rest;
      top := Some(Plug(o, c));
    }

    /** The frame below is ready to be innermost again, with the finished value
        in it. */
    lemma LowerBecomesTop(z: Zip, o: Open, c: Shape)
      requires Valid(z) && WellZip(z) && depth > 1 && o == lower[depth-2] && c == top.value
      ensures Pluggable(o) && Awaits(Pop(z))
      ensures TopAgrees(frames[depth-2], Plug(o, c), input, Top(Deliver(Pop(z), Den(c))))
      ensures forall k :: 0 <= k < depth - 2 ==> LowerAgrees(frames[k], lower[k], Deliver(Pop(z), Den(c)).stack[k])
    {
      hide Ledger, BuildRep, BuildSeparate, RootNode, WellFrame, LowerAgrees, TopAgrees, Plug;
      assert LowerAgrees(frames[depth-2], o, z.stack[depth-2]);
      assert Top(Pop(z)) == z.stack[depth-2];
      FilledAgain(frames[depth-2], z, o, c);
    }

    lemma FilledAgain(f: DomFrame, z: Zip, o: Open, c: Shape)
      requires |z.stack| > 1 && LowerAgrees(f, o, Top(Pop(z)))
      requires Top(Pop(z)).FList? || Top(Pop(z)).key.Some?
      ensures Pluggable(o) && Awaits(Pop(z))
      ensures TopAgrees(f, Plug(o, c), input, Top(Deliver(Pop(z), Den(c))))
    {
      PlugDenotes(o, c);
    }

    /** What a failed parse does with the partial tree: everything allocated
        since the start is given back. */
    method Abandon()
      requires Structural({})
      modifies Repr()
      ensures alloc.Valid() && alloc.live == base && alloc.Quiet()
    {
      hide Rep, Owned, Borrowed, Separate, LowerRep, LowerOwned, LowerBorrowed, BuildSeparate;
      if root != null {
        ghost var t := CloseAll(alloc, lower, top.value);
        Free(root, t);
      }
    }

    /** The tree under construction exists and is made of no allocators. */
    lemma KeepTree()
      requires Structural({})
      ensures allocated(Built()) && allocated(LowerBorrowed(lower))
      ensures top.Some? ==>
                && allocated(Footprint(top.value)) && allocated(LowerOwned(lower))
                && alloc !in Footprint(top.value) && alloc !in LowerOwned(lower)
                && Owned(top.value) + LowerOwned(lower) <= alloc.live - base
      ensures Built() <= alloc.live - base
      ensures LowerBorrowed(lower) <= {input}
      ensures top.None? ==> lower == []
    {
      if top.Some? {
        BuildAllocated(lower, top.value);
        NotInBuild(alloc, lower, top.value);
      } else {
        NoneBelow();
      }
    }
  }

  lemma NotInBuild(a: Allocator, lower: seq<Open>, t: Shape)
    requires a.Valid() && BuildOwned(lower, t) <= a.live
    ensures a !in Footprint(t) && a !in LowerOwned(lower)
  {
  }

  function EndEvent(isDict: bool): Event {
    if isDict then EDictEnd else EListEnd
  }

  ghost function EmptyShape(n: Node, isDict: bool): Shape {
    if isDict then DictS(n, null, []) else ListS(n, null, [])
  }

  ghost function EmptyValue(isDict: bool): Value {
    if isDict then VDict([]) else VList([])
  }

  ghost function EmptyFrame(isDict: bool): Frame {
    if isDict then FDict([], None) else FList([])
  }

  lemma EmptyParts(n: Node, isDict: bool)
    ensures EmptyShape(n, isDict).node == n && Borrowed(EmptyShape(n, isDict)) == {}
    ensures DenKids([]) == [] && DenBinds([]) == []
  {
    EmptyShapes(n);
  }

  method NewContainer(isDict: bool, a: Allocator) returns (st: Status, node: Node?)
    requires a.Valid()
    modifies a
    ensures a.Valid() && st in {Ok, NoMem} && a.Asked(st == Ok) && (st == Ok <==> a.Granted()) && a.Asks([NODE_SIZE])
    ensures st != Ok ==> node == null && a.live == old(a.live)
    ensures st == Ok ==>
              && node != null && fresh(node) && node.alloc == a
              && Owns(a, EmptyShape(node, isDict)) && EmptyShape(node, isDict).node == node
              && Den(EmptyShape(node, isDict)) == EmptyValue(isDict)
              && Owned(EmptyShape(node, isDict)) == {node} && Borrowed(EmptyShape(node, isDict)) == {}
              && a.live == old(a.live) + {node}
  {
    hide Rep, Separate, Owned, Borrowed, Den;
    if isDict {
      st, node := DictNew(a);
    } else {
      st, node := ListNew(a);
    }
    if st == Ok {
      EmptyShapes(node);
    }
  }

  lemma ListOrDict(a: Allocator, lower: seq<Open>, t: Shape)
    requires BuildRep(a, lower, t) && (t.ListS? || t.DictS?)
    ensures t.ListS? <==> t.node.body.ListB?
    ensures t.DictS? <==> t.node.body.DictB?
  {
  }

  lemma NoLower(a: Allocator)
    ensures LowerSeparate([]) && forall n: Node? :: LowerRep(a, [], n)
  {
  }

  lemma TopInside(lower: seq<Open>, t: Shape)
    ensures t.node in BuildOwned(lower, t)
    ensures t.ListS? ==> Block(t.items) <= BuildOwned(lower, t)
    ensures t.DictS? ==> Block(t.entries) <= BuildOwned(lower, t)
  {
    TopBlocks(t);
  }

  lemma BuildAllocated(lower: seq<Open>, t: Shape)
    ensures allocated(LowerOwned(lower)) && allocated(LowerBorrowed(lower)) && allocated(Footprint(t))
    ensures allocated(BuildOwned(lower, t))
  {
    LowerAllocated(lower);
    FootprintAllocated(t);
  }

  lemma PlugRoot(lower: seq<Open>, t: Shape, r: Shape)
    requires r.node == t.node
    ensures RootNode(lower, r) == RootNode(lower, t)
  {
  }

  lemma PlugDenotes(o: Open, c: Shape)
    requires Pluggable(o)
    ensures o.sh.ListS? ==> Plug(o, c).ListS? && DenKids(Plug(o, c).kids) == DenKids(o.sh.kids) + [Den(c)]
    ensures o.sh.DictS? ==>
              Plug(o, c).DictS?
              && DenBinds(Plug(o, c).binds) == DenBinds(o.sh.binds) + [Pair(o.hole.value.key, Den(c))]
  {
    hide Den;
  }
}
