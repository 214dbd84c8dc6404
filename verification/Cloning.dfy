/** Deep copies. */
module Cloning {
  import opened Bytes
  import opened Values
  import opened Dicts
  import opened Memory
  import opened Tree
  import opened Builders
  import opened DictStore
  import opened Capacity

  /** Trees are made of nodes and arrays, never of allocators. */
  lemma {:induction false} NotInTree(a: Allocator, t: Shape)
    ensures a !in Owned(t)
    ensures a !in Footprint(t)
    decreases t
  {
    ghost var outside: set<object> := Borrowed(t);
    assert a !in outside;
    match t
    case IntS(_, _) =>
    case StrS(_, _, _) =>
    case ListS(_, _, kids) =>
      forall i | 0 <= i < |kids| ensures a !in Owned(kids[i]) {
        NotInTree(a, kids[i]);
      }
    case DictS(_, _, binds) =>
      forall i | 0 <= i < |binds| ensures a !in BindOwned(binds[i]) {
        NotInTree(a, binds[i].val);
      }
  }

  /** Every tree on the heap denotes a compact value: wider containers cannot be
      built. */
  lemma {:induction false} RepCompact(a: Allocator, t: Shape)
    requires Rep(a, t)
    ensures Compact(Den(t))
    decreases t
  {
    match t
    case IntS(_, _) =>
    case StrS(_, _, _) =>
    case ListS(_, _, kids) =>
      forall i | 0 <= i < |kids| ensures Compact(Den(kids[i])) {
        assert Rep(a, kids[i]);
        RepCompact(a, kids[i]);
      }
    case DictS(_, _, binds) =>
      forall i | 0 <= i < |binds| ensures Compact(Den(binds[i].val)) {
        assert RepBind(a, binds[i]);
        RepCompact(a, binds[i].val);
      }
  }

  /** A fresh tree from `a` that denotes `v` and points into no one's input. */
  ghost predicate Detached(a: Allocator, out: Node?, r: Option<Shape>, v: Value)
    reads a, if r.Some? then Footprint(r.value) else {}
  {
    Built(a, out, r, v) && Borrowed(r.value) == {}
  }

  lemma SortedTake(es: seq<Pair>, i: nat)
    requires Sorted(es) && i < |es|
    ensures Sorted(es[..i]) && Sorted(es[..i] + [es[i]]) && es[..i] + [es[i]] == es[..i+1]
  {
    hide Less;
  }

  /** `bencode_value_clone` */
  method Clone(v: Node, a: Allocator, ghost t: Shape)
    returns (st: Status, out: Node?, ghost r: Option<Shape>)
    requires t.node == v && Rep(v.alloc, t) && WellFormed(Den(t)) && a.Valid()
    modifies a
    ensures a.Valid() && st in {Ok, NoMem}
    ensures a.Asked(st == Ok) && (st == Ok <==> a.Granted()) && a.Asks(ClonePlan(Den(t)))
    ensures st == Ok <==> AllGranted(a.answers, old(a.calls), ClonePlan(Den(t)))
    ensures st != Ok ==> out == null && a.live == old(a.live)
    ensures st == Ok ==>
              && Detached(a, out, r, Den(t))
              && fresh(Owned(r.value)) && a.live == old(a.live) + Owned(r.value)
    decreases t, 1
  {
    match v.body {
      case IntB(i) =>
        st, out, r := IntNew(i, a);
      case StrB(pay, len) =>
        st, out, r := StringNew(PayloadBytes(pay, len), a);
      case ListB(_, _, _) =>
        st, out, r := CloneList(v, a, t);
      case DictB(_, _, _) =>
        st, out, r := CloneDict(v, a, t);
    }
  }

  /** The bytes behind a string pointer. */
  function PayloadBytes(pay: Payload, len: nat): Bytes
    requires pay.Borrow? ==> pay.off + len <= pay.buf.Length
    requires pay.Own? ==> len <= pay.buf.Length
    reads if pay.Literal? then {} else {pay.buf}
  {
    match pay
    case Literal => []
    case Borrow(buf, off) => buf[off..off+len]
    case Own(buf) => buf[..len]
  }

  method CloneList(v: Node, a: Allocator, ghost t: Shape)
    returns (st: Status, out: Node?, ghost r: Option<Shape>)
    requires t.ListS? && t.node == v && Rep(v.alloc, t) && WellFormed(Den(t)) && a.Valid()
    modifies a
    ensures a.Valid() && st in {Ok, NoMem}
    ensures a.Asked(st == Ok) && (st == Ok <==> a.Granted()) && a.Asks(ClonePlan(Den(t)))
    ensures st != Ok ==> out == null && a.live == old(a.live)
    ensures st == Ok ==>
              && Detached(a, out, r, Den(t))
              && fresh(Owned(r.value)) && a.live == old(a.live) + Owned(r.value)
    decreases t, 0
  {
    hide KidsBorrowed, WellFormed, Separate, Owned, Borrowed, Rep, Ran, ClonePlan, ItemsPlan, GrowPlan, KidsOwned;
    FootprintAllocated(t);
    NotInTree(a, t);
    CopyUnfolds(DenKids(t.kids), []);
    ghost var vs, asked0, refused0 := DenKids(t.kids), a.asked, a.refused;
    ghost var done := [NODE_SIZE];
    var list: Node?;
    st, list := ListNew(a);
    assert vs[0..] == vs;
    if st != Ok {
      RanStop(a.answers, asked0, refused0, done, a.asked, a.refused, ItemsPlan(vs[0..], 0));
      return st, null, None;
    }
    EmptyShapes(list);
    ghost var s := ListS(list, null, []);
    ListOpen(v.alloc, t);
    var i := 0;
    while i < v.body.count
      invariant i <= |t.kids| && a.Valid() && Rep(v.alloc, t)
      invariant s.ListS? && s.node == list && list.alloc == a && Owns(a, s)
      invariant Borrowed(s) == {} && fresh(Owned(s)) && a.live == old(a.live) + Owned(s)
      invariant DenKids(s.kids) == vs[..i] && a.refused == refused0
      invariant Ran(a.answers, asked0, refused0, done, a.asked, a.refused)
      invariant ClonePlan(Den(t)) == done + ItemsPlan(vs[i..], i)
    {
      ghost var asked1, step := a.asked, ClonePlan(vs[i]) + GrowPlan(i, POINTER_SIZE);
      ghost var rest := ItemsPlan(vs[i+1..], i + 1);
      NextItem(vs, i, done);
      ListOpen(v.alloc, t);
      TopBlocks(s);
      KidOf(v.alloc, t, i);
      st, s := CloneItem(v.body.items[i], list, s, t.kids[i]);
      RanThen(a.answers, asked0, refused0, done, asked1, refused0, step, a.asked, a.refused);
      done := done + step;
      if st != Ok {
        RanStop(a.answers, asked0, refused0, done, a.asked, a.refused, rest);
        Free(list, s);
        return st, null, None;
      }
      i := i + 1;
    }
    ListOpen(v.alloc, t);
    assert Den(s) == Den(t);
    assert vs[i..] == [] && done + [] == done;
    return Ok, list, Some(s);
  }

  lemma NextItem(vs: seq<Value>, i: nat, done: seq<nat>)
    requires i < |vs|
    ensures done + ItemsPlan(vs[i..], i)
         == done + (ClonePlan(vs[i]) + GrowPlan(i, POINTER_SIZE)) + ItemsPlan(vs[i+1..], i + 1)
  {
    hide ClonePlan, GrowPlan;
    assert vs[i..][1..] == vs[i+1..];
    var a, b, c := ClonePlan(vs[i]), GrowPlan(i, POINTER_SIZE), ItemsPlan(vs[i+1..], i + 1);
    assert done + (a + b + c) == done + (a + b) + c;
  }

  lemma NextEntry(es: seq<Pair>, i: nat, done: seq<nat>)
    requires i < |es|
    ensures done + EntriesPlan(es[i..], i)
         == done + (ClonePlan(es[i].val) + SetPlan(es[i].key, i)) + EntriesPlan(es[i+1..], i + 1)
  {
    hide ClonePlan, SetPlan;
    assert es[i..][1..] == es[i+1..];
    var a, b, c := ClonePlan(es[i].val), SetPlan(es[i].key, i), EntriesPlan(es[i+1..], i + 1);
    assert done + (a + b + c) == done + (a + b) + c;
  }

  lemma ListOpen(a: Allocator, t: Shape)
    requires t.ListS? && Rep(a, t)
    ensures t.node.body.ListB? && t.node.body.count == |t.kids| && t.node.body.items == t.items
    ensures |t.kids| > 0 ==> t.items != null && |t.kids| <= t.items.Length
  {
  }

  lemma KidOf(a: Allocator, t: Shape, i: nat)
    requires t.ListS? && Rep(a, t) && i < |t.kids|
    ensures t.items != null && i < t.items.Length && t.items[i] == t.kids[i].node
    ensures Rep(a, t.kids[i]) && t.kids[i].node.alloc == a
    ensures Den(t) == VList(DenKids(t.kids)) && DenKids(t.kids)[i] == Den(t.kids[i])
    ensures WellFormed(Den(t)) ==> WellFormed(Den(t.kids[i]))
    ensures |t.kids| <= MAX_ITEMS
  {
    assert t.items[..|t.kids|][i] == t.kids[i].node;
  }

  /** One turn of the list loop: clone a child and append it; when either fails,
      the partial copy is as before and nothing else is left over. */
  method CloneItem(v: Node, list: Node, ghost s: Shape, ghost k: Shape)
    returns (st: Status, ghost s': Shape)
    requires s.ListS? && s.node == list && Owns(list.alloc, s) && Borrowed(s) == {}
    requires k.node == v && Rep(v.alloc, k) && WellFormed(Den(k))
    modifies list.alloc, list, Block(s.items)
    ensures list.alloc.Valid() && st in {Ok, NoMem}
    ensures list.alloc.Asked(st == Ok) && (st == Ok <==> list.alloc.Granted() && |s.kids| < MAX_ITEMS)
    ensures list.alloc.Asks(ClonePlan(Den(k)) + GrowPlan(|s.kids|, POINTER_SIZE))
    ensures s'.ListS? && s'.node == list && Owns(list.alloc, s') && Borrowed(s') == {}
    ensures fresh(Owned(s') - Owned(s))
    ensures list.alloc.live == old(list.alloc.live) - Owned(s) + Owned(s')
    ensures st != Ok ==> s' == s
    ensures st == Ok ==> DenKids(s'.kids) == DenKids(s.kids) + [Den(k)]
    decreases k, 2
  {
    hide WellFormed, Separate, Rep, Owned, Borrowed, ClonePlan, GrowPlan;
    var a := list.alloc;
    FootprintAllocated(s);
    NotInTree(a, s);
    var child;
    ghost var r;
    ghost var asked0, refused0 := a.asked, a.refused;
    ghost var plan := GrowPlan(|s.kids|, POINTER_SIZE);
    st, child, r := Clone(v, a, k);
    if st != Ok {
      RanStop(a.answers, asked0, refused0, ClonePlan(Den(k)), a.asked, a.refused, plan);
      return st, s;
    }
    ghost var c, asked1 := r.value, a.asked;
    FootprintAllocated(c);
    st, s' := ListAppend(list, child, s, c);
    RanThen(a.answers, asked0, refused0, ClonePlan(Den(k)), asked1, refused0, plan, a.asked, a.refused);
    if st != Ok {
      Free(child, c);
      return st, s;
    }
    SnocDenotes(s.kids, c);
    ListBorrows(s, s', c);
  }

  lemma ListBorrows(s: Shape, s': Shape, c: Shape)
    requires s.ListS? && s'.ListS? && s'.kids == s.kids + [c]
    ensures Borrowed(s') == Borrowed(s) + Borrowed(c)
  {
    KidsOwnedSnoc(s.kids, c);
  }

  method CloneDict(v: Node, a: Allocator, ghost t: Shape)
    returns (st: Status, out: Node?, ghost r: Option<Shape>)
    requires t.DictS? && t.node == v && Rep(v.alloc, t) && WellFormed(Den(t)) && a.Valid()
    modifies a
    ensures a.Valid() && st in {Ok, NoMem}
    ensures a.Asked(st == Ok) && (st == Ok <==> a.Granted()) && a.Asks(ClonePlan(Den(t)))
    ensures st != Ok ==> out == null && a.live == old(a.live)
    ensures st == Ok ==>
              && Detached(a, out, r, Den(t))
              && fresh(Owned(r.value)) && a.live == old(a.live) + Owned(r.value)
    decreases t, 0, 1
  {
    hide WellFormed, Separate, Owned, Borrowed, Rep, Sorted, Put, Slot, KidsOwned, BindsOwned, BindsBorrowed, Ran;
    hide ClonePlan, EntriesPlan, SetPlan;
    FootprintAllocated(t);
    NotInTree(a, t);
    CopyUnfolds([], DenBinds(t.binds));
    ghost var es, asked0, refused0 := DenBinds(t.binds), a.asked, a.refused;
    ghost var done := [NODE_SIZE];
    var dict: Node?;
    st, dict := DictNew(a);
    assert es[0..] == es;
    if st != Ok {
      RanStop(a.answers, asked0, refused0, done, a.asked, a.refused, EntriesPlan(es[0..], 0));
      return st, null, None;
    }
    EmptyShapes(dict);
    ghost var s := DictS(dict, null, []);
    DictOpen(v.alloc, t);
    var i := 0;
    while i < v.body.count
      invariant i <= |t.binds| && a.Valid() && Rep(v.alloc, t)
      invariant s.DictS? && s.node == dict && dict.alloc == a && Owns(a, s)
      invariant Borrowed(s) == {} && fresh(Owned(s)) && a.live == old(a.live) + Owned(s)
      invariant DenBinds(s.binds) == es[..i] && a.refused == refused0
      invariant Ran(a.answers, asked0, refused0, done, a.asked, a.refused)
      invariant ClonePlan(Den(t)) == done + EntriesPlan(es[i..], i)
    {
      ghost var asked1, step := a.asked, ClonePlan(es[i].val) + SetPlan(es[i].key, i);
      ghost var rest := EntriesPlan(es[i+1..], i + 1);
      NextEntry(es, i, done);
      DictOpen(v.alloc, t);
      TopBlocks(s);
      st, s := CloneNextEntry(v, i, dict, s, t);
      RanThen(a.answers, asked0, refused0, done, asked1, refused0, step, a.asked, a.refused);
      done := done + step;
      if st != Ok {
        RanStop(a.answers, asked0, refused0, done, a.asked, a.refused, rest);
        Free(dict, s);
        return st, null, None;
      }
      i := i + 1;
    }
    DictOpen(v.alloc, t);
    assert Den(s) == Den(t);
    assert es[i..] == [] && done + [] == done;
    return Ok, dict, Some(s);
  }

  /** The next entry of the source goes to the end of the copy. */
  method CloneNextEntry(v: Node, i: nat, dict: Node, ghost s: Shape, ghost t: Shape)
    returns (st: Status, ghost s': Shape)
    requires s.DictS? && s.node == dict && Owns(dict.alloc, s) && Borrowed(s) == {}
    requires t.DictS? && t.node == v && Rep(v.alloc, t) && WellFormed(Den(t)) && i < |t.binds|
    requires DenBinds(s.binds) == DenBinds(t.binds)[..i]
    modifies dict.alloc, dict, Block(s.entries)
    ensures dict.alloc.Valid() && st in {Ok, NoMem}
    ensures dict.alloc.Asked(st == Ok) && (st == Ok <==> dict.alloc.Granted())
    ensures var e := DenBinds(t.binds)[i]; dict.alloc.Asks(ClonePlan(e.val) + SetPlan(e.key, i))
    ensures s'.DictS? && s'.node == dict && Owns(dict.alloc, s') && Borrowed(s') == {}
    ensures fresh(Owned(s') - Owned(s))
    ensures dict.alloc.live == old(dict.alloc.live) - Owned(s) + Owned(s')
    ensures st != Ok ==> s' == s
    ensures st == Ok ==> DenBinds(s'.binds) == DenBinds(t.binds)[..i+1]
    decreases t, 0, 0
  {
    hide WellFormed, Separate, Owned, Borrowed, Rep, Sorted, Put, Slot, Ran, ClonePlan, SetPlan;
    ghost var es := DenBinds(t.binds);
    DictOpen(v.alloc, t);
    BindOf(v.alloc, t, i);
    NotThere(s, es, i);
    SortedTake(es, i);
    PutAtEnd(es[..i], es[i]);
    st, s' := CloneEntry(v.body.entries[i], v.alloc, dict, s, t.binds[i]);
  }

  /** The next key of a sorted source is not in the copy yet. */
  lemma NotThere(s: Shape, es: seq<Pair>, i: nat)
    requires s.DictS? && Sorted(es) && i < |es| && DenBinds(s.binds) == es[..i]
    ensures !HasKey(s, es[i].key)
  {
    hide Less, Slot, Put, Sorted;
    SortedTake(es, i);
    PutAtEnd(es[..i], es[i]);
  }

  lemma DictOpen(a: Allocator, t: Shape)
    requires t.DictS? && Rep(a, t)
    ensures t.node.body.DictB? && t.node.body.count == |t.binds| && t.node.body.entries == t.entries
    ensures |t.binds| > 0 ==> t.entries != null && |t.binds| <= t.entries.Length
  {
  }

  lemma BindOf(a: Allocator, t: Shape, i: nat)
    requires t.DictS? && Rep(a, t) && i < |t.binds| && WellFormed(Den(t))
    ensures t.entries != null && i < t.entries.Length && t.entries[i] == Cell(t.binds[i])
    ensures RepBind(a, t.binds[i])
    ensures Den(t) == VDict(DenBinds(t.binds)) && DenBinds(t.binds)[i] == DenBind(t.binds[i])
    ensures Sorted(DenBinds(t.binds))
    ensures WellFormed(Den(t.binds[i].val)) && |t.binds[i].key| <= SIZE_MAX
    ensures |t.binds| <= MAX_ENTRIES
  {
    EntryAt(a, t, i);
  }

  lemma RepBindParts(a: Allocator, b: Bind)
    requires RepBind(a, b)
    ensures HoldsKey(b.buf, b.key) && Rep(a, b.val) && b.val.node.alloc == a
  {
  }

  /** The key bytes of an entry. */
  function KeyBytes(e: Entry): Bytes
    requires e.key != null ==> e.keyLen <= e.key.Length
    reads Block(e.key)
  {
    if e.key == null then [] else e.key[..e.keyLen]
  }

  /** One turn of the dictionary loop: clone the value and set it under the same
      key. */
  method CloneEntry(e: Entry, ghost source: Allocator, dict: Node, ghost s: Shape, ghost b: Bind)
    returns (st: Status, ghost s': Shape)
    requires s.DictS? && s.node == dict && Owns(dict.alloc, s) && Borrowed(s) == {}
    requires e == Cell(b) && RepBind(source, b) && WellFormed(Den(b.val)) && |b.key| <= SIZE_MAX
    requires Sorted(DenBinds(s.binds))
    modifies dict.alloc, dict, Block(s.entries)
    ensures dict.alloc.Valid() && st in {Ok, NoMem}
    ensures dict.alloc.Asked(st == Ok) && (dict.alloc.Granted() && |s.binds| < MAX_ENTRIES ==> st == Ok)
    ensures !HasKey(s, b.key) ==> dict.alloc.Asks(ClonePlan(Den(b.val)) + SetPlan(b.key, |s.binds|))
    ensures s'.DictS? && s'.node == dict && Owns(dict.alloc, s') && Borrowed(s') == {}
    ensures fresh(Owned(s') - Owned(s))
    ensures dict.alloc.live == old(dict.alloc.live) - Owned(s) + Owned(s')
    ensures st != Ok ==> s' == s
    ensures st == Ok ==> DenBinds(s'.binds) == Put(DenBinds(s.binds), b.key, Den(b.val))
    decreases b, 2
  {
    hide Allocator.NeverRefuses, Den, WellFormed, Separate, Rep, Owned, Borrowed, Sorted, RepBind, ClonePlan;
    var a := dict.alloc;
    FootprintAllocated(s);
    NotInTree(a, s);
    RepBindParts(source, b);
    var key := KeyBytes(e);
    assert key == b.key;
    var child;
    ghost var r;
    ghost var asked0, refused0 := a.asked, a.refused;
    ghost var plan := SetPlan(b.key, |s.binds|);
    st, child, r := Clone(e.value, a, b.val);
    if st != Ok {
      RanStop(a.answers, asked0, refused0, ClonePlan(Den(b.val)), a.asked, a.refused, plan);
      return st, s;
    }
    ghost var c, asked1 := r.value, a.asked;
    FootprintAllocated(c);
    ghost var s1;
    st, s1 := DictSet(dict, key, child, s, c);
    if !HasKey(s, key) {
      RanThen(a.answers, asked0, refused0, ClonePlan(Den(b.val)), asked1, refused0, plan, a.asked, a.refused);
    }
    if st != Ok {
      Free(child, c);
      return st, s;
    }
    s' := s1;
  }
}
