/** The sorted dictionary: binary search, ordered insert, replacement, lookup. */
module DictStore {
  import opened Bytes
  import opened Values
  import opened Dicts
  import opened Memory
  import opened Tree
  import opened Builders

  // ---- Search ----

  /** The comparison written out inside the search loop. */
  method CompareKey(e: Entry, key: Bytes, ghost b: Bind) returns (c: int)
    requires e == Cell(b) && HoldsKey(b.buf, b.key)
    ensures c < 0 <==> Less(b.key, key)
    ensures c == 0 <==> b.key == key
    ensures c > 0 <==> Less(key, b.key)
  {
    var n := if e.keyLen < |key| then e.keyLen else |key|;
    c := if n == 0 then 0 else MemCmp(e.key[..n], key[..n]);
    if c == 0 {
      if e.keyLen < |key| {
        c := -1;
      } else if e.keyLen > |key| {
        c := 1;
      }
    }
    if n > 0 {
      assert e.key[..n] == b.key[..n];
    }
    assert c == BytesCmp(b.key, key);
    BytesCmpDecides(b.key, key);
  }

  lemma NarrowLeft(es: seq<Pair>, key: Bytes, lo: nat, mid: nat)
    requires Sorted(es) && lo <= mid < |es| && Less(es[mid].key, key)
    ensures forall k :: 0 <= k < mid + 1 ==> Less(es[k].key, key)
  {
    hide Less;
    forall k | 0 <= k < mid ensures Less(es[k].key, key) {
      LessTransitive(es[k].key, es[mid].key, key);
    }
  }

  lemma NarrowRight(es: seq<Pair>, key: Bytes, mid: nat)
    requires Sorted(es) && mid < |es| && Less(key, es[mid].key)
    ensures forall k :: mid <= k < |es| ==> Less(key, es[k].key)
  {
    hide Less;
    forall k | mid < k < |es| ensures Less(key, es[k].key) {
      LessTransitive(key, es[mid].key, es[k].key);
    }
  }

  /** When everything before `i` is smaller and everything after is not, `i` is
      the slot. */
  lemma SearchDone(es: seq<Pair>, key: Bytes, i: nat, found: bool)
    requires Sorted(es) && i <= |es|
    requires forall k :: 0 <= k < i ==> Less(es[k].key, key)
    requires if found then i < |es| && es[i].key == key
             else forall k :: i <= k < |es| ==> Less(key, es[k].key)
    ensures i == Slot(es, key) && found == HasAt(es, i, key)
  {
    hide Less, Slot;
    LessIrreflexive(key);
    if i < |es| && !found {
      LessAsymmetric(key, es[i].key);
    }
    SlotUnique(es, key, i);
  }

  /** `dict_search`: the unique match, or the place to insert. */
  method DictSearch(dict: Node, key: Bytes, ghost t: Shape) returns (index: nat, found: bool)
    requires t.DictS? && t.node == dict && Rep(dict.alloc, t) && Sorted(DenBinds(t.binds))
    ensures index == Slot(DenBinds(t.binds), key)
    ensures found == HasAt(DenBinds(t.binds), index, key)
  {
    hide Less, Slot, Owned, Borrowed;
    FootprintAllocated(t);
    ghost var es := DenBinds(t.binds);
    var entries := dict.body.entries;
    var lo, hi := 0, dict.body.count;
    while lo < hi
      invariant lo <= hi <= |es|
      invariant forall k :: 0 <= k < lo ==> Less(es[k].key, key)
      invariant forall k :: hi <= k < |es| ==> Less(key, es[k].key)
    {
      var mid := lo + (hi - lo) / 2;
      EntryAt(dict.alloc, t, mid);
      var c := CompareKey(entries[mid], key, t.binds[mid]);
      if c == 0 {
        LessIrreflexive(key);
        NarrowLeftOf(es, key, mid);
        SearchDone(es, key, mid, true);
        return mid, true;
      }
      if c < 0 {
        NarrowLeft(es, key, lo, mid);
        lo := mid + 1;
      } else {
        NarrowRight(es, key, mid);
        hi := mid;
      }
    }
    SearchDone(es, key, lo, false);
    return lo, false;
  }

  lemma NarrowLeftOf(es: seq<Pair>, key: Bytes, mid: nat)
    requires Sorted(es) && mid < |es| && es[mid].key == key
    ensures forall k :: 0 <= k < mid ==> Less(es[k].key, key)
  {
  }

  lemma EntryAt(a: Allocator, t: Shape, i: nat)
    requires t.DictS? && i < |t.binds| && Rep(a, t)
    ensures t.node.body.DictB? && t.node.body.entries == t.entries && t.entries != null
    ensures i < t.entries.Length && t.entries[i] == Cell(t.binds[i])
    ensures HoldsKey(t.binds[i].buf, t.binds[i].key) && Rep(a, t.binds[i].val)
    ensures DenBinds(t.binds)[i] == DenBind(t.binds[i])
  {
    assert t.entries[..|t.binds|][i] == Cell(t.binds[i]);
    assert RepBind(a, t.binds[i]);
  }

  /** `bencode_dict_get`: the value that the map holds for the key, if any. */
  method DictGet(dict: Node, key: Bytes, ghost t: Shape) returns (value: Node?, ghost index: nat)
    requires t.DictS? && t.node == dict && Rep(dict.alloc, t) && Sorted(DenBinds(t.binds))
    ensures value == null <==> key !in ToMap(DenBinds(t.binds))
    ensures value != null ==>
              && index < |t.binds| && value == t.binds[index].val.node
              && Rep(dict.alloc, t.binds[index].val)
              && Den(t.binds[index].val) == ToMap(DenBinds(t.binds))[key]
  {
    hide Less, Slot, ToMap, Sorted, Owned, Borrowed;
    FootprintAllocated(t);
    var i, found := DictSearch(dict, key, t);
    index := i;
    GetRefinesMap(DenBinds(t.binds), key);
    if !found {
      return null, index;
    }
    EntryAt(dict.alloc, t, i);
    return dict.body.entries[i].value, index;
  }

  // ---- Insertion ----

  /** `memmove` of the entries at and above `index`, one slot up. */
  method ShiftUp(entries: array<Entry>, index: nat, count: nat)
    requires index <= count < entries.Length
    modifies entries
    ensures entries[..index] == old(entries[..index])
    ensures entries[index+1..count+1] == old(entries[index..count])
  {
    forall k | index < k <= count {
      entries[k] := entries[k-1];
    }
  }

  /** Grow, shift and store: the array part of an insertion. */
  method InsertCell(dict: Node, index: nat, cell: Entry, ghost entries: array?<Entry>, ghost cells: seq<Entry>)
    returns (st: Status, ghost entries': array?<Entry>)
    requires HoldsDict(dict, entries, cells) && index <= |cells|
    requires dict.alloc.Valid() && dict in dict.alloc.live && Block(entries) <= dict.alloc.live
    modifies dict, Block(entries), dict.alloc
    ensures dict.alloc.Valid() && st in {Ok, NoMem}
    ensures st != Ok ==>
              && entries' == entries && unchanged(dict) && unchanged(Block(entries))
              && dict.alloc.live == old(dict.alloc.live)
    ensures st == Ok ==>
              && HoldsDict(dict, entries', cells[..index] + [cell] + cells[index..])
              && (entries' == entries || fresh(Block(entries')))
              && Block(entries') !! old(dict.alloc.live) - Block(entries)
              && dict.alloc.live == old(dict.alloc.live) - Block(entries) + Block(entries')
    ensures dict.alloc.Asked(st == Ok) && (st == Ok <==> dict.alloc.Granted() && |cells| < MAX_ENTRIES)
    ensures dict.alloc.Asks(GrowPlan(|cells|, 24))
  {
    var a := dict.alloc;
    var buf, count, capacity := dict.body.entries, dict.body.count, dict.body.capacity;
    LargestDoublings();
    RoomExactly(capacity, count, MAX_ENTRIES, ENTRY_SIZE);
    var grown, newCapacity;
    st, grown, newCapacity := GrowArray<Entry>(a, buf, ENTRY_SIZE, capacity, count + 1);
    if st != Ok {
      return st, entries;
    }
    entries' := grown;
    assert grown[..count] == cells;
    StoreCell(grown, index, count, cell);
    dict.body := DictB(grown, count + 1, newCapacity);
  }

  method StoreCell(entries: array<Entry>, index: nat, count: nat, cell: Entry)
    requires index <= count < entries.Length
    modifies entries
    ensures entries[..count+1]
         == old(entries[..count])[..index] + [cell] + old(entries[..count])[index..]
  {
    ghost var cells := entries[..count];
    ShiftUp(entries, index, count);
    entries[index] := cell;
    assert entries[..index] == cells[..index];
    assert entries[index+1..count+1] == cells[index..];
    assert entries[..count+1] == entries[..index] + [entries[index]] + entries[index+1..count+1];
  }

  function Insert<T>(s: seq<T>, i: nat, x: T): (r: seq<T>)
    requires i <= |s|
    ensures |r| == |s| + 1 && r[i] == x
    ensures forall k :: 0 <= k < i ==> r[k] == s[k]
    ensures forall k :: i < k < |r| ==> r[k] == s[k-1]
  {
    s[..i] + [x] + s[i..]
  }

  lemma BindsOwnedInsert(binds: seq<Bind>, i: nat, b: Bind)
    requires i <= |binds|
    ensures BindsOwned(Insert(binds, i, b)) == BindsOwned(binds) + BindOwned(b)
    ensures BindsBorrowed(Insert(binds, i, b)) == BindsBorrowed(binds) + Borrowed(b.val)
  {
    hide BindOwned, Borrowed;
    var all := Insert(binds, i, b);
    forall k | 0 <= k < |binds| ensures exists j :: 0 <= j < |all| && all[j] == binds[k] {
      assert all[if k < i then k else k + 1] == binds[k];
    }
    assert all[i] == b;
  }

  lemma BindsInside(binds: seq<Bind>)
    ensures forall i :: 0 <= i < |binds| ==> BindOwned(binds[i]) <= BindsOwned(binds)
    ensures forall i :: 0 <= i < |binds| ==> Borrowed(binds[i].val) <= BindsBorrowed(binds)
  {
    hide BindOwned, Borrowed;
  }

  /** A dictionary with one more entry is again a tree. */
  lemma InsertSeparate(t: Shape, i: nat, b: Bind, entries: array?<Entry>)
    requires t.DictS? && Separate(t) && SeparateBind(b) && i <= |t.binds|
    requires {t.node} + BindsOwned(t.binds) !! BindOwned(b)
    requires Block(entries) !! BindsOwned(t.binds) + BindOwned(b)
    ensures Separate(DictS(t.node, entries, Insert(t.binds, i, b)))
    ensures Owned(DictS(t.node, entries, Insert(t.binds, i, b)))
         == {t.node} + Block(entries) + BindsOwned(t.binds) + BindOwned(b)
  {
    hide SeparateBind, BindOwned, Insert;
    BindsOwnedInsert(t.binds, i, b);
    InsertApart(t.binds, i, b);
  }

  lemma InsertApart(binds: seq<Bind>, i: nat, b: Bind)
    requires i <= |binds| && BindsOwned(binds) !! BindOwned(b) && SeparateBind(b)
    requires forall i, j :: 0 <= i < j < |binds| ==> BindOwned(binds[i]) !! BindOwned(binds[j])
    requires forall i :: 0 <= i < |binds| ==> SeparateBind(binds[i])
    ensures var r := Insert(binds, i, b);
            && (forall i, j :: 0 <= i < j < |r| ==> BindOwned(r[i]) !! BindOwned(r[j]))
            && (forall i :: 0 <= i < |r| ==> SeparateBind(r[i]))
  {
    BindsInside(binds);
    hide SeparateBind, BindOwned, BindsOwned, Insert;
    var r := Insert(binds, i, b);
    forall j, k | 0 <= j < k < |r| ensures BindOwned(r[j]) !! BindOwned(r[k]) {
      var j' := if j < i then j else j - 1;
      var k' := if k < i then k else k - 1;
      if j != i && k != i {
        assert BindOwned(binds[j']) !! BindOwned(binds[k']);
      }
    }
  }

  lemma DictParts(a: Allocator, t: Shape)
    requires t.DictS? && Owns(a, t)
    ensures {t.node} + Block(t.entries) !! BindsOwned(t.binds)
    ensures Owned(t) == {t.node} + Block(t.entries) + BindsOwned(t.binds)
    ensures Borrowed(t) == BindsBorrowed(t.binds)
    ensures HoldsDict(t.node, t.entries, Cells(t.binds)) && RepBinds(a, t.binds)
  {
  }

  lemma InsertDenotes(binds: seq<Bind>, i: nat, b: Bind)
    requires i <= |binds|
    ensures DenBinds(Insert(binds, i, b)) == Insert(DenBinds(binds), i, DenBind(b))
    ensures Cells(Insert(binds, i, b)) == Insert(Cells(binds), i, Cell(b))
  {
    hide DenBind, Cell;
  }

  /** Insertion of a new key whose block `kb` is already filled. */
  method InsertBind(dict: Node, index: nat, key: Bytes, kb: array?<byte>, child: Node,
                    ghost t: Shape, ghost c: Shape)
    returns (st: Status, ghost r: Shape)
    requires t.DictS? && t.node == dict && c.node == child && index <= |t.binds|
    requires Owns(dict.alloc, t) && Owns(dict.alloc, c) && Owned(t) !! Owned(c)
    requires HoldsKey(kb, key) && Block(kb) <= dict.alloc.live && Block(kb) !! Owned(t) + Owned(c)
    modifies dict, Block(t.entries), dict.alloc
    ensures dict.alloc.Valid() && st in {Ok, NoMem}
    ensures st != Ok ==>
              && r == t && Owns(dict.alloc, t) && Owns(dict.alloc, c)
              && dict.alloc.live == old(dict.alloc.live)
    ensures st == Ok ==>
              && r.DictS? && r.node == dict && r.binds == Insert(t.binds, index, Bind(key, kb, c))
              && Owns(dict.alloc, r) && Block(kb) + Owned(c) <= Owned(r)
              && dict.alloc.live == old(dict.alloc.live) - Owned(t) + Owned(r)
              && fresh(Owned(r) - Owned(t) - Owned(c) - Block(kb))
              && fresh(Block(r.entries) - Block(t.entries))
    ensures dict.alloc.Asked(st == Ok) && (st == Ok <==> dict.alloc.Granted() && |t.binds| < MAX_ENTRIES)
    ensures dict.alloc.Asks(GrowPlan(|t.binds|, 24))
  {
    hide GrowPlan, BindsOwned;
    hide GrowTo, CapFor, Separate, Rep, Owned, Borrowed;
    var a := dict.alloc;
    FootprintAllocated(t);
    FootprintAllocated(c);
    ghost var b := Bind(key, kb, c);
    DictParts(a, t);
    ghost var entries;
    st, entries := InsertCell(dict, index, Entry(kb, |key|, child), t.entries, Cells(t.binds));
    assert RepBinds(a, t.binds) && Rep(a, c) && HoldsKey(kb, key);
    if st != Ok {
      DictWhole(a, t);
      return st, t;
    }
    r := DictS(dict, entries, Insert(t.binds, index, b));
    InsertSeparate(t, index, b, entries);
    InsertDenotes(t.binds, index, b);
    InsertRep(a, t.binds, index, b);
    DictWhole(a, r);
  }

  lemma InsertRep(a: Allocator, binds: seq<Bind>, i: nat, b: Bind)
    requires i <= |binds| && RepBinds(a, binds) && RepBind(a, b)
    ensures RepBinds(a, Insert(binds, i, b))
  {
    hide RepBind;
  }

  lemma DictWhole(a: Allocator, t: Shape)
    requires t.DictS? && t.node.alloc == a
    requires HoldsDict(t.node, t.entries, Cells(t.binds)) && RepBinds(a, t.binds)
    ensures Rep(a, t)
  {
  }

  // ---- Replacement ----

  lemma BindsOwnedReplace(binds: seq<Bind>, i: nat, b: Bind)
    requires i < |binds|
    requires forall i, j :: 0 <= i < j < |binds| ==> BindOwned(binds[i]) !! BindOwned(binds[j])
    requires BindsOwned(binds) !! BindOwned(b) - BindOwned(binds[i])
    ensures BindsOwned(binds[i := b]) == BindsOwned(binds) - BindOwned(binds[i]) + BindOwned(b)
  {
    hide BindOwned;
    var r := binds[i := b];
    assert r[i] == b;
    assert forall k :: 0 <= k < |binds| && k != i ==> r[k] == binds[k];
    forall o | o in BindsOwned(r) ensures o in BindsOwned(binds) - BindOwned(binds[i]) + BindOwned(b) {
      var k :| 0 <= k < |r| && o in BindOwned(r[k]);
      if k < i {
        assert BindOwned(binds[k]) !! BindOwned(binds[i]);
      } else if k > i {
        assert BindOwned(binds[i]) !! BindOwned(binds[k]);
      }
    }
  }

  /** The entry with a new value in it: the key block stays put. */
  function Refill(b: Bind, c: Shape): Bind {
    Bind(b.key, b.buf, c)
  }

  lemma ReplaceApart(binds: seq<Bind>, i: nat, c: Shape)
    requires i < |binds| && BindsOwned(binds) !! Owned(c) && Separate(c)
    requires forall i, j :: 0 <= i < j < |binds| ==> BindOwned(binds[i]) !! BindOwned(binds[j])
    requires forall i :: 0 <= i < |binds| ==> SeparateBind(binds[i])
    ensures var r := binds[i := Refill(binds[i], c)];
            && (forall i, j :: 0 <= i < j < |r| ==> BindOwned(r[i]) !! BindOwned(r[j]))
            && (forall i :: 0 <= i < |r| ==> SeparateBind(r[i]))
  {
    BindsInside(binds);
    var b := Refill(binds[i], c);
    var r := binds[i := b];
    assert BindOwned(b) <= BindOwned(binds[i]) + Owned(c) && SeparateBind(b);
    hide SeparateBind, BindOwned, BindsOwned, Owned;
    forall j, k | 0 <= j < k < |r| ensures BindOwned(r[j]) !! BindOwned(r[k]) {
      assert BindOwned(binds[j]) !! BindOwned(binds[k]);
    }
  }

  lemma ReplaceSeparate(t: Shape, i: nat, c: Shape)
    requires t.DictS? && Separate(t) && Separate(c) && Owned(t) !! Owned(c) && i < |t.binds|
    ensures var r := DictS(t.node, t.entries, t.binds[i := Refill(t.binds[i], c)]);
            Separate(r) && Owned(r) == Owned(t) - Owned(t.binds[i].val) + Owned(c)
  {
    hide Separate, SeparateBind, BindOwned, BindsOwned, Owned, Refill;
    var b := t.binds[i];
    var r := t.binds[i := Refill(b, c)];
    DictUnfolds(t.node, t.entries, t.binds);
    DictUnfolds(t.node, t.entries, r);
    BindsInside(t.binds);
    RefillOwned(b, c);
    BindsOwnedReplace(t.binds, i, Refill(b, c));
    ReplaceApart(t.binds, i, c);
  }

  lemma RefillOwned(b: Bind, c: Shape)
    requires SeparateBind(b)
    ensures BindOwned(b) == Block(b.buf) + Owned(b.val) && Block(b.buf) !! Owned(b.val)
    ensures BindOwned(Refill(b, c)) == Block(b.buf) + Owned(c)
  {
    hide Separate, Owned;
  }

  /** The replacing branch: the old value is freed, the new one takes its slot. */
  method ReplaceBind(dict: Node, index: nat, child: Node, ghost t: Shape, ghost c: Shape)
    returns (ghost r: Shape)
    requires t.DictS? && t.node == dict && c.node == child && index < |t.binds|
    requires Owns(dict.alloc, t) && Owns(dict.alloc, c) && Owned(t) !! Owned(c)
    modifies Block(t.entries), dict.alloc
    ensures dict.alloc.Valid() && dict.alloc.Quiet()
    ensures r == DictS(dict, t.entries, t.binds[index := Refill(t.binds[index], c)])
    ensures Owns(dict.alloc, r)
    ensures dict.alloc.live == old(dict.alloc.live) - Owned(t) + Owned(r)
    ensures Owned(c) <= Owned(r) <= Owned(t) + Owned(c)
  {
    hide Separate, Rep, Owned, Borrowed, RepBind, RepBinds, HoldsKey, BindOwned, BindsOwned, BindsBorrowed;
    var a := dict.alloc;
    FootprintAllocated(t);
    FootprintAllocated(c);
    DictParts(a, t);
    ReplaceSeparate(t, index, c);
    BindReady(a, t, index);
    BindParts(a, t.binds[index]);
    ghost var b := t.binds[index];
    FootprintAllocated(b.val);
    Free(dict.body.entries[index].value, b.val);
    StoreValue(dict, index, child, t.entries, Cells(t.binds));
    r := DictS(dict, t.entries, t.binds[index := Refill(b, c)]);
    assert RepBinds(a, t.binds) && Rep(a, c);
    ReplaceRep(a, t.binds, index, c);
    ReplaceCells(t.binds, index, c);
    DictWhole(a, r);
  }

  method StoreValue(dict: Node, index: nat, child: Node, ghost entries: array?<Entry>, ghost cells: seq<Entry>)
    requires HoldsDict(dict, entries, cells) && index < |cells|
    modifies Block(entries)
    ensures HoldsDict(dict, entries, cells[index := cells[index].(value := child)])
  {
    var buf := dict.body.entries;
    assert buf[..|cells|][index] == cells[index];
    buf[index] := buf[index].(value := child);
    assert buf[..|cells|] == cells[index := cells[index].(value := child)];
  }

  lemma ReplaceCells(binds: seq<Bind>, i: nat, c: Shape)
    requires i < |binds|
    ensures Cells(binds[i := Refill(binds[i], c)])
         == Cells(binds)[i := Cells(binds)[i].(value := c.node)]
  {
  }

  lemma BindParts(a: Allocator, b: Bind)
    requires RepBind(a, b) && SeparateBind(b)
    ensures HoldsKey(b.buf, b.key) && Rep(a, b.val) && Separate(b.val)
    ensures BindOwned(b) == Block(b.buf) + Owned(b.val)
  {
  }

  lemma ReplaceRep(a: Allocator, binds: seq<Bind>, i: nat, c: Shape)
    requires i < |binds| && RepBinds(a, binds) && Rep(a, c)
    ensures RepBinds(a, binds[i := Refill(binds[i], c)])
  {
    hide Rep;
    assert RepBind(a, binds[i]);
  }

  lemma ReplaceDenotes(binds: seq<Bind>, i: nat, c: Shape)
    requires i < |binds|
    ensures DenBinds(binds[i := Refill(binds[i], c)])
         == DenBinds(binds)[i := Pair(binds[i].key, Den(c))]
  {
    hide Den;
  }

  // ---- The whole operation ----

  /** The dictionary has the key. */
  ghost predicate HasKey(t: Shape, key: Bytes)
    requires t.DictS?
  {
    HasAt(DenBinds(t.binds), Slot(DenBinds(t.binds), key), key)
  }

  /** `bencode_dict_set`: the dictionary becomes the old one with `key` bound to
      the child; blocks that fall out of it are released. On failure nothing
      changes and the child still belongs to the caller. */
  method DictSet(dict: Node, key: Bytes, child: Node, ghost t: Shape, ghost c: Shape)
    returns (st: Status, ghost r: Shape)
    requires t.DictS? && t.node == dict && c.node == child && |key| <= SIZE_MAX
    requires Owns(dict.alloc, t) && Owns(dict.alloc, c) && Owned(t) !! Owned(c)
    requires Sorted(DenBinds(t.binds))
    modifies dict, Block(t.entries), dict.alloc
    ensures dict.alloc.Valid() && st in {Ok, NoMem}
    ensures st != Ok ==>
              && r == t && Owns(dict.alloc, t) && Owns(dict.alloc, c)
              && dict.alloc.live == old(dict.alloc.live)
    ensures st == Ok ==>
              && r.DictS? && r.node == dict && Owns(dict.alloc, r) && Owned(c) <= Owned(r)
              && DenBinds(r.binds) == Put(DenBinds(t.binds), key, Den(c))
              && dict.alloc.live == old(dict.alloc.live) - Owned(t) + Owned(r)
              && fresh(Owned(r) - Owned(t) - Owned(c))
              && fresh(Block(r.entries) - Block(t.entries))
              && Borrowed(r) <= Borrowed(t) + Borrowed(c)
    ensures st == Ok && Slot(DenBinds(t.binds), key) == |t.binds| ==>
              |r.binds| == |t.binds| + 1 && r.binds == t.binds + [Bind(key, r.binds[|t.binds|].buf, c)]
    ensures dict.alloc.Asked(st == Ok)
    ensures st == Ok <==> dict.alloc.Granted() && (HasKey(t, key) || |t.binds| < MAX_ENTRIES)
    ensures dict.alloc.Asks(if HasKey(t, key) then [] else KeyPlan(key) + GrowPlan(|t.binds|, 24))
    ensures st == Ok <==>
              || HasKey(t, key)
              || (&& |t.binds| < 0x800_0000_0000_0000
                  && AllGranted(dict.alloc.answers, old(dict.alloc.calls), KeyPlan(key) + GrowPlan(|t.binds|, 24)))
  {
    hide Separate, Rep, Owned, Borrowed, Slot, Sorted;
    var a := dict.alloc;
    FootprintAllocated(t);
    FootprintAllocated(c);
    var index, found := DictSearch(dict, key, t);
    if found {
      ReplaceDenotes(t.binds, index, c);
      ReplaceBorrows(t, index, c);
      r := ReplaceBind(dict, index, child, t, c);
      return Ok, r;
    }
    st, r := InsertKey(dict, index, key, child, t, c);
    a.Counted(KeyPlan(key) + GrowPlan(|t.binds|, ENTRY_SIZE));
    if st != Ok {
      return st, t;
    }
    ghost var b := r.binds[index];
    InsertDenotes(t.binds, index, b);
    InsertAtEnd(t.binds, b);
    InsertBorrows(t, r, index, b);
  }

  /** The inserting branch: the key is copied first, and the copy is freed again
      when the entry array cannot grow. */
  method InsertKey(dict: Node, index: nat, key: Bytes, child: Node, ghost t: Shape, ghost c: Shape)
    returns (st: Status, ghost r: Shape)
    requires t.DictS? && t.node == dict && c.node == child && |key| <= SIZE_MAX && index <= |t.binds|
    requires Owns(dict.alloc, t) && Owns(dict.alloc, c) && Owned(t) !! Owned(c)
    modifies dict, Block(t.entries), dict.alloc
    ensures dict.alloc.Valid() && st in {Ok, NoMem}
    ensures st != Ok ==>
              && Owns(dict.alloc, t) && Owns(dict.alloc, c)
              && dict.alloc.live == old(dict.alloc.live)
    ensures st == Ok ==>
              && r.DictS? && r.node == dict && Owns(dict.alloc, r) && Owned(c) <= Owned(r)
              && |r.binds| == |t.binds| + 1 && r.binds[index].key == key && r.binds[index].val == c
              && r.binds == Insert(t.binds, index, r.binds[index])
              && dict.alloc.live == old(dict.alloc.live) - Owned(t) + Owned(r)
              && fresh(Owned(r) - Owned(t) - Owned(c))
              && fresh(Block(r.entries) - Block(t.entries))
    ensures dict.alloc.Asked(st == Ok) && (st == Ok <==> dict.alloc.Granted() && |t.binds| < MAX_ENTRIES)
    ensures dict.alloc.Asks(KeyPlan(key) + GrowPlan(|t.binds|, 24))
  {
    hide Separate, Rep, Owned, Borrowed;
    FootprintAllocated(t);
    FootprintAllocated(c);
    var a := dict.alloc;
    ghost var plan, asked0, refused0 := GrowPlan(|t.binds|, ENTRY_SIZE), a.asked, a.refused;
    RanNone(a.answers, asked0, refused0);
    var kb := null;
    if |key| > 0 {
      kb := NewKeyBlock(a, key);
      if kb == null {
        RanStop(a.answers, asked0, refused0, KeyPlan(key), a.asked, a.refused, plan);
        return NoMem, t;
      }
    }
    ghost var asked1 := a.asked;
    st, r := InsertBind(dict, index, key, kb, child, t, c);
    RanThen(a.answers, asked0, refused0, KeyPlan(key), asked1, refused0, plan, a.asked, a.refused);
    if st != Ok {
      FreeArray(dict.alloc, kb);
    }
  }

  lemma ReplaceBorrows(t: Shape, i: nat, c: Shape)
    requires t.DictS? && i < |t.binds|
    ensures Borrowed(DictS(t.node, t.entries, t.binds[i := Refill(t.binds[i], c)]))
         <= Borrowed(t) + Borrowed(c)
  {
    var r := t.binds[i := Refill(t.binds[i], c)];
    forall o | o in BindsBorrowed(r) ensures o in BindsBorrowed(t.binds) + Borrowed(c) {
      var k :| 0 <= k < |r| && o in Borrowed(r[k].val);
    }
  }

  lemma InsertBorrows(t: Shape, r: Shape, i: nat, b: Bind)
    requires t.DictS? && r.DictS? && i <= |t.binds| && r.binds == Insert(t.binds, i, b)
    ensures Borrowed(r) == Borrowed(t) + Borrowed(b.val)
  {
    hide Insert;
    BindsOwnedInsert(t.binds, i, b);
  }

  lemma InsertAtEnd<T>(s: seq<T>, x: T)
    ensures Insert(s, |s|, x) == s + [x]
  {
  }
}
