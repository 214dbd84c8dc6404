/** Whole runs of `bencode_dict_set` on the heap, and what can be seen of them:
    the bytes emitted and the values looked up. */
module Bindings {
  import opened Bytes
  import opened Values
  import opened Dicts
  import opened Memory
  import opened Capacity
  import opened Tree
  import opened Builders
  import opened DictStore
  import opened Cloning
  import opened Splitting
  import opened Chunks
  import opened Codec

  /** The bindings that a run of sets makes. */
  function Sets(keys: seq<Bytes>, cs: seq<Shape>): (sets: seq<Pair>)
    requires |keys| == |cs|
    ensures |sets| == |keys|
    ensures forall i :: 0 <= i < |keys| ==> sets[i] == Pair(keys[i], Den(cs[i]))
  {
    if keys == [] then [] else [Pair(keys[0], Den(cs[0]))] + Sets(keys[1..], cs[1..])
  }

  /** Children for the keys, all complete and apart from each other. */
  ghost predicate Supplies(a: Allocator, keys: seq<Bytes>, children: seq<Node>, cs: seq<Shape>)
    reads a, KidsOwned(cs), KidsBorrowed(cs)
  {
    && a.Valid() && |keys| == |children| == |cs| && Forest(a, children, cs) && KidsOwned(cs) <= a.live
    && forall i :: 0 <= i < |keys| ==> |keys[i]| <= SIZE_MAX
  }

  lemma FirstChild(a: Allocator, keys: seq<Bytes>, children: seq<Node>, cs: seq<Shape>)
    requires keys != [] && Supplies(a, keys, children, cs)
    ensures cs[0].node == children[0] && Owns(a, cs[0]) && Owned(cs[0]) !! KidsOwned(cs[1..])
    ensures Supplies(a, keys[1..], children[1..], cs[1..])
    ensures KidsOwned(cs) == Owned(cs[0]) + KidsOwned(cs[1..])
    ensures KidsBorrowed(cs) == Borrowed(cs[0]) + KidsBorrowed(cs[1..])
  {
    hide Rep, Separate, Owned, Borrowed;
    var rest := cs[1..];
    assert cs == [cs[0]] + rest;
    forall o | o in KidsOwned(rest) ensures o in KidsOwned(cs) && o !in Owned(cs[0]) {
      var j :| 0 <= j < |rest| && o in Owned(rest[j]);
      assert o in Owned(cs[j+1]);
    }
    forall o | o in KidsBorrowed(rest) ensures o in KidsBorrowed(cs) {
      var j :| 0 <= j < |rest| && o in Borrowed(rest[j]);
      assert o in Borrowed(cs[j+1]);
    }
    forall o | o in KidsOwned(cs) && o !in Owned(cs[0]) ensures o in KidsOwned(rest) {
      var j :| 0 <= j < |cs| && o in Owned(cs[j]);
      assert rest[j-1] == cs[j];
    }
    forall o | o in KidsBorrowed(cs) && o !in Borrowed(cs[0]) ensures o in KidsBorrowed(rest) {
      var j :| 0 <= j < |cs| && o in Borrowed(cs[j]);
      assert rest[j-1] == cs[j];
    }
  }

  predicate Has(es: seq<Pair>, key: Bytes) {
    HasAt(es, Slot(es, key), key)
  }

  /** What one set asks for. */
  function OnePlan(es: seq<Pair>, key: Bytes): seq<nat> {
    if Has(es, key) then [] else SetPlan(key, |es|)
  }

  /** What a run of sets asks for, up to the first that meets a full dictionary. */
  function SetsPlan(es: seq<Pair>, sets: seq<Pair>): seq<nat>
    decreases |sets|
  {
    if sets == [] then []
    else
      var key, v := sets[0].key, sets[0].val;
      OnePlan(es, key) + (if Has(es, key) || |es| < MAX_ENTRIES then SetsPlan(Put(es, key, v), sets[1..]) else [])
  }

  /** The first set of a run. */
  method SetFirst(dict: Node, keys: seq<Bytes>, children: seq<Node>, ghost t: Shape, ghost cs: seq<Shape>)
    returns (st: Status, ghost r: Shape)
    requires t.DictS? && t.node == dict && Owns(dict.alloc, t) && Sorted(DenBinds(t.binds))
    requires keys != [] && Supplies(dict.alloc, keys, children, cs) && Owned(t) !! KidsOwned(cs)
    modifies dict, Block(t.entries), dict.alloc
    ensures st in {Ok, NoMem} && dict.alloc.Valid()
    ensures st != Ok ==>
              && r == t && Owns(dict.alloc, t) && Supplies(dict.alloc, keys, children, cs)
              && dict.alloc.live == old(dict.alloc.live)
    ensures st == Ok ==>
              && r.DictS? && r.node == dict && Owns(dict.alloc, r)
              && DenBinds(r.binds) == Put(DenBinds(t.binds), keys[0], Den(cs[0]))
              && Supplies(dict.alloc, keys[1..], children[1..], cs[1..]) && Owned(r) !! KidsOwned(cs[1..])
              && dict.alloc.live == old(dict.alloc.live) - Owned(t) + Owned(r)
              && fresh(Owned(r) - Owned(t) - Owned(cs[0])) && fresh(Block(r.entries) - Block(t.entries))
              && Owned(cs[0]) <= Owned(r) && Borrowed(r) <= Borrowed(t) + Borrowed(cs[0])
    ensures dict.alloc.Asked(st == Ok)
    ensures st == Ok <==> dict.alloc.Granted() && (HasKey(t, keys[0]) || |t.binds| < MAX_ENTRIES)
    ensures dict.alloc.Asks(OnePlan(DenBinds(t.binds), keys[0]))
  {
    hide Rep, Separate, Owned, Borrowed, Put, Sorted, Slot, KidsOwned, KidsBorrowed, Den, Ran, GrowPlan, KeyPlan;
    FirstChild(dict.alloc, keys, children, cs);
    ForestAllocated(cs);
    ForestAllocated(cs[1..]);
    FootprintAllocated(t);
    TopBlocks(t);
    st, r := DictSet(dict, keys[0], children[0], t, cs[0]);
  }

  lemma PutLength(es: seq<Pair>, key: Bytes, v: Value)
    ensures |es| <= |Put(es, key, v)| <= |es| + 1
  {
  }

  /** A run of sets, in the order given. It stops at the first that fails, after
      `n` sets; the children not yet set are still the caller's. */
  method SetAll(dict: Node, keys: seq<Bytes>, children: seq<Node>, ghost t: Shape, ghost cs: seq<Shape>)
    returns (st: Status, n: nat, ghost r: Shape)
    requires t.DictS? && t.node == dict && Owns(dict.alloc, t) && Sorted(DenBinds(t.binds))
    requires Supplies(dict.alloc, keys, children, cs) && Owned(t) !! KidsOwned(cs)
    modifies dict, Block(t.entries), dict.alloc
    ensures st in {Ok, NoMem} && n <= |keys| && (st == Ok <==> n == |keys|)
    ensures r.DictS? && r.node == dict && Owns(dict.alloc, r)
    ensures DenBinds(r.binds) == PutAll(DenBinds(t.binds), Sets(keys, cs)[..n])
    ensures Supplies(dict.alloc, keys[n..], children[n..], cs[n..]) && Owned(r) !! KidsOwned(cs[n..])
    ensures dict.alloc.live == old(dict.alloc.live) - Owned(t) - KidsOwned(cs) + Owned(r) + KidsOwned(cs[n..])
    ensures fresh(Owned(r) - Owned(t) - KidsOwned(cs))
    ensures Borrowed(r) <= Borrowed(t) + KidsBorrowed(cs)
    ensures dict.alloc.Asked(st == Ok)
    ensures st != Ok && dict.alloc.Granted() ==> !HasKey(r, keys[n]) && |r.binds| >= MAX_ENTRIES
    ensures dict.alloc.Asks(SetsPlan(DenBinds(t.binds), Sets(keys, cs)))
    ensures |r.binds| <= |t.binds| + n
    decreases |keys|
  {
    hide DenBinds, HasKey, Slot, KidsOwned, KidsBorrowed, Rep, Separate, Owned, Borrowed, Put, Sorted, Forest, Sets;
    ghost var a, asked, refused := dict.alloc, dict.alloc.asked, dict.alloc.refused;
    SetsPlanUnfold(t, keys, cs);
    RanNone(a.answers, asked, refused);
    hide Ran, SetsPlan, OnePlan, Has;
    if keys == [] {
      assert cs[0..] == cs && keys[0..] == keys && children[0..] == children;
      return Ok, 0, t;
    }
    FirstChild(dict.alloc, keys, children, cs);
    ForestAllocated(cs);
    FootprintAllocated(t);
    ghost var es, v := DenBinds(t.binds), Den(cs[0]);
    ghost var r1;
    st, r1 := SetFirst(dict, keys, children, t, cs);
    ghost var asked1, refused1, more := a.asked, a.refused, SetsPlan(Put(es, keys[0], v), Sets(keys[1..], cs[1..]));
    if st != Ok {
      RanEither(a.answers, asked, refused, OnePlan(es, keys[0]), asked1, refused1,
                if HasKey(t, keys[0]) || |es| < MAX_ENTRIES then more else []);
      assert cs[0..] == cs && keys[0..] == keys && children[0..] == children;
      return st, 0, t;
    }
    PutSorted(es, keys[0], v);
    PutLength(es, keys[0], v);
    st, n, r := SetAll(dict, keys[1..], children[1..], r1, cs[1..]);
    RanThen(a.answers, asked, refused, OnePlan(es, keys[0]), asked1, refused1, more, a.asked, a.refused);
    n := n + 1;
    SetsTail(keys, cs, n);
    assert keys[1..][n-1..] == keys[n..] && children[1..][n-1..] == children[n..];
  }

  lemma SetsPlanUnfold(t: Shape, keys: seq<Bytes>, cs: seq<Shape>)
    requires t.DictS? && |keys| == |cs|
    ensures var es, plan := DenBinds(t.binds), SetsPlan(DenBinds(t.binds), Sets(keys, cs));
            if keys == [] then plan == []
            else
              plan == OnePlan(es, keys[0])
                    + (if HasKey(t, keys[0]) || |es| < MAX_ENTRIES
                       then SetsPlan(Put(es, keys[0], Den(cs[0])), Sets(keys[1..], cs[1..])) else [])
  {
    hide Put, OnePlan, Den, DenBinds, Slot;
  }

  lemma SetsTail(keys: seq<Bytes>, cs: seq<Shape>, n: nat)
    requires |keys| == |cs| && 0 < n <= |keys|
    ensures Sets(keys, cs)[..n][1..] == Sets(keys[1..], cs[1..])[..n-1]
    ensures Sets(keys, cs)[..n][0] == Pair(keys[0], Den(cs[0])) && cs[1..][n-1..] == cs[n..]
  {
  }

  lemma {:induction false} PutAllWellFormed(es: seq<Pair>, sets: seq<Pair>)
    requires WellFormed(VDict(es))
    requires forall i :: 0 <= i < |sets| ==> |sets[i].key| <= SIZE_MAX && WellFormed(sets[i].val)
    ensures WellFormed(VDict(PutAll(es, sets)))
    decreases |sets|
  {
    hide WellFormed, Put;
    if sets != [] {
      EmptyListWellFormed();
      BuildersStayWellFormed(es, [], sets[0].key, sets[0].val);
      PutAllWellFormed(Put(es, sets[0].key, sets[0].val), sets[1..]);
    }
  }

  lemma EmptyListWellFormed()
    ensures WellFormed(VList([]))
  {
  }

  /** A new dictionary filled by a run of sets; on failure everything, the
      children included, is freed. */
  method BuildDict(keys: seq<Bytes>, children: seq<Node>, a: Allocator, ghost cs: seq<Shape>)
    returns (st: Status, dict: Node?, ghost r: Option<Shape>)
    requires Supplies(a, keys, children, cs)
    modifies a
    ensures a.Valid() && st in {Ok, NoMem}
    ensures st == Ok ==>
              && Built(a, dict, r, VDict(PutAll([], Sets(keys, cs)))) && r.value.DictS?
              && Borrowed(r.value) <= KidsBorrowed(cs) && fresh(Owned(r.value) - KidsOwned(cs))
              && a.live == old(a.live) - KidsOwned(cs) + Owned(r.value)
    ensures st != Ok ==> dict == null && a.live == old(a.live) - KidsOwned(cs)
    ensures a.Asked(st == Ok) && (a.Granted() && |keys| <= MAX_ENTRIES ==> st == Ok)
    ensures a.Asks([NODE_SIZE] + SetsPlan([], Sets(keys, cs)))
  {
    hide KidsBorrowed, Rep, Separate, Owned, Borrowed, PutAll, Sets, SetsPlan, Ran;
    ForestAllocated(cs);
    NoneAllocator(a, cs);
    ghost var asked, refused, plan := a.asked, a.refused, SetsPlan([], Sets(keys, cs));
    st, dict := DictNew(a);
    ghost var asked1, refused1 := a.asked, a.refused;
    if st != Ok {
      RanEither(a.answers, asked, refused, [NODE_SIZE], asked1, refused1, plan);
      FreeAll(children, a, cs);
      return st, null, None;
    }
    EmptyShapes(dict);
    ghost var t := DictS(dict, null, []);
    assert DenBinds([]) == [];
    var n;
    ghost var s;
    st, n, s := SetAll(dict, keys, children, t, cs);
    RanThen(a.answers, asked, refused, [NODE_SIZE], asked1, refused1, plan, a.asked, a.refused);
    FootprintAllocated(s);
    ForestAllocated(cs[n..]);
    NoneAllocator(a, cs[n..]);
    if st != Ok {
      NotInTree(a, s);
      FreeAll(children[n..], a, cs[n..]);
      Free(dict, s);
      return st, null, None;
    }
    assert cs[n..] == [] && Sets(keys, cs)[..n] == Sets(keys, cs);
    r := Some(s);
  }

  /** A dictionary built in some order and emitted: the bytes are those of any
      other order, too. */
  method EmitBindings(keys: seq<Bytes>, children: seq<Node>, a: Allocator, ghost cs: seq<Shape>)
    returns (st: Status, out: array?<byte>, len: nat)
    requires Supplies(a, keys, children, cs)
    requires forall i :: 0 <= i < |cs| ==> WellFormed(Den(cs[i]))
    modifies a
    ensures a.Valid() && st in {Ok, NoMem}
    ensures st != Ok ==> out == null && a.live == old(a.live) - KidsOwned(cs)
    ensures st == Ok ==>
              && out != null && fresh(out) && len <= out.Length
              && out[..len] == Encode(VDict(PutAll([], Sets(keys, cs))))
              && a.live == old(a.live) - KidsOwned(cs) + {out}
    ensures st == Ok && DistinctKeys(Sets(keys, cs)) ==>
              forall other {:trigger PutAll([], other)} ::
                DistinctKeys(other) && multiset(other) == multiset(Sets(keys, cs)) ==>
                out[..len] == Encode(VDict(PutAll([], other)))
    ensures var sets := Sets(keys, cs);
            |keys| <= MAX_ENTRIES ==>
              a.Asks([NODE_SIZE] + SetsPlan([], sets) + BufferPlan(ChunksOf(VDict(PutAll([], sets)))))
  {
    hide Rep, Separate, Owned, Borrowed, PutAll, Sets, WellFormed, Encode, DistinctKeys;
    hide SetsPlan, BufferPlan, ChunksOf, Ran;
    var dict;
    ghost var r;
    ghost var sets := Sets(keys, cs);
    ghost var asked, refused, plan := a.asked, a.refused, [NODE_SIZE] + SetsPlan([], sets);
    ghost var more := BufferPlan(ChunksOf(VDict(PutAll([], sets))));
    st, dict, r := BuildDict(keys, children, a, cs);
    ghost var asked1, refused1 := a.asked, a.refused;
    if st != Ok {
      if |keys| <= MAX_ENTRIES {
        RanStop(a.answers, asked, refused, plan, asked1, refused1, more);
      }
      return st, null, 0;
    }
    EmptyDictWellFormed();
    PutAllWellFormed([], sets);
    FootprintAllocated(r.value);
    NotInTree(a, r.value);
    st, out, len := EmitToAlloc(dict, a, r.value);
    RanThen(a.answers, asked, refused, plan, asked1, refused1, more, a.asked, a.refused);
    Free(dict, r.value);
    forall other {:trigger PutAll([], other)} |
      DistinctKeys(sets) && DistinctKeys(other) && multiset(other) == multiset(sets)
      ensures PutAll([], other) == PutAll([], sets)
    {
      PermutationsAgree(other, sets);
    }
  }

  lemma EmptyDictWellFormed()
    ensures WellFormed(VDict([]))
  {
  }

  /** A lookup after any run of sets finds the value set last under the key, and
      nothing when the key was never set. */
  method SetThenGet(keys: seq<Bytes>, children: seq<Node>, key: Bytes, a: Allocator, ghost cs: seq<Shape>)
    returns (st: Status, dict: Node?, value: Node?, ghost r: Option<Shape>, ghost index: nat)
    requires Supplies(a, keys, children, cs)
    modifies a
    ensures a.Valid() && st in {Ok, NoMem}
    ensures st != Ok ==> dict == null && a.live == old(a.live) - KidsOwned(cs)
    ensures var m := UpdateAll(map[], Sets(keys, cs));
            st == Ok ==>
              && Built(a, dict, r, VDict(PutAll([], Sets(keys, cs)))) && r.value.DictS?
              && (value == null <==> key !in m)
              && (value != null ==>
                    && index < |r.value.binds| && value == r.value.binds[index].val.node
                    && Den(r.value.binds[index].val) == m[key])
    ensures a.Asks([NODE_SIZE] + SetsPlan([], Sets(keys, cs)))
  {
    hide SetsPlan, Ran, Rep, Separate, Owned, Borrowed, PutAll, Sets, UpdateAll, Put, Built;
    value, index := null, 0;
    st, dict, r := BuildDict(keys, children, a, cs);
    if st != Ok {
      return;
    }
    BuiltDict(a, dict, r, PutAll([], Sets(keys, cs)));
    FootprintAllocated(r.value);
    assert ToMap([]) == map[];
    RunRefinesMap([], Sets(keys, cs));
    value, index := DictGet(dict, key, r.value);
  }

  lemma BuiltDict(a: Allocator, dict: Node?, r: Option<Shape>, es: seq<Pair>)
    requires Built(a, dict, r, VDict(es)) && r.value.DictS?
    ensures r.Some? && dict == r.value.node && dict.alloc == a && Rep(a, r.value) && DenBinds(r.value.binds) == es
  {
    hide Separate, Owned, Borrowed;
  }
}
