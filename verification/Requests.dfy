/** The sizes that operations ask the allocator for, in closed form, and how those
    of a parse and of a copy of one value compare. */
module Requests {
  import opened Bytes
  import opened Values
  import opened Zipper
  import opened Capacity
  import opened Memory
  import opened Chunks

  // ---- Arrays ----

  /** `n` times two, `j` times over. */
  lemma {:induction false} DoubledIs(j: nat)
    ensures Doubled(j) == 4 * Power2(j)
    decreases j
  {
    if j > 0 {
      DoubledIs(j - 1);
    }
  }

  lemma DoublingIs(c: nat)
    ensures Doubling(c) <==> exists j: nat :: c == 4 * Power2(j)
  {
    if Doubling(c) {
      var j: nat :| c == Doubled(j);
      DoubledIs(j);
    }
    if exists j: nat :: c == 4 * Power2(j) {
      var j: nat :| c == 4 * Power2(j);
      DoubledIs(j);
      assert c == Doubled(j);
    }
  }

  /** The least doubling of `first` that is large enough, said without the loop. */
  lemma LeastDoubling(first: nat, n: nat, c: nat)
    requires Doubling(first) && Doubling(c)
    ensures c == GrowTo(first, n) <==> first <= c && n <= c && (c == first || c < 2 * n)
  {
    var g := GrowTo(first, n);
    GrowToDoubles(first, n);
    if g < c {
      DoublingApart(g, c);
    } else if c < g {
      DoublingApart(c, g);
    }
  }

  /** The capacities of item and entry arrays are the powers of two from 4 on, and
      an array of `n > 0` elements has the least that is large enough. */
  lemma CapForExactly(n: nat, c: nat)
    requires n > 0
    ensures c == CapFor(n) <==> (exists j: nat :: c == 4 * Power2(j)) && n <= c && (c == 4 || c < 2 * n)
  {
    hide Doubling, Power2;
    DoublingIs(c);
    LargestDoublings();
    GrowToDoubles(4, n);
    if Doubling(c) {
      LeastDoubling(4, n, c);
      SmallestDoubling(c);
    }
  }

  lemma SmallestDoubling(c: nat)
    requires Doubling(c)
    ensures c >= 4
  {
  }

  /** One more element in an array of `k` asks for a block if and only if the array
      is full and its double fits in `size_t`: 32 bytes or 96 for the first, and
      then twice the bytes of the last. */
  lemma GrowPlanExactly(k: nat)
    ensures var full := k == 0 || exists j: nat :: k == 4 * Power2(j);
            && GrowPlan(k, 8) == (if full && k < 0x1000_0000_0000_0000 then [if k == 0 then 32 else 16 * k] else [])
            && GrowPlan(k, 24) == (if full && k < 0x800_0000_0000_0000 then [if k == 0 then 96 else 48 * k] else [])
  {
    hide Doubling, Power2;
    DoublingIs(k);
    LargestDoublings();
    CapForNext(k);
    if k > 0 && Doubling(k) {
      LeastDoubling(4, k, k);
      SmallestDoubling(k);
      assert GrowTo(k, k + 1) == GrowTo(2 * k, k + 1) == 2 * k;
      if k < MAX_ENTRIES {
        DoublingApart(k, MAX_ENTRIES);
      }
    }
  }

  /** The buffer of an emit that holds `n > 0` bytes has the least capacity among
      4096, 8192, ... that is large enough. */
  lemma BufferCapExactly(n: nat, c: nat)
    requires n > 0
    ensures c == BufferCap(n) <==> (exists j: nat :: c == 4096 * Power2(j)) && n <= c && (c == 4096 || c < 2 * n)
  {
    hide Doubling, Power2;
    FirstBuffer(c);
    LargestDoublings();
    GrowToDoubles(4096, n);
    if Doubling(c) {
      LeastDoubling(4096, n, c);
    }
    if Doubling(BufferCap(n)) {
      FirstBuffer(BufferCap(n));
    }
  }

  /** Emitting asks for ever larger buffers, each only when the one before is full,
      and the last is the one for the whole text. */
  lemma {:induction false} BufferPlanExactly(chunks: seq<Bytes>)
    requires NoneEmpty(chunks) && |Flat(chunks)| <= 0x8000_0000_0000_0000
    ensures var plan := BufferPlan(chunks);
            if chunks == [] then plan == []
            else
              && plan != [] && plan[|plan|-1] == BufferCap(|Flat(chunks)|)
              && forall i, j :: 0 <= i < j < |plan| ==> plan[i] < plan[j]
    decreases |chunks|
  {
    hide GrowTo;
    if chunks != [] {
      var front, last := chunks[..|chunks|-1], chunks[|chunks|-1];
      assert chunks == front + [last] && last in chunks;
      FlatSnoc(front, last);
      BufferPlanSnoc(front, last);
      hide BufferCap, Flat, BufferPlan;
      assert NoneEmpty(front) by {
        assert forall c :: c in front ==> c in chunks;
      }
      BufferPlanExactly(front);
      NothingFlat();
      BufferCapNext(|Flat(front)|, |last|);
      var plan := BufferPlan(front);
      assert plan + [] == plan;
    }
  }

  lemma NothingFlat()
    ensures Flat([]) == [] && BufferCap(0) == 0
  {
  }

  lemma FirstBuffer(c: nat)
    ensures Doubling(4096)
    ensures (exists j: nat :: c == 4096 * Power2(j)) <==> Doubling(c) && c >= 4096
  {
    assert Doubled(10) == 4096;
    assert Power2(10) == 1024;
    hide Power2, Doubled;
    if Doubling(c) && c >= 4096 {
      var k: nat :| c == Doubled(k);
      if k < 10 {
        DoubledMonotone(k + 1, 10);
        DoubledStep(k);
      }
      DoubledOn(10, k - 10);
      assert c == 4096 * Power2(k - 10);
    }
    if exists j: nat :: c == 4096 * Power2(j) {
      var j: nat :| c == 4096 * Power2(j);
      DoubledOn(10, j);
      assert c == Doubled(10 + j);
      DoubledMonotone(10, 10 + j);
    }
  }

  lemma DoubledStep(k: nat)
    ensures Doubled(k + 1) == 2 * Doubled(k)
  {
  }

  // ---- Copies ----

  lemma {:induction false} ItemsPlanSnoc(vs: seq<Value>, v: Value, k: nat)
    ensures ItemsPlan(vs + [v], k) == ItemsPlan(vs, k) + (ClonePlan(v) + GrowPlan(k + |vs|, 8))
    decreases |vs|
  {
    hide ClonePlan, GrowPlan;
    if vs == [] {
      assert vs + [v] == [v] && [v][1..] == [];
    } else {
      assert (vs + [v])[1..] == vs[1..] + [v];
      ItemsPlanSnoc(vs[1..], v, k + 1);
    }
  }

  lemma {:induction false} EntriesPlanSnoc(es: seq<Pair>, e: Pair, k: nat)
    ensures EntriesPlan(es + [e], k) == EntriesPlan(es, k) + (ClonePlan(e.val) + SetPlan(e.key, k + |es|))
    decreases |es|
  {
    hide ClonePlan, SetPlan;
    if es == [] {
      assert es + [e] == [e] && [e][1..] == [];
    } else {
      assert (es + [e])[1..] == es[1..] + [e];
      EntriesPlanSnoc(es[1..], e, k + 1);
    }
  }

  /** What a copy of a leaf or of an empty container asks for: a node has 40 bytes,
      and the bytes of a string that is not empty are copied. */
  lemma CopiedLeaf(i: int, b: Bytes)
    ensures ClonePlan(VInt(i)) == ClonePlan(VList([])) == ClonePlan(VDict([])) == [40]
    ensures ClonePlan(VStr(b)) == if b == [] then [40] else [40, |b|]
  {
    CopyUnfolds([], []);
  }

  /** The last item of a list is copied after the others, and then the array of
      the copy grows from their number. */
  lemma CopiedItem(vs: seq<Value>, v: Value)
    ensures ClonePlan(VList(vs + [v])) == ClonePlan(VList(vs)) + ClonePlan(v) + GrowPlan(|vs|, 8)
  {
    CopyUnfolds(vs, []);
    CopyUnfolds(vs + [v], []);
    hide GrowPlan, ClonePlan, ItemsPlan;
    ItemsPlanSnoc(vs, v, 0);
    Regrouped([40], ItemsPlan(vs, 0), ClonePlan(v), GrowPlan(|vs|, 8));
  }

  /** The last entry of a dictionary likewise, with its key in between. */
  lemma CopiedEntry(es: seq<Pair>, key: Bytes, v: Value)
    ensures ClonePlan(VDict(es + [Pair(key, v)]))
         == ClonePlan(VDict(es)) + ClonePlan(v) + ((if key == [] then [] else [|key|]) + GrowPlan(|es|, 24))
  {
    var e := Pair(key, v);
    CopyUnfolds([], es);
    CopyUnfolds([], es + [e]);
    hide GrowPlan, ClonePlan, EntriesPlan;
    EntriesPlanSnoc(es, e, 0);
    Regrouped([40], EntriesPlan(es, 0), ClonePlan(v), SetPlan(key, |es|));
  }

  lemma Regrouped(a: seq<nat>, b: seq<nat>, c: seq<nat>, d: seq<nat>)
    ensures a + (b + (c + d)) == a + b + c + d
  {
  }

  // ---- A parse and a copy of the same value ----

  /** How often a plan asks for a block of `size` bytes. */
  function Times(plan: seq<nat>, size: nat): nat {
    multiset(plan)[size]
  }

  lemma TimesConcat(p: seq<nat>, q: seq<nat>, size: nat)
    ensures Times(p + q, size) == Times(p, size) + Times(q, size)
  {
  }

  /** How many string values of the value have `size` bytes, leaving out the empty
      ones and the keys. */
  function Strings(v: Value, size: nat): nat
    decreases v
  {
    match v
    case VInt(_) => 0
    case VStr(b) => if b != [] && |b| == size then 1 else 0
    case VList(vs) => StringsAll(vs, size)
    case VDict(es) => StringsPairs(es, size)
  }

  function StringsAll(vs: seq<Value>, size: nat): nat
    decreases vs
  {
    if vs == [] then 0 else Strings(vs[0], size) + StringsAll(vs[1..], size)
  }

  function StringsPairs(es: seq<Pair>, size: nat): nat
    decreases es
  {
    if es == [] then 0 else Strings(es[0].val, size) + StringsPairs(es[1..], size)
  }

  lemma FirstItem(vs: seq<Value>, k: nat, size: nat)
    ensures vs == [] ==> Times(ItemsPlan(vs, k), size) == StringsAll(vs, size) == 0
    ensures vs != [] ==>
              && StringsAll(vs, size) == Strings(vs[0], size) + StringsAll(vs[1..], size)
              && Times(ItemsPlan(vs, k), size)
                 == Times(ClonePlan(vs[0]), size) + Times(GrowPlan(k, 8), size) + Times(ItemsPlan(vs[1..], k + 1), size)
  {
    hide ClonePlan, GrowPlan, Strings;
  }

  lemma FirstEntry(es: seq<Pair>, k: nat, size: nat)
    ensures es == [] ==> Times(EntriesPlan(es, k), size) == StringsPairs(es, size) == 0
    ensures es != [] ==>
              && StringsPairs(es, size) == Strings(es[0].val, size) + StringsPairs(es[1..], size)
              && Times(EntriesPlan(es, k), size)
                 == Times(ClonePlan(es[0].val), size) + Times(SetPlan(es[0].key, k), size)
                  + Times(EntriesPlan(es[1..], k + 1), size)
  {
    hide ClonePlan, SetPlan, Strings;
  }

  lemma AttachedWhere(z: Zip, done: seq<Value>, pairs: seq<Pair>, key: Bytes)
    ensures AttachPlan(Push(z, FList(done))) == GrowPlan(|done|, 8)
    ensures AttachPlan(Push(z, FDict(pairs, Some(key)))) == SetPlan(key, |pairs|)
    ensures !Attaches(Push(z, FDict(pairs, None)), EStr(key))
  {
    hide SetPlan, GrowPlan;
  }

  /** Two runs one after the other, without a full container. */
  lemma PlanThen(z: Zip, a: seq<Event>, b: seq<Event>, size: nat)
    requires Goes(z, a) && Goes(Run(z, a), b)
    ensures Goes(z, a + b) && Run(z, a + b) == Run(Run(z, a), b)
    ensures Times(RunPlan(z, a + b), size) == Times(RunPlan(z, a), size) + Times(RunPlan(Run(z, a), b), size)
  {
    hide LegalAll, FitAll, Run, RunPlan;
    GoesThen(z, a, b);
    RunPlanConcat(z, a, b);
  }

  lemma PlanOne(z: Zip, e: Event, size: nat)
    requires Legal(z, e) && Fits(z, e)
    ensures Goes(z, [e]) && Run(z, [e]) == Step(z, e)
    ensures Times(RunPlan(z, [e]), size)
         == if Attaches(z, e) then Times([40], size) + Times(AttachPlan(z), size) else 0
  {
    hide Legal, Step, Fits, AttachPlan, Attaches;
    GoesOne(z, e);
    assert [e][1..] == [];
    assert EventPlan(z, e) + [] == EventPlan(z, e);
  }

  /** Reading a value asks for what copying it asks for, apart from the copies of
      the strings, and for what attaching it takes. */
  lemma {:induction false} ReadAndCopied(z: Zip, v: Value, size: nat)
    requires Awaits(z) && WellFormed(v) && Compact(v) && HasRoom(z)
    ensures Goes(z, Flatten(v)) && Run(z, Flatten(v)) == Deliver(z, v)
    ensures Times(RunPlan(z, Flatten(v)), size) + Strings(v, size)
         == Times(AttachPlan(z), size) + Times(ClonePlan(v), size)
    decreases v, 1
  {
    CopiedNode(v, size);
    hide Goes, Run, Less, RunPlan, AttachPlan, Times, ClonePlan;
    match v
    case VInt(i) => PlanOne(z, EInt(i), size);
    case VStr(b) => PlanOne(z, EStr(b), size);
    case VList(vs) =>
      PlanOne(z, EListBegin, size);
      AllReadAndCopied(z, [], vs, size);
      assert [] + vs == vs;
      ListCloses(z, vs);
      PlanOne(Push(z, FList(vs)), EListEnd, size);
      PlanThen(z, [EListBegin], FlattenAll(vs), size);
      PlanThen(z, [EListBegin] + FlattenAll(vs), [EListEnd], size);
    case VDict(es) =>
      PlanOne(z, EDictBegin, size);
      PairsReadAndCopied(z, [], es, size);
      assert [] + es == es;
      DictCloses(z, es);
      PlanOne(Push(z, FDict(es, None)), EDictEnd, size);
      PlanThen(z, [EDictBegin], FlattenPairs(es), size);
      PlanThen(z, [EDictBegin] + FlattenPairs(es), [EDictEnd], size);
  }

  lemma NothingRead(z: Zip, size: nat)
    ensures Goes(z, []) && Run(z, []) == z && Times(RunPlan(z, []), size) == 0
  {
  }

  lemma CopiedNode(v: Value, size: nat)
    ensures var more := Times(ClonePlan(v), size) - Times([40], size);
            && (v.VInt? ==> more == 0)
            && (v.VStr? ==> more == Strings(v, size))
            && (v.VList? ==> more == Times(ItemsPlan(v.items, 0), size))
            && (v.VDict? ==> more == Times(EntriesPlan(v.pairs, 0), size))
  {
  }

  lemma {:induction false} AllReadAndCopied(z: Zip, done: seq<Value>, vs: seq<Value>, size: nat)
    requires |done| + |vs| <= MAX_ITEMS
    requires forall i :: 0 <= i < |vs| ==> WellFormed(vs[i]) && Compact(vs[i])
    ensures var z1 := Push(z, FList(done));
            && Goes(z1, FlattenAll(vs)) && Run(z1, FlattenAll(vs)) == Push(z, FList(done + vs))
            && Times(RunPlan(z1, FlattenAll(vs)), size) + StringsAll(vs, size) == Times(ItemsPlan(vs, |done|), size)
    decreases vs, 0
  {
    hide Flatten, WellFormed, Compact, ClonePlan, Strings, GrowPlan, StringsAll, ItemsPlan, AttachPlan;
    hide Goes, Run, RunPlan, Times;
    var z1 := Push(z, FList(done));
    NothingRead(z1, size);
    FirstItem(vs, |done|, size);
    if vs == [] {
      assert done + vs == done;
    } else {
      PushedList(z, done, vs[0]);
      ReadAndCopied(z1, vs[0], size);
      AllReadAndCopied(z, done + [vs[0]], vs[1..], size);
      PlanThen(z1, Flatten(vs[0]), FlattenAll(vs[1..]), size);
      assert done + [vs[0]] + vs[1..] == done + vs;
      AttachedWhere(z, done, [], []);
    }
  }

  lemma {:induction false} PairsReadAndCopied(z: Zip, done: seq<Pair>, es: seq<Pair>, size: nat)
    requires |done| + |es| <= MAX_ENTRIES && Sorted(done + es)
    requires forall i :: 0 <= i < |es| ==> WellFormed(es[i].val) && Compact(es[i].val)
    ensures var z1 := Push(z, FDict(done, None));
            && Goes(z1, FlattenPairs(es)) && Run(z1, FlattenPairs(es)) == Push(z, FDict(done + es, None))
            && Times(RunPlan(z1, FlattenPairs(es)), size) + StringsPairs(es, size)
               == Times(EntriesPlan(es, |done|), size)
    decreases es, 0
  {
    hide Flatten, WellFormed, Compact, Less, ClonePlan, Strings, SetPlan, StringsPairs, EntriesPlan, AttachPlan;
    hide Goes, Run, RunPlan, Times;
    var z1 := Push(z, FDict(done, None));
    NothingRead(z1, size);
    FirstEntry(es, |done|, size);
    if es == [] {
      assert done + es == done;
    } else {
      var key, v := es[0].key, es[0].val;
      var z2 := Push(z, FDict(done, Some(key)));
      if done != [] {
        assert (done + es)[|done|-1] == done[|done|-1] && (done + es)[|done|] == es[0];
      }
      KeyHolds(z, done, key);
      PlanOne(z1, EStr(key), size);
      PushedEntry(z, done, key, v);
      ReadAndCopied(z2, v, size);
      assert done + [es[0]] + es[1..] == done + es;
      PairsReadAndCopied(z, done + [es[0]], es[1..], size);
      PlanThen(z1, [EStr(key)], Flatten(v), size);
      PlanThen(z1, [EStr(key)] + Flatten(v), FlattenPairs(es[1..]), size);
      AttachedWhere(z, [], done, key);
    }
  }

  /** A parse that builds the tree of a value and a deep copy of that tree ask for
      blocks of the same sizes, each size as often, except that the copy also asks
      for each string that is not empty. */
  lemma ParseAndCloneBlocks(v: Value, size: nat)
    requires WellFormed(v) && Compact(v)
    ensures LegalAll(Start, Flatten(v))
    ensures Times(ClonePlan(v), size) == Times(RunPlan(Start, Flatten(v)), size) + Strings(v, size)
  {
    hide RunPlan, ClonePlan, WellFormed, Compact, Flatten, LegalAll, FitAll, Run;
    ReadAndCopied(Start, v, size);
  }

  lemma RunPlanCons(z: Zip, e: Event, rest: seq<Event>)
    requires Legal(z, e) && Fits(z, e) && LegalAll(Step(z, e), rest)
    ensures LegalAll(z, [e] + rest) && RunPlan(z, [e] + rest) == EventPlan(z, e) + RunPlan(Step(z, e), rest)
  {
    hide Legal, Step, Fits, EventPlan;
    assert ([e] + rest)[1..] == rest;
  }

  /** The dictionary `d1:ai1ee` asks for its node, the integer's, the byte of the
      key and 96 bytes for four entries. */
  lemma SmallDictAsks()
    ensures var evs := [EDictBegin] + ([EStr([97])] + ([EInt(1)] + [EDictEnd]));
            LegalAll(Start, evs) && RunPlan(Start, evs) == [40, 40, 1, 96]
  {
    var z1 := Push(Start, FDict([], None));
    var z2 := Push(Start, FDict([], Some([97])));
    var z3 := Push(Start, FDict([Pair([97], VInt(1))], None));
    SmallSteps(z1, z2, z3);
    hide Legal, Step, Fits, EventPlan, LegalAll, RunPlan;
    RunPlanCons(z2, EInt(1), [EDictEnd]);
    RunPlanCons(z1, EStr([97]), [EInt(1)] + [EDictEnd]);
    RunPlanCons(Start, EDictBegin, [EStr([97])] + ([EInt(1)] + [EDictEnd]));
    calc {
      RunPlan(Start, [EDictBegin] + ([EStr([97])] + ([EInt(1)] + [EDictEnd])));
      [40] + ([] + ([40, 1, 96] + []));
      [40, 40, 1, 96];
    }
  }

  lemma SmallSteps(z1: Zip, z2: Zip, z3: Zip)
    requires z1 == Push(Start, FDict([], None)) && z2 == Push(Start, FDict([], Some([97])))
    requires z3 == Push(Start, FDict([Pair([97], VInt(1))], None))
    ensures Legal(Start, EDictBegin) && Fits(Start, EDictBegin) && Step(Start, EDictBegin) == z1
    ensures Legal(z1, EStr([97])) && Fits(z1, EStr([97])) && Step(z1, EStr([97])) == z2
    ensures Legal(z2, EInt(1)) && Fits(z2, EInt(1)) && Step(z2, EInt(1)) == z3
    ensures LegalAll(z3, [EDictEnd]) && RunPlan(z3, [EDictEnd]) == []
    ensures EventPlan(Start, EDictBegin) == [40] && EventPlan(z1, EStr([97])) == []
    ensures EventPlan(z2, EInt(1)) == [40, 1, 96]
  {
    GrowPlanExactly(0);
    assert [] + [Pair([97], VInt(1))] == [Pair([97], VInt(1))];
    hide GrowPlan;
    assert [EDictEnd][1..] == [];
    assert AttachPlan(z2) == [1] + [96];
  }
}
