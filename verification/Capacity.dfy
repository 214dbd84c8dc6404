/** Which runs of events outgrow a container: the arrays of lists and dictionaries
    cannot grow beyond a fixed number of elements, memory or not. */
module Capacity {
  import opened Bytes
  import opened Values
  import opened Zipper
  import opened Memory

  function MaxWidth(f: Frame): nat {
    if f.FList? then MAX_ITEMS else MAX_ENTRIES
  }

  /** The innermost container can take one more value. */
  predicate HasRoom(z: Zip) {
    z.stack != [] ==> Width(Top(z)) < MaxWidth(Top(z))
  }

  /** The event brings a value, finished or just begun. */
  predicate Attaches(z: Zip, e: Event) {
    match e
    case EInt(_) => true
    case EStr(_) => !AwaitsKey(z)
    case EListBegin => true
    case EDictBegin => true
    case EListEnd => false
    case EDictEnd => false
  }

  predicate Fits(z: Zip, e: Event) {
    Attaches(z, e) ==> HasRoom(z)
  }

  /** No event of the sequence meets a full container. */
  predicate FitAll(z: Zip, evs: seq<Event>)
    requires LegalAll(z, evs)
    decreases |evs|
  {
    evs == [] || (Fits(z, evs[0]) && FitAll(Step(z, evs[0]), evs[1..]))
  }

  lemma {:induction false} FitSnoc(z: Zip, evs: seq<Event>, e: Event)
    requires LegalAll(z, evs) && LegalAll(z, evs + [e]) && Legal(Run(z, evs), e)
    ensures FitAll(z, evs + [e]) <==> FitAll(z, evs) && Fits(Run(z, evs), e)
    decreases |evs|
  {
    hide Legal, Step, Fits;
    if evs == [] {
      assert evs + [e] == [e];
    } else {
      assert (evs + [e])[1..] == evs[1..] + [e];
      FitSnoc(Step(z, evs[0]), evs[1..], e);
    }
  }

  lemma {:induction false} FitPrefix(z: Zip, evs: seq<Event>, k: nat)
    requires LegalAll(z, evs) && k <= |evs| && LegalAll(z, evs[..k]) && FitAll(z, evs)
    ensures FitAll(z, evs[..k])
    decreases k
  {
    hide Legal, Step, Fits;
    if k > 0 {
      assert evs[..k][1..] == evs[1..][..k-1];
      FitPrefix(Step(z, evs[0]), evs[1..], k - 1);
    }
  }

  /** Dictionary and list sizes never outgrow the number of events. */
  ghost predicate Narrow(z: Zip, n: nat) {
    forall k :: 0 <= k < |z.stack| ==> Width(z.stack[k]) <= n
  }

  lemma StepNarrow(z: Zip, e: Event, n: nat)
    requires Narrow(z, n) && Legal(z, e)
    ensures Narrow(Step(z, e), n + 1)
  {
    hide Less, LastKey;
  }

  /** A run of at most as many events as a dictionary can hold fits. */
  lemma {:induction false} ShortRunFits(z: Zip, n: nat, evs: seq<Event>)
    requires Narrow(z, n) && LegalAll(z, evs) && n + |evs| <= MAX_ENTRIES
    ensures FitAll(z, evs)
    decreases |evs|
  {
    hide Legal, Step;
    if evs != [] {
      StepNarrow(z, evs[0], n);
      ShortRunFits(Step(z, evs[0]), n + 1, evs[1..]);
    }
  }

  // ---- Values that fit ----

  /** No container of the value has more elements than its array can have. */
  ghost predicate Compact(v: Value)
    decreases v
  {
    match v
    case VInt(_) => true
    case VStr(_) => true
    case VList(vs) => |vs| <= MAX_ITEMS && forall i :: 0 <= i < |vs| ==> Compact(vs[i])
    case VDict(es) => |es| <= MAX_ENTRIES && forall i :: 0 <= i < |es| ==> Compact(es[i].val)
  }

  lemma {:induction false} FitConcat(z: Zip, a: seq<Event>, b: seq<Event>)
    requires LegalAll(z, a) && LegalAll(Run(z, a), b) && LegalAll(z, a + b)
    requires FitAll(z, a) && FitAll(Run(z, a), b)
    ensures FitAll(z, a + b)
    decreases |a|
  {
    hide Legal, Step, Fits;
    if a == [] {
      assert a + b == b;
    } else {
      assert (a + b)[1..] == a[1..] + b;
      FitConcat(Step(z, a[0]), a[1..], b);
    }
  }

  /** Two runs one after the other, both legal and without a full container. */
  lemma GoesThen(z: Zip, a: seq<Event>, b: seq<Event>)
    requires Goes(z, a) && Goes(Run(z, a), b)
    ensures Goes(z, a + b) && Run(z, a + b) == Run(Run(z, a), b)
  {
    hide LegalAll, FitAll, Run;
    RunConcat(z, a, b);
    FitConcat(z, a, b);
  }

  predicate Goes(z: Zip, evs: seq<Event>) {
    LegalAll(z, evs) && FitAll(z, evs)
  }

  lemma GoesOne(z: Zip, e: Event)
    requires Legal(z, e) && Fits(z, e)
    ensures Goes(z, [e]) && Run(z, [e]) == Step(z, e)
  {
    hide Legal, Step, Fits;
    RunOne(z, e);
    assert [e][1..] == [];
    assert FitAll(Step(z, e), []);
  }

  /** The events of a compact value meet no full container, wherever there is room
      for the value itself. */
  lemma {:induction false} FlattenFits(z: Zip, v: Value)
    requires Awaits(z) && WellFormed(v) && Compact(v) && HasRoom(z)
    ensures Goes(z, Flatten(v)) && Run(z, Flatten(v)) == Deliver(z, v)
    decreases v, 1
  {
    hide Goes, Run, Less;
    match v
    case VInt(i) => GoesOne(z, EInt(i));
    case VStr(b) => GoesOne(z, EStr(b));
    case VList(vs) =>
      GoesOne(z, EListBegin);
      FlattenAllFits(z, [], vs);
      assert [] + vs == vs;
      ListCloses(z, vs);
      GoesOne(Push(z, FList(vs)), EListEnd);
      GoesThen(z, [EListBegin], FlattenAll(vs));
      GoesThen(z, [EListBegin] + FlattenAll(vs), [EListEnd]);
    case VDict(es) =>
      GoesOne(z, EDictBegin);
      FlattenPairsFit(z, [], es);
      assert [] + es == es;
      DictCloses(z, es);
      GoesOne(Push(z, FDict(es, None)), EDictEnd);
      GoesThen(z, [EDictBegin], FlattenPairs(es));
      GoesThen(z, [EDictBegin] + FlattenPairs(es), [EDictEnd]);
  }

  lemma {:induction false} FlattenAllFits(z: Zip, done: seq<Value>, vs: seq<Value>)
    requires |done| + |vs| <= MAX_ITEMS
    requires forall i :: 0 <= i < |vs| ==> WellFormed(vs[i]) && Compact(vs[i])
    ensures Goes(Push(z, FList(done)), FlattenAll(vs))
    ensures Run(Push(z, FList(done)), FlattenAll(vs)) == Push(z, FList(done + vs))
    decreases vs, 0
  {
    hide Flatten, WellFormed, Compact;
    var z1 := Push(z, FList(done));
    if vs == [] {
      assert done + vs == done;
    } else {
      hide Goes, Run;
      PushedList(z, done, vs[0]);
      FlattenFits(z1, vs[0]);
      FlattenAllFits(z, done + [vs[0]], vs[1..]);
      GoesThen(z1, Flatten(vs[0]), FlattenAll(vs[1..]));
      assert done + [vs[0]] + vs[1..] == done + vs;
    }
  }

  lemma {:induction false} FlattenPairsFit(z: Zip, done: seq<Pair>, es: seq<Pair>)
    requires |done| + |es| <= MAX_ENTRIES && Sorted(done + es)
    requires forall i :: 0 <= i < |es| ==> WellFormed(es[i].val) && Compact(es[i].val)
    ensures Goes(Push(z, FDict(done, None)), FlattenPairs(es))
    ensures Run(Push(z, FDict(done, None)), FlattenPairs(es)) == Push(z, FDict(done + es, None))
    decreases es, 0
  {
    hide Flatten, WellFormed, Compact, Less;
    var z1 := Push(z, FDict(done, None));
    if es == [] {
      assert done + es == done;
    } else {
      hide Goes, Run;
      var key, v := es[0].key, es[0].val;
      var z2 := Push(z, FDict(done, Some(key)));
      if done != [] {
        assert (done + es)[|done|-1] == done[|done|-1] && (done + es)[|done|] == es[0];
      }
      KeyHolds(z, done, key);
      GoesOne(z1, EStr(key));
      PushedEntry(z, done, key, v);
      FlattenFits(z2, v);
      assert done + [es[0]] + es[1..] == done + es;
      FlattenPairsFit(z, done + [es[0]], es[1..]);
      GoesThen(z1, [EStr(key)], Flatten(v));
      GoesThen(z1, [EStr(key)] + Flatten(v), FlattenPairs(es[1..]));
    }
  }

  lemma {:induction false} FitSplit(z: Zip, a: seq<Event>, b: seq<Event>)
    requires LegalAll(z, a) && LegalAll(Run(z, a), b) && LegalAll(z, a + b) && FitAll(z, a + b)
    ensures FitAll(z, a) && FitAll(Run(z, a), b)
    decreases |a|
  {
    hide Legal, Step, Fits;
    if a == [] {
      assert a + b == b;
    } else {
      assert (a + b)[1..] == a[1..] + b;
      FitSplit(Step(z, a[0]), a[1..], b);
    }
  }

  /** Conversely, a value whose events meet no full container is compact, and there
      was room for it. */
  lemma {:induction false} FitsOnlyCompact(z: Zip, v: Value)
    requires Awaits(z) && WellFormed(v) && LegalAll(z, Flatten(v)) && FitAll(z, Flatten(v))
    ensures Compact(v) && HasRoom(z)
    decreases v, 1
  {
    hide LegalAll, Run, Less, FitAll, Legal, Step, HasRoom, Flatten, FlattenAll, FlattenPairs;
    FirstFits(z, v);
    match v
    case VInt(_) =>
    case VStr(_) =>
    case VList(vs) => ListBodyFits(z, vs); FitsOnlyCompactAll(z, [], vs);
    case VDict(es) => DictBodyFits(z, es); assert [] + es == es; FitsOnlyCompactPairs(z, [], es);
  }

  lemma ListBodyFits(z: Zip, vs: seq<Value>)
    requires Awaits(z) && WellFormed(VList(vs))
    requires LegalAll(z, Flatten(VList(vs))) && FitAll(z, Flatten(VList(vs)))
    ensures LegalAll(Push(z, FList([])), FlattenAll(vs)) && FitAll(Push(z, FList([])), FlattenAll(vs))
  {
    var body := FlattenAll(vs);
    assert Flatten(VList(vs)) == [EListBegin] + body + [EListEnd];
    hide LegalAll, Run, FitAll, Flatten, FlattenAll;
    RunOne(z, EListBegin);
    RunFlattenAll(z, [], vs);
    hide Legal, Step;
    RunConcat(z, [EListBegin], body);
    ListCloses(z, vs);
    assert [] + vs == vs;
    RunOne(Push(z, FList(vs)), EListEnd);
    FitSplit(z, [EListBegin] + body, [EListEnd]);
    FitSplit(z, [EListBegin], body);
  }

  lemma DictBodyFits(z: Zip, es: seq<Pair>)
    requires Awaits(z) && WellFormed(VDict(es))
    requires LegalAll(z, Flatten(VDict(es))) && FitAll(z, Flatten(VDict(es)))
    ensures LegalAll(Push(z, FDict([], None)), FlattenPairs(es)) && FitAll(Push(z, FDict([], None)), FlattenPairs(es))
  {
    var body := FlattenPairs(es);
    assert Flatten(VDict(es)) == [EDictBegin] + body + [EDictEnd];
    hide LegalAll, Run, FitAll, Flatten, FlattenPairs, Less;
    RunOne(z, EDictBegin);
    assert [] + es == es;
    RunFlattenPairs(z, [], es);
    hide Legal, Step;
    RunConcat(z, [EDictBegin], body);
    DictCloses(z, es);
    RunOne(Push(z, FDict(es, None)), EDictEnd);
    FitSplit(z, [EDictBegin] + body, [EDictEnd]);
    FitSplit(z, [EDictBegin], body);
  }

  lemma FirstFits(z: Zip, v: Value)
    requires Awaits(z) && LegalAll(z, Flatten(v)) && FitAll(z, Flatten(v))
    ensures HasRoom(z)
  {
    hide HasRoom, Step;
    assert Flatten(v)[0] in {EListBegin, EDictBegin} || v.VInt? || v.VStr?;
  }

  lemma {:induction false} FitsOnlyCompactAll(z: Zip, done: seq<Value>, vs: seq<Value>)
    requires |done| <= MAX_ITEMS && (forall i :: 0 <= i < |vs| ==> WellFormed(vs[i]))
    requires LegalAll(Push(z, FList(done)), FlattenAll(vs)) && FitAll(Push(z, FList(done)), FlattenAll(vs))
    ensures |done| + |vs| <= MAX_ITEMS && forall i :: 0 <= i < |vs| ==> Compact(vs[i])
    decreases vs, 0
  {
    hide LegalAll, Run, FitAll, Flatten, WellFormed, Compact;
    if vs != [] {
      var z1 := Push(z, FList(done));
      PushedList(z, done, vs[0]);
      RunFlatten(z1, vs[0]);
      RunFlattenAll(z, done + [vs[0]], vs[1..]);
      FitSplit(z1, Flatten(vs[0]), FlattenAll(vs[1..]));
      FitsOnlyCompact(z1, vs[0]);
      FitsOnlyCompactAll(z, done + [vs[0]], vs[1..]);
    }
  }

  lemma {:induction false} FitsOnlyCompactPairs(z: Zip, done: seq<Pair>, es: seq<Pair>)
    requires |done| <= MAX_ENTRIES && Sorted(done + es) && (forall i :: 0 <= i < |es| ==> WellFormed(es[i].val))
    requires LegalAll(Push(z, FDict(done, None)), FlattenPairs(es))
    requires FitAll(Push(z, FDict(done, None)), FlattenPairs(es))
    ensures |done| + |es| <= MAX_ENTRIES && forall i :: 0 <= i < |es| ==> Compact(es[i].val)
    decreases es, 0
  {
    hide LegalAll, Run, FitAll, Flatten, WellFormed, Compact, Less;
    if es != [] {
      var key, v := es[0].key, es[0].val;
      var z1, z2 := Push(z, FDict(done, None)), Push(z, FDict(done, Some(key)));
      if done != [] {
        assert (done + es)[|done|-1] == done[|done|-1] && (done + es)[|done|] == es[0];
      }
      KeyHolds(z, done, key);
      RunOne(z1, EStr(key));
      PushedEntry(z, done, key, v);
      RunFlatten(z2, v);
      assert done + [es[0]] + es[1..] == done + es;
      RunFlattenPairs(z, done + [es[0]], es[1..]);
      RunConcat(z1, [EStr(key)], Flatten(v));
      FitSplit(z1, [EStr(key)] + Flatten(v), FlattenPairs(es[1..]));
      FitSplit(z1, [EStr(key)], Flatten(v));
      FitsOnlyCompact(z2, v);
      FitsOnlyCompactPairs(z, done + [es[0]], es[1..]);
    }
  }

  // ---- What operations ask of the allocator ----

  /** A deep copy: the node, and then for a string its bytes, for a list each item
      followed by the growth of the array, for a dictionary each value followed by
      its key and the growth of the array. */
  function ClonePlan(v: Value): seq<nat>
    decreases v
  {
    match v
    case VInt(_) => [NODE_SIZE]
    case VStr(b) => StringPlan(b)
    case VList(vs) => [NODE_SIZE] + ItemsPlan(vs, 0)
    case VDict(es) => [NODE_SIZE] + EntriesPlan(es, 0)
  }

  lemma CopyUnfolds(vs: seq<Value>, es: seq<Pair>)
    ensures ClonePlan(VList(vs)) == [40] + ItemsPlan(vs, 0)
    ensures ClonePlan(VDict(es)) == [40] + EntriesPlan(es, 0)
    ensures forall k :: ItemsPlan([], k) == EntriesPlan([], k) == []
  {
    hide GrowPlan;
  }

  /** The items `vs`, after `k` others. */
  function ItemsPlan(vs: seq<Value>, k: nat): seq<nat>
    decreases vs
  {
    if vs == [] then []
    else ClonePlan(vs[0]) + GrowPlan(k, POINTER_SIZE) + ItemsPlan(vs[1..], k + 1)
  }

  function EntriesPlan(es: seq<Pair>, k: nat): seq<nat>
    decreases es
  {
    if es == [] then []
    else ClonePlan(es[0].val) + SetPlan(es[0].key, k) + EntriesPlan(es[1..], k + 1)
  }

  /** A new key in a dictionary of `k` entries. */
  function SetPlan(key: Bytes, k: nat): seq<nat> {
    KeyPlan(key) + GrowPlan(k, ENTRY_SIZE)
  }

  /** Attaching a value to the innermost container, whose pending key is used. */
  function AttachPlan(z: Zip): seq<nat> {
    if z.stack == [] then []
    else
      match Top(z)
      case FList(items) => GrowPlan(|items|, POINTER_SIZE)
      case FDict(pairs, key) => if key.Some? then SetPlan(key.value, |pairs|) else []
  }

  /** One event of a parse into a tree. */
  function EventPlan(z: Zip, e: Event): seq<nat> {
    if Attaches(z, e) then [NODE_SIZE] + AttachPlan(z) else []
  }

  /** A run of events, up to the first that meets a full container. */
  function RunPlan(z: Zip, evs: seq<Event>): seq<nat>
    requires LegalAll(z, evs)
    decreases |evs|
  {
    if evs == [] then []
    else EventPlan(z, evs[0]) + (if Fits(z, evs[0]) then RunPlan(Step(z, evs[0]), evs[1..]) else [])
  }

  lemma {:induction false} LegalSplit(z: Zip, a: seq<Event>, b: seq<Event>)
    requires LegalAll(z, a + b)
    ensures LegalAll(z, a) && LegalAll(Run(z, a), b)
    decreases |a|
  {
    hide Legal, Step;
    if a == [] {
      assert a + b == b;
    } else {
      assert (a + b)[1..] == a[1..] + b;
      LegalSplit(Step(z, a[0]), a[1..], b);
    }
  }

  lemma RunPlanSnoc(z: Zip, evs: seq<Event>, e: Event)
    requires LegalAll(z, evs) && Legal(Run(z, evs), e) && LegalAll(z, evs + [e]) && FitAll(z, evs)
    ensures RunPlan(z, evs + [e]) == RunPlan(z, evs) + EventPlan(Run(z, evs), e)
  {
    hide Legal, Step, EventPlan, Run;
    var z1 := Run(z, evs);
    RunOne(z1, e);
    RunPlanConcat(z, evs, [e]);
    assert [e][1..] == [];
    assert EventPlan(z1, e) + [] == EventPlan(z1, e);
  }

  /** The plan of a run is the plan of its beginning and of the rest, if no event of
      the beginning meets a full container; otherwise the rest adds nothing. */
  lemma {:induction false} RunPlanConcat(z: Zip, a: seq<Event>, b: seq<Event>)
    requires LegalAll(z, a) && LegalAll(Run(z, a), b) && LegalAll(z, a + b)
    ensures RunPlan(z, a + b) == if FitAll(z, a) then RunPlan(z, a) + RunPlan(Run(z, a), b) else RunPlan(z, a)
    decreases |a|
  {
    hide Legal, Step, Fits, EventPlan;
    if a == [] {
      assert a + b == b;
    } else {
      assert (a + b)[1..] == a[1..] + b;
      RunPlanConcat(Step(z, a[0]), a[1..], b);
    }
  }
}
