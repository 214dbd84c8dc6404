/** The state that a sequence of parser events leads to: the containers that are
    open, each with what it holds so far, and the finished value if any. It is
    what the tree builder's stack stands for. */
module Zipper {
  import opened Bytes
  import opened Values

  /** An open container. In a dictionary, `key` is the key whose value is due
      (or is being built one level up). */
  datatype Frame =
    | FList(items: seq<Value>)
    | FDict(pairs: seq<Pair>, key: Option<Bytes>)

  /** Open containers, outermost first. */
  datatype Zip = Zip(root: Option<Value>, stack: seq<Frame>)

  const Start: Zip := Zip(None, [])

  function Top(z: Zip): Frame
    requires z.stack != []
  {
    z.stack[|z.stack|-1]
  }

  function Below(z: Zip): seq<Frame>
    requires z.stack != []
  {
    z.stack[..|z.stack|-1]
  }

  function Push(z: Zip, f: Frame): Zip {
    Zip(z.root, z.stack + [f])
  }

  function Pop(z: Zip): Zip
    requires z.stack != []
  {
    Zip(z.root, Below(z))
  }

  function Width(f: Frame): nat {
    match f
    case FList(items) => |items|
    case FDict(pairs, _) => |pairs|
  }

  /** The most recent key of a dictionary, which the next key must exceed. */
  function LastKey(f: Frame): Option<Bytes> {
    match f
    case FList(_) => None
    case FDict(pairs, key) =>
      if key.Some? then key
      else if pairs != [] then Some(pairs[|pairs|-1].key)
      else None
  }

  /** A complete value may come next. */
  predicate Awaits(z: Zip) {
    if z.stack == [] then z.root.None?
    else Top(z).FList? || Top(z).key.Some?
  }

  /** A key may come next. */
  predicate AwaitsKey(z: Zip) {
    z.stack != [] && Top(z).FDict? && Top(z).key.None?
  }

  /** A whole value has been read; no event may follow. */
  predicate Finished(z: Zip) {
    z.stack == [] && z.root.Some?
  }

  /** Put a finished value where it is due. */
  function Deliver(z: Zip, v: Value): Zip
    requires Awaits(z)
  {
    if z.stack == [] then Zip(Some(v), [])
    else
      match Top(z)
      case FList(items) => Zip(z.root, Below(z) + [FList(items + [v])])
      case FDict(pairs, key) => Zip(z.root, Below(z) + [FDict(pairs + [Pair(key.value, v)], None)])
  }

  /** Remember a key. */
  function Hold(z: Zip, key: Bytes): Zip
    requires AwaitsKey(z)
  {
    Zip(z.root, Below(z) + [FDict(Top(z).pairs, Some(key))])
  }

  /** The event makes sense in this state: containers nest and close in order,
      keys alternate with values, and keys increase. */
  predicate Legal(z: Zip, e: Event) {
    match e
    case EInt(_) => Awaits(z)
    case EStr(b) =>
      if AwaitsKey(z) then LastKey(Top(z)).Some? ==> Less(LastKey(Top(z)).value, b)
      else Awaits(z)
    case EListBegin => Awaits(z)
    case EDictBegin => Awaits(z)
    case EListEnd => z.stack != [] && Top(z).FList? && Awaits(Pop(z))
    case EDictEnd => AwaitsKey(z) && Awaits(Pop(z))
  }

  function Step(z: Zip, e: Event): Zip
    requires Legal(z, e)
  {
    match e
    case EInt(i) => Deliver(z, VInt(i))
    case EStr(b) => if AwaitsKey(z) then Hold(z, b) else Deliver(z, VStr(b))
    case EListBegin => Push(z, FList([]))
    case EDictBegin => Push(z, FDict([], None))
    case EListEnd => Deliver(Pop(z), VList(Top(z).items))
    case EDictEnd => Deliver(Pop(z), VDict(Top(z).pairs))
  }

  /** Every event of the sequence makes sense in turn. */
  predicate LegalAll(z: Zip, evs: seq<Event>)
    decreases |evs|
  {
    evs == [] || (Legal(z, evs[0]) && LegalAll(Step(z, evs[0]), evs[1..]))
  }

  function Run(z: Zip, evs: seq<Event>): Zip
    requires LegalAll(z, evs)
    decreases |evs|
  {
    if evs == [] then z else Run(Step(z, evs[0]), evs[1..])
  }

  // ---- Filling and closing a container ----

  lemma NothingAfterEnd(z: Zip, e: Event)
    requires Finished(z)
    ensures !Legal(z, e)
  {
  }

  lemma IntDelivers(z: Zip, i: int)
    requires Awaits(z)
    ensures Legal(z, EInt(i)) && Step(z, EInt(i)) == Deliver(z, VInt(i))
  {
  }

  lemma Opens(z: Zip)
    requires Awaits(z)
    ensures Legal(z, EListBegin) && Step(z, EListBegin) == Push(z, FList([]))
    ensures Legal(z, EDictBegin) && Step(z, EDictBegin) == Push(z, FDict([], None))
  {
  }

  lemma StringDelivers(z: Zip, b: Bytes)
    requires Awaits(z)
    ensures Legal(z, EStr(b)) && Step(z, EStr(b)) == Deliver(z, VStr(b))
  {
  }

  lemma PushedList(z0: Zip, vals: seq<Value>, v: Value)
    ensures Awaits(Push(z0, FList(vals)))
    ensures Deliver(Push(z0, FList(vals)), v) == Push(z0, FList(vals + [v]))
    ensures Pop(Push(z0, FList(vals))) == z0 && Top(Push(z0, FList(vals))) == FList(vals)
  {
  }

  lemma ListCloses(z0: Zip, vals: seq<Value>)
    requires Awaits(z0)
    ensures Legal(Push(z0, FList(vals)), EListEnd)
    ensures Step(Push(z0, FList(vals)), EListEnd) == Deliver(z0, VList(vals))
  {
    PushedList(z0, vals, VInt(0));
  }

  lemma KeyHolds(z0: Zip, pairs: seq<Pair>, key: Bytes)
    requires var last := LastKey(FDict(pairs, None)); last.Some? ==> Less(last.value, key)
    ensures Legal(Push(z0, FDict(pairs, None)), EStr(key))
    ensures Step(Push(z0, FDict(pairs, None)), EStr(key)) == Push(z0, FDict(pairs, Some(key)))
  {
    hide Less;
  }

  lemma LastOf(pairs: seq<Pair>, pair: Pair)
    ensures LastKey(FDict(pairs + [pair], None)) == Some(pair.key)
  {
  }

  lemma PushedEntry(z0: Zip, pairs: seq<Pair>, key: Bytes, v: Value)
    ensures Awaits(Push(z0, FDict(pairs, Some(key))))
    ensures Deliver(Push(z0, FDict(pairs, Some(key))), v) == Push(z0, FDict(pairs + [Pair(key, v)], None))
  {
  }

  lemma DictCloses(z0: Zip, pairs: seq<Pair>)
    requires Awaits(z0)
    ensures Legal(Push(z0, FDict(pairs, None)), EDictEnd)
    ensures Step(Push(z0, FDict(pairs, None)), EDictEnd) == Deliver(z0, VDict(pairs))
  {
    assert Pop(Push(z0, FDict(pairs, None))) == z0;
  }

  // ---- Invariants of the state ----

  /** Keys of a dictionary increase, up to and including the key held. */
  ghost predicate WellFrame(f: Frame) {
    f.FDict? ==>
      && Sorted(f.pairs)
      && (f.key.Some? ==> forall i :: 0 <= i < |f.pairs| ==> Less(f.pairs[i].key, f.key.value))
  }

  /** Open containers wait for the one above them, and their keys are sorted. */
  ghost predicate WellZip(z: Zip) {
    && (z.stack != [] ==> z.root.None?)
    && (forall k :: 0 <= k < |z.stack| ==> WellFrame(z.stack[k]))
    && (forall k :: 0 <= k < |z.stack| - 1 ==> z.stack[k].FList? || z.stack[k].key.Some?)
  }

  /** A key that exceeds the last one exceeds them all. */
  lemma KeyExceedsAll(f: Frame, key: Bytes)
    requires WellFrame(f) && f.FDict? && f.key.None?
    requires LastKey(f).Some? ==> Less(LastKey(f).value, key)
    ensures forall i :: 0 <= i < |f.pairs| ==> Less(f.pairs[i].key, key)
  {
    hide Less;
    var last := |f.pairs| - 1;
    forall i | 0 <= i < |f.pairs| ensures Less(f.pairs[i].key, key) {
      if i < last {
        LessTransitive(f.pairs[i].key, f.pairs[last].key, key);
      }
    }
  }

  lemma DeliverWell(z: Zip, v: Value)
    requires WellZip(z) && Awaits(z)
    ensures WellZip(Deliver(z, v))
  {
    hide Less;
  }

  lemma StepWell(z: Zip, e: Event)
    requires WellZip(z) && Legal(z, e)
    ensures WellZip(Step(z, e))
  {
    hide Less, LastKey, WellZip;
    match e
    case EInt(i) => DeliverWell(z, VInt(i));
    case EStr(b) =>
      if AwaitsKey(z) {
        PopWell(z);
        KeyExceedsAll(Top(z), b);
        HoldWell(z, b);
      } else {
        DeliverWell(z, VStr(b));
      }
    case EListBegin => PushWell(z, FList([]));
    case EDictBegin => PushWell(z, FDict([], None));
    case EListEnd =>
      PopWell(z);
      DeliverWell(Pop(z), VList(Top(z).items));
    case EDictEnd =>
      PopWell(z);
      DeliverWell(Pop(z), VDict(Top(z).pairs));
  }

  /** The invariant holds after any legal run. */
  lemma {:induction false} RunWell(z: Zip, evs: seq<Event>)
    requires WellZip(z) && LegalAll(z, evs)
    ensures WellZip(Run(z, evs))
    decreases |evs|
  {
    hide WellZip, Legal, Step;
    if evs != [] {
      StepWell(z, evs[0]);
      RunWell(Step(z, evs[0]), evs[1..]);
    }
  }

  lemma PopWell(z: Zip)
    requires WellZip(z) && z.stack != []
    ensures WellZip(Pop(z)) && WellFrame(Top(z))
  {
    hide Less, WellFrame;
  }

  lemma HoldWell(z: Zip, key: Bytes)
    requires WellZip(z) && AwaitsKey(z)
    requires forall i :: 0 <= i < |Top(z).pairs| ==> Less(Top(z).pairs[i].key, key)
    ensures WellZip(Hold(z, key))
  {
    hide Less;
  }

  lemma PushWell(z: Zip, f: Frame)
    requires WellZip(z) && Awaits(z) && WellFrame(f)
    ensures WellZip(Push(z, f))
  {
    hide Less, WellFrame;
  }

  // ---- Flatten is inverted by running its events ----

  lemma {:induction false} RunConcat(z: Zip, a: seq<Event>, b: seq<Event>)
    requires LegalAll(z, a) && LegalAll(Run(z, a), b)
    ensures LegalAll(z, a + b) && Run(z, a + b) == Run(Run(z, a), b)
    decreases |a|
  {
    hide Legal, Step;
    if a == [] {
      assert a + b == b;
    } else {
      assert (a + b)[1..] == a[1..] + b;
      RunConcat(Step(z, a[0]), a[1..], b);
    }
  }

  lemma RunOne(z: Zip, e: Event)
    requires Legal(z, e)
    ensures LegalAll(z, [e]) && Run(z, [e]) == Step(z, e)
  {
    hide Legal, Step;
    assert [e][1..] == [];
    assert LegalAll(Step(z, e), []);
  }

  /** The events of a well-formed value, from any state that awaits a value,
      are legal and deliver exactly that value. */
  lemma {:induction false} RunFlatten(z: Zip, v: Value)
    requires Awaits(z) && WellFormed(v)
    ensures LegalAll(z, Flatten(v)) && Run(z, Flatten(v)) == Deliver(z, v)
    decreases v, 1
  {
    hide LegalAll, Run, Less, Legal, Step, Deliver, Awaits;
    Opens(z);
    match v
    case VInt(i) =>
      IntDelivers(z, i);
      RunOne(z, EInt(i));
    case VStr(b) =>
      StringDelivers(z, b);
      RunOne(z, EStr(b));
    case VList(vs) =>
      RunFlattenAll(z, [], vs);
      assert [] + vs == vs;
      ListCloses(z, vs);
      RunBracket(z, EListBegin, FlattenAll(vs), EListEnd);
    case VDict(es) =>
      RunFlattenPairs(z, [], es);
      assert [] + es == es;
      DictCloses(z, es);
      RunBracket(z, EDictBegin, FlattenPairs(es), EDictEnd);
  }

  /** An opening event, a body, and a closing event. */
  lemma RunBracket(z: Zip, open: Event, body: seq<Event>, close: Event)
    requires Legal(z, open) && LegalAll(Step(z, open), body) && Legal(Run(Step(z, open), body), close)
    ensures LegalAll(z, [open] + body + [close])
    ensures Run(z, [open] + body + [close]) == Step(Run(Step(z, open), body), close)
  {
    hide LegalAll, Run, Legal, Step;
    RunOne(z, open);
    RunConcat(z, [open], body);
    RunOne(Run(Step(z, open), body), close);
    RunConcat(z, [open] + body, [close]);
  }

  lemma {:induction false} RunFlattenAll(z: Zip, done: seq<Value>, vs: seq<Value>)
    requires forall i :: 0 <= i < |vs| ==> WellFormed(vs[i])
    ensures LegalAll(Push(z, FList(done)), FlattenAll(vs))
    ensures Run(Push(z, FList(done)), FlattenAll(vs)) == Push(z, FList(done + vs))
    decreases vs, 0
  {
    hide Flatten, WellFormed;
    var z1 := Push(z, FList(done));
    if vs == [] {
      assert done + vs == done;
    } else {
      hide LegalAll, Run;
      RunFlatten(z1, vs[0]);
      assert Deliver(z1, vs[0]) == Push(z, FList(done + [vs[0]]));
      RunFlattenAll(z, done + [vs[0]], vs[1..]);
      RunConcat(z1, Flatten(vs[0]), FlattenAll(vs[1..]));
      assert done + [vs[0]] + vs[1..] == done + vs;
    }
  }

  lemma {:induction false} RunFlattenPairs(z: Zip, done: seq<Pair>, es: seq<Pair>)
    requires Sorted(done + es)
    requires forall i :: 0 <= i < |es| ==> WellFormed(es[i].val)
    ensures LegalAll(Push(z, FDict(done, None)), FlattenPairs(es))
    ensures Run(Push(z, FDict(done, None)), FlattenPairs(es)) == Push(z, FDict(done + es, None))
    decreases es, 0
  {
    hide Flatten, WellFormed, Less;
    var z1 := Push(z, FDict(done, None));
    if es == [] {
      assert done + es == done;
    } else {
      hide LegalAll, Run;
      var key, v := es[0].key, es[0].val;
      var z2 := Push(z, FDict(done, Some(key)));
      if done != [] {
        assert (done + es)[|done|-1] == done[|done|-1] && (done + es)[|done|] == es[0];
      }
      RunOne(z1, EStr(key));
      assert Step(z1, EStr(key)) == z2;
      RunFlatten(z2, v);
      assert Deliver(z2, v) == Push(z, FDict(done + [es[0]], None));
      assert done + [es[0]] + es[1..] == done + es;
      RunFlattenPairs(z, done + [es[0]], es[1..]);
      RunConcat(z1, [EStr(key)], Flatten(v));
      RunConcat(z1, [EStr(key)] + Flatten(v), FlattenPairs(es[1..]));
    }
  }

  /** Two well-formed values with the same events are the same value. */
  lemma FlattenInjective(v: Value, w: Value)
    requires WellFormed(v) && WellFormed(w) && Flatten(v) == Flatten(w)
    ensures v == w
  {
    hide Flatten, WellFormed;
    RunFlatten(Start, v);
    RunFlatten(Start, w);
  }
}
