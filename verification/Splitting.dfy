/** Reading a buffer of concatenated values through the tree parser: the loop that
    a caller writes around `bencode_parse` with trailing bytes allowed. */
module Splitting {
  import opened Bytes
  import opened Values
  import opened Decoder
  import opened Streams
  import opened Zipper
  import opened Capacity
  import opened Spelling
  import opened Memory
  import opened Tree
  import opened Builders
  import opened Cloning
  import opened Parsing

  /** Complete trees from `a`, no two of which share a block. */
  ghost predicate Forest(a: Allocator, nodes: seq<Node>, ts: seq<Shape>)
    reads KidsOwned(ts), KidsBorrowed(ts)
  {
    && |nodes| == |ts|
    && (forall i :: 0 <= i < |ts| ==> ts[i].node == nodes[i] && nodes[i].alloc == a && Rep(a, ts[i]) && Separate(ts[i]))
    && (forall i, j :: 0 <= i < j < |ts| ==> Owned(ts[i]) !! Owned(ts[j]))
  }

  lemma ForestAllocated(ts: seq<Shape>)
    ensures allocated(KidsOwned(ts)) && allocated(KidsBorrowed(ts))
  {
    hide Owned, Borrowed;
    forall i | 0 <= i < |ts| ensures allocated(Owned(ts[i])) && allocated(Borrowed(ts[i])) {
      FootprintAllocated(ts[i]);
    }
  }

  lemma ForestSnoc(a: Allocator, nodes: seq<Node>, ts: seq<Shape>, t: Shape)
    requires Forest(a, nodes, ts) && Owns(a, t) && KidsOwned(ts) !! Owned(t)
    ensures Forest(a, nodes + [t.node], ts + [t])
    ensures KidsOwned(ts + [t]) == KidsOwned(ts) + Owned(t)
    ensures KidsBorrowed(ts + [t]) == KidsBorrowed(ts) + Borrowed(t)
  {
    hide Rep, Separate, Owned, Borrowed;
    KidsOwnedSnoc(ts, t);
    KidsInside(ts);
  }

  /** Free every tree of the list. */
  method FreeAll(nodes: seq<Node>, a: Allocator, ghost ts: seq<Shape>)
    requires a.Valid() && Forest(a, nodes, ts) && KidsOwned(ts) <= a.live
    modifies a
    ensures a.Valid() && a.live == old(a.live) - KidsOwned(ts) && a.Quiet()
  {
    hide Rep, Separate, Owned, Borrowed;
    ForestAllocated(ts);
    var i := 0;
    assert ts[..0] == [];
    while i < |nodes|
      invariant i <= |ts| && a.Valid() && Forest(a, nodes, ts)
      invariant a.live == old(a.live) - KidsOwned(ts[..i]) && a.Quiet()
    {
      KidsApart(ts, i);
      KidsOwnedTake(ts, i);
      NoneAllocator(a, ts);
      Free(nodes[i], ts[i]);
      i := i + 1;
    }
    assert ts[..i] == ts;
  }

  lemma NoneAllocator(a: Allocator, ts: seq<Shape>)
    ensures a !in KidsOwned(ts)
  {
    hide Owned, Borrowed;
    forall i | 0 <= i < |ts| ensures a !in Owned(ts[i]) {
      NotInTree(a, ts[i]);
    }
  }

  /** Splitting `s` comes down to splitting what is left at `pos`. */
  ghost predicate SplitsFrom(s: Bytes, maxDepth: nat, done: seq<Value>, pos: nat)
    requires pos <= |s|
  {
    Split(s, maxDepth) == match Split(s[pos..], maxDepth)
                          case None => None
                          case Some(vs) => Some(done + vs)
  }

  lemma SplitStep(s: Bytes, maxDepth: nat, done: seq<Value>, pos: nat)
    requires pos < |s| && SplitsFrom(s, maxDepth, done, pos)
    ensures var r := Decode(s[pos..], maxDepth);
            if r.path.st == Ok then SplitsFrom(s, maxDepth, done + [r.val], pos + r.path.pos)
            else Split(s, maxDepth) == None
  {
    hide ValueAt;
    var r := Decode(s[pos..], maxDepth);
    if r.path.st == Ok {
      var q := pos + r.path.pos;
      assert s[pos..][r.path.pos..] == s[q..];
      if Split(s[q..], maxDepth).Some? {
        var vs := Split(s[q..], maxDepth).value;
        assert done + ([r.val] + vs) == done + [r.val] + vs;
      }
    }
  }

  /** All values of the buffer, in order: the trees denote exactly what the buffer
      splits into, or some parse failed and every block has been given back. */
  method SplitBuffer(input: array<byte>, size: nat, maxDepth: nat, a: Allocator)
    returns (st: Status, nodes: seq<Node>, ghost ts: seq<Shape>)
    requires a.Valid() && size <= input.Length <= SIZE_MAX
    modifies a
    ensures a.Valid()
    ensures st == Ok ==>
              && Forest(a, nodes, ts) && Split(input[..size], maxDepth) == Some(DenKids(ts))
              && KidsBorrowed(ts) <= {input}
              && fresh(KidsOwned(ts)) && a.live == old(a.live) + KidsOwned(ts)
    ensures st != Ok ==> nodes == [] && a.live == old(a.live)
    ensures st !in {Ok, NoMem} ==> Split(input[..size], maxDepth) == None
    ensures a.Asked(st != NoMem)
    ensures st == NoMem <==> !a.Granted() || !AllRoomy(input[..size], maxDepth)
    ensures a.Granted() && size <= MAX_ENTRIES ==> (st == Ok <==> Split(input[..size], maxDepth).Some?)
    ensures a.Asks(SplitPlan(input[..size], maxDepth))
  {
    hide Allocator.NeverRefuses;
    hide Events, FitAll;
    hide Rep, Separate, Owned, Borrowed, ValueAt, Split, AllRoomy, Roomy, Den, KidsOwned, KidsBorrowed;
    hide LegalAll, RunPlan, SplitPlan, Ran, Decode;
    NoKids();
    ghost var s := input[..size];
    ghost var asked, refused := a.asked, a.refused;
    ghost var plan: seq<nat> := [];
    RanNone(a.answers, asked, refused);
    nodes, ts := [], [];
    var pos := 0;
    assert DenKids([]) == [] && s[0..] == s;
    NoneLeft(s, maxDepth);
    if size <= MAX_ENTRIES {
      SmallSplitsAreRoomy(s, maxDepth);
    }
    while pos < size
      invariant pos <= size && a.Valid() && Forest(a, nodes, ts) && KidsBorrowed(ts) <= {input}
      invariant fresh(KidsOwned(ts)) && a.live == old(a.live) + KidsOwned(ts)
      invariant SplitsFrom(s, maxDepth, DenKids(ts), pos)
      invariant a.Granted() && (AllRoomy(s, maxDepth) <==> AllRoomy(s[pos..], maxDepth))
      invariant Ran(a.answers, asked, refused, plan, a.asked, a.refused)
      invariant SplitPlan(s, maxDepth) == plan + SplitPlan(s[pos..], maxDepth)
      decreases size - pos
    {
      ForestAllocated(ts);
      NoneAllocator(a, ts);
      SplitStep(s, maxDepth, DenKids(ts), pos);
      RoomyStep(s, maxDepth, pos);
      SplitPlanStep(s, maxDepth, pos, plan);
      ghost var asked1, refused1 := a.asked, a.refused;
      ghost var turn := RunPlan(Start, Events(Decode(s[pos..], maxDepth).path.trace));
      assert s[pos..] == input[pos..pos+(size-pos)];
      var value, consumed;
      ghost var t;
      st, value, consumed, t := Parse(input, pos, size - pos, maxDepth, true, a);
      RanThen(a.answers, asked, refused, plan, asked1, refused1, turn, a.asked, a.refused);
      if st != Ok {
        ghost var more := TurnsLeft(s[pos..], maxDepth);
        RanEither(a.answers, asked, refused, plan + turn, a.asked, a.refused, more);
        FreeAll(nodes, a, ts);
        return st, [], [];
      }
      ForestSnoc(a, nodes, ts, t.value);
      SnocDenotes(ts, t.value);
      nodes, ts := nodes + [value], ts + [t.value];
      plan := plan + turn;
      pos := pos + consumed;
    }
    assert s[pos..] == [];
    NoneLeft(s[pos..], maxDepth);
    assert DenKids(ts) + [] == DenKids(ts) && plan + [] == plan;
    return Ok, nodes, ts;
  }

  /** What the parses of the loop ask for, one after the other, up to the first that
      fails or meets a full container. */
  ghost function SplitPlan(s: Bytes, maxDepth: nat): seq<nat>
    decreases |s|, 1
  {
    if s == [] then []
    else
      RunSpells(s, maxDepth);
      RunPlan(Start, Events(Decode(s, maxDepth).path.trace)) + TurnsLeft(s, maxDepth)
  }

  ghost function TurnsLeft(s: Bytes, maxDepth: nat): seq<nat>
    requires s != []
    decreases |s|, 0
  {
    var path := Decode(s, maxDepth).path;
    if path.st == Ok && Roomy(s, maxDepth) then SplitPlan(s[path.pos..], maxDepth) else []
  }

  lemma SplitPlanStep(s: Bytes, maxDepth: nat, pos: nat, plan: seq<nat>)
    requires pos < |s|
    ensures var path := Decode(s[pos..], maxDepth).path;
            && LegalAll(Start, Events(path.trace)) && path.pos <= |s| - pos && (path.st == Ok ==> path.pos > 0)
            && plan + SplitPlan(s[pos..], maxDepth)
               == plan + RunPlan(Start, Events(path.trace)) + TurnsLeft(s[pos..], maxDepth)
            && TurnsLeft(s[pos..], maxDepth)
               == if path.st == Ok && Roomy(s[pos..], maxDepth) then SplitPlan(s[pos+path.pos..], maxDepth) else []
  {
    hide ValueAt, Roomy, LegalAll, RunPlan;
    RunSpells(s[pos..], maxDepth);
    var path := Decode(s[pos..], maxDepth).path;
    assert s[pos..][path.pos..] == s[pos+path.pos..];
  }

  /** No parse of the loop meets a full container. */
  ghost predicate AllRoomy(s: Bytes, maxDepth: nat)
    decreases |s|
  {
    s == [] ||
    (&& Roomy(s, maxDepth)
     && (Decode(s, maxDepth).path.st == Ok ==> AllRoomy(s[Decode(s, maxDepth).path.pos..], maxDepth)))
  }

  lemma RoomyStep(s: Bytes, maxDepth: nat, pos: nat)
    requires pos < |s|
    ensures var path := Decode(s[pos..], maxDepth).path;
            && path.pos <= |s| - pos
            && (AllRoomy(s[pos..], maxDepth) <==>
                  && Roomy(s[pos..], maxDepth)
                  && (path.st == Ok ==> AllRoomy(s[pos+path.pos..], maxDepth)))
  {
    hide ValueAt, Roomy;
    var path := Decode(s[pos..], maxDepth).path;
    assert s[pos..][path.pos..] == s[pos+path.pos..];
  }

  lemma {:induction false} SmallSplitsAreRoomy(s: Bytes, maxDepth: nat)
    requires |s| <= MAX_ENTRIES
    ensures AllRoomy(s, maxDepth)
    decreases |s|
  {
    hide ValueAt, Roomy;
    if s != [] {
      SmallInputsAreRoomy(s, maxDepth);
      var path := Decode(s, maxDepth).path;
      if path.st == Ok {
        SmallSplitsAreRoomy(s[path.pos..], maxDepth);
      }
    }
  }

  lemma NoKids()
    ensures KidsOwned([]) == {} && KidsBorrowed([]) == {}
  {
  }

  lemma NoneLeft(s: Bytes, maxDepth: nat)
    ensures s == [] ==> Split(s, maxDepth) == Some([]) && AllRoomy(s, maxDepth) && SplitPlan(s, maxDepth) == []
    ensures match Split(s, maxDepth) case None => true case Some(vs) => [] + vs == vs
  {
  }
}
