/** Decoding and encoding together, end to end over the heap. */
module Codec {
  import opened Bytes
  import opened Values
  import opened Decoder
  import opened Grammar
  import opened Memory
  import opened Tree
  import opened Builders
  import opened Cloning
  import opened Zipper
  import opened Capacity
  import opened Spelling
  import opened Parsing
  import opened Chunks
  import opened Emit

  /** `bencode_emit` with the caller's sink: it receives the chunks of the value in
      order, up to the first that it refuses. No chunk is empty; those accepted
      before a refusal spell a proper prefix of the encoding, and without a refusal
      the whole of it. */
  method EmitWith(v: Node, answer: seq<Bytes> -> Status, ghost t: Shape)
    returns (st: Status, chunks: seq<Bytes>)
    requires t.node == v && Rep(v.alloc, t) && WellFormed(Den(t))
    ensures chunks != [] && st == answer(chunks)
    ensures if st == Ok then chunks == ChunksOf(Den(t)) else chunks <= ChunksOf(Den(t))
    ensures forall c :: c in chunks ==> c != []
    ensures forall k :: 0 < k < |chunks| ==> answer(chunks[..k]) == Ok
    ensures if st == Ok then Flat(chunks) == Encode(Den(t)) else Flat(chunks[..|chunks|-1]) < Encode(Den(t))
  {
    hide Footprint, Rep, Owned, Borrowed, WellFormed, Encode, Flat, Den, ChunksOf;
    FootprintAllocated(t);
    var sink := new Sink.User(answer);
    st := EmitValue(v, sink, t);
    chunks := sink.chunks;
    ghost var plan := ChunksOf(Den(t));
    assert [] + plan == plan;
    FlatChunks(Den(t));
    SomeChunk(Den(t));
    FlatShort(chunks, plan);
  }

  /** What the buffer has asked for when it is done or has failed is what the plan
      of all the chunks says. */
  lemma PlanOnChunks(a: Allocator, asked0: seq<nat>, refused0: nat, sent: seq<Bytes>, plan: seq<Bytes>)
    requires sent <= plan && Ran(a.answers, asked0, refused0, BufferPlan(sent), a.asked, a.refused)
    requires sent == plan || a.refused != refused0 || |Flat(sent)| > LAST_CAP
    ensures Ran(a.answers, asked0, refused0, BufferPlan(plan), a.asked, a.refused) && refused0 <= a.refused
  {
    hide BufferPlan, Flat, AllGranted, Served;
    var p, q := BufferPlan(sent), BufferPlan(plan);
    assert plan == sent + plan[|sent|..];
    BufferPlanConcat(sent, plan[|sent|..]);
    if a.refused != refused0 {
      RanStop(a.answers, asked0, refused0, p, a.asked, a.refused, q[|p|..]);
      assert q == p + q[|p|..];
    }
  }

  /** `bencode_emit_to_alloc`: the encoding in one new block, or no block at all.
      With an allocator that never refuses, it succeeds exactly when the encoding
      fits the largest capacity that doubling reaches, 2^63. */
  method EmitToAlloc(v: Node, a: Allocator, ghost t: Shape) returns (st: Status, out: array?<byte>, len: nat)
    requires t.node == v && Rep(v.alloc, t) && WellFormed(Den(t)) && a.Valid()
    modifies a
    ensures a.Valid() && st in {Ok, NoMem}
    ensures st != Ok ==> out == null && len == 0 && a.live == old(a.live)
    ensures st == Ok ==>
              && out != null && fresh(out) && len <= out.Length <= LAST_CAP && out[..len] == Encode(Den(t))
              && a.live == old(a.live) + {out} && out !in old(a.live)
    ensures st == Ok ==> |Encode(Den(t))| <= LAST_CAP
    ensures a.Asked(st == Ok) && (st == Ok <==> a.Granted() && |Encode(Den(t))| <= LAST_CAP)
    ensures var plan := BufferPlan(ChunksOf(Den(t)));
            && a.Asks(plan)
            && (st == NoMem <==> !AllGranted(a.answers, old(a.calls), plan) || |Encode(Den(t))| > LAST_CAP)
  {
    hide Rep, Owned, Borrowed, WellFormed, Encode, Den, ChunksOf, Ran, BufferPlan, Flat;
    FootprintAllocated(t);
    NotInTree(a, t);
    var buffer := new AllocSink(a);
    var sink := new Sink.Buffered(buffer);
    st := EmitValue(v, sink, t);
    ghost var text, plan := Encode(Den(t)), ChunksOf(Den(t));
    assert [] + plan == plan;
    FlatChunks(Den(t));
    SomeChunk(Den(t));
    FlatShort(sink.chunks, plan);
    PlanOnChunks(a, buffer.askedBefore, buffer.before, sink.chunks, plan);
    a.Counted(BufferPlan(plan));
    if st != Ok {
      FreeArray(a, buffer.bytes);
      return st, null, 0;
    }
    assert |text| >= 2;
    return st, buffer.bytes, buffer.len;
  }

  /** Parse under any options, emit to any sink, free: what the sink accepts
      before its first refusal is a proper prefix of the bytes consumed, and if it
      refuses nothing, exactly those bytes. */
  method ParseThenEmit(input: array<byte>, size: nat, maxDepth: nat, allowTrailing: bool,
                       answer: seq<Bytes> -> Status, a: Allocator)
    returns (st: Status, consumed: nat, sinkSt: Status, chunks: seq<Bytes>)
    requires a.Valid() && size <= input.Length <= SIZE_MAX
    modifies a
    ensures a.Valid() && a.live == old(a.live) && consumed <= size && a.Asked(st != NoMem)
    ensures st == NoMem <==> !a.Granted() || !Roomy(input[..size], maxDepth)
    ensures var evs := Events(Decode(input[..size], maxDepth).path.trace);
            LegalAll(Start, evs) && a.Asks(RunPlan(Start, evs))
    ensures st != Ok ==> chunks == []
    ensures st == Ok ==> chunks != [] && sinkSt == answer(chunks)
    ensures var plan := ChunksOf(Decode(input[..size], maxDepth).val);
            st == Ok ==> if sinkSt == Ok then chunks == plan else chunks <= plan
    ensures st == Ok && sinkSt == Ok ==> Flat(chunks) == input[..consumed]
    ensures st == Ok && sinkSt != Ok ==> Flat(chunks[..|chunks|-1]) < input[..consumed]
  {
    hide Rep, Owned, Borrowed, WellFormed, ValueAt, Encode, Separate, Flat, Roomy, RunPlan, LegalAll, Ran, ChunksOf;
    sinkSt, chunks := Ok, [];
    var value;
    ghost var t;
    st, value, consumed, t := Parse(input, 0, size, maxDepth, allowTrailing, a);
    if st != Ok {
      return;
    }
    ValueSound(input[..size], 0, Clamp(maxDepth));
    DecodeThenEncode(input[..size], maxDepth);
    assert input[..size][..consumed] == input[..consumed];
    sinkSt, chunks := EmitWith(value, answer, t.value);
    FootprintAllocated(t.value);
    Free(value, t.value);
  }

  /** The `roundtrip` command: parse a whole document, emit it, compare. The
      mismatch answer never occurs, and every block is given back. */
  method RoundTrip(input: array<byte>, size: nat, a: Allocator) returns (st: Status, same: bool)
    requires a.Valid() && size <= input.Length <= SIZE_MAX
    modifies a
    ensures a.Valid() && a.live == old(a.live)
    ensures st == Ok ==> same
    ensures a.Asked(st != NoMem)
    ensures var path := Decode(input[..size], 0).path;
            && (st == Ok <==>
                  && a.Granted() && Roomy(input[..size], 0) && size <= LAST_CAP
                  && path.st == Ok && path.pos == size)
            && (a.Granted() && size <= MAX_ENTRIES ==> st != NoMem)
    ensures var evs := Events(Decode(input[..size], 0).path.trace);
            LegalAll(Start, evs) && a.Asks(RunPlan(Start, evs) + ComparePlan(input[..size]))
  {
    hide Den, Rep, Owned, Borrowed, WellFormed, ValueAt, Encode, Separate, Roomy, RunPlan, LegalAll, ChunksOf;
    hide Decode, Events, Allocator.NeverRefuses, BufferPlan, Ran;
    same := false;
    var value, consumed;
    ghost var t;
    ghost var asked, refused := a.asked, a.refused;
    ghost var plan := ComparePlan(input[..size]);
    st, value, consumed, t := Parse(input, 0, size, 0, false, a);
    ghost var evs := Events(Decode(input[..size], 0).path.trace);
    if st != Ok {
      RanEither(a.answers, asked, refused, RunPlan(Start, evs), a.asked, a.refused, plan);
      return;
    }
    DecodedText(input[..size], 0);
    ghost var asked1, refused1 := a.asked, a.refused;
    st, same := Compare(value, input, size, a, t.value);
    RanThen(a.answers, asked, refused, RunPlan(Start, evs), asked1, refused1, plan, a.asked, a.refused);
    FootprintAllocated(t.value);
    Free(value, t.value);
  }

  /** What is asked for once a whole document has been parsed. */
  ghost function ComparePlan(s: Bytes): seq<nat> {
    var r := Decode(s, 0);
    if Roomy(s, 0) && r.path.st == Ok && r.path.pos == |s| then BufferPlan(ChunksOf(r.val)) else []
  }

  lemma DecodedText(s: Bytes, maxDepth: nat)
    requires Decode(s, maxDepth).path.st == Ok && Decode(s, maxDepth).path.pos == |s|
    ensures WellFormed(Decode(s, maxDepth).val) && Encode(Decode(s, maxDepth).val) == s
  {
    hide ValueAt, WellFormed, Encode, Nesting;
    ValueSound(s, 0, Clamp(maxDepth));
    DecodeThenEncode(s, maxDepth);
    assert s[..|s|] == s;
  }

  /** Emit a tree that denotes the value of the input, and compare. */
  method Compare(value: Node, input: array<byte>, size: nat, a: Allocator, ghost t: Shape)
    returns (st: Status, same: bool)
    requires t.node == value && Rep(value.alloc, t) && WellFormed(Den(t)) && a.Valid()
    requires size <= input.Length && Encode(Den(t)) == input[..size]
    modifies a
    ensures a.Valid() && a.live == old(a.live) && st in {Ok, NoMem}
    ensures a.Asked(st == Ok) && (st == Ok <==> a.Granted() && size <= LAST_CAP) && (st == Ok ==> same)
    ensures a.Asks(BufferPlan(ChunksOf(Den(t))))
  {
    hide Rep, Owned, Borrowed, WellFormed, Encode, Den, ChunksOf, BufferPlan, Ran;
    var emitted, len;
    st, emitted, len := EmitToAlloc(value, a, t);
    if st != Ok {
      return st, false;
    }
    same := len == size && emitted[..len] == input[..size];
    FreeArray(a, emitted);
  }

  /** A tree emitted, put in front of any bytes, and parsed again: the parse
      consumes exactly the encoding and its tree denotes the same value. On
      success the caller owns the buffer and the new tree, which borrows from it;
      on failure every block has been given back. */
  method EmitThenParse(v: Node, rest: Bytes, allowTrailing: bool, maxDepth: nat, a: Allocator, ghost t: Shape)
    returns (st: Status, buf: array?<byte>, again: Node?, consumed: nat, ghost t2: Option<Shape>)
    requires t.node == v && Rep(v.alloc, t) && WellFormed(Den(t)) && a.Valid()
    requires (rest == [] || allowTrailing) && |Encode(Den(t))| + |rest| <= SIZE_MAX
    modifies a
    ensures a.Valid() && st in {Ok, NoMem, NestingTooDeep}
    ensures st != Ok ==> buf == null && again == null && a.live == old(a.live)
    ensures st == Ok ==>
              && buf != null && fresh(buf) && buf[..] == Encode(Den(t)) + rest
              && consumed == |Encode(Den(t))|
              && Built(a, again, t2, Den(t)) && Borrowed(t2.value) <= {buf} && buf !in Owned(t2.value)
              && fresh(Owned(t2.value)) && a.live == old(a.live) + {buf} + Owned(t2.value)
    ensures a.Asked(st != NoMem)
    ensures st == if !a.Granted() || |Encode(Den(t))| > LAST_CAP then NoMem
                  else if Nesting(Den(t)) <= Clamp(maxDepth) then Ok
                  else NestingTooDeep
    ensures a.Asks(TailPlan(Den(t), rest) + AgainPlan(Den(t), rest, maxDepth))
  {
    hide Rep, Owned, Borrowed, WellFormed, ValueAt, Encode, Separate, Nesting, Roomy;
    hide TailPlan, RunPlan, LegalAll, Ran, Events;
    RepCompact(v.alloc, t);
    EncodingRoomy(Den(t), rest, maxDepth);
    again, consumed, t2 := null, 0, None;
    ghost var text := Encode(Den(t));
    ghost var asked, refused := a.asked, a.refused;
    ghost var plan, more := TailPlan(Den(t), rest), AgainPlan(Den(t), rest, maxDepth);
    st, buf := EmitWithTail(v, rest, a, t);
    if st != Ok {
      RanEither(a.answers, asked, refused, plan, a.asked, a.refused, more);
      return;
    }
    ghost var asked1, refused1 := a.asked, a.refused;
    EncodedOutcome(Den(t), rest, maxDepth);
    if Nesting(Den(t)) <= Clamp(maxDepth) {
      EncodeThenDecode(Den(t), rest, maxDepth);
    }
    assert buf[0..0+buf.Length] == buf[..];
    st, again, consumed, t2 := Parse(buf, 0, buf.Length, maxDepth, allowTrailing, a);
    RanThen(a.answers, asked, refused, plan, asked1, refused1, more, a.asked, a.refused);
    if st != Ok {
      FreeArray(a, buf);
      buf := null;
    } else {
      assert buf[..] == text + rest;
    }
  }

  /** What parsing the emitted bytes again asks for. */
  ghost function AgainPlan(v: Value, rest: Bytes, maxDepth: nat): seq<nat> {
    var s := Encode(v) + rest;
    RunSpells(s, maxDepth);
    if |Encode(v)| > LAST_CAP then [] else RunPlan(Start, Events(Decode(s, maxDepth).path.trace))
  }

  /** What that asks for. */
  function TailPlan(v: Value, rest: Bytes): seq<nat> {
    var n := |Encode(v)|;
    BufferPlan(ChunksOf(v)) + (if n <= LAST_CAP then [n + |rest|] else [])
  }

  /** The emitted bytes with `rest` behind them, in one block. */
  method EmitWithTail(v: Node, rest: Bytes, a: Allocator, ghost t: Shape)
    returns (st: Status, buf: array?<byte>)
    requires t.node == v && Rep(v.alloc, t) && WellFormed(Den(t)) && a.Valid()
    requires |Encode(Den(t))| + |rest| <= SIZE_MAX
    modifies a
    ensures a.Valid() && st in {Ok, NoMem}
    ensures st != Ok ==> buf == null && a.live == old(a.live)
    ensures st == Ok ==>
              && buf != null && fresh(buf) && buf[..] == Encode(Den(t)) + rest
              && buf !in old(a.live) && a.live == old(a.live) + {buf}
    ensures a.Asked(st == Ok) && (st == Ok <==> a.Granted() && |Encode(Den(t))| <= LAST_CAP)
    ensures a.Asks(TailPlan(Den(t), rest))
  {
    hide Rep, Owned, Borrowed, WellFormed, Encode, BufferPlan, ChunksOf, Ran;
    buf := null;
    var bytes, len;
    ghost var asked, refused, plan := a.asked, a.refused, BufferPlan(ChunksOf(Den(t)));
    st, bytes, len := EmitToAlloc(v, a, t);
    ghost var size := |Encode(Den(t))| + |rest|;
    if st != Ok {
      RanEither(a.answers, asked, refused, plan, a.asked, a.refused, if size - |rest| <= LAST_CAP then [size] else []);
      return;
    }
    ghost var asked1, refused1 := a.asked, a.refused;
    buf := NewArray<byte>(a, len + |rest|, 1);
    RanThen(a.answers, asked, refused, plan, asked1, refused1, [size], a.asked, a.refused);
    if buf == null {
      FreeArray(a, bytes);
      return NoMem, null;
    }
    Copy(buf, bytes, len);
    Store(buf, len, rest);
    assert buf[..] == buf[..len+|rest|];
    FreeArray(a, bytes);
  }

  /** Detaching: after a successful clone, with any allocator, the source tree can
      be freed and the input buffer reused, and the clone still denotes the same
      value. */
  method Detach(v: Node, input: array<byte>, a: Allocator, ghost t: Shape)
    returns (st: Status, out: Node?, ghost r: Option<Shape>)
    requires t.node == v && Owns(v.alloc, t) && WellFormed(Den(t)) && a.Valid()
    requires a != v.alloc ==> a !in v.alloc.live && v.alloc !in a.live && a.live !! v.alloc.live
    requires Borrowed(t) <= {input} && input !in a.live
    modifies a, v.alloc, input
    ensures st in {Ok, NoMem}
    ensures a.Asked(st == Ok) && (st == Ok <==> a.Granted()) && a.Asks(ClonePlan(Den(t)))
    ensures st == Ok ==>
              && Detached(a, out, r, Den(t)) && fresh(Owned(r.value))
              && a.live == old(a.live) - (if a == v.alloc then Owned(t) else {}) + Owned(r.value)
              && (a != v.alloc ==> v.alloc.live == old(v.alloc.live) - Owned(t))
    ensures st != Ok ==>
              && out == null && Owns(v.alloc, t)
              && a.live == old(a.live) && v.alloc.live == old(v.alloc.live)
  {
    hide Rep, Owned, Borrowed, WellFormed, Separate;
    FootprintAllocated(t);
    NotInTree(a, t);
    NotInTree(v.alloc, t);
    st, out, r := Clone(v, a, t);
    if st != Ok {
      return;
    }
    FootprintAllocated(r.value);
    NotInTree(a, r.value);
    NotInTree(v.alloc, r.value);
    Free(v, t);
    forall i | 0 <= i < input.Length {
      input[i] := 0;
    }
  }
}
