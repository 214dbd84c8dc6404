/** The emitter: a recursive printer that sends chunks to a sink that may fail,
    and the growing-buffer sink. */
module Emit {
  import opened Bytes
  import opened Decimal
  import opened Values
  import opened Memory
  import opened Tree
  import opened Builders
  import opened DictStore
  import opened Cloning
  import opened Chunks

  // ---- Chunks so far ----

  /** After sending `plan`: all of it was accepted, or the last chunk sent was
      refused and everything sent is a beginning of it. */
  ghost predicate Sent(was: seq<Bytes>, plan: seq<Bytes>, now: seq<Bytes>, verdict: Status) {
    if verdict == Ok then now == was + plan else was < now <= was + plan
  }

  lemma SentThen(w: seq<Bytes>, a: seq<Bytes>, m: seq<Bytes>, b: seq<Bytes>, n: seq<Bytes>, verdict: Status)
    requires Sent(w, a, m, Ok) && Sent(m, b, n, verdict)
    ensures Sent(w, a + b, n, verdict)
  {
    assert w + a + b == w + (a + b);
  }

  lemma SentCut(w: seq<Bytes>, a: seq<Bytes>, b: seq<Bytes>, n: seq<Bytes>, verdict: Status)
    requires verdict != Ok && Sent(w, a, n, verdict)
    ensures Sent(w, a + b, n, verdict)
  {
    assert w + (a + b) == (w + a) + b;
  }

  lemma SentNothing(w: seq<Bytes>)
    ensures Sent(w, [], w, Ok)
  {
  }

  // ---- The growing buffer ----

  lemma CapEnds()
    ensures Doubling(FIRST_CAP) && Doubling(LAST_CAP)
  {
    LargestDoublings();
    Twice(MAX_ITEMS);
    Twice(2 * MAX_ITEMS);
    Twice(4 * MAX_ITEMS);
    assert Doubled(10) == FIRST_CAP;
  }

  lemma Twice(c: nat)
    requires Doubling(c)
    ensures Doubling(2 * c)
  {
    var k: nat :| c == Doubled(k);
    assert 2 * c == Doubled(k + 1);
  }

  /** A capacity below the last one can be doubled without leaving 64 bits. */
  lemma CapDoubles(cap: nat)
    requires Doubling(cap) && cap < LAST_CAP
    ensures Doubling(2 * cap) && 2 * cap <= LAST_CAP
  {
    CapEnds();
    Twice(cap);
    DoublingApart(cap, LAST_CAP);
  }

  class AllocSink {
    const alloc: Allocator
    ghost const base: set<object>
    ghost const askedBefore: seq<nat>
    ghost const before: nat
    var bytes: array?<byte>
    var len: nat
    var cap: nat
    var oom: bool

    constructor (alloc: Allocator)
      requires alloc.Valid()
      ensures Valid() && this.alloc == alloc && base == alloc.live && Data() == [] && !oom
      ensures bytes == null && before == alloc.refused && askedBefore == alloc.asked
    {
      this.alloc := alloc;
      base := alloc.live;
      askedBefore, before := alloc.asked, alloc.refused;
      bytes, len, cap, oom := null, 0, 0, false;
    }

    ghost predicate Valid()
      reads this, alloc, Block(bytes)
    {
      Shaped() && cap == BufferCap(len)
    }

    /** The block is in order; its capacity need not be the one for its length. */
    ghost predicate Shaped()
      reads this, alloc, Block(bytes)
    {
      && alloc.Valid() && this !in alloc.live
      && len <= cap <= LAST_CAP
      && (if bytes == null then cap == 0 else cap == bytes.Length && Doubling(cap))
      && alloc.live == base + Block(bytes) && base !! Block(bytes)
    }

    /** The bytes stored so far. */
    ghost function Data(): Bytes
      requires Shaped()
      reads this, alloc, Block(bytes)
    {
      if bytes == null then [] else bytes[..len]
    }

    ghost function Repr(): set<object>
      reads this
    {
      {this, alloc} + Block(bytes)
    }

    /** The doubling loop: it stops, stays within 64 bits, and fails exactly when
        the total exceeds the last capacity. */
    method NewCapacity(need: nat) returns (ok: bool, newCap: nat)
      requires Valid() && cap - len < need
      ensures ok ==> Doubling(newCap) && cap <= newCap <= LAST_CAP && need <= newCap - len
      ensures ok <==> len + need <= LAST_CAP
      ensures ok ==> newCap == GrowTo(if cap == 0 then FIRST_CAP else cap, len + need)
    {
      newCap := if cap == 0 then FIRST_CAP else cap;
      CapEnds();
      while newCap - len < need
        invariant newCap > 0 && Doubling(newCap) && cap <= newCap <= LAST_CAP
        invariant GrowTo(newCap, len + need) == GrowTo(if cap == 0 then FIRST_CAP else cap, len + need)
        decreases LAST_CAP - newCap
      {
        if newCap > SIZE_MAX / 2 {
          return false, newCap;
        }
        CapDoubles(newCap);
        newCap := newCap * 2;
      }
      return true, newCap;
    }

    /** `alloc_sink_append`: the chunk is stored after what is there, or nothing
        is lost and every later call fails too. */
    method Append(chunk: Bytes) returns (st: Status)
      requires Valid() && 0 < |chunk| <= SIZE_MAX
      modifies Repr()
      ensures Valid() && fresh(Repr() - old(Repr())) && st in {Ok, NoMem}
      ensures st == Ok ==> Data() == old(Data()) + chunk && !oom && !old(oom)
      ensures st != Ok ==> Data() == old(Data()) && oom
      ensures old(oom) ==> st == NoMem
      ensures st == Ok ==> |old(Data())| + |chunk| <= LAST_CAP
      ensures alloc.Asked(st == Ok || old(oom))
      ensures alloc.Asks(if old(oom) then [] else RoomPlan(|old(Data())|, |chunk|))
      ensures st == Ok <==> !old(oom) && alloc.Granted() && |old(Data())| + |chunk| <= LAST_CAP
    {
      hide Doubling, Ran, GrowTo, Allocator.NeverRefuses;
      RanNone(alloc.answers, alloc.asked, alloc.refused);
      if oom {
        return NoMem;
      }
      BufferCapNext(len, |chunk|);
      if cap - len < |chunk| {
        st := Grow(|chunk|);
        if st != Ok {
          oom := true;
          return;
        }
      }
      Put(chunk);
      return Ok;
    }

    /** Store the chunk where there is room for it. */
    method Put(chunk: Bytes)
      requires Shaped() && bytes != null && |chunk| <= cap - len && cap == BufferCap(len + |chunk|)
      modifies this`len, bytes
      ensures Valid() && Data() == old(Data()) + chunk
    {
      hide Doubling, BufferCap;
      Store(bytes, len, chunk);
      len := len + |chunk|;
    }

    method Grow(need: nat) returns (st: Status)
      requires Valid() && cap - len < need
      modifies this, alloc
      ensures Shaped() && fresh(Repr() - old(Repr())) && st in {Ok, NoMem}
      ensures Data() == old(Data()) && oom == old(oom) && len == old(len)
      ensures st == Ok ==> bytes != null && need <= cap - len && fresh(bytes)
      ensures st != Ok ==> bytes == old(bytes) && cap == old(cap)
      ensures st == Ok ==> len + need <= LAST_CAP
      ensures st == Ok ==> cap == GrowTo(if old(cap) == 0 then FIRST_CAP else old(cap), len + need)
      ensures alloc.Asked(st == Ok) && (st == Ok <==> alloc.Granted() && len + need <= LAST_CAP)
      ensures var aim := GrowTo(if old(cap) == 0 then FIRST_CAP else old(cap), len + need);
              alloc.Asks(if len + need > LAST_CAP then [] else [aim])
    {
      hide AllGranted;
      hide Doubling, Ran, GrowTo, BufferCap, Allocator.NeverRefuses;
      RanNone(alloc.answers, alloc.asked, alloc.refused);
      var ok, newCap;
      ok, newCap := NewCapacity(need);
      if !ok {
        return NoMem;
      }
      ghost var data := Data();
      var wider := Widen(alloc, bytes, len, 1, newCap);
      if wider == null {
        return NoMem;
      }
      assert alloc.live == base + {wider} && wider !in base;
      assert wider[..len] == data;
      bytes, cap := wider, newCap;
      return Ok;
    }
  }

  /** `memcpy` of a chunk to position `at`. */
  method Store(dst: array<byte>, at: nat, chunk: Bytes)
    requires at + |chunk| <= dst.Length
    modifies dst
    ensures dst[..at+|chunk|] == old(dst[..at]) + chunk
  {
    forall i | 0 <= i < |chunk| {
      dst[at+i] := chunk[i];
    }
    assert dst[at..at+|chunk|] == chunk;
    assert dst[..at+|chunk|] == dst[..at] + dst[at..at+|chunk|];
  }

  // ---- Sinks ----

  /** Every chunk but the last was accepted. */
  ghost predicate AllButLast(chunks: seq<Bytes>, answer: seq<Bytes> -> Status) {
    forall k :: 0 < k < |chunks| ==> answer(chunks[..k]) == Ok
  }

  lemma AnswersSnoc(chunks: seq<Bytes>, c: Bytes, answer: seq<Bytes> -> Status)
    requires AllButLast(chunks, answer) && (chunks != [] ==> answer(chunks) == Ok)
    ensures AllButLast(chunks + [c], answer) && (chunks + [c])[..|chunks|] == chunks
  {
    var all := chunks + [c];
    forall k | 0 < k < |all| ensures answer(all[..k]) == Ok {
      assert all[..k] == chunks[..k];
      assert chunks[..|chunks|] == chunks;
    }
  }

  /** The byte sink of an emit: the caller's function, whose answer to a chunk is
      any function of the chunks so far, or the growing buffer. */
  class Sink {
    const buffer: AllocSink?
    const answer: seq<Bytes> -> Status
    var chunks: seq<Bytes>
    ghost var verdict: Status
    ghost var Repr: set<object>

    constructor User(answer: seq<Bytes> -> Status)
      ensures Valid() && fresh(Repr) && buffer == null && this.answer == answer
      ensures chunks == [] && verdict == Ok
    {
      buffer := null;
      this.answer := answer;
      chunks, verdict := [], Ok;
      Repr := {this};
    }

    constructor Buffered(buffer: AllocSink)
      requires buffer.Valid() && buffer.Data() == [] && !buffer.oom && buffer.bytes == null
      requires buffer.alloc.refused == buffer.before && buffer.alloc.asked == buffer.askedBefore
      ensures Valid() && this.buffer == buffer && Repr == {this, buffer, buffer.alloc}
      ensures fresh(this) && chunks == [] && verdict == Ok
    {
      RanNone(buffer.alloc.answers, buffer.alloc.asked, buffer.alloc.refused);
      this.buffer := buffer;
      answer := _ => Ok;
      chunks, verdict := [], Ok;
      Repr := {this, buffer, buffer.alloc};
    }

    /** The bytes of the chunks that were accepted. */
    ghost function Accepted(): Bytes
      reads this
    {
      if verdict == Ok || chunks == [] then Flat(chunks) else Flat(chunks[..|chunks|-1])
    }

    ghost predicate Valid()
      reads this, Repr
    {
      && this in Repr
      && NoneEmpty(chunks)
      && (buffer == null ==> AllButLast(chunks, answer) && verdict == if chunks == [] then Ok else answer(chunks))
      && (buffer != null ==>
            && buffer in Repr && buffer.alloc in Repr && Block(buffer.bytes) <= Repr
            && this !in buffer.alloc.live
            && verdict in {Ok, NoMem}
            && buffer.Valid() && buffer.Data() == Accepted() && (buffer.oom <==> verdict != Ok)
            && Tally(buffer))
    }

    /** The buffer has asked for what the plan of the chunks says, and it has
        failed if and only if a request was refused or the chunks outgrew it. */
    ghost predicate Tally(buffer: AllocSink)
      reads this, buffer, buffer.alloc
    {
      var a := buffer.alloc;
      && Ran(a.answers, buffer.askedBefore, buffer.before, BufferPlan(chunks), a.asked, a.refused)
      && (verdict == Ok || a.NeverRefuses() ==> a.refused == buffer.before)
      && (verdict == Ok <==> a.refused == buffer.before && |Flat(chunks)| <= LAST_CAP)
    }

    /** Pass one chunk on. No chunk is ever empty. */
    method Send(chunk: Bytes) returns (st: Status)
      requires Valid() && verdict == Ok && 0 < |chunk| <= SIZE_MAX
      modifies Repr
      ensures Valid() && fresh(Repr - old(Repr))
      ensures st == verdict && chunks == old(chunks) + [chunk]
      ensures Accepted() == if st == Ok then old(Accepted()) + chunk else old(Accepted())
      ensures buffer == null ==> st == answer(chunks)
      ensures buffer != null ==>
                && buffer.alloc.Asks(RoomPlan(|old(Accepted())|, |chunk|))
                && (st == Ok <==> buffer.alloc.Granted() && |old(Accepted())| + |chunk| <= LAST_CAP)
    {
      hide Allocator.NeverRefuses, Doubling, BufferCap, Served;
      hide Flat, BufferPlan, RoomPlan;
      FlatSnoc(chunks, chunk);
      if buffer != null {
        ghost var a := buffer.alloc;
        ghost var asked, refused := a.asked, a.refused;
        st := buffer.Append(chunk);
        Repr := Repr + Block(buffer.bytes);
        BufferPlanSnoc(chunks, chunk);
        RanThen(a.answers, buffer.askedBefore, buffer.before, BufferPlan(chunks), asked, refused,
                RoomPlan(|Flat(chunks)|, |chunk|), a.asked, a.refused);
      } else {
        AnswersSnoc(chunks, chunk, answer);
        st := answer(chunks + [chunk]);
      }
      assert (chunks + [chunk])[..|chunks|] == chunks;
      chunks := chunks + [chunk];
      verdict := st;
    }

    /** Everything that sending the chunks of `plan` promises. */
    twostate predicate Wrote(plan: seq<Bytes>, st: Status)
      reads this, Repr
    {
      && Valid() && fresh(Repr - old(Repr)) && st == verdict
      && Sent(old(chunks), plan, chunks, verdict)
    }
  }

  // ---- The printer ----

  /** `emit_bytes`: an empty chunk is not sent at all. */
  method EmitBytes(chunk: Bytes, sink: Sink) returns (st: Status)
    requires sink.Valid() && sink.verdict == Ok && |chunk| <= SIZE_MAX
    modifies sink.Repr
    ensures sink.Wrote(Piece(chunk), st)
  {
    if |chunk| == 0 {
      SentNothing(sink.chunks);
      return Ok;
    }
    st := sink.Send(chunk);
  }

  lemma Pow10Values()
    ensures Pow10(19) == 10_000_000_000_000_000_000 && Pow10(20) == 100_000_000_000_000_000_000
  {
    assert Pow10(5) == 100_000;
    assert Pow10(10) == 10_000_000_000;
    assert Pow10(15) == 1_000_000_000_000_000;
  }

  /** The printed forms fit the 32-byte buffers, so formatting never fails. */
  lemma HeadersFit(n: nat)
    ensures n <= INT64_MAX + 1 ==> |Digits(n)| <= 19
    ensures n <= SIZE_MAX ==> |Digits(n)| <= 20
  {
    Pow10Values();
    if n <= INT64_MAX + 1 {
      DigitsLength(n, 19);
    }
    if n <= SIZE_MAX {
      DigitsLength(n, 20);
    }
  }

  method EmitInt(i: int, sink: Sink) returns (st: Status)
    requires sink.Valid() && sink.verdict == Ok && INT64_MIN <= i <= INT64_MAX
    modifies sink.Repr
    ensures sink.Wrote(ChunksOf(VInt(i)), st)
  {
    hide Digits;
    HeadersFit(if i < 0 then -i else i);
    var text := [CH_I] + SignedDigits(i) + [CH_E];
    if |text| >= 32 {
      assert false;
    }
    st := EmitBytes(text, sink);
  }

  method EmitString(bytes: Bytes, sink: Sink) returns (st: Status)
    requires sink.Valid() && sink.verdict == Ok && |bytes| <= SIZE_MAX
    modifies sink.Repr
    ensures sink.Wrote(ChunksStr(bytes), st)
  {
    hide Digits, Sent;
    HeadersFit(|bytes|);
    var header := Digits(|bytes|) + [COLON];
    if |header| >= 32 {
      assert false;
    }
    ghost var was := sink.chunks;
    st := EmitBytes(header, sink);
    ghost var mid := sink.chunks;
    if st != Ok {
      SentCut(was, [header], Piece(bytes), mid, st);
      return;
    }
    st := EmitBytes(bytes, sink);
    SentThen(was, [header], mid, Piece(bytes), sink.chunks, st);
  }

  /** `emit_value` */
  method EmitValue(v: Node, sink: Sink, ghost t: Shape) returns (st: Status)
    requires t.node == v && Rep(v.alloc, t) && WellFormed(Den(t))
    requires sink.Valid() && sink.verdict == Ok && sink.Repr !! Footprint(t)
    modifies sink.Repr
    ensures sink.Wrote(ChunksOf(Den(t)), st)
    decreases t, 1
  {
    hide Rep, Owned, Borrowed, ChunksOf, ChunksStr, WellFormed, Den;
    LeafFacts(v.alloc, t);
    match v.body {
      case IntB(i) =>
        st := EmitInt(i, sink);
      case StrB(pay, len) =>
        st := EmitString(PayloadBytes(pay, len), sink);
      case ListB(_, _, _) =>
        st := EmitList(v, sink, t);
      case DictB(_, _, _) =>
        st := EmitDict(v, sink, t);
    }
  }

  /** What the node of a leaf holds. */
  lemma LeafFacts(a: Allocator, t: Shape)
    requires Rep(a, t) && WellFormed(Den(t))
    ensures var body := t.node.body;
            && (body.IntB? ==> Den(t) == VInt(body.i) && INT64_MIN <= body.i <= INT64_MAX)
            && (body.StrB? ==>
                  && (body.pay.Borrow? ==> body.pay.off + body.len <= body.pay.buf.Length)
                  && (body.pay.Own? ==> body.len <= body.pay.buf.Length)
                  && |PayloadBytes(body.pay, body.len)| <= SIZE_MAX
                  && ChunksOf(Den(t)) == ChunksStr(PayloadBytes(body.pay, body.len)))
            && (body.ListB? ==> t.ListS?) && (body.DictB? ==> t.DictS?)
  {
    hide Digits, ChunksStr;
    var body := t.node.body;
    if body.StrB? {
      assert Den(t) == VStr(PayloadBytes(body.pay, body.len));
    }
  }

  /** `emit_list` */
  method EmitList(v: Node, sink: Sink, ghost t: Shape) returns (st: Status)
    requires t.ListS? && t.node == v && Rep(v.alloc, t) && WellFormed(Den(t))
    requires sink.Valid() && sink.verdict == Ok && sink.Repr !! Footprint(t)
    modifies sink.Repr
    ensures sink.Wrote(ChunksOf(Den(t)), st)
    decreases t, 0
  {
    hide KidsOwned, Den, Rep, Owned, Borrowed, WellFormed, ChunksOf, ChunksAll, Sent, Sink.Valid;
    FootprintAllocated(t);
    TopBlocks(t);
    ghost var was, vs := sink.chunks, DenKids(t.kids);
    ghost var done: seq<Bytes> := [[CH_L]];
    ListEncodes(t);
    st := EmitBytes([CH_L], sink);
    if st != Ok {
      SentCut(was, done, ChunksAll(vs) + [[CH_E]], sink.chunks, st);
      return;
    }
    ListOpen(v.alloc, t);
    var i := 0;
    while i < v.body.count
      invariant i <= |t.kids| && Rep(v.alloc, t)
      invariant v.body.ListB? && v.body.count == |t.kids|
      invariant sink.Valid() && sink.verdict == Ok && sink.Repr !! Footprint(t)
      invariant fresh(sink.Repr - old(sink.Repr))
      invariant done != [] && Sent(was, done, sink.chunks, Ok)
      invariant ChunksOf(Den(t)) == done + (ChunksAll(vs[i..]) + [[CH_E]])
    {
      ListOpen(v.alloc, t);
      KidOf(v.alloc, t, i);
      KidFootprint(t, i);
      ChunksAllStep(vs, i, done);
      ghost var mid, enc, tail := sink.chunks, ChunksOf(Den(t.kids[i])), ChunksAll(vs[i+1..]) + [[CH_E]];
      st := EmitValue(v.body.items[i], sink, t.kids[i]);
      SentTurn(was, done, mid, enc, tail, sink.chunks, st);
      if st != Ok {
        return;
      }
      done := done + enc;
      i := i + 1;
    }
    ListOpen(v.alloc, t);
    ChunksAllEnd(vs, i);
    ghost var mid := sink.chunks;
    st := EmitBytes([CH_E], sink);
    SentThen(was, done, mid, [[CH_E]], sink.chunks, st);
  }

  lemma ListEncodes(t: Shape)
    requires t.ListS?
    ensures ChunksOf(Den(t)) == [[CH_L]] + (ChunksAll(DenKids(t.kids)[0..]) + [[CH_E]])
    ensures DenKids(t.kids)[0..] == DenKids(t.kids)
  {
  }

  lemma KidFootprint(t: Shape, i: nat)
    requires t.ListS? && i < |t.kids|
    ensures Footprint(t.kids[i]) <= Footprint(t)
  {
    KidsInside(t.kids);
    assert Owned(t.kids[i]) <= Owned(t) && Borrowed(t.kids[i]) <= Borrowed(t);
    hide Owned, Borrowed;
  }

  lemma ChunksAllStep(vs: seq<Value>, i: nat, done: seq<Bytes>)
    requires i < |vs|
    ensures done + (ChunksAll(vs[i..]) + [[CH_E]]) == done + ChunksOf(vs[i]) + (ChunksAll(vs[i+1..]) + [[CH_E]])
  {
    hide ChunksOf;
    assert vs[i..][0] == vs[i] && vs[i..][1..] == vs[i+1..];
  }

  lemma ChunksAllEnd(vs: seq<Value>, i: nat)
    requires i == |vs|
    ensures ChunksAll(vs[i..]) + [[CH_E]] == [[CH_E]]
  {
  }

  /** `emit_dict` */
  method EmitDict(v: Node, sink: Sink, ghost t: Shape) returns (st: Status)
    requires t.DictS? && t.node == v && Rep(v.alloc, t) && WellFormed(Den(t))
    requires sink.Valid() && sink.verdict == Ok && sink.Repr !! Footprint(t)
    modifies sink.Repr
    ensures sink.Wrote(ChunksOf(Den(t)), st)
    decreases t, 0, 1
  {
    hide Den, BindsOwned;
    hide Rep, Owned, Borrowed, WellFormed, ChunksOf, ChunksStr, ChunksPairs, Sent, Sink.Valid, Sorted;
    FootprintAllocated(t);
    TopBlocks(t);
    ghost var was, es := sink.chunks, DenBinds(t.binds);
    ghost var done: seq<Bytes> := [[CH_D]];
    DictEncodes(t);
    st := EmitBytes([CH_D], sink);
    if st != Ok {
      SentCut(was, done, ChunksPairs(es) + [[CH_E]], sink.chunks, st);
      return;
    }
    DictOpen(v.alloc, t);
    var i := 0;
    while i < v.body.count
      invariant i <= |t.binds| && Rep(v.alloc, t)
      invariant v.body.DictB? && v.body.count == |t.binds|
      invariant sink.Valid() && sink.verdict == Ok && sink.Repr !! Footprint(t)
      invariant fresh(sink.Repr - old(sink.Repr))
      invariant done != [] && Sent(was, done, sink.chunks, Ok)
      invariant ChunksOf(Den(t)) == done + (ChunksPairs(es[i..]) + [[CH_E]])
    {
      ghost var mid, enc := sink.chunks, ChunksStr(es[i].key) + ChunksOf(es[i].val);
      ghost var tail := ChunksPairs(es[i+1..]) + [[CH_E]];
      ChunksPairsStep(es, i, done);
      st := EmitEntryAt(v, i, sink, t);
      SentTurn(was, done, mid, enc, tail, sink.chunks, st);
      if st != Ok {
        return;
      }
      done := done + enc;
      i := i + 1;
    }
    DictOpen(v.alloc, t);
    ChunksPairsEnd(es, i);
    ghost var mid := sink.chunks;
    st := EmitBytes([CH_E], sink);
    SentThen(was, done, mid, [[CH_E]], sink.chunks, st);
  }

  /** One turn of a loop: either what has arrived is one item longer, or the sink
      failed and it is a proper prefix of the whole. */
  lemma SentTurn(was: seq<Bytes>, done: seq<Bytes>, mid: seq<Bytes>, enc: seq<Bytes>, tail: seq<Bytes>,
                 now: seq<Bytes>, st: Status)
    requires Sent(was, done, mid, Ok) && Sent(mid, enc, now, st)
    ensures st == Ok ==> Sent(was, done + enc, now, Ok)
    ensures st != Ok ==> Sent(was, done + enc + tail, now, st)
  {
    SentThen(was, done, mid, enc, now, st);
    if st != Ok {
      SentCut(was, done + enc, tail, now, st);
    }
  }

  /** The entry at an index. */
  method EmitEntryAt(v: Node, i: nat, sink: Sink, ghost t: Shape) returns (st: Status)
    requires t.DictS? && t.node == v && Rep(v.alloc, t) && WellFormed(Den(t)) && i < |t.binds|
    requires sink.Valid() && sink.verdict == Ok && sink.Repr !! Footprint(t)
    modifies sink.Repr
    ensures var e := DenBinds(t.binds)[i]; sink.Wrote(ChunksStr(e.key) + ChunksOf(e.val), st)
    decreases t, 0, 0
  {
    hide Rep, Owned, Borrowed, WellFormed, ChunksOf, ChunksStr, Sent, Sink.Valid, Sorted;
    DictOpen(v.alloc, t);
    BindOf(v.alloc, t, i);
    BindFootprint(t, i);
    st := EmitEntry(v.body.entries[i], sink, v.alloc, t.binds[i]);
  }

  /** One key and its value. */
  method EmitEntry(e: Entry, sink: Sink, ghost a: Allocator, ghost b: Bind) returns (st: Status)
    requires e == Cell(b) && RepBind(a, b) && WellFormed(Den(b.val)) && |b.key| <= SIZE_MAX
    requires sink.Valid() && sink.verdict == Ok && sink.Repr !! BindOwned(b) + Footprint(b.val)
    modifies sink.Repr
    ensures sink.Wrote(ChunksStr(b.key) + ChunksOf(Den(b.val)), st)
    decreases b, 2
  {
    hide Rep, Owned, Borrowed, WellFormed, ChunksOf, ChunksStr, Sent, Sink.Valid;
    FootprintAllocated(b.val);
    RepBindParts(a, b);
    var key := KeyBytes(e);
    assert key == b.key;
    ghost var was, k, enc := sink.chunks, ChunksStr(b.key), ChunksOf(Den(b.val));
    st := EmitString(key, sink);
    if st != Ok {
      SentCut(was, k, enc, sink.chunks, st);
      return;
    }
    ghost var mid := sink.chunks;
    st := EmitValue(e.value, sink, b.val);
    SentThen(was, k, mid, enc, sink.chunks, st);
  }

  lemma DictEncodes(t: Shape)
    requires t.DictS?
    ensures ChunksOf(Den(t)) == [[CH_D]] + (ChunksPairs(DenBinds(t.binds)[0..]) + [[CH_E]])
    ensures DenBinds(t.binds)[0..] == DenBinds(t.binds)
  {
  }

  lemma BindFootprint(t: Shape, i: nat)
    requires t.DictS? && i < |t.binds|
    ensures BindOwned(t.binds[i]) + Footprint(t.binds[i].val) <= Footprint(t)
  {
    BindsInside(t.binds);
    assert BindOwned(t.binds[i]) <= Owned(t) && Borrowed(t.binds[i].val) <= Borrowed(t);
    assert Owned(t.binds[i].val) <= BindOwned(t.binds[i]);
    hide Owned, Borrowed, BindOwned;
  }

  lemma ChunksPairsStep(es: seq<Pair>, i: nat, done: seq<Bytes>)
    requires i < |es|
    ensures done + (ChunksPairs(es[i..]) + [[CH_E]])
         == done + (ChunksStr(es[i].key) + ChunksOf(es[i].val)) + (ChunksPairs(es[i+1..]) + [[CH_E]])
  {
    hide ChunksOf, ChunksStr;
    assert es[i..][0] == es[i] && es[i..][1..] == es[i+1..];
  }

  lemma ChunksPairsEnd(es: seq<Pair>, i: nat)
    requires i == |es|
    ensures ChunksPairs(es[i..]) + [[CH_E]] == [[CH_E]]
  {
  }
}
