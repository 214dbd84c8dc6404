/** What an emit sends, chunk by chunk, and what a growing buffer asks for while it
    takes the chunks. */
module Chunks {
  import opened Bytes
  import opened Decimal
  import opened Values
  import opened Memory

  /** The chunks of a byte string that may be empty: an empty one is not sent. */
  function Piece(b: Bytes): seq<Bytes> {
    if b == [] then [] else [b]
  }

  function ChunksStr(b: Bytes): seq<Bytes> {
    [Digits(|b|) + [COLON]] + Piece(b)
  }

  /** The chunks of a value: an integer is one, a string is its header and its
      bytes, and the bytes that open and close a container go alone. */
  function ChunksOf(v: Value): seq<Bytes>
    decreases v
  {
    match v
    case VInt(i) => [[CH_I] + SignedDigits(i) + [CH_E]]
    case VStr(b) => ChunksStr(b)
    case VList(vs) => [[CH_L]] + ChunksAll(vs) + [[CH_E]]
    case VDict(es) => [[CH_D]] + ChunksPairs(es) + [[CH_E]]
  }

  function ChunksAll(vs: seq<Value>): seq<Bytes>
    decreases vs
  {
    if vs == [] then [] else ChunksOf(vs[0]) + ChunksAll(vs[1..])
  }

  function ChunksPairs(es: seq<Pair>): seq<Bytes>
    decreases es
  {
    if es == [] then [] else ChunksStr(es[0].key) + ChunksOf(es[0].val) + ChunksPairs(es[1..])
  }

  // ---- The bytes of the chunks ----

  function Flat(chunks: seq<Bytes>): Bytes {
    if chunks == [] then [] else Flat(chunks[..|chunks|-1]) + chunks[|chunks|-1]
  }

  lemma FlatSnoc(chunks: seq<Bytes>, c: Bytes)
    ensures Flat(chunks + [c]) == Flat(chunks) + c
  {
    assert (chunks + [c])[..|chunks|] == chunks;
  }

  lemma FlatOne(c: Bytes)
    ensures Flat([c]) == c
  {
    assert Flat([]) == [];
    FlatSnoc([], c);
    assert [] + [c] == [c];
  }

  lemma {:induction false} FlatConcat(a: seq<Bytes>, b: seq<Bytes>)
    ensures Flat(a + b) == Flat(a) + Flat(b)
    decreases |b|
  {
    if b == [] {
      assert a + b == a;
    } else {
      var front, last := b[..|b|-1], b[|b|-1];
      assert a + b == (a + front) + [last];
      FlatSnoc(a + front, last);
      FlatConcat(a, front);
    }
  }

  lemma FlatStr(b: Bytes)
    ensures Flat(ChunksStr(b)) == EncodeStr(b)
  {
    hide Digits;
    var header := Digits(|b|) + [COLON];
    FlatOne(header);
    FlatOne(b);
    FlatConcat([header], Piece(b));
  }

  /** The chunks of a value spell its encoding. */
  lemma {:induction false} FlatChunks(v: Value)
    ensures Flat(ChunksOf(v)) == Encode(v)
    decreases v, 1
  {
    hide Flat, EncodeStr, ChunksStr, Digits;
    FlatOne([CH_E]);
    match v
    case VInt(i) =>
      FlatOne([CH_I] + SignedDigits(i) + [CH_E]);
    case VStr(b) =>
      FlatStr(b);
    case VList(vs) =>
      FlatOne([CH_L]);
      FlatChunksAll(vs);
      FlatConcat([[CH_L]], ChunksAll(vs));
      FlatConcat([[CH_L]] + ChunksAll(vs), [[CH_E]]);
    case VDict(es) =>
      FlatOne([CH_D]);
      FlatChunksPairs(es);
      FlatConcat([[CH_D]], ChunksPairs(es));
      FlatConcat([[CH_D]] + ChunksPairs(es), [[CH_E]]);
  }

  lemma {:induction false} FlatChunksAll(vs: seq<Value>)
    ensures Flat(ChunksAll(vs)) == EncodeAll(vs)
    decreases vs, 0
  {
    if vs != [] {
      FlatChunks(vs[0]);
      FlatChunksAll(vs[1..]);
      FlatConcat(ChunksOf(vs[0]), ChunksAll(vs[1..]));
    }
  }

  lemma {:induction false} FlatChunksPairs(es: seq<Pair>)
    ensures Flat(ChunksPairs(es)) == EncodePairs(es)
    decreases es, 0
  {
    if es != [] {
      var k, v, rest := ChunksStr(es[0].key), ChunksOf(es[0].val), ChunksPairs(es[1..]);
      FlatStr(es[0].key);
      FlatChunks(es[0].val);
      FlatChunksPairs(es[1..]);
      FlatConcat(k, v);
      FlatConcat(k + v, rest);
    }
  }

  lemma SomeChunk(v: Value)
    ensures ChunksOf(v) != []
  {
    hide Digits;
  }

  ghost predicate NoneEmpty(chunks: seq<Bytes>) {
    forall c :: c in chunks ==> c != []
  }

  /** Without its last non-empty chunk, what has been sent is short of the whole. */
  lemma FlatShort(sent: seq<Bytes>, plan: seq<Bytes>)
    requires sent != [] && sent <= plan && NoneEmpty(sent)
    ensures Flat(sent[..|sent|-1]) < Flat(plan)
    ensures Flat(sent) <= Flat(plan)
  {
    hide Flat;
    var front, last, rest := sent[..|sent|-1], sent[|sent|-1], plan[|sent|..];
    assert plan == sent + rest;
    assert sent == front + [last];
    FlatConcat(sent, rest);
    FlatSnoc(front, last);
    assert last in sent;
    ShortOf(Flat(front), last, Flat(rest));
  }

  lemma ShortOf(a: Bytes, b: Bytes, c: Bytes)
    requires b != []
    ensures a < a + b + c && a + b <= a + b + c
  {
    assert (a + b + c)[..|a|] == a;
  }

  // ---- The growing buffer ----

  const FIRST_CAP: nat := 4096
  const LAST_CAP: nat := 0x8000_0000_0000_0000

  /** The capacity of a buffer that holds `len` bytes. */
  function BufferCap(len: nat): nat {
    if len == 0 then 0 else GrowTo(FIRST_CAP, len)
  }

  /** What `need` more bytes ask for: nothing while there is room, nor when the
      doubling loop gives up. */
  function RoomPlan(len: nat, need: nat): seq<nat> {
    if len + need <= BufferCap(len) || len + need > LAST_CAP then [] else [BufferCap(len + need)]
  }

  /** What taking the chunks asks for. */
  function BufferPlan(chunks: seq<Bytes>): seq<nat> {
    if chunks == [] then []
    else
      var front, last := chunks[..|chunks|-1], chunks[|chunks|-1];
      BufferPlan(front) + (if |Flat(front)| <= LAST_CAP then RoomPlan(|Flat(front)|, |last|) else [])
  }

  lemma BufferPlanSnoc(chunks: seq<Bytes>, c: Bytes)
    ensures BufferPlan(chunks + [c])
         == BufferPlan(chunks) + (if |Flat(chunks)| <= LAST_CAP then RoomPlan(|Flat(chunks)|, |c|) else [])
  {
    assert (chunks + [c])[..|chunks|] == chunks;
  }

  /** More chunks only add to the plan, and beyond the last capacity they add
      nothing. */
  lemma {:induction false} BufferPlanConcat(a: seq<Bytes>, b: seq<Bytes>)
    ensures BufferPlan(a) <= BufferPlan(a + b)
    ensures |Flat(a)| > LAST_CAP ==> BufferPlan(a + b) == BufferPlan(a)
    decreases |b|
  {
    hide RoomPlan, Flat;
    if b == [] {
      assert a + b == a;
    } else {
      var front, last := b[..|b|-1], b[|b|-1];
      assert a + b == (a + front) + [last];
      BufferPlanSnoc(a + front, last);
      BufferPlanConcat(a, front);
      FlatConcat(a, front);
    }
  }

  /** Growing step by step leads to the capacity for the length reached. */
  lemma BufferCapNext(len: nat, need: nat)
    requires need > 0
    ensures len <= BufferCap(len) && BufferCap(len + need)
         == if len + need <= BufferCap(len) then BufferCap(len)
            else GrowTo(if BufferCap(len) == 0 then FIRST_CAP else BufferCap(len), len + need)
  {
    if len > 0 {
      GrowToOn(FIRST_CAP, len, len + need);
    }
  }
}
