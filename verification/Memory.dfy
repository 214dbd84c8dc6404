/** The allocator, and the growable buffers built on it. */
module Memory {
  import opened Bytes

  // Sizes on a 64-bit build.
  const POINTER_SIZE: nat := 8
  const ENTRY_SIZE: nat := 24
  const NODE_SIZE: nat := 40

  /** The capacity of a container's first array. */
  const FIRST_CAPACITY: nat := 4

  /** An allocator that may refuse any request. Its answers are an arbitrary
      function of the request's number and size; `live` is the set of blocks
      handed out and not yet given back, so a block can be released only once;
      `asked` lists the sizes of all requests so far, and `refused` counts those
      that were refused. */
  class Allocator {
    const answers: (nat, nat) -> bool
    var calls: nat
    ghost var live: set<object>
    ghost var asked: seq<nat>
    ghost var refused: nat

    constructor (answers: (nat, nat) -> bool)
      ensures this.answers == answers && live == {} && Valid()
    {
      this.answers := answers;
      calls := 0;
      live := {};
      asked, refused := [], 0;
    }

    ghost predicate Valid()
      reads this
    {
      this !in live && calls == |asked|
    }

    ghost predicate NeverRefuses() {
      forall k: nat, size: nat :: answers(k, size)
    }

    /** The operation asks for blocks of the sizes in `plan`, in this order, and
        for no other; at the first refusal it stops. */
    twostate predicate Asks(plan: seq<nat>)
      reads this
    {
      Ran(answers, old(asked), old(refused), plan, asked, refused)
    }

    /** No request has been made since. */
    twostate predicate Quiet()
      reads this
    {
      asked == old(asked) && refused == old(refused)
    }

    /** No request has been refused since. */
    twostate predicate Granted()
      reads this
    {
      refused == old(refused)
    }

    /** How an operation may leave the count: it never goes down, and it stays the
        same when the operation has not run out of memory or the allocator is
        one that never refuses. */
    twostate predicate Asked(done: bool)
      reads this
    {
      && old(refused) <= refused
      && (done || NeverRefuses() ==> refused == old(refused))
    }

    /** An operation that asks for `plan` has met no refusal if and only if the
        allocator grants all of it, counting from the number of the first request. */
    twostate lemma Counted(plan: seq<nat>)
      requires old(Valid()) && Asks(plan)
      ensures Granted() <==> AllGranted(answers, old(calls), plan)
    {
    }

    method Request(size: nat) returns (granted: bool)
      modifies this
      ensures live == old(live) && calls == old(calls) + 1 && asked == old(asked) + [size]
      ensures granted == answers(old(calls), size)
      ensures refused == if granted then old(refused) else old(refused) + 1
    {
      granted := answers(calls, size);
      calls, asked := calls + 1, asked + [size];
      if !granted {
        refused := refused + 1;
      }
    }

    ghost method Adopt(o: object)
      modifies this
      ensures live == old(live) + {o} && calls == old(calls) && Quiet()
    {
      live := live + {o};
    }

    method Release(o: object)
      requires o in live
      modifies this
      ensures live == old(live) - {o} && calls == old(calls) && Quiet()
    {
      live := live - {o};
    }
  }

  // ---- Sequences of requests ----

  /** The allocator grants the requests of `plan`, of which the first has the
      number `n`. */
  predicate AllGranted(answers: (nat, nat) -> bool, n: nat, plan: seq<nat>)
    decreases |plan|
  {
    plan == [] || (answers(n, plan[0]) && AllGranted(answers, n + 1, plan[1..]))
  }

  lemma {:induction false} AllGrantedExactly(answers: (nat, nat) -> bool, n: nat, plan: seq<nat>)
    ensures AllGranted(answers, n, plan) <==> forall i :: 0 <= i < |plan| ==> answers(n + i, plan[i])
    decreases |plan|
  {
    if plan != [] {
      var rest := plan[1..];
      AllGrantedExactly(answers, n + 1, rest);
      if AllGranted(answers, n, plan) {
        forall i | 0 <= i < |plan| ensures answers(n + i, plan[i]) {
          if i > 0 {
            assert answers(n + 1 + (i - 1), rest[i-1]);
          }
        }
      }
      if forall i :: 0 <= i < |plan| ==> answers(n + i, plan[i]) {
        assert answers(n + 0, plan[0]);
        forall i | 0 <= i < |rest| ensures answers(n + 1 + i, rest[i]) {
          assert answers(n + (i + 1), plan[i+1]);
        }
      }
    }
  }

  /** The requests made: all of `plan`, or those up to the first refused. */
  function Served(answers: (nat, nat) -> bool, n: nat, plan: seq<nat>): seq<nat>
    decreases |plan|
  {
    if plan == [] then []
    else if !answers(n, plan[0]) then [plan[0]]
    else [plan[0]] + Served(answers, n + 1, plan[1..])
  }

  /** The requests made from `asked0` on are those of `plan` as far as they are
      granted, and the count of refusals has moved if and only if one was not. */
  predicate Ran(answers: (nat, nat) -> bool, asked0: seq<nat>, refused0: nat, plan: seq<nat>,
                asked: seq<nat>, refused: nat)
  {
    && asked == asked0 + Served(answers, |asked0|, plan)
    && refused0 <= refused
    && (refused == refused0 <==> AllGranted(answers, |asked0|, plan))
  }

  lemma {:induction false} GrantedConcat(answers: (nat, nat) -> bool, n: nat, p: seq<nat>, q: seq<nat>)
    ensures AllGranted(answers, n, p + q) <==> AllGranted(answers, n, p) && AllGranted(answers, n + |p|, q)
    decreases |p|
  {
    if p == [] {
      assert p + q == q;
    } else {
      assert (p + q)[1..] == p[1..] + q;
      GrantedConcat(answers, n + 1, p[1..], q);
      assert n + 1 + |p[1..]| == n + |p|;
    }
  }

  lemma {:induction false} ServedConcat(answers: (nat, nat) -> bool, n: nat, p: seq<nat>, q: seq<nat>)
    ensures Served(answers, n, p + q)
         == if AllGranted(answers, n, p) then Served(answers, n, p) + Served(answers, n + |p|, q)
            else Served(answers, n, p)
    decreases |p|
  {
    if p == [] {
      assert p + q == q;
    } else {
      assert (p + q)[1..] == p[1..] + q;
      assert n + 1 + |p[1..]| == n + |p|;
      ServedConcat(answers, n + 1, p[1..], q);
      var a, b := Served(answers, n + 1, p[1..]), Served(answers, n + |p|, q);
      assert [p[0]] + (a + b) == [p[0]] + a + b;
    }
  }

  lemma {:induction false} ServedWhole(answers: (nat, nat) -> bool, n: nat, p: seq<nat>)
    ensures AllGranted(answers, n, p) ==> Served(answers, n, p) == p
    decreases |p|
  {
    if p != [] {
      ServedWhole(answers, n + 1, p[1..]);
    }
  }

  /** Two runs one after the other, the first without a refusal. */
  lemma RanThen(answers: (nat, nat) -> bool, asked0: seq<nat>, refused0: nat, p: seq<nat>,
                asked1: seq<nat>, refused1: nat, q: seq<nat>, asked2: seq<nat>, refused2: nat)
    requires Ran(answers, asked0, refused0, p, asked1, refused1) && refused1 == refused0
    requires Ran(answers, asked1, refused1, q, asked2, refused2)
    ensures Ran(answers, asked0, refused0, p + q, asked2, refused2)
  {
    hide AllGranted, Served;
    GrantedConcat(answers, |asked0|, p, q);
    ServedConcat(answers, |asked0|, p, q);
    ServedWhole(answers, |asked0|, p);
  }

  /** After a refusal it makes no difference what would have come next. */
  lemma RanStop(answers: (nat, nat) -> bool, asked0: seq<nat>, refused0: nat, p: seq<nat>,
                asked1: seq<nat>, refused1: nat, q: seq<nat>)
    requires Ran(answers, asked0, refused0, p, asked1, refused1) && refused1 != refused0
    ensures Ran(answers, asked0, refused0, p + q, asked1, refused1)
  {
    hide AllGranted, Served;
    GrantedConcat(answers, |asked0|, p, q);
    ServedConcat(answers, |asked0|, p, q);
    ServedWhole(answers, |asked0|, p);
  }

  /** The rest of a plan does not matter after a refusal or when it is empty. */
  lemma RanEither(answers: (nat, nat) -> bool, asked0: seq<nat>, refused0: nat, p: seq<nat>,
                  asked1: seq<nat>, refused1: nat, q: seq<nat>)
    requires Ran(answers, asked0, refused0, p, asked1, refused1) && (refused1 != refused0 || q == [])
    ensures Ran(answers, asked0, refused0, p + q, asked1, refused1)
  {
    if q == [] {
      assert p + q == p;
    } else {
      RanStop(answers, asked0, refused0, p, asked1, refused1, q);
    }
  }

  lemma RanNone(answers: (nat, nat) -> bool, asked0: seq<nat>, refused0: nat)
    ensures Ran(answers, asked0, refused0, [], asked0, refused0)
  {
  }

  lemma RanOne(answers: (nat, nat) -> bool, asked0: seq<nat>, refused0: nat, size: nat)
    ensures Ran(answers, asked0, refused0, [size], asked0 + [size],
                if answers(|asked0|, size) then refused0 else refused0 + 1)
  {
  }

  /** What a copied string asks for: the node, then the bytes if there are any. */
  function StringPlan(bytes: Bytes): seq<nat> {
    [NODE_SIZE] + (if bytes == [] then [] else [|bytes|])
  }

  /** What a copy of a key asks for: nothing when the key is empty. */
  function KeyPlan(key: Bytes): seq<nat> {
    if key == [] then [] else [|key|]
  }

  /** The block behind a nullable buffer. */
  ghost function Block<T>(buf: array?<T>): set<object> {
    if buf == null then {} else {buf}
  }

  /** `bencode_alloc` for an array of `count` elements of `size` bytes. */
  method NewArray<T(0)>(a: Allocator, count: nat, size: nat) returns (buf: array?<T>)
    requires a.Valid() && count * size <= SIZE_MAX
    modifies a
    ensures a.Valid()
    ensures buf == null ==> a.live == old(a.live)
    ensures buf != null ==>
              && fresh(buf) && buf.Length == count
              && buf !in old(a.live) && a.live == old(a.live) + {buf}
    ensures a.Asked(buf != null) && (buf != null <==> a.Granted())
    ensures a.calls == old(a.calls) + 1 && a.Asks([count * size])
    ensures buf != null <==> a.answers(old(a.calls), count * size)
  {
    RanOne(a.answers, a.asked, a.refused, count * size);
    var granted := a.Request(count * size);
    if !granted {
      return null;
    }
    buf := new T[count];
    a.Adopt(buf);
  }

  /** `bencode_free`, a no-op on null. */
  method FreeArray<T>(a: Allocator, buf: array?<T>)
    requires a.Valid() && Block(buf) <= a.live
    modifies a
    ensures a.Valid() && a.live == old(a.live) - Block(buf) && a.Quiet()
  {
    if buf != null {
      a.Release(buf);
    }
  }

  /** `memcpy` of the first `n` elements. */
  method Copy<T>(dst: array<T>, src: array<T>, n: nat)
    requires dst != src && n <= dst.Length && n <= src.Length
    modifies dst
    ensures dst[..n] == src[..n]
  {
    var i := 0;
    while i < n
      invariant i <= n && dst[..i] == src[..i]
    {
      dst[i] := src[i];
      i := i + 1;
    }
  }

  /** `start` doubled, without bound, as often as it takes to reach `needed`:
      the first of `start`, `2 * start`, `4 * start`, ... that is large enough. */
  function GrowTo(start: nat, needed: nat): (cap: nat)
    requires start > 0
    ensures start <= cap && needed <= cap
    ensures start < cap ==> cap < 2 * needed
    decreases needed - start
  {
    if needed <= start then start else GrowTo(2 * start, needed)
  }

  /** The capacity `grow_array` aims at. */
  function Target(capacity: nat, needed: nat): nat {
    GrowTo(if capacity == 0 then FIRST_CAPACITY else capacity, needed)
  }

  /** The doubling loop of `grow_array`; it gives up exactly when the capacity
      aimed at does not fit in `size_t`. */
  method DoubledCapacity(start: nat, needed: nat) returns (ok: bool, cap: nat)
    requires 0 < start <= SIZE_MAX && needed <= SIZE_MAX
    ensures ok <==> GrowTo(start, needed) <= SIZE_MAX
    ensures ok ==> cap == GrowTo(start, needed)
  {
    cap := start;
    while cap < needed
      invariant start <= cap <= SIZE_MAX
      invariant GrowTo(cap, needed) == GrowTo(start, needed)
      decreases SIZE_MAX - cap
    {
      if cap > SIZE_MAX / 2 {
        assert GrowTo(cap, needed) >= 2 * cap;
        return false, cap;
      }
      cap := cap * 2;
    }
    ok := true;
  }

  /** The size computation of `grow_array` with its two overflow guards: they
      refuse exactly the arrays whose size in bytes does not fit in `size_t`. */
  method GrownCapacity(capacity: nat, needed: nat, elementSize: nat) returns (ok: bool, cap: nat)
    requires capacity < needed <= SIZE_MAX && 0 < elementSize
    ensures ok <==> Target(capacity, needed) * elementSize <= SIZE_MAX
    ensures ok ==> cap == Target(capacity, needed)
  {
    ok, cap := DoubledCapacity(if capacity == 0 then FIRST_CAPACITY else capacity, needed);
    FitsProduct(Target(capacity, needed), elementSize);
    if ok {
      ok := cap <= SIZE_MAX / elementSize;
    }
  }

  /** The guard written with a division is the guard on the product. */
  lemma FitsProduct(cap: nat, size: nat)
    requires 0 < size
    ensures cap <= SIZE_MAX / size <==> cap * size <= SIZE_MAX
    ensures cap <= cap * size
  {
    var q := SIZE_MAX / size;
    assert q * size <= SIZE_MAX < (q + 1) * size;
    if cap <= q {
      assert cap * size <= q * size;
    } else {
      assert (q + 1) * size <= cap * size;
    }
    assert cap * 1 <= cap * size;
  }

  // ---- The largest arrays ----

  /** The longest item array and the longest entry array: the largest doublings of
      the first capacity whose size in bytes fits in `size_t`. */
  const MAX_ITEMS: nat := 0x1000_0000_0000_0000
  const MAX_ENTRIES: nat := 0x800_0000_0000_0000

  /** The first capacity, doubled `k` times. */
  function Doubled(k: nat): (c: nat)
    ensures c >= FIRST_CAPACITY
  {
    if k == 0 then FIRST_CAPACITY else 2 * Doubled(k - 1)
  }

  ghost predicate Doubling(c: nat) {
    exists k: nat :: c == Doubled(k)
  }

  lemma {:induction false} DoubledMonotone(j: nat, k: nat)
    requires j <= k
    ensures Doubled(j) <= Doubled(k)
    decreases k - j
  {
    if j < k {
      DoubledMonotone(j, k - 1);
    }
  }

  /** Between a doubling and twice it there is no other. */
  lemma DoublingApart(c: nat, d: nat)
    requires Doubling(c) && Doubling(d) && c < d
    ensures 2 * c <= d
  {
    var j: nat :| c == Doubled(j);
    var k: nat :| d == Doubled(k);
    if k <= j {
      DoubledMonotone(k, j);
    } else {
      DoubledMonotone(j + 1, k);
    }
  }

  lemma {:induction false} GrowToDoubles(start: nat, needed: nat)
    requires start > 0 && Doubling(start)
    ensures Doubling(GrowTo(start, needed))
    decreases needed - start
  {
    if start < needed {
      var j: nat :| start == Doubled(j);
      assert 2 * start == Doubled(j + 1);
      GrowToDoubles(2 * start, needed);
    }
  }

  lemma LargestDoublings()
    ensures Doubling(MAX_ITEMS) && Doubling(MAX_ENTRIES) && Doubling(FIRST_CAPACITY)
  {
    assert Power2(1) == 2 && Power2(8) == 0x100 && Power2(9) == 0x200 && Power2(10) == 0x400;
    hide Doubled, Power2;
    DoubledOn(0, 8);
    DoubledOn(8, 10);
    DoubledOn(18, 10);
    DoubledOn(28, 10);
    DoubledOn(38, 10);
    DoubledOn(48, 9);
    DoubledOn(57, 1);
    FirstDoubled();
  }

  lemma FirstDoubled()
    ensures Doubled(0) == FIRST_CAPACITY
  {
  }

  lemma {:induction false} DoubledOn(k: nat, n: nat)
    ensures Doubled(k + n) == Power2(n) * Doubled(k)
    decreases n
  {
    if n > 0 {
      DoubledOn(k, n - 1);
      assert 2 * (Power2(n - 1) * Doubled(k)) == (2 * Power2(n - 1)) * Doubled(k);
    }
  }

  function Power2(n: nat): nat {
    if n == 0 then 1 else 2 * Power2(n - 1)
  }

  /** The size guards refuse exactly the growth beyond the largest array. */
  lemma TargetExactly(capacity: nat, needed: nat, max: nat, size: nat)
    requires size > 0 && Doubling(max) && max * size <= SIZE_MAX < 2 * max * size
    requires (capacity == 0 || Doubling(capacity)) && capacity < needed
    ensures Doubling(Target(capacity, needed))
    ensures Target(capacity, needed) * size <= SIZE_MAX <==> needed <= max
    ensures needed <= max ==> Target(capacity, needed) <= max
  {
    var cap := Target(capacity, needed);
    LargestDoublings();
    GrowToDoubles(if capacity == 0 then FIRST_CAPACITY else capacity, needed);
    if cap > max {
      DoublingApart(max, cap);
    }
    ProductBound(cap, max, size);
  }

  lemma ProductBound(cap: nat, max: nat, size: nat)
    requires max * size <= SIZE_MAX < 2 * max * size && (cap <= max || 2 * max <= cap)
    ensures cap * size <= SIZE_MAX <==> cap <= max
  {
    if cap <= max {
      SmallerFactor(size, cap, max);
    } else {
      SmallerFactor(size, 2 * max, cap);
    }
  }

  /** The capacity of an array that has grown to `count` elements one by one. */
  function CapFor(count: nat): nat {
    if count == 0 then 0 else GrowTo(FIRST_CAPACITY, count)
  }

  /** What one more element asks for: nothing while there is room or when the size
      guard refuses, else the next array. */
  function GrowPlan(count: nat, size: nat): seq<nat> {
    if count < CapFor(count) || CapFor(count + 1) * size > SIZE_MAX then [] else [CapFor(count + 1) * size]
  }

  lemma {:induction false} GrowToOn(start: nat, n: nat, m: nat)
    requires start > 0 && n <= m
    ensures GrowTo(start, m) == GrowTo(GrowTo(start, n), m)
    decreases n - start
  {
    if start < n {
      GrowToOn(2 * start, n, m);
    }
  }

  /** Growing by one from such a capacity leads to such a capacity. */
  lemma CapForNext(count: nat)
    ensures CapFor(count) == 0 || Doubling(CapFor(count))
    ensures count <= CapFor(count)
    ensures CapFor(count + 1) == if count < CapFor(count) then CapFor(count) else Target(CapFor(count), count + 1)
  {
    LargestDoublings();
    GrowToDoubles(FIRST_CAPACITY, count);
    if count > 0 {
      GrowToOn(FIRST_CAPACITY, count, count + 1);
    }
  }

  /** The capacities a container's array goes through. */
  ghost predicate Sized(capacity: nat, count: nat, max: nat) {
    capacity == CapFor(count) && capacity <= max
  }

  /** One more element finds room if and only if there are not yet `max`. */
  lemma RoomExactly(capacity: nat, count: nat, max: nat, size: nat)
    requires size > 0 && Doubling(max) && max * size <= SIZE_MAX < 2 * max * size
    requires Sized(capacity, count, max)
    ensures count <= capacity
    ensures count < capacity || Target(capacity, count + 1) * size <= SIZE_MAX <==> count < max
    ensures count < max ==> Sized(if count < capacity then capacity else Target(capacity, count + 1), count + 1, max)
    ensures GrowPlan(count, size)
         == if count < capacity || Target(capacity, count + 1) * size > SIZE_MAX then []
            else [Target(capacity, count + 1) * size]
  {
    CapForNext(count);
    if count == capacity {
      TargetExactly(capacity, count + 1, max, size);
    }
  }

  lemma SmallerFactor(a: nat, b: nat, c: nat)
    requires b <= c
    ensures a * b <= a * c
  {
    assert a * c == a * b + a * (c - b);
  }

  /** A larger block with the first `kept` elements of the old one, which is given
      back. */
  method Widen<T(0)>(a: Allocator, buf: array?<T>, kept: nat, elementSize: nat, cap: nat)
    returns (wider: array?<T>)
    requires a.Valid() && Block(buf) <= a.live
    requires cap * elementSize <= SIZE_MAX && (buf != null ==> kept <= buf.Length <= cap)
    modifies a
    ensures a.Valid()
    ensures wider == null ==> a.live == old(a.live)
    ensures wider != null ==>
              && fresh(wider) && wider !in old(a.live) && wider.Length == cap
              && (buf != null ==> wider[..kept] == buf[..kept])
              && a.live == old(a.live) - Block(buf) + {wider}
    ensures a.Asked(wider != null) && (wider != null <==> a.Granted())
    ensures a.Asks([cap * elementSize]) && (wider != null <==> a.answers(old(a.calls), cap * elementSize))
  {
    wider := NewArray<T>(a, cap, elementSize);
    if wider != null && buf != null {
      Copy(wider, buf, kept);
      FreeArray(a, buf);
    }
  }

  /** `grow_array`: room for `needed` elements with the old ones in place, or
      nothing changed at all. */
  method GrowArray<T(0)>(a: Allocator, buf: array?<T>, elementSize: nat, capacity: nat, needed: nat)
    returns (st: Status, grown: array?<T>, newCapacity: nat)
    requires a.Valid() && Block(buf) <= a.live && 0 < elementSize
    requires 0 < needed <= SIZE_MAX
    requires capacity == if buf == null then 0 else buf.Length
    modifies a
    ensures a.Valid()
    ensures st in {Ok, NoMem}
    ensures st != Ok ==> a.live == old(a.live)
    ensures st == Ok ==>
              && grown != null && newCapacity == grown.Length
              && needed <= newCapacity && capacity <= newCapacity
              && (capacity * elementSize <= SIZE_MAX ==> newCapacity * elementSize <= SIZE_MAX)
              && (buf != null ==> grown[..buf.Length] == buf[..])
              && (grown == buf || (fresh(grown) && grown !in old(a.live)))
              && a.live == old(a.live) - Block(buf) + {grown}
    ensures st == Ok ==> newCapacity == if needed <= capacity then capacity else Target(capacity, needed)
    ensures a.Asked(st == Ok)
    ensures st == Ok <==> a.Granted() && (needed <= capacity || Target(capacity, needed) * elementSize <= SIZE_MAX)
    ensures var bytes := Target(capacity, needed) * elementSize;
            && a.Asks(if needed <= capacity || bytes > SIZE_MAX then [] else [bytes])
            && (st == NoMem <==> needed > capacity && (bytes > SIZE_MAX || !a.answers(old(a.calls), bytes)))
  {
    hide GrowTo;
    RanNone(a.answers, a.asked, a.refused);
    if needed <= capacity {
      return Ok, buf, capacity;
    }
    var ok, cap := GrownCapacity(capacity, needed, elementSize);
    if !ok {
      return NoMem, buf, capacity;
    }
    var wider := Widen(a, buf, capacity, elementSize, cap);
    if wider == null {
      return NoMem, buf, capacity;
    }
    assert buf != null ==> buf[..capacity] == buf[..];
    return Ok, wider, cap;
  }
}
