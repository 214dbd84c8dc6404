/** The streaming parser: one cursor over the input, a fixed stack of scopes, and
    a callback table. Proved against the decoder function and, at the same time,
    against the state that the reported events lead to. */
module Sax {
  import opened Bytes
  import opened Decimal
  import opened Values
  import opened Decoder
  import opened Zipper
  import opened Memory
  import opened Dom
  import opened Handlers

  // ---- Runs that a callback may cut short ----

  /** The parser followed `path` from `log0`: either to its end, or up to the
      event whose callback did not answer "go on", in which case the answer is
      the status and the cursor stays where the event was reported. */
  ghost predicate Follows(path: Path, log0: seq<Event>, log: seq<Event>, verdict: Status, st: Status, p: nat) {
    if verdict == Ok then
      st == path.st && p == path.pos && log == log0 + Events(path.trace)
    else
      && st == verdict
      && |log0| < |log| <= |log0| + |path.trace|
      && var k := |log| - |log0|;
         log == log0 + Events(path.trace[..k]) && p == path.trace[k-1].at
  }

  lemma FollowsStop(st: Status, pos: nat, log: seq<Event>)
    ensures Follows(Stop(st, pos), log, log, Ok, st, pos)
  {
    assert log + Events([]) == log;
  }

  lemma FollowsOne(e: Event, pos: nat, log: seq<Event>, verdict: Status)
    ensures Follows(Path(Ok, pos, [Mark(e, pos)]), log, log + [e], verdict, verdict, pos)
  {
    assert Events([Mark(e, pos)]) == [e];
    assert [Mark(e, pos)][..1] == [Mark(e, pos)];
  }

  lemma FollowsThen(pre: seq<Mark>, path: Path, log0: seq<Event>, log1: seq<Event>, log2: seq<Event>,
                    verdict: Status, st: Status, p: nat)
    requires log1 == log0 + Events(pre) && Follows(path, log1, log2, verdict, st, p)
    ensures Follows(After(pre, path), log0, log2, verdict, st, p)
  {
    EventsConcat(pre, path.trace);
    if verdict != Ok {
      var k := |log2| - |log1|;
      assert (pre + path.trace)[..|pre|+k] == pre + path.trace[..k];
      EventsConcat(pre, path.trace[..k]);
      assert log2 == log0 + (Events(pre) + Events(path.trace[..k]));
    } else {
      assert log2 == log0 + (Events(pre) + Events(path.trace));
    }
  }

  /** Once cut short, it does not matter what would have come next. */
  lemma FollowsCut(path: Path, next: Path, log0: seq<Event>, log: seq<Event>, verdict: Status, st: Status, p: nat)
    requires verdict != Ok && Follows(path, log0, log, verdict, st, p)
    ensures Follows(After(path.trace, next), log0, log, verdict, st, p)
  {
    var k := |log| - |log0|;
    assert (path.trace + next.trace)[..k] == path.trace[..k];
  }

  // ---- One turn of the container loops, on the decoder's side ----

  lemma FollowsStatus(path: Path, log0: seq<Event>, log: seq<Event>, verdict: Status, st: Status, p: nat)
    requires Follows(path, log0, log, verdict, st, p)
    ensures st == Ok ==> verdict == Ok && path.st == Ok && p == path.pos
  {
  }

  /** A run that ends inside its first part has the status of that part. */
  lemma AbortInside(full: Path, pre: seq<Mark>, v: Path, rest: Path,
                    log0: seq<Event>, log1: seq<Event>, log2: seq<Event>, verdict: Status, st: Status, p: nat)
    requires log1 == log0 + Events(pre) && Follows(v, log1, log2, verdict, st, p) && st != Ok
    requires full == After(pre, if v.st != Ok then v else After(v.trace, rest))
    ensures Follows(full, log0, log2, verdict, st, p)
  {
    if v.st != Ok {
      FollowsThen(pre, v, log0, log1, log2, verdict, st, p);
    } else {
      FollowsStatus(v, log1, log2, verdict, st, p);
      assert verdict != Ok;
      FollowsCut(v, rest, log1, log2, verdict, st, p);
      FollowsThen(pre, After(v.trace, rest), log0, log1, log2, verdict, st, p);
    }
  }

  /** The first part went through; what is ahead is the rest. */
  lemma PassedFirst(full: Path, pre: seq<Mark>, v: Path, rest: Path,
                    log0: seq<Event>, log1: seq<Event>, log2: seq<Event>, st: Status, p: nat)
    requires log1 == log0 + Events(pre) && Follows(v, log1, log2, Ok, st, p) && st == Ok
    requires full == After(pre, After(v.trace, rest))
    ensures log2 == log0 + Events(pre + v.trace) && full == After(pre + v.trace, rest) && p == v.pos
  {
    EventsConcat(pre, v.trace);
    assert log0 + (Events(pre) + Events(v.trace)) == log0 + Events(pre) + Events(v.trace);
    assert pre + (v.trace + rest.trace) == pre + v.trace + rest.trace;
  }

  lemma NothingYet(log: seq<Event>, path: Path)
    ensures log == log + Events([]) && path == After([], path)
    ensures LastKey(FDict([], None)) == None
  {
  }

  // ---- The parser object ----

  /** One open scope. */
  datatype Scope = Scope(isDict: bool, expectingKey: bool, lastKey: Option<Slice>)

  /** A scope agrees with an open container: its kind, whether a key is due, and
      the last key read. */
  ghost predicate ScopeAgrees(sc: Scope, f: Frame, input: array<byte>, origin: nat, src: Bytes) {
    match f
    case FList(_) => !sc.isDict
    case FDict(_, key) =>
      && sc.isDict && sc.expectingKey == key.None?
      && sc.lastKey.Some? == LastKey(f).Some?
      && (sc.lastKey.Some? ==>
            && sc.lastKey.value.buf == input
            && origin <= sc.lastKey.value.off
            && sc.lastKey.value.off + sc.lastKey.value.len <= origin + |src|
            && src[sc.lastKey.value.off-origin..][..sc.lastKey.value.len] == LastKey(f).value)
  }

  class Parser {
    const input: array<byte>
    const origin: nat
    const size: nat
    const cb: Callbacks
    const maxDepth: nat
    const scopes: array<Scope>
    ghost const src: Bytes
    var p: nat
    var depth: nat

    constructor (input: array<byte>, origin: nat, size: nat, cb: Callbacks, maxDepth: nat)
      requires origin + size <= input.Length <= SIZE_MAX && maxDepth <= INTERNAL_MAX_DEPTH
      requires cb.Valid() && cb.input == input && cb.log == [] && cb.verdict == Ok && cb.z == Start
      ensures this.input == input && this.cb == cb && this.maxDepth == maxDepth && this.size == size
      ensures this.origin == origin && src == input[origin..origin+size]
      ensures p == 0 && depth == 0 && fresh(this) && fresh(scopes)
      ensures Ready() && Sim()
    {
      this.input := input;
      this.cb := cb;
      this.maxDepth := maxDepth;
      this.origin := origin;
      this.size := size;
      this.src := input[origin..origin+size];
      p := 0;
      depth := 0;
      scopes := new Scope[INTERNAL_MAX_DEPTH](_ => Scope(false, false, None));
    }

    /** The cursor is inside the input. */
    ghost predicate Cursor()
      reads this, input
    {
      p <= size && origin + size <= input.Length <= SIZE_MAX && input[origin..origin+size] == src
    }

    ghost predicate Ready()
      reads this, input, scopes, cb, cb.Repr
    {
      && Cursor()
      && cb.input == input && cb.Valid()
      && this !in cb.Repr && scopes !in cb.Repr
      && scopes.Length == INTERNAL_MAX_DEPTH && depth <= maxDepth <= INTERNAL_MAX_DEPTH
    }

    /** Scopes and reported events agree, container by container. */
    ghost predicate Sim()
      requires depth <= scopes.Length
      reads this, scopes, cb
    {
      |cb.z.stack| == depth && forall k :: 0 <= k < depth ==> ScopeAgrees(scopes[k], cb.z.stack[k], input, origin, src)
    }

    predicate AtEnd()
      reads this
    {
      p >= size
    }

    function Peek(): (b: byte)
      requires Cursor() && p < size
      reads this, input
      ensures b == src[p]
    {
      input[origin + p]
    }

    // ---- Integers ----

    /** `parse_unsigned`: a canonical numeral no larger than `max`. The
        accumulator stays within 64 bits. */
    method ParseUnsigned(max: uint64) returns (st: Status, mag: uint64)
      requires Cursor() && max >= 9
      modifies this`p
      ensures Cursor()
      ensures var u := Unsigned(src, old(p), max);
              st == u.st && p == u.pos && (st == Ok ==> mag == u.mag)
    {
      ghost var p0 := p;
      ghost var e := RunEnd(src, p0);
      if AtEnd() || !IsDigit(Peek()) {
        return (if AtEnd() then Truncated else IntegerFormat), 0;
      }
      var first := Peek();
      RunSteps(src, p0, p0);
      p := p + 1;
      assert src[p0..p] == [first];
      ValSingle(first);
      if first == ZERO && !AtEnd() && IsDigit(Peek()) {
        RunSteps(src, p0, p0 + 1);
        return IntegerFormat, 0;
      }
      if first == ZERO {
        RunStops(src, p0, p);
      }
      hide Val, OverAt;
      st, mag := Accumulate(p0, first - ZERO, max);
    }

    /** The digit loop with its division-based overflow guard. */
    method Accumulate(ghost p0: nat, start: uint64, max: uint64) returns (st: Status, acc: uint64)
      requires Cursor() && max >= 9 && p == p0 + 1 <= |src| && p <= RunEnd(src, p0)
      requires start == Val(src[p0..p]) <= 9
      modifies this`p
      ensures Cursor()
      ensures var e := RunEnd(src, p0);
              if Val(src[p0..e]) <= max then st == Ok && p == e && acc == Val(src[p0..e])
              else st == IntegerOverflow && p == OverAt(src, p0, p0, e, max)
    {
      hide RunEnd, Val, OverAt;
      ghost var e := RunEnd(src, p0);
      acc := start;
      while !AtEnd() && IsDigit(Peek())
        invariant p0 < p <= e && Cursor()
        invariant acc == Val(src[p0..p]) <= max
        invariant forall k {:trigger src[p0..k+1]} :: p0 <= k < p ==> Val(src[p0..k+1]) <= max
        decreases size - p
      {
        var digit: uint64 := Peek() - ZERO;
        RunSteps(src, p0, p);
        ValSnoc(src, p0, p);
        if acc > (max - digit) / 10 {
          Overflows(p0, p, e, max);
          return IntegerOverflow, 0;
        }
        acc := acc * 10 + digit;
        p := p + 1;
      }
      RunStops(src, p0, p);
      return Ok, acc;
    }

    lemma Overflows(p0: nat, q: nat, e: nat, max: nat)
      requires p0 <= q < e <= |src| && AllDigits(src[p0..e]) && Val(src[p0..q+1]) > max
      requires forall k {:trigger src[p0..k+1]} :: p0 <= k < q ==> Val(src[p0..k+1]) <= max
      ensures Val(src[p0..e]) > max && OverAt(src, p0, p0, e, max) == q
    {
      hide Val, OverAt;
      ValMonotone(src[p0..e], q + 1 - p0);
      ShorterSlice(src, p0, q + 1, e);
      OverAtIs(src, p0, p0, q, e, max);
    }

    /** The part of `parse_int` before the callback. */
    method ScanInt() returns (st: Status, value: int64)
      requires Cursor() && p < |src| && src[p] == CH_I
      modifies this`p
      ensures Cursor()
      ensures var t := IntAt(src, old(p));
              st == t.st && p == t.pos && (st == Ok ==> value == t.value)
    {
      hide Unsigned;
      p := p + 1;
      var negative := false;
      if !AtEnd() && Peek() == MINUS {
        negative := true;
        p := p + 1;
      }
      if AtEnd() {
        return Truncated, 0;
      }
      if !IsDigit(Peek()) {
        return IntegerFormat, 0;
      }
      var posMax: uint64 := INT64_MAX;
      var negMax: uint64 := INT64_MAX + 1;
      var mag;
      st, mag := ParseUnsigned(if negative then negMax else posMax);
      if st != Ok {
        return st, 0;
      }
      if negative && mag == 0 {
        return IntegerFormat, 0;
      }
      if AtEnd() || Peek() != CH_E {
        return (if AtEnd() then Truncated else UnexpectedByte), 0;
      }
      p := p + 1;
      if negative {
        if mag == negMax {
          value := INT64_MIN;
        } else {
          var magnitude: int64 := mag;
          value := 0 - magnitude;
        }
      } else {
        value := mag;
      }
      return Ok, value;
    }

    /** `parse_string`: the payload is the stretch of input it returns. */
    method ParseString() returns (st: Status, s: Slice)
      requires Cursor()
      modifies this`p
      ensures Cursor()
      ensures s.buf == input && InBounds(s)
      ensures var t := StringAt(src, old(p));
              && st == t.st && p == t.pos
              && (st == Ok ==>
                    && s.off == origin + t.off && s.off + s.len == origin + t.pos
                    && SliceBytes(s) == src[t.off..t.pos])
    {
      hide Unsigned, SliceBytes;
      s := Slice(input, 0, 0);
      var mag;
      st, mag := ParseUnsigned(SIZE_MAX);
      if st != Ok {
        return;
      }
      if AtEnd() || Peek() != COLON {
        return (if AtEnd() then Truncated else UnexpectedByte), s;
      }
      p := p + 1;
      var len := mag;
      var remaining := size - p;
      if len > remaining {
        return StringLength, s;
      }
      s := Slice(input, origin + p, len);
      SliceText(p, len);
      p := p + len;
      return Ok, s;
    }

    /** The input at an offset is the text at the cursor. */
    lemma SliceText(i: nat, len: nat)
      requires Cursor() && i + len <= |src|
      ensures SliceBytes(Slice(input, origin + i, len)) == src[i..i+len]
    {
      var a, b := input[origin+i..origin+i+len], src[i..i+len];
      assert |a| == |b|;
      forall k | 0 <= k < len ensures a[k] == b[k] {
      }
    }

    // ---- Scopes ----

    method PushScope(isDict: bool) returns (st: Status)
      requires scopes.Length == INTERNAL_MAX_DEPTH && depth <= maxDepth <= INTERNAL_MAX_DEPTH
      modifies this`depth, scopes
      ensures st == if old(depth) >= maxDepth then NestingTooDeep else Ok
      ensures st == Ok ==> depth == old(depth) + 1 && scopes[old(depth)] == Scope(isDict, isDict, None)
      ensures st != Ok ==> depth == old(depth)
      ensures forall k :: 0 <= k < old(depth) ==> scopes[k] == old(scopes[k])
    {
      if depth >= maxDepth {
        return NestingTooDeep;
      }
      scopes[depth] := Scope(isDict, isDict, None);
      depth := depth + 1;
      return Ok;
    }

    method PopScope()
      requires depth > 0
      modifies this`depth
      ensures depth == old(depth) - 1
    {
      depth := depth - 1;
    }

    /** Report an event just read; the parser stays in order. */
    method Report(sig: Signal) returns (st: Status)
      requires Ready() && cb.verdict == Ok && Readable(sig, input)
      requires Legal(cb.z, Meaning(sig)) && |cb.z.stack| <= maxDepth
      requires sig.SListBegin? || sig.SDictBegin? ==> |cb.z.stack| < maxDepth
      modifies cb.Repr
      ensures Ready() && fresh(cb.Repr - old(cb.Repr))
      ensures cb.log == old(cb.log) + [old(Meaning(sig))] && cb.z == Step(old(cb.z), old(Meaning(sig)))
      ensures st == cb.verdict
      ensures p == old(p) && depth == old(depth)
      ensures forall k :: 0 <= k < scopes.Length ==> scopes[k] == old(scopes[k])
    {
      st := cb.Offer(sig);
    }

    // ---- Values and containers ----

    /** What parsing from the current state, with `path` ahead, has to establish.
        `d` is the depth to come back to. */
    twostate predicate Followed(path: Path, d: nat, st: Status)
      requires d <= scopes.Length
      reads this, input, scopes, cb, cb.Repr
    {
      && Ready() && fresh(cb.Repr - old(cb.Repr)) && depth == d
      && Follows(path, old(cb.log), cb.log, cb.verdict, st, p)
      && (forall k :: 0 <= k < d ==> scopes[k] == old(scopes[k]))
    }

    /** `parse_int` */
    method ParseInt() returns (st: Status)
      requires Ready() && cb.verdict == Ok && Sim() && Awaits(cb.z) && p < |src| && src[p] == CH_I
      modifies this, scopes, cb.Repr
      ensures Followed(ValueAt(src, old(p), maxDepth - old(depth)).path, old(depth), st)
      ensures st == Ok ==> cb.z == Deliver(old(cb.z), ValueAt(src, old(p), maxDepth - old(depth)).val)
    {
      hide IntAt, Deliver, Awaits, ValueAt, Follows, Callbacks.Valid;
      IntUnfold(src, p, maxDepth - depth);
      ghost var log0 := cb.log;
      var value;
      st, value := ScanInt();
      if st != Ok {
        FollowsStop(st, p, cb.log);
        return;
      }
      st := Report(SInt(value));
      FollowsOne(EInt(value), p, log0, cb.verdict);
      FollowsStatus(ValueAt(src, old(p), maxDepth - depth).path, log0, cb.log, cb.verdict, st, p);
    }

    /** A byte string in value position. */
    method ParseStringValue() returns (st: Status)
      requires Ready() && cb.verdict == Ok && Sim() && Awaits(cb.z) && p < |src| && IsDigit(src[p])
      modifies this, scopes, cb.Repr
      ensures Followed(ValueAt(src, old(p), maxDepth - old(depth)).path, old(depth), st)
      ensures st == Ok ==> cb.z == Deliver(old(cb.z), ValueAt(src, old(p), maxDepth - old(depth)).val)
    {
      hide StringAt, Deliver, Legal, Step, Awaits, ValueAt, Follows, SliceBytes, Callbacks.Valid;
      StringUnfold(src, p, maxDepth - depth);
      ghost var log0 := cb.log;
      var s;
      st, s := ParseString();
      if st != Ok {
        FollowsStop(st, p, cb.log);
        return;
      }
      ghost var bytes := SliceBytes(s);
      StringDelivers(cb.z, bytes);
      st := Report(SStr(s));
      FollowsOne(EStr(bytes), p, log0, cb.verdict);
      FollowsStatus(ValueAt(src, old(p), maxDepth - depth).path, log0, cb.log, cb.verdict, st, p);
    }

    /** Dispatch on the first byte. */
    method ParseValue() returns (st: Status)
      requires Ready() && cb.verdict == Ok && Sim() && Awaits(cb.z)
      modifies this, scopes, cb.Repr
      ensures Followed(ValueAt(src, old(p), maxDepth - old(depth)).path, old(depth), st)
      ensures st == Ok ==> cb.z == Deliver(old(cb.z), ValueAt(src, old(p), maxDepth - old(depth)).val)
      decreases |src| - p, 1
    {
      if AtEnd() {
        FollowsStop(Truncated, p, cb.log);
        return Truncated;
      }
      var b := Peek();
      if b == CH_I {
        st := ParseInt();
      } else if b == CH_L {
        st := ParseList();
      } else if b == CH_D {
        st := ParseDict();
      } else if IsDigit(b) {
        st := ParseStringValue();
      } else {
        FollowsStop(UnexpectedByte, p, cb.log);
        return UnexpectedByte;
      }
    }

    /** `parse_list` */
    method ParseList() returns (st: Status)
      requires Ready() && cb.verdict == Ok && Sim() && Awaits(cb.z) && p < |src| && src[p] == CH_L
      modifies this, scopes, cb.Repr
      ensures Followed(ValueAt(src, old(p), maxDepth - old(depth)).path, old(depth), st)
      ensures st == Ok ==> cb.z == Deliver(old(cb.z), ValueAt(src, old(p), maxDepth - old(depth)).val)
      decreases |src| - p, 0
    {
      hide Deliver, Awaits, ValueAt, ItemsAt, Follows, Callbacks.Valid, ScopeAgrees;
      ghost var log0, z0 := cb.log, cb.z;
      ListUnfold(src, p, maxDepth - depth);
      p := p + 1;
      st := PushScope(false);
      if st != Ok {
        FollowsStop(st, p, cb.log);
        return;
      }
      st := Report(SListBegin);
      FollowsOne(EListBegin, p, log0, cb.verdict);
      if st != Ok {
        FollowsCut(Path(Ok, p, [Mark(EListBegin, p)]), ItemsAt(src, p, maxDepth - depth).path,
                   log0, cb.log, cb.verdict, st, p);
        PopScope();
        return;
      }
      assert cb.log == log0 + Events([Mark(EListBegin, p)]);
      SimPush(z0, false);
      ghost var log1 := cb.log;
      st := ParseItems(z0);
      FollowsThen([Mark(EListBegin, old(p) + 1)], ItemsAt(src, old(p) + 1, maxDepth - old(depth) - 1).path,
                  log0, log1, cb.log, cb.verdict, st, p);
    }

    /** A scope just pushed agrees with a container just begun. */
    lemma SimPush(z0: Zip, isDict: bool)
      requires 0 < depth <= scopes.Length && |z0.stack| == depth - 1
      requires forall k :: 0 <= k < depth - 1 ==> ScopeAgrees(scopes[k], z0.stack[k], input, origin, src)
      requires scopes[depth-1] == Scope(isDict, isDict, None) && cb.z == Push(z0, EmptyFrame(isDict))
      ensures Sim()
    {
      var z := cb.z;
      assert forall k :: 0 <= k < depth - 1 ==> z.stack[k] == z0.stack[k];
      assert ScopeAgrees(scopes[depth-1], z.stack[depth-1], input, origin, src);
    }

    /** How far the loop of `parse_list` has come: `full` is the whole run, `pre`
        what has been reported of it, `vals` the items read. */
    ghost predicate InList(z0: Zip, full: Out<seq<Value>>, pre: seq<Mark>, vals: seq<Value>, log0: seq<Event>)
      requires p <= |src| && depth <= maxDepth
      reads this, cb
    {
      && cb.z == Push(z0, FList(vals)) && cb.log == log0 + Events(pre)
      && full.path == After(pre, ItemsAt(src, p, maxDepth - depth).path)
      && full.val == vals + ItemsAt(src, p, maxDepth - depth).val
    }

    /** The loop of `parse_list`, up to and including the closing `e`. */
    method ParseItems(ghost z0: Zip) returns (st: Status)
      requires Ready() && cb.verdict == Ok && Sim() && depth > 0
      requires Awaits(z0) && cb.z == Push(z0, FList([]))
      modifies this, scopes, cb.Repr
      ensures Followed(ItemsAt(src, old(p), maxDepth - old(depth)).path, old(depth) - 1, st)
      ensures st == Ok ==> cb.z == Deliver(z0, VList(ItemsAt(src, old(p), maxDepth - old(depth)).val))
      decreases |src| - p, 3
    {
      hide Deliver, Awaits, ValueAt, ItemsAt, Follows, Callbacks.Valid, ScopeAgrees, Events, Push, Sim;
      ghost var log0, full := cb.log, ItemsAt(src, p, maxDepth - depth);
      ghost var pre, vals := [], [];
      NothingYet(log0, full.path);
      assert [] + full.val == full.val;
      assert InList(z0, full, pre, vals, log0);
      hide InList;
      while true
        invariant Ready() && cb.verdict == Ok && Sim() && depth == old(depth) && old(p) <= p
        invariant fresh(cb.Repr - old(cb.Repr))
        invariant forall k :: 0 <= k < depth - 1 ==> scopes[k] == old(scopes[k])
        invariant InList(z0, full, pre, vals, log0)
        decreases |src| - p
      {
        if AtEnd() {
          ListTruncated(z0, full, pre, vals, log0);
          PopScope();
          return Truncated;
        }
        if Peek() == CH_E {
          st := CloseList(z0, full, pre, vals, log0);
          return;
        }
        st, pre, vals := ParseItem(z0, full, pre, vals, log0);
        if st != Ok {
          PopScope();
          return;
        }
      }
    }

    lemma ListTruncated(z0: Zip, full: Out<seq<Value>>, pre: seq<Mark>, vals: seq<Value>, log0: seq<Event>)
      requires p == |src| && depth <= maxDepth && InList(z0, full, pre, vals, log0)
      ensures Follows(full.path, log0, cb.log, Ok, Truncated, p)
    {
      hide Follows;
      ItemsAtEnd(src, p, maxDepth - depth);
      FollowsStop(Truncated, p, cb.log);
      FollowsThen(pre, Stop(Truncated, p), log0, cb.log, cb.log, Ok, Truncated, p);
    }

    /** One turn of the loop: one more item. */
    method ParseItem(ghost z0: Zip, ghost full: Out<seq<Value>>, ghost pre: seq<Mark>, ghost vals: seq<Value>,
                     ghost log0: seq<Event>)
      returns (st: Status, ghost pre': seq<Mark>, ghost vals': seq<Value>)
      requires Ready() && cb.verdict == Ok && Sim() && depth > 0 && p < |src| && src[p] != CH_E
      requires InList(z0, full, pre, vals, log0)
      modifies this, scopes, cb.Repr
      ensures Ready() && fresh(cb.Repr - old(cb.Repr)) && depth == old(depth)
      ensures forall k :: 0 <= k < depth - 1 ==> scopes[k] == old(scopes[k])
      ensures st != Ok ==> Follows(full.path, log0, cb.log, cb.verdict, st, p)
      ensures st == Ok ==> cb.verdict == Ok && Sim() && old(p) < p && InList(z0, full, pre', vals', log0)
      decreases |src| - p, 2
    {
      hide Deliver, Awaits, ValueAt, ItemsAt, Follows, Callbacks.Valid, ScopeAgrees, Events, Push, Sim;
      ghost var room, log1 := maxDepth - depth, cb.log;
      ghost var v := ValueAt(src, p, room);
      ItemsUnfold(src, p, room);
      PushedList(z0, vals, v.val);
      SimTop(z0, FList(vals));
      ListScope(scopes[depth-1], vals);
      pre', vals' := pre + v.path.trace, vals + [v.val];
      ghost var rest := if v.path.st == Ok then ItemsAt(src, v.path.pos, room) else Out(v.path, []);
      st := ParseValue();
      if st != Ok {
        AbortInside(full.path, pre, v.path, rest.path, log0, log1, cb.log, cb.verdict, st, p);
        return;
      }
      FollowsStatus(v.path, log1, cb.log, cb.verdict, st, p);
      PassedFirst(full.path, pre, v.path, rest.path, log0, log1, cb.log, st, p);
      SimList(z0, vals');
      assert vals + ([v.val] + rest.val) == vals' + rest.val;
    }

    /** The closing `e` of a list. */
    method CloseList(ghost z0: Zip, ghost full: Out<seq<Value>>, ghost pre: seq<Mark>, ghost vals: seq<Value>,
                     ghost log0: seq<Event>)
      returns (st: Status)
      requires Ready() && cb.verdict == Ok && Sim() && depth > 0 && p < |src| && src[p] == CH_E
      requires Awaits(z0) && InList(z0, full, pre, vals, log0)
      modifies this, cb.Repr
      ensures Ready() && fresh(cb.Repr - old(cb.Repr)) && depth == old(depth) - 1
      ensures Follows(full.path, log0, cb.log, cb.verdict, st, p)
      ensures st == Ok ==> cb.z == Deliver(z0, VList(full.val))
      ensures forall k :: 0 <= k < scopes.Length ==> scopes[k] == old(scopes[k])
    {
      hide Deliver, Awaits, Follows, Callbacks.Valid, ScopeAgrees, Legal, Step, Events, Push, ItemsAt;
      ghost var log1 := cb.log;
      ItemsAtClose(src, p, maxDepth - depth);
      assert full.val == vals + [] == vals;
      SizeOfSim();
      p := p + 1;
      PopScope();
      ListCloses(z0, vals);
      st := Report(SListEnd);
      FollowsOne(EListEnd, p, log1, cb.verdict);
      FollowsThen(pre, Path(Ok, p, [Mark(EListEnd, p)]), log0, log1, cb.log, cb.verdict, st, p);
    }

    lemma SizeOfSim()
      requires depth <= scopes.Length && Sim()
      ensures |cb.z.stack| == depth
    {
    }

    lemma ListScope(sc: Scope, vals: seq<Value>)
      ensures ScopeAgrees(sc, FList(vals), input, origin, src) <==> ScopeAgrees(sc, FList([]), input, origin, src)
    {
    }

    lemma SimList(z0: Zip, vals: seq<Value>)
      requires 0 < depth <= scopes.Length && |z0.stack| == depth - 1
      requires forall k :: 0 <= k < depth - 1 ==> ScopeAgrees(scopes[k], z0.stack[k], input, origin, src)
      requires ScopeAgrees(scopes[depth-1], FList([]), input, origin, src)
      requires cb.z == Push(z0, FList(vals))
      ensures Sim()
    {
      hide LastKey;
      var z := cb.z;
      assert forall k :: 0 <= k < depth - 1 ==> z.stack[k] == z0.stack[k];
    }

    /** `parse_dict` */
    method ParseDict() returns (st: Status)
      requires Ready() && cb.verdict == Ok && Sim() && Awaits(cb.z) && p < |src| && src[p] == CH_D
      modifies this, scopes, cb.Repr
      ensures Followed(ValueAt(src, old(p), maxDepth - old(depth)).path, old(depth), st)
      ensures st == Ok ==> cb.z == Deliver(old(cb.z), ValueAt(src, old(p), maxDepth - old(depth)).val)
      decreases |src| - p, 0
    {
      hide Events, Deliver, Awaits, ValueAt, DictRest, Follows, Callbacks.Valid, ScopeAgrees;
      ghost var log0, z0 := cb.log, cb.z;
      DictUnfold(src, p, maxDepth - depth);
      p := p + 1;
      st := PushScope(true);
      if st != Ok {
        FollowsStop(st, p, cb.log);
        return;
      }
      st := Report(SDictBegin);
      FollowsOne(EDictBegin, p, log0, cb.verdict);
      if st != Ok {
        FollowsCut(Path(Ok, p, [Mark(EDictBegin, p)]), DictRest(src, p, maxDepth - depth, None, None).path,
                   log0, cb.log, cb.verdict, st, p);
        PopScope();
        return;
      }
      assert cb.log == log0 + Events([Mark(EDictBegin, p)]);
      SimPush(z0, true);
      ghost var log1 := cb.log;
      st := ParseEntries(z0);
      FollowsThen([Mark(EDictBegin, old(p) + 1)],
                  DictRest(src, old(p) + 1, maxDepth - old(depth) - 1, None, None).path,
                  log0, log1, cb.log, cb.verdict, st, p);
    }

    /** `parse_dict_key`: a key that exceeds the previous one. */
    method ParseDictKey(ghost z0: Zip, ghost pairs: seq<Pair>) returns (st: Status)
      requires Ready() && cb.verdict == Ok && Sim() && depth > 0 && p < |src|
      requires cb.z == Push(z0, FDict(pairs, None))
      modifies this`p, scopes, cb.Repr
      ensures Ready() && fresh(cb.Repr - old(cb.Repr))
      ensures var k := KeyAt(src, old(p), LastKey(FDict(pairs, None)));
              && Follows(k.path, old(cb.log), cb.log, cb.verdict, st, p)
              && (st == Ok ==> cb.z == Push(z0, FDict(pairs, Some(k.val))) && Sim())
      ensures forall k :: 0 <= k < depth - 1 ==> scopes[k] == old(scopes[k])
    {
      hide Step, Awaits, StringAt, Follows, Callbacks.Valid, Less, BytesCmp, SliceBytes, Sim;
      ghost var log0, last := cb.log, LastKey(FDict(pairs, None));
      SimTop(z0, FDict(pairs, None));
      if !IsDigit(Peek()) {
        FollowsStop(DictBadKey, p, cb.log);
        return DictBadKey;
      }
      var s;
      st, s := ParseString();
      if st != Ok {
        FollowsStop(st, p, cb.log);
        return;
      }
      var key := SliceBytes(s);
      var sc := scopes[depth-1];
      st := CheckOrder(sc, key, FDict(pairs, None));
      if st != Ok {
        FollowsStop(st, p, cb.log);
        return;
      }
      scopes[depth-1] := sc.(lastKey := Some(s), expectingKey := false);
      KeyHolds(z0, pairs, key);
      st := Report(SStr(s));
      FollowsOne(EStr(key), p, log0, cb.verdict);
      SimKey(z0, pairs, key, s);
    }

    lemma SimKey(z0: Zip, pairs: seq<Pair>, key: Bytes, s: Slice)
      requires 0 < depth <= scopes.Length && |z0.stack| == depth - 1
      requires forall k :: 0 <= k < depth - 1 ==> ScopeAgrees(scopes[k], z0.stack[k], input, origin, src)
      requires scopes[depth-1] == Scope(true, false, Some(s))
      requires s.buf == input && origin <= s.off && s.off + s.len <= origin + |src|
      requires src[s.off-origin..s.off-origin+s.len] == key
      requires cb.z == Push(z0, FDict(pairs, Some(key)))
      ensures Sim()
    {
      var z := cb.z;
      assert forall k :: 0 <= k < depth - 1 ==> z.stack[k] == z0.stack[k];
      assert src[s.off-origin..][..s.len] == src[s.off-origin..s.off-origin+s.len];
      assert ScopeAgrees(scopes[depth-1], z.stack[depth-1], input, origin, src);
    }

    /** The value of an entry, after which a key is due again. */
    method ParseEntryValue(ghost z0: Zip, ghost pairs: seq<Pair>, ghost key: Bytes) returns (st: Status)
      requires Ready() && cb.verdict == Ok && Sim() && depth > 0
      requires cb.z == Push(z0, FDict(pairs, Some(key)))
      modifies this, scopes, cb.Repr
      ensures Ready() && fresh(cb.Repr - old(cb.Repr)) && depth == old(depth)
      ensures var v := ValueAt(src, old(p), maxDepth - depth);
              && Follows(v.path, old(cb.log), cb.log, cb.verdict, st, p)
              && (st == Ok ==> cb.z == Push(z0, FDict(pairs + [Pair(key, v.val)], None)) && Sim())
      ensures forall k :: 0 <= k < depth - 1 ==> scopes[k] == old(scopes[k])
      decreases |src| - p, 2
    {
      hide Deliver, Awaits, ValueAt, Follows, Callbacks.Valid, ScopeAgrees, Sim;
      ghost var v := ValueAt(src, p, maxDepth - depth);
      SimTop(z0, FDict(pairs, Some(key)));
      PushedEntry(z0, pairs, key, v.val);
      st := ParseValue();
      if st == Ok {
        scopes[depth-1] := scopes[depth-1].(expectingKey := true);
        SimNextKey(z0, pairs, key, v.val, old(scopes[depth-1]));
      }
    }

    lemma SimNextKey(z0: Zip, pairs: seq<Pair>, key: Bytes, v: Value, was: Scope)
      requires 0 < depth <= scopes.Length && |z0.stack| == depth - 1
      requires forall k :: 0 <= k < depth - 1 ==> ScopeAgrees(scopes[k], z0.stack[k], input, origin, src)
      requires ScopeAgrees(was, FDict(pairs, Some(key)), input, origin, src)
      requires scopes[depth-1] == was.(expectingKey := true)
      requires cb.z == Push(z0, FDict(pairs + [Pair(key, v)], None))
      ensures Sim()
    {
      var z := cb.z;
      assert forall k :: 0 <= k < depth - 1 ==> z.stack[k] == z0.stack[k];
      assert ScopeAgrees(scopes[depth-1], z.stack[depth-1], input, origin, src);
    }

    /** How far the loop of `parse_dict` has come; `key` is the key whose value is
        due, if any. */
    ghost predicate InDict(z0: Zip, full: Out<seq<Pair>>, pre: seq<Mark>, pairs: seq<Pair>,
                           key: Option<Bytes>, log0: seq<Event>)
      requires p <= |src| && depth <= maxDepth
      reads this, cb
    {
      var rest := DictRest(src, p, maxDepth - depth, key, LastKey(FDict(pairs, None)));
      && cb.z == Push(z0, FDict(pairs, key)) && cb.log == log0 + Events(pre)
      && full.path == After(pre, rest.path) && full.val == pairs + rest.val
    }

    /** The closing `e` of a dictionary. */
    method CloseDict(ghost z0: Zip, ghost full: Out<seq<Pair>>, ghost pre: seq<Mark>, ghost pairs: seq<Pair>,
                     ghost log0: seq<Event>)
      returns (st: Status)
      requires Ready() && cb.verdict == Ok && Sim() && depth > 0 && p < |src| && src[p] == CH_E
      requires Awaits(z0) && InDict(z0, full, pre, pairs, None, log0)
      modifies this, cb.Repr
      ensures Ready() && fresh(cb.Repr - old(cb.Repr)) && depth == old(depth) - 1
      ensures Follows(full.path, log0, cb.log, cb.verdict, st, p)
      ensures st == Ok ==> cb.z == Deliver(z0, VDict(full.val))
      ensures forall k :: 0 <= k < scopes.Length ==> scopes[k] == old(scopes[k])
    {
      hide Deliver, Awaits, Follows, Callbacks.Valid, ScopeAgrees, Legal, Step, Events, Push, DictRest, LastKey;
      ghost var log1 := cb.log;
      DictAtClose(src, p, maxDepth - depth, None, LastKey(FDict(pairs, None)));
      assert full.val == pairs + [] == pairs;
      SizeOfSim();
      p := p + 1;
      PopScope();
      DictCloses(z0, pairs);
      st := Report(SDictEnd);
      FollowsOne(EDictEnd, p, log1, cb.verdict);
      FollowsThen(pre, Path(Ok, p, [Mark(EDictEnd, p)]), log0, log1, cb.log, cb.verdict, st, p);
    }

    /** Order and uniqueness, against the previous key only. */
    method CheckOrder(sc: Scope, key: Bytes, ghost f: Frame) returns (st: Status)
      requires Cursor() && ScopeAgrees(sc, f, input, origin, src) && f.FDict?
      ensures st == if LastKey(f).Some? && LastKey(f).value == key then DictDuplicate
                    else if LastKey(f).Some? && Less(key, LastKey(f).value) then DictUnsorted
                    else Ok
      ensures st == Ok && LastKey(f).Some? ==> Less(LastKey(f).value, key)
    {
      hide Less, BytesCmp;
      if sc.lastKey.Some? {
        LastKeyBytes(sc, f);
        var last := SliceBytes(sc.lastKey.value);
        var c := BytesCmp(last, key);
        BytesCmpDecides(last, key);
        if c == 0 {
          return DictDuplicate;
        }
        if c > 0 {
          return DictUnsorted;
        }
      }
      return Ok;
    }

    lemma SimTop(z0: Zip, f: Frame)
      requires 0 < depth <= scopes.Length && Sim() && cb.z == Push(z0, f)
      ensures ScopeAgrees(scopes[depth-1], f, input, origin, src)
      ensures |z0.stack| == depth - 1
      ensures forall k :: 0 <= k < depth - 1 ==> ScopeAgrees(scopes[k], z0.stack[k], input, origin, src)
    {
      var z := cb.z;
      assert z.stack[depth-1] == f;
      assert forall k :: 0 <= k < depth - 1 ==> z.stack[k] == z0.stack[k];
    }

    lemma LastKeyBytes(sc: Scope, f: Frame)
      requires Cursor() && ScopeAgrees(sc, f, input, origin, src) && f.FDict? && sc.lastKey.Some?
      ensures LastKey(f).Some? && sc.lastKey.value.buf == input
      ensures InBounds(sc.lastKey.value) && SliceBytes(sc.lastKey.value) == LastKey(f).value
    {
      var s := sc.lastKey.value;
      assert src[s.off-origin..][..s.len] == src[s.off-origin..s.off-origin+s.len];
    }

    /** The loop of `parse_dict`. */
    method ParseEntries(ghost z0: Zip) returns (st: Status)
      requires Ready() && cb.verdict == Ok && Sim() && depth > 0
      requires Awaits(z0) && cb.z == Push(z0, FDict([], None))
      modifies this, scopes, cb.Repr
      ensures Followed(DictRest(src, old(p), maxDepth - old(depth), None, None).path, old(depth) - 1, st)
      ensures st == Ok ==>
                cb.z == Deliver(z0, VDict(DictRest(src, old(p), maxDepth - old(depth), None, None).val))
      decreases |src| - p, 4
    {
      hide Deliver, Awaits, ValueAt, DictRest, KeyAt, Follows, Callbacks.Valid, ScopeAgrees, Sim, Events, LastKey, Push;
      ghost var log0, full := cb.log, DictRest(src, p, maxDepth - depth, None, None);
      ghost var pre, pairs, key: Option<Bytes> := [], [], None;
      NothingYet(log0, full.path);
      assert [] + full.val == full.val;
      assert InDict(z0, full, pre, pairs, key, log0);
      hide InDict;
      while true
        invariant Ready() && cb.verdict == Ok && Sim() && depth == old(depth) && old(p) <= p
        invariant fresh(cb.Repr - old(cb.Repr))
        invariant forall k :: 0 <= k < depth - 1 ==> scopes[k] == old(scopes[k])
        invariant InDict(z0, full, pre, pairs, key, log0)
        decreases |src| - p
      {
        DictFlag(z0, full, pre, pairs, key, log0);
        var i := depth - 1;
        if AtEnd() {
          DictStops(z0, full, pre, pairs, key, log0);
          PopScope();
          return Truncated;
        }
        if Peek() == CH_E {
          if !scopes[i].expectingKey {
            DictStops(z0, full, pre, pairs, key, log0);
            PopScope();
            return DictMissingValue;
          }
          st := CloseDict(z0, full, pre, pairs, log0);
          return;
        }
        if scopes[i].expectingKey {
          st, pre, key := ParseKeyTurn(z0, full, pre, pairs, log0);
        } else {
          st, pre, pairs := ParseValueTurn(z0, full, pre, pairs, key.value, log0);
          key := None;
        }
        if st != Ok {
          PopScope();
          return;
        }
      }
    }

    /** The key flag of the scope tells which phase the dictionary is in. */
    lemma DictFlag(z0: Zip, full: Out<seq<Pair>>, pre: seq<Mark>, pairs: seq<Pair>,
                   key: Option<Bytes>, log0: seq<Event>)
      requires 0 < depth <= scopes.Length && Sim() && p <= |src| && depth <= maxDepth
      requires InDict(z0, full, pre, pairs, key, log0)
      ensures scopes[depth-1].expectingKey <==> key.None?
    {
      SimTop(z0, FDict(pairs, key));
    }

    /** The two errors found before anything more is read. */
    lemma DictStops(z0: Zip, full: Out<seq<Pair>>, pre: seq<Mark>, pairs: seq<Pair>,
                    key: Option<Bytes>, log0: seq<Event>)
      requires p <= |src| && depth <= maxDepth && InDict(z0, full, pre, pairs, key, log0)
      ensures p == |src| ==> Follows(full.path, log0, cb.log, Ok, Truncated, p)
      ensures p < |src| && src[p] == CH_E && key.Some? ==> Follows(full.path, log0, cb.log, Ok, DictMissingValue, p)
    {
      hide Follows, DictRest, LastKey;
      var last := LastKey(FDict(pairs, None));
      var st := if p == |src| then Truncated else DictMissingValue;
      if p == |src| {
        DictAtEnd(src, p, maxDepth - depth, key, last);
      } else if src[p] == CH_E {
        DictAtClose(src, p, maxDepth - depth, key, last);
      }
      FollowsStop(st, p, cb.log);
      FollowsThen(pre, Stop(st, p), log0, cb.log, cb.log, Ok, st, p);
    }

    /** A turn of the loop in which a key is due. */
    method ParseKeyTurn(ghost z0: Zip, ghost full: Out<seq<Pair>>, ghost pre: seq<Mark>, ghost pairs: seq<Pair>,
                        ghost log0: seq<Event>)
      returns (st: Status, ghost pre': seq<Mark>, ghost key: Option<Bytes>)
      requires Ready() && cb.verdict == Ok && Sim() && depth > 0 && p < |src| && src[p] != CH_E
      requires InDict(z0, full, pre, pairs, None, log0)
      modifies this, scopes, cb.Repr
      ensures Ready() && fresh(cb.Repr - old(cb.Repr)) && depth == old(depth)
      ensures forall k :: 0 <= k < depth - 1 ==> scopes[k] == old(scopes[k])
      ensures st != Ok ==> Follows(full.path, log0, cb.log, cb.verdict, st, p)
      ensures st == Ok ==> cb.verdict == Ok && Sim() && old(p) < p && InDict(z0, full, pre', pairs, key, log0)
    {
      hide Deliver, Awaits, ValueAt, DictRest, KeyAt, Follows, Callbacks.Valid, ScopeAgrees, Sim, Events, LastKey, Push;
      ghost var room, log1, last := maxDepth - depth, cb.log, LastKey(FDict(pairs, None));
      ghost var k := KeyAt(src, p, last);
      EntriesUnfold(src, p, room, last);
      pre', key := pre + k.path.trace, Some(k.val);
      ghost var rest := if k.path.st == Ok then DictRest(src, k.path.pos, room, key, last).path else k.path;
      st := ParseDictKey(z0, pairs);
      if st != Ok {
        AbortInside(full.path, pre, k.path, rest, log0, log1, cb.log, cb.verdict, st, p);
        return;
      }
      FollowsStatus(k.path, log1, cb.log, cb.verdict, st, p);
      PassedFirst(full.path, pre, k.path, rest, log0, log1, cb.log, st, p);
    }

    /** A turn of the loop in which the value of `key` is due. */
    method ParseValueTurn(ghost z0: Zip, ghost full: Out<seq<Pair>>, ghost pre: seq<Mark>, ghost pairs: seq<Pair>,
                          ghost key: Bytes, ghost log0: seq<Event>)
      returns (st: Status, ghost pre': seq<Mark>, ghost pairs': seq<Pair>)
      requires Ready() && cb.verdict == Ok && Sim() && depth > 0 && p < |src| && src[p] != CH_E
      requires InDict(z0, full, pre, pairs, Some(key), log0)
      modifies this, scopes, cb.Repr
      ensures Ready() && fresh(cb.Repr - old(cb.Repr)) && depth == old(depth)
      ensures forall k :: 0 <= k < depth - 1 ==> scopes[k] == old(scopes[k])
      ensures st != Ok ==> Follows(full.path, log0, cb.log, cb.verdict, st, p)
      ensures st == Ok ==> cb.verdict == Ok && Sim() && old(p) < p && InDict(z0, full, pre', pairs', None, log0)
      decreases |src| - p, 3
    {
      hide Deliver, Awaits, ValueAt, DictRest, KeyAt, Follows, Callbacks.Valid, ScopeAgrees, Sim, Events, LastKey, Push;
      ghost var room, log1 := maxDepth - depth, cb.log;
      ghost var v := ValueAt(src, p, room);
      ghost var pair := Pair(key, v.val);
      AfterKeyUnfold(src, p, room, key, LastKey(FDict(pairs, None)));
      LastOf(pairs, pair);
      pre', pairs' := pre + v.path.trace, pairs + [pair];
      ghost var rest := if v.path.st == Ok then DictRest(src, v.path.pos, room, None, Some(key)) else Out(v.path, []);
      st := ParseEntryValue(z0, pairs, key);
      if st != Ok {
        AbortInside(full.path, pre, v.path, rest.path, log0, log1, cb.log, cb.verdict, st, p);
        return;
      }
      FollowsStatus(v.path, log1, cb.log, cb.verdict, st, p);
      PassedFirst(full.path, pre, v.path, rest.path, log0, log1, cb.log, st, p);
      assert pairs + ([pair] + rest.val) == pairs' + rest.val;
    }
  }
}
