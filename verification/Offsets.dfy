/** What the consumed count of a parse points at. The byte that settles an
    outcome is the one up to which more input could still have changed it; the
    consumed count is the offset of that byte for some errors, and one more for
    the others. */
module Offsets {
  import opened Bytes
  import opened Decimal
  import opened Values
  import opened Decoder
  import opened Zipper
  import opened Finality
  import opened Faults

  /** The outcome that a token at `t` leads to is settled by the byte just before
      the cursor, and not by the byte at it. */
  predicate BeforeCursor(s: Bytes, t: nat, st: Status, pos: nat) {
    || st in {Ok, NestingTooDeep, DictDuplicate, DictUnsorted}
    || (st == IntegerFormat && NegativeZero(s, t, pos))
  }

  function Settler(s: Bytes, start: nat, path: Path): int {
    if BeforeCursor(s, LastAt(path.trace, start), path.st, path.pos) then path.pos - 1 else path.pos
  }

  /** The first `n` bytes do not settle the run. */
  predicate Late(s: Bytes, n: nat, start: nat, path: Path) {
    Final(path.st) ==> Settler(s, start, path) >= n
  }

  lemma LateFrom(s: Bytes, n: nat, start: nat, path: Path)
    requires path.pos > n
    ensures Late(s, n, start, path)
  {
  }

  lemma LateAfter(s: Bytes, n: nat, start: nat, pre: seq<Mark>, path: Path)
    requires pre != [] && Late(s, n, pre[|pre|-1].at, path)
    ensures Late(s, n, start, After(pre, path))
  {
  }

  /** A run that begins at or after `n` is not settled by the first `n` bytes. */
  lemma ReadsLate(s: Bytes, p: nat, z: Zip, limit: nat, path: Path, done: Zip, n: nat)
    requires Reads(s, p, z, limit, path, done) && n <= p && (path.st == Ok ==> p < path.pos)
    ensures Late(s, n, p, path)
  {
    hide StringAt, Scan, LegalAll, Run, Less, LastKey, RunEnd, Val;
    if path.st != Ok {
      FaultMeaning(s, LastAt(path.trace, p), Run(z, Events(path.trace)), limit);
      KeyEndsLater(s, LastAt(path.trace, p), Run(z, Events(path.trace)), path.pos);
    }
  }

  lemma KeyEndsLater(s: Bytes, t: nat, z: Zip, pos: nat)
    ensures KeyEnds(s, t, z, pos) ==> t < pos
  {
  }

  // ---- An open outcome is settled later ----

  lemma UnsignedOpen(s: Bytes, u: Bytes, p: nat, max: nat)
    requires p < |s| && IsDigit(s[p])
    requires Unsigned(s, p, max).st == Ok && Unsigned(s, p, max).pos == |s|
    ensures Unsigned(s + u, p, max).pos >= |s|
  {
    var x := s + u;
    var e := RunEnd(x, p);
    RunEndGrows(s, u, p);
    assert s[p..|s|] == x[p..|s|];
    if |s| > p + 1 {
      assert IsDigit(s[p..|s|][1]);
    }
    hide RunEnd, Val, OverAt, AllDigits;
    if Val(x[p..e]) > max {
      OverLater(x, p, |s|, e, max);
    }
  }

  /** A run that is within the bound up to `n` passes it at `n` or later. */
  lemma OverLater(x: Bytes, p: nat, n: nat, e: nat, max: nat)
    requires p < n <= e <= |x| && AllDigits(x[p..n]) && Val(x[p..n]) <= max < Val(x[p..e])
    ensures OverAt(x, p, p, e, max) >= n
  {
    hide Val;
    OverAtFound(x, p, p, e, max);
    var r := OverAt(x, p, p, e, max);
    if r < n {
      ValMonotone(x[p..n], r + 1 - p);
      ShorterSlice(x, p, r + 1, n);
    }
  }

  lemma UnsignedAlone(s: Bytes, q: nat, max: nat)
    requires q + 1 == |s| && IsDigit(s[q]) && Unsigned(s, q, max).st == Ok
    ensures Unsigned(s, q, max).mag == s[q] - ZERO
  {
    assert s[q..|s|] == [s[q]];
    ValSingle(s[q]);
  }

  lemma IntOpen(s: Bytes, u: Bytes, p: nat)
    requires p < |s| && s[p] == CH_I && !Final(IntAt(s, p).st)
    ensures var k := IntAt(s + u, p);
            if k.st == Ok then k.pos > |s|
            else Late(s + u, |s|, p, Stop(k.st, k.pos))
  {
    hide RunEnd, Val, OverAt;
    var x := s + u;
    var q := DigitsAt(s, p);
    if q < |s| {
      UnsignedOpen(s, u, q, Largest(s, p));
      if q + 1 == |s| {
        UnsignedAlone(s, q, Largest(s, p));
      }
    }
    hide Unsigned;
  }

  lemma StringOpen(s: Bytes, u: Bytes, p: nat)
    requires p < |s| && IsDigit(s[p]) && !Final(StringAt(s, p).st)
    ensures var k := StringAt(s + u, p);
            if k.st == Ok then k.pos > |s|
            else Late(s + u, |s|, p, Stop(k.st, k.pos))
  {
    var m := Unsigned(s, p, SIZE_MAX);
    if m.st == Ok && m.pos == |s| {
      UnsignedOpen(s, u, p, SIZE_MAX);
    } else {
      UnsignedFinal(s, u, p, SIZE_MAX);
    }
    hide Unsigned;
  }

  lemma KeyOpen(s: Bytes, u: Bytes, p: nat, last: Option<Bytes>)
    requires p < |s| && !Final(KeyAt(s, p, last).path.st)
    ensures var k := KeyAt(s + u, p, last).path;
            if k.st == Ok then k.pos > |s|
            else Late(s + u, |s|, p, k)
  {
    hide StringAt, Less;
    if IsDigit(s[p]) {
      StringOpen(s, u, p);
    }
  }

  lemma {:induction false} ValueOpen(s: Bytes, u: Bytes, p: nat, room: nat)
    requires p <= |s| && !Final(ValueAt(s, p, room).path.st)
    ensures Late(s + u, |s|, p, ValueAt(s + u, p, room).path)
    decreases |s| - p, 1
  {
    hide Late, ItemsAt, DictRest, IntAt, StringAt, Reads;
    var x := s + u;
    var w := ValueAt(x, p, room);
    if p == |s| {
      ValueReads(x, p, room, Start);
      ReadsLate(x, p, Start, room, w.path, Deliver(Start, w.val), |s|);
    } else if s[p] == CH_I {
      IntUnfold(s, p, room);
      IntUnfold(x, p, room);
      IntOpen(s, u, p);
      if w.path.st == Ok {
        LateFrom(x, |s|, p, w.path);
      }
    } else if s[p] == CH_L {
      ListUnfold(s, p, room);
      ListUnfold(x, p, room);
      ItemsOpen(s, u, p + 1, room - 1);
      LateAfter(x, |s|, p, [Mark(EListBegin, p + 1)], ItemsAt(x, p + 1, room - 1).path);
    } else if s[p] == CH_D {
      DictUnfold(s, p, room);
      DictUnfold(x, p, room);
      DictOpen(s, u, p + 1, room - 1, None, None);
      LateAfter(x, |s|, p, [Mark(EDictBegin, p + 1)], DictRest(x, p + 1, room - 1, None, None).path);
    } else if IsDigit(s[p]) {
      StringUnfold(s, p, room);
      StringUnfold(x, p, room);
      StringOpen(s, u, p);
      if w.path.st == Ok {
        LateFrom(x, |s|, p, w.path);
      }
    }
  }

  lemma {:induction false} ItemsOpen(s: Bytes, u: Bytes, p: nat, room: nat)
    requires p <= |s| && !Final(ItemsAt(s, p, room).path.st)
    ensures Late(s + u, |s|, p, ItemsAt(s + u, p, room).path)
    decreases |s| - p, 2
  {
    hide Late, ItemsAt, ValueAt, Reads;
    var x := s + u;
    var r := ItemsAt(x, p, room);
    if p == |s| {
      ItemsReads(x, p, room, Start, []);
      ReadsLate(x, p, Push(Start, FList([])), 1 + room, r.path, Deliver(Start, VList([] + r.val)), |s|);
    } else if s[p] == CH_E {
      ItemsAtClose(s, p, room);
    } else {
      ItemsUnfold(s, p, room);
      ItemsUnfold(x, p, room);
      var v, w := ValueAt(s, p, room), ValueAt(x, p, room);
      if v.path.st == Ok {
        ValueFinal(s, u, p, room);
        OkEndsAt(x, p, room);
        ItemsOpen(s, u, v.path.pos, room);
        LateAfter(x, |s|, p, v.path.trace, ItemsAt(x, v.path.pos, room).path);
      } else {
        ValueOpen(s, u, p, room);
        if w.path.st == Ok {
          LateOk(x, |s|, p, w.path);
          LateFrom(x, |s|, p, r.path);
        }
      }
    }
  }

  /** The last event of a value is reported when all of it has been read. */
  lemma OkEndsAt(s: Bytes, p: nat, room: nat)
    requires p < |s| && s[p] != CH_E && ValueAt(s, p, room).path.st == Ok
    ensures var path := ValueAt(s, p, room).path;
            path.trace != [] && path.trace[|path.trace|-1].at == path.pos
  {
    hide ValueAt;
    ValueReads(s, p, room, Start);
  }

  lemma LateOk(s: Bytes, n: nat, start: nat, path: Path)
    requires Late(s, n, start, path) && path.st == Ok
    ensures path.pos > n
  {
  }

  lemma {:induction false} DictOpen(s: Bytes, u: Bytes, p: nat, room: nat, key: Option<Bytes>, last: Option<Bytes>)
    requires p <= |s| && !Final(DictRest(s, p, room, key, last).path.st)
    ensures Late(s + u, |s|, p, DictRest(s + u, p, room, key, last).path)
    decreases |s| - p, 2
  {
    hide Late, DictRest, ValueAt, KeyAt, Reads;
    var x := s + u;
    var r := DictRest(x, p, room, key, last);
    if p == |s| {
      var pairs := if last.None? then [] else [Pair(last.value, VInt(0))];
      EntriesReads(x, p, room, Start, pairs, key);
      assert r.path.st == Ok ==> p < r.path.pos by {
        RestAdvances(x, p, room, key, last);
      }
      ReadsLate(x, p, Push(Start, FDict(pairs, key)), 1 + room, r.path, Deliver(Start, VDict(pairs + r.val)), |s|);
    } else if s[p] == CH_E {
      DictAtClose(s, p, room, key, last);
    } else if key.None? {
      EntriesUnfold(s, p, room, last);
      EntriesUnfold(x, p, room, last);
      var k, w := KeyAt(s, p, last), KeyAt(x, p, last);
      if k.path.st == Ok {
        KeyFinal(s, u, p, last);
        KeyMark(x, p, last);
        DictOpen(s, u, k.path.pos, room, Some(k.val), last);
        LateAfter(x, |s|, p, k.path.trace, DictRest(x, k.path.pos, room, Some(k.val), last).path);
      } else {
        KeyOpen(s, u, p, last);
        if w.path.st == Ok {
          RestAdvances(x, w.path.pos, room, Some(w.val), last);
          LateFrom(x, |s|, p, r.path);
        }
      }
    } else {
      AfterKeyUnfold(s, p, room, key.value, last);
      AfterKeyUnfold(x, p, room, key.value, last);
      var v, w := ValueAt(s, p, room), ValueAt(x, p, room);
      if v.path.st == Ok {
        ValueFinal(s, u, p, room);
        OkEndsAt(x, p, room);
        DictOpen(s, u, v.path.pos, room, None, key);
        LateAfter(x, |s|, p, v.path.trace, DictRest(x, v.path.pos, room, None, key).path);
      } else {
        ValueOpen(s, u, p, room);
        if w.path.st == Ok {
          LateOk(x, |s|, p, w.path);
          RestAdvances(x, w.path.pos, room, None, key);
          LateFrom(x, |s|, p, r.path);
        }
      }
    }
  }

  lemma RestAdvances(s: Bytes, p: nat, room: nat, key: Option<Bytes>, last: Option<Bytes>)
    requires p <= |s|
    ensures var r := DictRest(s, p, room, key, last).path;
            p <= r.pos && (r.st == Ok ==> p < r.pos)
  {
    hide EntriesAt, AfterKeyAt;
  }

  lemma KeyMark(s: Bytes, p: nat, last: Option<Bytes>)
    requires p < |s| && KeyAt(s, p, last).path.st == Ok
    ensures var path := KeyAt(s, p, last).path;
            path.trace != [] && path.trace[|path.trace|-1].at == path.pos
  {
  }

  // ---- The main statements ----

  /** With the first `k` bytes alone the outcome could still change; with the byte
      at `k` it cannot, whatever follows. */
  predicate Settles(s: Bytes, maxDepth: nat, k: int) {
    && 0 <= k < |s|
    && !Final(Decode(s[..k], maxDepth).path.st)
    && Final(Decode(s[..k+1], maxDepth).path.st)
  }

  /** At most one byte settles the outcome, and from it on the outcome is that of
      the whole input. */
  lemma SettlesOnce(s: Bytes, maxDepth: nat, j: int, k: int)
    requires Settles(s, maxDepth, j)
    ensures Settles(s, maxDepth, k) ==> k == j
    ensures Decode(s[..j+1], maxDepth) == Decode(s, maxDepth)
  {
    hide ValueAt;
    FinalFrom(s, j + 1, |s|, maxDepth);
    assert s[..|s|] == s;
    if Settles(s, maxDepth, k) {
      if j < k {
        FinalFrom(s, j + 1, k, maxDepth);
      }
      if k < j {
        FinalFrom(s, k + 1, j, maxDepth);
      }
    }
  }

  lemma FinalFrom(s: Bytes, j: nat, k: nat, maxDepth: nat)
    requires j <= k <= |s| && Final(Decode(s[..j], maxDepth).path.st)
    ensures Decode(s[..k], maxDepth) == Decode(s[..j], maxDepth)
  {
    hide ValueAt;
    assert s[..k] == s[..j] + s[j..k];
    OutcomeFinal(s[..j], s[j..k], maxDepth);
  }

  /** Every final outcome, success included, is settled by the byte at the cursor
      or by the one just before it, according to the status. */
  lemma SettledByToken(s: Bytes, maxDepth: nat)
    requires Final(Decode(s, maxDepth).path.st)
    ensures Settles(s, maxDepth, Settler(s, 0, Decode(s, maxDepth).path))
  {
    hide ValueAt, Settler, Late;
    var path := Decode(s, maxDepth).path;
    var d := Settler(s, 0, path);
    SettlerInside(s, maxDepth);
    if Final(Decode(s[..d], maxDepth).path.st) {
      FinalFrom(s, d, |s|, maxDepth);
      assert s[..|s|] == s;
      NotEarlier(s, maxDepth, d);
    }
    if !Final(Decode(s[..d+1], maxDepth).path.st) {
      assert s[..d+1] + s[d+1..] == s;
      ValueOpen(s[..d+1], s[d+1..], 0, Clamp(maxDepth));
      NotLater(s, d, path);
    }
  }

  lemma NotLater(s: Bytes, d: int, path: Path)
    requires d == Settler(s, 0, path) && Final(path.st) && d >= -1
    ensures !Late(s, d + 1, 0, path)
  {
  }

  lemma SettlerInside(s: Bytes, maxDepth: nat)
    requires Final(Decode(s, maxDepth).path.st)
    ensures 0 <= Settler(s, 0, Decode(s, maxDepth).path) < |s|
  {
    hide ValueAt, Scan, StringAt, Less, LastKey, LegalAll, Run, RunEnd, Val;
    var path := Decode(s, maxDepth).path;
    if path.st != Ok {
      FailsByToken(s, maxDepth);
      var t, z := LastAt(path.trace, 0), Run(Start, Events(path.trace));
      FaultMeaning(s, t, z, Clamp(maxDepth));
      KeyEndsLater(s, t, z, path.pos);
    }
  }

  lemma NotEarlier(s: Bytes, maxDepth: nat, d: nat)
    requires d <= |s| && Final(Decode(s, maxDepth).path.st)
    requires Decode(s, maxDepth) == Decode(s[..d], maxDepth)
    ensures d != Settler(s, 0, Decode(s, maxDepth).path)
  {
    hide ValueAt, Scan, StringAt, Less, LastKey, LegalAll, Run, RunEnd, Val;
    var path := Decode(s, maxDepth).path;
    if path.st != Ok && d == path.pos {
      FailsByToken(s[..d], maxDepth);
      var t, z := LastAt(path.trace, 0), Run(Start, Events(path.trace));
      FaultMeaning(s[..d], t, z, Clamp(maxDepth));
    }
  }

  /** When `consumed` is the offset of the offending byte, and when it is one
      more. With "truncated" and "string length" no byte of the input is to
      blame: what is missing comes after them all. */
  lemma ConsumedAndOffender(s: Bytes, maxDepth: nat)
    ensures var path := Decode(s, maxDepth).path;
            var t := LastAt(path.trace, 0);
            && (Settles(s, maxDepth, path.pos) <==>
                  && path.st !in {Ok, Truncated, StringLength, NestingTooDeep, DictDuplicate, DictUnsorted}
                  && !(path.st == IntegerFormat && NegativeZero(s, t, path.pos)))
            && (Settles(s, maxDepth, path.pos - 1) <==>
                  || path.st in {Ok, NestingTooDeep, DictDuplicate, DictUnsorted}
                  || (path.st == IntegerFormat && NegativeZero(s, t, path.pos)))
            && ((exists k :: Settles(s, maxDepth, k)) <==> path.st !in {Truncated, StringLength})
  {
    hide ValueAt, Settles, LastAt, NegativeZero;
    var path := Decode(s, maxDepth).path;
    if Final(path.st) {
      SettledByToken(s, maxDepth);
      SettlesOnce(s, maxDepth, Settler(s, 0, path), path.pos);
      SettlesOnce(s, maxDepth, Settler(s, 0, path), path.pos - 1);
    } else {
      forall k ensures !Settles(s, maxDepth, k) {
        OpenNeverSettles(s, maxDepth, k);
      }
    }
  }

  lemma OpenNeverSettles(s: Bytes, maxDepth: nat, k: int)
    requires !Final(Decode(s, maxDepth).path.st)
    ensures !Settles(s, maxDepth, k)
  {
    hide ValueAt;
    assert s[..|s|] == s;
    if 0 <= k < |s| && Final(Decode(s[..k+1], maxDepth).path.st) {
      FinalFrom(s, k + 1, |s|, maxDepth);
    }
  }

  // ---- Named inputs ----

  /** `9:` with fewer than nine bytes behind it: the cursor is at the payload. */
  lemma OverlongString(rest: Bytes, maxDepth: nat)
    requires |rest| < 9
    ensures Decode([57, COLON] + rest, maxDepth).path == Stop(StringLength, 2)
  {
    var s := [57, COLON] + rest;
    UnsignedOne(s, 57);
  }

  /** One digit and then something else. */
  lemma UnsignedOne(s: Bytes, d: byte)
    requires |s| > 1 && s[0] == d && IsDigit(d) && !IsDigit(s[1])
    ensures Unsigned(s, 0, SIZE_MAX) == Num(Ok, 1, d - ZERO)
  {
    assert s[0..1] == [d];
    RunEndUnique(s, 0, 1);
    ValSingle(d);
  }

  /** `01:`: a leading zero in a length is the integer format error. */
  lemma LeadingZeroInLength(rest: Bytes, maxDepth: nat)
    ensures Decode([48, 49, COLON] + rest, maxDepth).path == Stop(IntegerFormat, 1)
  {
    var s := [48, 49, COLON] + rest;
    assert RunEnd(s, 0) > 1 by {
      RunSteps(s, 0, 0);
      RunSteps(s, 0, 1);
    }
  }

  /** `i-0`: the offending zero is the byte before the cursor. */
  lemma NegativeZeroOffset(rest: Bytes, maxDepth: nat)
    ensures Decode([CH_I, MINUS, ZERO] + rest, maxDepth).path == Stop(IntegerFormat, 3)
    ensures Settles([CH_I, MINUS, ZERO] + rest, maxDepth, 2)
  {
    var s := [CH_I, MINUS, ZERO] + rest;
    NegativeZeroStops(s, 0);
    ConsumedAndOffender(s, maxDepth);
  }

  lemma NegativeZeroStops(s: Bytes, t: nat)
    requires NegativeZero(s, t, t + 3)
    ensures IntAt(s, t).st == IntegerFormat && IntAt(s, t).pos == t + 3
  {
    var q := t + 2;
    NumberMeaning(s, q, INT64_MAX + 1);
    RunSteps(s, q, q);
    if RunEnd(s, q) == q + 1 {
      assert s[q..q+1] == [ZERO];
      ValSingle(ZERO);
    }
  }

  /** No value starts with `:`. */
  lemma ColonStartsNothing(rest: Bytes, maxDepth: nat)
    ensures Decode([COLON] + rest, maxDepth).path == Stop(UnexpectedByte, 0)
  {
  }

  /** The errors of a length prefix: wherever the parse fails in a token that
      begins with a digit, the integer statuses say exactly what is wrong with
      the digits. */
  lemma LengthPrefixErrors(s: Bytes, maxDepth: nat)
    requires Decode(s, maxDepth).path.st != Ok
    ensures var path := Decode(s, maxDepth).path;
            var t := LastAt(path.trace, 0);
            t < |s| && IsDigit(s[t]) ==>
              && (path.st == IntegerFormat <==> !Canonical(s[t..RunEnd(s, t)]))
              && (path.st == IntegerOverflow <==> Canonical(s[t..RunEnd(s, t)]) && Val(s[t..RunEnd(s, t)]) > SIZE_MAX)
  {
    hide ValueAt, LegalAll, Run, Scan, StringAt, RunEnd, Val, Canonical;
    var path := Decode(s, maxDepth).path;
    var t := LastAt(path.trace, 0);
    FailsByToken(s, maxDepth);
    if t < |s| && IsDigit(s[t]) {
      DigitFault(s, t, Run(Start, Events(path.trace)), Clamp(maxDepth));
      PrefixErrors(s, t);
    }
  }

  lemma DigitFault(s: Bytes, t: nat, z: Zip, limit: nat)
    requires t < |s| && IsDigit(s[t])
    ensures var st, f := StringAt(s, t).st, Scan(s, t, z, limit).st;
            && (f == IntegerFormat <==> st == IntegerFormat)
            && (f == IntegerOverflow <==> st == IntegerOverflow)
  {
    hide StringAt, IntAt, Less, LastKey;
  }

  lemma PrefixErrors(s: Bytes, t: nat)
    requires t < |s| && IsDigit(s[t])
    ensures var st, ds := StringAt(s, t).st, s[t..RunEnd(s, t)];
            && (st == IntegerFormat <==> !Canonical(ds))
            && (st == IntegerOverflow <==> Canonical(ds) && Val(ds) > SIZE_MAX)
  {
    hide Unsigned, RunEnd, Val, Canonical, Digits;
    UnsignedExact(s, t, SIZE_MAX);
  }
}
