/** Where and why a parse fails. The events reported so far put the parser in a
    state; in that state one token, which begins where the last event was
    reported, decides the error. */
module Faults {
  import opened Bytes
  import opened Decimal
  import opened Values
  import opened Decoder
  import opened Zipper

  /** The cursor at the last event, or `start` when there was none: the beginning
      of the token after it. */
  function LastAt(trace: seq<Mark>, start: nat): nat {
    if trace == [] then start else trace[|trace|-1].at
  }

  /** What the token at `t` makes of a parser in the state `z`: one event and the
      cursor after it, or one error and the cursor at it. */
  function Scan(s: Bytes, t: nat, z: Zip, limit: nat): (f: Path)
    requires t <= |s|
  {
    if t == |s| then Stop(Truncated, t)
    else if AwaitsKey(z) then
      if s[t] == CH_E then Path(Ok, t + 1, [Mark(EDictEnd, t + 1)])
      else KeyAt(s, t, LastKey(Top(z))).path
    else if s[t] == CH_I then
      var k := IntAt(s, t);
      if k.st != Ok then Stop(k.st, k.pos) else Path(Ok, k.pos, [Mark(EInt(k.value), k.pos)])
    else if s[t] == CH_L || s[t] == CH_D then
      if |z.stack| >= limit then Stop(NestingTooDeep, t + 1)
      else Path(Ok, t + 1, [Mark(if s[t] == CH_L then EListBegin else EDictBegin, t + 1)])
    else if IsDigit(s[t]) then
      var k := StringAt(s, t);
      if k.st != Ok then Stop(k.st, k.pos) else Path(Ok, k.pos, [Mark(EStr(s[k.off..k.pos]), k.pos)])
    else if s[t] == CH_E && z.stack != [] then
      if Top(z).FDict? then Stop(DictMissingValue, t)
      else Path(Ok, t + 1, [Mark(EListEnd, t + 1)])
    else Stop(UnexpectedByte, t)
  }

  /** The events of `trace` are what the tokens from `p` on make of the parser, one
      after the other. */
  predicate Scanned(s: Bytes, p: nat, z: Zip, limit: nat, trace: seq<Mark>)
    decreases |trace|
  {
    trace == [] ||
    (var m := trace[0];
     && p <= |s| && Scan(s, p, z, limit) == Path(Ok, m.at, [m])
     && Legal(z, m.ev) && Scanned(s, m.at, Step(z, m.ev), limit, trace[1..]))
  }

  lemma {:induction false} ScannedConcat(s: Bytes, p: nat, z: Zip, limit: nat, a: seq<Mark>, b: seq<Mark>)
    requires Scanned(s, p, z, limit, a) && LegalAll(z, Events(a))
    requires Scanned(s, LastAt(a, p), Run(z, Events(a)), limit, b)
    ensures Scanned(s, p, z, limit, a + b)
    decreases |a|
  {
    hide Scan, Legal, Step;
    if a == [] {
      assert a + b == b;
    } else {
      assert Events(a)[1..] == Events(a[1..]);
      assert (a + b)[1..] == a[1..] + b;
      ScannedConcat(s, a[0].at, Step(z, a[0].ev), limit, a[1..], b);
    }
  }

  /** The run `path` from `p` in the state `z`: its events are those of the tokens
      it passes, and it ends in the state `done` or with the error of the token it
      stopped at. */
  ghost predicate Reads(s: Bytes, p: nat, z: Zip, limit: nat, path: Path, done: Zip) {
    var t := LastAt(path.trace, p);
    && LegalAll(z, Events(path.trace)) && Scanned(s, p, z, limit, path.trace)
    && p <= t <= path.pos <= |s|
    && if path.st == Ok then
         path.trace != [] && t == path.pos && Run(z, Events(path.trace)) == done
       else
         && !Finished(Run(z, Events(path.trace)))
         && Scan(s, t, Run(z, Events(path.trace)), limit) == Stop(path.st, path.pos)
  }

  lemma ReadsFault(s: Bytes, p: nat, z: Zip, limit: nat, st: Status, pos: nat, done: Zip)
    requires p <= pos <= |s| && st != Ok && !Finished(z) && Scan(s, p, z, limit) == Stop(st, pos)
    ensures Reads(s, p, z, limit, Stop(st, pos), done)
  {
    hide Scan;
    assert Events([]) == [];
  }

  lemma ReadsOne(s: Bytes, p: nat, z: Zip, limit: nat, e: Event, pos: nat)
    requires p <= pos <= |s| && Legal(z, e) && Scan(s, p, z, limit) == Path(Ok, pos, [Mark(e, pos)])
    ensures Reads(s, p, z, limit, Path(Ok, pos, [Mark(e, pos)]), Step(z, e))
  {
    hide Scan, Legal, Step;
    assert Events([Mark(e, pos)]) == [e];
    assert Scanned(s, pos, Step(z, e), limit, []) && [Mark(e, pos)][1..] == [];
    RunOne(z, e);
  }

  /** Runs compose. */
  lemma ReadsThen(s: Bytes, p: nat, z: Zip, limit: nat, a: Path, mid: Zip, b: Path, done: Zip)
    requires Reads(s, p, z, limit, a, mid) && a.st == Ok && Reads(s, a.pos, mid, limit, b, done)
    ensures Reads(s, p, z, limit, After(a.trace, b), done)
  {
    hide LegalAll, Run, Scan, Scanned;
    EventsConcat(a.trace, b.trace);
    RunConcat(z, Events(a.trace), Events(b.trace));
    ScannedConcat(s, p, z, limit, a.trace, b.trace);
  }

  // ---- Every run of the decoder is such a run ----

  /** A closing byte never gets here inside a container: the loops take it. */
  lemma {:induction false} ValueReads(s: Bytes, p: nat, room: nat, z: Zip)
    requires p <= |s| && Awaits(z) && (p < |s| && s[p] == CH_E ==> z.stack == [])
    ensures Reads(s, p, z, |z.stack| + room, ValueAt(s, p, room).path, Deliver(z, ValueAt(s, p, room).val))
    decreases |s| - p, 1
  {
    var limit := |z.stack| + room;
    var done := Deliver(z, ValueAt(s, p, room).val);
    if p < |s| && s[p] == CH_L {
      ListReads(s, p, room, z);
    } else if p < |s| && s[p] == CH_D {
      DictReads(s, p, room, z);
    } else {
      hide Reads, LegalAll, Run, Deliver, StringAt, IntAt, Legal, Step;
      if p < |s| && s[p] == CH_I {
        IntUnfold(s, p, room);
        var k := IntAt(s, p);
        if k.st == Ok {
          IntDelivers(z, k.value);
          ReadsOne(s, p, z, limit, EInt(k.value), k.pos);
        }
      } else if p < |s| && IsDigit(s[p]) {
        StringUnfold(s, p, room);
        var k := StringAt(s, p);
        if k.st == Ok {
          StringDelivers(z, s[k.off..k.pos]);
          ReadsOne(s, p, z, limit, EStr(s[k.off..k.pos]), k.pos);
        }
      }
      var path := ValueAt(s, p, room).path;
      if path.st != Ok {
        ReadsFault(s, p, z, limit, path.st, path.pos, done);
      }
    }
  }

  lemma ListReads(s: Bytes, p: nat, room: nat, z: Zip)
    requires p < |s| && s[p] == CH_L && Awaits(z)
    ensures Reads(s, p, z, |z.stack| + room, ValueAt(s, p, room).path, Deliver(z, ValueAt(s, p, room).val))
    decreases |s| - p, 0
  {
    hide Reads, LegalAll, Run, Deliver, ItemsAt;
    var limit := |z.stack| + room;
    ListUnfold(s, p, room);
    if room == 0 {
      ReadsFault(s, p, z, limit, NestingTooDeep, p + 1, Deliver(z, ValueAt(s, p, room).val));
    } else {
      var r := ItemsAt(s, p + 1, room - 1);
      ReadsOne(s, p, z, limit, EListBegin, p + 1);
      ItemsReads(s, p + 1, room - 1, z, []);
      assert [] + r.val == r.val;
      ReadsThen(s, p, z, limit, Path(Ok, p + 1, [Mark(EListBegin, p + 1)]), Push(z, FList([])),
                r.path, Deliver(z, VList(r.val)));
    }
  }

  lemma DictReads(s: Bytes, p: nat, room: nat, z: Zip)
    requires p < |s| && s[p] == CH_D && Awaits(z)
    ensures Reads(s, p, z, |z.stack| + room, ValueAt(s, p, room).path, Deliver(z, ValueAt(s, p, room).val))
    decreases |s| - p, 0
  {
    hide Reads, LegalAll, Run, Deliver, DictRest, ValueAt, EntriesAt, AfterKeyAt, KeyAt, StringAt, IntAt, Less;
    var limit := |z.stack| + room;
    DictUnfold(s, p, room);
    if room == 0 {
      ReadsFault(s, p, z, limit, NestingTooDeep, p + 1, Deliver(z, ValueAt(s, p, room).val));
    } else {
      var r := DictRest(s, p + 1, room - 1, None, None);
      ReadsOne(s, p, z, limit, EDictBegin, p + 1);
      EntriesReads(s, p + 1, room - 1, z, [], None);
      assert [] + r.val == r.val;
      ReadsThen(s, p, z, limit, Path(Ok, p + 1, [Mark(EDictBegin, p + 1)]), Push(z, FDict([], None)),
                r.path, Deliver(z, VDict(r.val)));
    }
  }

  lemma {:induction false} ItemsReads(s: Bytes, p: nat, room: nat, z0: Zip, vals: seq<Value>)
    requires p <= |s| && Awaits(z0)
    ensures var r := ItemsAt(s, p, room);
            Reads(s, p, Push(z0, FList(vals)), |z0.stack| + 1 + room, r.path, Deliver(z0, VList(vals + r.val)))
    decreases |s| - p, 2
  {
    hide Reads, LegalAll, Run, Deliver, ItemsAt, ValueAt, Legal, Step;
    var z, limit := Push(z0, FList(vals)), |z0.stack| + 1 + room;
    if p == |s| {
      ItemsAtEnd(s, p, room);
      ReadsFault(s, p, z, limit, Truncated, p, Deliver(z0, VList(vals + [])));
    } else if s[p] == CH_E {
      ItemsAtClose(s, p, room);
      ListCloses(z0, vals);
      ReadsOne(s, p, z, limit, EListEnd, p + 1);
      assert vals + [] == vals;
    } else {
      var v := ValueAt(s, p, room);
      ItemsUnfold(s, p, room);
      PushedList(z0, vals, v.val);
      ValueReads(s, p, room, z);
      if v.path.st == Ok {
        var rest := ItemsAt(s, v.path.pos, room);
        ItemsReads(s, v.path.pos, room, z0, vals + [v.val]);
        assert vals + ([v.val] + rest.val) == vals + [v.val] + rest.val;
        ReadsThen(s, p, z, limit, v.path, Push(z0, FList(vals + [v.val])),
                  rest.path, Deliver(z0, VList(vals + ([v.val] + rest.val))));
      } else {
        ReadsAnyEnd(s, p, z, limit, v.path, Deliver(z, v.val), Deliver(z0, VList(vals + [])));
      }
    }
  }

  /** When the run fails, it does not matter what it was meant to lead to. */
  lemma ReadsAnyEnd(s: Bytes, p: nat, z: Zip, limit: nat, path: Path, a: Zip, b: Zip)
    requires path.st != Ok && Reads(s, p, z, limit, path, a)
    ensures Reads(s, p, z, limit, path, b)
  {
  }

  lemma {:induction false} EntriesReads(s: Bytes, p: nat, room: nat, z0: Zip, pairs: seq<Pair>, key: Option<Bytes>)
    requires p <= |s| && Awaits(z0)
    ensures var r := DictRest(s, p, room, key, LastKey(FDict(pairs, None)));
            Reads(s, p, Push(z0, FDict(pairs, key)), |z0.stack| + 1 + room, r.path, Deliver(z0, VDict(pairs + r.val)))
    decreases |s| - p, 2
  {
    hide Reads, LegalAll, Run, Deliver, DictRest, ValueAt, KeyAt, Legal, Step;
    var z, limit := Push(z0, FDict(pairs, key)), |z0.stack| + 1 + room;
    var last := LastKey(FDict(pairs, None));
    if p == |s| {
      DictAtEnd(s, p, room, key, last);
      ReadsFault(s, p, z, limit, Truncated, p, Deliver(z0, VDict(pairs + [])));
    } else if s[p] == CH_E {
      DictAtClose(s, p, room, key, last);
      assert pairs + [] == pairs;
      if key.Some? {
        ReadsFault(s, p, z, limit, DictMissingValue, p, Deliver(z0, VDict(pairs)));
      } else {
        DictCloses(z0, pairs);
        ReadsOne(s, p, z, limit, EDictEnd, p + 1);
      }
    } else if key.None? {
      KeyReads(s, p, room, z0, pairs);
    } else {
      var v := ValueAt(s, p, room);
      AfterKeyUnfold(s, p, room, key.value, last);
      PushedEntry(z0, pairs, key.value, v.val);
      ValueReads(s, p, room, z);
      if v.path.st == Ok {
        var pair := Pair(key.value, v.val);
        var rest := DictRest(s, v.path.pos, room, None, key);
        LastOf(pairs, pair);
        EntriesReads(s, v.path.pos, room, z0, pairs + [pair], None);
        assert pairs + ([pair] + rest.val) == pairs + [pair] + rest.val;
        ReadsThen(s, p, z, limit, v.path, Push(z0, FDict(pairs + [pair], None)),
                  rest.path, Deliver(z0, VDict(pairs + ([pair] + rest.val))));
      } else {
        ReadsAnyEnd(s, p, z, limit, v.path, Deliver(z, v.val), Deliver(z0, VDict(pairs + [])));
      }
    }
  }

  lemma {:induction false} KeyReads(s: Bytes, p: nat, room: nat, z0: Zip, pairs: seq<Pair>)
    requires p < |s| && s[p] != CH_E && Awaits(z0)
    ensures var r := DictRest(s, p, room, None, LastKey(FDict(pairs, None)));
            Reads(s, p, Push(z0, FDict(pairs, None)), |z0.stack| + 1 + room, r.path, Deliver(z0, VDict(pairs + r.val)))
    decreases |s| - p, 0
  {
    hide Reads, LegalAll, Run, Deliver, DictRest, Legal, Step, StringAt, Less, LastKey;
    var z, limit, last := Push(z0, FDict(pairs, None)), |z0.stack| + 1 + room, LastKey(FDict(pairs, None));
    var k := KeyAt(s, p, last);
    EntriesUnfold(s, p, room, last);
    if k.path.st == Ok {
      var rest := DictRest(s, k.path.pos, room, Some(k.val), last);
      if last.Some? {
        LessTotal(last.value, k.val);
      }
      KeyHolds(z0, pairs, k.val);
      ReadsOne(s, p, z, limit, EStr(k.val), k.path.pos);
      EntriesReads(s, k.path.pos, room, z0, pairs, Some(k.val));
      ReadsThen(s, p, z, limit, k.path, Push(z0, FDict(pairs, Some(k.val))),
                rest.path, Deliver(z0, VDict(pairs + rest.val)));
    } else {
      ReadsFault(s, p, z, limit, k.path.st, k.path.pos, Deliver(z0, VDict(pairs + [])));
    }
  }

  /** Every failed parse: the events before the failure are legal, and status and
      cursor are what the next token means in the state they lead to. */
  lemma FailsByToken(s: Bytes, maxDepth: nat)
    requires Decode(s, maxDepth).path.st != Ok
    ensures var path := Decode(s, maxDepth).path;
            var t := LastAt(path.trace, 0);
            && LegalAll(Start, Events(path.trace)) && t <= |s| && !Finished(Run(Start, Events(path.trace)))
            && Scan(s, t, Run(Start, Events(path.trace)), Clamp(maxDepth)) == Stop(path.st, path.pos)
  {
    hide LegalAll, Run, Scan, ValueAt;
    ValueReads(s, 0, Clamp(maxDepth), Start);
  }

  // ---- What each error means ----

  /** Where the digits of a number token begin, and the largest value allowed. */
  function DigitsAt(s: Bytes, t: nat): nat
    requires t < |s|
  {
    if s[t] != CH_I then t
    else if t + 1 < |s| && s[t+1] == MINUS then t + 2
    else t + 1
  }

  function Largest(s: Bytes, t: nat): nat
    requires t < |s|
  {
    if s[t] != CH_I then SIZE_MAX
    else if t + 1 < |s| && s[t+1] == MINUS then INT64_MAX + 1
    else INT64_MAX
  }

  predicate NumberToken(s: Bytes, t: nat) {
    t < |s| && (s[t] == CH_I || IsDigit(s[t]))
  }

  /** `i-0` ends at the cursor. */
  predicate NegativeZero(s: Bytes, t: nat, pos: nat) {
    pos == t + 3 <= |s| && s[t] == CH_I && s[t+1] == MINUS && s[t+2] == ZERO
  }

  /** A byte with which no value starts, where a value is due. */
  predicate StartsNothing(s: Bytes, t: nat, z: Zip, pos: nat) {
    pos == t < |s| && !AwaitsKey(z) && s[t] !in {CH_I, CH_L, CH_D} && !IsDigit(s[t])
  }

  /** A byte after a good number that is not the one which ends it. */
  predicate EndsNumberWrongly(s: Bytes, t: nat, pos: nat) {
    && NumberToken(s, t)
    && DigitsAt(s, t) < pos < |s| && pos == RunEnd(s, DigitsAt(s, t)) && Canonical(s[DigitsAt(s, t)..pos])
    && s[pos] != if s[t] == CH_I then CH_E else COLON
  }

  /** The first digit with which a canonical number exceeds its bound. */
  predicate PassesBound(s: Bytes, t: nat, pos: nat) {
    && NumberToken(s, t)
    && DigitsAt(s, t) < pos < RunEnd(s, DigitsAt(s, t)) && Canonical(s[DigitsAt(s, t)..RunEnd(s, DigitsAt(s, t))])
    && Val(s[DigitsAt(s, t)..pos]) <= Largest(s, t) < Val(s[DigitsAt(s, t)..pos+1])
  }

  /** A byte that is no digit where the first digit of an integer is due. */
  predicate NoDigit(s: Bytes, t: nat, pos: nat) {
    t < |s| && s[t] == CH_I && pos == DigitsAt(s, t) < |s| && !IsDigit(s[pos])
  }

  /** A digit after a leading zero. */
  predicate LeadingZero(s: Bytes, t: nat, pos: nat) {
    NumberToken(s, t) && pos == DigitsAt(s, t) + 1 < |s| && s[pos-1] == ZERO && IsDigit(s[pos])
  }

  /** What stands at the cursor for each error, given the token at `t` and the
      state in which it was met. */
  ghost predicate Culprit(s: Bytes, t: nat, z: Zip, limit: nat, st: Status, pos: nat)
    requires t <= |s|
  {
    match st
    case Truncated => pos == |s|
    case UnexpectedByte => StartsNothing(s, t, z, pos) || EndsNumberWrongly(s, t, pos)
    case IntegerOverflow => PassesBound(s, t, pos)
    case IntegerFormat => NoDigit(s, t, pos) || LeadingZero(s, t, pos) || NegativeZero(s, t, pos)
    case StringLength =>
      // Just past the colon, where a payload that is too long begins.
      && t < |s| && IsDigit(s[t]) && t < pos <= |s| && pos - 1 == RunEnd(s, t) && s[pos-1] == COLON
      && Canonical(s[t..pos-1]) && |s| - pos < Val(s[t..pos-1]) <= SIZE_MAX
    case DictBadKey =>
      pos == t < |s| && AwaitsKey(z) && !IsDigit(s[t]) && s[t] != CH_E
    case DictMissingValue =>
      pos == t < |s| && z.stack != [] && Top(z).FDict? && Top(z).key.Some? && s[t] == CH_E
    case NestingTooDeep =>
      // Just past the opening byte of a container.
      t < |s| && pos == t + 1 && (s[t] == CH_L || s[t] == CH_D) && !AwaitsKey(z) && limit <= |z.stack|
    case DictDuplicate =>
      // Just past a whole key that repeats the last one.
      KeyEnds(s, t, z, pos) && LastKey(Top(z)) == Some(s[StringAt(s, t).off..pos])
    case DictUnsorted =>
      // Just past a whole key that is smaller than the last one.
      KeyEnds(s, t, z, pos) && LastKey(Top(z)).Some? && Less(s[StringAt(s, t).off..pos], LastKey(Top(z)).value)
    case _ => false
  }

  /** A key is due at `t` and stands there whole, up to `pos`. */
  predicate KeyEnds(s: Bytes, t: nat, z: Zip, pos: nat)
  {
    AwaitsKey(z) && t < |s| && IsDigit(s[t]) && StringAt(s, t).st == Ok && StringAt(s, t).pos == pos
  }

  lemma FaultMeaning(s: Bytes, t: nat, z: Zip, limit: nat)
    requires t <= |s| && Scan(s, t, z, limit).st != Ok
    ensures Culprit(s, t, z, limit, Scan(s, t, z, limit).st, Scan(s, t, z, limit).pos)
  {
    hide IntAt, StringAt, RunEnd, Val, LastKey, Less;
    if t < |s| && IsDigit(s[t]) && StringAt(s, t).st != Ok {
      StringMeaning(s, t, z, limit);
    } else if t < |s| && s[t] == CH_I && IntAt(s, t).st != Ok {
      IntMeaning(s, t, z, limit);
    }
  }

  lemma NumberMeaning(s: Bytes, q: nat, max: nat)
    requires q < |s| && IsDigit(s[q]) && max >= 9
    ensures var u := Unsigned(s, q, max);
            && (u.st == Ok ==> q < u.pos == RunEnd(s, q) && Canonical(s[q..u.pos]) && u.mag == Val(s[q..u.pos]) <= max)
            && (u.st == IntegerFormat ==> u.pos == q + 1 < |s| && s[q] == ZERO && IsDigit(s[q+1]))
            && (u.st == IntegerOverflow ==>
                  && q < u.pos < RunEnd(s, q) && Canonical(s[q..RunEnd(s, q)])
                  && Val(s[q..u.pos]) <= max < Val(s[q..u.pos+1]))
            && u.st in {Ok, IntegerFormat, IntegerOverflow}
  {
    hide RunEnd, Val, OverAt, Canonical;
    var e := RunEnd(s, q);
    RunShape(s, q);
    if Val(s[q..e]) > max {
      PassesAt(s, q, e, max);
    }
  }

  /** A digit run is canonical unless it has a leading zero. */
  lemma RunShape(s: Bytes, q: nat)
    requires q < |s| && IsDigit(s[q])
    ensures var e := RunEnd(s, q);
            && q < e && Val(s[q..q+1]) <= 9
            && (if s[q] == ZERO && q + 1 < e then IsDigit(s[q+1]) else Canonical(s[q..e]))
  {
    hide Val;
    var e := RunEnd(s, q);
    RunSteps(s, q, q);
    assert s[q..q+1] == [s[q]];
    ValSingle(s[q]);
    if q + 1 < e {
      assert IsDigit(s[q..e][1]);
    }
  }

  lemma PassesAt(s: Bytes, q: nat, e: nat, max: nat)
    requires q < e <= |s| && Val(s[q..q+1]) <= max < Val(s[q..e])
    ensures var r := OverAt(s, q, q, e, max); q < r < e && Val(s[q..r]) <= max < Val(s[q..r+1])
  {
    hide Val;
    OverAtFound(s, q, q, e, max);
    var k := OverAt(s, q, q, e, max) - 1;
    assert q <= k ==> Val(s[q..k+1]) <= max;
  }

  lemma StringMeaning(s: Bytes, t: nat, z: Zip, limit: nat)
    requires t < |s| && IsDigit(s[t]) && StringAt(s, t).st != Ok
    ensures Culprit(s, t, z, limit, StringAt(s, t).st, StringAt(s, t).pos)
  {
    hide Unsigned;
    NumberMeaning(s, t, SIZE_MAX);
  }

  lemma IntMeaning(s: Bytes, t: nat, z: Zip, limit: nat)
    requires t < |s| && s[t] == CH_I && IntAt(s, t).st != Ok
    ensures Culprit(s, t, z, limit, IntAt(s, t).st, IntAt(s, t).pos)
  {
    hide Unsigned;
    var q := DigitsAt(s, t);
    if q < |s| && IsDigit(s[q]) {
      NumberMeaning(s, q, Largest(s, t));
      var u := Unsigned(s, q, Largest(s, t));
      if u.st == Ok && u.mag == 0 {
        ZeroSpelling(s[q..u.pos]);
      }
    }
  }

  /** What the cursor means after any failed parse, at any position and with any
      room left. */
  lemma CursorMeaning(s: Bytes, p: nat, room: nat)
    requires p <= |s| && ValueAt(s, p, room).path.st != Ok
    ensures var path := ValueAt(s, p, room).path;
            var t := LastAt(path.trace, p);
            && LegalAll(Start, Events(path.trace)) && p <= t <= |s|
            && Culprit(s, t, Run(Start, Events(path.trace)), room, path.st, path.pos)
  {
    hide LegalAll, Run, Scan, ValueAt, Culprit;
    var path := ValueAt(s, p, room).path;
    ValueReads(s, p, room, Start);
    FaultMeaning(s, LastAt(path.trace, p), Run(Start, Events(path.trace)), room);
  }
}
