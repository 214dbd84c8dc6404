/** The decoder accepts exactly the canonical grammar: an input is accepted with
    value `v` if and only if it starts with the encoding of a well-formed `v`
    nested no deeper than allowed. */
module Grammar {
  import opened Bytes
  import opened Decimal
  import opened Values
  import opened Decoder

  /** `b` occurs in `s` at `p`. */
  predicate At(s: Bytes, p: nat, b: Bytes) {
    p + |b| <= |s| && s[p..p+|b|] == b
  }

  lemma AtSplit(s: Bytes, p: nat, a: Bytes, b: Bytes)
    ensures At(s, p, a + b) <==> At(s, p, a) && At(s, p + |a|, b)
  {
    if p + |a| + |b| <= |s| {
      var w := s[p..p+|a|+|b|];
      assert w[..|a|] == s[p..p+|a|] && w[|a|..] == s[p+|a|..p+|a|+|b|];
      assert w == w[..|a|] + w[|a|..];
      assert (a + b)[..|a|] == a && (a + b)[|a|..] == b;
    }
  }

  lemma AtHead(s: Bytes, p: nat, c: byte)
    ensures At(s, p, [c]) <==> p < |s| && s[p] == c
  {
    if p < |s| {
      assert s[p..p+1] == [s[p]];
    }
  }

  /** A finished run from `p` that read `enc` and reported `evs`. */
  predicate Spells(s: Bytes, p: nat, path: Path, enc: Bytes, evs: seq<Event>) {
    && path.st == Ok
    && At(s, p, enc)
    && path.pos == p + |enc|
    && Events(path.trace) == evs
  }

  /** Runs compose: first `a`, then `b` from where `a` stopped. */
  lemma SpellsThen(s: Bytes, p: nat, a: Path, encA: Bytes, evA: seq<Event>,
                   b: Path, encB: Bytes, evB: seq<Event>)
    requires Spells(s, p, a, encA, evA) && Spells(s, a.pos, b, encB, evB)
    ensures Spells(s, p, After(a.trace, b), encA + encB, evA + evB)
  {
    hide At, Events;
    AtSplit(s, p, encA, encB);
    EventsConcat(a.trace, b.trace);
  }

  /** A single token of one byte. */
  lemma SpellsByte(s: Bytes, p: nat, c: byte, ev: Event)
    requires p < |s| && s[p] == c
    ensures Spells(s, p, Path(Ok, p + 1, [Mark(ev, p + 1)]), [c], [ev])
  {
    AtHead(s, p, c);
  }

  // ---- Soundness: what is accepted is the encoding of the value ----

  lemma StringSound(s: Bytes, p: nat)
    requires p <= |s| && StringAt(s, p).st == Ok
    ensures var t := StringAt(s, p);
            At(s, p, EncodeStr(s[t.off..t.pos])) && t.pos == p + |EncodeStr(s[t.off..t.pos])|
    ensures StringAt(s, p).pos - StringAt(s, p).off <= SIZE_MAX
  {
    var t := StringAt(s, p);
    var u := Unsigned(s, p, SIZE_MAX);
    var b := s[t.off..t.pos];
    UnsignedAtDigit(s, p);
    hide Unsigned, Digits;
    IntSoundDigits(s, p, SIZE_MAX);
    assert At(s, t.off, b);
    AtHead(s, u.pos, COLON);
    hide At;
    AtSplit(s, p, Digits(|b|), [COLON]);
    AtSplit(s, p, Digits(|b|) + [COLON], b);
  }

  lemma UnsignedAtDigit(s: Bytes, p: nat)
    requires p <= |s| && Unsigned(s, p, SIZE_MAX).st == Ok
    ensures p < |s| && IsDigit(s[p])
  {
  }

  lemma IntSound(s: Bytes, p: nat)
    requires p < |s| && s[p] == CH_I && IntAt(s, p).st == Ok
    ensures var t := IntAt(s, p);
            && WellFormed(VInt(t.value))
            && At(s, p, Encode(VInt(t.value)))
            && t.pos == p + |Encode(VInt(t.value))|
  {
    hide IntAt, At, Encode;
    var i := IntAt(s, p).value;
    if p + 1 < |s| && s[p+1] == MINUS {
      NegativeSound(s, p);
    } else {
      PositiveSound(s, p);
    }
    IntSpelled(s, p, SignedDigits(i));
    IntText(i);
  }

  lemma IntText(i: int)
    ensures Encode(VInt(i)) == [CH_I] + SignedDigits(i) + [CH_E]
  {
  }

  lemma PositiveSound(s: Bytes, p: nat)
    requires p < |s| && s[p] == CH_I && IntAt(s, p).st == Ok && (p + 1 < |s| ==> s[p+1] != MINUS)
    ensures SignSound(s, p, IntAt(s, p))
  {
    hide At, Unsigned, Digits, SignedDigits;
    IntSoundDigits(s, p + 1, INT64_MAX);
    PositiveSpelled(s, p + 1, Unsigned(s, p + 1, INT64_MAX).mag);
  }

  lemma NegativeSound(s: Bytes, p: nat)
    requires p < |s| && s[p] == CH_I && IntAt(s, p).st == Ok && p + 1 < |s| && s[p+1] == MINUS
    ensures SignSound(s, p, IntAt(s, p))
  {
    hide At, Unsigned, Digits, SignedDigits;
    IntSoundDigits(s, p + 2, INT64_MAX + 1);
    NegativeSpelled(s, p + 1, Unsigned(s, p + 2, INT64_MAX + 1).mag);
  }

  /** Between the `i` and the `e` stands the printed number. */
  ghost predicate SignSound(s: Bytes, p: nat, t: IntTok) {
    var sd := SignedDigits(t.value);
    && INT64_MIN <= t.value <= INT64_MAX && At(s, p + 1, sd)
    && t.pos == p + |sd| + 2 <= |s| && s[t.pos-1] == CH_E
  }

  lemma PositiveSpelled(s: Bytes, p: nat, n: nat)
    requires At(s, p, Digits(n))
    ensures At(s, p, SignedDigits(n)) && |SignedDigits(n)| == |Digits(n)|
  {
  }

  lemma NegativeSpelled(s: Bytes, p: nat, n: nat)
    requires p < |s| && s[p] == MINUS && n > 0 && At(s, p + 1, Digits(n))
    ensures At(s, p, SignedDigits(0 - n)) && |SignedDigits(0 - n)| == 1 + |Digits(n)|
  {
    hide At, Digits;
    AtHead(s, p, MINUS);
    AtSplit(s, p, [MINUS], Digits(n));
  }

  lemma IntSpelled(s: Bytes, p: nat, sd: Bytes)
    requires p < |s| && s[p] == CH_I && At(s, p + 1, sd)
    requires p + 1 + |sd| < |s| && s[p + 1 + |sd|] == CH_E
    ensures At(s, p, [CH_I] + sd + [CH_E])
  {
    hide At;
    AtHead(s, p, CH_I);
    AtHead(s, p + 1 + |sd|, CH_E);
    AtSplit(s, p, [CH_I], sd);
    AtSplit(s, p, [CH_I] + sd, [CH_E]);
  }

  lemma IntSoundDigits(s: Bytes, q: nat, max: nat)
    requires q < |s| && IsDigit(s[q]) && Unsigned(s, q, max).st == Ok
    ensures var u := Unsigned(s, q, max); At(s, q, Digits(u.mag)) && u.pos == q + |Digits(u.mag)|
  {
    UnsignedExact(s, q, max);
  }

  lemma {:induction false} ValueSound(s: Bytes, p: nat, room: nat)
    requires p <= |s| && ValueAt(s, p, room).path.st == Ok
    ensures var r := ValueAt(s, p, room);
            && WellFormed(r.val)
            && Nesting(r.val) <= room
            && Spells(s, p, r.path, Encode(r.val), Flatten(r.val))
    decreases |s| - p, 0
  {
    hide At, Spells, Events, EncodeAll, EncodePairs, FlattenAll, FlattenPairs, IntAt, StringAt;
    hide ItemsAt, EntriesAt, NestingAll, NestingPairs, Less;
    var r := ValueAt(s, p, room);
    if s[p] == CH_I {
      IntLeafSound(s, p, room);
    } else if s[p] == CH_L {
      var t := ItemsAt(s, p + 1, room - 1);
      ItemsSound(s, p + 1, room - 1);
      SpellsByte(s, p, CH_L, EListBegin);
      SpellsThen(s, p, Path(Ok, p + 1, [Mark(EListBegin, p + 1)]), [CH_L], [EListBegin],
                 t.path, EncodeAll(t.val) + [CH_E], FlattenAll(t.val) + [EListEnd]);
      assert Encode(r.val) == [CH_L] + (EncodeAll(t.val) + [CH_E]);
      assert Flatten(r.val) == [EListBegin] + (FlattenAll(t.val) + [EListEnd]);
    } else if s[p] == CH_D {
      var t := EntriesAt(s, p + 1, room - 1, None);
      EntriesSound(s, p + 1, room - 1, None);
      SpellsByte(s, p, CH_D, EDictBegin);
      SpellsThen(s, p, Path(Ok, p + 1, [Mark(EDictBegin, p + 1)]), [CH_D], [EDictBegin],
                 t.path, EncodePairs(t.val) + [CH_E], FlattenPairs(t.val) + [EDictEnd]);
      assert Encode(r.val) == [CH_D] + (EncodePairs(t.val) + [CH_E]);
      assert Flatten(r.val) == [EDictBegin] + (FlattenPairs(t.val) + [EDictEnd]);
    } else {
      StringLeafSound(s, p, room);
    }
  }

  lemma IntLeafSound(s: Bytes, p: nat, room: nat)
    requires p < |s| && s[p] == CH_I && ValueAt(s, p, room).path.st == Ok
    ensures var r := ValueAt(s, p, room);
            && r.val.VInt? && WellFormed(r.val)
            && Spells(s, p, r.path, Encode(r.val), Flatten(r.val))
  {
    hide At, IntAt;
    IntSound(s, p);
  }

  lemma StringLeafSound(s: Bytes, p: nat, room: nat)
    requires p < |s| && IsDigit(s[p]) && ValueAt(s, p, room).path.st == Ok
    ensures var r := ValueAt(s, p, room);
            && r.val.VStr? && WellFormed(r.val)
            && Spells(s, p, r.path, Encode(r.val), Flatten(r.val))
  {
    hide At, StringAt, EncodeStr;
    StringSound(s, p);
  }

  lemma {:induction false} ItemsSound(s: Bytes, p: nat, room: nat)
    requires p <= |s| && ItemsAt(s, p, room).path.st == Ok
    ensures var r := ItemsAt(s, p, room);
            && (forall i :: 0 <= i < |r.val| ==> WellFormed(r.val[i]))
            && NestingAll(r.val) <= room
            && Spells(s, p, r.path, EncodeAll(r.val) + [CH_E], FlattenAll(r.val) + [EListEnd])
    decreases |s| - p, 1
  {
    hide At, Spells, Events, Encode, Flatten, ValueAt, WellFormed;
    var r := ItemsAt(s, p, room);
    if s[p] == CH_E {
      SpellsByte(s, p, CH_E, EListEnd);
      assert EncodeAll([]) + [CH_E] == [CH_E] && FlattenAll([]) + [EListEnd] == [EListEnd];
    } else {
      var v := ValueAt(s, p, room);
      var t := ItemsAt(s, v.path.pos, room);
      ValueSound(s, p, room);
      ItemsSound(s, v.path.pos, room);
      SpellsThen(s, p, v.path, Encode(v.val), Flatten(v.val),
                 t.path, EncodeAll(t.val) + [CH_E], FlattenAll(t.val) + [EListEnd]);
      assert r.val[1..] == t.val;
      assert EncodeAll(r.val) + [CH_E] == Encode(v.val) + (EncodeAll(t.val) + [CH_E]);
      assert FlattenAll(r.val) + [EListEnd] == Flatten(v.val) + (FlattenAll(t.val) + [EListEnd]);
    }
  }

  lemma KeySound(s: Bytes, p: nat, last: Option<Bytes>)
    requires p < |s| && KeyAt(s, p, last).path.st == Ok
    ensures var r := KeyAt(s, p, last);
            && |r.val| <= SIZE_MAX
            && (last.Some? ==> Less(last.value, r.val))
            && Spells(s, p, r.path, EncodeStr(r.val), [EStr(r.val)])
  {
    hide At, StringAt, EncodeStr;
    StringSound(s, p);
    if last.Some? {
      LessTotal(last.value, KeyAt(s, p, last).val);
    }
  }

  lemma {:induction false} EntriesSound(s: Bytes, p: nat, room: nat, last: Option<Bytes>)
    requires p <= |s| && EntriesAt(s, p, room, last).path.st == Ok
    ensures var r := EntriesAt(s, p, room, last);
            && WellFormed(VDict(r.val))
            && (last.Some? && r.val != [] ==> Less(last.value, r.val[0].key))
            && NestingPairs(r.val) <= room
            && Spells(s, p, r.path, EncodePairs(r.val) + [CH_E], FlattenPairs(r.val) + [EDictEnd])
    decreases |s| - p, 1
  {
    hide At, Spells, Events, Encode, EncodeStr, Flatten, KeyAt, Less;
    var r := EntriesAt(s, p, room, last);
    if s[p] == CH_E {
      SpellsByte(s, p, CH_E, EDictEnd);
      assert EncodePairs([]) + [CH_E] == [CH_E] && FlattenPairs([]) + [EDictEnd] == [EDictEnd];
    } else {
      hide EncodePairs, FlattenPairs, WellFormed, NestingPairs;
      var k := KeyAt(s, p, last);
      var t := AfterKeyAt(s, k.path.pos, room, k.val);
      KeySound(s, p, last);
      AfterKeySound(s, k.path.pos, room, k.val);
      var v, es := t.val[0].val, t.val[1..];
      SpellsThen(s, p, k.path, EncodeStr(k.val), [EStr(k.val)],
                 t.path, Encode(v) + EncodePairs(es) + [CH_E], Flatten(v) + FlattenPairs(es) + [EDictEnd]);
      PairsCons(r.val);
    }
  }

  /** One entry and the rest, as texts and as events. */
  lemma PairsCons(es: seq<Pair>)
    requires es != []
    ensures EncodePairs(es) + [CH_E]
         == EncodeStr(es[0].key) + (Encode(es[0].val) + EncodePairs(es[1..]) + [CH_E])
    ensures FlattenPairs(es) + [EDictEnd]
         == [EStr(es[0].key)] + (Flatten(es[0].val) + FlattenPairs(es[1..]) + [EDictEnd])
  {
    hide Encode, EncodeStr, Flatten;
    var k, v, tail := EncodeStr(es[0].key), Encode(es[0].val), EncodePairs(es[1..]);
    assert k + v + tail + [CH_E] == k + (v + tail + [CH_E]);
    var f, ftail := Flatten(es[0].val), FlattenPairs(es[1..]);
    assert [EStr(es[0].key)] + f + ftail + [EDictEnd] == [EStr(es[0].key)] + (f + ftail + [EDictEnd]);
  }

  lemma {:induction false} AfterKeySound(s: Bytes, p: nat, room: nat, key: Bytes)
    requires p <= |s| && AfterKeyAt(s, p, room, key).path.st == Ok
    requires |key| <= SIZE_MAX
    ensures var r := AfterKeyAt(s, p, room, key);
            && r.val != [] && r.val[0].key == key
            && WellFormed(VDict(r.val))
            && NestingPairs(r.val) <= room
            && Spells(s, p, r.path, Encode(r.val[0].val) + EncodePairs(r.val[1..]) + [CH_E],
                      Flatten(r.val[0].val) + FlattenPairs(r.val[1..]) + [EDictEnd])
    decreases |s| - p, 1
  {
    hide At, Spells, Events, Encode, EncodePairs, Flatten, FlattenPairs, ValueAt, Less, Sorted;
    var r := AfterKeyAt(s, p, room, key);
    var v := ValueAt(s, p, room);
    var t := EntriesAt(s, v.path.pos, room, Some(key));
    ValueSound(s, p, room);
    EntriesSound(s, v.path.pos, room, Some(key));
    assert r.val == [Pair(key, v.val)] + t.val && r.val[1..] == t.val;
    ConsSorted(Pair(key, v.val), t.val);
    SpellsThen(s, p, v.path, Encode(v.val), Flatten(v.val),
               t.path, EncodePairs(t.val) + [CH_E], FlattenPairs(t.val) + [EDictEnd]);
    assert Encode(v.val) + EncodePairs(t.val) + [CH_E] == Encode(v.val) + (EncodePairs(t.val) + [CH_E]);
    assert Flatten(v.val) + FlattenPairs(t.val) + [EDictEnd]
        == Flatten(v.val) + (FlattenPairs(t.val) + [EDictEnd]);
  }

  /** Comparing with the neighbour only is enough: the order is global. */
  lemma ConsSorted(e: Pair, es: seq<Pair>)
    requires Sorted(es) && (es != [] ==> Less(e.key, es[0].key))
    ensures Sorted([e] + es)
  {
    var all := [e] + es;
    forall i, j | 0 <= i < j < |all| ensures Less(all[i].key, all[j].key) {
      if i == 0 && j > 1 {
        LessTransitive(e.key, es[0].key, es[j-1].key);
      }
    }
  }

  // ---- Completeness: every encoding is accepted, whatever follows it ----

  lemma StringComplete(s: Bytes, p: nat, b: Bytes)
    requires |b| <= SIZE_MAX && At(s, p, EncodeStr(b))
    ensures p < |s| && IsDigit(s[p])
    ensures var t := StringAt(s, p);
            t.st == Ok && t.pos == p + |EncodeStr(b)| && s[t.off..t.pos] == b
  {
    var ds := Digits(|b|);
    AtSplit(s, p, ds + [COLON], b);
    AtSplit(s, p, ds, [COLON]);
    AtHead(s, p + |ds|, COLON);
    UnsignedReadsDigits(s, p, |b|, SIZE_MAX);
    assert s[p] == s[p..p+|ds|][0];
  }

  lemma IntComplete(s: Bytes, p: nat, i: int)
    requires INT64_MIN <= i <= INT64_MAX && At(s, p, Encode(VInt(i)))
    ensures p < |s| && s[p] == CH_I
    ensures IntAt(s, p) == IntTok(Ok, p + |Encode(VInt(i))|, i)
  {
    hide At, Digits, Unsigned;
    var sd := SignedDigits(i);
    assert |Encode(VInt(i))| == 2 + |sd|;
    AtSplit(s, p, [CH_I] + sd, [CH_E]);
    AtSplit(s, p, [CH_I], sd);
    AtHead(s, p, CH_I);
    AtHead(s, p + 1 + |sd|, CH_E);
    if i < 0 {
      AtSplit(s, p + 1, [MINUS], Digits(-i));
      AtHead(s, p + 1, MINUS);
      DigitsComplete(s, p + 2, -i, INT64_MAX + 1);
    } else {
      DigitsComplete(s, p + 1, i, INT64_MAX);
    }
  }

  lemma DigitsComplete(s: Bytes, q: nat, n: nat, max: nat)
    requires At(s, q, Digits(n)) && n <= max
    requires q + |Digits(n)| < |s| ==> !IsDigit(s[q+|Digits(n)|])
    ensures q < |s| && IsDigit(s[q])
    ensures Unsigned(s, q, max) == Num(Ok, q + |Digits(n)|, n)
  {
    UnsignedReadsDigits(s, q, n, max);
    assert s[q] == s[q..q+|Digits(n)|][0];
  }

  /** The first byte tells the kinds of value and the closing `e` apart. */
  lemma EncodeStart(s: Bytes, p: nat, v: Value)
    requires At(s, p, Encode(v))
    ensures p < |s| && s[p] == Encode(v)[0] && s[p] != CH_E
    ensures v.VInt? ==> s[p] == CH_I
    ensures v.VStr? ==> IsDigit(s[p])
    ensures v.VList? ==> s[p] == CH_L
    ensures v.VDict? ==> s[p] == CH_D
  {
    assert s[p] == s[p..p+|Encode(v)|][0];
    if v.VStr? {
      assert Encode(v)[0] == Digits(|v.b|)[0];
    }
  }

  lemma StringText(b: Bytes)
    ensures Encode(VStr(b)) == EncodeStr(b)
  {
  }

  lemma ListText(vs: seq<Value>)
    ensures Encode(VList(vs)) == [CH_L] + (EncodeAll(vs) + [CH_E])
  {
  }

  lemma DictText(es: seq<Pair>)
    ensures Encode(VDict(es)) == [CH_D] + (EncodePairs(es) + [CH_E])
  {
  }

  lemma {:induction false} ValueComplete(s: Bytes, p: nat, v: Value, room: nat)
    requires WellFormed(v) && Nesting(v) <= room && At(s, p, Encode(v))
    ensures p <= |s|
    ensures var r := ValueAt(s, p, room);
            r.path.st == Ok && r.path.pos == p + |Encode(v)| && r.val == v
    decreases v, 1
  {
    hide At, Encode, EncodeAll, EncodePairs, NestingAll, NestingPairs, ItemsAt, EntriesAt, IntAt, StringAt, Sorted;
    EncodeStart(s, p, v);
    match v
    case VInt(i) => IntComplete(s, p, i);
    case VStr(b) =>
      StringText(b);
      StringComplete(s, p, b);
    case VList(vs) =>
      ListText(vs);
      AtSplit(s, p, [CH_L], EncodeAll(vs) + [CH_E]);
      ItemsComplete(s, p + 1, vs, room - 1);
    case VDict(es) =>
      DictText(es);
      AtSplit(s, p, [CH_D], EncodePairs(es) + [CH_E]);
      EntriesComplete(s, p + 1, es, room - 1, None);
  }

  lemma {:induction false} ItemsComplete(s: Bytes, p: nat, vs: seq<Value>, room: nat)
    requires forall i :: 0 <= i < |vs| ==> WellFormed(vs[i])
    requires NestingAll(vs) <= room && At(s, p, EncodeAll(vs) + [CH_E])
    ensures p <= |s|
    ensures var r := ItemsAt(s, p, room);
            r.path.st == Ok && r.path.pos == p + |EncodeAll(vs)| + 1 && r.val == vs
    decreases vs, 0
  {
    hide At, Encode, ValueAt, Nesting, WellFormed;
    if vs == [] {
      assert EncodeAll(vs) + [CH_E] == [CH_E];
      AtHead(s, p, CH_E);
    } else {
      assert EncodeAll(vs) + [CH_E] == Encode(vs[0]) + (EncodeAll(vs[1..]) + [CH_E]);
      AtSplit(s, p, Encode(vs[0]), EncodeAll(vs[1..]) + [CH_E]);
      EncodeStart(s, p, vs[0]);
      ValueComplete(s, p, vs[0], room);
      ItemsComplete(s, p + |Encode(vs[0])|, vs[1..], room);
      assert [vs[0]] + vs[1..] == vs;
    }
  }

  lemma KeyComplete(s: Bytes, p: nat, key: Bytes, last: Option<Bytes>)
    requires |key| <= SIZE_MAX && At(s, p, EncodeStr(key))
    requires last.Some? ==> Less(last.value, key)
    ensures p < |s| && s[p] != CH_E
    ensures var r := KeyAt(s, p, last);
            r.path.st == Ok && r.path.pos == p + |EncodeStr(key)| && r.val == key
  {
    hide At, StringAt, EncodeStr, Less;
    StringComplete(s, p, key);
    if last.Some? {
      LessAsymmetric(last.value, key);
    }
  }

  /** The first entry and the remaining dictionary. */
  lemma DictTail(es: seq<Pair>)
    requires es != [] && WellFormed(VDict(es))
    ensures EncodePairs(es) + [CH_E]
         == EncodeStr(es[0].key) + (Encode(es[0].val) + (EncodePairs(es[1..]) + [CH_E]))
    ensures |es[0].key| <= SIZE_MAX && WellFormed(es[0].val) && WellFormed(VDict(es[1..]))
    ensures |es| > 1 ==> Less(es[0].key, es[1].key)
  {
    hide Encode, EncodeStr, Less;
  }

  lemma {:induction false} EntriesComplete(s: Bytes, p: nat, es: seq<Pair>, room: nat, last: Option<Bytes>)
    requires WellFormed(VDict(es)) && NestingPairs(es) <= room
    requires last.Some? && es != [] ==> Less(last.value, es[0].key)
    requires At(s, p, EncodePairs(es) + [CH_E])
    ensures p <= |s|
    ensures var r := EntriesAt(s, p, room, last);
            r.path.st == Ok && r.path.pos == p + |EncodePairs(es)| + 1 && r.val == es
    decreases es, 0
  {
    hide At, Encode, EncodeStr, ValueAt, KeyAt, Nesting, Less, WellFormed;
    if es == [] {
      assert EncodePairs(es) + [CH_E] == [CH_E];
      AtHead(s, p, CH_E);
    } else {
      var k, v := es[0].key, es[0].val;
      var q := p + |EncodeStr(k)|;
      var rest := EncodePairs(es[1..]) + [CH_E];
      DictTail(es);
      AtSplit(s, p, EncodeStr(k), Encode(v) + rest);
      AtSplit(s, q, Encode(v), rest);
      KeyComplete(s, p, k, last);
      EncodeStart(s, q, v);
      ValueComplete(s, q, v, room);
      EntriesComplete(s, q + |Encode(v)|, es[1..], room, Some(k));
      AfterKeyStep(s, q, room, k, v, es[1..]);
      assert [es[0]] + es[1..] == es;
    }
  }

  lemma AfterKeyStep(s: Bytes, q: nat, room: nat, key: Bytes, v: Value, es: seq<Pair>)
    requires q < |s| && s[q] != CH_E
    requires ValueAt(s, q, room).path.st == Ok && ValueAt(s, q, room).val == v
    requires var r := EntriesAt(s, ValueAt(s, q, room).path.pos, room, Some(key));
             r.path.st == Ok && r.val == es
    ensures var r := AfterKeyAt(s, q, room, key);
            && r.path.st == Ok && r.val == [Pair(key, v)] + es
            && r.path.pos == EntriesAt(s, ValueAt(s, q, room).path.pos, room, Some(key)).path.pos
  {
    hide ValueAt, EntriesAt;
  }

  // ---- Encodings that nest too deeply ----

  lemma {:induction false} ValueTooDeep(s: Bytes, p: nat, v: Value, room: nat)
    requires WellFormed(v) && Nesting(v) > room && At(s, p, Encode(v))
    ensures p <= |s| && ValueAt(s, p, room).path.st == NestingTooDeep
    decreases v, 1
  {
    hide At, Encode, EncodeAll, EncodePairs, NestingAll, NestingPairs, ItemsAt, EntriesAt, IntAt, StringAt, Sorted;
    EncodeStart(s, p, v);
    match v
    case VInt(_) =>
    case VStr(_) =>
    case VList(vs) =>
      ListText(vs);
      AtSplit(s, p, [CH_L], EncodeAll(vs) + [CH_E]);
      if room > 0 {
        ItemsTooDeep(s, p + 1, vs, room - 1);
      }
    case VDict(es) =>
      DictText(es);
      AtSplit(s, p, [CH_D], EncodePairs(es) + [CH_E]);
      if room > 0 {
        EntriesTooDeep(s, p + 1, es, room - 1, None);
      }
  }

  lemma {:induction false} ItemsTooDeep(s: Bytes, p: nat, vs: seq<Value>, room: nat)
    requires forall i :: 0 <= i < |vs| ==> WellFormed(vs[i])
    requires NestingAll(vs) > room && At(s, p, EncodeAll(vs) + [CH_E])
    ensures p <= |s| && ItemsAt(s, p, room).path.st == NestingTooDeep
    decreases vs, 0
  {
    hide At, Encode, ValueAt, Nesting, WellFormed;
    assert EncodeAll(vs) + [CH_E] == Encode(vs[0]) + (EncodeAll(vs[1..]) + [CH_E]);
    AtSplit(s, p, Encode(vs[0]), EncodeAll(vs[1..]) + [CH_E]);
    EncodeStart(s, p, vs[0]);
    if Nesting(vs[0]) > room {
      ValueTooDeep(s, p, vs[0], room);
    } else {
      ValueComplete(s, p, vs[0], room);
      ItemsTooDeep(s, p + |Encode(vs[0])|, vs[1..], room);
    }
  }

  lemma {:induction false} EntriesTooDeep(s: Bytes, p: nat, es: seq<Pair>, room: nat, last: Option<Bytes>)
    requires WellFormed(VDict(es)) && NestingPairs(es) > room
    requires last.Some? && es != [] ==> Less(last.value, es[0].key)
    requires At(s, p, EncodePairs(es) + [CH_E])
    ensures p <= |s| && EntriesAt(s, p, room, last).path.st == NestingTooDeep
    decreases es, 0
  {
    hide At, Encode, EncodeStr, EncodePairs, ValueAt, KeyAt, Nesting, Less, WellFormed, AfterKeyAt;
    var k, v := es[0].key, es[0].val;
    var q := p + |EncodeStr(k)|;
    var rest := EncodePairs(es[1..]) + [CH_E];
    DictTail(es);
    AtSplit(s, p, EncodeStr(k), Encode(v) + rest);
    AtSplit(s, q, Encode(v), rest);
    KeyComplete(s, p, k, last);
    EncodeStart(s, q, v);
    if Nesting(v) > room {
      ValueTooDeep(s, q, v, room);
    } else {
      ValueComplete(s, q, v, room);
      EntriesTooDeep(s, q + |Encode(v)|, es[1..], room, Some(k));
    }
    ErrorAfterKey(s, q, room, k, NestingTooDeep);
  }

  /** An error in the rest of a dictionary is the dictionary's error. */
  lemma ErrorAfterKey(s: Bytes, q: nat, room: nat, key: Bytes, st: Status)
    requires q < |s| && s[q] != CH_E && st != Ok
    requires var v := ValueAt(s, q, room);
             if v.path.st == Ok then EntriesAt(s, v.path.pos, room, Some(key)).path.st == st
             else v.path.st == st
    ensures var v := ValueAt(s, q, room).path; var r := AfterKeyAt(s, q, room, key).path;
            r.st == st && r.pos == if v.st == Ok then EntriesAt(s, v.pos, room, Some(key)).path.pos else v.pos
  {
    hide ValueAt, EntriesAt;
  }

  lemma ErrorInEntries(s: Bytes, p: nat, room: nat, last: Option<Bytes>, st: Status)
    requires p < |s| && s[p] != CH_E && st != Ok
    requires var k := KeyAt(s, p, last);
             if k.path.st == Ok then AfterKeyAt(s, k.path.pos, room, k.val).path.st == st
             else k.path.st == st
    ensures var k := KeyAt(s, p, last); var r := EntriesAt(s, p, room, last).path;
            && r.st == st
            && r.pos == if k.path.st == Ok then AfterKeyAt(s, k.path.pos, room, k.val).path.pos else k.path.pos
  {
    hide KeyAt, AfterKeyAt;
  }

  // ---- The main statements ----

  /** Accepted with value `v` and `n` bytes consumed, if and only if the input
      starts with the `n` bytes that encode the well-formed `v`. */
  lemma AcceptsExactly(s: Bytes, p: nat, room: nat, v: Value)
    requires p <= |s|
    ensures ValueAt(s, p, room).path.st == Ok && ValueAt(s, p, room).val == v
       <==> WellFormed(v) && Nesting(v) <= room && At(s, p, Encode(v))
  {
    var r := ValueAt(s, p, room);
    if r.path.st == Ok {
      ValueSound(s, p, room);
    }
    if WellFormed(v) && Nesting(v) <= room && At(s, p, Encode(v)) {
      ValueComplete(s, p, v, room);
    }
  }

  /** Decode then encode is bit-exact. */
  lemma DecodeThenEncode(s: Bytes, maxDepth: nat)
    requires Decode(s, maxDepth).path.st == Ok
    ensures var r := Decode(s, maxDepth); s[..r.path.pos] == Encode(r.val)
  {
    ValueSound(s, 0, Clamp(maxDepth));
  }

  /** Encode then decode, with any bytes after the encoding. */
  lemma EncodeThenDecode(v: Value, rest: Bytes, maxDepth: nat)
    requires WellFormed(v) && Nesting(v) <= Clamp(maxDepth)
    ensures var r := Decode(Encode(v) + rest, maxDepth);
            && r.path.st == Ok && r.path.pos == |Encode(v)| && r.val == v
            && Events(r.path.trace) == Flatten(v)
  {
    var s := Encode(v) + rest;
    assert At(s, 0, Encode(v));
    ValueComplete(s, 0, v, Clamp(maxDepth));
    ValueSound(s, 0, Clamp(maxDepth));
  }

  /** The only thing that can go wrong with an encoding is its depth. */
  lemma EncodedOutcome(v: Value, rest: Bytes, maxDepth: nat)
    requires WellFormed(v)
    ensures Decode(Encode(v) + rest, maxDepth).path.st
         == if Nesting(v) <= Clamp(maxDepth) then Ok else NestingTooDeep
    ensures Clamp(maxDepth) == if maxDepth == 0 then 64 else if maxDepth <= 256 then maxDepth else 256
  {
    var s := Encode(v) + rest;
    assert At(s, 0, Encode(v));
    if Nesting(v) <= Clamp(maxDepth) {
      ValueComplete(s, 0, v, Clamp(maxDepth));
    } else {
      ValueTooDeep(s, 0, v, Clamp(maxDepth));
    }
  }

  /** No encoding is a prefix of another value's encoding; in particular
      different values have different encodings. */
  lemma EncodePrefixFree(v: Value, w: Value, a: Bytes, b: Bytes)
    requires WellFormed(v) && WellFormed(w) && Encode(v) + a == Encode(w) + b
    ensures v == w && a == b
  {
    var s := Encode(v) + a;
    var room := Max(Nesting(v), Nesting(w));
    assert At(s, 0, Encode(v));
    assert s[..|Encode(w)|] == Encode(w);
    assert At(s, 0, Encode(w));
    ValueComplete(s, 0, v, room);
    ValueComplete(s, 0, w, room);
    assert s[|Encode(v)|..] == a && s[|Encode(w)|..] == b;
  }

  /** The depth limit is exact and monotone: an input accepted under one limit
      is accepted under another exactly when its nesting fits, and then with the
      same outcome. */
  lemma DepthLimitExact(s: Bytes, m: nat, n: nat)
    requires Decode(s, m).path.st == Ok
    ensures Nesting(Decode(s, m).val) <= Clamp(m) <= INTERNAL_MAX_DEPTH
    ensures Decode(s, n).path.st == Ok <==> Nesting(Decode(s, m).val) <= Clamp(n)
    ensures Clamp(n) == if n == 0 then 64 else if n <= 256 then n else 256
    ensures Decode(s, n).path.st == Ok ==>
              && Decode(s, n).val == Decode(s, m).val
              && Decode(s, n).path.pos == Decode(s, m).path.pos
  {
    hide ValueAt, Encode, Nesting, WellFormed;
    var r := Decode(s, m);
    ValueSound(s, 0, Clamp(m));
    if Nesting(r.val) <= Clamp(n) {
      ValueComplete(s, 0, r.val, Clamp(n));
    }
    if Decode(s, n).path.st == Ok {
      var v, w := r.val, Decode(s, n).val;
      ValueSound(s, 0, Clamp(n));
      assert s == Encode(v) + s[|Encode(v)|..];
      assert s == Encode(w) + s[|Encode(w)|..];
      EncodePrefixFree(v, w, s[|Encode(v)|..], s[|Encode(w)|..]);
    }
  }

  /** Printing and parsing integers are mutually inverse over the whole signed
      64-bit range, both ends included. */
  lemma IntegerRoundTrip(i: int64, rest: Bytes)
    ensures IntAt(Encode(VInt(i)) + rest, 0) == IntTok(Ok, |Encode(VInt(i))|, i)
  {
    var s := Encode(VInt(i)) + rest;
    assert At(s, 0, Encode(VInt(i)));
    IntComplete(s, 0, i);
  }
}
