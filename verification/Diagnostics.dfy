/** What the key errors mean. The header promises "duplicate" for a dictionary
    that contains the same key twice; the parser compares each key with the one
    before it only, so a repetition further back is reported as "unsorted". */
module Diagnostics {
  import opened Bytes
  import opened Values
  import opened Decoder
  import opened Grammar
  import opened Zipper
  import opened Faults
  import opened Offsets

  /** After the increasing keys `seen`, a key is accepted if and only if it is
      greater than every one of them; it is a duplicate if and only if it repeats
      the last one, and unsorted if and only if it is smaller than the last one. */
  lemma KeyVerdict(s: Bytes, p: nat, seen: seq<Pair>)
    requires p < |s| && IsDigit(s[p]) && StringAt(s, p).st == Ok
    requires Sorted(seen) && seen != []
    ensures var key := s[StringAt(s, p).off..StringAt(s, p).pos];
            var last := seen[|seen|-1].key;
            var st := KeyAt(s, p, Some(last)).path.st;
            && (st == Ok <==> forall i :: 0 <= i < |seen| ==> Less(seen[i].key, key))
            && (st == DictDuplicate <==> key == last)
            && (st == DictUnsorted <==> Less(key, last))
  {
    hide StringAt, Less;
    var key := s[StringAt(s, p).off..StringAt(s, p).pos];
    var n := |seen| - 1;
    var last := seen[n].key;
    LessTotal(last, key);
    LessIrreflexive(key);
    if Less(last, key) {
      LessAsymmetric(last, key);
      forall i | 0 <= i < |seen| ensures Less(seen[i].key, key) {
        if i < n {
          LessTransitive(seen[i].key, last, key);
        }
      }
    }
    if Less(key, last) {
      LessAsymmetric(key, last);
    }
  }

  /** A repeated key is called a duplicate if and only if the repeated one is the
      last; otherwise it is called unsorted. */
  lemma RepeatedKey(s: Bytes, p: nat, seen: seq<Pair>, i: nat)
    requires p < |s| && IsDigit(s[p]) && StringAt(s, p).st == Ok
    requires Sorted(seen) && i < |seen|
    requires seen[i].key == s[StringAt(s, p).off..StringAt(s, p).pos]
    ensures KeyAt(s, p, Some(seen[|seen|-1].key)).path.st
         == if i == |seen| - 1 then DictDuplicate else DictUnsorted
  {
    hide StringAt, Less, KeyAt;
    KeyVerdict(s, p, seen);
    var n := |seen| - 1;
    if i < n {
      assert Less(seen[i].key, seen[n].key);
      LessIrreflexive(seen[n].key);
    }
  }

  /** Every failed parse, at any depth: the key errors are reported if and only if
      a key is due and a whole key stands there; then it repeats, respectively is
      smaller than, the last key of the innermost dictionary. */
  lemma KeyErrors(s: Bytes, maxDepth: nat)
    requires Decode(s, maxDepth).path.st != Ok
    ensures var path := Decode(s, maxDepth).path;
            var t := LastAt(path.trace, 0);
            && LegalAll(Start, Events(path.trace)) && t <= |s|
            && var z, k := Run(Start, Events(path.trace)), StringAt(s, t);
               && (path.st in {DictDuplicate, DictUnsorted} <==> KeyEnds(s, t, z, k.pos))
               && (path.st in {DictDuplicate, DictUnsorted} ==>
                     && path.pos == k.pos && LastKey(Top(z)).Some?
                     && var last := LastKey(Top(z)).value;
                        && (path.st == DictDuplicate <==> s[k.off..k.pos] == last)
                        && (path.st == DictUnsorted <==> Less(s[k.off..k.pos], last)))
  {
    hide ValueAt, LegalAll, Run, Less, LastKey, StringAt, IntAt;
    var path := Decode(s, maxDepth).path;
    FailsByToken(s, maxDepth);
    var t, z := LastAt(path.trace, 0), Run(Start, Events(path.trace));
    FaultMeaning(s, t, z, Clamp(maxDepth));
    if path.st in {DictDuplicate, DictUnsorted} {
      LessIrreflexive(LastKey(Top(z)).value);
    }
  }

  /** When a parse meets a key that its dictionary already has, it is called a
      duplicate if and only if it was the last one. */
  lemma RepetitionInParse(s: Bytes, maxDepth: nat, i: nat)
    requires Decode(s, maxDepth).path.st in {DictDuplicate, DictUnsorted}
    requires LegalAll(Start, Events(Decode(s, maxDepth).path.trace))
    requires var path := Decode(s, maxDepth).path;
             var t, z := LastAt(path.trace, 0), Run(Start, Events(path.trace));
             && t <= |s| && KeyEnds(s, t, z, path.pos)
             && i < |Top(z).pairs| && Top(z).pairs[i].key == s[StringAt(s, t).off..path.pos]
    ensures var path := Decode(s, maxDepth).path;
            path.st == if i == |Top(Run(Start, Events(path.trace))).pairs| - 1 then DictDuplicate else DictUnsorted
  {
    hide ValueAt, LegalAll, Run, Less, StringAt, IntAt, KeyAt;
    var path := Decode(s, maxDepth).path;
    FailsByToken(s, maxDepth);
    var t, z := LastAt(path.trace, 0), Run(Start, Events(path.trace));
    RunWell(Start, Events(path.trace));
    assert WellFrame(Top(z));
    RepeatedKey(s, t, Top(z).pairs, i);
  }

  /** How the parser calls a key that is not greater than `last`. */
  function Rejection(last: Bytes, key: Bytes): (st: Status)
    ensures st != Ok
  {
    if key == last then DictDuplicate else DictUnsorted
  }

  predicate NotAbove(key: Bytes, last: Bytes) {
    key == last || Less(key, last)
  }

  /** Entries that are fine, then a key that is not greater than the last one:
      that key is where the dictionary fails, whatever follows. */
  lemma {:induction false} EntriesThenBadKey(s: Bytes, p: nat, es: seq<Pair>, key: Bytes, room: nat,
                                             last: Option<Bytes>)
    requires es != [] && WellFormed(VDict(es)) && NestingPairs(es) <= room && |key| <= SIZE_MAX
    requires last.Some? ==> Less(last.value, es[0].key)
    requires NotAbove(key, es[|es|-1].key)
    requires At(s, p, EncodePairs(es) + EncodeStr(key))
    ensures p <= |s|
    ensures var r := EntriesAt(s, p, room, last).path;
            r.st == Rejection(es[|es|-1].key, key) && r.pos == p + |EncodePairs(es)| + |EncodeStr(key)|
    decreases |es|
  {
    hide At, Encode, EncodeStr, ValueAt, KeyAt, StringAt;
    hide EntriesAt, AfterKeyAt, Nesting, Less, WellFormed, NotAbove, Rejection;
    var k, v := es[0].key, es[0].val;
    var q := p + |EncodeStr(k)| + |Encode(v)|;
    FirstEntry(s, p, es, key, room, last);
    if |es| == 1 {
      assert EncodePairs(es[1..]) + EncodeStr(key) == EncodeStr(key);
      BadKey(s, q, key, k);
      ErrorInEntries(s, q, room, Some(k), Rejection(k, key));
    } else {
      EntriesThenBadKey(s, q, es[1..], key, room, Some(k));
    }
    ErrorAfterFirst(s, p, k, v, room, last, Rejection(es[|es|-1].key, key));
  }

  lemma BadKey(s: Bytes, p: nat, key: Bytes, last: Bytes)
    requires |key| <= SIZE_MAX && At(s, p, EncodeStr(key)) && NotAbove(key, last)
    ensures p < |s| && s[p] != CH_E && KeyAt(s, p, Some(last)).path == Stop(Rejection(last, key), p + |EncodeStr(key)|)
  {
    hide At, EncodeStr, StringAt, Less;
    StringComplete(s, p, key);
  }

  /** The first entry is read, and the rest begins right after it. */
  lemma FirstEntry(s: Bytes, p: nat, es: seq<Pair>, key: Bytes, room: nat, last: Option<Bytes>)
    requires es != [] && WellFormed(VDict(es)) && NestingPairs(es) <= room
    requires last.Some? ==> Less(last.value, es[0].key)
    requires At(s, p, EncodePairs(es) + EncodeStr(key))
    ensures FirstRead(s, p, es[0].key, es[0].val, room, last)
    ensures At(s, p + |EncodeStr(es[0].key)| + |Encode(es[0].val)|, EncodePairs(es[1..]) + EncodeStr(key))
    ensures WellFormed(VDict(es[1..])) && NestingPairs(es[1..]) <= room
    ensures |es| > 1 ==> Less(es[0].key, es[1].key)
  {
    hide At, Encode, EncodeStr, ValueAt, KeyAt, Nesting, Less, WellFormed;
    var k, v := es[0].key, es[0].val;
    var q := p + |EncodeStr(k)|;
    var rest := EncodePairs(es[1..]) + EncodeStr(key);
    DictTail(es);
    assert EncodePairs(es) + EncodeStr(key) == EncodeStr(k) + (Encode(v) + rest);
    AtSplit(s, p, EncodeStr(k), Encode(v) + rest);
    AtSplit(s, q, Encode(v), rest);
    KeyComplete(s, p, k, last);
    EncodeStart(s, q, v);
    ValueComplete(s, q, v, room);
  }

  ghost predicate FirstRead(s: Bytes, p: nat, k: Bytes, v: Value, room: nat, last: Option<Bytes>) {
    var q := p + |EncodeStr(k)|;
    && p < |s| && s[p] != CH_E && q < |s| && s[q] != CH_E
    && KeyAt(s, p, last).path.st == Ok && KeyAt(s, p, last).path.pos == q && KeyAt(s, p, last).val == k
    && ValueAt(s, q, room).path.st == Ok && ValueAt(s, q, room).path.pos == q + |Encode(v)|
  }

  lemma ErrorAfterFirst(s: Bytes, p: nat, k: Bytes, v: Value, room: nat, last: Option<Bytes>, st: Status)
    requires FirstRead(s, p, k, v, room, last) && st != Ok
    requires EntriesAt(s, p + |EncodeStr(k)| + |Encode(v)|, room, Some(k)).path.st == st
    ensures EntriesAt(s, p, room, last).path.st == st
    ensures EntriesAt(s, p, room, last).path.pos
         == EntriesAt(s, p + |EncodeStr(k)| + |Encode(v)|, room, Some(k)).path.pos
  {
    hide Encode, EncodeStr, ValueAt, KeyAt, EntriesAt, AfterKeyAt;
    ErrorAfterKey(s, p + |EncodeStr(k)|, room, k, st);
    ErrorInEntries(s, p, room, last, st);
  }

  /** A whole input: a dictionary whose next key is not greater than the last. */
  lemma BadKeyRejected(es: seq<Pair>, key: Bytes, rest: Bytes, maxDepth: nat)
    requires es != [] && WellFormed(VDict(es)) && Nesting(VDict(es)) <= Clamp(maxDepth) && |key| <= SIZE_MAX
    requires NotAbove(key, es[|es|-1].key)
    ensures var text := [CH_D] + (EncodePairs(es) + EncodeStr(key));
            var path := Decode(text + rest, maxDepth).path;
            path.st == Rejection(es[|es|-1].key, key) && path.pos == |text|
  {
    hide At, Encode, EncodeStr, EncodePairs, ValueAt, EntriesAt;
    hide Nesting, Less, WellFormed, Clamp, FirstRead, NotAbove, Rejection;
    var text := EncodePairs(es) + EncodeStr(key);
    var s := [CH_D] + text + rest;
    AtSelf([CH_D] + text, rest);
    AtSplit(s, 0, [CH_D], text);
    BadKeyStatus(s, es, key, Clamp(maxDepth));
  }

  lemma AtSelf(text: Bytes, rest: Bytes)
    ensures At(text + rest, 0, text)
  {
    assert (text + rest)[..|text|] == text;
  }

  lemma BadKeyStatus(s: Bytes, es: seq<Pair>, key: Bytes, room: nat)
    requires es != [] && WellFormed(VDict(es)) && Nesting(VDict(es)) <= room && |key| <= SIZE_MAX
    requires NotAbove(key, es[|es|-1].key)
    requires |s| > 0 && s[0] == CH_D && At(s, 1, EncodePairs(es) + EncodeStr(key))
    ensures var path := ValueAt(s, 0, room).path;
            path.st == Rejection(es[|es|-1].key, key) && path.pos == 1 + |EncodePairs(es)| + |EncodeStr(key)|
  {
    assert Nesting(VDict(es)) == 1 + NestingPairs(es);
    hide At, Encode, EncodeStr, EncodePairs, ValueAt, EntriesAt, KeyAt, StringAt;
    hide Nesting, NestingPairs, Less, WellFormed, NotAbove, Rejection;
    EntriesThenBadKey(s, 1, es, key, room - 1, None);
    DictStatus(s, 0, room);
  }

  lemma DictStatus(s: Bytes, p: nat, room: nat)
    requires p < |s| && s[p] == CH_D && room > 0
    ensures ValueAt(s, p, room).path.st == EntriesAt(s, p + 1, room - 1, None).path.st
    ensures ValueAt(s, p, room).path.pos == EntriesAt(s, p + 1, room - 1, None).path.pos
  {
    hide EntriesAt;
  }

  /** `d1:ai1e1:bi2e1:a...` contains the key `a` twice and is not reported as a
      duplicate, whatever follows; the consumed count is one past the last byte of
      the offending key. */
  lemma DuplicateReportedUnsorted(rest: Bytes)
    ensures var es := [Pair([97], VInt(1)), Pair([98], VInt(2))];
            var text := [CH_D] + (EncodePairs(es) + EncodeStr([97]));
            && Decode(text + rest, 0).path.st == DictUnsorted
            && Decode(text + rest, 0).path.pos == |text|
            && Settles(text + rest, 0, |text| - 1)
  {
    var a, b := Pair([97], VInt(1)), Pair([98], VInt(2));
    var es := [a, b];
    assert Less(a.key, b.key);
    assert Sorted(es);
    assert es[1..] == [b] && [b][1..] == [] && NestingPairs([]) == 0;
    assert NestingPairs([b]) == 0;
    assert NestingPairs(es) == 0;
    BadKeyRejected(es, [97], rest, 0);
    ConsumedAndOffender([CH_D] + (EncodePairs(es) + EncodeStr([97])) + rest, 0);
  }
}
