/** The parser's exits in plain numbers: for each state and each next byte, which
    event is reported or which error, and with which cursor. Together the lemmas
    of this file leave no case of a token open. */
module Exits {
  import opened Bytes
  import opened Decimal
  import opened Values
  import opened Decoder
  import opened Zipper
  import opened Faults
  import opened Spelling

  /** Everything but numbers: the end of the input, the opening and the closing
      bytes, and the bytes with which nothing starts. */
  lemma SimpleToken(s: Bytes, t: nat, z: Zip, limit: nat)
    requires t <= |s|
    ensures var f := Scan(s, t, z, limit);
            && (t == |s| ==> f == Stop(Truncated, t))
            && (t < |s| && AwaitsKey(z) ==>
                  && (s[t] == 101 ==> f == Path(Ok, t + 1, [Mark(EDictEnd, t + 1)]))
                  && (s[t] != 101 && !(48 <= s[t] <= 57) ==> f == Stop(DictBadKey, t)))
            && (t < |s| && !AwaitsKey(z) ==>
                  && (s[t] in {100, 108} && |z.stack| >= limit ==> f == Stop(NestingTooDeep, t + 1))
                  && (s[t] == 108 && |z.stack| < limit ==> f == Path(Ok, t + 1, [Mark(EListBegin, t + 1)]))
                  && (s[t] == 100 && |z.stack| < limit ==> f == Path(Ok, t + 1, [Mark(EDictBegin, t + 1)]))
                  && (s[t] == 101 && z.stack == [] ==> f == Stop(UnexpectedByte, t))
                  && (s[t] == 101 && z.stack != [] && Top(z).FList? ==> f == Path(Ok, t + 1, [Mark(EListEnd, t + 1)]))
                  && (s[t] == 101 && z.stack != [] && Top(z).FDict? ==> f == Stop(DictMissingValue, t))
                  && (s[t] !in {100, 101, 105, 108} && !(48 <= s[t] <= 57) ==> f == Stop(UnexpectedByte, t)))
  {
    hide IntAt, StringAt, Less, LastKey;
  }

  /** The maximal run of digits from `p` on ends at `e`. */
  lemma RunEndExactly(s: Bytes, p: nat, e: nat)
    requires p <= e <= |s|
    ensures RunEnd(s, p) == e <==>
              (forall i :: p <= i < e ==> 48 <= s[i] <= 57) && (e < |s| ==> !(48 <= s[e] <= 57))
  {
    var r := RunEnd(s, p);
    assert forall i :: p <= i < r ==> s[i] == s[p..r][i-p];
    if (forall i :: p <= i < e ==> 48 <= s[i] <= 57) && (e < |s| ==> !(48 <= s[e] <= 57)) {
      RunEndUnique(s, p, e);
    }
  }

  /** `i`: the digits `ds` begin after the byte or after a minus sign and end at `e`. */
  lemma IntegerToken(s: Bytes, t: nat, z: Zip, limit: nat)
    requires t < |s| && s[t] == 105 && !AwaitsKey(z)
    ensures var f := Scan(s, t, z, limit);
            var negative := t + 1 < |s| && s[t+1] == 45;
            var q := if negative then t + 2 else t + 1;
            var e := RunEnd(s, q);
            var ds := s[q..e];
            var max := if negative then 0x8000_0000_0000_0000 else 0x7FFF_FFFF_FFFF_FFFF;
            if q == |s| then f == Stop(Truncated, q)
            else if q == e then f == Stop(IntegerFormat, q)
            else if |ds| > 1 && ds[0] == 48 then f == Stop(IntegerFormat, q + 1)
            else if Val(ds) > max then
              f.st == IntegerOverflow && f.trace == []
              && q < f.pos < e && Val(s[q..f.pos]) <= max < Val(s[q..f.pos+1])
            else if negative && Val(ds) == 0 then f == Stop(IntegerFormat, e)
            else if e == |s| then f == Stop(Truncated, e)
            else if s[e] != 101 then f == Stop(UnexpectedByte, e)
            else f == Path(Ok, e + 1, [Mark(EInt(if negative then 0 - Val(ds) else Val(ds)), e + 1)])
  {
    hide RunEnd, Val, OverAt, Unsigned, Scan, LastKey;
    ScansInteger(s, t, z, limit);
    var negative := t + 1 < |s| && s[t+1] == 45;
    var q := if negative then t + 2 else t + 1;
    if q < |s| {
      NumberRead(s, q, if negative then 0x8000_0000_0000_0000 else 0x7FFF_FFFF_FFFF_FFFF);
    }
  }

  lemma ScansInteger(s: Bytes, t: nat, z: Zip, limit: nat)
    requires t < |s| && s[t] == 105 && !AwaitsKey(z)
    ensures var k := IntAt(s, t);
            Scan(s, t, z, limit)
            == if k.st == Ok then Path(Ok, k.pos, [Mark(EInt(k.value), k.pos)]) else Stop(k.st, k.pos)
  {
    hide IntAt;
  }

  lemma NumberRead(s: Bytes, q: nat, max: nat)
    requires q < |s| && max >= 9
    ensures var u := Unsigned(s, q, max);
            var e := RunEnd(s, q);
            var ds := s[q..e];
            && (q < e <==> IsDigit(s[q]))
            && if q == e then u == Num(IntegerFormat, q, 0)
               else if |ds| > 1 && ds[0] == 48 then u == Num(IntegerFormat, q + 1, 0)
               else if Val(ds) > max then
                 u.st == IntegerOverflow && q < u.pos < e && Val(s[q..u.pos]) <= max < Val(s[q..u.pos+1])
               else u == Num(Ok, e, Val(ds))
  {
    if IsDigit(s[q]) {
      RunSteps(s, q, q);
      NumberMeaning(s, q, max);
    }
    hide RunEnd, Val, OverAt;
  }

  /** A digit where a value is due: the length `ds` ends at `e`. */
  lemma StringToken(s: Bytes, t: nat, z: Zip, limit: nat)
    requires t < |s| && 48 <= s[t] <= 57 && !AwaitsKey(z)
    ensures var f := Scan(s, t, z, limit);
            var e := RunEnd(s, t);
            var ds := s[t..e];
            && t < e
            && if |ds| > 1 && ds[0] == 48 then f == Stop(IntegerFormat, t + 1)
               else if Val(ds) > 0xFFFF_FFFF_FFFF_FFFF then
                 f.st == IntegerOverflow && f.trace == [] && t < f.pos < e
                 && Val(s[t..f.pos]) <= 0xFFFF_FFFF_FFFF_FFFF < Val(s[t..f.pos+1])
               else if e == |s| then f == Stop(Truncated, e)
               else if s[e] != 58 then f == Stop(UnexpectedByte, e)
               else if |s| - (e + 1) < Val(ds) then f == Stop(StringLength, e + 1)
               else
                 var end := e + 1 + Val(ds);
                 f == Path(Ok, end, [Mark(EStr(s[e+1..end]), end)])
  {
    hide RunEnd, Val, OverAt;
    NumberRead(s, t, SIZE_MAX);
    hide Unsigned;
  }

  /** A digit where a key is due: the same up to the end of the key, and then the
      comparison with the last one. */
  lemma KeyToken(s: Bytes, t: nat, z: Zip, limit: nat)
    requires t < |s| && 48 <= s[t] <= 57 && AwaitsKey(z)
    ensures var f := Scan(s, t, z, limit);
            var e := RunEnd(s, t);
            var ds := s[t..e];
            && t < e
            && if |ds| > 1 && ds[0] == 48 then f == Stop(IntegerFormat, t + 1)
               else if Val(ds) > 0xFFFF_FFFF_FFFF_FFFF then
                 f.st == IntegerOverflow && f.trace == [] && t < f.pos < e
                 && Val(s[t..f.pos]) <= 0xFFFF_FFFF_FFFF_FFFF < Val(s[t..f.pos+1])
               else if e == |s| then f == Stop(Truncated, e)
               else if s[e] != 58 then f == Stop(UnexpectedByte, e)
               else if |s| - (e + 1) < Val(ds) then f == Stop(StringLength, e + 1)
               else
                 var end := e + 1 + Val(ds);
                 var key := s[e+1..end];
                 var pairs := Top(z).pairs;
                 if pairs != [] && key == pairs[|pairs|-1].key then f == Stop(DictDuplicate, end)
                 else if pairs != [] && Less(key, pairs[|pairs|-1].key) then f == Stop(DictUnsorted, end)
                 else f == Path(Ok, end, [Mark(EStr(key), end)])
  {
    hide RunEnd, Val, OverAt, Less;
    NumberRead(s, t, SIZE_MAX);
    hide Unsigned;
  }

  /** "String length" in particular: the token is a canonical length that fits, its
      colon is there, and fewer bytes are left than it says. */
  lemma StringLengthExactly(s: Bytes, t: nat, z: Zip, limit: nat)
    requires t <= |s|
    ensures Scan(s, t, z, limit).st == StringLength <==>
              && t < |s| && 48 <= s[t] <= 57
              && var e := RunEnd(s, t);
                 && Canonical(s[t..e]) && Val(s[t..e]) <= 0xFFFF_FFFF_FFFF_FFFF
                 && e < |s| && s[e] == 58 && |s| - (e + 1) < Val(s[t..e])
  {
    hide Scan, Val, OverAt;
    SimpleToken(s, t, z, limit);
    if t < |s| && IsDigit(s[t]) {
      RunShape(s, t);
      if AwaitsKey(z) {
        KeyToken(s, t, z, limit);
      } else {
        StringToken(s, t, z, limit);
      }
    } else if t < |s| && s[t] == 105 && !AwaitsKey(z) {
      IntegerToken(s, t, z, limit);
    }
  }

  /** The text of an event in numbers; a sequence of events is spelled one event
      after the other. */
  lemma TokenBytes(e: Event, evs: seq<Event>)
    ensures Spell([]) == [] && Spell([e] + evs) == Token(e) + Spell(evs)
    ensures match e
            case EInt(i) => Token(e) == [105] + (if i < 0 then [45] + Digits(-i) else Digits(i)) + [101]
            case EStr(b) => Token(e) == Digits(|b|) + [58] + b
            case EListBegin => Token(e) == [108]
            case EDictBegin => Token(e) == [100]
            case EListEnd => Token(e) == [101]
            case EDictEnd => Token(e) == [101]
  {
    assert ([e] + evs)[1..] == evs;
  }
}
