/** Which outcomes more input can change. Success and every error except
    "truncated" and "string length" are final: they stay the same, with the same
    cursor and the same events, whatever bytes are appended. Hence a proper
    prefix of an accepted value can only fail in those two ways. */
module Finality {
  import opened Bytes
  import opened Decimal
  import opened Decoder

  predicate Final(st: Status) {
    st != Truncated && st != StringLength
  }

  /** A digit run that ends inside `s` is the same run in `s + t`. */
  lemma {:induction false} RunEndAppend(s: Bytes, t: Bytes, p: nat)
    requires p <= |s| && RunEnd(s, p) < |s|
    ensures RunEnd(s + t, p) == RunEnd(s, p)
  {
    var e := RunEnd(s, p);
    assert (s + t)[p..e] == s[p..e];
    RunEndUnique(s + t, p, e);
  }

  lemma {:induction false} RunEndGrows(s: Bytes, t: Bytes, p: nat)
    requires p <= |s|
    ensures RunEnd(s, p) <= RunEnd(s + t, p)
    decreases |s| - p
  {
    if p < |s| && IsDigit(s[p]) {
      RunEndGrows(s, t, p + 1);
    }
  }

  lemma {:induction false} OverAtAppend(s: Bytes, t: Bytes, p: nat, q: nat, e: nat, f: nat, max: nat)
    requires p <= q <= e <= |s| && e <= f <= |s + t|
    requires OverAt(s, p, q, e, max) < e
    ensures OverAt(s + t, p, q, f, max) == OverAt(s, p, q, e, max)
    decreases e - q
  {
    hide Val;
    if q < e {
      assert (s + t)[p..q+1] == s[p..q+1];
      if Val(s[p..q+1]) <= max {
        OverAtAppend(s, t, p, q + 1, e, f, max);
      }
    }
  }

  lemma OverflowFinal(s: Bytes, t: Bytes, p: nat, max: nat)
    requires p <= |s| && Unsigned(s, p, max).st == IntegerOverflow
    ensures Unsigned(s + t, p, max) == Unsigned(s, p, max)
  {
    var e, f := RunEnd(s, p), RunEnd(s + t, p);
    RunEndGrows(s, t, p);
    hide RunEnd, Val;
    OverAtFound(s, p, p, e, max);
    OverAtAppend(s, t, p, p, e, f, max);
    StillOver(s, t, p, e, f, max);
  }

  lemma StillOver(s: Bytes, t: Bytes, p: nat, e: nat, f: nat, max: nat)
    requires p <= e <= |s| && e <= f <= |s + t| && AllDigits((s + t)[p..f])
    requires Val(s[p..e]) > max
    ensures Val((s + t)[p..f]) > max
  {
    hide Val;
    assert s[p..e] == (s + t)[p..e];
    ShorterSlice(s + t, p, e, f);
    ValMonotone((s + t)[p..f], e - p);
  }

  /** An unsigned number is final unless it runs into the end of the input. */
  lemma UnsignedFinal(s: Bytes, t: Bytes, p: nat, max: nat)
    requires p <= |s|
    requires var r := Unsigned(s, p, max); r.st != Truncated && (r.st == Ok ==> r.pos < |s|)
    ensures Unsigned(s + t, p, max) == Unsigned(s, p, max)
  {
    if Unsigned(s, p, max).st == IntegerOverflow {
      OverflowFinal(s, t, p, max);
    } else {
      var e := RunEnd(s, p);
      RunEndGrows(s, t, p);
      if e < |s| {
        RunEndAppend(s, t, p);
        assert (s + t)[p..e] == s[p..e];
      }
    }
  }

  lemma StringFinal(s: Bytes, t: Bytes, p: nat)
    requires p <= |s| && Final(StringAt(s, p).st)
    ensures StringAt(s + t, p) == StringAt(s, p)
  {
    hide Unsigned;
    UnsignedFinal(s, t, p, SIZE_MAX);
  }

  lemma IntFinal(s: Bytes, t: Bytes, p: nat)
    requires p < |s| && Final(IntAt(s, p).st)
    ensures IntAt(s + t, p) == IntAt(s, p)
  {
    var negative := p + 1 < |s| && s[p+1] == MINUS;
    var q := if negative then p + 2 else p + 1;
    if q < |s| && IsDigit(s[q]) {
      var max := if negative then INT64_MAX + 1 else INT64_MAX;
      var u := Unsigned(s, q, max);
      if u.st == Ok && u.pos == |s| {
        NegativeZeroFinal(s, t, q);
      } else {
        UnsignedFinal(s, t, q, max);
      }
    }
    hide Unsigned;
  }

  /** `-0` at the very end of the input: a further digit is a leading-zero
      error at the same place. */
  lemma NegativeZeroFinal(s: Bytes, t: Bytes, q: nat)
    requires q < |s| && IsDigit(s[q])
    requires Unsigned(s, q, INT64_MAX + 1) == Num(Ok, |s|, 0)
    ensures Unsigned(s + t, q, INT64_MAX + 1) == Num(Ok, |s|, 0)
         || Unsigned(s + t, q, INT64_MAX + 1) == Num(IntegerFormat, |s|, 0)
  {
    var ds := s[q..|s|];
    assert RunEnd(s, q) == |s|;
    assert ds[0] == s[q];
    if ds[0] != ZERO {
      ValPositive(ds);
      assert false;
    }
    assert |ds| == 1;
    RunEndGrows(s, t, q);
    if t == [] || !IsDigit(t[0]) {
      assert (s + t)[q..|s|] == ds;
      RunEndUnique(s + t, q, |s|);
    } else {
      assert RunEnd(s + t, q) > |s|;
    }
  }

  lemma {:induction false} ValueFinal(s: Bytes, t: Bytes, p: nat, room: nat)
    requires p <= |s| && Final(ValueAt(s, p, room).path.st)
    ensures ValueAt(s + t, p, room) == ValueAt(s, p, room)
    decreases |s| - p, 0
  {
    hide IntAt, StringAt, ItemsAt, EntriesAt;
    if s[p] == CH_I {
      IntFinal(s, t, p);
    } else if s[p] == CH_L {
      if room > 0 {
        ItemsFinal(s, t, p + 1, room - 1);
      }
    } else if s[p] == CH_D {
      if room > 0 {
        EntriesFinal(s, t, p + 1, room - 1, None);
      }
    } else if IsDigit(s[p]) {
      StringFinal(s, t, p);
      var k := StringAt(s, p);
      if k.st == Ok {
        assert (s + t)[k.off..k.pos] == s[k.off..k.pos];
      }
    }
  }

  lemma {:induction false} ItemsFinal(s: Bytes, t: Bytes, p: nat, room: nat)
    requires p <= |s| && Final(ItemsAt(s, p, room).path.st)
    ensures ItemsAt(s + t, p, room) == ItemsAt(s, p, room)
    decreases |s| - p, 1
  {
    hide ValueAt;
    if s[p] != CH_E {
      ValueFinal(s, t, p, room);
      var v := ValueAt(s, p, room);
      if v.path.st == Ok {
        ItemsFinal(s, t, v.path.pos, room);
      }
    }
  }

  lemma KeyFinal(s: Bytes, t: Bytes, p: nat, last: Option<Bytes>)
    requires p < |s| && Final(KeyAt(s, p, last).path.st)
    ensures KeyAt(s + t, p, last) == KeyAt(s, p, last)
  {
    hide StringAt, Less;
    if IsDigit(s[p]) {
      StringFinal(s, t, p);
      var k := StringAt(s, p);
      if k.st == Ok {
        assert (s + t)[k.off..k.pos] == s[k.off..k.pos];
      }
    }
  }

  lemma {:induction false} EntriesFinal(s: Bytes, t: Bytes, p: nat, room: nat, last: Option<Bytes>)
    requires p <= |s| && Final(EntriesAt(s, p, room, last).path.st)
    ensures EntriesAt(s + t, p, room, last) == EntriesAt(s, p, room, last)
    decreases |s| - p, 1
  {
    hide KeyAt;
    if s[p] != CH_E {
      KeyFinal(s, t, p, last);
      var k := KeyAt(s, p, last);
      if k.path.st == Ok {
        AfterKeyFinal(s, t, k.path.pos, room, k.val);
      }
    }
  }

  lemma {:induction false} AfterKeyFinal(s: Bytes, t: Bytes, p: nat, room: nat, key: Bytes)
    requires p <= |s| && Final(AfterKeyAt(s, p, room, key).path.st)
    ensures AfterKeyAt(s + t, p, room, key) == AfterKeyAt(s, p, room, key)
    decreases |s| - p, 1
  {
    hide ValueAt;
    if s[p] != CH_E {
      ValueFinal(s, t, p, room);
      var v := ValueAt(s, p, room);
      if v.path.st == Ok {
        EntriesFinal(s, t, v.path.pos, room, Some(key));
      }
    }
  }

  // ---- The main statements ----

  /** Appending bytes changes nothing about a final outcome: same status, same
      consumed count, same events, same value. */
  lemma OutcomeFinal(s: Bytes, t: Bytes, maxDepth: nat)
    requires Final(Decode(s, maxDepth).path.st)
    ensures Decode(s + t, maxDepth) == Decode(s, maxDepth)
  {
    ValueFinal(s, t, 0, Clamp(maxDepth));
  }

  /** Cut an accepted value short anywhere, and the only possible outcomes are
      "truncated" and "string length". */
  lemma ProperPrefixFails(s: Bytes, cut: nat, maxDepth: nat)
    requires Decode(s, maxDepth).path.st == Ok && cut < Decode(s, maxDepth).path.pos
    ensures Decode(s[..cut], maxDepth).path.st in {Truncated, StringLength}
  {
    hide ValueAt;
    assert s[..cut] + s[cut..] == s;
    if Final(Decode(s[..cut], maxDepth).path.st) {
      OutcomeFinal(s[..cut], s[cut..], maxDepth);
    }
  }

  /** "Truncated" always means that the whole input was read. */
  lemma {:induction false} TruncatedAtEnd(s: Bytes, p: nat, room: nat)
    requires p <= |s| && ValueAt(s, p, room).path.st == Truncated
    ensures ValueAt(s, p, room).path.pos == |s|
    decreases |s| - p, 0
  {
    hide IntAt, StringAt, ItemsAt, EntriesAt;
    if p < |s| && s[p] == CH_L && room > 0 {
      ItemsTruncatedAtEnd(s, p + 1, room - 1);
    } else if p < |s| && s[p] == CH_D && room > 0 {
      EntriesTruncatedAtEnd(s, p + 1, room - 1, None);
    }
  }

  lemma {:induction false} ItemsTruncatedAtEnd(s: Bytes, p: nat, room: nat)
    requires p <= |s| && ItemsAt(s, p, room).path.st == Truncated
    ensures ItemsAt(s, p, room).path.pos == |s|
    decreases |s| - p, 1
  {
    hide ValueAt;
    if p < |s| {
      var v := ValueAt(s, p, room);
      if v.path.st == Ok {
        ItemsTruncatedAtEnd(s, v.path.pos, room);
      } else {
        TruncatedAtEnd(s, p, room);
      }
    }
  }

  lemma {:induction false} EntriesTruncatedAtEnd(s: Bytes, p: nat, room: nat, last: Option<Bytes>)
    requires p <= |s| && EntriesAt(s, p, room, last).path.st == Truncated
    ensures EntriesAt(s, p, room, last).path.pos == |s|
    decreases |s| - p, 1
  {
    if p < |s| {
      hide StringAt;
      var k := KeyAt(s, p, last);
      if k.path.st == Ok {
        hide KeyAt, ValueAt;
        var q := k.path.pos;
        if q < |s| {
          var v := ValueAt(s, q, room);
          if v.path.st == Ok {
            EntriesTruncatedAtEnd(s, v.path.pos, room, Some(k.val));
          } else {
            TruncatedAtEnd(s, q, room);
          }
        }
      }
    }
  }
}
