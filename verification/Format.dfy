/** The format in plain numbers: the bytes of every encoding, what the digits mean,
    which values there are, how deep they are nested, and their events. Everything
    else in the project is stated through these definitions. */
module Format {
  import opened Bytes
  import opened Decimal
  import opened Values
  import opened Decoder
  import opened Grammar

  // ---- Texts ----

  /** `i<digits>e`, with a minus sign before the digits of a negative number. */
  lemma IntegerText(i: int)
    ensures Encode(VInt(i)) == [105] + (if i < 0 then [45] + Digits(-i) else Digits(i)) + [101]
  {
  }

  /** `<length>:<bytes>` */
  lemma StringBytes(b: Bytes)
    ensures Encode(VStr(b)) == EncodeStr(b) == Digits(|b|) + [58] + b
  {
  }

  /** `l<items>e` */
  lemma ListBytes(vs: seq<Value>)
    ensures Encode(VList(vs)) == [108] + EncodeAll(vs) + [101]
    ensures EncodeAll([]) == []
    ensures forall v :: EncodeAll([v] + vs) == Encode(v) + EncodeAll(vs)
  {
    forall v ensures EncodeAll([v] + vs) == Encode(v) + EncodeAll(vs) {
      assert ([v] + vs)[1..] == vs;
    }
  }

  /** `d<key><value>...e` */
  lemma DictBytes(es: seq<Pair>)
    ensures Encode(VDict(es)) == [100] + EncodePairs(es) + [101]
    ensures EncodePairs([]) == []
    ensures forall k, v :: EncodePairs([Pair(k, v)] + es) == EncodeStr(k) + Encode(v) + EncodePairs(es)
  {
    forall k, v ensures EncodePairs([Pair(k, v)] + es) == EncodeStr(k) + Encode(v) + EncodePairs(es) {
      assert ([Pair(k, v)] + es)[1..] == es;
    }
  }

  // ---- Numerals ----

  /** A byte is a digit if and only if it is one of `0` to `9`, and a run of digits
      is read in base ten, most significant digit first. */
  lemma DigitsMean(ds: Bytes, d: byte)
    ensures IsDigit(d) <==> 48 <= d <= 57
    ensures Val([]) == 0 && Val(ds + [d]) == 10 * Val(ds) + (d - 48)
  {
    assert (ds + [d])[..|ds|] == ds;
  }

  /** The digits printed for a number are the one string of digits without a
      superfluous leading zero that has its value. */
  lemma DigitsExactly(n: nat, ds: Bytes)
    ensures ds == Digits(n) <==>
              && ds != [] && (forall i :: 0 <= i < |ds| ==> 48 <= ds[i] <= 57)
              && (|ds| > 1 ==> ds[0] != 48) && Val(ds) == n
  {
    ValOfDigits(n);
    hide Digits, Val;
    if Canonical(ds) {
      DigitsOfVal(ds);
    }
  }

  // ---- Values ----

  /** Integers of 64 bits, lengths below 2^64, and dictionaries whose keys increase:
      at the first difference of two keys in this order the byte is larger, or the
      first key ends. */
  lemma WellFormedExactly(v: Value)
    ensures WellFormed(v) <==>
              && (v.VInt? ==> -0x8000_0000_0000_0000 <= v.i < 0x8000_0000_0000_0000)
              && (v.VStr? ==> |v.b| < 0x1_0000_0000_0000_0000)
              && (v.VList? ==> forall i :: 0 <= i < |v.items| ==> WellFormed(v.items[i]))
              && (v.VDict? ==>
                    && (forall i, j :: 0 <= i < j < |v.pairs| ==> Precedes(v.pairs[i].key, v.pairs[j].key))
                    && (forall i :: 0 <= i < |v.pairs| ==> |v.pairs[i].key| < 0x1_0000_0000_0000_0000)
                    && (forall i :: 0 <= i < |v.pairs| ==> WellFormed(v.pairs[i].val)))
  {
    hide Less, Precedes;
    forall a: Bytes, b: Bytes ensures Less(a, b) <==> Precedes(a, b) {
      PrecedesIsLess(a, b);
    }
  }

  predicate Precedes(a: Bytes, b: Bytes) {
    exists k :: 0 <= k <= |a| && k < |b| && a[..k] == b[..k] && (k == |a| || a[k] < b[k])
  }

  lemma PrecedesIsLess(a: Bytes, b: Bytes)
    ensures Less(a, b) <==> Precedes(a, b)
  {
    LessExactly(a, b);
  }

  /** A leaf is not nested; a container is one level deeper than its deepest
      child, or one level deep when it has none. */
  lemma NestingExactly(v: Value, n: nat)
    ensures v.VInt? || v.VStr? ==> Nesting(v) == 0
    ensures v.VList? || v.VDict? ==> Nesting(v) >= 1
    ensures v.VList? ==> (Nesting(v) <= n + 1 <==> forall i :: 0 <= i < |v.items| ==> Nesting(v.items[i]) <= n)
    ensures v.VDict? ==> (Nesting(v) <= n + 1 <==> forall i :: 0 <= i < |v.pairs| ==> Nesting(v.pairs[i].val) <= n)
  {
    if v.VList? {
      DeepestOf(v.items, n);
    } else if v.VDict? {
      DeepestIn(v.pairs, n);
    }
  }

  lemma {:induction false} DeepestOf(vs: seq<Value>, n: nat)
    ensures NestingAll(vs) <= n <==> forall i :: 0 <= i < |vs| ==> Nesting(vs[i]) <= n
    decreases |vs|
  {
    hide Nesting;
    if vs != [] {
      DeepestOf(vs[1..], n);
      assert forall i :: 0 < i < |vs| ==> vs[i] == vs[1..][i-1];
      assert forall i :: 0 <= i < |vs[1..]| ==> vs[1..][i] == vs[i+1];
    }
  }

  lemma {:induction false} DeepestIn(es: seq<Pair>, n: nat)
    ensures NestingPairs(es) <= n <==> forall i :: 0 <= i < |es| ==> Nesting(es[i].val) <= n
    decreases |es|
  {
    hide Nesting;
    if es != [] {
      DeepestIn(es[1..], n);
      assert forall i :: 0 < i < |es| ==> es[i] == es[1..][i-1];
      assert forall i :: 0 <= i < |es[1..]| ==> es[1..][i] == es[i+1];
    }
  }

  // ---- Events ----

  /** One event for a leaf; begin, the children in order, and end for a container,
      with a string event for each key before its value. */
  lemma EventsExactly(v: Value, vs: seq<Value>, k: Bytes, es: seq<Pair>)
    ensures forall i :: Flatten(VInt(i)) == [EInt(i)]
    ensures forall b :: Flatten(VStr(b)) == [EStr(b)]
    ensures Flatten(VList(vs)) == [EListBegin] + FlattenAll(vs) + [EListEnd]
    ensures Flatten(VDict(es)) == [EDictBegin] + FlattenPairs(es) + [EDictEnd]
    ensures FlattenAll([]) == [] && FlattenAll([v] + vs) == Flatten(v) + FlattenAll(vs)
    ensures FlattenPairs([]) == []
    ensures FlattenPairs([Pair(k, v)] + es) == [EStr(k)] + Flatten(v) + FlattenPairs(es)
  {
    assert ([v] + vs)[1..] == vs && ([Pair(k, v)] + es)[1..] == es;
  }

  // ---- The depth limit ----

  /** The caller's depth option: 0 means 64, and more than 256 means 256. */
  lemma ClampExactly(maxDepth: nat)
    ensures Clamp(maxDepth) == if maxDepth == 0 then 64 else if maxDepth <= 256 then maxDepth else 256
  {
  }

  /** Which encodings are accepted under which option, in numbers. */
  lemma DepthOption(v: Value, rest: Bytes, maxDepth: nat)
    requires WellFormed(v)
    ensures var limit := if maxDepth == 0 then 64 else if maxDepth <= 256 then maxDepth else 256;
            Decode(Encode(v) + rest, maxDepth).path.st == if Nesting(v) <= limit then Ok else NestingTooDeep
  {
    hide ValueAt, Encode, Nesting, WellFormed;
    EncodedOutcome(v, rest, maxDepth);
  }
}
