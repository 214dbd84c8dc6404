/** Decimal numerals: what the emitter prints and what the parser reads. */
module Decimal {
  import opened Bytes

  predicate AllDigits(ds: Bytes) {
    forall i :: 0 <= i < |ds| ==> IsDigit(ds[i])
  }

  /** A canonical numeral: digits only, non-empty, no leading zero except "0". */
  predicate Canonical(ds: Bytes) {
    ds != [] && AllDigits(ds) && (|ds| > 1 ==> ds[0] != ZERO)
  }

  /** The number that a run of digits denotes. */
  function Val(ds: Bytes): (n: int)
    ensures AllDigits(ds) ==> n >= 0
  {
    if ds == [] then 0
    else 10 * Val(ds[..|ds|-1]) + (ds[|ds|-1] - ZERO)
  }

  /** The numeral that `%zu` and `%llu` print. */
  function Digits(n: nat): (ds: Bytes)
    ensures Canonical(ds)
    ensures ds[0] == ZERO ==> n == 0
  {
    if n < 10 then [ZERO + n]
    else Digits(n / 10) + [ZERO + n % 10]
  }

  lemma {:induction false} ValOfDigits(n: nat)
    ensures Val(Digits(n)) == n
  {
    if n >= 10 {
      ValOfDigits(n / 10);
      var ds := Digits(n);
      assert ds[..|ds|-1] == Digits(n / 10);
    }
  }

  lemma {:induction false} ValPositive(ds: Bytes)
    requires Canonical(ds) && ds[0] != ZERO
    ensures Val(ds) > 0
    decreases |ds|
  {
    if |ds| > 1 {
      ValPositive(ds[..|ds|-1]);
    } else {
      assert ds[..0] == [];
    }
  }

  lemma {:induction false} DigitsOfVal(ds: Bytes)
    requires Canonical(ds)
    ensures Digits(Val(ds)) == ds
    decreases |ds|
  {
    var front, last := ds[..|ds|-1], ds[|ds|-1];
    assert ds == front + [last];
    assert Val(ds) == 10 * Val(front) + (last - ZERO);
    if front == [] {
      assert Val(front) == 0;
    } else {
      ValPositive(front);
      DigitsOfVal(front);
      DigitsStep(Val(front), last - ZERO);
    }
  }

  lemma DigitsStep(n: nat, d: nat)
    requires n > 0 && d < 10
    ensures Digits(10 * n + d) == Digits(n) + [ZERO + d]
  {
    assert (10 * n + d) / 10 == n && (10 * n + d) % 10 == d;
  }

  /** Canonical numerals are determined by their value. */
  lemma NumeralsUnique(a: Bytes, b: Bytes)
    requires Canonical(a) && Canonical(b) && Val(a) == Val(b)
    ensures a == b
  {
    DigitsOfVal(a);
    DigitsOfVal(b);
  }

  /** Reading more digits never makes the number smaller. */
  lemma {:induction false} ValMonotone(ds: Bytes, k: nat)
    requires AllDigits(ds) && k <= |ds|
    ensures Val(ds[..k]) <= Val(ds)
    decreases |ds| - k
  {
    if k < |ds| {
      assert ds[..k+1][..k] == ds[..k];
      ValMonotone(ds, k + 1);
    } else {
      assert ds[..k] == ds;
    }
  }

  lemma ShorterSlice(s: Bytes, p: nat, e: nat, f: nat)
    requires p <= e <= f <= |s|
    ensures s[p..f][..e-p] == s[p..e]
  {
  }

  function Pow10(k: nat): nat {
    if k == 0 then 1 else 10 * Pow10(k - 1)
  }

  /** A k-digit bound on the printed length. */
  lemma {:induction false} DigitsLength(n: nat, k: nat)
    requires k > 0 && n < Pow10(k)
    ensures |Digits(n)| <= k
    decreases k
  {
    if n >= 10 {
      assert Pow10(k) == 10 * Pow10(k - 1);
      if k == 1 {
        assert false;
      }
      DigitsLength(n / 10, k - 1);
    }
  }

  /** What `%lld` prints for a signed number. */
  function SignedDigits(i: int): Bytes {
    if i < 0 then [MINUS] + Digits(-i) else Digits(i)
  }

  // ---- Digit runs inside an input ----

  /** End of the maximal run of digits that starts at `p`. */
  function RunEnd(s: Bytes, p: nat): (e: nat)
    requires p <= |s|
    ensures p <= e <= |s|
    ensures AllDigits(s[p..e])
    ensures e < |s| ==> !IsDigit(s[e])
    decreases |s| - p
  {
    if p < |s| && IsDigit(s[p]) then
      var e := RunEnd(s, p + 1);
      assert s[p..e] == [s[p]] + s[p+1..e];
      e
    else p
  }

  lemma {:induction false} RunEndUnique(s: Bytes, p: nat, e: nat)
    requires p <= e <= |s| && AllDigits(s[p..e]) && (e < |s| ==> !IsDigit(s[e]))
    ensures RunEnd(s, p) == e
    decreases |s| - p
  {
    if p < e {
      assert IsDigit(s[p..e][0]);
      assert s[p+1..e] == s[p..e][1..];
      RunEndUnique(s, p + 1, e);
    }
  }

  /** First position at or after `q` whose digit pushes the run that started
      at `p` beyond `max`. */
  function OverAt(s: Bytes, p: nat, q: nat, e: nat, max: nat): (r: nat)
    requires p <= q <= e <= |s|
    ensures q <= r <= e
    ensures r < e ==> Val(s[p..r+1]) > max
    ensures forall k {:trigger s[p..k+1]} :: q <= k < r ==> Val(s[p..k+1]) <= max
    decreases e - q
  {
    if q == e then e
    else if Val(s[p..q+1]) > max then q
    else OverAt(s, p, q + 1, e, max)
  }

  datatype Num = Num(st: Status, pos: nat, mag: nat)

  /** Reading an unsigned number at `p` with the largest legal value `max`:
      stated on the whole digit run, not digit by digit. */
  function Unsigned(s: Bytes, p: nat, max: nat): (r: Num)
    requires p <= |s|
    ensures p <= r.pos <= |s|
    ensures r.st == Ok ==> p < r.pos && r.mag <= max
    ensures r.st == Truncated ==> r.pos == |s|
    ensures r.st in {Ok, Truncated, IntegerFormat, IntegerOverflow}
  {
    var e := RunEnd(s, p);
    if p == |s| then Num(Truncated, p, 0)
    else if p == e then Num(IntegerFormat, p, 0)
    else if s[p] == ZERO && p + 1 < e then Num(IntegerFormat, p + 1, 0)
    else if Val(s[p..e]) <= max then Num(Ok, e, Val(s[p..e]))
    else
      var q := OverAt(s, p, p, e, max);
      Num(IntegerOverflow, q, 0)
  }

  /** The parser accepts exactly the canonical numerals up to `max`, with their
      value; a number that is too large is an overflow and nothing else. */
  lemma UnsignedExact(s: Bytes, p: nat, max: nat)
    requires p < |s| && IsDigit(s[p])
    ensures var e := RunEnd(s, p); var ds := s[p..e]; var r := Unsigned(s, p, max);
            && (r.st == Ok <==> Canonical(ds) && Val(ds) <= max)
            && (r.st == IntegerOverflow <==> Canonical(ds) && Val(ds) > max)
            && (r.st == IntegerFormat <==> !Canonical(ds))
            && (r.st == Ok ==> r.pos == e && r.mag == Val(ds) && Digits(r.mag) == ds)
  {
    var e := RunEnd(s, p);
    var ds := s[p..e];
    if Canonical(ds) {
      DigitsOfVal(ds);
    }
  }

  /** A printed number, followed by anything but a digit, is read back. */
  lemma UnsignedReadsDigits(s: Bytes, p: nat, n: nat, max: nat)
    requires p + |Digits(n)| <= |s| && s[p..p+|Digits(n)|] == Digits(n)
    requires p + |Digits(n)| < |s| ==> !IsDigit(s[p+|Digits(n)|])
    requires n <= max
    ensures Unsigned(s, p, max) == Num(Ok, p + |Digits(n)|, n)
  {
    var ds := Digits(n);
    assert s[p] == ds[0];
    RunEndUnique(s, p, p + |ds|);
    ValOfDigits(n);
  }

  lemma OverAtIs(s: Bytes, p: nat, q: nat, i: nat, e: nat, max: nat)
    requires p <= q <= i < e <= |s|
    requires Val(s[p..i+1]) > max
    requires forall k {:trigger s[p..k+1]} :: q <= k < i ==> Val(s[p..k+1]) <= max
    ensures OverAt(s, p, q, e, max) == i
    decreases i - q
  {
    hide Val;
    if q < i {
      assert Val(s[p..q+1]) <= max;
      OverAtIs(s, p, q + 1, i, e, max);
    }
  }

  lemma ValSingle(b: byte)
    ensures Val([b]) == b - ZERO
  {
    assert [b][..0] == [];
  }

  lemma RunSteps(s: Bytes, p: nat, q: nat)
    requires p <= q < |s| && q <= RunEnd(s, p) && IsDigit(s[q])
    ensures q < RunEnd(s, p)
  {
  }

  lemma RunStops(s: Bytes, p: nat, q: nat)
    requires p <= q <= |s| && q <= RunEnd(s, p) && (q < |s| ==> !IsDigit(s[q]))
    ensures q == RunEnd(s, p)
  {
    var e := RunEnd(s, p);
    assert forall i :: 0 <= i < q - p ==> s[p..q][i] == s[p..e][i];
    RunEndUnique(s, p, q);
  }

  lemma ValSnoc(s: Bytes, p: nat, q: nat)
    requires p <= q < |s|
    ensures Val(s[p..q+1]) == 10 * Val(s[p..q]) + (s[q] - ZERO)
  {
    assert s[p..q+1][..q-p] == s[p..q];
  }

  lemma {:induction false} OverAtFound(s: Bytes, p: nat, q: nat, e: nat, max: nat)
    requires p <= q < e <= |s|
    requires Val(s[p..e]) > max
    ensures OverAt(s, p, q, e, max) < e
    decreases e - q
  {
    hide Val;
    if Val(s[p..q+1]) <= max {
      assert q + 1 < e by {
        if q + 1 == e {
          assert false;
        }
      }
      OverAtFound(s, p, q + 1, e, max);
    }
  }

  /** Zero has one canonical numeral. */
  lemma ZeroSpelling(ds: Bytes)
    requires Canonical(ds) && Val(ds) == 0
    ensures ds == [ZERO]
  {
    DigitsOfVal(ds);
  }
}
