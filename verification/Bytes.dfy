/** Bytes, status codes and the lexicographic order on byte strings that the
    parser and the dictionaries share. */
module Bytes {

  type byte = b: int | 0 <= b < 256
  type Bytes = seq<byte>

  // The machine words of a 64-bit build.
  const SIZE_MAX: nat := 0xFFFF_FFFF_FFFF_FFFF
  type uint64 = n: int | 0 <= n <= 0xFFFF_FFFF_FFFF_FFFF

  type int64 = n: int | -0x8000_0000_0000_0000 <= n <= 0x7FFF_FFFF_FFFF_FFFF

  const INT64_MAX: nat := 0x7FFF_FFFF_FFFF_FFFF
  const INT64_MIN: int := -0x8000_0000_0000_0000

  // ASCII codes of the format's punctuation.
  const COLON: byte := 58
  const MINUS: byte := 45
  const ZERO: byte := 48
  const CH_I: byte := 105
  const CH_L: byte := 108
  const CH_D: byte := 100
  const CH_E: byte := 101

  predicate IsDigit(b: byte) {
    ZERO <= b <= 57
  }

  datatype Option<+T> = None | Some(value: T)

  /** The parse, build and emit outcomes of `bencode_status`. */
  datatype Status =
    | Ok
    | InvalidArg
    | Truncated
    | UnexpectedByte
    | IntegerOverflow
    | IntegerFormat
    | StringLength
    | DictUnsorted
    | DictDuplicate
    | DictBadKey
    | NestingTooDeep
    | NoMem
    | IoError
    | UserAborted
    | DictMissingValue

  /** Strict lexicographic order: the reference definition. */
  predicate Less(a: Bytes, b: Bytes) {
    b != [] && (a == [] || a[0] < b[0] || (a[0] == b[0] && Less(a[1..], b[1..])))
  }

  /** What the order is: the first difference decides, and a proper prefix is
      smaller. */
  lemma {:induction false} LessExactly(a: Bytes, b: Bytes)
    ensures Less(a, b) <==>
              exists k :: 0 <= k <= |a| && k < |b| && a[..k] == b[..k] && (k == |a| || a[k] < b[k])
    decreases |a|
  {
    if a != [] && b != [] && a[0] == b[0] {
      LessExactly(a[1..], b[1..]);
      if Less(a, b) {
        var k :| 0 <= k <= |a[1..]| && k < |b[1..]| && a[1..][..k] == b[1..][..k]
                 && (k == |a[1..]| || a[1..][k] < b[1..][k]);
        assert a[..k+1] == [a[0]] + a[1..][..k] && b[..k+1] == [b[0]] + b[1..][..k];
        assert a[..k+1] == b[..k+1] && (k + 1 == |a| || a[k+1] < b[k+1]);
      }
      if k :| 0 <= k <= |a| && k < |b| && a[..k] == b[..k] && (k == |a| || a[k] < b[k]) {
        assert k > 0;
        assert a[1..][..k-1] == a[..k][1..] && b[1..][..k-1] == b[..k][1..];
        assert a[1..][..k-1] == b[1..][..k-1] && (k - 1 == |a[1..]| || a[1..][k-1] < b[1..][k-1]);
      }
    } else if Less(a, b) {
      assert a[..0] == b[..0];
    } else {
      assert forall k :: 0 < k <= |a| && k < |b| ==> a[..k][0] == a[0] && b[..k][0] == b[0];
    }
  }

  /** The C library's `memcmp` on two strings of equal length: the sign of the
      first difference. */
  function MemCmp(a: Bytes, b: Bytes): (c: int)
    requires |a| == |b|
    ensures c == 0 <==> a == b
  {
    if a == [] then 0
    else if a[0] != b[0] then a[0] - b[0]
    else
      assert a == [a[0]] + a[1..] && b == [b[0]] + b[1..];
      MemCmp(a[1..], b[1..])
  }

  /** Three-way comparison: the common prefix first, then the lengths. */
  function BytesCmp(a: Bytes, b: Bytes): int {
    var n := if |a| < |b| then |a| else |b|;
    var c := if n == 0 then 0 else MemCmp(a[..n], b[..n]);
    if c != 0 then c
    else if |a| < |b| then -1
    else if |a| > |b| then 1
    else 0
  }

  /** The comparison decides the lexicographic order, in all three outcomes. */
  lemma {:induction false} BytesCmpDecides(a: Bytes, b: Bytes)
    ensures BytesCmp(a, b) < 0 <==> Less(a, b)
    ensures BytesCmp(a, b) == 0 <==> a == b
    ensures BytesCmp(a, b) > 0 <==> Less(b, a)
    decreases |a|
  {
    var n := if |a| < |b| then |a| else |b|;
    if n == 0 {
    } else if a[0] != b[0] {
    } else {
      BytesCmpDecides(a[1..], b[1..]);
      assert a[1..][..n-1] == a[..n][1..] && b[1..][..n-1] == b[..n][1..];
      assert a == [a[0]] + a[1..] && b == [b[0]] + b[1..];
      if n == 1 {
        assert a[..n][1..] == [] && b[..n][1..] == [];
      }
    }
  }

  lemma {:induction false} LessTransitive(a: Bytes, b: Bytes, c: Bytes)
    requires Less(a, b) && Less(b, c)
    ensures Less(a, c)
    decreases |a|
  {
    if a != [] && a[0] == b[0] && b[0] == c[0] {
      LessTransitive(a[1..], b[1..], c[1..]);
    }
  }

  lemma {:induction false} LessIrreflexive(a: Bytes)
    ensures !Less(a, a)
    decreases |a|
  {
    if a != [] {
      LessIrreflexive(a[1..]);
    }
  }

  lemma {:induction false} LessAsymmetric(a: Bytes, b: Bytes)
    requires Less(a, b)
    ensures !Less(b, a) && a != b
  {
    BytesCmpDecides(a, b);
  }

  /** The order is total: exactly one of the three holds (with asymmetry). */
  lemma {:induction false} LessTotal(a: Bytes, b: Bytes)
    ensures Less(a, b) || a == b || Less(b, a)
  {
    BytesCmpDecides(a, b);
  }
}
