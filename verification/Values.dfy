/** The abstract values of the format, their canonical encoding, and the event
    sequence that a streaming parser reports for them. */
module Values {
  import opened Bytes
  import opened Decimal

  datatype Value =
    | VInt(i: int)
    | VStr(b: Bytes)
    | VList(items: seq<Value>)
    | VDict(pairs: seq<Pair>)

  datatype Pair = Pair(key: Bytes, val: Value)

  /** `<length>:<bytes>` */
  function EncodeStr(b: Bytes): Bytes {
    Digits(|b|) + [COLON] + b
  }

  function Encode(v: Value): (e: Bytes)
    ensures |e| >= 2
    decreases v
  {
    match v
    case VInt(i) => [CH_I] + SignedDigits(i) + [CH_E]
    case VStr(b) => EncodeStr(b)
    case VList(vs) => [CH_L] + EncodeAll(vs) + [CH_E]
    case VDict(es) => [CH_D] + EncodePairs(es) + [CH_E]
  }

  function EncodeAll(vs: seq<Value>): Bytes
    decreases vs
  {
    if vs == [] then [] else Encode(vs[0]) + EncodeAll(vs[1..])
  }

  function EncodePairs(es: seq<Pair>): Bytes
    decreases es
  {
    if es == [] then [] else EncodeStr(es[0].key) + Encode(es[0].val) + EncodePairs(es[1..])
  }

  /** Keys in strictly increasing order, hence distinct. */
  ghost predicate Sorted(es: seq<Pair>) {
    forall i, j :: 0 <= i < j < |es| ==> Less(es[i].key, es[j].key)
  }

  /** The values the library can represent: 64-bit integers, lengths that fit
      `size_t`, dictionaries sorted by key without repetition. */
  ghost predicate WellFormed(v: Value)
    decreases v
  {
    match v
    case VInt(i) => INT64_MIN <= i <= INT64_MAX
    case VStr(b) => |b| <= SIZE_MAX
    case VList(vs) => forall i :: 0 <= i < |vs| ==> WellFormed(vs[i])
    case VDict(es) =>
      && Sorted(es)
      && forall i :: 0 <= i < |es| ==> |es[i].key| <= SIZE_MAX && WellFormed(es[i].val)
  }

  function Max(a: nat, b: nat): nat {
    if a < b then b else a
  }

  /** Container nesting: 0 for a leaf. */
  function Nesting(v: Value): nat
    decreases v
  {
    match v
    case VInt(_) => 0
    case VStr(_) => 0
    case VList(vs) => 1 + NestingAll(vs)
    case VDict(es) => 1 + NestingPairs(es)
  }

  function NestingAll(vs: seq<Value>): nat
    decreases vs
  {
    if vs == [] then 0 else Max(Nesting(vs[0]), NestingAll(vs[1..]))
  }

  function NestingPairs(es: seq<Pair>): nat
    decreases es
  {
    if es == [] then 0 else Max(Nesting(es[0].val), NestingPairs(es[1..]))
  }

  /** The events of the callback table; a dictionary key is a string event. */
  datatype Event =
    | EInt(i: int)
    | EStr(b: Bytes)
    | EListBegin
    | EListEnd
    | EDictBegin
    | EDictEnd

  function Flatten(v: Value): seq<Event>
    decreases v
  {
    match v
    case VInt(i) => [EInt(i)]
    case VStr(b) => [EStr(b)]
    case VList(vs) => [EListBegin] + FlattenAll(vs) + [EListEnd]
    case VDict(es) => [EDictBegin] + FlattenPairs(es) + [EDictEnd]
  }

  function FlattenAll(vs: seq<Value>): seq<Event>
    decreases vs
  {
    if vs == [] then [] else Flatten(vs[0]) + FlattenAll(vs[1..])
  }

  function FlattenPairs(es: seq<Pair>): seq<Event>
    decreases es
  {
    if es == [] then [] else [EStr(es[0].key)] + Flatten(es[0].val) + FlattenPairs(es[1..])
  }
}
