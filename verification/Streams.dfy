/** Reading a buffer of concatenated values one after the other. */
module Streams {
  import opened Bytes
  import opened Values
  import opened Decoder
  import opened Grammar

  /** What a caller gets by decoding repeatedly from the consumed offset until
      the buffer is used up; nothing if some decode fails. */
  function Split(s: Bytes, maxDepth: nat): Option<seq<Value>>
    decreases |s|
  {
    if s == [] then Some([])
    else
      var r := Decode(s, maxDepth);
      if r.path.st != Ok then None
      else
        match Split(s[r.path.pos..], maxDepth)
        case None => None
        case Some(vs) => Some([r.val] + vs)
  }

  ghost predicate Acceptable(vs: seq<Value>, maxDepth: nat) {
    forall i :: 0 <= i < |vs| ==> WellFormed(vs[i]) && Nesting(vs[i]) <= Clamp(maxDepth)
  }

  lemma {:induction false} SplitComplete(vs: seq<Value>, maxDepth: nat)
    requires Acceptable(vs, maxDepth)
    ensures Split(EncodeAll(vs), maxDepth) == Some(vs)
    decreases |vs|
  {
    hide Encode, Decode, WellFormed, Nesting;
    if vs != [] {
      var s := EncodeAll(vs);
      EncodeThenDecode(vs[0], EncodeAll(vs[1..]), maxDepth);
      SplitComplete(vs[1..], maxDepth);
      assert s == Encode(vs[0]) + EncodeAll(vs[1..]);
      assert s[|Encode(vs[0])|..] == EncodeAll(vs[1..]);
      assert [vs[0]] + vs[1..] == vs;
    }
  }

  lemma {:induction false} SplitSound(s: Bytes, maxDepth: nat)
    requires Split(s, maxDepth).Some?
    ensures var vs := Split(s, maxDepth).value; Acceptable(vs, maxDepth) && s == EncodeAll(vs)
    decreases |s|
  {
    hide Encode, WellFormed, Nesting, ValueAt;
    if s != [] {
      var r := Decode(s, maxDepth);
      DecodeThenEncode(s, maxDepth);
      ValueSound(s, 0, Clamp(maxDepth));
      SplitSound(s[r.path.pos..], maxDepth);
      var vs := Split(s, maxDepth).value;
      assert vs[1..] == Split(s[r.path.pos..], maxDepth).value;
      assert s == s[..r.path.pos] + s[r.path.pos..];
    }
  }

  /** A buffer splits into `vs` if and only if it is the concatenation of their
      encodings, each within the depth limit. */
  lemma SplitsExactly(s: Bytes, vs: seq<Value>, maxDepth: nat)
    ensures Split(s, maxDepth) == Some(vs) <==> Acceptable(vs, maxDepth) && s == EncodeAll(vs)
  {
    hide Acceptable, EncodeAll;
    if Split(s, maxDepth) == Some(vs) {
      SplitSound(s, maxDepth);
    }
    if Acceptable(vs, maxDepth) && s == EncodeAll(vs) {
      SplitComplete(vs, maxDepth);
    }
  }
}
