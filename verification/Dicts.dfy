/** Sorted entry sequences as finite maps. */
module Dicts {
  import opened Bytes
  import opened Values

  /** Where `key` is, or where it belongs: the number of smaller keys in front. */
  function Slot(es: seq<Pair>, key: Bytes): (i: nat)
    ensures i <= |es|
    ensures forall k :: 0 <= k < i ==> Less(es[k].key, key)
    ensures i < |es| ==> !Less(es[i].key, key)
  {
    if es == [] || !Less(es[0].key, key) then 0 else 1 + Slot(es[1..], key)
  }

  predicate HasAt(es: seq<Pair>, i: nat, key: Bytes) {
    i < |es| && es[i].key == key
  }

  /** Replace the entry of `key`, or insert one at its place. */
  function Put(es: seq<Pair>, key: Bytes, v: Value): seq<Pair> {
    var i := Slot(es, key);
    if HasAt(es, i, key) then es[i := Pair(key, v)]
    else es[..i] + [Pair(key, v)] + es[i..]
  }

  /** The slot is the only place where the key can be. */
  lemma SlotUnique(es: seq<Pair>, key: Bytes, i: nat)
    requires Sorted(es) && i <= |es|
    requires forall k :: 0 <= k < i ==> Less(es[k].key, key)
    requires i < |es| ==> !Less(es[i].key, key)
    ensures i == Slot(es, key)
  {
    hide Less;
  }

  lemma AfterSlot(es: seq<Pair>, key: Bytes, k: nat)
    requires Sorted(es) && Slot(es, key) <= k < |es| && es[k].key != key
    ensures Less(key, es[k].key)
  {
    hide Less;
    var i := Slot(es, key);
    LessTotal(es[i].key, key);
    if i < k {
      if es[i].key != key {
        LessTransitive(key, es[i].key, es[k].key);
      }
    }
  }

  lemma PutSorted(es: seq<Pair>, key: Bytes, v: Value)
    requires Sorted(es)
    ensures Sorted(Put(es, key, v))
  {
    hide Less;
    var i := Slot(es, key);
    var r := Put(es, key, v);
    if !HasAt(es, i, key) {
      forall a, b | 0 <= a < b < |r| ensures Less(r[a].key, r[b].key) {
        if a == i {
          SlotHolds(es, key);
          AfterSlot(es, key, b - 1);
        }
      }
    }
  }

  /** Containers filled through append and set hold well-formed values only, so
      no tree built through the interface falls outside the format. */
  lemma BuildersStayWellFormed(es: seq<Pair>, vs: seq<Value>, key: Bytes, v: Value)
    requires WellFormed(VDict(es)) && WellFormed(VList(vs)) && WellFormed(v) && |key| <= SIZE_MAX
    ensures WellFormed(VDict(Put(es, key, v))) && WellFormed(VList(vs + [v]))
  {
    hide Less, Slot, Sorted;
    PutSorted(es, key, v);
    var i := Slot(es, key);
    var r := Put(es, key, v);
    forall k | 0 <= k < |r| ensures |r[k].key| <= SIZE_MAX && WellFormed(r[k].val) {
      PutElement(es, key, v, k);
    }
  }

  /** Every entry after a set is the new one or one from before. */
  lemma PutElement(es: seq<Pair>, key: Bytes, v: Value, k: nat)
    requires k < |Put(es, key, v)|
    ensures Put(es, key, v)[k] == Pair(key, v) || Put(es, key, v)[k] in es
  {
    hide Less, Slot;
  }

  /** `es` lists exactly the bindings of `m`. */
  ghost predicate Represents(es: seq<Pair>, m: map<Bytes, Value>) {
    && (forall i :: 0 <= i < |es| ==> es[i].key in m && m[es[i].key] == es[i].val)
    && (forall k :: k in m ==> exists i :: 0 <= i < |es| && es[i].key == k)
  }

  function ToMap(es: seq<Pair>): map<Bytes, Value> {
    if es == [] then map[] else ToMap(es[1..])[es[0].key := es[0].val]
  }

  lemma {:induction false} ToMapRepresents(es: seq<Pair>)
    requires Sorted(es)
    ensures Represents(es, ToMap(es))
    decreases |es|
  {
    hide Less;
    if es != [] {
      var rest := es[1..];
      ToMapRepresents(rest);
      forall i | 0 <= i < |rest| ensures rest[i].key != es[0].key {
        assert rest[i] == es[i+1] && Less(es[0].key, es[i+1].key);
        LessIrreflexive(es[0].key);
      }
      assert es == [es[0]] + rest;
      ConsRepresents(es[0], rest, ToMap(rest));
    }
  }

  lemma ConsRepresents(e: Pair, rest: seq<Pair>, m: map<Bytes, Value>)
    requires Represents(rest, m)
    requires forall i :: 0 <= i < |rest| ==> rest[i].key != e.key
    ensures Represents([e] + rest, m[e.key := e.val])
  {
    var es := [e] + rest;
    var m' := m[e.key := e.val];
    forall k | k in m' ensures exists i :: 0 <= i < |es| && es[i].key == k {
      if k == e.key {
        assert es[0].key == k;
      } else {
        var i :| 0 <= i < |rest| && rest[i].key == k;
        assert es[i+1].key == k;
      }
    }
  }

  lemma RepresentsUnique(es: seq<Pair>, m: map<Bytes, Value>, n: map<Bytes, Value>)
    requires Represents(es, m) && Represents(es, n)
    ensures m == n
  {
    forall k | k in m ensures k in n && m[k] == n[k] {
      var i :| 0 <= i < |es| && es[i].key == k;
    }
    forall k | k in n ensures k in m {
      var i :| 0 <= i < |es| && es[i].key == k;
    }
  }

  lemma ReplaceRepresents(es: seq<Pair>, m: map<Bytes, Value>, i: nat, v: Value)
    requires Sorted(es) && Represents(es, m) && i < |es|
    ensures Represents(es[i := Pair(es[i].key, v)], m[es[i].key := v])
  {
    hide Less;
    var key := es[i].key;
    var r := es[i := Pair(key, v)];
    var n := m[key := v];
    forall k | 0 <= k < |r| ensures r[k].key in n && n[r[k].key] == r[k].val {
      if k != i {
        SortedDistinct(es, i, k);
      }
    }
    forall k | k in n ensures exists j :: 0 <= j < |r| && r[j].key == k {
      if k == key {
        assert r[i].key == k;
      } else {
        var j :| 0 <= j < |es| && es[j].key == k;
        assert r[j].key == k;
      }
    }
  }

  lemma InsertRepresents(es: seq<Pair>, m: map<Bytes, Value>, i: nat, key: Bytes, v: Value)
    requires Represents(es, m) && i <= |es|
    requires forall k :: 0 <= k < |es| ==> es[k].key != key
    ensures key !in m
    ensures Represents(es[..i] + [Pair(key, v)] + es[i..], m[key := v])
  {
    var r := es[..i] + [Pair(key, v)] + es[i..];
    var n := m[key := v];
    forall k | 0 <= k < |r| ensures r[k].key in n && n[r[k].key] == r[k].val {
      if k < i {
        assert r[k] == es[k];
      } else if k > i {
        assert r[k] == es[k-1];
      }
    }
    forall k | k in n ensures exists j :: 0 <= j < |r| && r[j].key == k {
      if k == key {
        assert r[i].key == k;
      } else {
        var j :| 0 <= j < |es| && es[j].key == k;
        assert r[if j < i then j else j + 1].key == k;
      }
    }
  }

  lemma PutRepresents(es: seq<Pair>, m: map<Bytes, Value>, key: Bytes, v: Value)
    requires Sorted(es) && Represents(es, m)
    ensures Represents(Put(es, key, v), m[key := v])
    ensures |Put(es, key, v)| == if key in m then |es| else |es| + 1
  {
    hide Less, Slot, Sorted;
    var i := Slot(es, key);
    SlotHolds(es, key);
    if HasAt(es, i, key) {
      ReplaceRepresents(es, m, i, v);
    } else {
      InsertRepresents(es, m, i, key, v);
    }
  }

  lemma SortedDistinct(es: seq<Pair>, a: nat, b: nat)
    requires Sorted(es) && a < |es| && b < |es| && a != b
    ensures es[a].key != es[b].key
  {
    hide Less;
    if a < b {
      LessAsymmetric(es[a].key, es[b].key);
    } else {
      LessAsymmetric(es[b].key, es[a].key);
    }
  }

  /** Searching at the slot finds the key whenever it is anywhere. */
  lemma SlotHolds(es: seq<Pair>, key: Bytes)
    requires Sorted(es)
    ensures (exists k :: 0 <= k < |es| && es[k].key == key) <==> HasAt(es, Slot(es, key), key)
  {
    hide Less, Slot;
    LessIrreflexive(key);
    forall k | 0 <= k < |es| && es[k].key == key ensures k == Slot(es, key) {
      SlotUnique(es, key, k);
    }
  }

  /** Insertion refines map update: the other keys keep their values, the count
      grows exactly when the key is new. */
  lemma PutRefinesMap(es: seq<Pair>, key: Bytes, v: Value)
    requires Sorted(es)
    ensures Sorted(Put(es, key, v))
    ensures ToMap(Put(es, key, v)) == ToMap(es)[key := v]
    ensures |Put(es, key, v)| == if key in ToMap(es) then |es| else |es| + 1
  {
    hide Represents;
    var r := Put(es, key, v);
    PutSorted(es, key, v);
    ToMapRepresents(es);
    ToMapRepresents(r);
    PutRepresents(es, ToMap(es), key, v);
    RepresentsUnique(r, ToMap(r), ToMap(es)[key := v]);
  }

  /** Looking up at the slot is looking up in the map. */
  lemma GetRefinesMap(es: seq<Pair>, key: Bytes)
    requires Sorted(es)
    ensures HasAt(es, Slot(es, key), key) <==> key in ToMap(es)
    ensures HasAt(es, Slot(es, key), key) ==> es[Slot(es, key)].val == ToMap(es)[key]
  {
    hide Slot, Sorted, ToMap;
    ToMapRepresents(es);
    SlotHolds(es, key);
  }

  /** A sorted entry sequence is determined by the map it represents. */
  lemma {:induction false} SortedUnique(a: seq<Pair>, b: seq<Pair>, m: map<Bytes, Value>)
    requires Sorted(a) && Sorted(b) && Represents(a, m) && Represents(b, m)
    ensures a == b
    decreases |a|
  {
    hide Less, Sorted, Represents;
    EmptyRepresents(a, m);
    EmptyRepresents(b, m);
    if a != [] {
      SameFirst(a, b, m);
      TailRepresents(a, m);
      TailRepresents(b, m);
      SortedUnique(a[1..], b[1..], m - {a[0].key});
      assert a == [a[0]] + a[1..] && b == [b[0]] + b[1..];
    }
  }

  /** The smallest key comes first in both. */
  lemma SameFirst(a: seq<Pair>, b: seq<Pair>, m: map<Bytes, Value>)
    requires Sorted(a) && Sorted(b) && Represents(a, m) && Represents(b, m)
    requires a != [] && b != []
    ensures a[0] == b[0]
  {
    hide Less;
    assert a[0].key in m && b[0].key in m;
    var j :| 0 <= j < |b| && b[j].key == a[0].key;
    var i :| 0 <= i < |a| && a[i].key == b[0].key;
    if j > 0 {
      if i > 0 {
        LessAsymmetric(b[0].key, b[j].key);
      }
      LessIrreflexive(b[0].key);
    }
  }

  lemma EmptyRepresents(a: seq<Pair>, m: map<Bytes, Value>)
    requires Represents(a, m)
    ensures a == [] <==> m == map[]
  {
    if a != [] {
      assert a[0].key in m;
    }
  }

  lemma TailRepresents(a: seq<Pair>, m: map<Bytes, Value>)
    requires Sorted(a) && a != [] && Represents(a, m)
    ensures Sorted(a[1..])
    ensures Represents(a[1..], m - {a[0].key})
  {
    hide Less;
    var t := a[1..];
    var n := m - {a[0].key};
    forall i | 0 <= i < |t| ensures t[i].key in n && n[t[i].key] == t[i].val {
      SortedDistinct(a, 0, i + 1);
    }
    forall k | k in n ensures exists i :: 0 <= i < |t| && t[i].key == k {
      var i :| 0 <= i < |a| && a[i].key == k;
      assert t[i-1].key == k;
    }
  }

  /** A key beyond all others goes to the end. */
  lemma PutAtEnd(es: seq<Pair>, e: Pair)
    requires Sorted(es + [e])
    ensures Slot(es, e.key) == |es|
    ensures Put(es, e.key, e.val) == es + [e]
  {
    hide Less, Slot, Put;
    var all := es + [e];
    assert all[|es|] == e;
    assert forall k :: 0 <= k < |es| ==> all[k] == es[k];
    assert Sorted(es);
    PutAfterAll(es, e.key, e.val);
  }

  lemma PutAfterAll(es: seq<Pair>, key: Bytes, v: Value)
    requires Sorted(es)
    requires forall k :: 0 <= k < |es| ==> Less(es[k].key, key)
    ensures Slot(es, key) == |es|
    ensures Put(es, key, v) == es + [Pair(key, v)]
  {
    hide Less, Slot, Sorted;
    SlotUnique(es, key, |es|);
    assert es[..|es|] == es;
  }

  // ---- Runs of sets ----

  function PutAll(es: seq<Pair>, sets: seq<Pair>): seq<Pair>
    decreases |sets|
  {
    if sets == [] then es else PutAll(Put(es, sets[0].key, sets[0].val), sets[1..])
  }

  function UpdateAll(m: map<Bytes, Value>, sets: seq<Pair>): map<Bytes, Value>
    decreases |sets|
  {
    if sets == [] then m else UpdateAll(m[sets[0].key := sets[0].val], sets[1..])
  }

  /** The last set of a run wins, and the others do not touch its key. */
  lemma {:induction false} LastSetWins(m: map<Bytes, Value>, sets: seq<Pair>, key: Bytes, v: Value)
    ensures UpdateAll(m, sets + [Pair(key, v)]) == UpdateAll(m, sets)[key := v]
    decreases |sets|
  {
    var all := sets + [Pair(key, v)];
    if sets == [] {
      assert all == [Pair(key, v)] && all[1..] == [];
    } else {
      assert all[1..] == sets[1..] + [Pair(key, v)];
      LastSetWins(m[sets[0].key := sets[0].val], sets[1..], key, v);
    }
  }

  /** Any run of sets, in any order and with any repetition, leaves the entries
      sorted and equal to the finite map built by the same run. */
  lemma {:induction false} RunRefinesMap(es: seq<Pair>, sets: seq<Pair>)
    requires Sorted(es)
    ensures Sorted(PutAll(es, sets)) && ToMap(PutAll(es, sets)) == UpdateAll(ToMap(es), sets)
    decreases |sets|
  {
    hide Put, Sorted, ToMap;
    if sets != [] {
      PutRefinesMap(es, sets[0].key, sets[0].val);
      RunRefinesMap(Put(es, sets[0].key, sets[0].val), sets[1..]);
    }
  }

  /** Two runs that bind the same keys to the same values in the end give the
      same entries, and so the same bytes. */
  lemma RunsAgree(a: seq<Pair>, b: seq<Pair>)
    requires UpdateAll(map[], a) == UpdateAll(map[], b)
    ensures PutAll([], a) == PutAll([], b)
    ensures Encode(VDict(PutAll([], a))) == Encode(VDict(PutAll([], b)))
  {
    hide Represents, UpdateAll, PutAll;
    assert ToMap([]) == map[];
    RunRefinesMap([], a);
    RunRefinesMap([], b);
    ToMapRepresents(PutAll([], a));
    ToMapRepresents(PutAll([], b));
    SortedUnique(PutAll([], a), PutAll([], b), UpdateAll(map[], a));
  }

  ghost predicate DistinctKeys(sets: seq<Pair>) {
    forall i, j :: 0 <= i < j < |sets| ==> sets[i].key != sets[j].key
  }

  /** With distinct keys the final map is just the set of bindings. */
  lemma {:induction false} DistinctRun(m: map<Bytes, Value>, sets: seq<Pair>, k: Bytes)
    requires DistinctKeys(sets)
    ensures k in UpdateAll(m, sets) <==> k in m || exists i :: 0 <= i < |sets| && sets[i].key == k
    ensures forall i :: 0 <= i < |sets| && sets[i].key == k ==> UpdateAll(m, sets)[k] == sets[i].val
    ensures k in m && (forall i :: 0 <= i < |sets| ==> sets[i].key != k) ==> UpdateAll(m, sets)[k] == m[k]
    decreases |sets|
  {
    if sets != [] {
      var rest := sets[1..];
      var m1 := m[sets[0].key := sets[0].val];
      DistinctRun(m1, rest, k);
      if exists i :: 0 <= i < |sets| && sets[i].key == k {
        var i :| 0 <= i < |sets| && sets[i].key == k;
        if i > 0 {
          assert rest[i-1].key == k;
        }
      } else {
        forall i | 0 <= i < |rest| ensures rest[i].key != k {
          assert rest[i] == sets[i+1];
        }
      }
    }
  }

  /** Insertion order does not matter: any permutation of bindings with distinct
      keys builds the same dictionary and the same bytes. */
  lemma PermutationsAgree(a: seq<Pair>, b: seq<Pair>)
    requires DistinctKeys(a) && DistinctKeys(b) && multiset(a) == multiset(b)
    ensures PutAll([], a) == PutAll([], b)
    ensures Encode(VDict(PutAll([], a))) == Encode(VDict(PutAll([], b)))
  {
    var m, n := UpdateAll(map[], a), UpdateAll(map[], b);
    forall k ensures (k in m <==> k in n) && (k in m ==> m[k] == n[k]) {
      DistinctRun(map[], a, k);
      DistinctRun(map[], b, k);
      SameBindings(a, b, k);
      SameBindings(b, a, k);
    }
    assert m == n;
    RunsAgree(a, b);
  }

  lemma SameBindings(a: seq<Pair>, b: seq<Pair>, k: Bytes)
    requires multiset(a) == multiset(b)
    ensures forall i :: 0 <= i < |a| && a[i].key == k ==> exists j :: 0 <= j < |b| && b[j] == a[i]
  {
    forall i | 0 <= i < |a| && a[i].key == k ensures exists j :: 0 <= j < |b| && b[j] == a[i] {
      assert a[i] in multiset(b);
    }
  }
}
