/**
 * Python's insertion-ordered dictionaries (`dict`, `OrderedDict`) as
 * values: the keys in the order they were first inserted, and the mapping.
 */
module Dicts {

  datatype ODict<K(==, !new), V> = ODict(keys: seq<K>, vals: map<K, V>)
  {
    /** The key order lists every key of the mapping exactly once. */
    ghost predicate Valid()
    {
      && (forall i, j :: 0 <= i < j < |keys| ==> keys[i] != keys[j])
      && (forall k :: k in vals <==> k in keys)
    }
  }

  function Empty<K(==, !new), V>(): (r: ODict<K, V>)
    ensures r.Valid() && r.keys == [] && r.vals == map[]
  {
    ODict([], map[])
  }

  ghost predicate Distinct<K(!new)>(ks: seq<K>)
  {
    forall i, j :: 0 <= i < j < |ks| ==> ks[i] != ks[j]
  }

  /** `d[k] = v`: the key takes the value; a new key goes to the end of the
      order, a key already present keeps its place. */
  function Put<K(==, !new), V>(d: ODict<K, V>, k: K, v: V): (r: ODict<K, V>)
    requires d.Valid()
    ensures r.Valid()
    ensures r.vals == d.vals[k := v]
    ensures k in d.vals ==> r.keys == d.keys
    ensures k !in d.vals ==> r.keys == d.keys + [k]
  {
    if k in d.vals then ODict(d.keys, d.vals[k := v]) else ODict(d.keys + [k], d.vals[k := v])
  }

  /** Setting a key twice leaves the second value in the first one's place. */
  lemma PutPut<K(!new), V>(d: ODict<K, V>, k: K, v1: V, v2: V)
    requires d.Valid()
    ensures Put(Put(d, k, v1), k, v2) == Put(d, k, v2)
  {
  }

  /** `for k in ks: d[k] = m[k]`. */
  function PutAll<K(==, !new), V>(d: ODict<K, V>, ks: seq<K>, m: map<K, V>): (r: ODict<K, V>)
    requires d.Valid()
    requires forall k :: k in ks ==> k in m
    ensures r.Valid()
    decreases |ks|
  {
    if ks == [] then d
    else Put(PutAll(d, ks[..|ks| - 1], m), ks[|ks| - 1], m[ks[|ks| - 1]])
  }

  /** The keys of `ks` not in `d`, in order (`ks` has no repeats). */
  function Fresh<K(==, !new), V>(d: ODict<K, V>, ks: seq<K>): (r: seq<K>)
    decreases |ks|
  {
    if ks == [] then []
    else Fresh(d, ks[..|ks| - 1]) + (if ks[|ks| - 1] in d.vals then [] else [ks[|ks| - 1]])
  }

  /** `m` restricted to the keys in `ks`. */
  function Restrict<K(==, !new), V>(m: map<K, V>, ks: seq<K>): (r: map<K, V>)
    requires forall k :: k in ks ==> k in m
  {
    map k | k in ks :: m[k]
  }

  /** Putting distinct keys: each takes its new value, the others keep
      theirs, and the keys not there before are appended in order. */
  lemma PutAllSpec<K(!new), V>(d: ODict<K, V>, ks: seq<K>, m: map<K, V>)
    requires d.Valid() && Distinct(ks)
    requires forall k :: k in ks ==> k in m
    ensures PutAll(d, ks, m).vals == d.vals + Restrict(m, ks)
    ensures PutAll(d, ks, m).keys == d.keys + Fresh(d, ks)
  {
    PutAllVals(d, ks, m);
    PutAllKeys(d, ks, m);
  }

  lemma {:induction false} PutAllVals<K(!new), V>(d: ODict<K, V>, ks: seq<K>, m: map<K, V>)
    requires d.Valid()
    requires forall k :: k in ks ==> k in m
    ensures PutAll(d, ks, m).vals == d.vals + Restrict(m, ks)
    decreases |ks|
  {
    if ks != [] {
      var n := |ks| - 1;
      var p, k := ks[..n], ks[n];
      assert ks == p + [k];
      PutAllVals(d, p, m);
      RestrictSnoc(m, p, k);
      UnionUpdate(d.vals, Restrict(m, p), k, m[k]);
    }
  }

  lemma {:induction false} PutAllKeys<K(!new), V>(d: ODict<K, V>, ks: seq<K>, m: map<K, V>)
    requires d.Valid() && Distinct(ks)
    requires forall k :: k in ks ==> k in m
    ensures PutAll(d, ks, m).keys == d.keys + Fresh(d, ks)
    decreases |ks|
  {
    if ks != [] {
      var n := |ks| - 1;
      var p, k := ks[..n], ks[n];
      DistinctPrefix(ks);
      LastNotInPrefix(ks);
      PutAllKeys(d, p, m);
      PutAllVals(d, p, m);
      FreshLast(d, ks);
      PutKeysStep(d, PutAll(d, p, m), k, m[k], Fresh(d, p), Restrict(m, p));
    }
  }

  /** Putting one more key that was not among those put before. */
  lemma PutKeysStep<K(!new), V>(d: ODict<K, V>, q: ODict<K, V>, k: K, v: V, added: seq<K>, put: map<K, V>)
    requires q.Valid() && q.keys == d.keys + added && q.vals == d.vals + put && k !in put
    ensures Put(q, k, v).keys == d.keys + (added + (if k in d.vals then [] else [k]))
  {
    if k !in d.vals {
      assert q.keys + [k] == d.keys + (added + [k]);
    } else {
      assert added + [] == added;
    }
  }

  lemma LastNotInPrefix<K(!new)>(ks: seq<K>)
    requires ks != [] && Distinct(ks)
    ensures ks[|ks| - 1] !in ks[..|ks| - 1]
  {
    var n := |ks| - 1;
    forall i | 0 <= i < n ensures ks[..n][i] != ks[n] {
      assert ks[..n][i] == ks[i];
    }
  }

  lemma FreshLast<K(!new), V>(d: ODict<K, V>, ks: seq<K>)
    requires ks != []
    ensures Fresh(d, ks) == Fresh(d, ks[..|ks| - 1]) + (if ks[|ks| - 1] in d.vals then [] else [ks[|ks| - 1]])
  {
  }

  lemma DistinctPrefix<K(!new)>(ks: seq<K>)
    requires ks != [] && Distinct(ks)
    ensures Distinct(ks[..|ks| - 1])
  {
    var p := ks[..|ks| - 1];
    forall i, j | 0 <= i < j < |p| ensures p[i] != p[j] {
      assert p[i] == ks[i] && p[j] == ks[j];
    }
  }

  lemma RestrictSnoc<K(!new), V>(m: map<K, V>, p: seq<K>, k: K)
    requires k in m && forall x :: x in p ==> x in m
    ensures Restrict(m, p + [k]) == Restrict(m, p)[k := m[k]]
  {
  }

  lemma UnionUpdate<K(!new), V>(a: map<K, V>, b: map<K, V>, k: K, v: V)
    ensures (a + b)[k := v] == a + b[k := v]
  {
  }

  lemma UnionTwice<K(!new), V>(a: map<K, V>, b: map<K, V>)
    ensures (a + b) + b == a + b
  {
  }

  /** The items of a dictionary, in order: `list(d.items())`. */
  function Items<K(==, !new), V>(d: ODict<K, V>): (r: seq<(K, V)>)
    requires d.Valid()
    ensures |r| == |d.keys|
    ensures forall i :: 0 <= i < |r| ==> r[i] == (d.keys[i], d.vals[d.keys[i]])
  {
    seq(|d.keys|, i requires 0 <= i < |d.keys| => (d.keys[i], d.vals[d.keys[i]]))
  }

  /** Putting the items of a dictionary into an empty one, in any order
      of its keys, gives the same mapping with the keys in that order. */
  lemma Reorder<K(!new), V>(d: ODict<K, V>, ks: seq<K>)
    requires d.Valid() && multiset(ks) == multiset(d.keys)
    ensures forall k :: k in ks ==> k in d.vals
    ensures PutAll(Empty(), ks, d.vals) == ODict(ks, d.vals)
  {
    SameKeys(d, ks);
    ReorderVals(d, ks);
    ReorderKeys(d, ks);
  }

  lemma SameKeys<K(!new), V>(d: ODict<K, V>, ks: seq<K>)
    requires d.Valid() && multiset(ks) == multiset(d.keys)
    ensures forall k :: k in ks <==> k in d.vals
  {
    forall k ensures k in ks <==> k in d.vals {
      assert k in ks <==> k in multiset(d.keys);
    }
  }

  lemma ReorderVals<K(!new), V>(d: ODict<K, V>, ks: seq<K>)
    requires forall k :: k in ks <==> k in d.vals
    ensures PutAll(Empty(), ks, d.vals).vals == d.vals
  {
    var e: ODict<K, V> := Empty();
    PutAllVals(e, ks, d.vals);
    assert Restrict(d.vals, ks) == d.vals;
    assert map[] + d.vals == d.vals;
  }

  lemma ReorderKeys<K(!new), V>(d: ODict<K, V>, ks: seq<K>)
    requires d.Valid() && multiset(ks) == multiset(d.keys)
    requires forall k :: k in ks ==> k in d.vals
    ensures PutAll(Empty(), ks, d.vals).keys == ks
  {
    var e: ODict<K, V> := Empty();
    DistinctPerm(ks, d.keys);
    PutAllKeys(e, ks, d.vals);
    FreshOfEmpty(e, ks);
  }

  /** A dictionary is rebuilt by putting its items, in order, into an empty
      one: `OrderedDict(d.items()) == d`, order included. */
  lemma Rebuild<K(!new), V>(d: ODict<K, V>)
    requires d.Valid()
    ensures PutAll(Empty(), d.keys, d.vals) == d
  {
    Reorder(d, d.keys);
  }

  lemma {:induction false} FreshOfEmpty<K(!new), V>(d: ODict<K, V>, ks: seq<K>)
    requires d.vals == map[]
    ensures Fresh(d, ks) == ks
    decreases |ks|
  {
    if ks != [] {
      FreshOfEmpty(d, ks[..|ks| - 1]);
      assert ks[..|ks| - 1] + [ks[|ks| - 1]] == ks;
    }
  }

  /** When every key is already present, putting changes no order. */
  lemma {:induction false} FreshOfPresent<K(!new), V>(d: ODict<K, V>, ks: seq<K>)
    requires forall k :: k in ks ==> k in d.vals
    ensures Fresh(d, ks) == []
    decreases |ks|
  {
    if ks != [] {
      FreshOfPresent(d, ks[..|ks| - 1]);
    }
  }

  /** No key occurs twice in a sequence of distinct keys. */
  lemma {:induction false} DistinctCount<K(!new)>(ks: seq<K>, x: K)
    requires Distinct(ks)
    ensures multiset(ks)[x] <= 1
  {
    if ks != [] {
      assert ks == [ks[0]] + ks[1..];
      DistinctCount(ks[1..], x);
    }
  }

  /** A reordering of distinct keys is distinct. */
  lemma DistinctPerm<K(!new)>(a: seq<K>, b: seq<K>)
    requires multiset(a) == multiset(b) && Distinct(b)
    ensures Distinct(a)
  {
    forall i, j | 0 <= i < j < |a| ensures a[i] != a[j] {
      var x := a[i];
      assert a == a[..j] + [a[j]] + a[j + 1..];
      assert x in a[..j];
      DistinctCount(b, x);
    }
  }
}
