/**
 * Python's stable sort by key, `sorted(xs, key=f)` and `xs.sort(key=f)`, on
 * elements paired with their keys.  A key is a sequence of integers compared
 * lexicographically, which is how Python compares tuples of ints and, code
 * point by code point, strings.
 */
module Sorting {
  import opened Py

  type Key = seq<int>

  /** Python's `a <= b` on tuples: the first difference decides, and a
      proper prefix comes first. */
  predicate KeyLeq(a: Key, b: Key)
  {
    a == [] || (b != [] && (a[0] < b[0] || (a[0] == b[0] && KeyLeq(a[1..], b[1..]))))
  }

  lemma {:induction false} KeyLeqRefl(a: Key)
    ensures KeyLeq(a, a)
  {
    if a != [] {
      KeyLeqRefl(a[1..]);
    }
  }

  lemma {:induction false} KeyLeqTotal(a: Key, b: Key)
    ensures KeyLeq(a, b) || KeyLeq(b, a)
  {
    if a != [] && b != [] && a[0] == b[0] {
      KeyLeqTotal(a[1..], b[1..]);
    }
  }

  lemma {:induction false} KeyLeqTrans(a: Key, b: Key, c: Key)
    requires KeyLeq(a, b) && KeyLeq(b, c)
    ensures KeyLeq(a, c)
  {
    if a != [] && b != [] && c != [] && a[0] == b[0] == c[0] {
      KeyLeqTrans(a[1..], b[1..], c[1..]);
    }
  }

  lemma {:induction false} KeyLeqAntisym(a: Key, b: Key)
    requires KeyLeq(a, b) && KeyLeq(b, a)
    ensures a == b
  {
    if a != [] && b != [] {
      KeyLeqAntisym(a[1..], b[1..]);
      assert a == [a[0]] + a[1..] && b == [b[0]] + b[1..];
    }
  }

  /** A string as a key: its code points. */
  function StrKey(s: string): (r: Key)
    ensures |r| == |s|
    ensures forall i :: 0 <= i < |s| ==> r[i] == s[i] as int
  {
    seq(|s|, i requires 0 <= i < |s| => s[i] as int)
  }

  /** Keys of strings compare as the strings do. */
  lemma {:induction false} StrKeyLeq(a: string, b: string)
    ensures KeyLeq(StrKey(a), StrKey(b)) <==> StrLeq(a, b)
  {
    if a != [] && b != [] {
      assert StrKey(a)[1..] == StrKey(a[1..]) && StrKey(b)[1..] == StrKey(b[1..]);
      StrKeyLeq(a[1..], b[1..]);
    }
  }

  /** Different strings have different keys. */
  lemma StrKeyInjective(a: string, b: string)
    requires StrKey(a) == StrKey(b)
    ensures a == b
  {
    assert |a| == |b|;
    forall i | 0 <= i < |a| ensures a[i] == b[i] {
      assert StrKey(a)[i] == StrKey(b)[i];
    }
  }

  /** Ascending by key. */
  ghost predicate Sorted<T>(s: seq<(Key, T)>)
  {
    forall i, j :: 0 <= i < j < |s| ==> KeyLeq(s[i].0, s[j].0)
  }

  /** The elements with key `k`, in order. */
  function WithKey<T>(s: seq<(Key, T)>, k: Key): seq<(Key, T)>
  {
    if s == [] then [] else (if s[0].0 == k then [s[0]] else []) + WithKey(s[1..], k)
  }

  /** Every key of `s` is at least `lo`. */
  ghost predicate Above<T>(lo: Key, s: seq<(Key, T)>)
  {
    forall i :: 0 <= i < |s| ==> KeyLeq(lo, s[i].0)
  }

  /** `x` placed before the first element whose key is not below its own. */
  function Insert<T>(x: (Key, T), s: seq<(Key, T)>): (r: seq<(Key, T)>)
    ensures |r| == |s| + 1
    ensures multiset(r) == multiset(s) + multiset{x}
  {
    if s == [] || KeyLeq(x.0, s[0].0) then [x] + s
    else
      assert s == [s[0]] + s[1..];
      [s[0]] + Insert(x, s[1..])
  }

  lemma {:induction false} InsertAbove<T>(lo: Key, x: (Key, T), s: seq<(Key, T)>)
    requires KeyLeq(lo, x.0) && Above(lo, s)
    ensures Above(lo, Insert(x, s))
    decreases |s|
  {
    if s != [] && !KeyLeq(x.0, s[0].0) {
      InsertAbove(lo, x, s[1..]);
    }
  }

  lemma {:induction false} InsertSorted<T>(x: (Key, T), s: seq<(Key, T)>)
    requires Sorted(s)
    ensures Sorted(Insert(x, s))
    decreases |s|
  {
    if s == [] {
    } else if KeyLeq(x.0, s[0].0) {
      forall j | 0 <= j < |s| ensures KeyLeq(x.0, s[j].0) {
        if j > 0 {
          KeyLeqTrans(x.0, s[0].0, s[j].0);
        }
      }
    } else {
      KeyLeqTotal(x.0, s[0].0);
      InsertSorted(x, s[1..]);
      InsertAbove(s[0].0, x, s[1..]);
    }
  }

  /** Among the elements with `x`'s key, `x` comes first; the other keys'
      elements stay as they were. */
  lemma {:induction false} InsertWithKey<T>(x: (Key, T), s: seq<(Key, T)>, k: Key)
    ensures WithKey(Insert(x, s), k) == (if x.0 == k then [x] else []) + WithKey(s, k)
    decreases |s|
  {
    if s == [] || KeyLeq(x.0, s[0].0) {
      assert ([x] + s)[1..] == s;
    } else {
      KeyLeqRefl(x.0);
      InsertWithKey(x, s[1..], k);
      assert ([s[0]] + Insert(x, s[1..]))[1..] == Insert(x, s[1..]);
    }
  }

  /** `sorted(s, key=...)`: ascending by key, a permutation of `s`, and
      stable: the elements of any one key keep their order. */
  function Sort<T>(s: seq<(Key, T)>): (r: seq<(Key, T)>)
    ensures |r| == |s|
    ensures multiset(r) == multiset(s)
    ensures Sorted(r)
    ensures forall k :: WithKey(r, k) == WithKey(s, k)
  {
    if s == [] then []
    else
      var t := Sort(s[1..]);
      InsertSorted(s[0], t);
      assert s == [s[0]] + s[1..];
      assert forall k :: WithKey(Insert(s[0], t), k) == WithKey(s, k) by {
        forall k ensures WithKey(Insert(s[0], t), k) == WithKey(s, k) {
          InsertWithKey(s[0], t, k);
        }
      }
      Insert(s[0], t)
  }

  /** The elements without their keys. */
  function Elems<T>(s: seq<(Key, T)>): (r: seq<T>)
    ensures |r| == |s|
    ensures forall i :: 0 <= i < |s| ==> r[i] == s[i].1
  {
    seq(|s|, i requires 0 <= i < |s| => s[i].1)
  }

  lemma {:induction false} InsertElems<T>(x: (Key, T), s: seq<(Key, T)>)
    ensures multiset(Elems(Insert(x, s))) == multiset(Elems(s)) + multiset{x.1}
    decreases |s|
  {
    if s == [] || KeyLeq(x.0, s[0].0) {
      assert Elems([x] + s) == [x.1] + Elems(s);
    } else {
      InsertElems(x, s[1..]);
      assert Elems([s[0]] + Insert(x, s[1..])) == [s[0].1] + Elems(Insert(x, s[1..]));
      assert Elems(s) == [s[0].1] + Elems(s[1..]);
    }
  }

  /** Sorting moves the elements and loses none. */
  lemma {:induction false} SortElems<T>(s: seq<(Key, T)>)
    ensures multiset(Elems(Sort(s))) == multiset(Elems(s))
  {
    if s != [] {
      SortElems(s[1..]);
      InsertElems(s[0], Sort(s[1..]));
      assert Elems(s) == [s[0].1] + Elems(s[1..]);
    }
  }

  /** Sorting what is already sorted changes nothing. */
  lemma {:induction false} SortSorted<T>(s: seq<(Key, T)>)
    requires Sorted(s)
    ensures Sort(s) == s
  {
    if s != [] {
      SortSorted(s[1..]);
      assert s == [s[0]] + s[1..];
    }
  }
}
