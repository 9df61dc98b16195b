/**
 * Python's `sorted(xs, key=k, reverse=True)`: a stable sort into
 * non-increasing key order, keys compared as Python compares tuples. It is
 * written as an insertion sort; a stable sort has only one possible result,
 * so the algorithm inside `sorted` does not matter.
 */
module Sorting {
  import opened Dates

  /** Non-increasing key order: no element's key is below a later element's key. */
  ghost predicate NonIncreasing<T>(s: seq<T>, key: T -> seq<int>) {
    forall i, j :: 0 <= i < j < |s| ==> !Precedes(key(s[i]), key(s[j]))
  }

  /** `h`'s key is not below the key of any element of `s`. */
  ghost predicate AtLeastAll<T>(h: T, s: seq<T>, key: T -> seq<int>) {
    forall e :: e in s ==> !Precedes(key(h), key(e))
  }

  /** Places `x` after every element whose key is not below its own, so equal keys keep their arrival order. */
  function Insert<T>(x: T, s: seq<T>, key: T -> seq<int>): (r: seq<T>)
    ensures multiset(r) == multiset(s) + multiset{x}
  {
    if s == [] then [x]
    else if Precedes(key(s[0]), key(x)) then [x] + s
    else
      assert s == [s[0]] + s[1..];
      [s[0]] + Insert(x, s[1..], key)
  }

  lemma ConsNonIncreasing<T>(h: T, t: seq<T>, key: T -> seq<int>)
    requires NonIncreasing(t, key) && AtLeastAll(h, t, key)
    ensures NonIncreasing([h] + t, key)
  {
    var s := [h] + t;
    forall i, j | 0 <= i < j < |s| ensures !Precedes(key(s[i]), key(s[j])) {
      if i == 0 {
        assert s[j] == t[j - 1] && s[j] in t;
      } else {
        assert s[i] == t[i - 1] && s[j] == t[j - 1];
      }
    }
  }

  /** Every element of a non-increasing `s` is below whatever its first element is below. */
  lemma BelowAll<T>(x: T, s: seq<T>, key: T -> seq<int>)
    requires NonIncreasing(s, key) && s != [] && Precedes(key(s[0]), key(x))
    ensures forall e :: e in s ==> Precedes(key(e), key(x))
  {
    forall e | e in s ensures Precedes(key(e), key(x)) {
      var k :| 0 <= k < |s| && s[k] == e;
      if key(e) != key(s[0]) {
        PrecedesTotal(key(e), key(s[0]));
        PrecedesTransitive(key(e), key(s[0]), key(x));
      }
    }
  }

  lemma {:induction false} InsertNonIncreasing<T>(x: T, s: seq<T>, key: T -> seq<int>)
    requires NonIncreasing(s, key)
    ensures NonIncreasing(Insert(x, s, key), key)
  {
    if s == [] {
    } else if Precedes(key(s[0]), key(x)) {
      BelowAll(x, s, key);
      forall e | e in s ensures !Precedes(key(x), key(e)) {
        PrecedesAsymmetric(key(e), key(x));
      }
      ConsNonIncreasing(x, s, key);
    } else {
      var t := Insert(x, s[1..], key);
      InsertNonIncreasing(x, s[1..], key);
      forall e | e in t ensures !Precedes(key(s[0]), key(e)) {
        assert e in multiset(t);
        if e != x {
          var k :| 0 <= k < |s[1..]| && s[1..][k] == e;
          assert s[k + 1] == e;
        }
      }
      ConsNonIncreasing(s[0], t, key);
    }
  }

  /** `sorted(a, key=key, reverse=True)`: a rearrangement of `a` into non-increasing key order. */
  function SortDesc<T>(a: seq<T>, key: T -> seq<int>): (r: seq<T>)
    ensures multiset(r) == multiset(a)
    ensures NonIncreasing(r, key)
  {
    if a == [] then []
    else
      var init := a[..|a| - 1];
      assert a == init + [a[|a| - 1]];
      var r := SortDesc(init, key);
      InsertNonIncreasing(a[|a| - 1], r, key);
      Insert(a[|a| - 1], r, key)
  }

  /** The elements of `s` whose key is `k`, in their order in `s`. */
  function WithKey<T>(s: seq<T>, key: T -> seq<int>, k: seq<int>): seq<T> {
    if s == [] then [] else (if key(s[0]) == k then [s[0]] else []) + WithKey(s[1..], key, k)
  }

  lemma {:induction false} WithKeyAppend<T>(a: seq<T>, b: seq<T>, key: T -> seq<int>, k: seq<int>)
    ensures WithKey(a + b, key, k) == WithKey(a, key, k) + WithKey(b, key, k)
  {
    if a != [] {
      var h := if key(a[0]) == k then [a[0]] else [];
      assert (a + b)[0] == a[0] && (a + b)[1..] == a[1..] + b;
      assert WithKey(a + b, key, k) == h + WithKey(a[1..] + b, key, k);
      WithKeyAppend(a[1..], b, key, k);
      assert WithKey(a, key, k) == h + WithKey(a[1..], key, k);
    } else {
      assert a + b == b;
    }
  }

  lemma {:induction false} WithKeyAbsent<T>(s: seq<T>, key: T -> seq<int>, k: seq<int>)
    requires forall e :: e in s ==> key(e) != k
    ensures WithKey(s, key, k) == []
  {
    if s != [] {
      WithKeyAbsent(s[1..], key, k);
    }
  }

  lemma {:induction false} InsertWithKey<T>(x: T, s: seq<T>, key: T -> seq<int>, k: seq<int>)
    requires NonIncreasing(s, key)
    ensures WithKey(Insert(x, s, key), key, k) == WithKey(s, key, k) + (if key(x) == k then [x] else [])
  {
    if s == [] {
    } else if Precedes(key(s[0]), key(x)) {
      InsertFrontWithKey(x, s, key, k);
    } else {
      var h, t := s[0], s[1..];
      var hk, xk := (if key(h) == k then [h] else []), (if key(x) == k then [x] else []);
      NonIncreasingTail(s, key);
      calc {
        WithKey(Insert(x, s, key), key, k);
        { assert Insert(x, s, key) == [h] + Insert(x, t, key); }
        WithKey([h] + Insert(x, t, key), key, k);
        { WithKeyCons(h, Insert(x, t, key), key, k); }
        hk + WithKey(Insert(x, t, key), key, k);
        { InsertWithKey(x, t, key, k); }
        hk + (WithKey(t, key, k) + xk);
        (hk + WithKey(t, key, k)) + xk;
        { WithKeyCons(h, t, key, k); assert s == [h] + t; }
        WithKey(s, key, k) + xk;
      }
    }
  }

  /** An element placed in front keeps its own place among the elements with its key: there are none after it. */
  lemma InsertFrontWithKey<T>(x: T, s: seq<T>, key: T -> seq<int>, k: seq<int>)
    requires NonIncreasing(s, key) && s != [] && Precedes(key(s[0]), key(x))
    ensures WithKey([x] + s, key, k) == WithKey(s, key, k) + (if key(x) == k then [x] else [])
  {
    WithKeyCons(x, s, key, k);
    if key(x) == k {
      BelowAll(x, s, key);
      PrecedesIrreflexive(key(x));
      WithKeyAbsent(s, key, k);
    }
  }

  lemma WithKeyCons<T>(h: T, t: seq<T>, key: T -> seq<int>, k: seq<int>)
    ensures WithKey([h] + t, key, k) == (if key(h) == k then [h] else []) + WithKey(t, key, k)
  {
    assert ([h] + t)[1..] == t;
  }

  lemma NonIncreasingTail<T>(s: seq<T>, key: T -> seq<int>)
    requires s != [] && NonIncreasing(s, key)
    ensures NonIncreasing(s[1..], key)
  {
    var t := s[1..];
    forall i, j | 0 <= i < j < |t| ensures !Precedes(key(t[i]), key(t[j])) {
      assert t[i] == s[i + 1] && t[j] == s[j + 1];
    }
  }

  /** The sort is stable: elements with equal keys come out in the order they went in. */
  lemma {:induction false} SortDescStable<T>(a: seq<T>, key: T -> seq<int>, k: seq<int>)
    ensures WithKey(SortDesc(a, key), key, k) == WithKey(a, key, k)
  {
    if a != [] {
      var init, last := a[..|a| - 1], a[|a| - 1];
      assert a == init + [last];
      SortDescStable(init, key, k);
      InsertWithKey(last, SortDesc(init, key), key, k);
      WithKeyAppend(init, [last], key, k);
    }
  }

  /** Python's `[f(x) for x in s]`. */
  function MapSeq<A, B>(f: A -> B, s: seq<A>): (r: seq<B>)
    ensures |r| == |s|
  {
    if s == [] then [] else [f(s[0])] + MapSeq(f, s[1..])
  }

  lemma {:induction false} MapSeqAt<A, B>(f: A -> B, s: seq<A>, i: nat)
    requires i < |s|
    ensures MapSeq(f, s)[i] == f(s[i])
  {
    if i > 0 {
      MapSeqAt(f, s[1..], i - 1);
    }
  }

  lemma {:induction false} MapSeqAppend<A, B>(f: A -> B, u: seq<A>, v: seq<A>)
    ensures MapSeq(f, u + v) == MapSeq(f, u) + MapSeq(f, v)
  {
    if u == [] {
      assert u + v == v;
    } else {
      assert (u + v)[1..] == u[1..] + v;
      MapSeqAppend(f, u[1..], v);
    }
  }

  lemma MultisetCancel<A>(p: multiset<A>, q: multiset<A>, x: A)
    requires p + multiset{x} == q + multiset{x}
    ensures p == q
  {
    assert forall y :: p[y] == (p + multiset{x})[y] - (if y == x then 1 else 0);
    assert forall y :: q[y] == (q + multiset{x})[y] - (if y == x then 1 else 0);
  }

  /** An element of `b` splits it into what comes before and what comes after one of its occurrences. */
  lemma SplitAround<A>(b: seq<A>, x: A) returns (u: seq<A>, v: seq<A>)
    requires x in multiset(b)
    ensures b == u + ([x] + v) && multiset(b) == multiset(u + v) + multiset{x}
  {
    var j :| 0 <= j < |b| && b[j] == x;
    u, v := b[..j], b[j + 1..];
    assert b == u + ([x] + v);
    MultisetMiddle(u, x, v);
  }

  /** Removing an element before mapping removes its image after mapping. */
  lemma MapSeqRemove<A, B>(f: A -> B, u: seq<A>, x: A, v: seq<A>)
    ensures multiset(MapSeq(f, u + ([x] + v))) == multiset(MapSeq(f, u + v)) + multiset{f(x)}
  {
    MapSeqAppend(f, u, [x] + v);
    MapSeqAppend(f, [x], v);
    MapSeqAppend(f, u, v);
    assert [x][1..] == [];
    MultisetMiddle(MapSeq(f, u), f(x), MapSeq(f, v));
  }

  lemma MultisetMiddle<B>(p: seq<B>, y: B, q: seq<B>)
    ensures multiset(p + ([y] + q)) == multiset(p + q) + multiset{y}
  {
  }

  /** Mapping two rearrangements of the same elements gives two rearrangements of the same results. */
  lemma {:induction false} MapSeqPermutation<A, B>(f: A -> B, a: seq<A>, b: seq<A>)
    requires multiset(a) == multiset(b)
    ensures multiset(MapSeq(f, a)) == multiset(MapSeq(f, b))
    decreases |a|
  {
    if a == [] {
      assert |b| == |multiset(b)| == 0;
    } else {
      var x, rest := a[0], a[1..];
      assert a == [x] + rest;
      assert multiset(a) == multiset(rest) + multiset{x};
      var u, v := SplitAround(b, x);
      MultisetCancel(multiset(rest), multiset(u + v), x);
      MapSeqPermutation(f, rest, u + v);
      MapSeqRemove(f, u, x, v);
      assert MapSeq(f, a) == [f(x)] + MapSeq(f, rest);
    }
  }

}
