/** Python's `sorted(xs, key=k, reverse=True)`: a stable sort into non-increasing
    key order. Elements with equal keys keep their original relative order. */
module Sorting {
  predicate SortedDesc<T>(xs: seq<T>, key: T -> real) {
    forall i, j :: 0 <= i < j < |xs| ==> key(xs[i]) >= key(xs[j])
  }

  /** The elements of `xs` whose key is exactly `v`, in order. */
  function WithKey<T>(xs: seq<T>, key: T -> real, v: real): seq<T> {
    if xs == [] then []
    else (if key(xs[0]) == v then [xs[0]] else []) + WithKey(xs[1..], key, v)
  }

  lemma {:induction false} WithKeyConcat<T>(a: seq<T>, b: seq<T>, key: T -> real, v: real)
    ensures WithKey(a + b, key, v) == WithKey(a, key, v) + WithKey(b, key, v)
    decreases |a|
  {
    if a == [] {
      assert a + b == b;
    } else {
      var h: seq<T> := if key(a[0]) == v then [a[0]] else [];
      assert (a + b)[0] == a[0];
      assert (a + b)[1..] == a[1..] + b;
      WithKeyConcat(a[1..], b, key, v);
      assert WithKey(a + b, key, v) == h + WithKey(a[1..] + b, key, v);
      assert WithKey(a, key, v) == h + WithKey(a[1..], key, v);
      assert h + (WithKey(a[1..], key, v) + WithKey(b, key, v)) == (h + WithKey(a[1..], key, v)) + WithKey(b, key, v);
    }
  }

  /** Places `x` after every element with a strictly larger key. */
  function Insert<T>(x: T, xs: seq<T>, key: T -> real): (r: seq<T>)
    ensures |r| == |xs| + 1
  {
    if xs == [] || key(xs[0]) <= key(x) then [x] + xs
    else [xs[0]] + Insert(x, xs[1..], key)
  }

  lemma {:induction false} InsertPermutes<T>(x: T, xs: seq<T>, key: T -> real)
    ensures multiset(Insert(x, xs, key)) == multiset(xs) + multiset{x}
  {
    if !(xs == [] || key(xs[0]) <= key(x)) {
      InsertPermutes(x, xs[1..], key);
      assert xs == [xs[0]] + xs[1..];
    }
  }

  lemma {:induction false} InsertSorted<T>(x: T, xs: seq<T>, key: T -> real)
    requires SortedDesc(xs, key)
    ensures SortedDesc(Insert(x, xs, key), key)
  {
    if !(xs == [] || key(xs[0]) <= key(x)) {
      var rest := Insert(x, xs[1..], key);
      assert xs == [xs[0]] + xs[1..];
      InsertSorted(x, xs[1..], key);
      InsertPermutes(x, xs[1..], key);
      HeadBoundsRest(xs[0], x, xs[1..], rest, key);
    }
  }

  /** Prepending an element whose key bounds every key of a sorted list keeps it sorted. */
  lemma HeadBoundsRest<T>(h: T, x: T, tail: seq<T>, rest: seq<T>, key: T -> real)
    requires SortedDesc([h] + tail, key) && SortedDesc(rest, key)
    requires key(x) < key(h)
    requires multiset(rest) == multiset(tail) + multiset{x}
    ensures SortedDesc([h] + rest, key)
  {
    forall j | 0 <= j < |rest|
      ensures key(rest[j]) <= key(h)
    {
      assert rest[j] in multiset(rest);
      if rest[j] != x {
        assert rest[j] in multiset(tail);
        assert rest[j] in tail;
        var k :| 0 <= k < |tail| && tail[k] == rest[j];
        assert ([h] + tail)[0] == h;
        assert ([h] + tail)[k + 1] == tail[k];
      }
    }
    var s := [h] + rest;
    forall i, j | 0 <= i < j < |s|
      ensures key(s[i]) >= key(s[j])
    {
      if i > 0 {
        assert s[i] == rest[i - 1] && s[j] == rest[j - 1];
      } else {
        assert s[j] == rest[j - 1];
      }
    }
  }

  /** `sorted(xs, key=key, reverse=True)`. */
  function SortDesc<T>(xs: seq<T>, key: T -> real): (r: seq<T>)
    ensures |r| == |xs|
    ensures multiset(r) == multiset(xs)
    ensures SortedDesc(r, key)
  {
    if xs == [] then []
    else
      var rest := SortDesc(xs[1..], key);
      assert xs == [xs[0]] + xs[1..];
      InsertPermutes(xs[0], rest, key);
      InsertSorted(xs[0], rest, key);
      Insert(xs[0], rest, key)
  }

  lemma {:induction false} InsertWithKey<T>(x: T, xs: seq<T>, key: T -> real, v: real)
    ensures WithKey(Insert(x, xs, key), key, v)
         == (if key(x) == v then [x] else []) + WithKey(xs, key, v)
  {
    if xs == [] || key(xs[0]) <= key(x) {
      WithKeyConcat([x], xs, key, v);
    } else {
      var r1 := Insert(x, xs[1..], key);
      var hx: seq<T> := if key(x) == v then [x] else [];
      var hh: seq<T> := if key(xs[0]) == v then [xs[0]] else [];
      assert WithKey([xs[0]], key, v) == hh + WithKey([], key, v);
      var tail := WithKey(xs[1..], key, v);
      assert Insert(x, xs, key) == [xs[0]] + r1;
      calc {
        WithKey(Insert(x, xs, key), key, v);
        { WithKeyConcat([xs[0]], r1, key, v); }
        hh + WithKey(r1, key, v);
        { InsertWithKey(x, xs[1..], key, v); }
        hh + (hx + tail);
        { SwapEmpty(hh, hx, tail); }
        hx + (hh + tail);
        { assert xs == [xs[0]] + xs[1..]; WithKeyConcat([xs[0]], xs[1..], key, v); }
        hx + WithKey(xs, key, v);
      }
    }
  }

  lemma SwapEmpty<T>(a: seq<T>, b: seq<T>, c: seq<T>)
    requires a == [] || b == []
    ensures a + (b + c) == b + (a + c)
  {
    if a == [] {
      assert a + (b + c) == b + c;
      assert a + c == c;
    } else {
      assert b + (a + c) == a + c;
      assert b + c == c;
    }
  }

  /** Stability: for every key value, the elements carrying it appear in the
      output in the same order as in the input. */
  lemma {:induction false} SortDescStable<T>(xs: seq<T>, key: T -> real, v: real)
    ensures WithKey(SortDesc(xs, key), key, v) == WithKey(xs, key, v)
  {
    if xs != [] {
      SortDescStable(xs[1..], key, v);
      InsertWithKey(xs[0], SortDesc(xs[1..], key), key, v);
      WithKeyConcat([xs[0]], xs[1..], key, v);
      assert xs == [xs[0]] + xs[1..];
    }
  }

  /** A list already in descending order comes back unchanged. */
  lemma {:induction false} SortDescOfSorted<T>(xs: seq<T>, key: T -> real)
    requires SortedDesc(xs, key)
    ensures SortDesc(xs, key) == xs
  {
    if xs != [] {
      assert SortedDesc(xs[1..], key);
      SortDescOfSorted(xs[1..], key);
      assert xs == [xs[0]] + xs[1..];
    }
  }

  /** The first `n` of a descending sort: every element of the input is among them,
      or all `n` places are taken by elements with at least its key. */
  lemma TopOfSort<T>(xs: seq<T>, key: T -> real, n: nat, x: T)
    requires x in xs
    ensures var top := SortDesc(xs, key)[..if n < |xs| then n else |xs|];
      x in top || (|top| == n && forall t :: t in top ==> key(t) >= key(x))
  {
    var sorted := SortDesc(xs, key);
    var top := sorted[..if n < |xs| then n else |xs|];
    assert x in multiset(sorted);
    var p :| 0 <= p < |sorted| && sorted[p] == x;
    if p < |top| {
      assert top[p] == x;
    } else {
      forall t | t in top
        ensures key(t) >= key(x)
      {
        var q :| 0 <= q < |top| && top[q] == t;
        assert sorted[q] == t;
      }
    }
  }
}
