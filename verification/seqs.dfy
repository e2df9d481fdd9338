/** Sequence helpers standing in for Python list idioms: slices with an upper
    bound, comprehension filters, `sum`, `len([... if ...])` and `max(...)`. */
module Seqs {

  /** `xs[:n]`: the first `n` elements, or all of them when there are fewer. */
  function Take<T>(xs: seq<T>, n: nat): (r: seq<T>)
    ensures |r| == if n < |xs| then n else |xs|
    ensures r == xs[..|r|]
  {
    if n < |xs| then xs[..n] else xs
  }

  /** A Python slice bound: a negative index counts from the end, and the result
      is clamped to the list. */
  function SliceBound(i: int, n: nat): (b: nat)
    ensures b <= n
    ensures 0 <= i <= n ==> b == i
    ensures i > n ==> b == n
    ensures i < 0 ==> b == if i + n < 0 then 0 else i + n
  {
    if i < 0 then (if i + n < 0 then 0 else i + n) else if i > n then n else i
  }

  /** `xs[start:end]`. */
  function PySlice<T>(xs: seq<T>, start: int, end: int): seq<T> {
    var s := SliceBound(start, |xs|);
    var e := SliceBound(end, |xs|);
    if s < e then xs[s..e] else []
  }

  /** `xs[:n]` for any integer `n`: the first `n` items, or, for a negative `n`,
      all but the last `-n`. */
  function Prefix<T>(xs: seq<T>, n: int): (r: seq<T>)
    ensures n >= 0 ==> r == Take(xs, n)
    ensures n < 0 ==> r == xs[..if |xs| + n < 0 then 0 else |xs| + n]
  {
    xs[..SliceBound(n, |xs|)]
  }

  /** `[f(x) for x in xs]`. */
  function Map<A, B>(xs: seq<A>, f: A -> B): (r: seq<B>)
    ensures |r| == |xs| && forall i :: 0 <= i < |xs| ==> r[i] == f(xs[i])
  {
    seq(|xs|, i requires 0 <= i < |xs| => f(xs[i]))
  }

  /** `[x for x in xs if p(x)]`. */
  function Filter<T>(xs: seq<T>, p: T -> bool): (r: seq<T>)
    ensures |r| <= |xs|
    ensures forall i :: 0 <= i < |r| ==> r[i] in xs && p(r[i])
    ensures forall i :: 0 <= i < |xs| && p(xs[i]) ==> xs[i] in r
  {
    if xs == [] then []
    else (if p(xs[0]) then [xs[0]] else []) + Filter(xs[1..], p)
  }

  /** Concatenation regroups freely. */
  lemma AppendAssoc<T>(x: seq<T>, y: seq<T>, z: seq<T>)
    ensures x + y + z == x + (y + z)
  {
  }

  lemma InLeft<T>(xs: seq<T>, ys: seq<T>, x: T)
    requires x in xs
    ensures x in xs + ys
  {
  }

  lemma FilterConcat<T>(a: seq<T>, b: seq<T>, p: T -> bool)
    ensures Filter(a + b, p) == Filter(a, p) + Filter(b, p)
  {
    if a == [] {
      assert a + b == b;
    } else {
      assert (a + b)[1..] == a[1..] + b;
      FilterConcat(a[1..], b, p);
    }
  }

  /** Filtering one more element of a prefix. */
  lemma FilterSnoc<T>(xs: seq<T>, i: nat, p: T -> bool)
    requires i < |xs|
    ensures Filter(xs[..i + 1], p) == Filter(xs[..i], p) + (if p(xs[i]) then [xs[i]] else [])
  {
    assert xs[..i + 1] == xs[..i] + [xs[i]];
    FilterConcat(xs[..i], [xs[i]], p);
  }

  lemma FilterNone<T>(xs: seq<T>, p: T -> bool)
    requires forall x :: x in xs ==> !p(x)
    ensures Filter(xs, p) == []
  {
  }

  /** `key` strictly increases along `xs`. */
  predicate IncreasingBy<T>(xs: seq<T>, key: T -> int) {
    forall i, j :: 0 <= i < j < |xs| ==> key(xs[i]) < key(xs[j])
  }

  lemma IncreasingIndex<T>(xs: seq<T>, key: T -> int, a: nat, b: nat)
    requires IncreasingBy(xs, key) && a < |xs| && b < |xs| && key(xs[a]) < key(xs[b])
    ensures a < b
  {
  }

  /** A bound on every key of `xs` bounds the filtered keys. */
  lemma FilterAbove<T>(xs: seq<T>, p: T -> bool, key: T -> int, bound: int)
    requires forall i :: 0 <= i < |xs| ==> key(xs[i]) > bound
    ensures forall i :: 0 <= i < |Filter(xs, p)| ==> key(Filter(xs, p)[i]) > bound
  {
    var r := Filter(xs, p);
    forall i | 0 <= i < |r|
      ensures key(r[i]) > bound
    {
      assert r[i] in xs;
      var q :| 0 <= q < |xs| && xs[q] == r[i];
    }
  }

  lemma ConsIncreasing<T>(x: T, xs: seq<T>, key: T -> int)
    requires IncreasingBy(xs, key) && forall i :: 0 <= i < |xs| ==> key(xs[i]) > key(x)
    ensures IncreasingBy([x] + xs, key)
  {
    var r := [x] + xs;
    forall i, j | 0 <= i < j < |r|
      ensures key(r[i]) < key(r[j])
    {
      assert r[j] == xs[j - 1];
      if i > 0 {
        assert r[i] == xs[i - 1];
      }
    }
  }

  /** Filtering keeps the order of what it keeps. */
  lemma {:induction false} FilterIncreasing<T>(xs: seq<T>, p: T -> bool, key: T -> int)
    requires IncreasingBy(xs, key)
    ensures IncreasingBy(Filter(xs, p), key)
    decreases |xs|
  {
    if xs != [] {
      var tail := xs[1..];
      assert IncreasingBy(tail, key) by {
        forall i, j | 0 <= i < j < |tail|
          ensures key(tail[i]) < key(tail[j])
        {
          assert tail[i] == xs[i + 1] && tail[j] == xs[j + 1];
        }
      }
      FilterIncreasing(tail, p, key);
      var ft := Filter(tail, p);
      var r := Filter(xs, p);
      if p(xs[0]) {
        assert r == [xs[0]] + ft;
        forall i | 0 <= i < |tail|
          ensures key(tail[i]) > key(xs[0])
        {
          assert tail[i] == xs[i + 1];
        }
        FilterAbove(tail, p, key, key(xs[0]));
        ConsIncreasing(xs[0], ft, key);
      } else {
        assert r == ft;
      }
    }
  }

  /** `max(filtered, key=key)` over an order-preserving filter: the first element
      of `xs` that passes with the top key. `pos` gives each element's index. */
  lemma FilterArgMax<T>(xs: seq<T>, p: T -> bool, key: T -> real, pos: T -> int, c: T)
    requires forall j :: 0 <= j < |xs| ==> pos(xs[j]) == j
    requires |Filter(xs, p)| > 0 && c == Filter(xs, p)[ArgMaxFirst(Filter(xs, p), key)]
    ensures 0 <= pos(c) < |xs| && xs[pos(c)] == c && p(c)
    ensures forall j :: 0 <= j < |xs| && p(xs[j]) ==> key(xs[j]) <= key(c)
    ensures forall j :: 0 <= j < pos(c) && p(xs[j]) ==> key(xs[j]) < key(c)
  {
    var cs := Filter(xs, p);
    var top := ArgMaxFirst(cs, key);
    assert cs[top] in xs;
    var at :| 0 <= at < |xs| && xs[at] == c;
    assert IncreasingBy(xs, pos);
    FilterIncreasing(xs, p, pos);
    forall j | 0 <= j < |xs| && p(xs[j])
      ensures key(xs[j]) <= key(c)
    {
      assert xs[j] in cs;
      var q :| 0 <= q < |cs| && cs[q] == xs[j];
    }
    forall j | 0 <= j < pos(c) && p(xs[j])
      ensures key(xs[j]) < key(c)
    {
      assert xs[j] in cs;
      var q :| 0 <= q < |cs| && cs[q] == xs[j];
      IncreasingIndex(cs, pos, q, top);
    }
  }

  /** `len([x for x in xs if p(x)])`. */
  function Count<T>(xs: seq<T>, p: T -> bool): (n: nat)
    ensures n <= |xs|
  {
    |Filter(xs, p)|
  }

  /** `sum(xs)`. */
  function Sum(xs: seq<real>): real {
    if xs == [] then 0.0 else xs[0] + Sum(xs[1..])
  }

  lemma {:induction false} SumBounds(xs: seq<real>, lo: real, hi: real)
    requires forall i :: 0 <= i < |xs| ==> lo <= xs[i] <= hi
    ensures |xs| as real * lo <= Sum(xs) <= |xs| as real * hi
  {
    if xs != [] {
      SumBounds(xs[1..], lo, hi);
    }
  }

  lemma {:induction false} SumConcat(a: seq<real>, b: seq<real>)
    ensures Sum(a + b) == Sum(a) + Sum(b)
  {
    if a == [] {
      assert a + b == b;
    } else {
      assert (a + b)[1..] == a[1..] + b;
      SumConcat(a[1..], b);
    }
  }

  /** `sum(xs) / len(xs)` for a non-empty list: it lies between the bounds of the elements. */
  function Mean(xs: seq<real>): (m: real)
    requires |xs| > 0
    ensures (forall i :: 0 <= i < |xs| ==> 0.0 <= xs[i] <= 1.0) ==> 0.0 <= m <= 1.0
  {
    if forall i :: 0 <= i < |xs| ==> 0.0 <= xs[i] <= 1.0 then
      SumBounds(xs, 0.0, 1.0);
      Sum(xs) / |xs| as real
    else
      Sum(xs) / |xs| as real
  }

  /** `max(xs)` for a non-empty list of reals. */
  function Max(xs: seq<real>): (m: real)
    requires |xs| > 0
    ensures m in xs
    ensures forall i :: 0 <= i < |xs| ==> xs[i] <= m
  {
    if |xs| == 1 then xs[0]
    else
      var rest := Max(xs[1..]);
      if xs[0] >= rest then xs[0] else rest
  }

  /** A real clipped to at most `hi`: Python's `min(hi, x)`. */
  function MinReal(a: real, b: real): (m: real)
    ensures m <= a && m <= b && (m == a || m == b)
  {
    if a <= b then a else b
  }

  function MaxReal(a: real, b: real): (m: real)
    ensures m >= a && m >= b && (m == a || m == b)
  {
    if a >= b then a else b
  }

  /** The position Python's `max(xs, key=key)` picks: a largest key, the first
      one on ties. */
  function ArgMaxFirst<T>(xs: seq<T>, key: T -> real): (i: nat)
    requires |xs| > 0
    ensures i < |xs|
    ensures forall j :: 0 <= j < |xs| ==> key(xs[j]) <= key(xs[i])
    ensures forall j :: 0 <= j < i ==> key(xs[j]) < key(xs[i])
  {
    if |xs| == 1 then 0
    else
      var rest := 1 + ArgMaxFirst(xs[1..], key);
      if key(xs[0]) >= key(xs[rest]) then 0 else rest
  }

  /** A quotient of reals with `0 <= p <= q` lies in [0, 1]. */
  lemma RealRatio(p: real, q: real)
    requires 0.0 <= p <= q && 0.0 < q
    ensures 0.0 <= p / q <= 1.0
  {
    assert p / q * q == p;
  }

  /** Whether a sequence holds no element twice. */
  predicate Distinct<T(==)>(xs: seq<T>) {
    forall i, j :: 0 <= i < j < |xs| ==> xs[i] != xs[j]
  }

  lemma DistinctTail<T>(xs: seq<T>)
    requires xs != [] && Distinct(xs)
    ensures Distinct(xs[1..]) && xs[0] !in xs[1..]
  {
    var t := xs[1..];
    forall i, j | 0 <= i < j < |t|
      ensures t[i] != t[j]
    {
      assert t[i] == xs[i + 1] && t[j] == xs[j + 1];
    }
  }

  /** `min(xs)` for a non-empty list of reals. */
  function Min(xs: seq<real>): (m: real)
    requires |xs| > 0
    ensures m in xs
    ensures forall i :: 0 <= i < |xs| ==> m <= xs[i]
  {
    if |xs| == 1 then xs[0]
    else
      var rest := Min(xs[1..]);
      if xs[0] <= rest then xs[0] else rest
  }

  /** The distinct elements of `xs` in order of first occurrence: the keys of a
      Python dict filled from `xs`. */
  function Dedupe<T(==,!new)>(xs: seq<T>): (r: seq<T>)
    ensures Distinct(r)
    ensures forall x :: x in r <==> x in xs
    decreases |xs|
  {
    if xs == [] then []
    else
      var d := Dedupe(xs[..|xs| - 1]);
      var x := xs[|xs| - 1];
      assert xs == xs[..|xs| - 1] + [x];
      if x in d then d else d + [x]
  }

  /** Dedupe of a sequence grown by one element. */
  lemma DedupeSnoc<T(!new)>(xs: seq<T>, x: T)
    ensures Dedupe(xs + [x]) == if x in xs then Dedupe(xs) else Dedupe(xs) + [x]
  {
    assert (xs + [x])[..|xs + [x]| - 1] == xs;
  }

  /** Elements already seen add nothing to the Dedupe. */
  lemma {:induction false} DedupeAbsorb<T(!new)>(xs: seq<T>, ys: seq<T>)
    requires forall y :: y in ys ==> y in xs
    ensures Dedupe(xs + ys) == Dedupe(xs)
    decreases |ys|
  {
    if ys == [] {
      assert xs + ys == xs;
    } else {
      var init, y := ys[..|ys| - 1], ys[|ys| - 1];
      assert ys == init + [y];
      assert xs + ys == (xs + init) + [y];
      assert y in ys;
      assert y in xs + init;
      DedupeSnoc(xs + init, y);
      assert forall z :: z in init ==> z in ys;
      DedupeAbsorb(xs, init);
    }
  }

  /** Cutting twice at the same length is cutting once. */
  lemma TakeTakeAppend<T>(u: seq<T>, y: seq<T>, n: nat)
    ensures Take(Take(u, n) + y, n) == Take(u + y, n)
  {
    if n < |u| {
      assert (u[..n] + y)[..n] == u[..n];
      assert (u + y)[..n] == u[..n];
    }
  }

  /** When the filter keeps every element, each element passes. */
  lemma {:induction false} FilterFull<T>(xs: seq<T>, p: T -> bool, k: nat)
    requires |Filter(xs, p)| == |xs| && k < |xs|
    ensures p(xs[k])
    decreases |xs|
  {
    assert xs == [xs[0]] + xs[1..];
    FilterConcat([xs[0]], xs[1..], p);
    if k > 0 {
      FilterFull(xs[1..], p, k - 1);
    }
  }

  /** When the filter drops something, some element fails. */
  lemma {:induction false} FilterShort<T>(xs: seq<T>, p: T -> bool) returns (k: nat)
    requires |Filter(xs, p)| < |xs|
    ensures k < |xs| && !p(xs[k])
    decreases |xs|
  {
    assert xs == [xs[0]] + xs[1..];
    FilterConcat([xs[0]], xs[1..], p);
    if p(xs[0]) {
      var k' := FilterShort(xs[1..], p);
      k := k' + 1;
    } else {
      k := 0;
    }
  }

  /** A list has at least as many elements as distinct ones. */
  lemma {:induction false} SetOfSeqCard<T>(xs: seq<T>)
    ensures |set x | x in xs| <= |xs|
    decreases |xs|
  {
    if xs != [] {
      var t := xs[1..];
      SetOfSeqCard(t);
      assert (set x | x in xs) == (set x | x in t) + {xs[0]} by {
        assert xs == [xs[0]] + t;
      }
    }
  }

  /** A mean is at least any lower bound of the elements. */
  lemma MeanAtLeast(cs: seq<real>, lo: real)
    requires cs != [] && forall k :: 0 <= k < |cs| ==> cs[k] >= lo
    ensures Mean(cs) >= lo
  {
    SumBounds(cs, lo, Max(cs));
    DivAtLeast(Sum(cs), |cs| as real, lo);
  }

  lemma DivAtLeast(total: real, n: real, lo: real)
    requires n > 0.0 && total >= n * lo
    ensures total / n >= lo
  {
    assert (total / n) * n == total;
  }

  /** For a positive divisor: `total / n > c` exactly when `total > c·n`. */
  lemma DivAbove(total: real, n: real, c: real)
    requires n > 0.0
    ensures total / n > c <==> total > c * n
  {
    var q := total / n;
    assert q * n == total;
    if q > c {
      assert (q - c) * n > 0.0;
    } else {
      assert (c - q) * n >= 0.0;
    }
  }

  /** `[x for x in set(xs) if xs.count(x) > 1]`, as a set. */
  function Duplicates<T(==)>(xs: seq<T>): set<T> {
    set f | f in xs && multiset(xs)[f] > 1
  }

  /** A value is a duplicate exactly when two positions hold it. */
  lemma DuplicatesSpec<T>(xs: seq<T>)
    ensures Duplicates(xs) != {} <==> exists i, j :: 0 <= i < j < |xs| && xs[i] == xs[j]
  {
    if exists i, j :: 0 <= i < j < |xs| && xs[i] == xs[j] {
      var i, j :| 0 <= i < j < |xs| && xs[i] == xs[j];
      TwoPositionsCount(xs, i, j);
      assert xs[i] in Duplicates(xs);
    }
    if Duplicates(xs) != {} {
      var f :| f in Duplicates(xs);
      var i, j := CountTwoPositions(xs, f);
    }
  }

  /** Two positions holding `x` make `xs.count(x)` at least 2. */
  lemma TwoPositionsCount<T>(xs: seq<T>, i: nat, j: nat)
    requires i < j < |xs| && xs[i] == xs[j]
    ensures multiset(xs)[xs[i]] > 1
  {
    var front, back := xs[..j], xs[j..];
    assert xs == front + back;
    assert xs[i] == front[i];
    assert xs[j] == back[0];
    assert multiset(xs) == multiset(front) + multiset(back);
  }

  /** A count of at least 2 shows two positions holding the value. */
  lemma {:induction false} CountTwoPositions<T>(xs: seq<T>, x: T) returns (i: nat, j: nat)
    requires multiset(xs)[x] > 1
    ensures i < j < |xs| && xs[i] == x && xs[j] == x
    decreases |xs|
  {
    var h, t := xs[0], xs[1..];
    assert xs == [h] + t;
    assert multiset(xs) == multiset([h]) + multiset(t);
    if h == x {
      assert x in multiset(t);
      assert x in t;
      var k :| 0 <= k < |t| && t[k] == x;
      i, j := 0, k + 1;
    } else {
      var a, b := CountTwoPositions(t, x);
      i, j := a + 1, b + 1;
    }
  }
}
