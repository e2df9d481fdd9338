/** The greedy one-to-one reduction of `_remove_duplicate_matches`: scan the matches
    in order and keep one exactly when neither of its row indices belongs to a match
    already kept. The brute-force variant first sorts by score, descending and stably. */
module Dedup {
  import opened Sorting

  /** How a match names its A-side and B-side rows (`row_a_index`, `row_b_index`). */
  datatype Keys<!T> = Keys(a: T -> nat, b: T -> nat)

  /** `m` shares a row index with some match of `kept`. */
  predicate Conflicts<T(==)>(k: Keys<T>, m: T, kept: seq<T>) {
    exists r :: r in kept && (k.a(r) == k.a(m) || k.b(r) == k.b(m))
  }

  /** The reference scan: the matches kept from `ms`, in input order. */
  function Greedy<T(==)>(k: Keys<T>, ms: seq<T>): seq<T>
    decreases |ms|
  {
    if ms == [] then []
    else
      var prev := Greedy(k, ms[..|ms| - 1]);
      var m := ms[|ms| - 1];
      if Conflicts(k, m, prev) then prev else prev + [m]
  }

  /** No two matches share an A-side or a B-side row. */
  predicate OneToOne<T>(k: Keys<T>, xs: seq<T>) {
    forall i, j :: 0 <= i < j < |xs| ==> k.a(xs[i]) != k.a(xs[j]) && k.b(xs[i]) != k.b(xs[j])
  }

  /** `xs` is `ys` with some elements left out, the rest in their order. */
  predicate SubList<T(==)>(xs: seq<T>, ys: seq<T>)
    decreases |ys|
  {
    if xs == [] then true
    else if ys == [] then false
    else (xs[|xs| - 1] == ys[|ys| - 1] && SubList(xs[..|xs| - 1], ys[..|ys| - 1]))
         || SubList(xs, ys[..|ys| - 1])
  }

  lemma {:induction false} SubListIn<T>(xs: seq<T>, ys: seq<T>)
    requires SubList(xs, ys)
    ensures forall x :: x in xs ==> x in ys
    decreases |ys|
  {
    if xs != [] {
      var ys' := ys[..|ys| - 1];
      if xs[|xs| - 1] == ys[|ys| - 1] && SubList(xs[..|xs| - 1], ys') {
        SubListIn(xs[..|xs| - 1], ys');
        assert xs == xs[..|xs| - 1] + [xs[|xs| - 1]];
        assert ys == ys' + [ys[|ys| - 1]];
      } else {
        SubListIn(xs, ys');
        assert ys == ys' + [ys[|ys| - 1]];
      }
    }
  }

  /** A sub-list of a list sorted by descending key is sorted too. */
  lemma {:induction false} SubListSorted<T>(xs: seq<T>, ys: seq<T>, key: T -> real)
    requires SubList(xs, ys) && SortedDesc(ys, key)
    ensures SortedDesc(xs, key)
    decreases |ys|
  {
    if xs != [] {
      var ys' := ys[..|ys| - 1];
      assert SortedDesc(ys', key);
      if xs[|xs| - 1] == ys[|ys| - 1] && SubList(xs[..|xs| - 1], ys') {
        var xs' := xs[..|xs| - 1];
        SubListSorted(xs', ys', key);
        SubListIn(xs', ys');
        forall i, j | 0 <= i < j < |xs|
          ensures key(xs[i]) >= key(xs[j])
        {
          if j == |xs| - 1 {
            assert xs[i] == xs'[i];
            assert xs'[i] in ys';
            var p :| 0 <= p < |ys'| && ys'[p] == xs'[i];
            assert ys[p] == xs[i];
          } else {
            assert xs[i] == xs'[i] && xs[j] == xs'[j];
          }
        }
      } else {
        SubListSorted(xs, ys', key);
      }
    }
  }

  /** The scan keeps a one-to-one sub-list of its input, and it is maximal: every
      input match shares a row with a kept one (a kept match with itself). */
  lemma {:induction false} GreedySpec<T>(k: Keys<T>, ms: seq<T>)
    ensures SubList(Greedy(k, ms), ms)
    ensures OneToOne(k, Greedy(k, ms))
    ensures forall i :: 0 <= i < |ms| ==> Conflicts(k, ms[i], Greedy(k, ms))
    decreases |ms|
  {
    if ms != [] {
      var init := ms[..|ms| - 1];
      var prev := Greedy(k, init);
      var m := ms[|ms| - 1];
      GreedySpec(k, init);
      var r := Greedy(k, ms);
      if Conflicts(k, m, prev) {
        assert r == prev;
        assert SubList(prev, ms);
      } else {
        assert r == prev + [m];
        assert r[..|r| - 1] == prev;
        assert SubList(r, ms);
        forall i, j | 0 <= i < j < |r|
          ensures k.a(r[i]) != k.a(r[j]) && k.b(r[i]) != k.b(r[j])
        {
          if j == |r| - 1 {
            assert r[i] in prev;
          } else {
            assert r[i] == prev[i] && r[j] == prev[j];
          }
        }
      }
      forall i | 0 <= i < |ms|
        ensures Conflicts(k, ms[i], r)
      {
        if i < |ms| - 1 {
          assert ms[i] == init[i];
          var w :| w in prev && (k.a(w) == k.a(ms[i]) || k.b(w) == k.b(ms[i]));
          assert w in r;
        } else if !Conflicts(k, m, prev) {
          assert r[|r| - 1] == m;
          assert m in r;
        } else {
          var w :| w in prev && (k.a(w) == k.a(m) || k.b(w) == k.b(m));
          assert w in r;
        }
      }
    }
  }

  /** A list that is already one-to-one loses nothing. */
  lemma {:induction false} GreedyKeepsOneToOne<T>(k: Keys<T>, ms: seq<T>)
    requires OneToOne(k, ms)
    ensures Greedy(k, ms) == ms
    decreases |ms|
  {
    if ms != [] {
      var init := ms[..|ms| - 1];
      var m := ms[|ms| - 1];
      forall i, j | 0 <= i < j < |init|
        ensures k.a(init[i]) != k.a(init[j]) && k.b(init[i]) != k.b(init[j])
      {
        assert init[i] == ms[i] && init[j] == ms[j];
      }
      GreedyKeepsOneToOne(k, init);
      forall w | w in init
        ensures k.a(w) != k.a(m) && k.b(w) != k.b(m)
      {
        var p :| 0 <= p < |init| && init[p] == w;
        assert ms[p] == w && p < |ms| - 1;
      }
      assert !Conflicts(k, m, init);
      assert Greedy(k, ms) == Greedy(k, init) + [m];
      assert init + [m] == ms;
    }
  }

  /** `_remove_duplicate_matches`: the used-index loop computes the reference scan. */
  method RemoveDuplicates<T(==)>(k: Keys<T>, ms: seq<T>) returns (unique: seq<T>)
    ensures unique == Greedy(k, ms)
    ensures SubList(unique, ms) && OneToOne(k, unique)
    ensures forall i :: 0 <= i < |ms| ==> Conflicts(k, ms[i], unique)
  {
    var usedA: set<nat> := {};
    var usedB: set<nat> := {};
    unique := [];
    var i := 0;
    while i < |ms|
      invariant 0 <= i <= |ms|
      invariant unique == Greedy(k, ms[..i])
      invariant usedA == set r | r in unique :: k.a(r)
      invariant usedB == set r | r in unique :: k.b(r)
    {
      var m := ms[i];
      assert ms[..i + 1][..i] == ms[..i];
      assert ms[..i + 1][i] == m;
      if k.a(m) !in usedA && k.b(m) !in usedB {
        assert !Conflicts(k, m, unique);
        unique := unique + [m];
        usedA := usedA + {k.a(m)};
        usedB := usedB + {k.b(m)};
      } else {
        assert Conflicts(k, m, unique);
      }
      i := i + 1;
    }
    assert ms[..|ms|] == ms;
    GreedySpec(k, ms);
  }

  /** The scan over the matches stably sorted by descending score keeps a list
      ordered by score, one-to-one, drawn from the input, and every input match
      shares a row with a kept one. */
  lemma GreedyByScoreSpec<T>(k: Keys<T>, score: T -> real, ms: seq<T>)
    ensures SortedDesc(Greedy(k, SortDesc(ms, score)), score) && OneToOne(k, Greedy(k, SortDesc(ms, score)))
    ensures forall x :: x in Greedy(k, SortDesc(ms, score)) ==> x in ms
    ensures forall x :: x in ms ==> Conflicts(k, x, Greedy(k, SortDesc(ms, score)))
  {
    var sorted := SortDesc(ms, score);
    var unique := Greedy(k, sorted);
    GreedySpec(k, sorted);
    SubListSorted(unique, sorted, score);
    SubListIn(unique, sorted);
    forall x | x in unique
      ensures x in ms
    {
      assert x in multiset(sorted);
    }
    forall x | x in ms
      ensures Conflicts(k, x, unique)
    {
      assert x in multiset(sorted);
      var p :| 0 <= p < |sorted| && sorted[p] == x;
    }
  }

  /** `_remove_duplicate_matches_brute_force`: the used-index loop over the matches
      stably sorted by descending score. */
  method RemoveDuplicatesByScore<T(==)>(k: Keys<T>, score: T -> real, ms: seq<T>) returns (unique: seq<T>)
    ensures unique == Greedy(k, SortDesc(ms, score))
    ensures SortedDesc(unique, score) && OneToOne(k, unique)
    ensures forall x :: x in unique ==> x in ms
    ensures forall x :: x in ms ==> Conflicts(k, x, unique)
  {
    unique := RemoveDuplicates(k, SortDesc(ms, score));
    GreedyByScoreSpec(k, score, ms);
  }
}
