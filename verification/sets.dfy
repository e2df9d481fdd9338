/** Set ratios: the Jaccard index `len(a & b) / len(a | b)` used for word sets,
    bigram sets and value sets, with the cardinality facts behind its bounds. */
module Sets {

  lemma {:induction false} SubsetCard<T>(a: set<T>, b: set<T>)
    requires a <= b
    ensures |a| <= |b|
    ensures |a| == |b| ==> a == b
    decreases |b|
  {
    if b != {} {
      var x :| x in b;
      if x in a {
        SubsetCard(a - {x}, b - {x});
        assert a == (a - {x}) + {x};
        assert b == (b - {x}) + {x};
      } else {
        SubsetCard(a, b - {x});
      }
    }
  }

  lemma RatioFacts(p: nat, q: nat)
    requires 0 < q && p <= q
    ensures 0.0 <= (p as real) / (q as real) <= 1.0
    ensures (p as real) / (q as real) == 1.0 <==> p == q
    ensures (p as real) / (q as real) == 0.0 <==> p == 0
  {
    var r := (p as real) / (q as real);
    assert r * (q as real) == p as real;
  }

  /** `len(a & b) / len(a | b)`, and 0 when either set is empty. */
  function Jaccard<T>(a: set<T>, b: set<T>): real {
    if a == {} || b == {} then 0.0 else (|a * b| as real) / (|a + b| as real)
  }

  lemma JaccardFacts<T>(a: set<T>, b: set<T>)
    ensures 0.0 <= Jaccard(a, b) <= 1.0
    ensures Jaccard(a, b) == Jaccard(b, a)
    ensures Jaccard(a, b) == 1.0 <==> a != {} && a == b
    ensures Jaccard(a, b) == 0.0 <==> a == {} || b == {} || a * b == {}
  {
    assert a * b == b * a && a + b == b + a;
    if a != {} && b != {} {
      SubsetCard(a * b, a + b);
      var x :| x in a;
      assert x in a + b;
      RatioFacts(|a * b|, |a + b|);
      if a == b {
        assert a * b == a + b;
      }
      if |a * b| == |a + b| {
        assert a * b == a + b;
        assert a == b;
      }
    }
  }
}
