/** The nested `for card_a in data_a: for card_b in data_b:` scan shared by the
    matchers that keep every qualifying pair: the index pairs `(i, j)` accepted by
    `keep`, in A-major order, with no one-to-one reduction. */
module Pairing {

  /** `(i, j)` strictly precedes `(k, l)` in the A-major scan. */
  predicate Before(p: (nat, nat), q: (nat, nat)) {
    p.0 < q.0 || (p.0 == q.0 && p.1 < q.1)
  }

  predicate ScanOrdered(ps: seq<(nat, nat)>) {
    forall x, y :: 0 <= x < y < |ps| ==> Before(ps[x], ps[y])
  }

  /** The accepted pairs of row `i` among the first `m` columns. */
  function RowPairs(i: nat, m: nat, keep: (nat, nat) -> bool): (ps: seq<(nat, nat)>)
    ensures forall x :: 0 <= x < |ps| ==> ps[x].0 == i && ps[x].1 < m && keep(ps[x].0, ps[x].1)
    ensures forall j: nat :: j < m && keep(i, j) ==> (i, j) in ps
    ensures ScanOrdered(ps)
  {
    if m == 0 then []
    else
      var rest := RowPairs(i, m - 1, keep);
      rest + (if keep(i, m - 1) then [(i, m - 1)] else [])
  }

  /** The accepted pairs among the first `n` rows and `m` columns, A-major. */
  function CrossPairs(n: nat, m: nat, keep: (nat, nat) -> bool): (ps: seq<(nat, nat)>)
    ensures forall x :: 0 <= x < |ps| ==> ps[x].0 < n && ps[x].1 < m && keep(ps[x].0, ps[x].1)
    ensures forall i: nat, j: nat :: i < n && j < m && keep(i, j) ==> (i, j) in ps
    ensures ScanOrdered(ps)
  {
    if n == 0 then []
    else
      var front := CrossPairs(n - 1, m, keep);
      var last := RowPairs(n - 1, m, keep);
      assert forall x, y :: 0 <= x < |front| && 0 <= y < |last| ==> Before(front[x], last[y]);
      front + last
  }
}
