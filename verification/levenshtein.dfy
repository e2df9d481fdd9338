/** Levenshtein edit distance: a recursive reference definition over prefixes, the
    row-by-row dynamic programme of `TextSimilarity.levenshtein_distance`, and the
    facts the fuzzy similarity relies on. */
module Levenshtein {

  function Min3(a: nat, b: nat, c: nat): (m: nat)
    ensures m <= a && m <= b && m <= c
    ensures m == a || m == b || m == c
  {
    if a <= b && a <= c then a else if b <= c then b else c
  }

  /** The edit distance between `a` and `b`, by the recurrence on their last characters. */
  function Distance(a: string, b: string): nat
    decreases |a| + |b|
  {
    if |a| == 0 then |b|
    else if |b| == 0 then |a|
    else
      Min3(Distance(a[..|a| - 1], b) + 1,
           Distance(a, b[..|b| - 1]) + 1,
           Distance(a[..|a| - 1], b[..|b| - 1]) + (if a[|a| - 1] != b[|b| - 1] then 1 else 0))
  }

  /** `levenshtein_distance(s1, s2)`: swaps so that the first argument is the longer,
      then fills one DP row per character of it. */
  method ComputeDistance(s1: string, s2: string) returns (d: nat)
    ensures d == Distance(s1, s2)
  {
    if |s1| < |s2| {
      d := RowDistance(s2, s1);
      DistanceSymmetric(s2, s1);
    } else {
      d := RowDistance(s1, s2);
    }
  }

  /** The loop body of `levenshtein_distance` for `len(s1) >= len(s2)`. */
  method RowDistance(s1: string, s2: string) returns (d: nat)
    ensures d == Distance(s1, s2)
  {
    if |s2| == 0 {
      return |s1|;
    }
    var previous: seq<nat> := seq(|s2| + 1, j requires 0 <= j <= |s2| => j);
    var i := 0;
    while i < |s1|
      invariant 0 <= i <= |s1|
      invariant |previous| == |s2| + 1
      invariant forall j :: 0 <= j <= |s2| ==> previous[j] == Distance(s1[..i], s2[..j])
    {
      previous := NextRow(s1, s2, i, previous);
      i := i + 1;
    }
    assert s1[..|s1|] == s1 && s2[..|s2|] == s2;
    d := previous[|s2|];
  }

  /** One pass of the inner loop: the DP row for `s1[..i + 1]` from the row for `s1[..i]`. */
  method NextRow(s1: string, s2: string, i: nat, previous: seq<nat>) returns (current: seq<nat>)
    requires i < |s1| && |previous| == |s2| + 1
    requires forall j :: 0 <= j <= |s2| ==> previous[j] == Distance(s1[..i], s2[..j])
    ensures |current| == |s2| + 1
    ensures forall j :: 0 <= j <= |s2| ==> current[j] == Distance(s1[..i + 1], s2[..j])
  {
    current := [i + 1];
    var j := 0;
    while j < |s2|
      invariant 0 <= j <= |s2|
      invariant |current| == j + 1
      invariant forall k :: 0 <= k <= j ==> current[k] == Distance(s1[..i + 1], s2[..k])
    {
      var insertions := previous[j + 1] + 1;
      var deletions := current[j] + 1;
      var substitutions := previous[j] + (if s1[i] != s2[j] then 1 else 0);
      DistanceStep(s1, s2, i, j);
      RowSnoc(s1[..i + 1], s2, j, current, Min3(insertions, deletions, substitutions));
      current := current + [Min3(insertions, deletions, substitutions)];
      j := j + 1;
    }
  }

  /** Appending the distance to the next prefix of `b` extends a partial DP row. */
  lemma RowSnoc(a: string, b: string, j: nat, row: seq<nat>, v: nat)
    requires j < |b| && |row| == j + 1
    requires forall k :: 0 <= k <= j ==> row[k] == Distance(a, b[..k])
    requires v == Distance(a, b[..j + 1])
    ensures forall k :: 0 <= k <= j + 1 ==> (row + [v])[k] == Distance(a, b[..k])
  {
  }

  /** The recurrence, read on prefixes of two fixed strings. */
  lemma DistanceStep(a: string, b: string, i: nat, j: nat)
    requires i < |a| && j < |b|
    ensures Distance(a[..i + 1], b[..j + 1])
         == Min3(Distance(a[..i], b[..j + 1]) + 1,
                 Distance(a[..i + 1], b[..j]) + 1,
                 Distance(a[..i], b[..j]) + (if a[i] != b[j] then 1 else 0))
  {
    assert a[..i + 1][..i] == a[..i];
    assert b[..j + 1][..j] == b[..j];
  }

  lemma {:induction false} DistanceSymmetric(a: string, b: string)
    ensures Distance(a, b) == Distance(b, a)
    decreases |a| + |b|
  {
    if |a| > 0 && |b| > 0 {
      DistanceSymmetric(a[..|a| - 1], b);
      DistanceSymmetric(a, b[..|b| - 1]);
      DistanceSymmetric(a[..|a| - 1], b[..|b| - 1]);
    }
  }

  /** No more edits than the longer string has characters. */
  lemma {:induction false} DistanceAtMostLonger(a: string, b: string)
    ensures Distance(a, b) <= if |a| >= |b| then |a| else |b|
    decreases |a| + |b|
  {
    if |a| > 0 && |b| > 0 {
      DistanceAtMostLonger(a[..|a| - 1], b[..|b| - 1]);
    }
  }

  /** At least the difference of the lengths; the distance to the empty string is the length. */
  lemma {:induction false} DistanceAtLeastGap(a: string, b: string)
    ensures Distance(a, b) >= (if |a| >= |b| then |a| - |b| else |b| - |a|)
    ensures Distance(a, []) == |a| && Distance([], b) == |b|
    decreases |a| + |b|
  {
    if |a| > 0 && |b| > 0 {
      DistanceAtLeastGap(a[..|a| - 1], b);
      DistanceAtLeastGap(a, b[..|b| - 1]);
      DistanceAtLeastGap(a[..|a| - 1], b[..|b| - 1]);
    }
  }

  /** Distance zero exactly for equal strings. */
  lemma {:induction false} DistanceZeroIff(a: string, b: string)
    ensures Distance(a, b) == 0 <==> a == b
    decreases |a| + |b|
  {
    if |a| > 0 && |b| > 0 {
      DistanceZeroIff(a[..|a| - 1], b[..|b| - 1]);
      if a == b {
        assert Distance(a[..|a| - 1], b[..|b| - 1]) == 0;
      }
      if Distance(a, b) == 0 {
        assert a == a[..|a| - 1] + [a[|a| - 1]];
        assert b == b[..|b| - 1] + [b[|b| - 1]];
      }
    }
  }
}
