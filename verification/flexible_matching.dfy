/** The matching side of the `FlexibleMatcher`: scored header pairs
    (`find_best_field_matches`), the weighted card similarity over the top pairs,
    the capped all-pairs card comparison and the `flexible_enhanced_matching`
    entry point the web route calls. */
module FlexibleMatching {
  import opened Seqs
  import opened Sorting
  import opened Strings
  import opened Rows
  import opened Wrappers
  import opened FlexibleText
  import FM = FieldMapper

  /** One `(field_a, field_b, total_score)` triple. */
  datatype FieldMatch = FieldMatch(fieldA: string, fieldB: string, score: real)

  function ScoreOf(m: FieldMatch): real {
    m.score
  }

  /** `if total_score > 0.3`. */
  predicate IsKept(m: FieldMatch) {
    m.score > 0.3
  }

  // ---------------------------------------------------------------------------
  // _calculate_content_similarity

  /** `str(row.get(field, '')).strip()` is truthy. */
  predicate IsPresent(v: string) {
    Strip(v) != ""
  }

  function RawValues(rows: seq<Row>, key: string): (r: seq<string>)
    ensures |r| == |rows| && forall i :: 0 <= i < |rows| ==> r[i] == Get(rows[i], key)
  {
    seq(|rows|, i requires 0 <= i < |rows| => Get(rows[i], key))
  }

  /** The unstripped present values of the first 20 rows. */
  function ContentSample(data: seq<Row>, field: string): seq<string> {
    Filter(RawValues(Take(data, 20), field), IsPresent)
  }

  /** The similarities of every pair, A-major. */
  function PairSims(p: Prims, xs: seq<string>, ys: seq<string>): (r: seq<real>)
    ensures ValidPrims(p) ==> forall k :: 0 <= k < |r| ==> 0.0 <= r[k] <= 1.0
    decreases |xs|
  {
    if xs == [] then []
    else seq(|ys|, j requires 0 <= j < |ys| => StringSimilarity(p, xs[0], ys[j])) + PairSims(p, xs[1..], ys)
  }

  /** `if sim > 0.1`. */
  predicate AboveTenth(s: real) {
    s > 0.1
  }

  /** `_calculate_content_similarity`: the mean of the pair similarities above 0.1
      over the first ten present values of each side. */
  function ContentSimilarity(p: Prims, fa: string, fb: string, da: seq<Row>, db: seq<Row>): real {
    var sa := ContentSample(da, fa);
    var sb := ContentSample(db, fb);
    if sa == [] || sb == [] then 0.0
    else
      var sims := Filter(PairSims(p, Take(sa, 10), Take(sb, 10)), AboveTenth);
      if sims == [] then 0.0 else Mean(sims)
  }

  /** The content similarity is 0 without present values on either side, and is
      otherwise either 0 or a value in (0.1, 1]: low pair scores are dropped, not
      averaged in. */
  lemma ContentSimilaritySpec(p: Prims, fa: string, fb: string, da: seq<Row>, db: seq<Row>)
    requires ValidPrims(p)
    ensures var r := ContentSimilarity(p, fa, fb, da, db);
      (ContentSample(da, fa) == [] || ContentSample(db, fb) == [] ==> r == 0.0)
      && (r == 0.0 || 0.1 < r <= 1.0)
  {
    var sa := ContentSample(da, fa);
    var sb := ContentSample(db, fb);
    if sa != [] && sb != [] {
      var sims := Filter(PairSims(p, Take(sa, 10), Take(sb, 10)), AboveTenth);
      if sims != [] {
        var lo := Min(sims);
        MeanAtLeast(sims, lo);
      }
    }
  }

  // ---------------------------------------------------------------------------
  // find_best_field_matches

  /** `importance.get(field, 0.5)`. */
  function ImportanceOr(m: map<string, real>, f: string): real {
    if f in m then m[f] else 0.5
  }

  /** `total_score` of one header pair. */
  function PairScore(p: Prims, impA: map<string, real>, impB: map<string, real>, fa: string, fb: string,
                     da: seq<Row>, db: seq<Row>): real
  {
    StringSimilarity(p, fa, fb) * 0.4 + ContentSimilarity(p, fa, fb, da, db) * 0.4
    + ((ImportanceOr(impA, fa) + ImportanceOr(impB, fb)) / 2.0) * 0.2
  }

  function Candidates(p: Prims, impA: map<string, real>, impB: map<string, real>, da: seq<Row>, db: seq<Row>,
                      pairs: seq<(string, string)>): (r: seq<FieldMatch>)
    ensures |r| == |pairs|
    ensures forall k :: 0 <= k < |pairs| ==>
      r[k] == FieldMatch(pairs[k].0, pairs[k].1, PairScore(p, impA, impB, pairs[k].0, pairs[k].1, da, db))
  {
    seq(|pairs|, k requires 0 <= k < |pairs| =>
      FieldMatch(pairs[k].0, pairs[k].1, PairScore(p, impA, impB, pairs[k].0, pairs[k].1, da, db)))
  }

  /** The sorted pairs and the matcher's stored field types afterwards. */
  datatype FieldMatchResult = FieldMatchResult(matches: seq<FieldMatch>, fieldTypes: map<string, FieldType>)

  /** The two importance analyses of `find_best_field_matches`: A with the stored
      types as they were, B with the types A's analysis stored. */
  function ImportanceA(types: map<string, FieldType>, ha: seq<string>, da: seq<Row>): ImportanceResult {
    AnalyzeFieldImportance(ha, da, types != map[])
  }

  function ImportanceB(types: map<string, FieldType>, ha: seq<string>, hb: seq<string>, da: seq<Row>, db: seq<Row>)
    : ImportanceResult
  {
    AnalyzeFieldImportance(hb, db, TypesAfter(types, ImportanceA(types, ha, da)) != map[])
  }

  /** `find_best_field_matches`: every header pair scored, those above 0.3 kept,
      stably sorted by score, highest first. */
  function FindBestFieldMatches(p: Prims, types: map<string, FieldType>, ha: seq<string>, hb: seq<string>,
                                da: seq<Row>, db: seq<Row>): FieldMatchResult
  {
    var ia := ImportanceA(types, ha, da);
    var ib := ImportanceB(types, ha, hb, da, db);
    var cands := Candidates(p, ia.scores, ib.scores, da, db, FM.Cross(ha, hb));
    FieldMatchResult(SortDesc(Filter(cands, IsKept), ScoreOf), StoredTypes(types, ha, hb, da, db))
  }

  /** The matcher's stored field types after both analyses. */
  function StoredTypes(types: map<string, FieldType>, ha: seq<string>, hb: seq<string>, da: seq<Row>, db: seq<Row>)
    : map<string, FieldType>
  {
    TypesAfter(TypesAfter(types, ImportanceA(types, ha, da)), ImportanceB(types, ha, hb, da, db))
  }

  /** Every component of a pair score lies in [0, 1] and the importances in
      [0.15, 0.97], so the score does too. */
  lemma PairScoreUnit(p: Prims, types: map<string, FieldType>, ha: seq<string>, hb: seq<string>,
                      da: seq<Row>, db: seq<Row>, fa: string, fb: string)
    requires ValidPrims(p)
    ensures 0.0 <= PairScore(p, ImportanceA(types, ha, da).scores, ImportanceB(types, ha, hb, da, db).scores,
                             fa, fb, da, db) <= 1.0
  {
    var ia := ImportanceA(types, ha, da);
    var ib := ImportanceB(types, ha, hb, da, db);
    AnalyzeFieldImportanceSpec(ha, da, types != map[], fa);
    AnalyzeFieldImportanceSpec(hb, db, TypesAfter(types, ia) != map[], fb);
    ContentSimilaritySpec(p, fa, fb, da, db);
  }

  /** The result is sorted by score, highest first, and holds a triple exactly when
      its fields are headers of the two sides and its score is that pair's score
      and above 0.3; with a valid library every score is at most 1. */
  lemma FindBestFieldMatchesSpec(p: Prims, types: map<string, FieldType>, ha: seq<string>, hb: seq<string>,
                                 da: seq<Row>, db: seq<Row>, m: FieldMatch)
    ensures SortedDesc(FindBestFieldMatches(p, types, ha, hb, da, db).matches, ScoreOf)
    ensures m in FindBestFieldMatches(p, types, ha, hb, da, db).matches <==>
      m.fieldA in ha && m.fieldB in hb && m.score > 0.3
      && m.score == PairScore(p, ImportanceA(types, ha, da).scores, ImportanceB(types, ha, hb, da, db).scores,
                              m.fieldA, m.fieldB, da, db)
    ensures ValidPrims(p) && m in FindBestFieldMatches(p, types, ha, hb, da, db).matches ==> m.score <= 1.0
  {
    var ia := ImportanceA(types, ha, da);
    var ib := ImportanceB(types, ha, hb, da, db);
    var pairs := FM.Cross(ha, hb);
    var cands := Candidates(p, ia.scores, ib.scores, da, db, pairs);
    var kept := Filter(cands, IsKept);
    var sorted := SortDesc(kept, ScoreOf);
    assert m in sorted <==> m in kept by {
      assert multiset(sorted) == multiset(kept);
      assert m in sorted <==> m in multiset(sorted);
      assert m in kept <==> m in multiset(kept);
    }
    FM.CrossIn(ha, hb, m.fieldA, m.fieldB);
    if m in kept {
      var k :| 0 <= k < |cands| && cands[k] == m;
      assert pairs[k] == (m.fieldA, m.fieldB);
      assert pairs[k] in pairs;
    }
    if m.fieldA in ha && m.fieldB in hb && m.score > 0.3
       && m.score == PairScore(p, ia.scores, ib.scores, m.fieldA, m.fieldB, da, db) {
      var k :| 0 <= k < |pairs| && pairs[k] == (m.fieldA, m.fieldB);
      assert cands[k] == m;
    }
    if ValidPrims(p) {
      PairScoreUnit(p, types, ha, hb, da, db, m.fieldA, m.fieldB);
    }
  }

  /** A fresh matcher analyses side A without the extra serial check; side B has it
      exactly when side A had data and headers. The types stored afterwards, which
      turn it on for side A of the next call, are non-empty exactly when side B had
      data and headers, or side B had no data and side A had both: side B with data
      but no headers clears them. */
  lemma StoredTypesSwitchSerialCheck(ha: seq<string>, hb: seq<string>, da: seq<Row>, db: seq<Row>)
    ensures TypesAfter(map[], ImportanceA(map[], ha, da)) != map[] <==> da != [] && ha != []
    ensures StoredTypes(map[], ha, hb, da, db) != map[] <==>
      (db != [] && hb != []) || (db == [] && da != [] && ha != [])
  {
    TypesAfterSpec(map[], ha, da, false);
    var t1 := TypesAfter(map[], ImportanceA(map[], ha, da));
    TypesAfterSpec(t1, hb, db, t1 != map[]);
  }

  // ---------------------------------------------------------------------------
  // _calculate_card_similarity and _build_similarity_details

  /** The weighted sum and the weight total over the pairs both cards fill. */
  function Weighted(p: Prims, ca: Row, cb: Row, fms: seq<FieldMatch>): (r: (real, real))
    ensures ValidPrims(p) && (forall k :: 0 <= k < |fms| ==> fms[k].score > 0.0) ==> 0.0 <= r.0 <= r.1
    decreases |fms|
  {
    if fms == [] then (0.0, 0.0)
    else
      var rest := Weighted(p, ca, cb, fms[1..]);
      var m := fms[0];
      var va := CellValue(ca, m.fieldA);
      var vb := CellValue(cb, m.fieldB);
      if va != "" && vb != "" then
        var sim := StringSimilarity(p, va, vb);
        (Scaled(sim, m.score) + rest.0, m.score + rest.1)
      else rest
  }

  /** One similarity weighed by its field match score. */
  function Scaled(sim: real, w: real): (t: real)
    ensures 0.0 <= sim <= 1.0 && w > 0.0 ==> 0.0 <= t <= w
    ensures sim == 1.0 ==> t == w
  {
    ScaledBounds(sim, w);
    sim * w
  }

  lemma ScaledBounds(sim: real, w: real)
    ensures 0.0 <= sim <= 1.0 && w > 0.0 ==> 0.0 <= sim * w <= w
  {
  }

  /** `_calculate_card_similarity`: the weighted mean of the field similarities,
      0 when no listed pair is filled on both cards. */
  function CardSimilarity(p: Prims, ca: Row, cb: Row, fms: seq<FieldMatch>): real {
    var w := Weighted(p, ca, cb, fms);
    if w.1 > 0.0 then w.0 / w.1 else 0.0
  }

  /** With positive weights the card similarity lies in [0, 1], and it is 0 when no
      listed pair is filled on both cards. */
  lemma CardSimilaritySpec(p: Prims, ca: Row, cb: Row, fms: seq<FieldMatch>)
    requires forall k :: 0 <= k < |fms| ==> fms[k].score > 0.0
    ensures ValidPrims(p) ==> 0.0 <= CardSimilarity(p, ca, cb, fms) <= 1.0
    ensures (forall k :: 0 <= k < |fms| ==> CellValue(ca, fms[k].fieldA) == "" || CellValue(cb, fms[k].fieldB) == "")
      ==> CardSimilarity(p, ca, cb, fms) == 0.0
  {
    var w := Weighted(p, ca, cb, fms);
    if ValidPrims(p) && w.1 > 0.0 {
      RealRatio(w.0, w.1);
    }
    if forall k :: 0 <= k < |fms| ==> CellValue(ca, fms[k].fieldA) == "" || CellValue(cb, fms[k].fieldB) == "" {
      WeightedUnfilled(p, ca, cb, fms);
    }
  }

  /** No pair filled on both cards: nothing is weighed. */
  lemma {:induction false} WeightedUnfilled(p: Prims, ca: Row, cb: Row, fms: seq<FieldMatch>)
    requires forall k :: 0 <= k < |fms| ==> CellValue(ca, fms[k].fieldA) == "" || CellValue(cb, fms[k].fieldB) == ""
    ensures Weighted(p, ca, cb, fms) == (0.0, 0.0)
    decreases |fms|
  {
    if fms != [] {
      var t := fms[1..];
      assert forall k :: 0 <= k < |t| ==> t[k] == fms[k + 1];
      WeightedUnfilled(p, ca, cb, t);
    }
  }

  /** The weight half of `Weighted`: the scores of the pairs both cards fill. */
  function WeightTotal(ca: Row, cb: Row, fms: seq<FieldMatch>): real
    decreases |fms|
  {
    if fms == [] then 0.0
    else
      (if CellValue(ca, fms[0].fieldA) != "" && CellValue(cb, fms[0].fieldB) != "" then fms[0].score else 0.0)
      + WeightTotal(ca, cb, fms[1..])
  }

  lemma {:induction false} WeightedTotal(p: Prims, ca: Row, cb: Row, fms: seq<FieldMatch>)
    ensures Weighted(p, ca, cb, fms).1 == WeightTotal(ca, cb, fms)
    decreases |fms|
  {
    if fms != [] {
      WeightedTotal(p, ca, cb, fms[1..]);
    }
  }

  /** A pair filled on both cards with a positive weight makes the weight total
      positive. */
  lemma WeightedFilled(p: Prims, ca: Row, cb: Row, fms: seq<FieldMatch>, k: nat)
    requires forall i :: 0 <= i < |fms| ==> fms[i].score > 0.0
    requires k < |fms| && CellValue(ca, fms[k].fieldA) != "" && CellValue(cb, fms[k].fieldB) != ""
    ensures Weighted(p, ca, cb, fms).1 > 0.0
  {
    WeightedTotal(p, ca, cb, fms);
    WeightTotalFilled(ca, cb, fms, k);
  }

  lemma {:induction false} WeightTotalFilled(ca: Row, cb: Row, fms: seq<FieldMatch>, k: nat)
    requires forall i :: 0 <= i < |fms| ==> fms[i].score > 0.0
    requires k < |fms| && CellValue(ca, fms[k].fieldA) != "" && CellValue(cb, fms[k].fieldB) != ""
    ensures WeightTotal(ca, cb, fms) > 0.0
    decreases |fms|
  {
    var t := fms[1..];
    assert forall i :: 0 <= i < |t| ==> t[i] == fms[i + 1];
    WeightTotalNonNegative(ca, cb, t);
    if k > 0 {
      WeightTotalFilled(ca, cb, t, k - 1);
    }
  }

  lemma {:induction false} WeightTotalNonNegative(ca: Row, cb: Row, fms: seq<FieldMatch>)
    requires forall i :: 0 <= i < |fms| ==> fms[i].score > 0.0
    ensures WeightTotal(ca, cb, fms) >= 0.0
    decreases |fms|
  {
    if fms != [] {
      var t := fms[1..];
      assert forall i :: 0 <= i < |t| ==> t[i] == fms[i + 1];
      WeightTotalNonNegative(ca, cb, t);
    }
  }

  /** Every filled pair agreeing on its value gives weighted sum equal to the weight. */
  lemma {:induction false} WeightedAgreeing(p: Prims, ca: Row, cb: Row, fms: seq<FieldMatch>)
    requires forall k :: 0 <= k < |fms| ==> CellValue(ca, fms[k].fieldA) == CellValue(cb, fms[k].fieldB)
    ensures Weighted(p, ca, cb, fms).0 == Weighted(p, ca, cb, fms).1
    decreases |fms|
  {
    if fms != [] {
      var t := fms[1..];
      assert forall k :: 0 <= k < |t| ==> t[k] == fms[k + 1];
      WeightedAgreeing(p, ca, cb, t);
      var m := fms[0];
      if CellValue(ca, m.fieldA) != "" && CellValue(cb, m.fieldB) != "" {
        StringSimilaritySpec(p, CellValue(ca, m.fieldA), CellValue(cb, m.fieldB));
      }
    }
  }

  /** Two cards that agree on every listed pair, with one pair filled, score 1. */
  lemma AgreeingCardsScoreOne(p: Prims, ca: Row, cb: Row, fms: seq<FieldMatch>, k: nat)
    requires forall i :: 0 <= i < |fms| ==> fms[i].score > 0.0
    requires forall i :: 0 <= i < |fms| ==> CellValue(ca, fms[i].fieldA) == CellValue(cb, fms[i].fieldB)
    requires k < |fms| && CellValue(ca, fms[k].fieldA) != ""
    ensures CardSimilarity(p, ca, cb, fms) == 1.0
  {
    WeightedAgreeing(p, ca, cb, fms);
    WeightedFilled(p, ca, cb, fms, k);
    var w := Weighted(p, ca, cb, fms);
    RatioOne(w.0, w.1);
  }

  lemma RatioOne(a: real, b: real)
    requires a == b && b > 0.0
    ensures a / b == 1.0
  {
  }

  /** One entry of `similarity_details`. */
  datatype SimilarityDetail = SimilarityDetail(fieldA: string, fieldB: string, valueA: string, valueB: string,
                                               similarity: real, weight: real)

  /** The details of the pairs both cards fill, in list order. */
  function DetailsOver(p: Prims, ca: Row, cb: Row, fms: seq<FieldMatch>): (r: seq<SimilarityDetail>)
    ensures |r| <= |fms|
    ensures forall d :: d in r ==>
      d.valueA == CellValue(ca, d.fieldA) != "" && d.valueB == CellValue(cb, d.fieldB) != ""
      && d.similarity == StringSimilarity(p, d.valueA, d.valueB)
      && FieldMatch(d.fieldA, d.fieldB, d.weight) in fms
    decreases |fms|
  {
    if fms == [] then []
    else
      var m := fms[0];
      var va := CellValue(ca, m.fieldA);
      var vb := CellValue(cb, m.fieldB);
      var rest := DetailsOver(p, ca, cb, fms[1..]);
      assert forall x :: x in fms[1..] ==> x in fms;
      (if va != "" && vb != "" then [SimilarityDetail(m.fieldA, m.fieldB, va, vb, StringSimilarity(p, va, vb), m.score)]
       else [])
      + rest
  }

  /** `_build_similarity_details`: at most three, from the first three pairs. */
  function BuildSimilarityDetails(p: Prims, ca: Row, cb: Row, fms: seq<FieldMatch>): (r: seq<SimilarityDetail>)
    ensures |r| <= 3
    ensures forall d :: d in r ==> FieldMatch(d.fieldA, d.fieldB, d.weight) in Take(fms, 3)
  {
    DetailsOver(p, ca, cb, Take(fms, 3))
  }

  // ---------------------------------------------------------------------------
  // flexible_card_matching

  /** `max_comparisons` by default. */
  const MaxComparisons: nat := 10000

  /** One matched pair; `rowA` and `rowB` are CSV line numbers (index + 2). */
  datatype FlexMatch = FlexMatch(cardA: Row, cardB: Row, rowA: nat, rowB: nat, similarity: real,
                                 fieldMatchesUsed: seq<FieldMatch>, details: seq<SimilarityDetail>)

  function MinNat(a: nat, b: nat): nat {
    if a <= b then a else b
  }

  /** How many pairs the capped loops compare. */
  function ComparedCount(na: nat, nb: nat, cap: nat): nat {
    MinNat(cap, na * nb)
  }

  /** Row `i` of A against every row of B. */
  function RowPairs(i: nat, nb: nat): (r: seq<(nat, nat)>)
    ensures |r| == nb && forall j :: 0 <= j < nb ==> r[j] == (i, j)
  {
    seq(nb, j requires 0 <= j < nb => (i, j))
  }

  /** The pairs of the first `na` rows of A, A-major: the order of the two loops. */
  function AllPairs(na: nat, nb: nat): seq<(nat, nat)>
    decreases na
  {
    if na == 0 then [] else AllPairs(na - 1, nb) + RowPairs(na - 1, nb)
  }

  lemma {:induction false} AllPairsLength(na: nat, nb: nat)
    ensures |AllPairs(na, nb)| == na * nb
    decreases na
  {
    if na > 0 {
      AllPairsLength(na - 1, nb);
      assert (na - 1) * nb + nb == na * nb;
    }
  }

  lemma {:induction false} AllPairsIn(na: nat, nb: nat, i: nat, j: nat)
    ensures (i, j) in AllPairs(na, nb) <==> i < na && j < nb
    decreases na
  {
    if na > 0 {
      AllPairsIn(na - 1, nb, i, j);
      if i == na - 1 && j < nb {
        assert RowPairs(na - 1, nb)[j] == (i, j);
      }
    }
  }

  /** A shorter run of the outer loop is a prefix of a longer one. */
  lemma {:induction false} AllPairsPrefix(a: nat, b: nat, nb: nat)
    requires a <= b
    ensures |AllPairs(a, nb)| <= |AllPairs(b, nb)|
    ensures AllPairs(a, nb) == AllPairs(b, nb)[..|AllPairs(a, nb)|]
    decreases b
  {
    if a < b {
      AllPairsPrefix(a, b - 1, nb);
      var prev := AllPairs(b - 1, nb);
      var cur := AllPairs(a, nb);
      assert AllPairs(b, nb) == prev + RowPairs(b - 1, nb);
      assert AllPairs(b, nb)[..|cur|] == prev[..|cur|];
    }
  }

  /** Pairs that are strictly A-major: by A row, then by B row. */
  predicate LexBefore(x: (nat, nat), y: (nat, nat)) {
    x.0 < y.0 || (x.0 == y.0 && x.1 < y.1)
  }

  predicate LexSorted(prs: seq<(nat, nat)>) {
    forall x, y :: 0 <= x < y < |prs| ==> LexBefore(prs[x], prs[y])
  }

  lemma {:induction false} AllPairsSorted(na: nat, nb: nat)
    ensures LexSorted(AllPairs(na, nb))
    ensures forall k :: 0 <= k < |AllPairs(na, nb)| ==> AllPairs(na, nb)[k].0 < na
    decreases na
  {
    if na > 0 {
      AllPairsSorted(na - 1, nb);
    }
  }

  /** The record for rows `i` and `j`. */
  function Record(p: Prims, top: seq<FieldMatch>, da: seq<Row>, db: seq<Row>, i: nat, j: nat): FlexMatch
    requires i < |da| && j < |db|
  {
    FlexMatch(da[i], db[j], i + 2, j + 2, CardSimilarity(p, da[i], db[j], top), Take(top, 3),
              BuildSimilarityDetails(p, da[i], db[j], top))
  }

  /** Whether the compared pair `pr` is kept. */
  predicate IsMatchPair(p: Prims, threshold: real, top: seq<FieldMatch>, da: seq<Row>, db: seq<Row>,
                        pr: (nat, nat))
  {
    pr.0 < |da| && pr.1 < |db| && CardSimilarity(p, da[pr.0], db[pr.1], top) >= threshold
  }

  /** The records of the kept pairs among `prs`, in order. */
  function MatchesOf(p: Prims, threshold: real, top: seq<FieldMatch>, da: seq<Row>, db: seq<Row>,
                     prs: seq<(nat, nat)>): seq<FlexMatch>
    decreases |prs|
  {
    if prs == [] then []
    else
      var pr := prs[|prs| - 1];
      MatchesOf(p, threshold, top, da, db, prs[..|prs| - 1])
      + (if IsMatchPair(p, threshold, top, da, db, pr) then [Record(p, top, da, db, pr.0, pr.1)] else [])
  }

  /** The five best pairs of `find_best_field_matches`. */
  function TopFieldMatches(p: Prims, types: map<string, FieldType>, ha: seq<string>, hb: seq<string>,
                           da: seq<Row>, db: seq<Row>): seq<FieldMatch>
  {
    Take(FindBestFieldMatches(p, types, ha, hb, da, db).matches, 5)
  }

  /** What the loops of `flexible_card_matching` compare: the first `cap` pairs of
      the A-major order. */
  function ComparedPairs(na: nat, nb: nat, cap: nat): seq<(nat, nat)> {
    Take(AllPairs(na, nb), cap)
  }

  /** One more pair of the current row extends the compared prefix. */
  lemma PrefixStep(na: nat, nb: nat, i: nat, j: nat, done: seq<(nat, nat)>)
    requires i < na && j < nb
    requires done == AllPairs(i, nb) + RowPairs(i, nb)[..j]
    ensures done + [(i, j)] == Take(AllPairs(na, nb), |done| + 1)
    ensures done + [(i, j)] == AllPairs(i, nb) + RowPairs(i, nb)[..j + 1]
  {
    RowStep(i, nb, j);
    AllPairsPrefix(i + 1, na, nb);
    PrefixOfRow(AllPairs(i, nb), RowPairs(i, nb), j, AllPairs(i + 1, nb));
  }

  lemma RowStep(i: nat, nb: nat, j: nat)
    requires j < nb
    ensures RowPairs(i, nb)[..j + 1] == RowPairs(i, nb)[..j] + [(i, j)]
  {
    var row := RowPairs(i, nb);
    assert row[..j + 1] == row[..j] + [row[j]];
  }

  lemma PrefixOfRow<T>(front: seq<T>, row: seq<T>, j: nat, full: seq<T>)
    requires j < |row| && full == front + row
    ensures front + row[..j + 1] == full[..|front| + j + 1]
  {
  }

  /** The inner loop of `flexible_card_matching` for A row `i`, entered with the
      pairs of the earlier rows compared and below the cap. */
  method CompareRow(p: Prims, threshold: real, top: seq<FieldMatch>, da: seq<Row>, db: seq<Row>,
                    maxComparisons: nat, i: nat, ghost done0: seq<(nat, nat)>, matches0: seq<FlexMatch>,
                    compared0: nat)
    returns (ghost done: seq<(nat, nat)>, matches: seq<FlexMatch>, compared: nat)
    requires i < |da|
    requires compared0 == |done0| < maxComparisons
    requires done0 == Take(AllPairs(|da|, |db|), compared0) == AllPairs(i, |db|)
    requires matches0 == MatchesOf(p, threshold, top, da, db, done0)
    ensures compared0 <= compared <= maxComparisons && compared == |done|
    ensures done == Take(AllPairs(|da|, |db|), compared)
    ensures compared < maxComparisons ==> Take(AllPairs(|da|, |db|), compared) == AllPairs(i + 1, |db|)
    ensures matches == MatchesOf(p, threshold, top, da, db, Take(AllPairs(|da|, |db|), compared))
  {
    var nb := |db|;
    done, matches, compared := done0, matches0, compared0;
    var j := 0;
    RowProgressStart(|da|, nb, i, maxComparisons, compared, done);
    while j < nb
      invariant 0 <= j <= nb
      invariant RowProgress(|da|, nb, i, j, maxComparisons, compared, done)
      invariant matches == MatchesOf(p, threshold, top, da, db, done)
    {
      if compared >= maxComparisons {
        break;
      }
      RowProgressStep(|da|, nb, i, j, maxComparisons, compared, done);
      done, matches := ComparePair(p, threshold, top, da, db, i, j, done, matches);
      compared := compared + 1;
      j := j + 1;
    }
    RowProgressEnd(|da|, nb, i, j, maxComparisons, compared, done);
  }

  /** The state of the inner loop after comparing the first `j` rows of B with A
      row `i`: the compared pairs are a prefix of all pairs, and below the cap they
      are the earlier rows' pairs and row `i`'s first `j`. */
  predicate RowProgress(na: nat, nb: nat, i: nat, j: nat, cap: nat, compared: nat, done: seq<(nat, nat)>)
    requires j <= nb
  {
    && compared == |done| <= cap
    && done == Take(AllPairs(na, nb), compared)
    && (compared < cap ==> done == AllPairs(i, nb) + RowPairs(i, nb)[..j])
  }

  lemma RowProgressStart(na: nat, nb: nat, i: nat, cap: nat, compared: nat, done: seq<(nat, nat)>)
    requires compared == |done| < cap
    requires done == Take(AllPairs(na, nb), compared) == AllPairs(i, nb)
    ensures RowProgress(na, nb, i, 0, cap, compared, done)
  {
    assert AllPairs(i, nb) + RowPairs(i, nb)[..0] == AllPairs(i, nb);
  }

  lemma RowProgressStep(na: nat, nb: nat, i: nat, j: nat, cap: nat, compared: nat, done: seq<(nat, nat)>)
    requires i < na && j < nb && compared < cap
    requires RowProgress(na, nb, i, j, cap, compared, done)
    ensures RowProgress(na, nb, i, j + 1, cap, compared + 1, done + [(i, j)])
  {
    PrefixStep(na, nb, i, j, done);
  }

  lemma RowProgressEnd(na: nat, nb: nat, i: nat, j: nat, cap: nat, compared: nat, done: seq<(nat, nat)>)
    requires j <= nb && (j == nb || compared >= cap)
    requires RowProgress(na, nb, i, j, cap, compared, done)
    ensures compared == |done| <= cap
    ensures done == Take(AllPairs(na, nb), compared)
    ensures compared < cap ==> done == AllPairs(i + 1, nb)
  {
    assert RowPairs(i, nb)[..nb] == RowPairs(i, nb);
  }

  /** The body of the inner loop: compare rows `i` and `j`, keeping the record when
      the card similarity reaches the threshold. */
  method ComparePair(p: Prims, threshold: real, top: seq<FieldMatch>, da: seq<Row>, db: seq<Row>, i: nat, j: nat,
                     ghost done0: seq<(nat, nat)>, matches0: seq<FlexMatch>)
    returns (ghost done: seq<(nat, nat)>, matches: seq<FlexMatch>)
    requires i < |da| && j < |db|
    requires matches0 == MatchesOf(p, threshold, top, da, db, done0)
    ensures done == done0 + [(i, j)]
    ensures matches == MatchesOf(p, threshold, top, da, db, done0 + [(i, j)])
  {
    MatchesSnoc(p, threshold, top, da, db, done0, (i, j));
    matches := matches0;
    if CardSimilarity(p, da[i], db[j], top) >= threshold {
      matches := matches + [Record(p, top, da, db, i, j)];
    }
    done := done0 + [(i, j)];
  }

  lemma MatchesSnoc(p: Prims, threshold: real, top: seq<FieldMatch>, da: seq<Row>, db: seq<Row>,
                    prs: seq<(nat, nat)>, pr: (nat, nat))
    requires pr.0 < |da| && pr.1 < |db|
    ensures MatchesOf(p, threshold, top, da, db, prs + [pr])
         == MatchesOf(p, threshold, top, da, db, prs)
            + (if CardSimilarity(p, da[pr.0], db[pr.1], top) >= threshold then [Record(p, top, da, db, pr.0, pr.1)] else [])
  {
    assert (prs + [pr])[..|prs|] == prs;
  }

  /** The two loops of `flexible_card_matching`: every pair in A-major order until
      `maxComparisons` pairs are compared, keeping those whose card similarity over
      `top` reaches the threshold. */
  method CompareCards(p: Prims, threshold: real, top: seq<FieldMatch>, da: seq<Row>, db: seq<Row>,
                      maxComparisons: nat)
    returns (matches: seq<FlexMatch>, compared: nat)
    ensures compared == ComparedCount(|da|, |db|, maxComparisons)
    ensures matches == MatchesOf(p, threshold, top, da, db, ComparedPairs(|da|, |db|, maxComparisons))
  {
    var nb := |db|;
    ghost var done: seq<(nat, nat)> := [];
    matches := [];
    compared := 0;
    var i := 0;
    while i < |da|
      invariant 0 <= i <= |da|
      invariant compared == |done| <= maxComparisons
      invariant done == Take(AllPairs(|da|, nb), compared)
      invariant compared < maxComparisons ==> done == AllPairs(i, nb)
      invariant matches == MatchesOf(p, threshold, top, da, db, done)
    {
      if compared >= maxComparisons {
        break;
      }
      done, matches, compared := CompareRow(p, threshold, top, da, db, maxComparisons, i, done, matches, compared);
      i := i + 1;
    }
    CapReached(|da|, nb, maxComparisons, compared, done);
  }

  /** When the loops stop, either every pair or the first `cap` pairs were compared. */
  lemma CapReached(na: nat, nb: nat, cap: nat, compared: nat, done: seq<(nat, nat)>)
    requires compared == |done| <= cap && done == Take(AllPairs(na, nb), compared)
    requires compared < cap ==> done == AllPairs(na, nb)
    ensures compared == ComparedCount(na, nb, cap) && done == ComparedPairs(na, nb, cap)
  {
    AllPairsLength(na, nb);
  }

  /** `flexible_card_matching` on a matcher with threshold `threshold` and stored
      field types `types`: it returns the matches, the number of comparisons made
      and the stored types afterwards. */
  method FlexibleCardMatching(p: Prims, threshold: real, types: map<string, FieldType>, da: seq<Row>, db: seq<Row>,
                              ha: seq<string>, hb: seq<string>, maxComparisons: nat)
    returns (matches: seq<FlexMatch>, compared: nat, typesAfter: map<string, FieldType>)
    ensures compared == ComparedCount(|da|, |db|, maxComparisons)
    ensures matches == MatchesOf(p, threshold, TopFieldMatches(p, types, ha, hb, da, db), da, db,
                                 ComparedPairs(|da|, |db|, maxComparisons))
    ensures typesAfter == FindBestFieldMatches(p, types, ha, hb, da, db).fieldTypes
  {
    var res := FindBestFieldMatches(p, types, ha, hb, da, db);
    typesAfter := res.fieldTypes;
    matches, compared := CompareCards(p, threshold, Take(res.matches, 5), da, db, maxComparisons);
  }

  /** Every match is a compared pair of rows whose card similarity reaches the
      threshold, recorded with its line numbers. */
  lemma {:induction false} MatchesSound(p: Prims, threshold: real, top: seq<FieldMatch>, da: seq<Row>, db: seq<Row>,
                                        prs: seq<(nat, nat)>, m: FlexMatch)
    requires m in MatchesOf(p, threshold, top, da, db, prs)
    ensures 2 <= m.rowA < |da| + 2 && 2 <= m.rowB < |db| + 2
    ensures (m.rowA - 2, m.rowB - 2) in prs
    ensures m.cardA == da[m.rowA - 2] && m.cardB == db[m.rowB - 2]
    ensures m.similarity == CardSimilarity(p, m.cardA, m.cardB, top) >= threshold
    decreases |prs|
  {
    var init := prs[..|prs| - 1];
    if m in MatchesOf(p, threshold, top, da, db, init) {
      MatchesSound(p, threshold, top, da, db, init, m);
      assert forall x :: x in init ==> x in prs;
    } else {
      var pr := prs[|prs| - 1];
      LastPairMatch(p, threshold, top, da, db, prs, m);
      assert pr in prs;
    }
  }

  /** A match not found among the earlier pairs is the record of the last pair. */
  lemma LastPairMatch(p: Prims, threshold: real, top: seq<FieldMatch>, da: seq<Row>, db: seq<Row>,
                      prs: seq<(nat, nat)>, m: FlexMatch)
    requires prs != []
    requires m in MatchesOf(p, threshold, top, da, db, prs)
    requires m !in MatchesOf(p, threshold, top, da, db, prs[..|prs| - 1])
    ensures IsMatchPair(p, threshold, top, da, db, prs[|prs| - 1])
    ensures m == Record(p, top, da, db, prs[|prs| - 1].0, prs[|prs| - 1].1)
  {
  }

  /** Every compared pair whose card similarity reaches the threshold is a match. */
  lemma {:induction false} MatchesComplete(p: Prims, threshold: real, top: seq<FieldMatch>, da: seq<Row>,
                                           db: seq<Row>, prs: seq<(nat, nat)>, i: nat, j: nat)
    requires (i, j) in prs && i < |da| && j < |db|
    requires CardSimilarity(p, da[i], db[j], top) >= threshold
    ensures Record(p, top, da, db, i, j) in MatchesOf(p, threshold, top, da, db, prs)
    decreases |prs|
  {
    var init := prs[..|prs| - 1];
    if prs[|prs| - 1] != (i, j) {
      assert prs == init + [prs[|prs| - 1]];
      assert (i, j) in init;
      MatchesComplete(p, threshold, top, da, db, init, i, j);
    }
  }

  /** Records in strictly A-major order of their line numbers. */
  predicate RecordsLexSorted(ms: seq<FlexMatch>) {
    forall x, y :: 0 <= x < y < |ms| ==> LexBefore((ms[x].rowA, ms[x].rowB), (ms[y].rowA, ms[y].rowB))
  }

  /** Matches of A-major pairs come in A-major order of their line numbers. */
  lemma {:induction false} MatchesOrdered(p: Prims, threshold: real, top: seq<FieldMatch>, da: seq<Row>,
                                          db: seq<Row>, prs: seq<(nat, nat)>)
    requires LexSorted(prs)
    ensures RecordsLexSorted(MatchesOf(p, threshold, top, da, db, prs))
    decreases |prs|
  {
    if prs != [] {
      var init := prs[..|prs| - 1];
      var last := prs[|prs| - 1];
      assert LexSorted(init);
      MatchesOrdered(p, threshold, top, da, db, init);
      var prev := MatchesOf(p, threshold, top, da, db, init);
      forall x | 0 <= x < |prev|
        ensures LexBefore((prev[x].rowA, prev[x].rowB), (last.0 + 2, last.1 + 2))
      {
        MatchBeforeLast(p, threshold, top, da, db, prs, x);
      }
      var extra := if IsMatchPair(p, threshold, top, da, db, last) then [Record(p, top, da, db, last.0, last.1)] else [];
      assert MatchesOf(p, threshold, top, da, db, prs) == prev + extra;
      SortedSnoc(prev, extra, last.0 + 2, last.1 + 2);
    }
  }

  /** Every match of the earlier pairs comes before the last pair. */
  lemma MatchBeforeLast(p: Prims, threshold: real, top: seq<FieldMatch>, da: seq<Row>, db: seq<Row>,
                        prs: seq<(nat, nat)>, x: nat)
    requires LexSorted(prs) && prs != []
    requires x < |MatchesOf(p, threshold, top, da, db, prs[..|prs| - 1])|
    ensures var m := MatchesOf(p, threshold, top, da, db, prs[..|prs| - 1])[x];
            LexBefore((m.rowA, m.rowB), (prs[|prs| - 1].0 + 2, prs[|prs| - 1].1 + 2))
  {
    var init := prs[..|prs| - 1];
    var prev := MatchesOf(p, threshold, top, da, db, init);
    assert prev[x] in prev;
    MatchesSound(p, threshold, top, da, db, init, prev[x]);
    var k :| 0 <= k < |init| && init[k] == (prev[x].rowA - 2, prev[x].rowB - 2);
    assert LexBefore(prs[k], prs[|prs| - 1]);
  }

  /** Appending at most one record that comes after all others keeps the order. */
  lemma SortedSnoc(prev: seq<FlexMatch>, extra: seq<FlexMatch>, ra: nat, rb: nat)
    requires RecordsLexSorted(prev) && |extra| <= 1
    requires forall x :: 0 <= x < |prev| ==> LexBefore((prev[x].rowA, prev[x].rowB), (ra, rb))
    requires forall x :: 0 <= x < |extra| ==> extra[x].rowA == ra && extra[x].rowB == rb
    ensures RecordsLexSorted(prev + extra)
  {
    var ms := prev + extra;
    forall x, y | 0 <= x < y < |ms|
      ensures LexBefore((ms[x].rowA, ms[x].rowB), (ms[y].rowA, ms[y].rowB))
    {
      if y < |prev| {
        assert ms[x] == prev[x] && ms[y] == prev[y];
      } else {
        assert ms[x] == prev[x] && ms[y] == extra[0];
      }
    }
  }

  /** The compared pairs are A-major, and when the cap does not bite they are every
      pair of rows. */
  lemma ComparedPairsSpec(na: nat, nb: nat, cap: nat, i: nat, j: nat)
    ensures LexSorted(ComparedPairs(na, nb, cap))
    ensures |ComparedPairs(na, nb, cap)| == ComparedCount(na, nb, cap)
    ensures na * nb <= cap ==> ((i, j) in ComparedPairs(na, nb, cap) <==> i < na && j < nb)
  {
    AllPairsSorted(na, nb);
    AllPairsLength(na, nb);
    AllPairsIn(na, nb, i, j);
  }

  // ---------------------------------------------------------------------------
  // flexible_enhanced_matching

  /** The `enhanced_mappings` dict (the strategy name is a constant, not stored). */
  datatype EnhancedMappings = EnhancedMappings(flexibleFieldMappings: seq<FieldMatch>, similarityThreshold: real,
                                               totalComparisons: nat, matchCount: nat)

  /** `max_sample_size` by default, and the threshold the entry point sets. */
  const MaxSampleSize: nat := 100
  const EnhancedThreshold: real := 0.7

  /** `flexible_enhanced_matching`: both inputs cut to `maxSample` rows, card
      matching on a fresh matcher, then a second `find_best_field_matches` on the
      same matcher for the reported mappings. */
  method FlexibleEnhancedMatching(p: Prims, dataA: seq<Row>, dataB: seq<Row>, ha: seq<string>, hb: seq<string>,
                                  maxSample: int)
    returns (matches: seq<FlexMatch>, em: EnhancedMappings)
    ensures var da, db := Prefix(dataA, maxSample), Prefix(dataB, maxSample);
      && matches == MatchesOf(p, EnhancedThreshold, TopFieldMatches(p, map[], ha, hb, da, db), da, db,
                              ComparedPairs(|da|, |db|, MaxComparisons))
      && em.flexibleFieldMappings
         == Take(FindBestFieldMatches(p, FindBestFieldMatches(p, map[], ha, hb, da, db).fieldTypes,
                                      ha, hb, da, db).matches, 10)
      && em.totalComparisons == |da| * |db| && em.matchCount == |matches|
      && em.similarityThreshold == EnhancedThreshold
  {
    var da := Prefix(dataA, maxSample);
    var db := Prefix(dataB, maxSample);
    var compared, types;
    matches, compared, types := FlexibleCardMatching(p, EnhancedThreshold, map[], da, db, ha, hb, MaxComparisons);
    var second := FindBestFieldMatches(p, types, ha, hb, da, db);
    em := EnhancedMappings(Take(second.matches, 10), EnhancedThreshold, |da| * |db|, |matches|);
  }

  /** With the default sample size at most 100 rows per side remain, so the
      10000-comparison cap never bites and the reported total is the number of
      pairs actually compared. */
  lemma DefaultSampleComparesAll(dataA: seq<Row>, dataB: seq<Row>, maxSample: int)
    requires 0 <= maxSample <= MaxSampleSize
    ensures var da, db := Prefix(dataA, maxSample), Prefix(dataB, maxSample);
      ComparedCount(|da|, |db|, MaxComparisons) == |da| * |db|
  {
    var na, nb := |Prefix(dataA, maxSample)|, |Prefix(dataB, maxSample)|;
    ProductAtMost(na, nb, MaxSampleSize);
  }

  /** A negative sample size is not a bound: `data[:-1]` keeps all rows but the
      last, so with 200 rows a side 199 * 199 pairs remain, and the
      10000-comparison cap stops the loops before they are done. */
  lemma NegativeSampleHitsCap(dataA: seq<Row>, dataB: seq<Row>)
    requires |dataA| == 200 && |dataB| == 200
    ensures var da, db := Prefix(dataA, -1), Prefix(dataB, -1);
      && da == dataA[..199] && db == dataB[..199]
      && ComparedCount(|da|, |db|, MaxComparisons) == MaxComparisons < |da| * |db|
  {
  }

  lemma ProductAtMost(a: nat, b: nat, c: nat)
    requires a <= c && b <= c
    ensures a * b <= c * c
  {
    assert a * b <= c * b;
    assert c * b <= c * c;
  }

  /** The reported mappings are at most ten, sorted, each above 0.3. */
  lemma EnhancedMappingsSpec(p: Prims, types: map<string, FieldType>, ha: seq<string>, hb: seq<string>,
                             da: seq<Row>, db: seq<Row>)
    ensures var top := Take(FindBestFieldMatches(p, types, ha, hb, da, db).matches, 10);
      |top| <= 10 && SortedDesc(top, ScoreOf) && forall k :: 0 <= k < |top| ==> top[k].score > 0.3
  {
    var all := FindBestFieldMatches(p, types, ha, hb, da, db).matches;
    var top := Take(all, 10);
    FindBestFieldMatchesSpec(p, types, ha, hb, da, db, FieldMatch("", "", 0.0));
    forall k | 0 <= k < |top|
      ensures top[k].score > 0.3
    {
      assert top[k] == all[k];
      FindBestFieldMatchesSpec(p, types, ha, hb, da, db, all[k]);
    }
  }
}
