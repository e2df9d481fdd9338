/** The brute-force matcher `CardMatcher`. Every column of a row is compared with
    every column of the other row; the row pair is scored from the recorded field
    matches; each A row keeps its best B row above 0.6; the kept pairs are reduced
    greedily to a one-to-one list by descending score; and the field matches seen
    across all compared pairs are summarised as column correlations. The pipeline
    is stated for any comparison of two rows, so the hybrid matcher reuses it. */
module BruteForce {
  import opened Chars
  import opened Strings
  import opened Seqs
  import opened Sorting
  import opened Wrappers
  import opened Rows
  import opened Dedup
  import opened BruteForceScoring
  import opened FieldCorrelations
  import TS = TextSimilarity

  // ---------------------------------------------------------------------------
  // identify_card_name_fields and identify_price_fields

  const NamePatterns: seq<string> :=
    ["カード名", "名前", "名称", "name", "card_name", "title", "product_name",
     "item_name", "カードタイトル", "アイテム名", "プロダクト名", "カード", "card"]

  const PricePatterns: seq<string> :=
    ["価格", "値段", "price", "金額", "amount", "cost", "buy_price", "sell_price",
     "販売価格", "買取価格", "税込", "税抜", "yen", "円", "料金"]

  /** Either the pattern or the header, both lower-cased, contains the other. */
  predicate NameLike(header: string) {
    exists k :: 0 <= k < |NamePatterns| &&
      (Contains(Lower(header), Lower(NamePatterns[k])) || Contains(Lower(NamePatterns[k]), Lower(header)))
  }

  /** The lower-cased header contains a lower-cased price pattern. */
  predicate PriceLike(header: string) {
    exists k :: 0 <= k < |PricePatterns| && Contains(Lower(header), Lower(PricePatterns[k]))
  }

  /** `identify_card_name_fields`: the name-like headers in order, or the first
      three headers when there are none. */
  function IdentifyCardNameFields(headers: seq<string>): (r: seq<string>)
    ensures (exists h :: h in headers && NameLike(h)) ==> forall h :: h in r <==> h in headers && NameLike(h)
    ensures (forall h :: h in headers ==> !NameLike(h)) ==> r == Take(headers, 3)
  {
    var found := Filter(headers, NameLike);
    if found != [] then
      assert found[0] in headers && NameLike(found[0]);
      found
    else
      Take(headers, 3)
  }

  /** `identify_price_fields`: the price-like headers in order, possibly none. */
  function IdentifyPriceFields(headers: seq<string>): (r: seq<string>)
    ensures forall h :: h in r <==> h in headers && PriceLike(h)
    ensures |r| <= |headers|
  {
    Filter(headers, PriceLike)
  }

  /** The two-way test lets an empty header through: it is contained in every pattern. */
  lemma EmptyHeaderIsNameLike()
    ensures NameLike("")
  {
    ContainsEmpty(Lower(NamePatterns[0]));
    assert Lower("") == "";
  }

  // ---------------------------------------------------------------------------
  // _compare_all_fields

  /** The similarity dict of two cell values. */
  type SimsOf = (string, string) -> Sims

  /** Both values survive the length-2 filter and their best similarity exceeds 0.5. */
  predicate Recorded(sims: SimsOf, va: string, vb: string) {
    |va| >= 2 && |vb| >= 2 && MaxSim(sims(va, vb)) > 0.5
  }

  function MakeFieldMatch(sims: SimsOf, fa: string, fb: string, va: string, vb: string): FieldMatch {
    var s := sims(va, vb);
    FieldMatch(fa, fb, va, vb, MaxSim(s), Some(s), Classify(s))
  }

  /** The inner loop for one A column with value `va`. */
  function CompareColumn(sims: SimsOf, fa: string, va: string, rowB: Row, hb: seq<string>): seq<FieldMatch>
    decreases |hb|
  {
    if hb == [] then []
    else
      var vb := CellValue(rowB, hb[0]);
      var rest := CompareColumn(sims, fa, va, rowB, hb[1..]);
      if Recorded(sims, va, vb) then [MakeFieldMatch(sims, fa, hb[0], va, vb)] + rest else rest
  }

  /** `_compare_all_fields`, A columns outermost. */
  function CompareAllFields(sims: SimsOf, rowA: Row, rowB: Row, ha: seq<string>, hb: seq<string>): seq<FieldMatch>
    decreases |ha|
  {
    if ha == [] then []
    else
      var va := CellValue(rowA, ha[0]);
      (if |va| < 2 then [] else CompareColumn(sims, ha[0], va, rowB, hb))
      + CompareAllFields(sims, rowA, rowB, ha[1..], hb)
  }

  /** `fm` is the match the comparison records for columns `fa` and `fb`. */
  predicate RecordedFor(sims: SimsOf, rowA: Row, rowB: Row, fa: string, fb: string, fm: FieldMatch) {
    var va := CellValue(rowA, fa);
    var vb := CellValue(rowB, fb);
    Recorded(sims, va, vb) && fm == MakeFieldMatch(sims, fa, fb, va, vb)
  }

  /** Every match of `r` is recorded for column `fa` and one of `hb`. */
  predicate ColumnSound(sims: SimsOf, rowA: Row, rowB: Row, fa: string, hb: seq<string>, r: seq<FieldMatch>) {
    forall k :: 0 <= k < |r| ==>
      r[k].fieldA == fa && r[k].fieldB in hb && RecordedFor(sims, rowA, rowB, fa, r[k].fieldB, r[k])
  }

  /** Every column of `hb` whose value passes with `va` has its match in `r`. */
  predicate ColumnComplete(sims: SimsOf, fa: string, va: string, rowB: Row, hb: seq<string>, r: seq<FieldMatch>) {
    forall j :: 0 <= j < |hb| && Recorded(sims, va, CellValue(rowB, hb[j])) ==>
      MakeFieldMatch(sims, fa, hb[j], va, CellValue(rowB, hb[j])) in r
  }

  lemma {:induction false} CompareColumnSound(sims: SimsOf, fa: string, va: string, rowA: Row, rowB: Row, hb: seq<string>)
    requires va == CellValue(rowA, fa)
    ensures ColumnSound(sims, rowA, rowB, fa, hb, CompareColumn(sims, fa, va, rowB, hb))
    decreases |hb|
  {
    if hb != [] {
      CompareColumnSound(sims, fa, va, rowA, rowB, hb[1..]);
      var vb := CellValue(rowB, hb[0]);
      var rest := CompareColumn(sims, fa, va, rowB, hb[1..]);
      var r := CompareColumn(sims, fa, va, rowB, hb);
      forall k | 0 <= k < |rest|
        ensures rest[k].fieldB in hb
      {
        assert rest[k].fieldB in hb[1..];
      }
      if Recorded(sims, va, vb) {
        assert r == [MakeFieldMatch(sims, fa, hb[0], va, vb)] + rest;
        forall k | 0 <= k < |r|
          ensures r[k].fieldA == fa && r[k].fieldB in hb && RecordedFor(sims, rowA, rowB, fa, r[k].fieldB, r[k])
        {
          if k > 0 {
            assert r[k] == rest[k - 1];
          }
        }
      } else {
        assert r == rest;
      }
    }
  }

  lemma {:induction false} CompareColumnComplete(sims: SimsOf, fa: string, va: string, rowB: Row, hb: seq<string>)
    ensures ColumnComplete(sims, fa, va, rowB, hb, CompareColumn(sims, fa, va, rowB, hb))
    decreases |hb|
  {
    if hb != [] {
      CompareColumnComplete(sims, fa, va, rowB, hb[1..]);
      var r := CompareColumn(sims, fa, va, rowB, hb);
      var rest := CompareColumn(sims, fa, va, rowB, hb[1..]);
      assert forall x :: x in rest ==> x in r;
      forall j | 0 <= j < |hb| && Recorded(sims, va, CellValue(rowB, hb[j]))
        ensures MakeFieldMatch(sims, fa, hb[j], va, CellValue(rowB, hb[j])) in r
      {
        if j > 0 {
          assert hb[j] == hb[1..][j - 1];
        }
      }
    }
  }

  /** Every match of `r` is the one recorded for a column of `ha` and one of `hb`. */
  predicate FieldsSound(sims: SimsOf, rowA: Row, rowB: Row, ha: seq<string>, hb: seq<string>, r: seq<FieldMatch>) {
    forall k :: 0 <= k < |r| ==>
      r[k].fieldA in ha && r[k].fieldB in hb && RecordedFor(sims, rowA, rowB, r[k].fieldA, r[k].fieldB, r[k])
  }

  /** Every column pair whose values pass the filters has its match in `r`. */
  predicate FieldsComplete(sims: SimsOf, rowA: Row, rowB: Row, ha: seq<string>, hb: seq<string>, r: seq<FieldMatch>) {
    forall i, j ::
      0 <= i < |ha| && 0 <= j < |hb| && Recorded(sims, CellValue(rowA, ha[i]), CellValue(rowB, hb[j])) ==>
      MakeFieldMatch(sims, ha[i], hb[j], CellValue(rowA, ha[i]), CellValue(rowB, hb[j])) in r
  }

  /** Soundness and completeness: every recorded match is the one its two columns
      produce, and every column pair whose values pass the filters is recorded. */
  lemma CompareAllFieldsSpec(sims: SimsOf, rowA: Row, rowB: Row, ha: seq<string>, hb: seq<string>)
    ensures FieldsSound(sims, rowA, rowB, ha, hb, CompareAllFields(sims, rowA, rowB, ha, hb))
    ensures FieldsComplete(sims, rowA, rowB, ha, hb, CompareAllFields(sims, rowA, rowB, ha, hb))
  {
    CompareAllFieldsSound(sims, rowA, rowB, ha, hb);
    CompareAllFieldsComplete(sims, rowA, rowB, ha, hb);
  }

  lemma {:induction false} CompareAllFieldsSound(sims: SimsOf, rowA: Row, rowB: Row, ha: seq<string>, hb: seq<string>)
    ensures FieldsSound(sims, rowA, rowB, ha, hb, CompareAllFields(sims, rowA, rowB, ha, hb))
    decreases |ha|
  {
    if ha != [] {
      var va := CellValue(rowA, ha[0]);
      var here := if |va| < 2 then [] else CompareColumn(sims, ha[0], va, rowB, hb);
      var rest := CompareAllFields(sims, rowA, rowB, ha[1..], hb);
      CompareColumnSound(sims, ha[0], va, rowA, rowB, hb);
      ColumnSoundInFields(sims, rowA, rowB, ha[0], ha, hb, here);
      CompareAllFieldsSound(sims, rowA, rowB, ha[1..], hb);
      FieldsSoundWiden(sims, rowA, rowB, ha[1..], ha, hb, rest);
      FieldsSoundAppend(sims, rowA, rowB, ha, hb, here, rest);
      assert CompareAllFields(sims, rowA, rowB, ha, hb) == here + rest;
    }
  }

  lemma ColumnSoundInFields(sims: SimsOf, rowA: Row, rowB: Row, fa: string, ha: seq<string>, hb: seq<string>, r: seq<FieldMatch>)
    requires fa in ha && ColumnSound(sims, rowA, rowB, fa, hb, r)
    ensures FieldsSound(sims, rowA, rowB, ha, hb, r)
  {
  }

  lemma FieldsSoundWiden(sims: SimsOf, rowA: Row, rowB: Row, ha': seq<string>, ha: seq<string>, hb: seq<string>, r: seq<FieldMatch>)
    requires (forall f :: f in ha' ==> f in ha) && FieldsSound(sims, rowA, rowB, ha', hb, r)
    ensures FieldsSound(sims, rowA, rowB, ha, hb, r)
  {
  }

  lemma FieldsSoundAppend(sims: SimsOf, rowA: Row, rowB: Row, ha: seq<string>, hb: seq<string>, x: seq<FieldMatch>, y: seq<FieldMatch>)
    requires FieldsSound(sims, rowA, rowB, ha, hb, x) && FieldsSound(sims, rowA, rowB, ha, hb, y)
    ensures FieldsSound(sims, rowA, rowB, ha, hb, x + y)
  {
    forall k | 0 <= k < |x + y|
      ensures (x + y)[k].fieldA in ha && (x + y)[k].fieldB in hb
              && RecordedFor(sims, rowA, rowB, (x + y)[k].fieldA, (x + y)[k].fieldB, (x + y)[k])
    {
      if k >= |x| {
        assert (x + y)[k] == y[k - |x|];
      }
    }
  }

  lemma {:induction false} CompareAllFieldsComplete(sims: SimsOf, rowA: Row, rowB: Row, ha: seq<string>, hb: seq<string>)
    ensures FieldsComplete(sims, rowA, rowB, ha, hb, CompareAllFields(sims, rowA, rowB, ha, hb))
    decreases |ha|
  {
    if ha != [] {
      var va := CellValue(rowA, ha[0]);
      var here := if |va| < 2 then [] else CompareColumn(sims, ha[0], va, rowB, hb);
      var rest := CompareAllFields(sims, rowA, rowB, ha[1..], hb);
      CompareColumnComplete(sims, ha[0], va, rowB, hb);
      CompareAllFieldsComplete(sims, rowA, rowB, ha[1..], hb);
      var r := CompareAllFields(sims, rowA, rowB, ha, hb);
      assert r == here + rest;
      forall i, j | 0 <= i < |ha| && 0 <= j < |hb| && Recorded(sims, CellValue(rowA, ha[i]), CellValue(rowB, hb[j]))
        ensures MakeFieldMatch(sims, ha[i], hb[j], CellValue(rowA, ha[i]), CellValue(rowB, hb[j])) in r
      {
        if i > 0 {
          assert ha[i] == ha[1..][i - 1];
        }
      }
    }
  }

  /** Best similarities that never exceed 1. */
  ghost predicate SimsBounded(sims: SimsOf) {
    forall a, b :: MaxSim(sims(a, b)) <= 1.0
  }

  /** Every recorded similarity lies in (0.5, 1]. */
  lemma CompareAllFieldsInUnit(sims: SimsOf, rowA: Row, rowB: Row, ha: seq<string>, hb: seq<string>, fm: FieldMatch)
    requires SimsBounded(sims)
    requires fm in CompareAllFields(sims, rowA, rowB, ha, hb)
    ensures 0.5 < fm.similarity <= 1.0
  {
    CompareAllFieldsSpec(sims, rowA, rowB, ha, hb);
    var r := CompareAllFields(sims, rowA, rowB, ha, hb);
    var k :| 0 <= k < |r| && r[k] == fm;
    assert RecordedFor(sims, rowA, rowB, fm.fieldA, fm.fieldB, fm);
  }

  /** The measures of the similarity toolkit, with `float()` left as a parameter. */
  function LibraryMeasures(parseFloat: string -> Option<real>): Measures {
    Measures(TS.FuzzySimilarity, TS.PartialSimilarity, parseFloat)
  }

  lemma LibraryMeasuresValid(parseFloat: string -> Option<real>)
    ensures ValidMeasures(LibraryMeasures(parseFloat))
  {
    forall a, b
      ensures 0.0 <= TS.FuzzySimilarity(a, b) <= 1.0 && 0.0 <= TS.PartialSimilarity(a, b) <= 1.0
    {
      TS.FuzzySimilarityFacts(a, b);
      TS.PartialSimilarityFacts(a, b);
    }
  }

  /** `_calculate_comprehensive_similarity` with the given measures. */
  function LibrarySims(m: Measures): SimsOf {
    (a: string, b: string) => Comprehensive(m, a, b)
  }

  lemma LibrarySimsBounded(m: Measures)
    requires ValidMeasures(m)
    ensures SimsBounded(LibrarySims(m))
  {
    forall a, b
      ensures MaxSim(LibrarySims(m)(a, b)) <= 1.0
    {
      ComprehensiveSpec(m, a, b);
    }
  }

  // ---------------------------------------------------------------------------
  // the matching loop

  /** The comparison run on one row pair. */
  type Comparer = (Row, Row) -> seq<FieldMatch>

  function LibraryComparer(m: Measures, ha: seq<string>, hb: seq<string>): Comparer {
    (ra: Row, rb: Row) => CompareAllFields(LibrarySims(m), ra, rb, ha, hb)
  }

  /** One entry of `best_matches`, with its `match_details`. */
  datatype BfMatch = BfMatch(rowA: nat, rowB: nat, dataA: Row, dataB: Row, score: real,
                             fieldMatches: seq<FieldMatch>, matchedFieldsCount: nat,
                             totalFieldsCompared: nat, bestFieldMatch: Option<FieldMatch>)

  function FieldSimilarity(fm: FieldMatch): real {
    fm.similarity
  }

  function Candidate(cmp: Comparer, i: nat, j: nat, ra: Row, rb: Row): BfMatch {
    var fms := cmp(ra, rb);
    BfMatch(i, j, ra, rb, BruteForceScore(fms), fms, Count(fms, StrongField), |fms|,
            if fms == [] then None else Some(fms[ArgMaxFirst(fms, FieldSimilarity)]))
  }

  /** `total_score > 0.6`. */
  predicate AboveCut(c: BfMatch) {
    c.score > 0.6
  }

  function MatchScore(c: BfMatch): real {
    c.score
  }

  /** Row `i` against every B row, in order. */
  function AllCandidates(cmp: Comparer, i: nat, ra: Row, sb: seq<Row>): (cs: seq<BfMatch>)
    ensures |cs| == |sb|
    ensures forall j :: 0 <= j < |sb| ==> cs[j] == Candidate(cmp, i, j, ra, sb[j])
  {
    seq(|sb|, j requires 0 <= j < |sb| => Candidate(cmp, i, j, ra, sb[j]))
  }

  /** `best_matches` for row `i`. */
  function RowCandidates(cmp: Comparer, i: nat, ra: Row, sb: seq<Row>): seq<BfMatch> {
    Filter(AllCandidates(cmp, i, ra, sb), AboveCut)
  }

  /** `max(best_matches, key=match_score)`: the first candidate with the top score. */
  function BestOf(cs: seq<BfMatch>): Option<BfMatch> {
    if cs == [] then None else Some(cs[ArgMaxFirst(cs, MatchScore)])
  }

  function OptSeq<T>(o: Option<T>): seq<T> {
    match o
    case Some(v) => [v]
    case None => []
  }

  /** The present results of `f` on each element with its index, in order. */
  function Collect<U, T>(f: (nat, U) -> Option<T>, xs: seq<U>): seq<T>
    decreases |xs|
  {
    if xs == [] then []
    else
      var n := |xs| - 1;
      Collect(f, xs[..n]) + OptSeq(f(n, xs[n]))
  }

  /** Each collected result is `f` at the index `key` names, indices increase,
      and every present result is collected. */
  lemma {:induction false} CollectSpec<U, T>(f: (nat, U) -> Option<T>, xs: seq<U>, key: T -> nat)
    requires forall i, x :: f(i, x).Some? ==> key(f(i, x).value) == i
    ensures forall k :: 0 <= k < |Collect(f, xs)| ==>
              key(Collect(f, xs)[k]) < |xs| && f(key(Collect(f, xs)[k]), xs[key(Collect(f, xs)[k])]) == Some(Collect(f, xs)[k])
    ensures forall k, l :: 0 <= k < l < |Collect(f, xs)| ==> key(Collect(f, xs)[k]) < key(Collect(f, xs)[l])
    ensures forall i :: 0 <= i < |xs| && f(i, xs[i]).Some? ==>
              exists k :: 0 <= k < |Collect(f, xs)| && key(Collect(f, xs)[k]) == i
    decreases |xs|
  {
    if xs != [] {
      var n := |xs| - 1;
      var init := xs[..n];
      CollectSpec(f, init, key);
      var prev := Collect(f, init);
      var last := OptSeq(f(n, xs[n]));
      var r := Collect(f, xs);
      assert r == prev + last;
      forall k | 0 <= k < |r|
        ensures key(r[k]) < |xs| && f(key(r[k]), xs[key(r[k])]) == Some(r[k])
      {
        if k < |prev| {
          assert r[k] == prev[k];
          assert xs[key(prev[k])] == init[key(prev[k])];
        } else {
          assert r[k] == last[0];
        }
      }
      forall k, l | 0 <= k < l < |r|
        ensures key(r[k]) < key(r[l])
      {
        if l >= |prev| {
          assert r[l] == last[0] && r[k] == prev[k];
        } else {
          assert r[k] == prev[k] && r[l] == prev[l];
        }
      }
      forall i | 0 <= i < |xs| && f(i, xs[i]).Some?
        ensures exists k :: 0 <= k < |r| && key(r[k]) == i
      {
        if i < n {
          assert xs[i] == init[i];
          var k :| 0 <= k < |prev| && key(prev[k]) == i;
          assert r[k] == prev[k];
        } else {
          assert r[|prev|] == last[0];
        }
      }
    }
  }

  /** An element is collected exactly when `f` yields it at some index. */
  lemma {:induction false} CollectIn<U, T>(f: (nat, U) -> Option<T>, xs: seq<U>, y: T)
    ensures y in Collect(f, xs) <==> exists i :: 0 <= i < |xs| && f(i, xs[i]) == Some(y)
    decreases |xs|
  {
    if xs != [] {
      var n := |xs| - 1;
      var init := xs[..n];
      CollectIn(f, init, y);
      assert Collect(f, xs) == Collect(f, init) + OptSeq(f(n, xs[n]));
      if exists i :: 0 <= i < |xs| && f(i, xs[i]) == Some(y) {
        var i :| 0 <= i < |xs| && f(i, xs[i]) == Some(y);
        if i < n {
          assert xs[i] == init[i];
        }
      }
      if y in Collect(f, init) {
        var i :| 0 <= i < |init| && f(i, init[i]) == Some(y);
        assert xs[i] == init[i];
      }
    }
  }

  /** Nothing is collected when `f` yields nothing. */
  lemma {:induction false} CollectNone<U, T>(f: (nat, U) -> Option<T>, xs: seq<U>)
    requires forall i :: 0 <= i < |xs| ==> f(i, xs[i]).None?
    ensures Collect(f, xs) == []
    decreases |xs|
  {
    if xs != [] {
      var n := |xs| - 1;
      forall i | 0 <= i < n
        ensures f(i, xs[..n][i]).None?
      {
        assert xs[..n][i] == xs[i];
      }
      CollectNone(f, xs[..n]);
    }
  }

  /** The entry kept for A row `i`, if any. */
  function BestAt(cmp: Comparer, sb: seq<Row>): (nat, Row) -> Option<BfMatch> {
    (i: nat, ra: Row) => BestOf(RowCandidates(cmp, i, ra, sb))
  }

  /** `matches` before deduplication: the best candidate of each A row that has one. */
  function RowBests(cmp: Comparer, sa: seq<Row>, sb: seq<Row>): seq<BfMatch> {
    Collect(BestAt(cmp, sb), sa)
  }

  function RowBOf(c: BfMatch): int {
    c.rowB
  }

  /** `c` is the entry kept from the candidates `all` of one A row (one per B row,
      in order): above the cut, scoring at least as high as every candidate above
      the cut, and strictly higher than those of earlier B rows. */
  predicate FirstBest(all: seq<BfMatch>, c: BfMatch) {
    && c.rowB < |all| && all[c.rowB] == c
    && AboveCut(c)
    && (forall j :: 0 <= j < |all| && AboveCut(all[j]) ==> all[j].score <= c.score)
    && (forall j :: 0 <= j < c.rowB && AboveCut(all[j]) ==> all[j].score < c.score)
  }

  /** `max` over the filtered candidates picks the first top-scoring one. */
  lemma BestOfSpec(all: seq<BfMatch>)
    requires forall j :: 0 <= j < |all| ==> all[j].rowB == j
    ensures var b := BestOf(Filter(all, AboveCut));
            && (b.Some? <==> exists j :: 0 <= j < |all| && AboveCut(all[j]))
            && (b.Some? ==> FirstBest(all, b.value))
  {
    var cs := Filter(all, AboveCut);
    if exists j :: 0 <= j < |all| && AboveCut(all[j]) {
      var j :| 0 <= j < |all| && AboveCut(all[j]);
      assert all[j] in cs;
    }
    if cs != [] {
      var c := cs[ArgMaxFirst(cs, MatchScore)];
      FilterArgMax(all, AboveCut, MatchScore, RowBOf, c);
    }
  }

  /** `c` is the candidate kept for A row `i`. */
  predicate BestForRow(cmp: Comparer, i: nat, ra: Row, sb: seq<Row>, c: BfMatch) {
    c.rowA == i && FirstBest(AllCandidates(cmp, i, ra, sb), c)
  }

  /** Some B row clears the cut for A row `i`. */
  predicate HasCandidate(cmp: Comparer, i: nat, ra: Row, sb: seq<Row>) {
    exists j :: 0 <= j < |sb| && AboveCut(AllCandidates(cmp, i, ra, sb)[j])
  }

  /** A row keeps a candidate exactly when one clears the cut, and it keeps the
      first top-scoring one. */
  lemma BestOfRowSpec(cmp: Comparer, i: nat, ra: Row, sb: seq<Row>)
    ensures var b := BestOf(RowCandidates(cmp, i, ra, sb));
            && (b.Some? <==> HasCandidate(cmp, i, ra, sb))
            && (b.Some? ==> BestForRow(cmp, i, ra, sb, b.value))
  {
    var all := AllCandidates(cmp, i, ra, sb);
    BestOfSpec(all);
    var b := BestOf(RowCandidates(cmp, i, ra, sb));
    if b.Some? {
      assert all[b.value.rowB] == b.value;
    }
  }

  /** Every entry of `r` is the kept candidate of its A row. */
  predicate AllBest(cmp: Comparer, sa: seq<Row>, sb: seq<Row>, r: seq<BfMatch>) {
    forall k :: 0 <= k < |r| ==> r[k].rowA < |sa| && BestForRow(cmp, r[k].rowA, sa[r[k].rowA], sb, r[k])
  }

  /** The entries of `r` have increasing A rows, so at most one per row. */
  predicate ByRowA(r: seq<BfMatch>) {
    forall k, l :: 0 <= k < l < |r| ==> r[k].rowA < r[l].rowA
  }

  /** Every A row with a candidate has an entry in `r`. */
  predicate CoversRows(cmp: Comparer, sa: seq<Row>, sb: seq<Row>, r: seq<BfMatch>) {
    forall i :: 0 <= i < |sa| && HasCandidate(cmp, i, sa[i], sb) ==> exists k :: 0 <= k < |r| && r[k].rowA == i
  }

  /** Before deduplication: at most one entry per A row, in row order, each the
      best of its row, and every row with a candidate present. */
  lemma RowBestsSpec(cmp: Comparer, sa: seq<Row>, sb: seq<Row>)
    ensures AllBest(cmp, sa, sb, RowBests(cmp, sa, sb))
    ensures ByRowA(RowBests(cmp, sa, sb))
    ensures CoversRows(cmp, sa, sb, RowBests(cmp, sa, sb))
  {
    var f := BestAt(cmp, sb);
    forall i: nat, x: Row | f(i, x).Some?
      ensures RowAOf(f(i, x).value) == i
    {
      BestOfRowSpec(cmp, i, x, sb);
    }
    CollectSpec(f, sa, RowAOf);
    var r := RowBests(cmp, sa, sb);
    forall k | 0 <= k < |r|
      ensures r[k].rowA < |sa| && BestForRow(cmp, r[k].rowA, sa[r[k].rowA], sb, r[k])
    {
      BestOfRowSpec(cmp, r[k].rowA, sa[r[k].rowA], sb);
    }
    forall i | 0 <= i < |sa| && HasCandidate(cmp, i, sa[i], sb)
      ensures exists k :: 0 <= k < |r| && r[k].rowA == i
    {
      BestOfRowSpec(cmp, i, sa[i], sb);
      var k :| 0 <= k < |r| && RowAOf(r[k]) == i;
    }
  }

  // ---------------------------------------------------------------------------
  // brute_force_matching

  /** The field matches of row `ra` against every B row, in order. */
  function RowFieldMatches(cmp: Comparer, ra: Row, sb: seq<Row>): seq<FieldMatch>
    decreases |sb|
  {
    if sb == [] then [] else cmp(ra, sb[0]) + RowFieldMatches(cmp, ra, sb[1..])
  }

  /** The field matches of every row pair, A rows outermost: what the correlation
      matrix is fed. */
  function PairFieldMatches(cmp: Comparer, sa: seq<Row>, sb: seq<Row>): seq<FieldMatch>
    decreases |sa|
  {
    if sa == [] then [] else RowFieldMatches(cmp, sa[0], sb) + PairFieldMatches(cmp, sa[1..], sb)
  }

  lemma {:induction false} RowFieldMatchesFrom(cmp: Comparer, ra: Row, sb: seq<Row>, fm: FieldMatch)
    requires fm in RowFieldMatches(cmp, ra, sb)
    ensures exists j :: 0 <= j < |sb| && fm in cmp(ra, sb[j])
    decreases |sb|
  {
    if fm !in cmp(ra, sb[0]) {
      RowFieldMatchesFrom(cmp, ra, sb[1..], fm);
      var j :| 0 <= j < |sb[1..]| && fm in cmp(ra, sb[1..][j]);
      assert sb[1..][j] == sb[j + 1];
    }
  }

  /** Every field match fed to the matrix comes from one row pair. */
  lemma {:induction false} PairFieldMatchesFrom(cmp: Comparer, sa: seq<Row>, sb: seq<Row>, fm: FieldMatch)
    requires fm in PairFieldMatches(cmp, sa, sb)
    ensures exists i, j :: 0 <= i < |sa| && 0 <= j < |sb| && fm in cmp(sa[i], sb[j])
    decreases |sa|
  {
    if fm in RowFieldMatches(cmp, sa[0], sb) {
      RowFieldMatchesFrom(cmp, sa[0], sb, fm);
      var j :| 0 <= j < |sb| && fm in cmp(sa[0], sb[j]);
      assert 0 < |sa|;
    } else {
      PairFieldMatchesFrom(cmp, sa[1..], sb, fm);
      var i, j :| 0 <= i < |sa[1..]| && 0 <= j < |sb| && fm in cmp(sa[1..][i], sb[j]);
      assert sa[1..][i] == sa[i + 1];
    }
  }

  /** `field_correlation_matrix` after the loop. */
  function CorrelationMatrix(cmp: Comparer, sa: seq<Row>, sb: seq<Row>): (t: Matrix)
    ensures WellFormed(t)
  {
    RecordAllWellFormed(EmptyMatrix, PairFieldMatches(cmp, sa, sb));
    RecordAll(EmptyMatrix, PairFieldMatches(cmp, sa, sb))
  }

  function RowAOf(c: BfMatch): nat {
    c.rowA
  }

  function RowBIndex(c: BfMatch): nat {
    c.rowB
  }

  /** `row_a_index` and `row_b_index`, for the one-to-one reduction. */
  const MatchKeys: Keys<BfMatch> := Keys(RowAOf, RowBIndex)

  /** The matches, each of which carries `discovered_field_mappings`, and that list. */
  datatype BfResult = BfResult(matches: seq<BfMatch>, mappings: seq<Correlation>)

  /** The loop, the reduction and the correlation analysis over sampled rows. */
  function MatchRows(cmp: Comparer, m: Measures, sa: seq<Row>, sb: seq<Row>): Result<BfResult, PyError> {
    match AnalyzeFieldCorrelations(m, CorrelationMatrix(cmp, sa, sb))
    case Failure(e) => Failure(e)
    case Success(cs) => Success(BfResult(UniqueMatches(cmp, sa, sb), cs))
  }

  /** `_remove_duplicate_matches_brute_force` applied to the row bests. */
  function UniqueMatches(cmp: Comparer, sa: seq<Row>, sb: seq<Row>): seq<BfMatch> {
    Greedy(MatchKeys, SortDesc(RowBests(cmp, sa, sb), MatchScore))
  }

  /** `brute_force_matching` with the library similarity measures. */
  function BruteForceMatching(m: Measures, dataA: seq<Row>, dataB: seq<Row>, ha: seq<string>, hb: seq<string>,
                              maxSample: int): Result<BfResult, PyError> {
    MatchRows(LibraryComparer(m, ha, hb), m, Prefix(dataA, maxSample), Prefix(dataB, maxSample))
  }

  /** The run fails exactly when the report meets a key seen twice that does not
      unpack into two names. */
  lemma MatchRowsFails(cmp: Comparer, m: Measures, sa: seq<Row>, sb: seq<Row>)
    ensures var t := CorrelationMatrix(cmp, sa, sb);
            MatchRows(cmp, m, sa, sb).Failure? <==> exists k :: k in t.stats && BadKey(t, k)
  {
    AnalyzeFieldCorrelationsSpec(m, CorrelationMatrix(cmp, sa, sb));
  }

  /** The matches are best candidates of their rows, one-to-one, by descending
      score, and every row's best candidate shares a row with a kept match. */
  lemma UniqueMatchesSpec(cmp: Comparer, sa: seq<Row>, sb: seq<Row>)
    ensures AllBest(cmp, sa, sb, UniqueMatches(cmp, sa, sb))
    ensures OneToOne(MatchKeys, UniqueMatches(cmp, sa, sb)) && SortedDesc(UniqueMatches(cmp, sa, sb), MatchScore)
    ensures forall c :: c in RowBests(cmp, sa, sb) ==> Conflicts(MatchKeys, c, UniqueMatches(cmp, sa, sb))
  {
    var bests := RowBests(cmp, sa, sb);
    var unique := UniqueMatches(cmp, sa, sb);
    RowBestsSpec(cmp, sa, sb);
    GreedyByScoreSpec(MatchKeys, MatchScore, bests);
    forall k | 0 <= k < |unique|
      ensures unique[k].rowA < |sa| && BestForRow(cmp, unique[k].rowA, sa[unique[k].rowA], sb, unique[k])
    {
      assert unique[k] in bests;
      var q :| 0 <= q < |bests| && bests[q] == unique[k];
    }
  }

  /** A successful run returns the deduplicated row bests. */
  lemma MatchRowsMatches(cmp: Comparer, m: Measures, sa: seq<Row>, sb: seq<Row>)
    ensures MatchRows(cmp, m, sa, sb).Success? ==>
              MatchRows(cmp, m, sa, sb).value.matches == UniqueMatches(cmp, sa, sb)
  {
  }

  /** The mappings are the correlation report of every compared row pair. */
  lemma MatchRowsMappings(cmp: Comparer, m: Measures, sa: seq<Row>, sb: seq<Row>)
    ensures var r := MatchRows(cmp, m, sa, sb);
            var t := CorrelationMatrix(cmp, sa, sb);
            && (r.Success? ==> SortedDesc(r.value.mappings, ByConfidence))
            && (r.Success? ==> forall c :: c in r.value.mappings ==> ReportsKey(m, t, c))
            && (r.Success? ==> forall k :: k in t.stats && t.stats[k].count >= 2 ==>
                  exists c :: c in r.value.mappings && PairKey(c.fieldA, c.fieldB) == k)
  {
    AnalyzeFieldCorrelationsSpec(m, CorrelationMatrix(cmp, sa, sb));
  }

  /** A field match the library comparison feeds to the matrix lies in (0.5, 1],
      and its columns come from the headers. */
  lemma LibraryFieldMatch(m: Measures, sa: seq<Row>, sb: seq<Row>, ha: seq<string>, hb: seq<string>, fm: FieldMatch)
    requires fm in PairFieldMatches(LibraryComparer(m, ha, hb), sa, sb)
    ensures fm.fieldA in ha && fm.fieldB in hb
    ensures SimsBounded(LibrarySims(m)) ==> 0.5 < fm.similarity <= 1.0
  {
    var cmp := LibraryComparer(m, ha, hb);
    PairFieldMatchesFrom(cmp, sa, sb, fm);
    var i, j :| 0 <= i < |sa| && 0 <= j < |sb| && fm in cmp(sa[i], sb[j]);
    var row := CompareAllFields(LibrarySims(m), sa[i], sb[j], ha, hb);
    assert fm in row;
    CompareAllFieldsSpec(LibrarySims(m), sa[i], sb[j], ha, hb);
    var q :| 0 <= q < |row| && row[q] == fm;
    if SimsBounded(LibrarySims(m)) {
      CompareAllFieldsInUnit(LibrarySims(m), sa[i], sb[j], ha, hb, fm);
    }
  }

  /** With valid measures every report entry of the library comparison has a mean
      similarity in (0.7, 1], a quality score in [0, 1] and at least two samples. */
  lemma LibraryMappingsInRange(m: Measures, sa: seq<Row>, sb: seq<Row>, ha: seq<string>, hb: seq<string>)
    requires ValidMeasures(m)
    ensures var r := MatchRows(LibraryComparer(m, ha, hb), m, sa, sb);
            r.Success? ==> forall c :: c in r.value.mappings ==>
              0.7 < c.confidence <= 1.0 && 0.0 <= c.qualityScore <= 1.0 && c.sampleCount >= 2
  {
    var cmp := LibraryComparer(m, ha, hb);
    var fms := PairFieldMatches(cmp, sa, sb);
    var t := CorrelationMatrix(cmp, sa, sb);
    MatchRowsMappings(cmp, m, sa, sb);
    LibrarySimsBounded(m);
    var r := MatchRows(cmp, m, sa, sb);
    forall fm | fm in fms
      ensures fm.similarity <= 1.0
    {
      LibraryFieldMatch(m, sa, sb, ha, hb, fm);
    }
    if r.Success? {
      forall c | c in r.value.mappings
        ensures 0.7 < c.confidence <= 1.0 && 0.0 <= c.qualityScore <= 1.0 && c.sampleCount >= 2
      {
        assert ReportsKey(m, t, c);
        MeanAboveCut(fms, PairKey(c.fieldA, c.fieldB));
      }
    }
  }

  /** The unpack error needs a header holding the arrow: with arrow-free headers
      the library run always succeeds. */
  lemma ArrowFreeHeadersSucceed(m: Measures, dataA: seq<Row>, dataB: seq<Row>, ha: seq<string>, hb: seq<string>,
                                maxSample: int)
    requires forall h :: h in ha ==> Arrow !in h
    requires forall h :: h in hb ==> Arrow !in h
    ensures BruteForceMatching(m, dataA, dataB, ha, hb, maxSample).Success?
  {
    var cmp := LibraryComparer(m, ha, hb);
    var sa := Prefix(dataA, maxSample);
    var sb := Prefix(dataB, maxSample);
    var fms := PairFieldMatches(cmp, sa, sb);
    var t := CorrelationMatrix(cmp, sa, sb);
    MatchRowsFails(cmp, m, sa, sb);
    RecordAllKeys(EmptyMatrix, fms);
    forall k | k in t.stats
      ensures !BadKey(t, k)
    {
      var fm :| fm in fms && StrongField(fm) && FieldKey(fm) == k;
      LibraryFieldMatch(m, sa, sb, ha, hb, fm);
      PairKeySplit(fm.fieldA, fm.fieldB);
    }
  }

  /** The only exception the pipeline raises is the unpack error. */
  lemma MatchRowsErrorKind(cmp: Comparer, m: Measures, sa: seq<Row>, sb: seq<Row>)
    ensures MatchRows(cmp, m, sa, sb).Failure? ==> MatchRows(cmp, m, sa, sb).error.UnpackMismatch?
  {
    var t := CorrelationMatrix(cmp, sa, sb);
    CorrelateAllErrorKind(m, t, t.order);
  }

  /** Without a row that has a candidate there is nothing to keep. */
  lemma NoCandidateNoBests(cmp: Comparer, sa: seq<Row>, sb: seq<Row>)
    requires forall i :: 0 <= i < |sa| ==> !HasCandidate(cmp, i, sa[i], sb)
    ensures RowBests(cmp, sa, sb) == []
  {
    if RowBests(cmp, sa, sb) != [] {
      FirstBestHasCandidate(cmp, sa, sb);
    }
  }

  lemma FirstBestHasCandidate(cmp: Comparer, sa: seq<Row>, sb: seq<Row>)
    requires RowBests(cmp, sa, sb) != []
    ensures RowBests(cmp, sa, sb)[0].rowA < |sa|
    ensures HasCandidate(cmp, RowBests(cmp, sa, sb)[0].rowA, sa[RowBests(cmp, sa, sb)[0].rowA], sb)
  {
    RowBestsSpec(cmp, sa, sb);
    var c := RowBests(cmp, sa, sb)[0];
    var all := AllCandidates(cmp, c.rowA, sa[c.rowA], sb);
    assert AboveCut(all[c.rowB]);
  }

  /** A comparison that records no field match, on any row pair, leaves both the
      match list and the mapping list empty. */
  lemma SilentComparerFindsNothing(cmp: Comparer, m: Measures, sa: seq<Row>, sb: seq<Row>)
    requires forall ra, rb :: cmp(ra, rb) == []
    ensures MatchRows(cmp, m, sa, sb) == Success(BfResult([], []))
  {
    var fms := PairFieldMatches(cmp, sa, sb);
    if fms != [] {
      PairFieldMatchesFrom(cmp, sa, sb, fms[0]);
      var i, j :| 0 <= i < |sa| && 0 <= j < |sb| && fms[0] in cmp(sa[i], sb[j]);
      assert false;
    }
    assert CorrelationMatrix(cmp, sa, sb) == EmptyMatrix;
    forall i | 0 <= i < |sa|
      ensures !HasCandidate(cmp, i, sa[i], sb)
    {
      forall j | 0 <= j < |sb|
        ensures !AboveCut(AllCandidates(cmp, i, sa[i], sb)[j])
      {
        assert cmp(sa[i], sb[j]) == [];
      }
    }
    NoCandidateNoBests(cmp, sa, sb);
  }

  /** With no rows on one side no pair is compared: the run returns nothing. */
  lemma EmptySideFindsNothing(cmp: Comparer, m: Measures, sa: seq<Row>, sb: seq<Row>)
    requires sa == [] || sb == []
    ensures MatchRows(cmp, m, sa, sb) == Success(BfResult([], []))
  {
    var fms := PairFieldMatches(cmp, sa, sb);
    if fms != [] {
      PairFieldMatchesFrom(cmp, sa, sb, fms[0]);
      assert false;
    }
    assert CorrelationMatrix(cmp, sa, sb) == EmptyMatrix;
    NoCandidateNoBests(cmp, sa, sb);
  }

  // ---------------------------------------------------------------------------
  // analyze_match_quality

  /** The three keys the score is read from; absent keys are `None`. */
  datatype ScoreFields = ScoreFields(matchScore: Option<real>, similarity: Option<real>, score: Option<real>)

  /** Python truthiness of a present number: zero is false. */
  predicate Truthy(o: Option<real>) {
    o.Some? && o.value != 0.0
  }

  /** `match_score or similarity or score or 0.0`. */
  function PickScore(f: ScoreFields): real {
    if Truthy(f.matchScore) then f.matchScore.value
    else if Truthy(f.similarity) then f.similarity.value
    else if Truthy(f.score) then f.score.value
    else 0.0
  }

  function PickScores(fs: seq<ScoreFields>): (r: seq<real>)
    ensures |r| == |fs|
    ensures forall i :: 0 <= i < |fs| ==> r[i] == PickScore(fs[i])
  {
    seq(|fs|, i requires 0 <= i < |fs| => PickScore(fs[i]))
  }

  predicate HighScore(s: real) {
    s > 0.8
  }

  predicate MediumScore(s: real) {
    0.6 <= s <= 0.8
  }

  predicate LowScore(s: real) {
    s < 0.6
  }

  datatype QualitySummary = QualitySummary(totalMatches: nat, averageScore: real, highQuality: nat,
                                           mediumQuality: nat, lowQuality: nat)

  /** `analyze_match_quality`. */
  function AnalyzeMatchQuality(fs: seq<ScoreFields>): QualitySummary {
    if fs == [] then QualitySummary(0, 0.0, 0, 0, 0)
    else
      var scores := PickScores(fs);
      QualitySummary(|fs|, Mean(scores), Count(scores, HighScore), Count(scores, MediumScore), Count(scores, LowScore))
  }

  /** The three tiers split the scores between them. */
  lemma {:induction false} TiersPartition(xs: seq<real>)
    ensures Count(xs, HighScore) + Count(xs, MediumScore) + Count(xs, LowScore) == |xs|
    decreases |xs|
  {
    if xs != [] {
      TiersPartition(xs[1..]);
      assert Filter(xs, HighScore) == (if HighScore(xs[0]) then [xs[0]] else []) + Filter(xs[1..], HighScore);
      assert Filter(xs, MediumScore) == (if MediumScore(xs[0]) then [xs[0]] else []) + Filter(xs[1..], MediumScore);
      assert Filter(xs, LowScore) == (if LowScore(xs[0]) then [xs[0]] else []) + Filter(xs[1..], LowScore);
    }
  }

  /** Every match lands in exactly one tier, and scores in [0, 1] average in [0, 1]. */
  lemma AnalyzeMatchQualitySpec(fs: seq<ScoreFields>)
    ensures var q := AnalyzeMatchQuality(fs);
            && q.totalMatches == |fs|
            && q.highQuality + q.mediumQuality + q.lowQuality == |fs|
            && ((forall i :: 0 <= i < |fs| ==> 0.0 <= PickScore(fs[i]) <= 1.0) ==> 0.0 <= q.averageScore <= 1.0)
  {
    if fs != [] {
      TiersPartition(PickScores(fs));
    }
  }

  /** A zero `match_score` is skipped as falsy, so the next key decides. */
  lemma ZeroScoreFallsThrough(f: ScoreFields)
    requires f.matchScore == Some(0.0)
    ensures PickScore(f) == PickScore(ScoreFields(None, f.similarity, f.score))
    ensures f.similarity == None && f.score == None ==> PickScore(f) == 0.0
  {
  }

  /** The fields a match of this matcher carries: only `match_score`. */
  function MatchScoreFields(c: BfMatch): ScoreFields {
    ScoreFields(Some(c.score), None, None)
  }
}
