/** `FieldMapper`: which column of company A corresponds to which column of
    company B. The card-based analysis learns it from matched card pairs (per
    column pair: mean composite similarity, share of strong scores, sample count);
    the traditional analysis, kept for comparison, scores header pairs from their
    names, value kinds and shared values alone. */
module FieldMapper {
  import opened Seqs
  import opened Strings
  import opened Sets
  import opened Sorting
  import opened Wrappers
  import opened Rows
  import TS = TextSimilarity

  /** The three thresholds read from the configuration. */
  datatype MapperConfig = MapperConfig(similarityThreshold: real, consistencyThreshold: real,
                                       minSampleCount: real)

  /** The constructor's defaults. */
  const DefaultConfig := MapperConfig(0.7, 0.6, 3.0)

  /** The composite similarity of two texts (`comprehensive_score`). */
  function Score(a: string, b: string): (r: real)
    ensures 0.0 <= r <= 1.0
    ensures r == TS.Comprehensive(b, a).comprehensive
  {
    TS.ComprehensiveFacts(a, b);
    TS.Comprehensive(a, b).comprehensive
  }

  // ---------------------------------------------------------------------------
  // analyze_field_mappings_from_matches

  /** The rows of one matched card pair (`row_a_data`, `row_b_data`). */
  datatype CardPair = CardPair(rowA: Row, rowB: Row)

  /** Both stripped values are non-empty, so the pair is scored. */
  predicate Usable(m: CardPair, fa: string, fb: string) {
    CellValue(m.rowA, fa) != "" && CellValue(m.rowB, fb) != ""
  }

  function PairScore(m: CardPair, fa: string, fb: string): real {
    Score(CellValue(m.rowA, fa), CellValue(m.rowB, fb))
  }

  function UsableFor(fa: string, fb: string): CardPair -> bool {
    (m: CardPair) => Usable(m, fa, fb)
  }

  /** The matches the column pair is scored on, in match order. */
  function UsableMatches(matches: seq<CardPair>, fa: string, fb: string): seq<CardPair> {
    Filter(matches, UsableFor(fa, fb))
  }

  /** The `similarities` list of one column pair: a score per usable match. */
  function Details(matches: seq<CardPair>, fa: string, fb: string): seq<real> {
    var u := UsableMatches(matches, fa, fb);
    seq(|u|, k requires 0 <= k < |u| => PairScore(u[k], fa, fb))
  }

  /** Every score lies in [0, 1], and there is one exactly when some match has both
      values. */
  lemma DetailsSpec(matches: seq<CardPair>, fa: string, fb: string)
    ensures forall k :: 0 <= k < |Details(matches, fa, fb)| ==> 0.0 <= Details(matches, fa, fb)[k] <= 1.0
    ensures Details(matches, fa, fb) != [] <==> exists m :: m in matches && Usable(m, fa, fb)
  {
    DetailsInRange(matches, fa, fb);
    DetailsNonEmpty(matches, fa, fb);
  }

  lemma DetailsInRange(matches: seq<CardPair>, fa: string, fb: string)
    ensures forall k :: 0 <= k < |Details(matches, fa, fb)| ==> 0.0 <= Details(matches, fa, fb)[k] <= 1.0
  {
  }

  lemma DetailsNonEmpty(matches: seq<CardPair>, fa: string, fb: string)
    ensures Details(matches, fa, fb) != [] <==> exists m :: m in matches && Usable(m, fa, fb)
  {
    var u := UsableMatches(matches, fa, fb);
    if u != [] {
      assert u[0] in matches && Usable(u[0], fa, fb);
    }
    if exists m :: m in matches && Usable(m, fa, fb) {
      var m :| m in matches && Usable(m, fa, fb);
      var i :| 0 <= i < |matches| && matches[i] == m;
      assert UsableFor(fa, fb)(matches[i]);
    }
  }

  /** A strong score (`s > 0.8`). */
  predicate High(s: real) {
    s > 0.8
  }

  /** The statistics dict of one column pair. */
  datatype FieldStats = FieldStats(fieldA: string, fieldB: string, similarity: real, consistency: real,
                                   sampleCount: nat, highMatches: nat, details: seq<real>)

  function StatsOf(fa: string, fb: string, sims: seq<real>): FieldStats
    requires sims != []
  {
    var high := Count(sims, High);
    FieldStats(fa, fb, Mean(sims), high as real / |sims| as real, |sims|, high, sims)
  }

  /** Every (field_a, field_b) of the two header lists, A-major. */
  function Cross(ha: seq<string>, hb: seq<string>): seq<(string, string)>
    decreases |ha|
  {
    if ha == [] then [] else seq(|hb|, j requires 0 <= j < |hb| => (ha[0], hb[j])) + Cross(ha[1..], hb)
  }

  lemma {:induction false} CrossIn(ha: seq<string>, hb: seq<string>, fa: string, fb: string)
    ensures (fa, fb) in Cross(ha, hb) <==> fa in ha && fb in hb
    decreases |ha|
  {
    if ha != [] {
      CrossIn(ha[1..], hb, fa, fb);
      assert ha == [ha[0]] + ha[1..];
      if fa == ha[0] && fb in hb {
        var j :| 0 <= j < |hb| && hb[j] == fb;
        assert seq(|hb|, j requires 0 <= j < |hb| => (ha[0], hb[j]))[j] == (fa, fb);
      }
    }
  }

  /** The dict keys, in insertion order: a repeated header adds no second key. */
  function MappingKeys(ha: seq<string>, hb: seq<string>): seq<(string, string)> {
    Dedupe(Cross(ha, hb))
  }

  /** The score list of each column pair. */
  function DetailsOf(matches: seq<CardPair>): (string, string) -> seq<real> {
    (fa: string, fb: string) => Details(matches, fa, fb)
  }

  /** The dict entries for `keys`, one per key with scores. */
  function StatsFor(d: (string, string) -> seq<real>, keys: seq<(string, string)>): seq<FieldStats>
    decreases |keys|
  {
    if keys == [] then []
    else
      var sims := d(keys[0].0, keys[0].1);
      (if sims != [] then [StatsOf(keys[0].0, keys[0].1, sims)] else []) + StatsFor(d, keys[1..])
  }

  /** `analyze_field_mappings_from_matches`, as the dict's items in insertion order. */
  function AnalyzeFieldMappings(matches: seq<CardPair>, ha: seq<string>, hb: seq<string>): seq<FieldStats> {
    StatsFor(DetailsOf(matches), MappingKeys(ha, hb))
  }

  /** An entry is the statistics of a key with scores, and every such key has one. */
  lemma {:induction false} StatsForIn(d: (string, string) -> seq<real>, keys: seq<(string, string)>)
    ensures forall e :: e in StatsFor(d, keys) ==>
      (e.fieldA, e.fieldB) in keys && d(e.fieldA, e.fieldB) != [] &&
      e == StatsOf(e.fieldA, e.fieldB, d(e.fieldA, e.fieldB))
    ensures forall k :: k in keys && d(k.0, k.1) != [] ==> StatsOf(k.0, k.1, d(k.0, k.1)) in StatsFor(d, keys)
    decreases |keys|
  {
    if keys != [] {
      StatsForIn(d, keys[1..]);
      assert keys == [keys[0]] + keys[1..];
    }
  }

  /** No two entries share a column pair. */
  predicate PairsDistinct(r: seq<FieldStats>) {
    forall i, j :: 0 <= i < j < |r| ==> (r[i].fieldA, r[i].fieldB) != (r[j].fieldA, r[j].fieldB)
  }

  /** Distinct keys give entries with distinct column pairs. */
  lemma {:induction false} StatsForDistinct(d: (string, string) -> seq<real>, keys: seq<(string, string)>)
    requires Distinct(keys)
    ensures PairsDistinct(StatsFor(d, keys))
    decreases |keys|
  {
    if keys != [] {
      var rest := StatsFor(d, keys[1..]);
      DistinctTail(keys);
      StatsForDistinct(d, keys[1..]);
      if d(keys[0].0, keys[0].1) != [] {
        StatsForIn(d, keys[1..]);
        var h := StatsOf(keys[0].0, keys[0].1, d(keys[0].0, keys[0].1));
        assert StatsFor(d, keys) == [h] + rest;
        ConsPairsDistinct(h, rest);
      }
    }
  }

  /** A head whose column pair no later entry has keeps the pairs distinct. */
  lemma ConsPairsDistinct(h: FieldStats, rest: seq<FieldStats>)
    requires PairsDistinct(rest)
    requires forall e :: e in rest ==> (e.fieldA, e.fieldB) != (h.fieldA, h.fieldB)
    ensures PairsDistinct([h] + rest)
  {
    var r := [h] + rest;
    forall i, j | 0 <= i < j < |r|
      ensures (r[i].fieldA, r[i].fieldB) != (r[j].fieldA, r[j].fieldB)
    {
      assert r[j] == rest[j - 1];
      if i > 0 {
        assert r[i] == rest[i - 1];
      } else {
        assert rest[j - 1] in rest;
      }
    }
  }

  /** Per-entry facts: the consistency is a share in [0, 1], `high_matches` never
      exceeds `sample_count`, which counts the usable matches, and the similarity is
      the mean of scores in [0, 1]. */
  lemma StatsOfFacts(matches: seq<CardPair>, fa: string, fb: string)
    requires Details(matches, fa, fb) != []
    ensures var e := StatsOf(fa, fb, Details(matches, fa, fb));
      0.0 <= e.consistency <= 1.0 && e.highMatches <= e.sampleCount
      && e.sampleCount == |UsableMatches(matches, fa, fb)| > 0
      && (forall k :: 0 <= k < |e.details| ==> e.details[k] == PairScore(UsableMatches(matches, fa, fb)[k], fa, fb))
      && 0.0 <= e.similarity <= 1.0
      && (e.consistency == 1.0 <==> forall k :: 0 <= k < |e.details| ==> e.details[k] > 0.8)
  {
    DetailsSpec(matches, fa, fb);
    StatsShape(fa, fb, Details(matches, fa, fb));
  }

  /** The statistics of any non-empty list of scores in [0, 1]. */
  lemma StatsShape(fa: string, fb: string, d: seq<real>)
    requires d != [] && forall k :: 0 <= k < |d| ==> 0.0 <= d[k] <= 1.0
    ensures var e := StatsOf(fa, fb, d);
      0.0 <= e.consistency <= 1.0 && e.highMatches <= e.sampleCount && e.sampleCount == |d| && e.details == d
      && 0.0 <= e.similarity <= 1.0
      && (e.consistency == 1.0 <==> forall k :: 0 <= k < |d| ==> d[k] > 0.8)
  {
    var high := Count(d, High);
    RatioFacts(high, |d|);
    if high == |d| {
      forall k | 0 <= k < |d|
        ensures d[k] > 0.8
      {
        FilterFull(d, High, k);
      }
    } else {
      var k := FilterShort(d, High);
    }
  }

  /** The result's entries are keyed by distinct header pairs from the two lists, and
      a pair has an entry exactly when some match has both of its values. */
  lemma AnalyzeFieldMappingsSpec(matches: seq<CardPair>, ha: seq<string>, hb: seq<string>, fa: string, fb: string)
    ensures (exists e :: e in AnalyzeFieldMappings(matches, ha, hb) && e.fieldA == fa && e.fieldB == fb) <==>
      fa in ha && fb in hb && exists m :: m in matches && Usable(m, fa, fb)
    ensures fa in ha && fb in hb && Details(matches, fa, fb) != [] ==>
      StatsOf(fa, fb, Details(matches, fa, fb)) in AnalyzeFieldMappings(matches, ha, hb)
    ensures forall e :: e in AnalyzeFieldMappings(matches, ha, hb) ==>
      Details(matches, e.fieldA, e.fieldB) != [] && e == StatsOf(e.fieldA, e.fieldB, Details(matches, e.fieldA, e.fieldB))
    ensures var r := AnalyzeFieldMappings(matches, ha, hb);
      forall i, j :: 0 <= i < j < |r| ==> (r[i].fieldA, r[i].fieldB) != (r[j].fieldA, r[j].fieldB)
  {
    var keys := MappingKeys(ha, hb);
    StatsForIn(DetailsOf(matches), keys);
    StatsForDistinct(DetailsOf(matches), keys);
    CrossIn(ha, hb, fa, fb);
    DetailsSpec(matches, fa, fb);
  }

  // ---------------------------------------------------------------------------
  // calculate_mapping_confidence and _calculate_confidence_score

  /** `max(min_sample_count, len(card_matches) * 0.3)`. */
  function MinSamples(cfg: MapperConfig, matchCount: nat): real {
    MaxReal(cfg.minSampleCount, 0.3 * matchCount as real)
  }

  /** The divisor is zero only for a non-positive configured count and no matches. */
  lemma MinSamplesZero(cfg: MapperConfig, matchCount: nat)
    ensures MinSamples(cfg, matchCount) >= 0.0
    ensures MinSamples(cfg, matchCount) == 0.0 <==> cfg.minSampleCount <= 0.0 && matchCount == 0
    ensures MinSamples(DefaultConfig, matchCount) >= 3.0
  {
  }

  /** `0.4 * similarity + 0.4 * consistency + 0.2 * min(1.0, sample_count / min_samples)`,
      before rounding. */
  function ConfidenceScore(s: FieldStats, minSamples: real): real
    requires minSamples != 0.0
  {
    0.4 * s.similarity + 0.4 * s.consistency + 0.2 * MinReal(1.0, s.sampleCount as real / minSamples)
  }

  /** For statistics in [0, 1] the confidence lies in [0, 1], and it is 1 exactly for
      perfect similarity and consistency with enough samples. */
  lemma ConfidenceScoreFacts(s: FieldStats, minSamples: real)
    requires minSamples > 0.0
    requires 0.0 <= s.similarity <= 1.0 && 0.0 <= s.consistency <= 1.0
    ensures 0.0 <= ConfidenceScore(s, minSamples) <= 1.0
    ensures ConfidenceScore(s, minSamples) == 1.0 <==>
      s.similarity == 1.0 && s.consistency == 1.0 && s.sampleCount as real >= minSamples
  {
    var q := s.sampleCount as real / minSamples;
    assert q >= 0.0;
    if s.sampleCount as real >= minSamples {
      assert q * minSamples == s.sampleCount as real;
      assert q >= 1.0;
    } else {
      assert q * minSamples == s.sampleCount as real;
      assert q < 1.0;
    }
  }

  /** The three threshold tests of the filter. */
  predicate Passes(cfg: MapperConfig, s: FieldStats, minSamples: real) {
    s.similarity >= cfg.similarityThreshold && s.consistency >= cfg.consistencyThreshold
    && s.sampleCount as real >= minSamples
  }

  /** `_calculate_quality_metrics` (the standard deviation is not modelled). */
  datatype QualityMetrics =
    | NoMetrics
    | Metrics(minSimilarity: real, maxSimilarity: real, medianSimilarity: real, consistencyRatio: real)

  /** One confident mapping dict (the reasoning text is not modelled). */
  datatype ConfidentMapping = ConfidentMapping(fieldType: string, fieldA: string, fieldB: string,
                                               confidence: real, similarity: real, consistency: real,
                                               sampleCount: nat, highMatches: nat, quality: QualityMetrics)

  function ConfidenceOf(m: ConfidentMapping): real {
    m.confidence
  }

  function Confident(s: FieldStats, minSamples: real): ConfidentMapping
    requires minSamples != 0.0
  {
    ConfidentMapping(EstimateFieldType(s.fieldA, s.fieldB, s.similarity, s.consistency), s.fieldA, s.fieldB,
                     ConfidenceScore(s, minSamples), s.similarity, s.consistency, s.sampleCount,
                     s.highMatches, QualityMetricsOf(s))
  }

  /** The mappings the loop appends, in dict order. */
  function ConfidentAll(cfg: MapperConfig, stats: seq<FieldStats>, minSamples: real): seq<ConfidentMapping>
    requires minSamples != 0.0
    decreases |stats|
  {
    if stats == [] then []
    else (if Passes(cfg, stats[0], minSamples) then [Confident(stats[0], minSamples)] else [])
         + ConfidentAll(cfg, stats[1..], minSamples)
  }

  lemma {:induction false} ConfidentAllIn(cfg: MapperConfig, stats: seq<FieldStats>, minSamples: real, c: ConfidentMapping)
    requires minSamples != 0.0
    ensures c in ConfidentAll(cfg, stats, minSamples) <==>
      exists i :: 0 <= i < |stats| && Passes(cfg, stats[i], minSamples) && c == Confident(stats[i], minSamples)
    decreases |stats|
  {
    if stats != [] {
      ConfidentAllIn(cfg, stats[1..], minSamples, c);
      if c in ConfidentAll(cfg, stats[1..], minSamples) {
        var i :| 0 <= i < |stats[1..]| && Passes(cfg, stats[1..][i], minSamples) && c == Confident(stats[1..][i], minSamples);
        assert stats[i + 1] == stats[1..][i];
      }
      if exists i :: 0 <= i < |stats| && Passes(cfg, stats[i], minSamples) && c == Confident(stats[i], minSamples) {
        var i :| 0 <= i < |stats| && Passes(cfg, stats[i], minSamples) && c == Confident(stats[i], minSamples);
        if i > 0 {
          assert stats[1..][i - 1] == stats[i];
        }
      }
    }
  }

  /** `calculate_mapping_confidence`: the confidence is computed for every entry
      before the filter, so a zero divisor raises as soon as there is an entry. */
  function CalculateMappingConfidence(cfg: MapperConfig, stats: seq<FieldStats>, matchCount: nat)
    : Result<seq<ConfidentMapping>, PyError>
  {
    var minSamples := MinSamples(cfg, matchCount);
    if stats == [] then Success([])
    else if minSamples == 0.0 then Failure(ZeroDivision)
    else Success(SortDesc(ConfidentAll(cfg, stats, minSamples), ConfidenceOf))
  }

  /** It fails exactly on a zero divisor with some entry; otherwise it returns the
      entries passing all three thresholds, each once per passing entry, ordered by
      confidence, descending. */
  lemma CalculateMappingConfidenceSpec(cfg: MapperConfig, stats: seq<FieldStats>, matchCount: nat)
    ensures CalculateMappingConfidence(cfg, stats, matchCount).Failure? <==>
      stats != [] && cfg.minSampleCount <= 0.0 && matchCount == 0
    ensures CalculateMappingConfidence(cfg, stats, matchCount).Failure? ==>
      CalculateMappingConfidence(cfg, stats, matchCount).error == ZeroDivision
    ensures CalculateMappingConfidence(cfg, stats, matchCount).Success? ==>
      var r := CalculateMappingConfidence(cfg, stats, matchCount).value;
      SortedDesc(r, ConfidenceOf) &&
      (r != [] ==> MinSamples(cfg, matchCount) > 0.0) &&
      (MinSamples(cfg, matchCount) != 0.0 ==>
        multiset(r) == multiset(ConfidentAll(cfg, stats, MinSamples(cfg, matchCount)))) &&
      forall c :: c in r <==>
        exists i :: 0 <= i < |stats| && MinSamples(cfg, matchCount) != 0.0 &&
          Passes(cfg, stats[i], MinSamples(cfg, matchCount)) && c == Confident(stats[i], MinSamples(cfg, matchCount))
  {
    MinSamplesZero(cfg, matchCount);
    var ms := MinSamples(cfg, matchCount);
    if stats != [] && ms != 0.0 {
      var all := ConfidentAll(cfg, stats, ms);
      var r := SortDesc(all, ConfidenceOf);
      forall c
        ensures c in r <==> exists i :: 0 <= i < |stats| && ms != 0.0 && Passes(cfg, stats[i], ms) && c == Confident(stats[i], ms)
      {
        ConfidentAllIn(cfg, stats, ms, c);
        assert c in r <==> c in multiset(all);
      }
    }
  }

  /** Each kept mapping carries the statistics it came from: thresholds met, a
      confidence in [0, 1] for statistics in [0, 1], its estimated field type. */
  lemma ConfidentFacts(cfg: MapperConfig, s: FieldStats, minSamples: real)
    requires minSamples > 0.0 && Passes(cfg, s, minSamples)
    requires 0.0 <= s.similarity <= 1.0 && 0.0 <= s.consistency <= 1.0
    ensures var c := Confident(s, minSamples);
      c.similarity >= cfg.similarityThreshold && c.consistency >= cfg.consistencyThreshold
      && c.sampleCount as real >= minSamples && 0.0 <= c.confidence <= 1.0
      && c.fieldType == EstimateFieldType(s.fieldA, s.fieldB, s.similarity, s.consistency)
      && c.fieldA == s.fieldA && c.fieldB == s.fieldB
  {
    ConfidenceScoreFacts(s, minSamples);
  }

  // ---------------------------------------------------------------------------
  // estimate_field_type

  /** The `field_patterns` table, in dict order. */
  const FieldPatterns: seq<(string, seq<string>)> := [
    ("card_name", ["カード名", "名前", "名称", "name", "title", "card", "product"]),
    ("price", ["価格", "値段", "price", "金額", "amount", "cost", "円", "yen"]),
    ("series", ["シリーズ", "series", "set", "セット", "edition"]),
    ("rarity", ["レアリティ", "rarity", "希少度", "レア", "rare"]),
    ("condition", ["状態", "condition", "コンディション", "品質", "quality"]),
    ("stock", ["在庫", "stock", "数量", "quantity", "count"]),
    ("id", ["id", "ID", "コード", "code", "jan", "sku"]),
    ("category", ["カテゴリ", "category", "分類", "type", "class"]),
    ("manufacturer", ["メーカー", "manufacturer", "maker", "発売元", "publisher"]),
    ("language", ["言語", "language", "lang", "版", "ver"]),
    ("description", ["説明", "description", "desc", "テキスト", "text", "詳細"]),
    ("date", ["日付", "date", "発売日", "release", "登録日"])
  ]

  /** Some lower-cased pattern of table entry `k` occurs in `combo`. */
  predicate Fires(combo: string, k: nat)
    requires k < |FieldPatterns|
  {
    exists j :: 0 <= j < |FieldPatterns[k].1| && Contains(combo, Lower(FieldPatterns[k].1[j]))
  }

  /** The first table entry from `k` on that fires. */
  function FirstFiring(combo: string, k: nat): (r: Option<nat>)
    requires k <= |FieldPatterns|
    ensures r.Some? ==> k <= r.value < |FieldPatterns| && Fires(combo, r.value)
    ensures forall j :: k <= j < |FieldPatterns| && (r.None? || j < r.value) ==> !Fires(combo, j)
    decreases |FieldPatterns| - k
  {
    if k == |FieldPatterns| then None
    else if Fires(combo, k) then Some(k)
    else FirstFiring(combo, k + 1)
  }

  /** `estimate_field_type`. */
  function EstimateFieldType(fa: string, fb: string, similarity: real, consistency: real): string {
    match FirstFiring(Lower(fa + " " + fb), 0)
    case Some(k) => FieldPatterns[k].0
    case None =>
      if similarity > 0.9 && consistency > 0.8 then "high_confidence_unknown"
      else if similarity > 0.7 then "medium_confidence_unknown"
      else "unknown"
  }

  /** The type is the first table entry, in order, with a pattern in the lower-cased
      "field_a field_b"; when none fires, the similarity and consistency tiers decide. */
  lemma EstimateFieldTypeSpec(fa: string, fb: string, similarity: real, consistency: real)
    ensures var combo := Lower(fa + " " + fb);
      forall k :: 0 <= k < |FieldPatterns| && Fires(combo, k) && (forall j :: 0 <= j < k ==> !Fires(combo, j)) ==>
        EstimateFieldType(fa, fb, similarity, consistency) == FieldPatterns[k].0
    ensures var combo := Lower(fa + " " + fb);
      (forall k :: 0 <= k < |FieldPatterns| ==> !Fires(combo, k)) ==>
        (EstimateFieldType(fa, fb, similarity, consistency) == "high_confidence_unknown" <==>
           similarity > 0.9 && consistency > 0.8) &&
        (EstimateFieldType(fa, fb, similarity, consistency) == "medium_confidence_unknown" <==>
           !(similarity > 0.9 && consistency > 0.8) && similarity > 0.7) &&
        (EstimateFieldType(fa, fb, similarity, consistency) == "unknown" <==> similarity <= 0.7)
  {
  }

  /** Table order decides overlaps: "card_id" contains "card", so an id column pair
      named that way is typed card_name. */
  lemma CardIdIsCardName(similarity: real, consistency: real)
    ensures EstimateFieldType("card_id", "id", similarity, consistency) == "card_name"
  {
    var combo := Lower("card_id" + " " + "id");
    assert combo == "card_id id";
    assert Lower(FieldPatterns[0].1[5]) == "card";
    assert IsPrefixOf("card", combo);
    assert Fires(combo, 0);
  }

  // ---------------------------------------------------------------------------
  // _calculate_quality_metrics and _calculate_median

  function Neg(x: real): real {
    -x
  }

  predicate SortedAsc(xs: seq<real>) {
    forall i, j :: 0 <= i < j < |xs| ==> xs[i] <= xs[j]
  }

  /** `sorted(values)`: a descending sort on the negated value. */
  function Ascending(xs: seq<real>): (r: seq<real>)
    ensures |r| == |xs| && multiset(r) == multiset(xs) && SortedAsc(r)
  {
    var r := SortDesc(xs, Neg);
    assert forall i, j :: 0 <= i < j < |r| ==> Neg(r[i]) >= Neg(r[j]);
    r
  }

  lemma SortedAscHead(xs: seq<real>, x: real)
    requires SortedAsc(xs) && x in multiset(xs)
    ensures xs != [] && xs[0] <= x
  {
    var p :| 0 <= p < |xs| && xs[p] == x;
  }

  lemma SortedAscTail(xs: seq<real>)
    requires SortedAsc(xs) && xs != []
    ensures SortedAsc(xs[1..])
    ensures multiset(xs[1..]) == multiset(xs) - multiset{xs[0]}
  {
    assert xs == [xs[0]] + xs[1..];
  }

  /** Two ascending arrangements of one multiset start alike. */
  lemma SameHead(xs: seq<real>, ys: seq<real>)
    requires SortedAsc(xs) && SortedAsc(ys) && multiset(xs) == multiset(ys) && xs != []
    ensures ys != [] && ys[0] == xs[0]
  {
    assert xs[0] in multiset(xs);
    SortedAscHead(ys, xs[0]);
    assert ys[0] in multiset(ys);
    SortedAscHead(xs, ys[0]);
  }

  /** A multiset has one ascending arrangement. */
  lemma {:induction false} SortedAscUnique(xs: seq<real>, ys: seq<real>)
    requires SortedAsc(xs) && SortedAsc(ys) && multiset(xs) == multiset(ys)
    ensures xs == ys
    decreases |xs|
  {
    if xs == [] {
      assert |multiset(ys)| == 0;
    } else {
      SameHead(xs, ys);
      SortedAscTail(xs);
      SortedAscTail(ys);
      SortedAscUnique(xs[1..], ys[1..]);
      SameHeadAndTail(xs, ys);
    }
  }

  lemma SameHeadAndTail(xs: seq<real>, ys: seq<real>)
    requires xs != [] && ys != [] && xs[0] == ys[0] && xs[1..] == ys[1..]
    ensures xs == ys
  {
    assert xs == [xs[0]] + xs[1..];
    assert ys == [ys[0]] + ys[1..];
  }

  /** `_calculate_median`. */
  function Median(xs: seq<real>): real {
    if xs == [] then 0.0 else Middle(Ascending(xs))
  }

  /** The middle value of a list, or the mean of the two middle values. */
  function Middle(s: seq<real>): real
    requires s != []
  {
    var n := |s|;
    if n % 2 == 0 then (s[n / 2 - 1] + s[n / 2]) / 2.0 else s[n / 2]
  }

  /** The median lies between the smallest and largest value, is one of the values
      for an odd count, and depends only on the values, not their order. */
  lemma MedianFacts(xs: seq<real>)
    requires xs != []
    ensures Min(xs) <= Median(xs) <= Max(xs)
    ensures |xs| % 2 == 1 ==> Median(xs) in xs
  {
    MiddleFacts(xs, Ascending(xs));
  }

  lemma MiddleFacts(xs: seq<real>, s: seq<real>)
    requires xs != [] && multiset(s) == multiset(xs) && |s| == |xs|
    ensures Min(xs) <= Middle(s) <= Max(xs)
    ensures |xs| % 2 == 1 ==> Middle(s) in xs
  {
    var h := |s| / 2;
    MiddleInRange(xs, s, h);
    if |s| % 2 == 0 {
      MiddleInRange(xs, s, h - 1);
      MidpointBetween(s[h - 1], s[h], Min(xs), Max(xs));
    }
  }

  /** An element of an arrangement of `xs` lies between its least and greatest value. */
  lemma MiddleInRange(xs: seq<real>, s: seq<real>, i: int)
    requires xs != [] && multiset(s) == multiset(xs) && 0 <= i < |s|
    ensures s[i] in xs && Min(xs) <= s[i] <= Max(xs)
  {
    assert s[i] in multiset(s);
    InRange(xs, s[i]);
  }

  lemma MidpointBetween(a: real, b: real, lo: real, hi: real)
    requires lo <= a <= hi && lo <= b <= hi
    ensures lo <= (a + b) / 2.0 <= hi
  {
  }

  lemma InRange(xs: seq<real>, v: real)
    requires v in multiset(xs)
    ensures v in xs && Min(xs) <= v <= Max(xs)
  {
    var i :| 0 <= i < |xs| && xs[i] == v;
  }

  lemma MedianOrderFree(xs: seq<real>, ys: seq<real>)
    requires multiset(xs) == multiset(ys)
    ensures Median(xs) == Median(ys)
  {
    SortedAscUnique(Ascending(xs), Ascending(ys));
    assert |xs| == |ys| by {
      assert |multiset(xs)| == |xs| && |multiset(ys)| == |ys|;
    }
  }

  /** The median is 0 for no values; otherwise, for any ascending arrangement of
      the values, it is the middle value for an odd count and the mean of the two
      middle values for an even count. */
  lemma MedianOfSorted(xs: seq<real>, s: seq<real>)
    requires SortedAsc(s) && multiset(s) == multiset(xs)
    ensures xs == [] ==> Median(xs) == 0.0
    ensures |s| == |xs|
    ensures |xs| % 2 == 1 ==> Median(xs) == s[|s| / 2]
    ensures xs != [] && |xs| % 2 == 0 ==> Median(xs) == (s[|s| / 2 - 1] + s[|s| / 2]) / 2.0
  {
    assert |multiset(xs)| == |xs| && |multiset(s)| == |s|;
    SortedAscUnique(Ascending(xs), s);
  }

  /** The metrics of an entry's scores: absent exactly when there are none. */
  function QualityMetricsOf(s: FieldStats): QualityMetrics {
    if s.details == [] then NoMetrics
    else Metrics(Min(s.details), Max(s.details), Median(s.details), s.consistency)
  }

  lemma QualityMetricsSpec(s: FieldStats)
    ensures QualityMetricsOf(s) == NoMetrics <==> s.details == []
    ensures QualityMetricsOf(s).Metrics? ==>
      var q := QualityMetricsOf(s);
      q.minSimilarity <= q.medianSimilarity <= q.maxSimilarity
      && q.minSimilarity in s.details && q.maxSimilarity in s.details
      && q.consistencyRatio == s.consistency
  {
    if s.details != [] {
      MedianFacts(s.details);
    }
  }

  // ---------------------------------------------------------------------------
  // analyze_traditional_mappings and its similarity helpers

  /** Python's `float(text)`, which is not modelled. */
  type Parser = string -> Option<real>

  /** The non-empty stripped values of a column, in row order. */
  function PresentValues(field: string, rows: seq<Row>): (r: seq<string>)
    ensures forall k :: 0 <= k < |r| ==> r[k] != ""
    decreases |rows|
  {
    if rows == [] then []
    else
      var v := CellValue(rows[0], field);
      (if v != "" then [v] else []) + PresentValues(field, rows[1..])
  }

  lemma {:induction false} PresentValuesIn(field: string, rows: seq<Row>, v: string)
    ensures v in PresentValues(field, rows) <==> v != "" && exists row :: row in rows && CellValue(row, field) == v
    decreases |rows|
  {
    if rows != [] {
      PresentValuesIn(field, rows[1..], v);
      assert rows == [rows[0]] + rows[1..];
    }
  }

  /** No value at all exactly when every row's cell is blank. */
  lemma PresentValuesEmpty(field: string, rows: seq<Row>)
    ensures PresentValues(field, rows) == [] <==> forall row :: row in rows ==> CellValue(row, field) == ""
  {
    var vs := PresentValues(field, rows);
    if vs != [] {
      PresentValuesIn(field, rows, vs[0]);
    } else {
      forall row | row in rows
        ensures CellValue(row, field) == ""
      {
        PresentValuesIn(field, rows, CellValue(row, field));
      }
    }
  }

  /** The kind `get_data_type` reports. */
  datatype DataKind = EmptyKind | NumericKind | MostlyNumericKind | TextKind

  /** `float(value.replace(',', '').replace('¥', '').replace('円', ''))` succeeds. */
  predicate Numeric(parse: Parser, v: string) {
    parse(RemoveChar(RemoveChar(RemoveChar(v, ','), '¥'), '円')).Some?
  }

  function NumericWith(parse: Parser): string -> bool {
    (v: string) => Numeric(parse, v)
  }

  /** The kind of a list of values. */
  function KindOf(parse: Parser, vs: seq<string>): DataKind {
    if vs == [] then EmptyKind
    else
      var n := Count(vs, NumericWith(parse));
      if n == |vs| then NumericKind
      else if n as real > |vs| as real * 0.7 then MostlyNumericKind
      else TextKind
  }

  /** `get_data_type` of one column. */
  function DataKindOf(parse: Parser, field: string, rows: seq<Row>): DataKind {
    KindOf(parse, PresentValues(field, rows))
  }

  /** Numeric exactly when there are values and every one parses; mostly numeric
      exactly when more than 70% but not all parse. */
  lemma KindOfSpec(parse: Parser, vs: seq<string>)
    ensures KindOf(parse, vs) == EmptyKind <==> vs == []
    ensures KindOf(parse, vs) == NumericKind <==> vs != [] && forall v :: v in vs ==> Numeric(parse, v)
    ensures KindOf(parse, vs) == MostlyNumericKind <==>
      vs != [] && Count(vs, NumericWith(parse)) < |vs| && Count(vs, NumericWith(parse)) as real > |vs| as real * 0.7
  {
    if vs != [] {
      var p := NumericWith(parse);
      if Count(vs, p) == |vs| {
        forall v | v in vs
          ensures Numeric(parse, v)
        {
          var k :| 0 <= k < |vs| && vs[k] == v;
          FilterFull(vs, p, k);
        }
      } else {
        var k := FilterShort(vs, p);
        assert vs[k] in vs;
      }
    }
  }

  /** A column is of the empty kind exactly when all its cells are blank. */
  lemma DataKindEmpty(parse: Parser, field: string, rows: seq<Row>)
    ensures DataKindOf(parse, field, rows) == EmptyKind <==> forall row :: row in rows ==> CellValue(row, field) == ""
  {
    KindOfSpec(parse, PresentValues(field, rows));
    PresentValuesEmpty(field, rows);
  }

  /** `_calculate_data_type_similarity`, branch by branch; the `text`/`text` test
      comes after the equality test and is never reached. */
  function TypeSimilarity(t1: DataKind, t2: DataKind): real {
    if t1 == t2 then 1.0
    else if (t1 == NumericKind && t2 == MostlyNumericKind) || (t1 == MostlyNumericKind && t2 == NumericKind) then 0.8
    else if t1 == TextKind && t2 == TextKind then 1.0
    else 0.2
  }

  /** 1.0 exactly for equal kinds, 0.8 exactly for numeric against mostly numeric,
      0.2 for everything else; symmetric. */
  lemma TypeSimilaritySpec(t1: DataKind, t2: DataKind)
    ensures TypeSimilarity(t1, t2) == 1.0 <==> t1 == t2
    ensures TypeSimilarity(t1, t2) == 0.8 <==> {t1, t2} == {NumericKind, MostlyNumericKind}
    ensures TypeSimilarity(t1, t2) == 0.2 <==> t1 != t2 && {t1, t2} != {NumericKind, MostlyNumericKind}
    ensures TypeSimilarity(t1, t2) == TypeSimilarity(t2, t1)
  {
    if {t1, t2} == {NumericKind, MostlyNumericKind} {
      assert t1 in {NumericKind, MostlyNumericKind} && t2 in {NumericKind, MostlyNumericKind};
    }
  }

  /** The lower-cased distinct values of a column. */
  function ContentValues(field: string, rows: seq<Row>): set<string> {
    set v | v in PresentValues(field, rows) :: Lower(v)
  }

  /** `_calculate_content_similarity`. */
  function ContentSimilarity(f1: string, f2: string, d1: seq<Row>, d2: seq<Row>): real {
    if PresentValues(f1, d1) == [] || PresentValues(f2, d2) == [] then 0.0
    else Jaccard(ContentValues(f1, d1), ContentValues(f2, d2))
  }

  /** The Jaccard index of the two value sets: in [0, 1], symmetric, 0 exactly when a
      side has no value or the sets are disjoint, 1 exactly when they are equal. */
  lemma ContentSimilaritySpec(f1: string, f2: string, d1: seq<Row>, d2: seq<Row>)
    ensures ContentSimilarity(f1, f2, d1, d2) == Jaccard(ContentValues(f1, d1), ContentValues(f2, d2))
    ensures 0.0 <= ContentSimilarity(f1, f2, d1, d2) <= 1.0
    ensures ContentSimilarity(f1, f2, d1, d2) == ContentSimilarity(f2, f1, d2, d1)
    ensures ContentSimilarity(f1, f2, d1, d2) == 0.0 <==>
      PresentValues(f1, d1) == [] || PresentValues(f2, d2) == [] || ContentValues(f1, d1) * ContentValues(f2, d2) == {}
    ensures ContentSimilarity(f1, f2, d1, d2) == 1.0 <==>
      PresentValues(f1, d1) != [] && ContentValues(f1, d1) == ContentValues(f2, d2)
  {
    var s1, s2 := ContentValues(f1, d1), ContentValues(f2, d2);
    JaccardFacts(s1, s2);
    var v1, v2 := PresentValues(f1, d1), PresentValues(f2, d2);
    if v1 != [] {
      assert Lower(v1[0]) in s1;
    }
    if v2 != [] {
      assert Lower(v2[0]) in s2;
    }
  }

  /** `_calculate_traditional_field_similarity`, before rounding. */
  function TraditionalSimilarity(parse: Parser, f1: string, f2: string, d1: seq<Row>, d2: seq<Row>): real {
    0.4 * Score(f1, f2)
    + 0.3 * TypeSimilarity(DataKindOf(parse, f1, d1), DataKindOf(parse, f2, d2))
    + 0.3 * ContentSimilarity(f1, f2, d1, d2)
  }

  /** It lies in [0, 1], does not depend on the direction, and columns of the same
      kind always clear the 0.1 cut-off, since the type term alone gives 0.3. */
  lemma TraditionalSimilarityFacts(parse: Parser, f1: string, f2: string, d1: seq<Row>, d2: seq<Row>)
    ensures 0.0 <= TraditionalSimilarity(parse, f1, f2, d1, d2) <= 1.0
    ensures TraditionalSimilarity(parse, f1, f2, d1, d2) == TraditionalSimilarity(parse, f2, f1, d2, d1)
    ensures DataKindOf(parse, f1, d1) == DataKindOf(parse, f2, d2) ==> TraditionalSimilarity(parse, f1, f2, d1, d2) >= 0.3
  {
    var k1, k2 := DataKindOf(parse, f1, d1), DataKindOf(parse, f2, d2);
    var n, t, c := Score(f1, f2), TypeSimilarity(k1, k2), ContentSimilarity(f1, f2, d1, d2);
    TypeSimilaritySpec(k1, k2);
    ContentSimilaritySpec(f1, f2, d1, d2);
    assert Score(f2, f1) == n;
    assert 0.2 <= t <= 1.0;
    assert TraditionalSimilarity(parse, f1, f2, d1, d2) == 0.4 * n + 0.3 * t + 0.3 * c;
    assert TraditionalSimilarity(parse, f2, f1, d2, d1) == 0.4 * n + 0.3 * t + 0.3 * c;
  }

  /** The explanation `_get_similarity_reason` gives. */
  datatype Reason = ExactName | PartialName | CommonChars(count: nat) | ContentBased

  function CharSet(s: string): set<char> {
    set c | c in s
  }

  function SimilarityReason(f1: string, f2: string): Reason {
    var l1, l2 := Lower(f1), Lower(f2);
    if l1 == l2 then ExactName
    else if Contains(l2, l1) || Contains(l1, l2) then PartialName
    else
      var n := |CharSet(l1) * CharSet(l2)|;
      if n > 2 then CommonChars(n) else ContentBased
  }

  /** The reason is symmetric; a character-count reason names more than two shared
      characters of two lower-cased names neither of which contains the other. */
  lemma SimilarityReasonSpec(f1: string, f2: string)
    ensures SimilarityReason(f1, f2) == SimilarityReason(f2, f1)
    ensures SimilarityReason(f1, f2) == ExactName <==> Lower(f1) == Lower(f2)
    ensures SimilarityReason(f1, f2).CommonChars? ==>
      SimilarityReason(f1, f2).count > 2 && !Contains(Lower(f1), Lower(f2)) && !Contains(Lower(f2), Lower(f1))
      && SimilarityReason(f1, f2).count == |CharSet(Lower(f1)) * CharSet(Lower(f2))|
  {
    var l1, l2 := Lower(f1), Lower(f2);
    assert CharSet(l1) * CharSet(l2) == CharSet(l2) * CharSet(l1);
  }

  /** One `best_matches` entry. */
  datatype TargetMatch = TargetMatch(targetField: string, similarity: real, reason: Reason)

  /** One `{'source_field', 'matches'}` entry. */
  datatype SourceMapping = SourceMapping(sourceField: string, matches: seq<TargetMatch>)

  function SimilarityOf(t: TargetMatch): real {
    t.similarity
  }

  /** The entry one target field would get. */
  function CandidateFor(parse: Parser, fs: string, ft: string, ds: seq<Row>, dt: seq<Row>): TargetMatch {
    TargetMatch(ft, TraditionalSimilarity(parse, fs, ft, ds, dt), SimilarityReason(fs, ft))
  }

  function ScorerFor(parse: Parser, fs: string, ds: seq<Row>, dt: seq<Row>): string -> TargetMatch {
    (ft: string) => CandidateFor(parse, fs, ft, ds, dt)
  }

  /** The targets whose entry scores above 0.1, in target order. */
  function Candidates(cand: string -> TargetMatch, targets: seq<string>): seq<TargetMatch>
    decreases |targets|
  {
    if targets == [] then []
    else
      var c := cand(targets[0]);
      (if c.similarity > 0.1 then [c] else []) + Candidates(cand, targets[1..])
  }

  lemma {:induction false} CandidatesIn(cand: string -> TargetMatch, targets: seq<string>, c: TargetMatch)
    ensures c in Candidates(cand, targets) <==> exists ft :: ft in targets && c == cand(ft) && c.similarity > 0.1
    decreases |targets|
  {
    if targets != [] {
      CandidatesIn(cand, targets[1..], c);
      assert targets == [targets[0]] + targets[1..];
    }
  }

  /** `best_matches[:3]` after the stable descending sort. */
  function Top3(cand: string -> TargetMatch, targets: seq<string>): seq<TargetMatch> {
    Take(SortDesc(Candidates(cand, targets), SimilarityOf), 3)
  }

  /** At most three entries, best first, each of a target scoring above 0.1; a
      qualifying target left out scores no higher than each of the three kept. */
  lemma Top3Spec(cand: string -> TargetMatch, targets: seq<string>)
    ensures |Top3(cand, targets)| <= 3 && SortedDesc(Top3(cand, targets), SimilarityOf)
    ensures forall t :: t in Top3(cand, targets) ==> exists ft :: ft in targets && t == cand(ft) && t.similarity > 0.1
    ensures forall ft :: ft in targets && cand(ft).similarity > 0.1 ==>
      cand(ft) in Top3(cand, targets) ||
      (|Top3(cand, targets)| == 3 && forall t :: t in Top3(cand, targets) ==> t.similarity >= cand(ft).similarity)
  {
    Top3Sound(cand, targets);
    Top3Complete(cand, targets);
  }

  lemma Top3Sound(cand: string -> TargetMatch, targets: seq<string>)
    ensures forall t :: t in Top3(cand, targets) ==> exists ft :: ft in targets && t == cand(ft) && t.similarity > 0.1
  {
    var all := Candidates(cand, targets);
    forall t | t in Top3(cand, targets)
      ensures exists ft :: ft in targets && t == cand(ft) && t.similarity > 0.1
    {
      assert t in multiset(SortDesc(all, SimilarityOf));
      CandidatesIn(cand, targets, t);
    }
  }

  lemma Top3Complete(cand: string -> TargetMatch, targets: seq<string>)
    ensures forall ft :: ft in targets && cand(ft).similarity > 0.1 ==>
      cand(ft) in Top3(cand, targets) ||
      (|Top3(cand, targets)| == 3 && forall t :: t in Top3(cand, targets) ==> t.similarity >= cand(ft).similarity)
  {
    var all := Candidates(cand, targets);
    forall ft | ft in targets && cand(ft).similarity > 0.1
      ensures cand(ft) in Top3(cand, targets) ||
              (|Top3(cand, targets)| == 3 && forall t :: t in Top3(cand, targets) ==> t.similarity >= cand(ft).similarity)
    {
      CandidatesIn(cand, targets, cand(ft));
      TopOfSort(all, SimilarityOf, 3, cand(ft));
    }
  }

  function TopMatches(parse: Parser, fs: string, targets: seq<string>, ds: seq<Row>, dt: seq<Row>): seq<TargetMatch> {
    Top3(ScorerFor(parse, fs, ds, dt), targets)
  }

  /** The top matches of one source field: at most three, best first, each the
      entry of a target scoring above 0.1, and any qualifying target left out scores
      no higher than each kept one. */
  lemma TopMatchesSpec(parse: Parser, fs: string, targets: seq<string>, ds: seq<Row>, dt: seq<Row>)
    ensures |TopMatches(parse, fs, targets, ds, dt)| <= 3 && SortedDesc(TopMatches(parse, fs, targets, ds, dt), SimilarityOf)
    ensures forall t :: t in TopMatches(parse, fs, targets, ds, dt) ==>
      t.targetField in targets && t.similarity > 0.1 && t == CandidateFor(parse, fs, t.targetField, ds, dt)
    ensures forall ft :: ft in targets && TraditionalSimilarity(parse, fs, ft, ds, dt) > 0.1 ==>
      CandidateFor(parse, fs, ft, ds, dt) in TopMatches(parse, fs, targets, ds, dt) ||
      (|TopMatches(parse, fs, targets, ds, dt)| == 3 &&
       forall t :: t in TopMatches(parse, fs, targets, ds, dt) ==> t.similarity >= TraditionalSimilarity(parse, fs, ft, ds, dt))
  {
    var cand := ScorerFor(parse, fs, ds, dt);
    Top3Spec(cand, targets);
    forall t | t in Top3(cand, targets)
      ensures t.targetField in targets && t == CandidateFor(parse, fs, t.targetField, ds, dt)
    {
      var ft :| ft in targets && t == cand(ft) && t.similarity > 0.1;
      assert cand(ft) == CandidateFor(parse, fs, ft, ds, dt);
    }
    forall ft | ft in targets
      ensures cand(ft) == CandidateFor(parse, fs, ft, ds, dt)
    {
    }
  }

  /** One direction of the traditional analysis: an entry per source field, in order. */
  function Direction(parse: Parser, sources: seq<string>, targets: seq<string>, ds: seq<Row>, dt: seq<Row>)
    : (r: seq<SourceMapping>)
    ensures |r| == |sources|
    ensures forall i :: 0 <= i < |sources| ==> r[i] == SourceMapping(sources[i], TopMatches(parse, sources[i], targets, ds, dt))
  {
    seq(|sources|, i requires 0 <= i < |sources| => SourceMapping(sources[i], TopMatches(parse, sources[i], targets, ds, dt)))
  }

  /** `analyze_traditional_mappings`: (a_to_b, b_to_a). */
  function AnalyzeTraditionalMappings(parse: Parser, ha: seq<string>, hb: seq<string>, da: seq<Row>, db: seq<Row>)
    : (seq<SourceMapping>, seq<SourceMapping>)
  {
    (Direction(parse, ha, hb, da, db), Direction(parse, hb, ha, db, da))
  }

  /** Every source field gets one entry, in header order, with at most three
      matches into the other side, each scoring above 0.1, best first. */
  lemma DirectionSpec(parse: Parser, sources: seq<string>, targets: seq<string>, ds: seq<Row>, dt: seq<Row>, i: nat)
    requires i < |sources|
    ensures var e := Direction(parse, sources, targets, ds, dt)[i];
      e.sourceField == sources[i] && |e.matches| <= 3 && SortedDesc(e.matches, SimilarityOf)
      && forall t :: t in e.matches ==>
           t.targetField in targets && t.similarity > 0.1
           && t.similarity == TraditionalSimilarity(parse, sources[i], t.targetField, ds, dt)
  {
    TopMatchesSpec(parse, sources[i], targets, ds, dt);
  }

  /** A B-to-A match scores exactly what the A-to-B comparison of the same two
      columns scores. */
  lemma ReverseDirectionAgrees(parse: Parser, ha: seq<string>, hb: seq<string>, da: seq<Row>, db: seq<Row>, j: nat)
    requires j < |hb|
    ensures forall t :: t in AnalyzeTraditionalMappings(parse, ha, hb, da, db).1[j].matches ==>
      t.targetField in ha && t.similarity == TraditionalSimilarity(parse, t.targetField, hb[j], da, db)
  {
    DirectionSpec(parse, hb, ha, db, da, j);
    forall fa | fa in ha
      ensures TraditionalSimilarity(parse, hb[j], fa, db, da) == TraditionalSimilarity(parse, fa, hb[j], da, db)
    {
      TraditionalSimilarityFacts(parse, hb[j], fa, db, da);
    }
  }

  // ---------------------------------------------------------------------------
  // create_mapping_rules

  /** One rule dict (`mapping_type` is always 'direct', `transform_rule` None and
      `active` True, so they are not stored). */
  datatype MappingRule = MappingRule(ruleId: string, fieldType: string, sourceField: string, targetField: string,
                                     confidence: real, similarity: real, consistency: real, sampleCount: nat)

  function RuleOf(k: nat, m: ConfidentMapping): MappingRule {
    MappingRule("rule_" + NatToString(k + 1), m.fieldType, m.fieldA, m.fieldB, m.confidence, m.similarity,
                m.consistency, m.sampleCount)
  }

  /** Rules numbered differently have different ids. */
  lemma RuleIdsDiffer(i: nat, j: nat, a: ConfidentMapping, b: ConfidentMapping)
    requires i != j
    ensures RuleOf(i, a).ruleId != RuleOf(j, b).ruleId
  {
    var x, y := NatToString(i + 1), NatToString(j + 1);
    if "rule_" + x == "rule_" + y {
      assert x == ("rule_" + x)[5..] && y == ("rule_" + y)[5..];
      NatToStringInjective(i + 1, j + 1);
    }
  }

  function AtLeast(threshold: real): ConfidentMapping -> bool {
    (m: ConfidentMapping) => m.confidence >= threshold
  }

  /** The mappings that become rules. */
  function RuleSources(ms: seq<ConfidentMapping>, threshold: real): seq<ConfidentMapping> {
    Filter(ms, AtLeast(threshold))
  }

  /** `create_mapping_rules`: the mappings with confidence at or above the threshold,
      in order, numbered rule_1, rule_2, … as they are appended. */
  method CreateMappingRules(ms: seq<ConfidentMapping>, threshold: real) returns (rules: seq<MappingRule>)
    ensures |rules| == |RuleSources(ms, threshold)|
    ensures forall k :: 0 <= k < |rules| ==> rules[k] == RuleOf(k, RuleSources(ms, threshold)[k])
  {
    rules := [];
    var i := 0;
    while i < |ms|
      invariant 0 <= i <= |ms|
      invariant rules == Numbered(RuleSources(ms[..i], threshold))
    {
      RulesStep(ms, threshold, i);
      if ms[i].confidence >= threshold {
        rules := rules + [RuleOf(|rules|, ms[i])];
      }
      i := i + 1;
    }
    assert ms[..|ms|] == ms;
  }

  /** Looking at one more mapping appends its rule when it qualifies. */
  lemma RulesStep(ms: seq<ConfidentMapping>, threshold: real, i: nat)
    requires i < |ms|
    ensures Numbered(RuleSources(ms[..i + 1], threshold))
         == Numbered(RuleSources(ms[..i], threshold))
            + (if ms[i].confidence >= threshold then [RuleOf(|RuleSources(ms[..i], threshold)|, ms[i])] else [])
  {
    var p := AtLeast(threshold);
    FilterSnoc(ms, i, p);
    NumberedSnoc(Filter(ms[..i], p), ms[i]);
  }

  /** The rules of `xs`, numbered by position. */
  function Numbered(xs: seq<ConfidentMapping>): (r: seq<MappingRule>)
    ensures |r| == |xs| && forall k :: 0 <= k < |xs| ==> r[k] == RuleOf(k, xs[k])
  {
    seq(|xs|, k requires 0 <= k < |xs| => RuleOf(k, xs[k]))
  }

  lemma NumberedSnoc(xs: seq<ConfidentMapping>, x: ConfidentMapping)
    ensures Numbered(xs + [x]) == Numbered(xs) + [RuleOf(|xs|, x)]
  {
    var l, r := Numbered(xs + [x]), Numbered(xs) + [RuleOf(|xs|, x)];
    forall k | 0 <= k < |l|
      ensures l[k] == r[k]
    {
      if k < |xs| {
        assert (xs + [x])[k] == xs[k];
      }
    }
  }

  /** The rules are exactly the mappings at or above the threshold: each has such a
      confidence, each such mapping has a rule, and the ids are pairwise distinct. */
  lemma MappingRulesSpec(ms: seq<ConfidentMapping>, threshold: real, rules: seq<MappingRule>)
    requires |rules| == |RuleSources(ms, threshold)|
    requires forall k :: 0 <= k < |rules| ==> rules[k] == RuleOf(k, RuleSources(ms, threshold)[k])
    ensures forall k :: 0 <= k < |rules| ==> rules[k].confidence >= threshold
    ensures forall m :: m in ms && m.confidence >= threshold ==>
      exists k :: 0 <= k < |rules| && rules[k].sourceField == m.fieldA && rules[k].targetField == m.fieldB
    ensures forall i, j :: 0 <= i < j < |rules| ==> rules[i].ruleId != rules[j].ruleId
  {
    RulesAboveThreshold(ms, threshold, rules);
    RulesCoverSources(ms, threshold, rules);
    RuleIdsDistinct(ms, threshold, rules);
  }

  lemma RulesAboveThreshold(ms: seq<ConfidentMapping>, threshold: real, rules: seq<MappingRule>)
    requires |rules| == |RuleSources(ms, threshold)|
    requires forall k :: 0 <= k < |rules| ==> rules[k] == RuleOf(k, RuleSources(ms, threshold)[k])
    ensures forall k :: 0 <= k < |rules| ==> rules[k].confidence >= threshold
  {
    var kept := RuleSources(ms, threshold);
    forall k | 0 <= k < |rules|
      ensures rules[k].confidence >= threshold
    {
      assert AtLeast(threshold)(kept[k]);
    }
  }

  lemma RulesCoverSources(ms: seq<ConfidentMapping>, threshold: real, rules: seq<MappingRule>)
    requires |rules| == |RuleSources(ms, threshold)|
    requires forall k :: 0 <= k < |rules| ==> rules[k] == RuleOf(k, RuleSources(ms, threshold)[k])
    ensures forall m :: m in ms && m.confidence >= threshold ==>
      exists k :: 0 <= k < |rules| && rules[k].sourceField == m.fieldA && rules[k].targetField == m.fieldB
  {
    var kept := RuleSources(ms, threshold);
    forall m | m in ms && m.confidence >= threshold
      ensures exists k :: 0 <= k < |rules| && rules[k].sourceField == m.fieldA && rules[k].targetField == m.fieldB
    {
      var q :| 0 <= q < |ms| && ms[q] == m;
      assert AtLeast(threshold)(ms[q]);
      assert m in kept;
      var k :| 0 <= k < |kept| && kept[k] == m;
      assert rules[k].sourceField == m.fieldA;
    }
  }

  lemma RuleIdsDistinct(ms: seq<ConfidentMapping>, threshold: real, rules: seq<MappingRule>)
    requires |rules| == |RuleSources(ms, threshold)|
    requires forall k :: 0 <= k < |rules| ==> rules[k] == RuleOf(k, RuleSources(ms, threshold)[k])
    ensures forall i, j :: 0 <= i < j < |rules| ==> rules[i].ruleId != rules[j].ruleId
  {
    var kept := RuleSources(ms, threshold);
    forall i, j | 0 <= i < j < |rules|
      ensures rules[i].ruleId != rules[j].ruleId
    {
      RuleIdsDiffer(i, j, kept[i], kept[j]);
    }
  }
}
