/** `MappingEngine`: the card-based analysis with its fallback to the traditional
    one, the mapping summary with its recommendations, rule export and the
    validation of a mapping list. */
module MappingEngine {
  import opened Seqs
  import Sets
  import opened Wrappers
  import opened Rows
  import opened BruteForceScoring
  import opened BruteForce
  import opened FieldMapper

  // ---------------------------------------------------------------------------
  // analyze_card_based_mapping

  /** `find_matching_cards` samples at most this many rows per side. */
  const MatchSampleSize: nat := 100

  /** What `analyze_card_based_mapping` returns: (enhanced_mappings, card_matches) on
      the card-based path, and (a_to_b, b_to_a) of the traditional analysis after a
      fallback. */
  datatype CardBasedOutcome =
    | CardBased(mappings: seq<ConfidentMapping>, matches: seq<BfMatch>)
    | Traditional(aToB: seq<SourceMapping>, bToA: seq<SourceMapping>)

  /** The matched rows the field mapper reads. */
  function CardPairs(ms: seq<BfMatch>): (r: seq<CardPair>)
    ensures |r| == |ms|
    ensures forall i :: 0 <= i < |ms| ==> r[i] == CardPair(ms[i].dataA, ms[i].dataB)
  {
    seq(|ms|, i requires 0 <= i < |ms| => CardPair(ms[i].dataA, ms[i].dataB))
  }

  /** `full_data if full_data else sample_data`: an absent or empty full list falls
      back to the sample. */
  function ChooseData(sample: seq<Row>, full: Option<seq<Row>>): seq<Row> {
    if full.Some? && full.value != [] then full.value else sample
  }

  /** The traditional analysis, always on the sample rows. */
  function Fallback(m: Measures, ha: seq<string>, hb: seq<string>, sampleA: seq<Row>, sampleB: seq<Row>)
    : CardBasedOutcome
  {
    var (ab, ba) := AnalyzeTraditionalMappings(m.parseFloat, ha, hb, sampleA, sampleB);
    Traditional(ab, ba)
  }

  /** `analyze_card_based_mapping`: an exception anywhere in the card path (here: a
      failing brute-force match or confidence step) also falls back. */
  function AnalyzeCardBasedMapping(cfg: MapperConfig, m: Measures, ha: seq<string>, hb: seq<string>,
                                   sampleA: seq<Row>, sampleB: seq<Row>,
                                   fullA: Option<seq<Row>>, fullB: Option<seq<Row>>): CardBasedOutcome
  {
    var dataA := ChooseData(sampleA, fullA);
    var dataB := ChooseData(sampleB, fullB);
    match BruteForceMatching(m, dataA, dataB, ha, hb, MatchSampleSize)
    case Failure(_) => Fallback(m, ha, hb, sampleA, sampleB)
    case Success(res) =>
      if (|res.matches| as real) < cfg.minSampleCount then Fallback(m, ha, hb, sampleA, sampleB)
      else
        match CalculateMappingConfidence(cfg, AnalyzeFieldMappings(CardPairs(res.matches), ha, hb), |res.matches|)
        case Failure(_) => Fallback(m, ha, hb, sampleA, sampleB)
        case Success(ms) => CardBased(ms, res.matches)
  }

  /** The confidence step cannot divide by zero on the card path: an entry needs a
      match, and a match makes the divisor at least 0.3. */
  lemma CardPathConfidenceSucceeds(cfg: MapperConfig, ms: seq<BfMatch>, ha: seq<string>, hb: seq<string>)
    ensures CalculateMappingConfidence(cfg, AnalyzeFieldMappings(CardPairs(ms), ha, hb), |ms|).Success?
  {
    var pairs := CardPairs(ms);
    var stats := AnalyzeFieldMappings(pairs, ha, hb);
    CalculateMappingConfidenceSpec(cfg, stats, |ms|);
    if stats != [] {
      var e := stats[0];
      AnalyzeFieldMappingsSpec(pairs, ha, hb, e.fieldA, e.fieldB);
      DetailsSpec(pairs, e.fieldA, e.fieldB);
      assert e in stats;
      assert pairs != [];
    }
  }

  /** The analysis falls back exactly when the brute-force match fails or finds
      fewer matches than `min_sample_count`; otherwise it returns the confident
      mappings of those matches together with the matches. */
  lemma AnalyzeCardBasedMappingSpec(cfg: MapperConfig, m: Measures, ha: seq<string>, hb: seq<string>,
                                    sampleA: seq<Row>, sampleB: seq<Row>,
                                    fullA: Option<seq<Row>>, fullB: Option<seq<Row>>)
    ensures var r := BruteForceMatching(m, ChooseData(sampleA, fullA), ChooseData(sampleB, fullB), ha, hb, MatchSampleSize);
      var out := AnalyzeCardBasedMapping(cfg, m, ha, hb, sampleA, sampleB, fullA, fullB);
      (out.Traditional? <==> r.Failure? || (|r.value.matches| as real) < cfg.minSampleCount)
      && (out.Traditional? ==> out == Fallback(m, ha, hb, sampleA, sampleB))
      && (out.CardBased? ==>
            r.Success? && out.matches == r.value.matches
            && out.mappings == CalculateMappingConfidence(cfg, AnalyzeFieldMappings(CardPairs(out.matches), ha, hb),
                                                          |out.matches|).value)
  {
    var r := BruteForceMatching(m, ChooseData(sampleA, fullA), ChooseData(sampleB, fullB), ha, hb, MatchSampleSize);
    if r.Success? {
      CardPathConfidenceSucceeds(cfg, r.value.matches, ha, hb);
    }
  }

  /** A header holding the '→' separator makes the brute-force step raise, and the
      analysis returns the traditional result instead. */
  lemma ArrowHeaderCanFallBack(cfg: MapperConfig, m: Measures, ha: seq<string>, hb: seq<string>,
                               sampleA: seq<Row>, sampleB: seq<Row>, fullA: Option<seq<Row>>, fullB: Option<seq<Row>>)
    requires BruteForceMatching(m, ChooseData(sampleA, fullA), ChooseData(sampleB, fullB), ha, hb, MatchSampleSize).Failure?
    ensures AnalyzeCardBasedMapping(cfg, m, ha, hb, sampleA, sampleB, fullA, fullB) == Fallback(m, ha, hb, sampleA, sampleB)
    ensures (exists h :: h in ha && Arrow in h) || (exists h :: h in hb && Arrow in h)
  {
    if (forall h :: h in ha ==> Arrow !in h) && (forall h :: h in hb ==> Arrow !in h) {
      ArrowFreeHeadersSucceed(m, ChooseData(sampleA, fullA), ChooseData(sampleB, fullB), ha, hb, MatchSampleSize);
    }
  }

  /** The fallback covers every header of each side once, in order. */
  lemma FallbackShape(m: Measures, ha: seq<string>, hb: seq<string>, sampleA: seq<Row>, sampleB: seq<Row>)
    ensures var out := Fallback(m, ha, hb, sampleA, sampleB);
      |out.aToB| == |ha| && |out.bToA| == |hb|
      && (forall i :: 0 <= i < |ha| ==> out.aToB[i].sourceField == ha[i])
      && (forall j :: 0 <= j < |hb| ==> out.bToA[j].sourceField == hb[j])
  {
  }

  // ---------------------------------------------------------------------------
  // create_mapping_summary, validate_mapping_results and _generate_recommendations

  /** What `m.get(...)` sees of one mapping dict: `None` for a missing key. */
  datatype MappingView = MappingView(fieldType: Option<string>, aField: Option<string>, bField: Option<string>,
                                     confidence: Option<real>)

  /** A dict built by `calculate_mapping_confidence`. */
  function ViewOfConfident(c: ConfidentMapping): MappingView {
    MappingView(Some(c.fieldType), Some(c.fieldA), Some(c.fieldB), Some(c.confidence))
  }

  /** A dict of the web route's conversion of flexible mappings, which stores the
      columns under 'field_a' and 'field_b'. */
  function ViewOfFlexible(fa: string, fb: string, score: real): MappingView {
    MappingView(Some("flexible"), None, None, Some(score))
  }

  function ConfidenceOfView(v: MappingView): real {
    v.confidence.GetOr(0.0)
  }

  function AFieldOf(v: MappingView): string {
    v.aField.GetOr("")
  }

  function BFieldOf(v: MappingView): string {
    v.bField.GetOr("")
  }

  function Confidences(vs: seq<MappingView>): (r: seq<real>)
    ensures |r| == |vs| && forall i :: 0 <= i < |vs| ==> r[i] == ConfidenceOfView(vs[i])
  {
    seq(|vs|, i requires 0 <= i < |vs| => ConfidenceOfView(vs[i]))
  }

  predicate HighConfidence(c: real) {
    c > 0.8
  }

  predicate MediumConfidence(c: real) {
    0.6 < c <= 0.8
  }

  predicate LowConfidence(c: real) {
    c <= 0.6
  }

  /** The distinct truthy values of one field column. */
  function CoveredFields(vs: seq<MappingView>, field: MappingView -> string): set<string> {
    set f | f in Map(vs, field) && f != ""
  }

  /** `len(set(...)) / len(headers)`: Python raises on an empty header list. */
  function Coverage(vs: seq<MappingView>, field: MappingView -> string, headerCount: nat): Result<real, PyError> {
    if headerCount == 0 then Failure(ZeroDivision)
    else Success(|CoveredFields(vs, field)| as real / headerCount as real)
  }

  /** The messages `_generate_recommendations` can give. */
  datatype Recommendation =
    | CleanAndReanalyse
    | UseRuleSet
    | UseHighConfidenceOnly
    | ReviewManually
    | AnalyseMoreData
    | NormaliseNames

  /** `_generate_recommendations`. */
  function GenerateRecommendations(vs: seq<MappingView>, matchCount: nat, averageScore: real): seq<Recommendation> {
    if vs == [] then [CleanAndReanalyse]
    else
      var ratio := Count(Confidences(vs), HighConfidence) as real / |vs| as real;
      [if ratio > 0.8 then UseRuleSet else if ratio > 0.5 then UseHighConfidenceOnly else ReviewManually]
      + (if matchCount < 10 then [AnalyseMoreData] else [])
      + (if averageScore < 0.8 then [NormaliseNames] else [])
  }

  predicate QualityMessage(r: Recommendation) {
    r == UseRuleSet || r == UseHighConfidenceOnly || r == ReviewManually
  }

  /** One item for no mappings; otherwise exactly one quality verdict, first, then
      the match-count advice exactly when there are fewer than 10 matches and the
      normalisation advice exactly when the average match score is below 0.8. */
  lemma GenerateRecommendationsSpec(vs: seq<MappingView>, matchCount: nat, averageScore: real)
    ensures var r := GenerateRecommendations(vs, matchCount, averageScore);
      (vs == [] ==> r == [CleanAndReanalyse])
      && (vs != [] ==>
            1 <= |r| <= 3 && QualityMessage(r[0])
            && (forall k :: 1 <= k < |r| ==> !QualityMessage(r[k]))
            && (AnalyseMoreData in r <==> matchCount < 10)
            && (NormaliseNames in r <==> averageScore < 0.8)
            && (r[0] == UseRuleSet <==>
                  Count(Confidences(vs), HighConfidence) as real > 0.8 * |vs| as real))
  {
    if vs != [] {
      var h := Count(Confidences(vs), HighConfidence) as real;
      var n := |vs| as real;
      DivAbove(h, n, 0.8);
    }
  }

  /** The summary dict (the match quality is `analyze_match_quality` of the matches). */
  datatype MappingSummary = MappingSummary(
    totalFieldsA: nat, totalFieldsB: nat, totalRecordsA: nat, totalRecordsB: nat,
    cardMatchesFound: nat, totalMappings: nat,
    highCount: nat, mediumCount: nat, lowCount: int, averageConfidence: real,
    coverageA: real, coverageB: real,
    matchQuality: QualitySummary, typeDistribution: map<string, nat>,
    recommendations: seq<Recommendation>)

  function FieldTypeOf(v: MappingView): string {
    v.fieldType.GetOr("unknown")
  }

  /** `field_type_distribution`: how many mappings carry each field type. */
  function TypeDistribution(vs: seq<MappingView>): map<string, nat> {
    var ts := Map(vs, FieldTypeOf);
    map t | t in ts :: multiset(ts)[t]
  }

  function AverageConfidence(vs: seq<MappingView>): real {
    if vs == [] then 0.0 else Mean(Confidences(vs))
  }

  /** `create_mapping_summary`; a side without headers makes the coverage division
      raise. */
  function CreateMappingSummary(vs: seq<MappingView>, matches: seq<ScoreFields>, headersA: nat, headersB: nat,
                                rowsA: nat, rowsB: nat): Result<MappingSummary, PyError>
  {
    var cs := Confidences(vs);
    var high := Count(cs, HighConfidence);
    var medium := Count(cs, MediumConfidence);
    var quality := AnalyzeMatchQuality(matches);
    match Coverage(vs, AFieldOf, headersA)
    case Failure(e) => Failure(e)
    case Success(covA) =>
      match Coverage(vs, BFieldOf, headersB)
      case Failure(e) => Failure(e)
      case Success(covB) =>
        Success(MappingSummary(headersA, headersB, rowsA, rowsB, |matches|, |vs|, high, medium, |vs| - high - medium,
                               AverageConfidence(vs), covA, covB, quality, TypeDistribution(vs),
                               GenerateRecommendations(vs, |matches|, quality.averageScore)))
  }

  /** The three tiers split the confidences between them. */
  lemma {:induction false} ConfidenceTiersPartition(cs: seq<real>)
    ensures Count(cs, HighConfidence) + Count(cs, MediumConfidence) + Count(cs, LowConfidence) == |cs|
    decreases |cs|
  {
    if cs != [] {
      ConfidenceTiersPartition(cs[1..]);
      assert cs == [cs[0]] + cs[1..];
      FilterConcat([cs[0]], cs[1..], HighConfidence);
      FilterConcat([cs[0]], cs[1..], MediumConfidence);
      FilterConcat([cs[0]], cs[1..], LowConfidence);
    }
  }

  /** The summary fails exactly when a side has no headers. Otherwise the low tier
      is the count of confidences at or below 0.6, so the tiers partition the
      mappings; the average is 0 for no mappings and in [0, 1] for confidences in
      [0, 1]; each coverage is at most 1 when the mappings name only that side's
      headers. */
  lemma CreateMappingSummarySpec(vs: seq<MappingView>, matches: seq<ScoreFields>, ha: seq<string>, hb: seq<string>,
                                 rowsA: nat, rowsB: nat)
    ensures CreateMappingSummary(vs, matches, |ha|, |hb|, rowsA, rowsB).Failure? <==> ha == [] || hb == []
    ensures CreateMappingSummary(vs, matches, |ha|, |hb|, rowsA, rowsB).Success? ==>
      var s := CreateMappingSummary(vs, matches, |ha|, |hb|, rowsA, rowsB).value;
      s.lowCount == Count(Confidences(vs), LowConfidence)
      && s.highCount + s.mediumCount + s.lowCount == |vs| == s.totalMappings
      && (vs == [] ==> s.averageConfidence == 0.0)
      && ((forall i :: 0 <= i < |vs| ==> 0.0 <= ConfidenceOfView(vs[i]) <= 1.0) ==> 0.0 <= s.averageConfidence <= 1.0)
      && ((forall i :: 0 <= i < |vs| ==> AFieldOf(vs[i]) == "" || AFieldOf(vs[i]) in ha) ==> 0.0 <= s.coverageA <= 1.0)
      && ((forall i :: 0 <= i < |vs| ==> BFieldOf(vs[i]) == "" || BFieldOf(vs[i]) in hb) ==> 0.0 <= s.coverageB <= 1.0)
  {
    ConfidenceTiersPartition(Confidences(vs));
    if ha != [] && hb != [] {
      CoverageBound(vs, AFieldOf, ha);
      CoverageBound(vs, BFieldOf, hb);
    }
  }

  lemma CoverageBound(vs: seq<MappingView>, field: MappingView -> string, hs: seq<string>)
    requires hs != []
    ensures Coverage(vs, field, |hs|).Success?
    ensures (forall i :: 0 <= i < |vs| ==> field(vs[i]) == "" || field(vs[i]) in hs) ==>
      0.0 <= Coverage(vs, field, |hs|).value <= 1.0
  {
    if forall i :: 0 <= i < |vs| ==> field(vs[i]) == "" || field(vs[i]) in hs {
      var covered := CoveredFields(vs, field);
      var headers := set h | h in hs;
      forall f | f in covered
        ensures f in headers
      {
        var i :| 0 <= i < |vs| && Map(vs, field)[i] == f;
      }
      Sets.SubsetCard(covered, headers);
      SetOfSeqCard(hs);
      Sets.RatioFacts(|covered|, |hs|);
    }
  }

  /** Every field type present gets a positive count, and only present types appear. */
  lemma TypeDistributionSpec(vs: seq<MappingView>, t: string)
    ensures t in TypeDistribution(vs) <==> exists i :: 0 <= i < |vs| && FieldTypeOf(vs[i]) == t
    ensures t in TypeDistribution(vs) ==> 1 <= TypeDistribution(vs)[t] <= |vs|
  {
    var ts := Map(vs, FieldTypeOf);
    if t in ts {
      var i :| 0 <= i < |ts| && ts[i] == t;
      assert FieldTypeOf(vs[i]) == t;
      MultisetCountBound(ts, t);
    }
  }

  /** `xs.count(x)` is at most `len(xs)`. */
  lemma {:induction false} MultisetCountBound<T>(xs: seq<T>, x: T)
    ensures multiset(xs)[x] <= |xs|
    decreases |xs|
  {
    if xs != [] {
      var t := xs[1..];
      assert xs == [xs[0]] + t;
      MultisetCountBound(t, x);
    }
  }

  /** The findings of `validate_mapping_results`. */
  datatype Warning =
    | NoCardMatches
    | DuplicateAFields(fields: set<string>)
    | DuplicateBFields(fields: set<string>)
    | MostlyLowConfidence

  datatype ValidationStats = ValidationStats(totalMappings: nat, uniqueAFields: nat, uniqueBFields: nat,
                                             averageConfidence: real, lowConfidenceCount: nat)

  datatype ValidationResult = ValidationResult(isValid: bool, noMappingsIssue: bool, warnings: seq<Warning>,
                                               statistics: Option<ValidationStats>)

  predicate LowValidation(c: real) {
    c < 0.5
  }

  /** `validate_mapping_results`: no mappings is the one issue and returns at once;
      every other finding is a warning and leaves the result valid. */
  function ValidateMappingResults(vs: seq<MappingView>, matchCount: nat): ValidationResult {
    if vs == [] then ValidationResult(false, true, [], None)
    else
      var aFields := Map(vs, AFieldOf);
      var bFields := Map(vs, BFieldOf);
      var dupA := Duplicates(aFields);
      var dupB := Duplicates(bFields);
      var cs := Confidences(vs);
      var low := Count(cs, LowValidation);
      var warnings := WarningsOf(matchCount, dupA, dupB, low as real > |vs| as real * 0.5);
      ValidationResult(true, false, warnings,
                       Some(ValidationStats(|vs|, |set f | f in aFields|, |set f | f in bFields|, Mean(cs), low)))
  }

  /** The warnings in the order they are appended. */
  function WarningsOf(matchCount: nat, dupA: set<string>, dupB: set<string>, mostlyLow: bool): seq<Warning> {
    (if matchCount == 0 then [NoCardMatches] else [])
    + (if dupA != {} then [DuplicateAFields(dupA)] else [])
    + (if dupB != {} then [DuplicateBFields(dupB)] else [])
    + (if mostlyLow then [MostlyLowConfidence] else [])
  }

  /** Each warning is raised exactly by its own test, and a duplicate warning
      carries that side's duplicate set. */
  lemma WarningsOfMembers(matchCount: nat, dupA: set<string>, dupB: set<string>, mostlyLow: bool)
    ensures var ws := WarningsOf(matchCount, dupA, dupB, mostlyLow);
      && (NoCardMatches in ws <==> matchCount == 0)
      && (DuplicateAFields(dupA) in ws <==> dupA != {})
      && (DuplicateBFields(dupB) in ws <==> dupB != {})
      && (MostlyLowConfidence in ws <==> mostlyLow)
      && (forall w :: w in ws && w.DuplicateAFields? ==> w == DuplicateAFields(dupA) && dupA != {})
      && (forall w :: w in ws && w.DuplicateBFields? ==> w == DuplicateBFields(dupB) && dupB != {})
  {
  }

  /** Valid exactly when there is a mapping; a duplicate warning names exactly the
      values held by two mappings. */
  lemma ValidateMappingResultsSpec(vs: seq<MappingView>, matchCount: nat)
    ensures var r := ValidateMappingResults(vs, matchCount);
      (r.isValid <==> vs != []) && (r.noMappingsIssue <==> vs == [])
      && (vs == [] ==> r.warnings == [] && r.statistics.None?)
      && (vs != [] ==> (NoCardMatches in r.warnings <==> matchCount == 0))
      && (vs != [] ==>
            ((exists i, j :: 0 <= i < j < |vs| && AFieldOf(vs[i]) == AFieldOf(vs[j])) <==>
               DuplicateAFields(Duplicates(Map(vs, AFieldOf))) in r.warnings))
  {
    if vs != [] {
      var xs := Map(vs, AFieldOf);
      var cs := Confidences(vs);
      DuplicatesSpec(xs);
      WarningsOfMembers(matchCount, Duplicates(xs), Duplicates(Map(vs, BFieldOf)),
                        Count(cs, LowValidation) as real > |vs| as real * 0.5);
    }
  }

  /** Distinct column names for each mapping raise no duplicate warning. */
  lemma DistinctFieldsNoDuplicates(vs: seq<MappingView>, matchCount: nat)
    requires vs != []
    requires forall i, j :: 0 <= i < j < |vs| ==> AFieldOf(vs[i]) != AFieldOf(vs[j]) && BFieldOf(vs[i]) != BFieldOf(vs[j])
    ensures forall w :: w in ValidateMappingResults(vs, matchCount).warnings ==> !w.DuplicateAFields? && !w.DuplicateBFields?
  {
    DuplicatesSpec(Map(vs, AFieldOf));
    DuplicatesSpec(Map(vs, BFieldOf));
    WarningsOfMembers(matchCount, Duplicates(Map(vs, AFieldOf)), Duplicates(Map(vs, BFieldOf)),
                      Count(Confidences(vs), LowValidation) as real > |vs| as real * 0.5);
  }

  // ---------------------------------------------------------------------------
  // export_mapping_rules

  /** The export dict (version and metadata strings are constants, not stored). */
  datatype RuleExport = RuleExport(confidenceThreshold: real, totalRules: nat, rules: seq<MappingRule>,
                                   averageConfidence: real, highQualityRules: nat)

  function RuleConfidences(rules: seq<MappingRule>): (r: seq<real>)
    ensures |r| == |rules| && forall i :: 0 <= i < |rules| ==> r[i] == rules[i].confidence
  {
    seq(|rules|, i requires 0 <= i < |rules| => rules[i].confidence)
  }

  predicate HighQualityRule(c: real) {
    c > 0.9
  }

  /** The export of a built rule list. */
  function RuleExportOf(threshold: real, rules: seq<MappingRule>): RuleExport {
    var cs := RuleConfidences(rules);
    RuleExport(threshold, |rules|, rules, if rules == [] then 0.0 else Mean(cs), Count(cs, HighQualityRule))
  }

  /** `export_mapping_rules`: the rules of `create_mapping_rules` with their count,
      average confidence and the count above 0.9. */
  method ExportMappingRules(ms: seq<ConfidentMapping>, threshold: real) returns (e: RuleExport)
    ensures e.totalRules == |e.rules| == |RuleSources(ms, threshold)|
    ensures forall k :: 0 <= k < |e.rules| ==> e.rules[k] == RuleOf(k, RuleSources(ms, threshold)[k])
    ensures e.confidenceThreshold == threshold
    ensures e == RuleExportOf(threshold, e.rules)
  {
    var rules := CreateMappingRules(ms, threshold);
    e := RuleExportOf(threshold, rules);
  }

  /** Every exported rule is at or above the threshold, so the average is too; no
      rules average to 0; with a threshold above 0.9 every rule is high quality. */
  lemma RuleExportSpec(ms: seq<ConfidentMapping>, threshold: real, rules: seq<MappingRule>)
    requires |rules| == |RuleSources(ms, threshold)|
    requires forall k :: 0 <= k < |rules| ==> rules[k] == RuleOf(k, RuleSources(ms, threshold)[k])
    ensures var e := RuleExportOf(threshold, rules);
      (rules == [] ==> e.averageConfidence == 0.0)
      && (rules != [] ==> e.averageConfidence >= threshold)
      && e.highQualityRules <= e.totalRules
      && (threshold > 0.9 ==> e.highQualityRules == e.totalRules)
  {
    MappingRulesSpec(ms, threshold, rules);
    var cs := RuleConfidences(rules);
    assert forall k :: 0 <= k < |cs| ==> cs[k] >= threshold;
    ThresholdStats(cs, threshold);
  }

  lemma ThresholdStats(cs: seq<real>, threshold: real)
    requires forall k :: 0 <= k < |cs| ==> cs[k] >= threshold
    ensures cs != [] ==> Mean(cs) >= threshold
    ensures threshold > 0.9 ==> Count(cs, HighQualityRule) == |cs|
  {
    if cs != [] {
      MeanAtLeast(cs, threshold);
    }
    if threshold > 0.9 {
      FilterAll(cs, HighQualityRule);
    }
  }

  /** When every element passes, the filter keeps them all. */
  lemma {:induction false} FilterAll<T>(xs: seq<T>, p: T -> bool)
    requires forall k :: 0 <= k < |xs| ==> p(xs[k])
    ensures |Filter(xs, p)| == |xs|
    decreases |xs|
  {
    if xs != [] {
      assert xs == [xs[0]] + xs[1..];
      FilterConcat([xs[0]], xs[1..], p);
      FilterAll(xs[1..], p);
    }
  }

  // ---------------------------------------------------------------------------
  // The web route's flexible mapping list against the validation

  /** The route builds dicts keyed 'field_a'/'field_b', but the validation reads
      'company_a_field'/'company_b_field': every column reads as '', so any two
      mappings are reported as duplicates of '' and there is one distinct column. */
  lemma FlexibleListsAlwaysDuplicate(fs: seq<(string, string, real)>, matchCount: nat)
    requires |fs| >= 2
    ensures var vs := seq(|fs|, i requires 0 <= i < |fs| => ViewOfFlexible(fs[i].0, fs[i].1, fs[i].2));
      var r := ValidateMappingResults(vs, matchCount);
      DuplicateAFields({""}) in r.warnings && DuplicateBFields({""}) in r.warnings
      && r.statistics.Some? && r.statistics.value.uniqueAFields == 1
  {
    var vs := seq(|fs|, i requires 0 <= i < |fs| => ViewOfFlexible(fs[i].0, fs[i].1, fs[i].2));
    var xs := Map(vs, AFieldOf);
    var ys := Map(vs, BFieldOf);
    assert forall i :: 0 <= i < |xs| ==> xs[i] == "";
    assert forall i :: 0 <= i < |ys| ==> ys[i] == "";
    AllBlankDuplicates(xs);
    AllBlankDuplicates(ys);
    assert xs[0] == "";
    assert (set f | f in xs) == {""};
  }

  lemma AllBlankDuplicates(xs: seq<string>)
    requires |xs| >= 2 && forall i :: 0 <= i < |xs| ==> xs[i] == ""
    ensures Duplicates(xs) == {""}
  {
    TwoPositionsCount(xs, 0, 1);
    assert "" in Duplicates(xs);
  }

  /** The corrected view reads the keys the route writes: then distinct columns give
      no duplicate warning. */
  function ViewOfFlexibleKeys(fa: string, fb: string, score: real): MappingView {
    MappingView(Some("flexible"), Some(fa), Some(fb), Some(score))
  }

  lemma FlexibleKeysValidateDistinct(fs: seq<(string, string, real)>, matchCount: nat)
    requires fs != []
    requires forall i, j :: 0 <= i < j < |fs| ==> fs[i].0 != fs[j].0 && fs[i].1 != fs[j].1
    ensures var vs := seq(|fs|, i requires 0 <= i < |fs| => ViewOfFlexibleKeys(fs[i].0, fs[i].1, fs[i].2));
      forall w :: w in ValidateMappingResults(vs, matchCount).warnings ==> !w.DuplicateAFields? && !w.DuplicateBFields?
  {
    var vs := seq(|fs|, i requires 0 <= i < |fs| => ViewOfFlexibleKeys(fs[i].0, fs[i].1, fs[i].2));
    DistinctFieldsNoDuplicates(vs, matchCount);
  }

  /** The same list's coverage under the as-written keys is zero. */
  lemma FlexibleListsCoverNothing(fs: seq<(string, string, real)>, headers: nat)
    requires headers > 0
    ensures var vs := seq(|fs|, i requires 0 <= i < |fs| => ViewOfFlexible(fs[i].0, fs[i].1, fs[i].2));
      Coverage(vs, AFieldOf, headers) == Success(0.0) && Coverage(vs, BFieldOf, headers) == Success(0.0)
  {
    var vs := seq(|fs|, i requires 0 <= i < |fs| => ViewOfFlexible(fs[i].0, fs[i].1, fs[i].2));
    assert forall f :: f in Map(vs, AFieldOf) ==> f == "";
    assert forall f :: f in Map(vs, BFieldOf) ==> f == "";
    assert CoveredFields(vs, AFieldOf) == {};
    assert CoveredFields(vs, BFieldOf) == {};
  }
}
