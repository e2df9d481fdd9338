/** The method comparison of the analysis API route: `_compare_analysis_methods`
    sets the traditional header analysis against the card-based one, and
    `_generate_method_recommendations` turns the comparison into advice. */
module AnalysisRoutes {
  import opened Seqs
  import opened Wrappers
  import opened FieldMapper
  import ME = MappingEngine
  import BruteForce

  /** Both methods call a mapping high-confidence above 0.8. */
  predicate IsHigh(c: real) {
    c > 0.8
  }

  /** One `traditional_high_confidence` entry. */
  datatype HighConfidence = HighConfidence(sourceField: string, targetField: string, confidence: real)

  /** A traditional source field counts only through its first listed match. */
  predicate FirstMatchHigh(m: SourceMapping) {
    m.matches != [] && IsHigh(m.matches[0].similarity)
  }

  function HighOf(m: SourceMapping): HighConfidence
    requires m.matches != []
  {
    HighConfidence(m.sourceField, m.matches[0].targetField, m.matches[0].similarity)
  }

  /** The traditional high-confidence list, in source order. */
  function TraditionalHigh(ms: seq<SourceMapping>): (r: seq<HighConfidence>)
    ensures |r| <= |ms|
    ensures forall k :: 0 <= k < |r| ==> IsHigh(r[k].confidence)
  {
    if ms == [] then []
    else (if FirstMatchHigh(ms[0]) then [HighOf(ms[0])] else []) + TraditionalHigh(ms[1..])
  }

  /** `sum(xs) / len(xs) if xs else 0`. */
  function AverageOr0(xs: seq<real>): real {
    if xs == [] then 0.0 else Mean(xs)
  }

  function Confidences(hs: seq<HighConfidence>): (r: seq<real>)
    ensures |r| == |hs| && forall k :: 0 <= k < |hs| ==> r[k] == hs[k].confidence
  {
    seq(|hs|, k requires 0 <= k < |hs| => hs[k].confidence)
  }

  datatype MethodStats = MethodStats(total: nat, highConfidenceCount: nat, averageConfidence: real)

  datatype Comparison = Comparison(traditional: MethodStats, enhanced: MethodStats,
                                   confidenceImprovement: real, precisionImprovement: real,
                                   methodRecommendation: string)

  /** What `m['confidence']` reads from each enhanced mapping: the card-based
      path's confidences, and after a fallback the traditional entries, which have
      no 'confidence' key. */
  function EnhancedInput(outcome: ME.CardBasedOutcome): Result<seq<real>, PyError> {
    match outcome
    case CardBased(ms, _) => Success(Map(ms, ConfidenceOf))
    case Traditional(aToB, _) => if aToB == [] then Success([]) else Failure(MissingKey("confidence"))
  }

  /** `_compare_analysis_methods`. */
  function CompareAnalysisMethods(traditional: seq<SourceMapping>, enhanced: ME.CardBasedOutcome)
    : Result<Comparison, PyError>
  {
    match EnhancedInput(enhanced)
    case Failure(e) => Failure(e)
    case Success(cs) =>
      var tHigh := TraditionalHigh(traditional);
      var eHigh := Filter(cs, IsHigh);
      var tAvg := AverageOr0(Confidences(tHigh));
      var eAvg := AverageOr0(eHigh);
      Success(Comparison(MethodStats(|traditional|, |tHigh|, tAvg), MethodStats(|cs|, |eHigh|, eAvg),
                         if tAvg > 0.0 then (eAvg - tAvg) / tAvg else 0.0, 0.0, "enhanced"))
  }

  /** A field is in the traditional list exactly when its first match scores
      above 0.8, and the entry carries that match. */
  lemma {:induction false} TraditionalHighSpec(ms: seq<SourceMapping>, h: HighConfidence)
    ensures h in TraditionalHigh(ms) <==> exists k :: 0 <= k < |ms| && FirstMatchHigh(ms[k]) && h == HighOf(ms[k])
  {
    if ms != [] {
      var t := ms[1..];
      TraditionalHighSpec(t, h);
      assert forall k :: 0 <= k < |t| ==> t[k] == ms[k + 1];
      if exists k :: 0 <= k < |ms| && FirstMatchHigh(ms[k]) && h == HighOf(ms[k]) {
        var k :| 0 <= k < |ms| && FirstMatchHigh(ms[k]) && h == HighOf(ms[k]);
        if k > 0 {
          assert t[k - 1] == ms[k];
        }
      }
    }
  }

  /** The mean of values above `lo` is above `lo`. */
  lemma MeanAbove(xs: seq<real>, lo: real)
    requires xs != [] && forall k :: 0 <= k < |xs| ==> xs[k] > lo
    ensures Mean(xs) > lo
  {
    MeanAtLeast(xs, Min(xs));
  }

  /** An average is 0 exactly when its list is empty and above 0.8 otherwise. */
  lemma HighAverage(xs: seq<real>)
    requires forall k :: 0 <= k < |xs| ==> IsHigh(xs[k])
    ensures xs == [] <==> AverageOr0(xs) == 0.0
    ensures xs != [] ==> AverageOr0(xs) > 0.8
  {
    if xs != [] {
      MeanAbove(xs, 0.8);
    }
  }

  /** Only a fallback with traditional entries fails; otherwise the counts are
      bounded by the totals, each average is 0 exactly when there is no
      high-confidence mapping and above 0.8 otherwise, the improvement stays 0
      unless the traditional average is positive, and the advice is always
      'enhanced'. */
  lemma CompareAnalysisMethodsSpec(traditional: seq<SourceMapping>, enhanced: ME.CardBasedOutcome)
    ensures CompareAnalysisMethods(traditional, enhanced).Failure? <==> enhanced.Traditional? && enhanced.aToB != []
    ensures CompareAnalysisMethods(traditional, enhanced).Failure? ==>
      CompareAnalysisMethods(traditional, enhanced).error == MissingKey("confidence")
    ensures var r := CompareAnalysisMethods(traditional, enhanced);
      r.Success? ==>
        var c := r.value;
        && c.traditional.total == |traditional| && c.traditional.highConfidenceCount <= c.traditional.total
        && c.enhanced.highConfidenceCount <= c.enhanced.total
        && (c.traditional.highConfidenceCount == 0 <==> c.traditional.averageConfidence == 0.0)
        && (c.traditional.highConfidenceCount > 0 ==> c.traditional.averageConfidence > 0.8)
        && (c.enhanced.highConfidenceCount == 0 <==> c.enhanced.averageConfidence == 0.0)
        && (c.enhanced.highConfidenceCount > 0 ==> c.enhanced.averageConfidence > 0.8)
        && (c.traditional.highConfidenceCount == 0 ==> c.confidenceImprovement == 0.0)
        && c.precisionImprovement == 0.0 && c.methodRecommendation == "enhanced"
  {
    var r := EnhancedInput(enhanced);
    if r.Success? {
      var tHigh := TraditionalHigh(traditional);
      HighAverage(Confidences(tHigh));
      HighAverage(Filter(r.value, IsHigh));
    }
  }

  // ---------------------------------------------------------------------------
  // _generate_method_recommendations

  datatype MethodAdvice =
    | StronglyRecommendEnhanced
    | ConfidenceGain(percent: real)  // the improvement over the traditional average, in percent
    | RecommendEnhanced
    | TraditionalMaySuit

  /** `_generate_method_recommendations` as written: the strong branch divides by
      the traditional average even when it is 0. */
  function GenerateMethodRecommendations(c: Comparison): Result<seq<MethodAdvice>, PyError> {
    var e := c.enhanced.averageConfidence;
    var t := c.traditional.averageConfidence;
    if e > t * 1.2 then
      if t == 0.0 then Failure(ZeroDivision)
      else Success([StronglyRecommendEnhanced, ConfidenceGain((e - t) / t * 100.0)])
    else if e > t then Success([RecommendEnhanced])
    else Success([TraditionalMaySuit])
  }

  /** A traditional average of 0 with any positive enhanced average raises
      `ZeroDivisionError`. */
  lemma AsWrittenDividesByZero(c: Comparison)
    requires c.traditional.averageConfidence == 0.0 && c.enhanced.averageConfidence > 0.0
    ensures GenerateMethodRecommendations(c) == Failure(ZeroDivision)
  {
  }

  /** No traditional first match above 0.8 and one card-based mapping above 0.8:
      the comparison succeeds and the advice then raises. */
  lemma NoStrongTraditionalMatchRaises(traditional: seq<SourceMapping>, m: ConfidentMapping,
                                       matches: seq<BruteForce.BfMatch>)
    requires forall k :: 0 <= k < |traditional| ==> !FirstMatchHigh(traditional[k])
    requires IsHigh(m.confidence)
    ensures CompareAnalysisMethods(traditional, ME.CardBased([m], matches)).Success?
    ensures GenerateMethodRecommendations(CompareAnalysisMethods(traditional, ME.CardBased([m], matches)).value)
         == Failure(ZeroDivision)
  {
    var tHigh := TraditionalHigh(traditional);
    if tHigh != [] {
      var h := tHigh[0];
      TraditionalHighSpec(traditional, h);
    }
    var cs := Map([m], ConfidenceOf);
    assert Filter(cs, IsHigh) == [m.confidence];
    HighAverage([m.confidence]);
  }

  /** The advice with the gain reported only for a positive traditional average,
      as `_compare_analysis_methods` guards its own improvement ratio. */
  function MethodRecommendations(c: Comparison): seq<MethodAdvice> {
    var e := c.enhanced.averageConfidence;
    var t := c.traditional.averageConfidence;
    if e > t * 1.2 then
      if t > 0.0 then [StronglyRecommendEnhanced, ConfidenceGain((e - t) / t * 100.0)]
      else [StronglyRecommendEnhanced]
    else if e > t then [RecommendEnhanced]
    else [TraditionalMaySuit]
  }

  /** The corrected advice takes exactly one of the three branches, by its first
      item, agrees with the original wherever that does not raise, and gives the
      strong advice alone where the original raises. */
  lemma MethodRecommendationsSpec(c: Comparison)
    requires c.traditional.averageConfidence >= 0.0
    ensures var r := MethodRecommendations(c);
            var e := c.enhanced.averageConfidence;
            var t := c.traditional.averageConfidence;
            && 1 <= |r| <= 2
            && (r[0] == StronglyRecommendEnhanced <==> e > t * 1.2)
            && (r[0] == RecommendEnhanced <==> t < e <= t * 1.2)
            && (r[0] == TraditionalMaySuit <==> e <= t)
            && (GenerateMethodRecommendations(c).Success? ==> GenerateMethodRecommendations(c).value == r)
            && (GenerateMethodRecommendations(c).Failure? ==> r == [StronglyRecommendEnhanced])
  {
  }
}
