/** The value-level half of the brute-force matcher: the comprehensive similarity
    record of two cell values, the match-type classification and the row score with
    capped bonuses (`_calculate_comprehensive_similarity`, `_classify_match_type`,
    `_calculate_brute_force_score`). */
module BruteForceScoring {
  import opened Chars
  import opened Strings
  import opened Seqs
  import opened Wrappers
  import opened Sets

  /** The measures the record is built from: the toolkit's fuzzy and token-Jaccard
      similarities, and Python's `float()` as used by `_extract_numeric_value`. */
  datatype Measures = Measures(fuzzy: (string, string) -> real,
                               partial: (string, string) -> real,
                               parseFloat: string -> Option<real>)

  /** Both similarities lie in [0, 1], as the toolkit proves of its own. */
  ghost predicate ValidMeasures(m: Measures) {
    && (forall a, b :: 0.0 <= m.fuzzy(a, b) <= 1.0)
    && (forall a, b :: 0.0 <= m.partial(a, b) <= 1.0)
  }

  /** An ASCII approximation of the characters `re.sub(r'[^\d.,]', '', ...)`
      keeps: Python's `\d` also matches non-ASCII decimal digits. */
  predicate NumericChar(c: char) {
    IsDigit(c) || c == '.' || c == ','
  }

  /** `_extract_numeric_value`: `None` for an empty value, otherwise `float()` of
      its digits and periods. */
  function ExtractNumeric(m: Measures, s: string): Option<real> {
    if s == [] then None else m.parseFloat(RemoveChar(KeepChars(s, NumericChar), ','))
  }

  /** The similarity dict: three entries always present, five only when their
      condition holds. */
  datatype Sims = Sims(exact: real, fuzzy: real, partial: real,
                       numericExact: Option<real>, numericClose: Option<real>,
                       normalized: Option<real>, substring: Option<real>,
                       wordLevel: Option<real>)

  function Entry(o: Option<real>): seq<real> {
    match o
    case Some(v) => [v]
    case None => []
  }

  /** `similarities.values()`. */
  function Values(s: Sims): (vs: seq<real>)
    ensures |vs| >= 3 && vs[0] == s.exact && vs[1] == s.fuzzy && vs[2] == s.partial
  {
    [s.exact, s.fuzzy, s.partial] + Entry(s.numericExact) + Entry(s.numericClose)
    + Entry(s.normalized) + Entry(s.substring) + Entry(s.wordLevel)
  }

  /** `max(similarities.values())`. */
  function MaxSim(s: Sims): real {
    Max(Values(s))
  }

  /** The numeric entries for two parsed numbers. */
  function NumericEntries(na: Option<real>, nb: Option<real>): (Option<real>, Option<real>) {
    if na.Some? && nb.Some? then
      var x := na.value;
      var y := nb.value;
      if x == y then (Some(1.0), None)
      else if x > 0.0 && y > 0.0 then
        var diff := if x >= y then x - y else y - x;
        var top := if x >= y then x else y;
        (None, Some(MaxReal(0.0, 1.0 - diff / top)))
      else (None, None)
    else (None, None)
  }

  /** An ASCII approximation of `re.sub(r'[^\w]', '', value.lower())`: Python's
      `\w` and `lower` also cover non-ASCII letters and digits. */
  function NormalizeWord(v: string): string {
    KeepChars(Lower(v), IsWordChar)
  }

  /** Some word of `ws` is fuzzy-similar to `w` above 0.8. */
  predicate HasPartner(m: Measures, w: string, ws: seq<string>) {
    exists k :: 0 <= k < |ws| && m.fuzzy(w, ws[k]) > 0.8
  }

  /** `word_matches`: the words of A with a partner in B, each counted once. */
  function WordMatches(m: Measures, wa: seq<string>, wb: seq<string>): (n: nat)
    ensures n <= |wa|
  {
    |Filter(wa, (w: string) => HasPartner(m, w, wb))|
  }

  function WordLevel(m: Measures, a: string, b: string): Option<real> {
    var wa := Words(a);
    var wb := Words(b);
    if wa != [] && wb != [] then
      Some(WordMatches(m, wa, wb) as real / (if |wa| >= |wb| then |wa| else |wb|) as real)
    else None
  }

  /** `_calculate_comprehensive_similarity` of two stripped values. */
  function Comprehensive(m: Measures, a: string, b: string): Sims {
    var nums := NumericEntries(ExtractNumeric(m, a), ExtractNumeric(m, b));
    var na := NormalizeWord(a);
    var nb := NormalizeWord(b);
    Sims(if a == b then 1.0 else 0.0, m.fuzzy(a, b), m.partial(a, b),
         nums.0, nums.1,
         if na != [] && nb != [] then Some(m.fuzzy(na, nb)) else None,
         if |a| >= 3 && |b| >= 3 && (Contains(b, a) || Contains(a, b)) then Some(0.8) else None,
         WordLevel(m, a, b))
  }

  predicate InUnit(x: real) {
    0.0 <= x <= 1.0
  }

  predicate SimsInUnit(s: Sims) {
    forall i :: 0 <= i < |Values(s)| ==> InUnit(Values(s)[i])
  }

  lemma NumericEntriesInUnit(na: Option<real>, nb: Option<real>)
    ensures var e := NumericEntries(na, nb);
            (e.0.Some? ==> e.0.value == 1.0) && (e.1.Some? ==> InUnit(e.1.value))
  {
    if na.Some? && nb.Some? && na.value != nb.value && na.value > 0.0 && nb.value > 0.0 {
      var x := na.value;
      var y := nb.value;
      var diff := if x >= y then x - y else y - x;
      var top := if x >= y then x else y;
      RealRatio(diff, top);
    }
  }

  lemma WordLevelInUnit(m: Measures, a: string, b: string)
    ensures WordLevel(m, a, b).Some? ==> InUnit(WordLevel(m, a, b).value)
  {
    var wa := Words(a);
    var wb := Words(b);
    if wa != [] && wb != [] {
      var top := if |wa| >= |wb| then |wa| else |wb|;
      RatioFacts(WordMatches(m, wa, wb), top);
    }
  }

  /** Every entry of the record lies in [0, 1]; 'exact' is 1.0 exactly for verbatim
      equal values and 0.0 otherwise; 'substring' is present, as 0.8, exactly when
      both values have at least three characters and one contains the other. */
  lemma ComprehensiveSpec(m: Measures, a: string, b: string)
    requires ValidMeasures(m)
    ensures var s := Comprehensive(m, a, b);
            && SimsInUnit(s) && InUnit(MaxSim(s))
            && (s.exact == 1.0 <==> a == b) && (a != b ==> s.exact == 0.0)
            && (s.substring.Some? <==> |a| >= 3 && |b| >= 3 && (Contains(b, a) || Contains(a, b)))
            && (s.substring.Some? ==> s.substring.value == 0.8)
  {
    var s := Comprehensive(m, a, b);
    NumericEntriesInUnit(ExtractNumeric(m, a), ExtractNumeric(m, b));
    WordLevelInUnit(m, a, b);
    EntriesInUnit(s);
  }

  predicate OptInUnit(o: Option<real>) {
    o.Some? ==> InUnit(o.value)
  }

  /** A record whose entries each lie in [0, 1] has its maximum there too. */
  lemma EntriesInUnit(s: Sims)
    requires InUnit(s.exact) && InUnit(s.fuzzy) && InUnit(s.partial)
    requires OptInUnit(s.numericExact) && OptInUnit(s.numericClose) && OptInUnit(s.normalized)
    requires OptInUnit(s.substring) && OptInUnit(s.wordLevel)
    ensures SimsInUnit(s) && InUnit(MaxSim(s))
  {
    var vs := Values(s);
    var a := [s.exact, s.fuzzy, s.partial] + Entry(s.numericExact);
    var b := a + Entry(s.numericClose);
    var c := b + Entry(s.normalized);
    var d := c + Entry(s.substring);
    assert vs == d + Entry(s.wordLevel);
    AllInUnitConcat([s.exact, s.fuzzy, s.partial], Entry(s.numericExact));
    AllInUnitConcat(a, Entry(s.numericClose));
    AllInUnitConcat(b, Entry(s.normalized));
    AllInUnitConcat(c, Entry(s.substring));
    AllInUnitConcat(d, Entry(s.wordLevel));
    assert MaxSim(s) in vs;
  }

  /** Every value of `xs` lies in [0, 1]. */
  predicate AllInUnit(xs: seq<real>) {
    forall i :: 0 <= i < |xs| ==> InUnit(xs[i])
  }

  lemma AllInUnitConcat(a: seq<real>, b: seq<real>)
    requires AllInUnit(a) && AllInUnit(b)
    ensures AllInUnit(a + b)
  {
    forall i | 0 <= i < |a + b|
      ensures InUnit((a + b)[i])
    {
      if i >= |a| {
        assert (a + b)[i] == b[i - |a|];
      }
    }
  }

  // ---------------------------------------------------------------------------
  // _classify_match_type

  /** The `match_type` strings; `Determined` is any other name, such as the
      oracle's 'ai_determined'. */
  datatype MatchType = ExactMatch | NumericMatch | NormalizedMatch | SubstringMatch
                     | WordMatch | FuzzyMatch | WeakMatch | Determined(name: string)

  /** The type a `match_type` string names. */
  function TypeNamed(name: string): MatchType {
    if name == "exact_match" then ExactMatch
    else if name == "numeric_match" then NumericMatch
    else if name == "normalized_match" then NormalizedMatch
    else if name == "substring_match" then SubstringMatch
    else if name == "word_match" then WordMatch
    else if name == "fuzzy_match" then FuzzyMatch
    else if name == "weak_match" then WeakMatch
    else Determined(name)
  }

  /** The precedence of `_classify_match_type`; an absent entry reads as 0. */
  function Classify(s: Sims): MatchType {
    if s.exact == 1.0 then ExactMatch
    else if s.numericExact.GetOr(0.0) == 1.0 then NumericMatch
    else if s.normalized.GetOr(0.0) > 0.9 then NormalizedMatch
    else if s.substring.GetOr(0.0) > 0.7 then SubstringMatch
    else if s.wordLevel.GetOr(0.0) > 0.8 then WordMatch
    else if MaxSim(s) > 0.7 then FuzzyMatch
    else WeakMatch
  }

  lemma MaxAtLeast(vs: seq<real>, x: real)
    requires x in vs
    ensures Max(vs) >= x
  {
    var i :| 0 <= i < |vs| && vs[i] == x;
  }

  /** Every named type needs some entry above 0.7, so 'weak_match' is exactly the
      case where no entry exceeds 0.7. */
  lemma WeakIffNothingAboveSeven(s: Sims)
    ensures Classify(s) == WeakMatch <==> MaxSim(s) <= 0.7
  {
    var vs := Values(s);
    var t1 := Entry(s.numericExact);
    var t2 := Entry(s.numericClose);
    var t3 := Entry(s.normalized);
    var t4 := Entry(s.substring);
    var t5 := Entry(s.wordLevel);
    assert vs == [s.exact, s.fuzzy, s.partial] + t1 + t2 + t3 + t4 + t5;
    MaxAtLeast(vs, s.exact);
    if s.numericExact.Some? {
      assert vs[3] == s.numericExact.value;
      MaxAtLeast(vs, s.numericExact.value);
    }
    if s.normalized.Some? {
      assert s.normalized.value in t3;
      assert s.normalized.value in vs;
      MaxAtLeast(vs, s.normalized.value);
    }
    if s.substring.Some? {
      assert s.substring.value in t4;
      assert s.substring.value in vs;
      MaxAtLeast(vs, s.substring.value);
    }
    if s.wordLevel.Some? {
      assert s.wordLevel.value in t5;
      assert s.wordLevel.value in vs;
      MaxAtLeast(vs, s.wordLevel.value);
    }
  }

  /** On the record of two values, 'exact_match' is exactly verbatim equality. */
  lemma ExactMatchIffEqual(m: Measures, a: string, b: string)
    ensures Classify(Comprehensive(m, a, b)) == ExactMatch <==> a == b
  {
  }

  /** Two values of at least three characters, one inside the other, that are not
      equal and have no numeric or normalised entry deciding first, are classified
      'substring_match'. */
  lemma ContainedValueIsSubstringMatch(m: Measures, a: string, b: string)
    requires |a| >= 3 && |b| >= 3 && Contains(b, a) && a != b
    requires Comprehensive(m, a, b).numericExact.GetOr(0.0) != 1.0
    requires Comprehensive(m, a, b).normalized.GetOr(0.0) <= 0.9
    ensures Classify(Comprehensive(m, a, b)) == SubstringMatch
  {
  }

  // ---------------------------------------------------------------------------
  // _calculate_brute_force_score

  /** The `weights` table of `_calculate_brute_force_score`, 0.5 for a name it lacks. */
  function TypeWeight(t: MatchType): real {
    match t
    case ExactMatch => 1.0
    case NumericMatch => 0.95
    case NormalizedMatch => 0.9
    case SubstringMatch => 0.8
    case WordMatch => 0.85
    case FuzzyMatch => 0.7
    case WeakMatch => 0.5
    case Determined(_) => 0.5
  }

  /** One entry of `field_matches`; `details` is the similarity record, which only
      the library comparison attaches. */
  datatype FieldMatch = FieldMatch(fieldA: string, fieldB: string, valueA: string, valueB: string,
                                   similarity: real, details: Option<Sims>, matchType: MatchType)

  function WeightedOf(fm: FieldMatch): real {
    fm.similarity * TypeWeight(fm.matchType)
  }

  function Weighted(fms: seq<FieldMatch>): (ws: seq<real>)
    ensures |ws| == |fms|
    ensures forall i :: 0 <= i < |fms| ==> ws[i] == WeightedOf(fms[i])
  {
    seq(|fms|, i requires 0 <= i < |fms| => WeightedOf(fms[i]))
  }

  /** `high_confidence_matches`. */
  function HighConfidence(fms: seq<FieldMatch>): nat {
    |Filter(fms, (fm: FieldMatch) => WeightedOf(fm) > 0.8)|
  }

  /** `_calculate_brute_force_score`. */
  function BruteForceScore(fms: seq<FieldMatch>): real {
    if fms == [] then 0.0
    else
      var mean := Sum(Weighted(fms)) / |fms| as real;
      var high := HighConfidence(fms);
      if high >= 2 then MinReal(0.95, mean + 0.2)
      else if high >= 1 then MinReal(0.85, mean + 0.1)
      else mean
  }

  lemma WeightedInUnit(fm: FieldMatch)
    requires InUnit(fm.similarity)
    ensures 0.0 <= WeightedOf(fm) <= fm.similarity
  {
    match fm.matchType
    case ExactMatch =>
    case NumericMatch =>
    case NormalizedMatch =>
    case SubstringMatch =>
    case WordMatch =>
    case FuzzyMatch =>
    case WeakMatch =>
    case Determined(_) =>
  }

  lemma MeanBounds(ws: seq<real>, hi: real)
    requires |ws| > 0 && 0.0 <= hi
    requires forall i :: 0 <= i < |ws| ==> 0.0 <= ws[i] <= hi
    ensures 0.0 <= Sum(ws) / |ws| as real <= hi
  {
    SumBounds(ws, 0.0, hi);
    var n := |ws| as real;
    assert Sum(ws) <= n * hi;
    assert Sum(ws) / n * n == Sum(ws);
  }

  /** For similarities in [0, 1] the score lies in [0, 0.95]; with no weighted entry
      above 0.8 it is the plain mean and at most 0.8, and with exactly one it is at
      most 0.85. */
  lemma BruteForceScoreBounds(fms: seq<FieldMatch>)
    requires forall i :: 0 <= i < |fms| ==> InUnit(fms[i].similarity)
    ensures 0.0 <= BruteForceScore(fms) <= 0.95
    ensures HighConfidence(fms) == 0 ==> BruteForceScore(fms) <= 0.8
    ensures HighConfidence(fms) == 1 ==> BruteForceScore(fms) <= 0.85
  {
    if fms != [] {
      var ws := Weighted(fms);
      forall i | 0 <= i < |ws|
        ensures 0.0 <= ws[i] <= 1.0
      {
        WeightedInUnit(fms[i]);
      }
      MeanBounds(ws, 1.0);
      if HighConfidence(fms) == 0 {
        var p := (fm: FieldMatch) => WeightedOf(fm) > 0.8;
        forall i | 0 <= i < |ws|
          ensures 0.0 <= ws[i] <= 0.8
        {
          assert !p(fms[i]);
        }
        MeanBounds(ws, 0.8);
      }
    }
  }
}
