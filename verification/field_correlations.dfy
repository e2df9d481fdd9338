/** The column-correspondence statistics of `CardMatcher`: every field match above
    0.7 similarity is counted under the key `fieldA→fieldB`, and keys seen at least
    twice are reported with their mean similarity, a quality score and an inferred
    column type, sorted by mean similarity. */
module FieldCorrelations {
  import opened Strings
  import opened Seqs
  import opened Sorting
  import opened Wrappers
  import opened Rows
  import opened BruteForceScoring

  // ---------------------------------------------------------------------------
  // _update_field_correlation_matrix

  datatype CorrSample = CorrSample(valueA: string, valueB: string, similarity: real)

  /** One entry of `field_correlation_matrix`. */
  datatype CorrStats = CorrStats(count: nat, total: real, samples: seq<CorrSample>)

  /** The dict: keys in first-insertion order and their statistics. */
  datatype Matrix = Matrix(order: seq<string>, stats: map<string, CorrStats>)

  const EmptyMatrix: Matrix := Matrix([], map[])

  const EmptyStats: CorrStats := CorrStats(0, 0.0, [])

  function Lookup(t: Matrix, key: string): CorrStats {
    if key in t.stats then t.stats[key] else EmptyStats
  }

  /** Only similarities above 0.7 are counted. */
  predicate StrongField(fm: FieldMatch) {
    fm.similarity > 0.7
  }

  function SampleOf(fm: FieldMatch): CorrSample {
    CorrSample(fm.valueA, fm.valueB, fm.similarity)
  }

  function FieldKey(fm: FieldMatch): string {
    PairKey(fm.fieldA, fm.fieldB)
  }

  /** One field match added to the matrix. */
  function Record(t: Matrix, fm: FieldMatch): Matrix {
    if StrongField(fm) then
      var key := FieldKey(fm);
      var prev := Lookup(t, key);
      Matrix(if key in t.stats then t.order else t.order + [key],
             t.stats[key := CorrStats(prev.count + 1, prev.total + fm.similarity, prev.samples + [SampleOf(fm)])])
    else t
  }

  /** `_update_field_correlation_matrix`: the matches added in order. */
  function RecordAll(t: Matrix, fms: seq<FieldMatch>): Matrix
    decreases |fms|
  {
    if fms == [] then t else RecordAll(Record(t, fms[0]), fms[1..])
  }

  /** The reference: the strong field matches of one key, in order. */
  function StrongFor(fms: seq<FieldMatch>, key: string): seq<FieldMatch>
    decreases |fms|
  {
    if fms == [] then []
    else (if StrongField(fms[0]) && FieldKey(fms[0]) == key then [fms[0]] else []) + StrongFor(fms[1..], key)
  }

  function SimilaritiesOf(fms: seq<FieldMatch>): (r: seq<real>)
    ensures |r| == |fms|
    decreases |fms|
  {
    if fms == [] then [] else [fms[0].similarity] + SimilaritiesOf(fms[1..])
  }

  lemma {:induction false} SimilaritiesOfAt(fms: seq<FieldMatch>, i: nat)
    requires i < |fms|
    ensures SimilaritiesOf(fms)[i] == fms[i].similarity
    decreases i
  {
    if i > 0 {
      SimilaritiesOfAt(fms[1..], i - 1);
    }
  }

  function SamplesOf(fms: seq<FieldMatch>): (r: seq<CorrSample>)
    ensures |r| == |fms|
    decreases |fms|
  {
    if fms == [] then [] else [SampleOf(fms[0])] + SamplesOf(fms[1..])
  }

  /** The order list holds exactly the keys with statistics, each once. */
  predicate WellFormed(t: Matrix) {
    && (forall k :: k in t.order ==> k in t.stats)
    && (forall k :: k in t.stats ==> k in t.order)
    && Distinct(t.order)
  }

  /** One step keeps the order list exact and only lets it grow. */
  lemma RecordWellFormed(t: Matrix, fm: FieldMatch)
    requires WellFormed(t)
    ensures WellFormed(Record(t, fm)) && t.order <= Record(t, fm).order
  {
    if StrongField(fm) && FieldKey(fm) !in t.stats {
      var o := t.order + [FieldKey(fm)];
      forall i, j | 0 <= i < j < |o|
        ensures o[i] != o[j]
      {
        if j == |o| - 1 {
          assert o[i] == t.order[i];
          assert o[i] in t.order;
        } else {
          assert o[i] == t.order[i] && o[j] == t.order[j];
        }
      }
    }
  }

  /** One step: the key of a strong match gains one count, its similarity and its
      sample; every other key is untouched. */
  lemma RecordLookup(t: Matrix, fm: FieldMatch, key: string)
    ensures StrongField(fm) && FieldKey(fm) == key ==>
              var before := Lookup(t, key);
              Lookup(Record(t, fm), key) == CorrStats(before.count + 1, before.total + fm.similarity, before.samples + [SampleOf(fm)])
    ensures !(StrongField(fm) && FieldKey(fm) == key) ==> Lookup(Record(t, fm), key) == Lookup(t, key)
    ensures forall k :: k in Record(t, fm).stats ==> k in t.stats || (StrongField(fm) && k == FieldKey(fm))
  {
  }

  lemma StatsStep(before: CorrStats, mid: CorrStats, final: CorrStats, fm: FieldMatch, s1: seq<FieldMatch>, s: seq<FieldMatch>)
    requires s == [fm] + s1
    requires mid == CorrStats(before.count + 1, before.total + fm.similarity, before.samples + [SampleOf(fm)])
    requires final == CorrStats(mid.count + |s1|, mid.total + Sum(SimilaritiesOf(s1)), mid.samples + SamplesOf(s1))
    ensures final == CorrStats(before.count + |s|, before.total + Sum(SimilaritiesOf(s)), before.samples + SamplesOf(s))
  {
    StepTotal(before.total, fm, s1, s);
    StepSamples(before.samples, fm, s1, s);
  }

  lemma StepTotal(total: real, fm: FieldMatch, s1: seq<FieldMatch>, s: seq<FieldMatch>)
    requires s == [fm] + s1
    ensures total + fm.similarity + Sum(SimilaritiesOf(s1)) == total + Sum(SimilaritiesOf(s))
  {
    assert s[1..] == s1;
    SumCons(fm.similarity, SimilaritiesOf(s1));
  }

  lemma StepSamples(samples: seq<CorrSample>, fm: FieldMatch, s1: seq<FieldMatch>, s: seq<FieldMatch>)
    requires s == [fm] + s1
    ensures samples + [SampleOf(fm)] + SamplesOf(s1) == samples + SamplesOf(s)
  {
    assert s[1..] == s1;
    assert samples + [SampleOf(fm)] + SamplesOf(s1) == samples + ([SampleOf(fm)] + SamplesOf(s1));
  }

  lemma SumCons(x: real, xs: seq<real>)
    ensures Sum([x] + xs) == x + Sum(xs)
  {
    assert ([x] + xs)[1..] == xs;
  }

  lemma {:induction false} RecordAllWellFormed(t: Matrix, fms: seq<FieldMatch>)
    requires WellFormed(t)
    ensures WellFormed(RecordAll(t, fms)) && t.order <= RecordAll(t, fms).order
    decreases |fms|
  {
    if fms != [] {
      RecordWellFormed(t, fms[0]);
      RecordAllWellFormed(Record(t, fms[0]), fms[1..]);
    }
  }

  /** Folding the matches in adds to each key exactly its strong matches: their
      number, the sum of their similarities and their samples, in order. */
  lemma {:induction false} RecordAllSpec(t: Matrix, fms: seq<FieldMatch>, key: string)
    ensures var s := StrongFor(fms, key);
            var before := Lookup(t, key);
            Lookup(RecordAll(t, fms), key)
              == CorrStats(before.count + |s|, before.total + Sum(SimilaritiesOf(s)), before.samples + SamplesOf(s))
    decreases |fms|
  {
    if fms == [] {
      RecordAllNil(t, key);
    } else {
      RecordAllSpec(Record(t, fms[0]), fms[1..], key);
      RecordAllCons(t, fms, key);
    }
  }

  /** The folded entry of `key` is the entry before plus the key's strong matches. */
  predicate Folds(t: Matrix, fms: seq<FieldMatch>, key: string) {
    var s := StrongFor(fms, key);
    var before := Lookup(t, key);
    Lookup(RecordAll(t, fms), key)
      == CorrStats(before.count + |s|, before.total + Sum(SimilaritiesOf(s)), before.samples + SamplesOf(s))
  }

  lemma RecordAllNil(t: Matrix, key: string)
    ensures Folds(t, [], key)
  {
    var s := StrongFor([], key);
    assert SimilaritiesOf(s) == [];
    assert SamplesOf(s) == [];
    assert Lookup(t, key).samples + [] == Lookup(t, key).samples;
  }

  lemma RecordAllCons(t: Matrix, fms: seq<FieldMatch>, key: string)
    requires fms != []
    requires Folds(Record(t, fms[0]), fms[1..], key)
    ensures Folds(t, fms, key)
  {
    if StrongField(fms[0]) && FieldKey(fms[0]) == key {
      RecordAllConsCounted(t, fms, key);
    } else {
      RecordAllConsSkipped(t, fms, key);
    }
  }

  lemma RecordAllConsCounted(t: Matrix, fms: seq<FieldMatch>, key: string)
    requires fms != [] && StrongField(fms[0]) && FieldKey(fms[0]) == key
    requires Folds(Record(t, fms[0]), fms[1..], key)
    ensures Folds(t, fms, key)
  {
    var t1 := Record(t, fms[0]);
    RecordLookup(t, fms[0], key);
    assert RecordAll(t, fms) == RecordAll(t1, fms[1..]);
    assert StrongFor(fms, key) == [fms[0]] + StrongFor(fms[1..], key);
    StatsStep(Lookup(t, key), Lookup(t1, key), Lookup(RecordAll(t, fms), key), fms[0],
              StrongFor(fms[1..], key), StrongFor(fms, key));
  }

  lemma RecordAllConsSkipped(t: Matrix, fms: seq<FieldMatch>, key: string)
    requires fms != [] && !(StrongField(fms[0]) && FieldKey(fms[0]) == key)
    requires Folds(Record(t, fms[0]), fms[1..], key)
    ensures Folds(t, fms, key)
  {
    RecordLookup(t, fms[0], key);
    FoldsTransfer(t, fms, Record(t, fms[0]), fms[1..], key);
  }

  /** `Folds` carries over between two folds with the same result, the same
      entry before and the same strong matches. */
  lemma FoldsTransfer(t: Matrix, fms: seq<FieldMatch>, t1: Matrix, rest: seq<FieldMatch>, key: string)
    requires Lookup(t1, key) == Lookup(t, key)
    requires RecordAll(t, fms) == RecordAll(t1, rest)
    requires StrongFor(fms, key) == StrongFor(rest, key)
    requires Folds(t1, rest, key)
    ensures Folds(t, fms, key)
  {
  }

  /** A key in the folded matrix was there before or is the key of a strong match. */
  lemma {:induction false} RecordAllKeys(t: Matrix, fms: seq<FieldMatch>)
    requires WellFormed(t)
    ensures forall k :: k in RecordAll(t, fms).stats ==>
              k in t.stats || exists fm :: fm in fms && StrongField(fm) && FieldKey(fm) == k
    decreases |fms|
  {
    if fms != [] {
      var t1 := Record(t, fms[0]);
      RecordLookup(t, fms[0], "");
      RecordWellFormed(t, fms[0]);
      RecordAllKeys(t1, fms[1..]);
      forall k | k in RecordAll(t, fms).stats
        ensures k in t.stats || exists fm :: fm in fms && StrongField(fm) && FieldKey(fm) == k
      {
        if k !in t1.stats {
          var fm :| fm in fms[1..] && StrongField(fm) && FieldKey(fm) == k;
          assert fm in fms;
        } else if k !in t.stats {
          assert fms[0] in fms;
        }
      }
    }
  }

  /** Every strong match of a key is one of the input matches, above 0.7, with that key. */
  lemma {:induction false} StrongForFacts(fms: seq<FieldMatch>, key: string)
    ensures forall fm :: fm in StrongFor(fms, key) ==> fm.similarity > 0.7 && FieldKey(fm) == key && fm in fms
    decreases |fms|
  {
    if fms != [] {
      StrongForFacts(fms[1..], key);
      forall fm | fm in StrongFor(fms, key)
        ensures fm.similarity > 0.7 && FieldKey(fm) == key && fm in fms
      {
        if fm != fms[0] {
          assert fm in StrongFor(fms[1..], key);
        }
      }
    }
  }

  /** Starting empty, every key's total is the sum of similarities above 0.7, so
      the count is positive and the mean lies in (0.7, 1] when similarities are
      at most 1. */
  lemma MeanAboveCut(fms: seq<FieldMatch>, key: string)
    requires key in RecordAll(EmptyMatrix, fms).stats
    requires forall fm :: fm in fms ==> fm.similarity <= 1.0
    ensures var st := RecordAll(EmptyMatrix, fms).stats[key];
            st.count > 0 && 0.7 < st.total / st.count as real <= 1.0
  {
    var s := StrongFor(fms, key);
    var sims := SimilaritiesOf(s);
    KeyStats(fms, key);
    StrongForNonEmpty(fms, key);
    StrongSimilarities(fms, key);
    SumAbove(sims, 0.7);
    SumBounds(sims, 0.7, 1.0);
    QuotientBounds(Sum(sims), |s| as real, 0.7);
  }

  /** Starting empty, a key's count and total are those of its strong matches. */
  lemma KeyStats(fms: seq<FieldMatch>, key: string)
    requires key in RecordAll(EmptyMatrix, fms).stats
    ensures var st := RecordAll(EmptyMatrix, fms).stats[key];
            var s := StrongFor(fms, key);
            st.count == |s| && st.total == Sum(SimilaritiesOf(s))
  {
    RecordAllSpec(EmptyMatrix, fms, key);
    assert RecordAll(EmptyMatrix, fms).stats[key] == Lookup(RecordAll(EmptyMatrix, fms), key);
  }

  /** Starting empty, a key present in the matrix has a strong match. */
  lemma StrongForNonEmpty(fms: seq<FieldMatch>, key: string)
    requires key in RecordAll(EmptyMatrix, fms).stats
    ensures StrongFor(fms, key) != []
  {
    RecordAllKeys(EmptyMatrix, fms);
    var fm :| fm in fms && StrongField(fm) && FieldKey(fm) == key;
    StrongForHas(fms, key, fm);
  }

  /** The similarities of a key's strong matches lie in (0.7, 1] when every
      similarity is at most 1. */
  lemma StrongSimilarities(fms: seq<FieldMatch>, key: string)
    requires forall fm :: fm in fms ==> fm.similarity <= 1.0
    ensures var sims := SimilaritiesOf(StrongFor(fms, key));
            forall i :: 0 <= i < |sims| ==> 0.7 < sims[i] <= 1.0
  {
    var s := StrongFor(fms, key);
    var sims := SimilaritiesOf(s);
    StrongForFacts(fms, key);
    forall i | 0 <= i < |sims|
      ensures 0.7 < sims[i] <= 1.0
    {
      assert s[i] in s;
      SimilaritiesOfAt(s, i);
    }
  }

  lemma QuotientBounds(x: real, n: real, lo: real)
    requires n > 0.0 && lo * n < x <= n
    ensures lo < x / n <= 1.0
  {
    var q := x / n;
    assert q * n == x;
  }

  lemma {:induction false} StrongForHas(fms: seq<FieldMatch>, key: string, fm: FieldMatch)
    requires fm in fms && StrongField(fm) && FieldKey(fm) == key
    ensures fm in StrongFor(fms, key)
    decreases |fms|
  {
    if fm != fms[0] {
      StrongForHas(fms[1..], key, fm);
    }
  }

  /** A non-empty sum of values above `lo` exceeds `lo` times their number. */
  lemma {:induction false} SumAbove(xs: seq<real>, lo: real)
    requires |xs| > 0 && forall i :: 0 <= i < |xs| ==> xs[i] > lo
    ensures Sum(xs) > lo * |xs| as real
    decreases |xs|
  {
    if |xs| > 1 {
      SumAbove(xs[1..], lo);
    }
  }

  // ---------------------------------------------------------------------------
  // _infer_field_type

  datatype FieldKind = NumericKind | NameKind | PriceKind | TextKind

  /** Both values of the sample parse as numbers. */
  predicate NumericSample(m: Measures, s: CorrSample) {
    ExtractNumeric(m, s.valueA).Some? && ExtractNumeric(m, s.valueB).Some?
  }

  /** `'名' in a + b`. */
  predicate NameMarked(s: CorrSample) {
    Contains(s.valueA + s.valueB, "名")
  }

  /** `'価格' in a + b or 'price' in a + b.lower()`: only `value_b` is lower-cased. */
  predicate PriceMarked(s: CorrSample) {
    Contains(s.valueA + s.valueB, "価格") || Contains(s.valueA + Lower(s.valueB), "price")
  }

  function NumericCount(m: Measures, samples: seq<CorrSample>): (n: nat)
    ensures n <= |samples|
    decreases |samples|
  {
    if samples == [] then 0 else (if NumericSample(m, samples[0]) then 1 else 0) + NumericCount(m, samples[1..])
  }

  /** `_infer_field_type`: the first five samples vote numeric against text; then a
      name or price marker in one of the first three samples decides. */
  function InferFieldType(m: Measures, samples: seq<CorrSample>): FieldKind {
    var first := Take(samples, 5);
    var numeric := NumericCount(m, first);
    var three := Take(samples, 3);
    if numeric > |first| - numeric then NumericKind
    else if exists i :: 0 <= i < |three| && NameMarked(three[i]) then NameKind
    else if exists i :: 0 <= i < |three| && PriceMarked(three[i]) then PriceKind
    else TextKind
  }

  /** 'numeric' exactly when most of the first five samples are numeric; a name
      marker outranks a price marker; with no samples the answer is 'text'. */
  lemma InferFieldTypeSpec(m: Measures, samples: seq<CorrSample>)
    ensures InferFieldType(m, samples) == NumericKind <==> 2 * NumericCount(m, Take(samples, 5)) > |Take(samples, 5)|
    ensures InferFieldType(m, samples) == NameKind <==>
              2 * NumericCount(m, Take(samples, 5)) <= |Take(samples, 5)| &&
              exists i :: 0 <= i < |samples| && i < 3 && NameMarked(samples[i])
    ensures samples == [] ==> InferFieldType(m, samples) == TextKind
  {
    NameInFirstThree(samples);
  }

  lemma NameInFirstThree(samples: seq<CorrSample>)
    ensures var three := Take(samples, 3);
            (exists i :: 0 <= i < |three| && NameMarked(three[i])) <==>
            (exists i :: 0 <= i < |samples| && i < 3 && NameMarked(samples[i]))
  {
    var three := Take(samples, 3);
    if exists i :: 0 <= i < |samples| && i < 3 && NameMarked(samples[i]) {
      var i :| 0 <= i < |samples| && i < 3 && NameMarked(samples[i]);
      assert three[i] == samples[i];
    }
    if exists i :: 0 <= i < |three| && NameMarked(three[i]) {
      var i :| 0 <= i < |three| && NameMarked(three[i]);
      assert three[i] == samples[i];
    }
  }

  // ---------------------------------------------------------------------------
  // _analyze_field_correlations

  /** One entry of the correlation report. */
  datatype Correlation = Correlation(fieldA: string, fieldB: string, confidence: real,
                                     sampleCount: nat, fieldType: FieldKind, qualityScore: real)

  /** `field_pair.split('→')` does not unpack into two names. */
  predicate BadKey(t: Matrix, key: string) {
    key in t.stats && t.stats[key].count >= 2 && |Split(key, Arrow)| != 2
  }

  /** The report entry of a key seen at least twice, or the unpack error. */
  function Correlate(m: Measures, key: string, st: CorrStats): Result<Correlation, PyError>
    requires st.count >= 2
  {
    var avg := st.total / st.count as real;
    var parts := Split(key, Arrow);
    if |parts| != 2 then Failure(UnpackMismatch(key))
    else Success(Correlation(parts[0], parts[1], avg, st.count, InferFieldType(m, st.samples),
                             MinReal(1.0, avg * (st.count as real / 10.0))))
  }

  /** The loop over the matrix in insertion order, before sorting. */
  function CorrelateAll(m: Measures, t: Matrix, keys: seq<string>): Result<seq<Correlation>, PyError>
    requires forall k :: k in keys ==> k in t.stats
    decreases |keys|
  {
    if keys == [] then Success([])
    else
      assert keys[0] in keys;
      var st := t.stats[keys[0]];
      var rest := CorrelateAll(m, t, keys[1..]);
      if st.count < 2 then rest
      else match Correlate(m, keys[0], st)
        case Failure(e) => Failure(e)
        case Success(c) => if rest.Failure? then rest else Success([c] + rest.value)
  }

  /** The loop fails only with the unpack error. */
  lemma {:induction false} CorrelateAllErrorKind(m: Measures, t: Matrix, keys: seq<string>)
    requires forall k :: k in keys ==> k in t.stats
    ensures CorrelateAll(m, t, keys).Failure? ==> CorrelateAll(m, t, keys).error.UnpackMismatch?
    decreases |keys|
  {
    if keys != [] {
      CorrelateAllErrorKind(m, t, keys[1..]);
    }
  }

  function ByConfidence(c: Correlation): real {
    c.confidence
  }

  /** `_analyze_field_correlations`: the entries sorted by descending confidence. */
  function AnalyzeFieldCorrelations(m: Measures, t: Matrix): Result<seq<Correlation>, PyError>
    requires WellFormed(t)
  {
    match CorrelateAll(m, t, t.order)
    case Failure(e) => Failure(e)
    case Success(cs) => Success(SortDesc(cs, ByConfidence))
  }

  /** A key's report entry: its mean similarity, its count, its inferred type, and
      the quality score `min(1, mean * count / 10)`, which is capped at 1 and not
      negative when the mean is not. */
  predicate ReportsKey(m: Measures, t: Matrix, c: Correlation) {
    var key := PairKey(c.fieldA, c.fieldB);
    && key in t.stats
    && t.stats[key].count >= 2
    && c.sampleCount == t.stats[key].count
    && c.confidence == t.stats[key].total / t.stats[key].count as real
    && c.fieldType == InferFieldType(m, t.stats[key].samples)
    && c.qualityScore == MinReal(1.0, c.confidence * (c.sampleCount as real / 10.0))
    && c.qualityScore <= 1.0
    && (c.confidence >= 0.0 ==> c.qualityScore >= 0.0)
  }

  /** A key made of exactly two parts is rebuilt from them. */
  lemma JoinTwo(key: string)
    requires |Split(key, Arrow)| == 2
    ensures key == PairKey(Split(key, Arrow)[0], Split(key, Arrow)[1])
  {
    JoinSplit(key, Arrow);
    var parts := Split(key, Arrow);
    assert parts[1..] == [parts[1]];
  }

  lemma CorrelateSpec(m: Measures, t: Matrix, key: string)
    requires key in t.stats && t.stats[key].count >= 2
    ensures Correlate(m, key, t.stats[key]).Failure? <==> BadKey(t, key)
    ensures Correlate(m, key, t.stats[key]).Success? ==>
              var c := Correlate(m, key, t.stats[key]).value;
              PairKey(c.fieldA, c.fieldB) == key && ReportsKey(m, t, c)
  {
    if |Split(key, Arrow)| == 2 {
      JoinTwo(key);
    }
  }

  /** The loop fails exactly when some key seen twice does not unpack. */
  lemma {:induction false} CorrelateAllFails(m: Measures, t: Matrix, keys: seq<string>)
    requires forall k :: k in keys ==> k in t.stats
    ensures CorrelateAll(m, t, keys).Failure? <==> exists k :: k in keys && BadKey(t, k)
    decreases |keys|
  {
    if keys != [] {
      assert keys[0] in keys;
      CorrelateAllFails(m, t, keys[1..]);
      if t.stats[keys[0]].count >= 2 {
        CorrelateSpec(m, t, keys[0]);
      }
      if exists k :: k in keys && BadKey(t, k) {
        var k :| k in keys && BadKey(t, k);
        if k != keys[0] {
          assert k in keys[1..];
        }
      }
    }
  }

  /** Every entry reports a key of the matrix, and every key seen twice is reported. */
  lemma {:induction false} CorrelateAllSpec(m: Measures, t: Matrix, keys: seq<string>)
    requires forall k :: k in keys ==> k in t.stats
    ensures var r := CorrelateAll(m, t, keys);
            && (r.Success? ==> forall c :: c in r.value ==> ReportsKey(m, t, c) && PairKey(c.fieldA, c.fieldB) in keys)
            && (r.Success? ==> forall k :: k in keys && t.stats[k].count >= 2 ==>
                  exists c :: c in r.value && PairKey(c.fieldA, c.fieldB) == k)
    decreases |keys|
  {
    if keys != [] {
      var key := keys[0];
      assert key in keys;
      CorrelateAllSpec(m, t, keys[1..]);
      var rest := CorrelateAll(m, t, keys[1..]);
      var r := CorrelateAll(m, t, keys);
      if r.Success? {
        if t.stats[key].count >= 2 {
          CorrelateSpec(m, t, key);
          var c := Correlate(m, key, t.stats[key]).value;
          assert r.value == [c] + rest.value;
        }
        forall k | k in keys && t.stats[k].count >= 2
          ensures exists c :: c in r.value && PairKey(c.fieldA, c.fieldB) == k
        {
          if k != key {
            assert k in keys[1..];
            var c :| c in rest.value && PairKey(c.fieldA, c.fieldB) == k;
            assert c in r.value;
          } else {
            var c := Correlate(m, key, t.stats[key]).value;
            assert c in r.value;
          }
        }
      }
    }
  }

  /** The report: sorted by descending confidence, each entry a key seen at least
      twice with its statistics, every such key present; or the unpack error
      exactly when a key seen twice does not split into two names. */
  lemma AnalyzeFieldCorrelationsSpec(m: Measures, t: Matrix)
    requires WellFormed(t)
    ensures var r := AnalyzeFieldCorrelations(m, t);
            && (r.Failure? <==> exists k :: k in t.stats && BadKey(t, k))
            && (r.Success? ==> SortedDesc(r.value, ByConfidence))
            && (r.Success? ==> forall c :: c in r.value ==> ReportsKey(m, t, c))
            && (r.Success? ==> forall k :: k in t.stats && t.stats[k].count >= 2 ==>
                  exists c :: c in r.value && PairKey(c.fieldA, c.fieldB) == k)
  {
    CorrelateAllFails(m, t, t.order);
    CorrelateAllSpec(m, t, t.order);
    var r := AnalyzeFieldCorrelations(m, t);
    if r.Success? {
      var cs := CorrelateAll(m, t, t.order).value;
      assert multiset(r.value) == multiset(cs);
      forall c | c in r.value
        ensures ReportsKey(m, t, c)
      {
        assert c in multiset(cs);
      }
      forall k | k in t.stats && t.stats[k].count >= 2
        ensures exists c :: c in r.value && PairKey(c.fieldA, c.fieldB) == k
      {
        var c :| c in cs && PairKey(c.fieldA, c.fieldB) == k;
        assert c in multiset(r.value);
      }
    }
  }

  /** `min(1.0, avg * count / 10)`: at most 1, reached from ten samples of a mean of 1. */
  lemma QualityScoreFacts(avg: real, count: nat)
    ensures MinReal(1.0, avg * (count as real / 10.0)) <= 1.0
    ensures avg >= 0.0 ==> MinReal(1.0, avg * (count as real / 10.0)) >= 0.0
    ensures avg == 1.0 && count >= 10 ==> MinReal(1.0, avg * (count as real / 10.0)) == 1.0
  {
    var q := count as real / 10.0;
    if avg >= 0.0 {
      assert avg * q >= 0.0 * q;
    }
  }
}
