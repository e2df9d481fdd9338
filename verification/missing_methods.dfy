/** `missing_methods.py` repeats the brute-force helpers of `CardMatcher` word for
    word, so it is modelled by the same definitions. The lemmas here state further
    facts about those definitions, read off this copy. */
module MissingMethods {
  import opened Seqs
  import opened Strings
  import opened Sorting
  import opened Wrappers
  import opened Dedup
  import opened BruteForceScoring
  import opened FieldCorrelations

  /** The optional entries of the record: 'numeric_exact' when both values parse
      to the same number, 'numeric_close' only otherwise and in [0, 1],
      'normalized' when both normalised values are non-empty, and 'word_level'
      when both values have words, in [0, 1]. */
  lemma ComprehensiveEntries(m: Measures, a: string, b: string)
    ensures var s := Comprehensive(m, a, b);
            var na := ExtractNumeric(m, a);
            var nb := ExtractNumeric(m, b);
            && (s.numericExact.Some? <==> na.Some? && nb.Some? && na.value == nb.value)
            && (s.numericExact.Some? ==> s.numericExact.value == 1.0 && s.numericClose.None?)
            && (s.numericClose.Some? ==> InUnit(s.numericClose.value))
            && (s.normalized.Some? <==> NormalizeWord(a) != [] && NormalizeWord(b) != [])
            && (s.wordLevel.Some? <==> Words(a) != [] && Words(b) != [])
            && (s.wordLevel.Some? ==> InUnit(s.wordLevel.value))
  {
    NumericEntriesInUnit(ExtractNumeric(m, a), ExtractNumeric(m, b));
    WordLevelInUnit(m, a, b);
  }

  /** Two different values are classified 'numeric_match' exactly when both parse
      to the same number. */
  lemma NumericMatchIffSameNumber(m: Measures, a: string, b: string)
    ensures var na := ExtractNumeric(m, a);
            var nb := ExtractNumeric(m, b);
            Classify(Comprehensive(m, a, b)) == NumericMatch <==>
              a != b && na.Some? && nb.Some? && na.value == nb.value
  {
    ComprehensiveEntries(m, a, b);
  }

  /** The mean of the weighted similarities, before any bonus. */
  function WeightedMean(fms: seq<FieldMatch>): real
    requires fms != []
  {
    Sum(Weighted(fms)) / |fms| as real
  }

  /** The bonus adds at most 0.2 to the mean; without a high-confidence match the
      score is the mean; with one the score does not fall below a mean at most
      0.85; with two it does not fall below a mean at most 0.95. */
  lemma ScoreVersusMean(fms: seq<FieldMatch>)
    requires fms != []
    ensures BruteForceScore(fms) <= WeightedMean(fms) + 0.2
    ensures HighConfidence(fms) == 0 ==> BruteForceScore(fms) == WeightedMean(fms)
    ensures HighConfidence(fms) == 1 ==> BruteForceScore(fms) <= WeightedMean(fms) + 0.1
    ensures HighConfidence(fms) >= 1 && WeightedMean(fms) <= 0.85 ==> BruteForceScore(fms) >= WeightedMean(fms)
    ensures HighConfidence(fms) >= 2 && WeightedMean(fms) <= 0.95 ==> BruteForceScore(fms) >= WeightedMean(fms)
  {
  }

  /** Starting from an empty matrix, a key has statistics exactly when some match
      above 0.7 carries it, and then its count and total are those matches'. */
  lemma StrongKeysOnly(fms: seq<FieldMatch>, key: string)
    ensures key in RecordAll(EmptyMatrix, fms).stats <==> StrongFor(fms, key) != []
    ensures Lookup(RecordAll(EmptyMatrix, fms), key).count == |StrongFor(fms, key)|
    ensures Lookup(RecordAll(EmptyMatrix, fms), key).total == Sum(SimilaritiesOf(StrongFor(fms, key)))
  {
    RecordAllSpec(EmptyMatrix, fms, key);
    RecordAllCountsPositive(EmptyMatrix, fms);
  }

  /** Every key of the folded matrix has been counted at least once. */
  lemma {:induction false} RecordAllCountsPositive(t: Matrix, fms: seq<FieldMatch>)
    requires forall k :: k in t.stats ==> t.stats[k].count > 0
    ensures forall k :: k in RecordAll(t, fms).stats ==> RecordAll(t, fms).stats[k].count > 0
    decreases |fms|
  {
    if fms != [] {
      var t1 := Record(t, fms[0]);
      forall k | k in t1.stats
        ensures t1.stats[k].count > 0
      {
        RecordLookup(t, fms[0], k);
      }
      RecordAllCountsPositive(t1, fms[1..]);
    }
  }

  /** Only the first five samples matter. */
  lemma InferFieldTypeFirstFive(m: Measures, samples: seq<CorrSample>)
    ensures InferFieldType(m, samples) == InferFieldType(m, Take(samples, 5))
  {
    var five := Take(samples, 5);
    assert Take(five, 5) == five;
    assert Take(five, 3) == Take(samples, 3);
  }

  /** Deduplicating the deduplicated list changes nothing. */
  lemma RemoveDuplicatesIdempotent<T>(k: Keys<T>, score: T -> real, ms: seq<T>)
    ensures var once := Greedy(k, SortDesc(ms, score));
            Greedy(k, SortDesc(once, score)) == once
  {
    var once := Greedy(k, SortDesc(ms, score));
    GreedyByScoreSpec(k, score, ms);
    SortDescOfSorted(once, score);
    GreedyKeepsOneToOne(k, once);
  }
}
