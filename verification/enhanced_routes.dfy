/** The two field predicates of the enhanced web route: `_is_rarity_field` and
    `_is_serial_field`, tested on a header name and an optional data sample (a
    missing sample reads as the empty list). */
module EnhancedRoutes {
  import opened Strings
  import opened Seqs
  import opened Rows
  import opened Chars
  import FT = FlexibleText

  /** The route's rarity name words: the classifier's list and three more. */
  const RouteRarityNameWords: seq<string> :=
    ["rarity", "rare", "レア", "希少", "star", "grade", "rank", "tier", "等級", "グレード", "ランク"]

  /** The route's serial name words: the classifier's list and '品番'. */
  const RouteSerialNameWords: seq<string> :=
    ["serial", "id", "code", "number", "シリアル", "型番", "番号", "sku", "jan", "品番"]

  /** The sample test of `_is_rarity_field`: some value holds a rarity token, or
      all values are short and few and the name holds a star/level word. */
  predicate RarityBySamples(nameLower: string, samples: seq<string>) {
    samples != [] &&
    (FT.SomeSampleMatches(samples, FT.RarityValueWords)
     || (FT.AllShort(samples) && |set v | v in samples| <= 10 && AnyContains(nameLower, FT.ShortRarityNameWords)))
  }

  /** `_is_rarity_field`. */
  predicate IsRarityField(fieldName: string, dataSample: seq<Row>) {
    fieldName != "" &&
    (AnyContains(Lower(fieldName), RouteRarityNameWords)
     || RarityBySamples(Lower(fieldName), FT.SampleValues(dataSample, fieldName)))
  }

  /** A value `_is_serial_field` counts: some alphanumeric and some digit
      character. */
  predicate HasAlnumAndDigit(v: string) {
    (exists i :: 0 <= i < |v| && IsAlnum(v[i])) && (exists i :: 0 <= i < |v| && IsDigit(v[i]))
  }

  predicate HasDigit(v: string) {
    exists i :: 0 <= i < |v| && IsDigit(v[i])
  }

  /** The sample test of `_is_serial_field`: more than 70% of the values hold a
      digit, or their lengths take at most two values. */
  predicate SerialBySamples(samples: seq<string>) {
    samples != [] &&
    (Count(samples, HasAlnumAndDigit) as real > |samples| as real * 0.7 || |FT.LengthSet(samples)| <= 2)
  }

  /** `_is_serial_field`. */
  predicate IsSerialField(fieldName: string, dataSample: seq<Row>) {
    fieldName != "" &&
    ((AnyContains(Lower(fieldName), RouteSerialNameWords) && !AnyContains(Lower(fieldName), FT.SerialExcludeWords))
     || SerialBySamples(FT.SampleValues(dataSample, fieldName)))
  }

  /** An empty name is never a rarity field; a name holding a rarity word always
      is; otherwise the verdict is the sample test's, which needs a sampled
      value. */
  lemma IsRarityFieldSpec(fieldName: string, dataSample: seq<Row>)
    ensures fieldName == "" ==> !IsRarityField(fieldName, dataSample)
    ensures fieldName != "" && AnyContains(Lower(fieldName), RouteRarityNameWords) ==> IsRarityField(fieldName, dataSample)
    ensures FT.SampleValues(dataSample, fieldName) == [] && !AnyContains(Lower(fieldName), RouteRarityNameWords)
      ==> !IsRarityField(fieldName, dataSample)
  {
  }

  /** A lone sampled value holding r or n, e.g. 'R' or 'N', makes a rarity field. */
  lemma LoneLetterSuffices(fieldName: string, dataSample: seq<Row>, k: nat)
    requires fieldName != ""
    requires k < |FT.SampleValues(dataSample, fieldName)|
    requires var v := FT.SampleValues(dataSample, fieldName)[k]; 'r' in v || 'R' in v || 'n' in v || 'N' in v
    ensures IsRarityField(fieldName, dataSample)
  {
    var samples := FT.SampleValues(dataSample, fieldName);
    LetterMatchesRarityWord(samples[k]);
    assert FT.SomeSampleMatches(samples, FT.RarityValueWords);
  }

  /** The upper-cased value holds the rarity token 'R' or 'N'. */
  lemma LetterMatchesRarityWord(v: string)
    requires 'r' in v || 'R' in v || 'n' in v || 'N' in v
    ensures AnyContains(Upper(v), FT.RarityValueWords)
  {
    var u := Upper(v);
    var i :| 0 <= i < |v| && (v[i] == 'r' || v[i] == 'R' || v[i] == 'n' || v[i] == 'N');
    ToUpperFacts(v[i]);
    if v[i] == 'r' || v[i] == 'R' {
      assert u[i] == 'R';
      ContainsChar(u, 'R');
      assert Contains(u, FT.RarityValueWords[2]);
    } else {
      assert u[i] == 'N';
      ContainsChar(u, 'N');
      assert Contains(u, FT.RarityValueWords[3]);
    }
  }

  /** At most ten values are sampled, so the distinct-value bound of the short
      fallback always holds. */
  lemma DistinctBoundAlwaysHolds(fieldName: string, dataSample: seq<Row>)
    ensures |set v | v in FT.SampleValues(dataSample, fieldName)| <= 10
  {
    SetOfSeqCard(FT.SampleValues(dataSample, fieldName));
  }

  /** Every name word of the classifier's rarity test is a route word too, so a
      name the classifier calls rarity by name is one here as well. */
  lemma RouteRarityNamesExtendClassifier(nameLower: string)
    ensures AnyContains(nameLower, FT.RarityNameWords) ==> AnyContains(nameLower, RouteRarityNameWords)
  {
    if AnyContains(nameLower, FT.RarityNameWords) {
      var k :| 0 <= k < |FT.RarityNameWords| && Contains(nameLower, FT.RarityNameWords[k]);
      assert FT.RarityNameWords[k] == RouteRarityNameWords[k];
    }
  }

  /** A digit is alphanumeric, so the serial value test only asks for a digit. */
  lemma AlnumAndDigitIsDigit(v: string)
    ensures HasAlnumAndDigit(v) <==> HasDigit(v)
  {
    if HasDigit(v) {
      var i :| 0 <= i < |v| && IsDigit(v[i]);
      assert IsAlnum(v[i]);
    }
  }

  /** An empty name is never a serial field; a serial word without a name-like
      word always is; one or two sampled values always pass by their lengths. */
  lemma IsSerialFieldSpec(fieldName: string, dataSample: seq<Row>)
    ensures fieldName == "" ==> !IsSerialField(fieldName, dataSample)
    ensures (fieldName != "" && AnyContains(Lower(fieldName), RouteSerialNameWords)
             && !AnyContains(Lower(fieldName), FT.SerialExcludeWords)) ==> IsSerialField(fieldName, dataSample)
    ensures fieldName != "" && 1 <= |FT.SampleValues(dataSample, fieldName)| <= 2 ==> IsSerialField(fieldName, dataSample)
  {
    FT.LengthSetCard(FT.SampleValues(dataSample, fieldName));
  }

  /** Every name word of the classifier's serial test is a route word too. */
  lemma RouteSerialNamesExtendClassifier(nameLower: string)
    ensures AnyContains(nameLower, FT.SerialNameWords) ==> AnyContains(nameLower, RouteSerialNameWords)
  {
    if AnyContains(nameLower, FT.SerialNameWords) {
      var k :| 0 <= k < |FT.SerialNameWords| && Contains(nameLower, FT.SerialNameWords[k]);
      assert FT.SerialNameWords[k] == RouteSerialNameWords[k];
    }
  }
}
