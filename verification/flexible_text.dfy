/** The text side of the `FlexibleMatcher`: text normalisation, the string
    similarity built on it, the name-based importance table and the value-pattern
    field classifiers with the importance analysis that uses them. Unicode NFKC
    normalisation and difflib's `SequenceMatcher` ratio are library calls whose
    code is not part of this model: they enter as the functions of `Prims`. */
module FlexibleText {
  import opened Chars
  import opened Strings
  import opened Seqs
  import opened Rows
  import opened Wrappers
  import Sets
  import TS = TextSimilarity

  /** `unicodedata.normalize('NFKC', ·)` and `SequenceMatcher(None, a, b).ratio()`. */
  datatype Prims = Prims(nfkc: string -> string, ratio: (string, string) -> real)

  /** What the library promises: a ratio in [0, 1]. */
  ghost predicate ValidPrims(p: Prims) {
    forall a, b :: 0.0 <= p.ratio(a, b) <= 1.0
  }

  // ---------------------------------------------------------------------------
  // normalize_text and calculate_string_similarity

  /** The full-width digits and Latin letters the translation tables cover. */
  predicate IsFullWidthAlnum(c: char) {
    ('\U{FF10}' <= c <= '\U{FF19}') || ('\U{FF21}' <= c <= '\U{FF3A}') || ('\U{FF41}' <= c <= '\U{FF5A}')
  }

  /** The two `str.translate` tables: each full-width digit or letter becomes its
      ASCII form. */
  function HalfWidth(c: char): (r: char)
    ensures !IsFullWidthAlnum(r)
    ensures IsSpace(r) <==> IsSpace(c)
    ensures !IsFullWidthAlnum(c) ==> r == c
  {
    if IsFullWidthAlnum(c) then (c as int - 0xFEE0) as char else c
  }

  /** The class `[‐－−‒–—―]`. */
  predicate IsHyphenVariant(c: char) {
    c == '\U{2010}' || c == '\U{FF0D}' || c == '\U{2212}' || c == '\U{2012}'
    || c == '\U{2013}' || c == '\U{2014}' || c == '\U{2015}'
  }

  /** The class `[～〜]`. */
  predicate IsTildeVariant(c: char) {
    c == '\U{FF5E}' || c == '\U{301C}'
  }

  /** The hyphen and tilde substitutions. */
  function UnifyMark(c: char): char {
    if IsHyphenVariant(c) then '-' else if IsTildeVariant(c) then '~' else c
  }

  /** `normalize_text`: NFKC, full-width to half-width, whitespace runs (including
      U+3000) to one space, hyphen and tilde variants unified, stripped. */
  function NormalizeText(p: Prims, text: string): string {
    if text == "" then ""
    else Strip(Map(TS.CollapseSpaces(Map(p.nfkc(text), HalfWidth)), UnifyMark))
  }

  /** A character of a normalised text. */
  predicate IsNormalChar(c: char) {
    (IsSpace(c) ==> c == ' ') && !IsHyphenVariant(c) && !IsTildeVariant(c) && !IsFullWidthAlnum(c)
  }

  /** The shape of a normalised text: only normal characters, single spaces, none at
      either end. */
  predicate IsNormalised(t: string) {
    IsStripped(t) && TS.NoDoubleSpace(t) && forall i :: 0 <= i < |t| ==> IsNormalChar(t[i])
  }

  lemma NormalizeTextShape(p: Prims, text: string)
    ensures IsNormalised(NormalizeText(p, text))
  {
    if text != "" {
      var half := Map(p.nfkc(text), HalfWidth);
      var col := TS.CollapseSpaces(half);
      var marked := Map(col, UnifyMark);
      forall i | 0 <= i < |marked|
        ensures IsNormalChar(marked[i])
      {
        if col[i] != ' ' {
          var k :| 0 <= k < |half| && half[k] == col[i];
        }
      }
      assert TS.NoDoubleSpace(marked) by {
        forall i | 0 <= i < |marked| - 1
          ensures marked[i] != ' ' || marked[i + 1] != ' '
        {
          assert col[i] != ' ' || col[i + 1] != ' ';
        }
      }
      StripFacts(marked);
      var a :| 0 <= a <= |marked| - |Strip(marked)| && OccursAt(marked, Strip(marked), a);
      NormalSubstring(marked, Strip(marked), a);
    }
  }

  lemma NormalSubstring(s: string, r: string, a: nat)
    requires OccursAt(s, r, a) && TS.NoDoubleSpace(s)
    requires forall i :: 0 <= i < |s| ==> IsNormalChar(s[i])
    ensures TS.NoDoubleSpace(r) && forall i :: 0 <= i < |r| ==> IsNormalChar(r[i])
  {
    forall i | 0 <= i < |r|
      ensures IsNormalChar(r[i])
    {
      assert r[i] == s[a + i];
    }
    forall i | 0 <= i < |r| - 1
      ensures r[i] != ' ' || r[i + 1] != ' '
    {
      assert r[i] == s[a + i] && r[i + 1] == s[a + i + 1];
    }
  }

  /** `calculate_string_similarity`: 0 when either side is empty, 1 when the
      normalised texts agree, the library ratio otherwise. */
  function StringSimilarity(p: Prims, s1: string, s2: string): (r: real)
    ensures ValidPrims(p) ==> 0.0 <= r <= 1.0
    ensures s1 == "" || s2 == "" ==> r == 0.0
  {
    if s1 == "" || s2 == "" then 0.0
    else
      var n1 := NormalizeText(p, s1);
      var n2 := NormalizeText(p, s2);
      if n1 == n2 then 1.0 else p.ratio(n1, n2)
  }

  /** Two non-empty texts with the same normal form, such as texts that differ only
      in full-width letters, spacing, hyphen or tilde variants after NFKC, score 1;
      otherwise the score is the library ratio of the normal forms. */
  lemma StringSimilaritySpec(p: Prims, s1: string, s2: string)
    requires s1 != "" && s2 != ""
    ensures NormalizeText(p, s1) == NormalizeText(p, s2) ==> StringSimilarity(p, s1, s2) == 1.0
    ensures NormalizeText(p, s1) != NormalizeText(p, s2) ==>
      StringSimilarity(p, s1, s2) == p.ratio(NormalizeText(p, s1), NormalizeText(p, s2))
  {
  }

  // ---------------------------------------------------------------------------
  // _estimate_field_importance_by_name and _get_importance_by_type

  const NameWords: seq<string> := ["name", "title", "カード名", "名前", "タイトル", "商品名"]
  const IdWords: seq<string> := ["id", "code", "number", "番号", "コード", "識別"]
  const RarityWords: seq<string> := ["rarity", "rare", "レアリティ", "レア", "希少度", "rareza"]
  const SerialWords: seq<string> := ["serial", "シリアル", "number", "番号", "no.", "型番"]
  const DateWords: seq<string> := ["date", "time", "日付", "時間", "発売", "release"]
  const CategoryWords: seq<string> := ["category", "type", "class", "分類", "カテゴリ", "タイプ"]

  /** `_estimate_field_importance_by_name`: the first keyword group the lower-cased
      name contains decides. */
  function ImportanceByName(field: string): real {
    var n := Lower(field);
    if AnyContains(n, NameWords) then 0.9
    else if AnyContains(n, IdWords) then 0.8
    else if AnyContains(n, RarityWords) then 0.8
    else if AnyContains(n, SerialWords) then 0.8
    else if AnyContains(n, DateWords) then 0.7
    else if AnyContains(n, CategoryWords) then 0.6
    else 0.5
  }

  /** The name-based importance lies in [0.5, 0.9]; it is 0.9 exactly for a name
      keyword and 0.5 exactly when no group matches. */
  lemma ImportanceByNameSpec(field: string)
    ensures 0.5 <= ImportanceByName(field) <= 0.9
    ensures ImportanceByName(field) == 0.9 <==> AnyContains(Lower(field), NameWords)
    ensures ImportanceByName(field) == 0.5 <==>
      !AnyContains(Lower(field), NameWords + IdWords + RarityWords + SerialWords + DateWords + CategoryWords)
  {
    var n := Lower(field);
    var all := NameWords + IdWords + RarityWords + SerialWords + DateWords + CategoryWords;
    AnyContainsConcat(n, NameWords, IdWords);
    AnyContainsConcat(n, NameWords + IdWords, RarityWords);
    AnyContainsConcat(n, NameWords + IdWords + RarityWords, SerialWords);
    AnyContainsConcat(n, NameWords + IdWords + RarityWords + SerialWords, DateWords);
    AnyContainsConcat(n, NameWords + IdWords + RarityWords + SerialWords + DateWords, CategoryWords);
  }

  lemma AnyContainsConcat(s: string, a: seq<string>, b: seq<string>)
    ensures AnyContains(s, a + b) <==> AnyContains(s, a) || AnyContains(s, b)
  {
    if AnyContains(s, a + b) {
      var k :| 0 <= k < |a + b| && Contains(s, (a + b)[k]);
      if k >= |a| {
        assert b[k - |a|] == (a + b)[k];
      }
    }
    if AnyContains(s, b) {
      var k :| 0 <= k < |b| && Contains(s, b[k]);
      assert (a + b)[|a| + k] == b[k];
    }
    if AnyContains(s, a) {
      var k :| 0 <= k < |a| && Contains(s, a[k]);
      assert (a + b)[k] == a[k];
    }
  }

  /** The field types `_classify_field_type_ai` returns. */
  datatype FieldType = Rarity | Serial | Name | Date | Price | Other | Unknown

  /** `_get_importance_by_type`. */
  function TypeImportance(t: FieldType): real {
    match t
    case Name => 0.9
    case Serial => 0.8
    case Rarity => 0.8
    case Date => 0.7
    case Price => 0.6
    case Other => 0.5
    case Unknown => 0.3
  }

  // ---------------------------------------------------------------------------
  // The value-pattern classifiers

  /** A value `_classify_field_type_ai` samples: non-empty and not the text "nan". */
  predicate IsSample(v: string) {
    v != "" && v != "nan"
  }

  /** The stripped, sampled values of the first ten rows. */
  function SampleValues(data: seq<Row>, key: string): (r: seq<string>)
    ensures |r| <= 10
  {
    Filter(Cells(Take(data, 10), key), IsSample)
  }

  const RarityNameWords: seq<string> := ["rarity", "rare", "レア", "希少", "star", "grade", "rank", "tier"]
  const RarityValueWords: seq<string> := ["SR", "SSR", "R", "N", "UR", "レア", "★", "☆", "rare", "common", "super"]
  const ShortRarityNameWords: seq<string> := ["star", "星", "level", "grade"]

  predicate SomeSampleMatches(samples: seq<string>, patterns: seq<string>) {
    exists k :: 0 <= k < |samples| && AnyContains(Upper(samples[k]), patterns)
  }

  predicate AllShort(samples: seq<string>) {
    forall k :: 0 <= k < |samples| ==> |samples[k]| <= 5
  }

  /** `_is_rarity_field_ai` on the lower-cased name. */
  predicate IsRarityField(fieldLower: string, samples: seq<string>) {
    || AnyContains(fieldLower, RarityNameWords)
    || SomeSampleMatches(samples, RarityValueWords)
    || (AllShort(samples) && |set v | v in samples| <= 10 && AnyContains(fieldLower, ShortRarityNameWords))
  }

  /** The value test looks for the one-letter codes 'R' and 'N' anywhere in the
      upper-cased value, so any value holding one of the letters r or n counts as
      a rarity. */
  lemma LetterRMakesRarity(fieldLower: string, samples: seq<string>, k: nat)
    requires k < |samples|
    requires 'r' in samples[k] || 'R' in samples[k] || 'n' in samples[k] || 'N' in samples[k]
    ensures IsRarityField(fieldLower, samples)
  {
    var v := samples[k];
    var i :| 0 <= i < |v| && (v[i] == 'r' || v[i] == 'R' || v[i] == 'n' || v[i] == 'N');
    var u := Upper(v);
    if v[i] == 'r' || v[i] == 'R' {
      assert u[i] == 'R';
      ContainsChar(u, 'R');
      assert Contains(u, RarityValueWords[2]);
    } else {
      assert u[i] == 'N';
      ContainsChar(u, 'N');
      assert Contains(u, RarityValueWords[3]);
    }
  }

  /** The lower-case value patterns 'rare', 'common' and 'super' are tested against
      upper-cased text and can never match. */
  lemma LowerCaseRarityWordsNeverMatch(v: string, k: nat)
    requires 8 <= k < |RarityValueWords|
    ensures !Contains(Upper(v), RarityValueWords[k])
  {
    var w := RarityValueWords[k];
    assert w[0] in w;
    if Contains(Upper(v), w) {
      ContainedChar(Upper(v), w, w[0]);
      var i :| 0 <= i < |v| && Upper(v)[i] == w[0];
      ToUpperFacts(v[i]);
    }
  }

  const SerialNameWords: seq<string> := ["serial", "id", "code", "number", "シリアル", "型番", "番号", "sku", "jan"]
  const SerialExcludeWords: seq<string> := ["name", "名前", "title", "カード名"]

  /** A character `_is_alphanumeric_serial_pattern` counts as special. */
  predicate IsSpecial(c: char) {
    !IsAlnum(c) && c != '-' && c != '_'
  }

  /** `_is_alphanumeric_serial_pattern`: at least two characters, a letter and a
      digit, at most two special characters. */
  predicate IsSerialPattern(v: string) {
    |v| >= 2 && (exists i :: 0 <= i < |v| && IsAlpha(v[i])) && (exists i :: 0 <= i < |v| && IsDigit(v[i]))
    && Count(v, IsSpecial) <= 2
  }

  /** Python's `s.isalpha()`: non-empty and all letters. */
  predicate AllAlpha(s: string) {
    |s| > 0 && forall i :: 0 <= i < |s| ==> IsAlpha(s[i])
  }

  /** The three serial shapes of `_verify_serial_with_card_name_matching`. */
  predicate IsSerialLike(s: string) {
    || (|s| >= 3 && AllAlpha(s[..2]) && AllDigits(s[2..]))
    || (|s| >= 4 && IsAlpha(s[0]) && AllDigits(s[1..]))
    || (|s| >= 4 && AllAlpha(s[..2]) && AllDigits(s[2..]) && |s| <= 8)
  }

  /** The third shape is a special case of the first. */
  lemma ThirdSerialShapeRedundant(s: string)
    ensures IsSerialLike(s) <==>
      (|s| >= 3 && AllAlpha(s[..2]) && AllDigits(s[2..])) || (|s| >= 4 && IsAlpha(s[0]) && AllDigits(s[1..]))
  {
  }

  /** `_verify_serial_with_card_name_matching`: more than 60% serial-like. */
  predicate VerifySerial(samples: seq<string>) {
    samples != [] && Count(samples, IsSerialLike) as real > |samples| as real * 0.6
  }

  function LengthSet(samples: seq<string>): set<nat> {
    set v | v in samples :: |v|
  }

  function SerialRatio(samples: seq<string>): real {
    if samples == [] then 0.0 else Count(samples, IsSerialPattern) as real / |samples| as real
  }

  /** `_is_serial_field_ai`; `verify` is the truthiness of the matcher's stored
      `field_types`, which turns on the extra serial check. */
  predicate IsSerialField(fieldLower: string, samples: seq<string>, verify: bool) {
    if AnyContains(fieldLower, SerialNameWords) && !AnyContains(fieldLower, SerialExcludeWords) then true
    else
      var ratio := SerialRatio(samples);
      var consistent := samples != [] && |LengthSet(samples)| <= 2;
      if ratio > 0.7 || consistent then true
      else ratio > 0.3 && verify && VerifySerial(samples)
  }

  /** With one or two samples the lengths take at most two values, so the
      uniform-format test always passes. */
  lemma FewSamplesAreSerial(fieldLower: string, samples: seq<string>, verify: bool)
    requires 1 <= |samples| <= 2
    ensures IsSerialField(fieldLower, samples, verify)
  {
    LengthSetCard(samples);
  }

  lemma {:induction false} LengthSetCard(samples: seq<string>)
    ensures |LengthSet(samples)| <= |samples|
    decreases |samples|
  {
    if samples != [] {
      var t := samples[1..];
      LengthSetCard(t);
      assert LengthSet(samples) == LengthSet(t) + {|samples[0]|} by {
        assert samples == [samples[0]] + t;
      }
    }
  }

  /** The extra serial check only matters between the 0.3 and 0.7 ratio marks. */
  lemma SerialVerifyOnlyInBand(fieldLower: string, samples: seq<string>)
    requires IsSerialField(fieldLower, samples, true) != IsSerialField(fieldLower, samples, false)
    ensures 0.3 < SerialRatio(samples) <= 0.7 && VerifySerial(samples)
  {
  }

  const NameFieldWords: seq<string> := ["name", "title", "名前", "カード名", "タイトル", "商品名"]

  /** `_is_name_field_ai`. */
  predicate IsNameField(fieldLower: string) {
    AnyContains(fieldLower, NameFieldWords)
  }

  const DateFieldWords: seq<string> := ["date", "time", "日付", "時間", "発売", "release"]

  /** After the year: `\d{1,2}<sep>\d{1,2}` matched from the start. */
  predicate MonthDayFrom(w: string, sep: char) {
    || (|w| >= 3 && IsDigit(w[0]) && w[1] == sep && IsDigit(w[2]))
    || (|w| >= 4 && IsDigit(w[0]) && IsDigit(w[1]) && w[2] == sep && IsDigit(w[3]))
  }

  /** `re.match(r'\d{4}<sep>\d{1,2}<sep>\d{1,2}', v)`. */
  predicate SeparatedDatePrefix(v: string, sep: char) {
    |v| >= 8 && (forall i :: 0 <= i < 4 ==> IsDigit(v[i])) && v[4] == sep && MonthDayFrom(v[5..], sep)
  }

  /** `re.match(r'\d{8}', v)`. */
  predicate EightDigitPrefix(v: string) {
    |v| >= 8 && forall i :: 0 <= i < 8 ==> IsDigit(v[i])
  }

  predicate IsDateLike(v: string) {
    SeparatedDatePrefix(v, '/') || EightDigitPrefix(v) || SeparatedDatePrefix(v, '-')
  }

  /** `re.match` anchors only at the start: whatever follows a date does not matter. */
  lemma DateLikeIsPrefix(v: string, w: string)
    requires IsDateLike(v)
    ensures IsDateLike(v + w)
  {
    var vw := v + w;
    assert forall i :: 0 <= i < |v| ==> vw[i] == v[i];
    assert vw[5..][..|v| - 5] == v[5..];
  }

  /** `_is_date_field_ai`. */
  predicate IsDateField(fieldLower: string, samples: seq<string>) {
    AnyContains(fieldLower, DateFieldWords) || exists k :: 0 <= k < |samples| && IsDateLike(samples[k])
  }

  const PriceFieldWords: seq<string> := ["price", "cost", "価格", "値段", "金額", "yen", "dollar"]

  /** `v.replace(',', '').replace('.', '').isdigit()`. */
  predicate IsNumericText(v: string) {
    AllDigits(RemoveChar(RemoveChar(v, ','), '.'))
  }

  /** `_is_price_field_ai`. */
  predicate IsPriceField(fieldLower: string, samples: seq<string>) {
    AnyContains(fieldLower, PriceFieldWords) || Count(samples, IsNumericText) as real > |samples| as real * 0.8
  }

  /** The test chain of `_classify_field_type_ai` on a non-empty sample: the first
      test in the order rarity, serial, name, date, price wins. */
  function ClassifySamples(fieldLower: string, samples: seq<string>, verify: bool): (t: FieldType)
    ensures t != Unknown
    ensures t == Rarity <==> IsRarityField(fieldLower, samples)
    ensures t == Name ==> IsNameField(fieldLower)
  {
    if IsRarityField(fieldLower, samples) then Rarity
    else if IsSerialField(fieldLower, samples, verify) then Serial
    else if IsNameField(fieldLower) then Name
    else if IsDateField(fieldLower, samples) then Date
    else if IsPriceField(fieldLower, samples) then Price
    else Other
  }

  /** `_classify_field_type_ai`: no name, no data or no sampled value is `Unknown`. */
  function ClassifyFieldType(field: string, data: seq<Row>, verify: bool): FieldType {
    if field == "" || data == [] then Unknown
    else
      var samples := SampleValues(data, field);
      if samples == [] then Unknown else ClassifySamples(Lower(field), samples, verify)
  }

  /** A type other than `Unknown` needs a name and a sampled value. */
  lemma ClassifyUnknownSpec(field: string, data: seq<Row>, verify: bool)
    ensures ClassifyFieldType(field, data, verify) == Unknown <==>
      field == "" || SampleValues(data, field) == []
  {
    if data == [] {
      assert Take(data, 10) == [];
    }
  }

  /** A column whose first ten rows hold a value with the letter r is read as a
      rarity column, whatever its name, even a name column. */
  lemma LetterRColumnIsRarity(field: string, data: seq<Row>, verify: bool, k: nat)
    requires field != "" && k < |SampleValues(data, field)| && 'r' in SampleValues(data, field)[k]
    ensures ClassifyFieldType(field, data, verify) == Rarity
  {
    LetterRMakesRarity(Lower(field), SampleValues(data, field), k);
  }

  // ---------------------------------------------------------------------------
  // analyze_field_importance

  predicate IsNonEmpty(v: string) {
    v != ""
  }

  /** Share of rows with a non-empty value. */
  function Coverage(field: string, data: seq<Row>): real
    requires data != []
  {
    Count(Cells(data, field), IsNonEmpty) as real / |data| as real
  }

  /** Distinct non-empty values per non-empty value, 0 when there are none. */
  function Diversity(field: string, data: seq<Row>): real {
    var present := Filter(Cells(data, field), IsNonEmpty);
    if present == [] then 0.0 else |set v | v in present| as real / |present| as real
  }

  /** `max(type_importance, name_importance)`. */
  function Importance(field: string, data: seq<Row>, verify: bool): real {
    MaxReal(TypeImportance(ClassifyFieldType(field, data, verify)), ImportanceByName(field))
  }

  function FieldScore(field: string, data: seq<Row>, verify: bool): real
    requires data != []
  {
    Coverage(field, data) * 0.4 + Diversity(field, data) * 0.3 + Importance(field, data, verify) * 0.3
  }

  /** What `analyze_field_importance` returns and whether it replaced the
      matcher's `field_types` (`None`: the early return left them alone). */
  datatype ImportanceResult = ImportanceResult(scores: map<string, real>, fieldTypes: Option<map<string, FieldType>>)

  /** `analyze_field_importance`; `verify` is the truthiness of the stored types
      when it runs, since the types it computes are stored only at the end. */
  function AnalyzeFieldImportance(headers: seq<string>, data: seq<Row>, verify: bool): ImportanceResult {
    if data == [] then ImportanceResult(map[], None)
    else
      ImportanceResult(map f | f in headers :: FieldScore(f, data, verify),
                       Some(map f | f in headers :: ClassifyFieldType(f, data, verify)))
  }

  /** The matcher's stored types after an analysis. */
  function TypesAfter(before: map<string, FieldType>, r: ImportanceResult): map<string, FieldType> {
    if r.fieldTypes.Some? then r.fieldTypes.value else before
  }

  /** The stored types are non-empty after an analysis exactly when it had data and
      headers, or it returned early and they were non-empty before. */
  lemma TypesAfterSpec(before: map<string, FieldType>, headers: seq<string>, data: seq<Row>, verify: bool)
    ensures TypesAfter(before, AnalyzeFieldImportance(headers, data, verify)) != map[] <==>
      (data != [] && headers != []) || (data == [] && before != map[])
  {
    if data != [] && headers != [] {
      assert headers[0] in AnalyzeFieldImportance(headers, data, verify).fieldTypes.value;
    }
  }

  lemma CoverageDiversityUnit(field: string, data: seq<Row>)
    requires data != []
    ensures 0.0 <= Coverage(field, data) <= 1.0
    ensures 0.0 <= Diversity(field, data) <= 1.0
  {
    var present := Filter(Cells(data, field), IsNonEmpty);
    Sets.RatioFacts(Count(Cells(data, field), IsNonEmpty), |data|);
    if present != [] {
      SetOfSeqCard(present);
      Sets.RatioFacts(|set v | v in present|, |present|);
    }
  }

  /** Importance is at least the name-based 0.5 and at most 0.9, so a score lies
      in [0.15, 0.97]. */
  lemma FieldScoreBounds(f: string, data: seq<Row>, verify: bool)
    requires data != []
    ensures 0.15 <= FieldScore(f, data, verify) <= 0.97
  {
    CoverageDiversityUnit(f, data);
    ImportanceByNameSpec(f);
  }

  /** No data gives no scores and keeps the stored types; otherwise every header,
      and nothing else, gets a score in [0.15, 0.97], and the stored types become
      non-empty exactly when there are headers. */
  lemma AnalyzeFieldImportanceSpec(headers: seq<string>, data: seq<Row>, verify: bool, f: string)
    ensures var r := AnalyzeFieldImportance(headers, data, verify);
      (data == [] ==> r.scores == map[] && r.fieldTypes.None?)
      && (data != [] ==> (f in r.scores <==> f in headers) && r.fieldTypes.Some?
                         && (r.fieldTypes.value != map[] <==> headers != []))
      && (f in r.scores ==> 0.15 <= r.scores[f] <= 0.97)
  {
    if data != [] {
      if f in headers {
        FieldScoreBounds(f, data, verify);
      }
      if headers != [] {
        assert headers[0] in AnalyzeFieldImportance(headers, data, verify).fieldTypes.value;
      }
    }
  }
}
