/** The mode-switching brute-force matcher of `hybrid_brute_force.py`. The row loop,
    the reduction and the correlation report are those of `CardMatcher`; what changes
    is the comparison of one row pair: 'library' uses the similarity record, 'ai' asks
    a remote service (modelled as a function) for a JSON verdict per column pair,
    and any other mode raises once a row pair is compared. */
module Hybrid {
  import opened Seqs
  import opened Strings
  import opened Wrappers
  import opened Rows
  import opened BruteForceScoring
  import opened FieldCorrelations
  import opened BruteForce
  import opened Sorting
  import opened Dedup

  // ---------------------------------------------------------------------------
  // the column pairs sent for analysis

  /** One entry of `field_pairs`. */
  datatype FieldPair = FieldPair(fieldA: string, fieldB: string, valueA: string, valueB: string)

  function PairFor(rowA: Row, rowB: Row, fa: string, fb: string): FieldPair {
    FieldPair(fa, fb, CellValue(rowA, fa), CellValue(rowB, fb))
  }

  /** Both values survive `if not value or len(value) < 2: continue`. */
  predicate Kept(p: FieldPair) {
    |p.valueA| >= 2 && |p.valueB| >= 2
  }

  /** The inner loop for one A column. */
  function ColumnPairs(rowA: Row, rowB: Row, fa: string, hb: seq<string>): seq<FieldPair>
    decreases |hb|
  {
    if hb == [] then []
    else
      var p := PairFor(rowA, rowB, fa, hb[0]);
      (if Kept(p) then [p] else []) + ColumnPairs(rowA, rowB, fa, hb[1..])
  }

  /** `field_pairs`, A columns outermost. */
  function FieldPairs(rowA: Row, rowB: Row, ha: seq<string>, hb: seq<string>): seq<FieldPair>
    decreases |ha|
  {
    if ha == [] then [] else ColumnPairs(rowA, rowB, ha[0], hb) + FieldPairs(rowA, rowB, ha[1..], hb)
  }

  /** The pair of columns `p` names, read from the two rows, passes the length filter. */
  predicate PairOf(rowA: Row, rowB: Row, ha: seq<string>, hb: seq<string>, p: FieldPair) {
    p.fieldA in ha && p.fieldB in hb && p == PairFor(rowA, rowB, p.fieldA, p.fieldB) && Kept(p)
  }

  lemma {:induction false} ColumnPairsSpec(rowA: Row, rowB: Row, fa: string, hb: seq<string>, p: FieldPair)
    ensures p in ColumnPairs(rowA, rowB, fa, hb) <==> PairOf(rowA, rowB, [fa], hb, p)
    decreases |hb|
  {
    if hb != [] {
      ColumnPairsSpec(rowA, rowB, fa, hb[1..], p);
      var q := PairFor(rowA, rowB, fa, hb[0]);
      assert ColumnPairs(rowA, rowB, fa, hb) == (if Kept(q) then [q] else []) + ColumnPairs(rowA, rowB, fa, hb[1..]);
      assert forall h :: h in hb <==> h == hb[0] || h in hb[1..];
    }
  }

  /** A pair is sent exactly when both its columns come from the headers and both
      of its values have at least two characters after stripping. */
  lemma {:induction false} FieldPairsSpec(rowA: Row, rowB: Row, ha: seq<string>, hb: seq<string>, p: FieldPair)
    ensures p in FieldPairs(rowA, rowB, ha, hb) <==> PairOf(rowA, rowB, ha, hb, p)
    decreases |ha|
  {
    if ha != [] {
      FieldPairsSpec(rowA, rowB, ha[1..], hb, p);
      ColumnPairsSpec(rowA, rowB, ha[0], hb, p);
      assert forall h :: h in ha <==> h == ha[0] || h in ha[1..];
    }
  }

  // ---------------------------------------------------------------------------
  // the service call and `_parse_ai_similarity_response`

  /** The outcome of `claude_client.call_api`: its content, `success` false, or an
      exception. */
  datatype ApiResult = ApiOk(content: string) | ApiFailed | ApiRaised

  /** The service, as a function of the pairs its prompt lists. */
  type AiService = seq<FieldPair> -> ApiResult

  /** One value of the parsed object; each field is `None` when its key is absent. */
  datatype AiEntry = AiEntry(similarity: Option<real>, reasoning: Option<string>,
                             matchType: Option<string>, confidence: Option<real>)

  /** `json.loads` on an object text: its members, or `None` when it raises. */
  type JsonLoads = string -> Option<map<string, AiEntry>>

  /** A Python dict key: the code looks up integers in a dict whose keys are strings. */
  datatype PyKey = IntKey(n: int) | StrKey(s: string)

  /** The last position of `c` in `s`. */
  function LastIndexOf(s: string, c: char): (i: nat)
    requires c in s
    ensures i < |s| && s[i] == c && c !in s[i + 1..]
    decreases |s|
  {
    if s[|s| - 1] == c then |s| - 1
    else
      assert c in s[..|s| - 1] by {
        var k :| 0 <= k < |s| && s[k] == c;
        assert s[..|s| - 1][k] == c;
      }
      var i := LastIndexOf(s[..|s| - 1], c);
      assert s[i + 1..] == s[..|s| - 1][i + 1..] + [s[|s| - 1]];
      i
  }

  /** Some '{' comes before some '}'. */
  predicate HasBraces(s: string) {
    exists a, b :: 0 <= a < b < |s| && s[a] == '{' && s[b] == '}'
  }

  /** `re.search(r'\{.*\}', content, re.DOTALL)`: from the first '{' to the last '}'. */
  function JsonRegion(content: string): (r: Option<string>)
    ensures r.Some? <==> HasBraces(content)
    ensures r.Some? ==>
              exists a, b :: 0 <= a < b < |content| && r.value == content[a..b + 1]
                && content[a] == '{' && content[b] == '}' && '{' !in content[..a] && '}' !in content[b + 1..]
  {
    if '{' !in content then None
    else
      var a := IndexOf(content, '{');
      if '}' !in content[a + 1..] then
        None
      else
        var k :| 0 <= k < |content[a + 1..]| && content[a + 1..][k] == '}';
        assert content[a + 1 + k] == '}';
        var b := LastIndexOf(content, '}');
        assert a < b;
        Some(content[a..b + 1])
  }

  /** The parsed object as a Python dict: JSON member names are strings. */
  function StrKeys(obj: map<string, AiEntry>): (d: map<PyKey, AiEntry>)
    ensures forall k :: k in d ==> k.StrKey? && k.s in obj && d[k] == obj[k.s]
    ensures forall s :: s in obj ==> StrKey(s) in d
  {
    map s | s in obj :: StrKey(s) := obj[s]
  }

  /** `_parse_ai_similarity_response`: the parsed object, or `{}` when the content
      has no braced region or it does not parse. */
  function ParseResponse(loads: JsonLoads, content: string): map<PyKey, AiEntry> {
    match JsonRegion(content)
    case None => map[]
    case Some(text) =>
      match loads(text)
      case None => map[]
      case Some(obj) => StrKeys(obj)
  }

  /** `_batch_ai_similarity_analysis`: the prompt lists the first 20 pairs; a failed
      or raising call gives `{}`. */
  function BatchAnalysis(svc: AiService, loads: JsonLoads, pairs: seq<FieldPair>): map<PyKey, AiEntry> {
    match svc(Take(pairs, 20))
    case ApiOk(content) => ParseResponse(loads, content)
    case _ => map[]
  }

  /** Every key of the analysis result is a string; the result is empty when the
      call fails or raises, or when its content has no '{' before a '}'. */
  lemma BatchAnalysisSpec(svc: AiService, loads: JsonLoads, pairs: seq<FieldPair>)
    ensures forall k :: k in BatchAnalysis(svc, loads, pairs) ==> k.StrKey?
    ensures !svc(Take(pairs, 20)).ApiOk? ==> BatchAnalysis(svc, loads, pairs) == map[]
    ensures svc(Take(pairs, 20)).ApiOk? && !HasBraces(svc(Take(pairs, 20)).content) ==>
              BatchAnalysis(svc, loads, pairs) == map[]
    ensures |Take(pairs, 20)| <= 20
  {
  }

  // ---------------------------------------------------------------------------
  // _compare_all_fields_ai

  const NoEntry: AiEntry := AiEntry(None, None, None, None)

  /** `ai_results.get(key, {})`. */
  function EntryAt(results: map<PyKey, AiEntry>, key: PyKey): AiEntry {
    if key in results then results[key] else NoEntry
  }

  /** `ai_result.get('similarity', 0.0)`. */
  function AiSimilarity(e: AiEntry): real {
    e.similarity.GetOr(0.0)
  }

  /** The recorded entry; 'ai_determined' is the type when the verdict names none. */
  function AiFieldMatch(p: FieldPair, e: AiEntry): FieldMatch {
    FieldMatch(p.fieldA, p.fieldB, p.valueA, p.valueB, AiSimilarity(e), None,
               TypeNamed(e.matchType.GetOr("ai_determined")))
  }

  /** How the loop index `i` is turned into a dict key. */
  type KeyOf = nat -> PyKey

  /** The loop as written: `ai_results.get(i, {})` with the integer `i`. */
  function AsWrittenKey(i: nat): PyKey {
    IntKey(i)
  }

  /** The key the prompt's answer format uses: the index as a string. */
  function IntendedKey(i: nat): PyKey {
    StrKey(NatToString(i))
  }

  /** The entry recorded for pair `i`, when its similarity exceeds 0.5. */
  function AiAt(results: map<PyKey, AiEntry>, key: KeyOf): (nat, FieldPair) -> Option<FieldMatch> {
    (i: nat, p: FieldPair) =>
      var e := EntryAt(results, key(i));
      if AiSimilarity(e) > 0.5 then Some(AiFieldMatch(p, e)) else None
  }

  /** `_compare_all_fields_ai` with a service present. */
  function AiCompare(svc: AiService, loads: JsonLoads, key: KeyOf, rowA: Row, rowB: Row,
                     ha: seq<string>, hb: seq<string>): seq<FieldMatch> {
    var pairs := FieldPairs(rowA, rowB, ha, hb);
    if pairs == [] then [] else Collect(AiAt(BatchAnalysis(svc, loads, pairs), key), pairs)
  }

  /** A match is recorded exactly for a sent pair whose verdict, under the key of
      its index, has a similarity above 0.5. */
  lemma AiCompareSpec(svc: AiService, loads: JsonLoads, key: KeyOf, rowA: Row, rowB: Row,
                      ha: seq<string>, hb: seq<string>, fm: FieldMatch)
    ensures var pairs := FieldPairs(rowA, rowB, ha, hb);
            var results := BatchAnalysis(svc, loads, pairs);
            fm in AiCompare(svc, loads, key, rowA, rowB, ha, hb) <==>
              exists i :: 0 <= i < |pairs| && AiSimilarity(EntryAt(results, key(i))) > 0.5
                          && fm == AiFieldMatch(pairs[i], EntryAt(results, key(i)))
  {
    var pairs := FieldPairs(rowA, rowB, ha, hb);
    if pairs != [] {
      CollectIn(AiAt(BatchAnalysis(svc, loads, pairs), key), pairs, fm);
    }
  }

  /** Every recorded match joins two header columns whose values passed the length
      filter, has a similarity above 0.5 and carries no similarity record. */
  lemma AiMatchFacts(svc: AiService, loads: JsonLoads, key: KeyOf, rowA: Row, rowB: Row,
                     ha: seq<string>, hb: seq<string>, fm: FieldMatch)
    requires fm in AiCompare(svc, loads, key, rowA, rowB, ha, hb)
    ensures fm.fieldA in ha && fm.fieldB in hb && fm.similarity > 0.5 && fm.details.None?
    ensures fm.valueA == CellValue(rowA, fm.fieldA) && fm.valueB == CellValue(rowB, fm.fieldB)
    ensures |fm.valueA| >= 2 && |fm.valueB| >= 2
  {
    var pairs := FieldPairs(rowA, rowB, ha, hb);
    var results := BatchAnalysis(svc, loads, pairs);
    AiCompareSpec(svc, loads, key, rowA, rowB, ha, hb, fm);
    var i :| 0 <= i < |pairs| && AiSimilarity(EntryAt(results, key(i))) > 0.5
             && fm == AiFieldMatch(pairs[i], EntryAt(results, key(i)));
    FieldPairsSpec(rowA, rowB, ha, hb, pairs[i]);
  }

  /** As written, the integer key never matches a string key: every similarity
      reads as 0.0 and the AI comparison records nothing. */
  lemma AsWrittenAiRecordsNothing(svc: AiService, loads: JsonLoads, rowA: Row, rowB: Row,
                                  ha: seq<string>, hb: seq<string>)
    ensures AiCompare(svc, loads, AsWrittenKey, rowA, rowB, ha, hb) == []
  {
    var pairs := FieldPairs(rowA, rowB, ha, hb);
    if pairs != [] {
      var results := BatchAnalysis(svc, loads, pairs);
      BatchAnalysisSpec(svc, loads, pairs);
      var f := AiAt(results, AsWrittenKey);
      forall i | 0 <= i < |pairs|
        ensures f(i, pairs[i]).None?
      {
        assert IntKey(i) !in results;
        assert EntryAt(results, AsWrittenKey(i)) == NoEntry;
        assert AiSimilarity(NoEntry) == 0.0;
        assert f(i, pairs[i]) == AiAt(results, AsWrittenKey)(i, pairs[i]);
      }
      CollectNone(f, pairs);
    }
  }

  /** Looking up the index as a string reads the verdict the service gave under
      that member name: a verdict above 0.5 is recorded. */
  lemma IntendedAiReadsResponse(svc: AiService, loads: JsonLoads, rowA: Row, rowB: Row,
                                ha: seq<string>, hb: seq<string>, text: string,
                                obj: map<string, AiEntry>, i: nat)
    requires var pairs := FieldPairs(rowA, rowB, ha, hb);
             && i < |pairs|
             && svc(Take(pairs, 20)).ApiOk?
             && JsonRegion(svc(Take(pairs, 20)).content) == Some(text)
             && loads(text) == Some(obj)
    requires NatToString(i) in obj && AiSimilarity(obj[NatToString(i)]) > 0.5
    ensures AiFieldMatch(FieldPairs(rowA, rowB, ha, hb)[i], obj[NatToString(i)])
              in AiCompare(svc, loads, IntendedKey, rowA, rowB, ha, hb)
  {
    var pairs := FieldPairs(rowA, rowB, ha, hb);
    var results := BatchAnalysis(svc, loads, pairs);
    assert results == StrKeys(obj);
    assert EntryAt(results, IntendedKey(i)) == obj[NatToString(i)];
    AiCompareSpec(svc, loads, IntendedKey, rowA, rowB, ha, hb,
                  AiFieldMatch(pairs[i], obj[NatToString(i)]));
  }

  // ---------------------------------------------------------------------------
  // brute_force_matching with a mode

  function AiComparer(svc: AiService, loads: JsonLoads, key: KeyOf, ha: seq<string>, hb: seq<string>): Comparer {
    (ra: Row, rb: Row) => AiCompare(svc, loads, key, ra, rb, ha, hb)
  }

  /** 'ai' mode: the library comparison when no service is given. */
  function AiModeComparer(m: Measures, svc: Option<AiService>, loads: JsonLoads, key: KeyOf,
                          ha: seq<string>, hb: seq<string>): Comparer {
    match svc
    case None => LibraryComparer(m, ha, hb)
    case Some(s) => AiComparer(s, loads, key, ha, hb)
  }

  /** The matches, the mappings each of them carries, and the `analysis_mode` tag. */
  datatype HybridResult = HybridResult(matches: seq<BfMatch>, mappings: seq<Correlation>, mode: string)

  function Tagged(r: Result<BfResult, PyError>, mode: string): Result<HybridResult, PyError> {
    match r
    case Failure(e) => Failure(e)
    case Success(v) => Success(HybridResult(v.matches, v.mappings, mode))
  }

  /** `brute_force_matching(..., similarity_mode, ai_manager)`, with `key` the way
      the AI path turns an index into a dict key. */
  function HybridRun(m: Measures, svc: Option<AiService>, loads: JsonLoads, key: KeyOf,
                     dataA: seq<Row>, dataB: seq<Row>, ha: seq<string>, hb: seq<string>,
                     maxSample: int, mode: string): Result<HybridResult, PyError> {
    var sa := Prefix(dataA, maxSample);
    var sb := Prefix(dataB, maxSample);
    if mode == "library" then Tagged(MatchRows(LibraryComparer(m, ha, hb), m, sa, sb), mode)
    else if mode == "ai" then Tagged(MatchRows(AiModeComparer(m, svc, loads, key, ha, hb), m, sa, sb), mode)
    else if sa != [] && sb != [] then Failure(UnknownMode(mode))
    else Success(HybridResult([], [], mode))
  }

  /** The code as written. */
  function HybridMatchingAsWritten(m: Measures, svc: Option<AiService>, loads: JsonLoads,
                                   dataA: seq<Row>, dataB: seq<Row>, ha: seq<string>, hb: seq<string>,
                                   maxSample: int, mode: string): Result<HybridResult, PyError> {
    HybridRun(m, svc, loads, AsWrittenKey, dataA, dataB, ha, hb, maxSample, mode)
  }

  /** The matcher with the index looked up as the string the answer format uses. */
  function HybridMatching(m: Measures, svc: Option<AiService>, loads: JsonLoads,
                          dataA: seq<Row>, dataB: seq<Row>, ha: seq<string>, hb: seq<string>,
                          maxSample: int, mode: string): Result<HybridResult, PyError> {
    HybridRun(m, svc, loads, IntendedKey, dataA, dataB, ha, hb, maxSample, mode)
  }

  /** An unknown mode raises exactly when both samples are non-empty; with an empty
      side it returns nothing, tagged with that mode. */
  lemma HybridUnknownMode(m: Measures, svc: Option<AiService>, loads: JsonLoads, key: KeyOf,
                          dataA: seq<Row>, dataB: seq<Row>, ha: seq<string>, hb: seq<string>,
                          maxSample: int, mode: string)
    ensures var r := HybridRun(m, svc, loads, key, dataA, dataB, ha, hb, maxSample, mode);
            (r.Failure? && r.error == UnknownMode(mode)) <==>
              (mode != "library" && mode != "ai" && Prefix(dataA, maxSample) != [] && Prefix(dataB, maxSample) != [])
    ensures mode != "library" && mode != "ai" && (Prefix(dataA, maxSample) == [] || Prefix(dataB, maxSample) == []) ==>
              HybridRun(m, svc, loads, key, dataA, dataB, ha, hb, maxSample, mode) == Success(HybridResult([], [], mode))
  {
    var sa := Prefix(dataA, maxSample);
    var sb := Prefix(dataB, maxSample);
    MatchRowsErrorKind(LibraryComparer(m, ha, hb), m, sa, sb);
    MatchRowsErrorKind(AiModeComparer(m, svc, loads, key, ha, hb), m, sa, sb);
  }

  /** 'library' mode, and 'ai' mode without a service, return what the plain
      brute-force matcher returns, tagged with the mode. */
  lemma HybridLibraryFallback(m: Measures, svc: Option<AiService>, loads: JsonLoads, key: KeyOf,
                              dataA: seq<Row>, dataB: seq<Row>, ha: seq<string>, hb: seq<string>,
                              maxSample: int, mode: string)
    requires mode == "library" || (mode == "ai" && svc.None?)
    ensures var r := HybridRun(m, svc, loads, key, dataA, dataB, ha, hb, maxSample, mode);
            var bf := BruteForceMatching(m, dataA, dataB, ha, hb, maxSample);
            && (r.Success? <==> bf.Success?)
            && (r.Failure? ==> r.error == bf.error)
            && (r.Success? ==> r.value.matches == bf.value.matches && r.value.mappings == bf.value.mappings
                               && r.value.mode == mode)
  {
  }

  /** As written, 'ai' mode with a service finds no match and no mapping. */
  lemma AsWrittenAiFindsNothing(m: Measures, svc: AiService, loads: JsonLoads,
                                dataA: seq<Row>, dataB: seq<Row>, ha: seq<string>, hb: seq<string>,
                                maxSample: int)
    ensures HybridMatchingAsWritten(m, Some(svc), loads, dataA, dataB, ha, hb, maxSample, "ai")
              == Success(HybridResult([], [], "ai"))
  {
    var cmp := AiComparer(svc, loads, AsWrittenKey, ha, hb);
    forall ra, rb
      ensures cmp(ra, rb) == []
    {
      AsWrittenAiRecordsNothing(svc, loads, ra, rb, ha, hb);
    }
    SilentComparerFindsNothing(cmp, m, Prefix(dataA, maxSample), Prefix(dataB, maxSample));
  }

  /** The comparison the loop runs in the given mode. */
  function ModeComparer(m: Measures, svc: Option<AiService>, loads: JsonLoads, key: KeyOf,
                        ha: seq<string>, hb: seq<string>, mode: string): Comparer {
    if mode == "ai" then AiModeComparer(m, svc, loads, key, ha, hb) else LibraryComparer(m, ha, hb)
  }

  /** A successful run is tagged with its mode; its matches are best candidates of
      their rows under the mode's comparison, one-to-one and by descending score. */
  lemma HybridMatchesSpec(m: Measures, svc: Option<AiService>, loads: JsonLoads, key: KeyOf,
                          dataA: seq<Row>, dataB: seq<Row>, ha: seq<string>, hb: seq<string>,
                          maxSample: int, mode: string)
    ensures var r := HybridRun(m, svc, loads, key, dataA, dataB, ha, hb, maxSample, mode);
            var cmp := ModeComparer(m, svc, loads, key, ha, hb, mode);
            r.Success? ==>
              && r.value.mode == mode
              && AllBest(cmp, Prefix(dataA, maxSample), Prefix(dataB, maxSample), r.value.matches)
              && OneToOne(MatchKeys, r.value.matches)
              && SortedDesc(r.value.matches, MatchScore)
  {
    var sa := Prefix(dataA, maxSample);
    var sb := Prefix(dataB, maxSample);
    if mode == "library" {
      UniqueMatchesSpec(LibraryComparer(m, ha, hb), sa, sb);
    } else if mode == "ai" {
      UniqueMatchesSpec(AiModeComparer(m, svc, loads, key, ha, hb), sa, sb);
    }
  }
}
