# mercury-mapping-engine: record linkage and column mapping, in Dafny

This project models the matching core of mercury-mapping-engine. The engine takes two card catalogues, already parsed into rows (maps from header to cell text). It finds the row pairs that describe the same card, and it learns which column of one catalogue corresponds to which column of the other. The model covers:

- the two-stage key-field matcher (`python/core/two_stage_matching.py`), its verbatim copy in `hikitsugi/implementation_code_package.py`, the older variant `hikitsugi/two_stage_matching.py` and the hard-coded-header variant `hikitsugi/smart_card_matching.py`;
- the similarity toolkit `python/utils/text_similarity.py`, including a Levenshtein loop with its invariants;
- the brute-force matcher `python/core/card_matcher.py`, its pasted helpers `python/core/missing_methods.py` and the mode-switching `python/core/hybrid_brute_force.py`;
- the field mapper and engine summaries (`python/core/field_mapper.py`, `python/core/mapping_engine.py`);
- the flexible matcher `python/core/flexible_matching.py`;
- the small pure helpers: CSV row assembly and statistics (`python/core/csv_analyzer.py`), pagination and required-field checks (`python/api/routes/helpers.py`), the rarity and serial predicates of `python/web/routes/enhanced.py`, and the method comparison of `python/api/routes/analysis.py`.

Conventions:

- Rows are `map<string, string>`; a missing cell reads as "".
- Two-stage scores are integer tenths (name 5, id 4, date 1, cut-off 8). Smart-card scores are hundredths.
- Every other ratio (similarities, confidences, coverage) is a Dafny `real`, an exact rational.
- Library primitives the engine only calls are parameters of the model: `SequenceMatcher.ratio`, NFKC, `float()`, the CSV row parser and the AI service. Where a property needs it, the parameter carries a validity predicate (a ratio lies in [0, 1]).
- A Python exception is a `Failure` of a `Result`, e.g. `Failure(ZeroDivision)`.
- Where copies of one function disagree, each copy has its own definition, and the divergence is a lemma.

One module per source file; shared helpers live in `Seqs`, `Strings`, `Chars`, `Sets`, `Sorting`, `Rows`, `Pairing` and `Wrappers`.

## Model

| member | source | states |
|---|---|---|
| TwoStage.IdentifyKeyFieldsSpec | python/core/two_stage_matching.py:16-42 | for each of name, id and date, the headers listed on each side are exactly the headers whose lower-cased text contains one of that type's keywords, in header order; the type has an entry exactly when some header qualifies |
| TwoStage.ClassifyHeadersEffect | python/core/two_stage_matching.py:26-32 | the loop over one side's headers appends the qualifying headers of a type after what the type already held, and creates the type's entry exactly when one qualifies |
| TwoStage.AddHeaderEffect | python/core/two_stage_matching.py:28-32 | for one header, the loop over distinct key types appends the header to exactly the types whose keyword it contains, and touches no other type |
| TwoStage.ClassifyStep | hikitsugi/implementation_code_package.py:24-30 | one header of the copy's loop lands under each of name/id/date whose keyword it contains, and under nothing else |
| TwoStage.HeaderUnderTwoTypes | python/core/two_stage_matching.py:18-22 | a header can land under two types: "serial_date" holds an id keyword and a date keyword |
| TwoStage.CoreKeywordsExtended | hikitsugi/implementation_code_package.py:16-20 | the copy's keyword table contains 'product' for name, 'sku' for id and 'launch' for date |
| TwoStage.NormalizeSlashDate | python/core/two_stage_matching.py:49-57 | a '/'-separated triple of digit strings becomes year.zfill(4) + month.zfill(2) + day.zfill(2) |
| TwoStage.NormalizeDateExample | hikitsugi/implementation_code_package.py:49-55 | a four-digit year and a two-digit day stay as they are and a one-digit month gains a leading '0', with no calendar check (2024/13/99 passes) |
| TwoStage.NormalizeValueShapes | python/core/two_stage_matching.py:46-58 | empty input gives "" for every type; a date value that is not a digit slash triple comes back without any '-', '/' or ' ' |
| TwoStage.NameBranchShape | hikitsugi/implementation_code_package.py:58-60 | the name branch returns a stripped value with no ASCII capital, no '＆' and no U+3000 |
| TwoStage.NormalizeNameIdempotent | python/core/two_stage_matching.py:60-62 | normalising a normalised name changes nothing |
| TwoStage.IdBranchShape | hikitsugi/implementation_code_package.py:62-64 | the id branch returns a stripped value with no ASCII lower-case letter and no ' ' |
| TwoStage.NormalizeIdIdempotent | python/core/two_stage_matching.py:64-66 | normalising a normalised id changes nothing |
| TwoStage.OtherBranchShape | hikitsugi/implementation_code_package.py:66 | the fallback branch returns a stripped value with no ASCII capital |
| TwoStage.NormalizeOtherIdempotent | python/core/two_stage_matching.py:68 | normalising a normalised value of any other type changes nothing |
| TwoStage.NormalizeDateNotIdempotent | python/core/two_stage_matching.py:49-58 | the date branch is not idempotent: "-" + a non-space whitespace character + a plain value loses only the '-' on the first call, and the second call strips the whitespace |
| TwoStage.FirstAgreeing | python/core/two_stage_matching.py:85-104 | the B-side field at which the `break` fires agrees with the A-side field and no earlier B-side field does; there is none exactly when no B-side field agrees |
| TwoStage.TypeDetails | python/core/two_stage_matching.py:84-104 | one key type records at most one detail per A-side field, because the `break` leaves only the B-side loop |
| TwoStage.ScanB | python/core/two_stage_matching.py:85-104 | the B-side loop with its `break` records the first agreeing B-side field, or nothing |
| TwoStage.ScoreType | python/core/two_stage_matching.py:84-104 | the two field loops of one key type record one detail per A-side field that has an agreeing B-side field, and add the type's weight once per detail |
| TwoStage.CalculateMatchScore | python/core/two_stage_matching.py:74-106 | the three nested loops produce the reference details (type by type, A-side field by field) and a score equal to the sum of their weights |
| TwoStage.SingleKeyFieldScore | python/core/two_stage_matching.py:89-117 | with one key field per type on each side the score is 5·[names agree] + 4·[ids agree] + 1·[dates agree] tenths, so a pair reaches 0.8 exactly when name and id both agree: name alone (0.5) and name+date (0.6) fall short |
| TwoStage.SingleFieldWeight | hikitsugi/implementation_code_package.py:82-101 | one field on each side adds the type's weight exactly when the two normalised values are equal and non-empty |
| TwoStage.TwoNameFieldsReachCutoff | python/core/two_stage_matching.py:102-104 | two A-side name fields agreeing with one B-side name field each add 0.5, so name alone reaches 1.0 and the cut-off, despite the "count once per type" comment |
| TwoStage.FindIdenticalCardsSpec | python/core/two_stage_matching.py:112-123 | every kept pair is a pair of input rows scoring at least 0.8 with its details; every pair scoring at least 0.8 is kept; the pairs come in A-major order |
| TwoStage.NoOneToOneReduction | hikitsugi/implementation_code_package.py:110-121 | nothing makes the pairs one-to-one: a row identical to a B row that occurs twice is paired with both copies |
| TwoStage.NormalizeForComparisonBranches | python/core/two_stage_matching.py:204-219 | `normalize_for_comparison` equals the date branch of `normalize_value` on digit slash triples and the name branch on everything else |
| TwoStage.TallyCounts | python/core/two_stage_matching.py:152-174 | one field combination adds one comparison to its own key and an exact match only when both stripped values are non-empty and equal after `normalize_for_comparison`; other keys are untouched |
| TwoStage.TallyFieldsCounts | python/core/two_stage_matching.py:151-174 | the B-side loop adds to a key one comparison per header combination yielding it and one exact match per agreeing combination |
| TwoStage.TallyPairCounts | python/core/two_stage_matching.py:150-174 | both header loops add to a key one comparison per header combination yielding it, and one exact match per agreeing combination |
| TwoStage.TallyPairsCounts | python/core/two_stage_matching.py:145-174 | total_comparisons grows for every pair even when a value is empty: it ends at (number of pairs) × (header combinations yielding the key); exact_matches counts exactly the agreeing combinations |
| TwoStage.FieldMappingSamples | python/core/two_stage_matching.py:145-174 | a key's sample_values are the first three of its agreeing value pairs, in pair, A-header, B-header order, each recorded as the stripped values and the normalised common value |
| TwoStage.FieldMappingOrder | python/core/two_stage_matching.py:145-156 | the table's keys appear in first-insertion order of the scan; with at least one pair they are exactly the distinct 'field_a→field_b' keys of the header combinations, in header order, and with no pair there are none |
| TwoStage.ComboKeysSpec | python/core/two_stage_matching.py:150-155 | the keys the two header loops form are exactly the 'field_a→field_b' joins of an A-side and a B-side header |
| TwoStage.FieldMappingCounts | hikitsugi/implementation_code_package.py:143-172 | in the copy's table a key's total_comparisons is (number of pairs) × (header combinations yielding it), its exact_matches is the number of agreeing combinations (never more than the total), and a key has statistics exactly when it is listed in the insertion order |
| TwoStage.CollectMappingsSpec | python/core/two_stage_matching.py:179-196 | the second loop fails exactly when some kept key (confidence at least 0.5) does not split into two parts at '→', and then with the first such key; otherwise it yields, in key order, exactly the mapping of each kept key: cleaned field names, confidence exact/total, sample_count, total_comparisons, High exactly above 0.8, and the key's samples |
| TwoStage.MappingContents | python/core/two_stage_matching.py:179-196 | for a listed key that splits into two parts, the mapping built from it has the cleaned field names, sample_count = agreeing combinations, total_comparisons = pairs × combinations > 0, confidence = their ratio, High exactly above 0.8 and the first three agreeing samples; it is kept exactly when its confidence is at least 0.5 |
| TwoStage.AnalyzeFieldMappingsSpec | python/core/two_stage_matching.py:177-199 | the analysis succeeds exactly when every kept key splits into two parts and otherwise reports a kept key that does not; on success the mappings are sorted by confidence descending and are, as a multiset, one mapping per kept key of the table, each well formed; no pairs give no mappings |
| TwoStage.NoArrowNoFailure | python/core/two_stage_matching.py:185 | with no '→' in any header every key re-splits into two parts, so the analysis never raises |
| TwoStage.CollectFailsOnArrowKey | hikitsugi/implementation_code_package.py:183 | a kept key that does not re-split into two parts makes the unpacking raise |
| TwoStage.ArrowHeaderFails | python/core/two_stage_matching.py:155-185 | a header 'a→b' whose column agrees on the only pair produces the key 'a→b→c', and unpacking it raises |
| TwoStage.TwoStageNoPairs | python/core/two_stage_matching.py:241-248 | when Stage 1 finds no pair the system returns ([], []) and never runs Stage 2 |
| TwoStage.TwoStageMatchingSpec | python/core/two_stage_matching.py:225-269 | with no '→' in any header the system succeeds, returns the Stage 1 pairs unchanged, and returns the Stage 2 mappings: sorted by confidence descending and one per kept key of the pairs' table |
| TwoStage.EvidenceMap | python/core/two_stage_matching.py:296-299 | the evidence map holds exactly the keys 'field_a→field_b' of the match details, each mapped to 1.0 |
| TwoStage.ToEnhancedEvidence | python/core/two_stage_matching.py:295-306 | a converted match keeps both cards, carries the pair's score as overall_similarity, and has one 1.0 evidence entry for each 'field_a→field_b' of the pair's details and no other |
| TwoStage.EnhancedResultEvidence | hikitsugi/implementation_code_package.py:292-306 | the conversion fails exactly when the system failed, with its error; otherwise it keeps the field mappings unchanged and turns the k-th pair into the k-th match with the same cards, the score as overall_similarity and exactly one 1.0 entry per detail key |
| TwoStage.EnhancedPairsEvidence | hikitsugi/implementation_code_package.py:293-304 | the k-th converted match has the cards and score of the k-th pair and exactly one 1.0 evidence entry per detail key of that pair |
| TwoStage.EnhancedTwoStageSpec | python/core/two_stage_matching.py:275-308 | the wrapper runs the system on `data[:max_sample_size]` of each side, so a negative size drops that many rows from the end; it fails exactly when that run fails, and otherwise returns its mappings unchanged and, in order, one converted match per pair with the same cards, the score as overall_similarity and exactly the detail keys as 1.0 evidence |
| Levenshtein.ComputeDistance | python/utils/text_similarity.py:116-134 | the method returns the edit distance of the two strings, whichever of them is longer (the swap at the top changes nothing) |
| Levenshtein.RowDistance | python/utils/text_similarity.py:121-134 | with the first string the longer, the row-by-row loop ends holding the edit distance of the two whole strings; an empty second string gives the first string's length |
| Levenshtein.NextRow | python/utils/text_similarity.py:126-132 | one pass of the inner loop turns the row of distances for the first i characters into the row for the first i+1, entry by entry |
| Levenshtein.DistanceStep | python/utils/text_similarity.py:128-131 | each new entry is the minimum of insertion, deletion and substitution costs, the last adding 1 only for different characters |
| Levenshtein.DistanceSymmetric | python/utils/text_similarity.py:118-119 | the distance does not depend on the argument order |
| Levenshtein.DistanceAtMostLonger | python/utils/text_similarity.py:116-134 | the distance never exceeds the length of the longer string, so the fuzzy ratio never goes below 0 |
| Levenshtein.DistanceAtLeastGap | python/utils/text_similarity.py:121-126 | the distance is at least the difference of the lengths, and the distance to the empty string is the other string's length |
| Levenshtein.DistanceZeroIff | python/utils/text_similarity.py:116-134 | the distance is 0 exactly for equal strings |
| TextSimilarity.CollapseSpaces | python/utils/text_similarity.py:88 | every maximal run of whitespace becomes one space: empty only for empty input, every character is a space or a non-space of the input, and no two spaces are adjacent |
| TextSimilarity.KeptLowerChars | python/utils/text_similarity.py:86 | after lower-casing and dropping everything outside the word-or-space class, each character is whitespace or a word character with no ASCII capital |
| TextSimilarity.CleanTextIsClean | python/utils/text_similarity.py:80-89 | a cleaned text is stripped, single-spaced and holds only spaces and non-capital word characters |
| TextSimilarity.CleanTextFixed | python/utils/text_similarity.py:80-89 | cleaning a text that is already clean returns it unchanged |
| TextSimilarity.CleanTextIdempotent | python/utils/text_similarity.py:80-89 | cleaning twice is cleaning once |
| TextSimilarity.ExactSimilarityFacts | python/utils/text_similarity.py:15-28 | the exact score is 0, 0.9 or 1 and symmetric; it is 1 exactly when both texts clean to the same non-empty string, and positive exactly when both cleaned texts are non-empty and one contains the other |
| TextSimilarity.FuzzySimilarityFacts | python/utils/text_similarity.py:30-49 | the fuzzy score lies in [0, 1] and is symmetric; it is 1 exactly for equal non-empty cleaned texts, and otherwise 1 − distance / longer length, so the `max(0, …)` never changes it |
| TextSimilarity.MiddleDotDropped | python/utils/text_similarity.py:80-89 | the katakana middle dot is not a word character, so "ア・イ" cleans to "アイ" and the two texts are an exact match |
| TextSimilarity.Tokens | python/utils/text_similarity.py:97 | the tokens are non-empty runs of one class among hiragana, katakana, kanji and ASCII alphanumerics |
| TextSimilarity.ExtractWords | python/utils/text_similarity.py:91-99 | the words are exactly the tokens of at least two characters |
| TextSimilarity.PartialSimilarityFacts | python/utils/text_similarity.py:51-65 | the partial score lies in [0, 1] and is symmetric, and it is 1 exactly when the first text has words and both texts have the same set of words |
| TextSimilarity.ComprehensiveFacts | python/utils/text_similarity.py:136-161 | all four scores, the weighted sum and the maximum lie in [0, 1], the weighted sum never exceeds the maximum, and the whole record is symmetric in its two arguments |
| TextSimilarity.WeightedWithinMax | python/utils/text_similarity.py:146-159 | the 0.4/0.3/0.2/0.1 blend of four scores in [0, 1] lies in [0, 1] and never exceeds their maximum |
| TextSimilarity.SameCleanTextScoresHigh | python/utils/text_similarity.py:136-161 | two texts that clean to the same non-empty string score at least 0.7 overall, with maximum 1 |
| TextSimilarity.CandidateScores | python/utils/text_similarity.py:173-175 | the scores are the comprehensive scores of the target against each candidate, in order |
| TextSimilarity.ArgBest | python/utils/text_similarity.py:169-180 | the index is −1 with score 0 exactly when no score is positive and at least the threshold; otherwise it is the first position holding the highest such score |
| TextSimilarity.FindBestMatch | python/utils/text_similarity.py:163-186 | no qualifying candidate (including no candidates at all) gives (None, 0.0, −1); otherwise the answer is the first candidate with the highest comprehensive score among those above 0 and at least the threshold, with its score and index |
| TextSimilarity.ComprehensiveSymmetric | python/utils/text_similarity.py:136-161 | every component of the comprehensive record is the same with the two texts swapped |
| TextSimilarity.FuzzyCleanedFacts | python/utils/text_similarity.py:38-49 | on already-cleaned texts the fuzzy ratio lies in [0, 1], is symmetric, is 1 exactly for equal non-empty texts and otherwise is 1 − distance / longer length |
| LegacyTwoStage.LegacyKeywordsPrefix | hikitsugi/two_stage_matching.py:46-50 | the older keyword lists are the current ones without their last entry ('product', 'sku', 'launch'), so every header the older table classifies the current one classifies too |
| LegacyTwoStage.LegacyIdentifyKeyFieldsSpec | hikitsugi/two_stage_matching.py:42-72 | for each key type, the headers listed on each side are exactly the headers whose lower-cased text contains one of the older keywords, in header order, and the type has an entry exactly when one qualifies |
| LegacyTwoStage.LegacyNormalizeAgrees | hikitsugi/two_stage_matching.py:77-101 | the older normaliser agrees with the current one on names, on other types, and on dates that are digit slash triples; an empty value gives "" |
| LegacyTwoStage.LegacyDatePadsAnyTriple | hikitsugi/two_stage_matching.py:86-90 | the older date branch zero-pads any slash triple, digits or not |
| LegacyTwoStage.CoreDateSkipsNonDigitTriple | python/core/two_stage_matching.py:49-58 | the current date branch leaves a triple with a non-digit part to the separator-removal fallback |
| LegacyTwoStage.LegacyDateKeepsSpaces | hikitsugi/two_stage_matching.py:91 | the older date fallback keeps spaces, which the current one removes, so the two disagree on such a value |
| LegacyTwoStage.LegacyIdKeepsSpaces | hikitsugi/two_stage_matching.py:97-99 | the older id branch keeps inner spaces, which the current one removes, so the two disagree on such a value |
| LegacyTwoStage.AllAgreeingSpec | hikitsugi/two_stage_matching.py:114-133 | without a `break`, the B-side loop records a detail for every agreeing B-side field, and only for those |
| LegacyTwoStage.LegacyTypeDetailsSpec | hikitsugi/two_stage_matching.py:113-133 | one key type records a detail exactly for each agreeing (A-side field, B-side field) combination |
| LegacyTwoStage.LegacyTypeDetailsSound | hikitsugi/two_stage_matching.py:113-133 | every detail of a key type names an A-side and a B-side field of that type whose values agree |
| LegacyTwoStage.LegacyTypeDetailsComplete | hikitsugi/two_stage_matching.py:113-133 | every agreeing combination of fields of a key type is listed among the details |
| LegacyTwoStage.LegacyScanB | hikitsugi/two_stage_matching.py:114-133 | the B-side loop collects all agreeing B-side fields in order |
| LegacyTwoStage.LegacyScoreType | hikitsugi/two_stage_matching.py:113-133 | the two field loops of one key type record the reference details and add the type's weight once per detail |
| LegacyTwoStage.LegacyCalculateMatchScore | hikitsugi/two_stage_matching.py:103-135 | the three nested loops produce the reference details and a score equal to the sum of their weights |
| LegacyTwoStage.TypeWeightAtMost | hikitsugi/two_stage_matching.py:113-133 | per key type, the older matcher's weight is at least the current one's, and equals the type's weight times its detail count |
| LegacyTwoStage.LegacyScoreAtLeastCore | hikitsugi/two_stage_matching.py:103-135 | with the same normaliser and key fields the older score is never below the current one |
| LegacyTwoStage.TwoAgreeingBFields | hikitsugi/two_stage_matching.py:113-125 | one A-side name field agreeing with two B-side name fields scores 0.5 in the current matcher (below the cut-off) but 1.0 in the older one (a match) |
| LegacyTwoStage.CoreCountsOnce | python/core/two_stage_matching.py:84-104 | with one A-side name field and two agreeing B-side fields the current matcher counts the name once |
| LegacyTwoStage.LegacyCountsTwice | hikitsugi/two_stage_matching.py:113-125 | in the same situation the older matcher counts the name twice |
| LegacyTwoStage.LegacyFindIdenticalCardsSpec | hikitsugi/two_stage_matching.py:137-153 | every kept pair is a pair of input rows scoring at least 0.8 with the older score, every such pair is kept, and the pairs come in A-major order |
| LegacyTwoStage.SamplesPair | hikitsugi/two_stage_matching.py:170-191 | one pair's samples number its agreeing combinations for the key, and each records the pair's 'name' and 'カード名' cells |
| LegacyTwoStage.AgreeingSamples | hikitsugi/two_stage_matching.py:165-191 | over all pairs, a key has one sample per agreeing combination, each naming the 'name' and 'カード名' cells of some pair |
| LegacyTwoStage.LegacyTableCounts | hikitsugi/two_stage_matching.py:165-182 | after the loop over the pairs, every listed key's exact_matches is the number of its agreeing (pair, A-header, B-header) combinations |
| LegacyTwoStage.LegacyCollectSpec | hikitsugi/two_stage_matching.py:196-213 | the older second loop fails exactly when a kept key does not split into two parts, and then with the first such key; otherwise it yields, in key order, exactly the older mapping of each kept key, with raw field names |
| LegacyTwoStage.LegacyAnalyzeSpec | hikitsugi/two_stage_matching.py:155-218 | the older analysis succeeds exactly when every kept key splits in two and otherwise reports one that does not; on success the mappings are sorted by confidence descending and are, as a multiset, one mapping per kept key, each well formed and naming a listed key |
| LegacyTwoStage.LegacyMappingContents | hikitsugi/two_stage_matching.py:196-213 | for a listed key that splits in two, the older mapping's field names rejoin to the key, its counts and confidence are the agreement ratio, High exactly above 0.8, its samples the first three agreeing ones; it is kept exactly when the confidence is at least 0.5 |
| LegacyTwoStage.FormatResultsSpec | hikitsugi/two_stage_matching.py:236-275 | the display keeps the first 10 pairs, numbered from 1 with their scores, and the first 20 mappings with their confidences; the totals are the input lengths and the high-confidence count is the number of mappings above 0.8 |
| LegacyTwoStage.LegacyNoPairs | hikitsugi/two_stage_matching.py:32-34 | when the older Stage 1 finds no pair the system returns ([], []) |
| LegacyTwoStage.LegacyPairsKept | hikitsugi/two_stage_matching.py:10-40 | when the older system succeeds it returns the Stage 1 pairs unchanged |
| LegacyTwoStage.LegacyEnhancedSpec | hikitsugi/two_stage_matching.py:278-298 | the older wrapper, with no row limit, fails exactly when the system fails; otherwise it keeps the mappings and turns the k-th pair into a match with its cards, its score and exactly one 1.0 evidence entry per detail key |
| SmartCard.NormalizeTextShape | hikitsugi/smart_card_matching.py:52-62 | normalising never lengthens a text, and every character left is one the symbol filter keeps, with no ASCII capital, no '＆' and no ideographic space remaining |
| SmartCard.NormalizeTextFixed | hikitsugi/smart_card_matching.py:57-62 | a text with no whitespace at its ends, made only of such characters, is left unchanged |
| SmartCard.NormalizeTextIdempotent | hikitsugi/smart_card_matching.py:57-62 | normalising a normalised text changes nothing exactly when the first result has no whitespace at its ends |
| SmartCard.NormalizeTextNotIdempotent | hikitsugi/smart_card_matching.py:57-61 | the strip comes before the symbol filter, so "! a" normalises to " a" and a second pass gives "a" |
| SmartCard.NormalizeTextKana | hikitsugi/smart_card_matching.py:61 | the filter lists '・', so "ア・イ" is left as it is, while the spacing voicing mark '゛' is neither a word character nor listed, so "ア゛" becomes "ア" |
| SmartCard.FirstFilled | hikitsugi/smart_card_matching.py:64-69 | the position found is the first listed field present with a non-empty cell, or the end of the list when there is none |
| SmartCard.ExtractFieldValue | hikitsugi/smart_card_matching.py:64-69 | the value is the stripped cell of the first listed field present with a non-empty cell, or "" when there is none |
| SmartCard.BlankFieldHidesLater | hikitsugi/smart_card_matching.py:66-68 | a field holding only " " is taken (it is non-empty) and strips to "", hiding a filled later field |
| SmartCard.SmartNormalizeDateFacts | hikitsugi/smart_card_matching.py:29-50 | empty input gives ""; a value that is not a three-part '/' split comes back merely stripped, eight digits or not |
| SmartCard.ScoreDecomposition | hikitsugi/smart_card_matching.py:71-127 | the similarity is the sum of a name award (0, 0.3 or 0.4), an id award (0, 0.2 or 0.4), a date award (0 or 0.15) and a series award (0 or 0.05), so it lies in [0, 1] |
| SmartCard.PartPoints | hikitsugi/smart_card_matching.py:76-125 | each of the four comparisons contributes one of its listed awards |
| SmartCard.EmptyTextNameIsPartial | hikitsugi/smart_card_matching.py:80-89 | a name that normalises to "" is contained in every other name, so against a different name it earns the partial award 0.3 with similarity 0.75 |
| SmartCard.NameDateSeriesSuffice | hikitsugi/smart_card_matching.py:80-140 | an exact name with agreeing date and series reaches 0.6 and is kept without any id |
| SmartCard.PartialNameAndIdFallShort | hikitsugi/smart_card_matching.py:80-140 | a partial name with a partial id and nothing else scores 0.5, below the 0.6 cut-off |
| SmartCard.CardMatchesSpec | hikitsugi/smart_card_matching.py:132-148 | every kept match is a pair of input rows scoring at least 0.6, tagged high exactly at 0.8 or more; every such pair is kept; the matches come in A-major order |
| SmartCard.CreditDetailsSpec | hikitsugi/smart_card_matching.py:151-159 | crediting one match's details adds to each key exactly the similarities credited to it; a key enters the order at its first credit and earlier keys keep their places |
| SmartCard.CreditMatchesSpec | hikitsugi/smart_card_matching.py:135-159 | over all kept matches, each key's total grows by exactly the similarities its details credit to it, and a key is listed exactly when it has a total |
| SmartCard.CreditMatchesFixed | hikitsugi/smart_card_matching.py:151-159 | only the four fixed keys 'name→カード名', 'serial→型番', 'releace_date→発売日' and 'series→シリーズ' ever receive credit |
| SmartCard.QualityOf | hikitsugi/smart_card_matching.py:175 | the quality is High exactly above 0.8, Medium exactly in (0.5, 0.8] and Low exactly at 0.5 or below |
| SmartCard.MappingConfidence | hikitsugi/smart_card_matching.py:165 | the confidence lies in [0, 1] and is 0 when no match was kept |
| SmartCard.SampleCountAlwaysZero | hikitsugi/smart_card_matching.py:171-173 | no tag such as 'name_exact' contains a key with '→', so every sample_count is 0 |
| SmartCard.FixedKeySplits | hikitsugi/smart_card_matching.py:164 | each fixed key splits at '→' into exactly the two names it was built from, so the unpacking never raises |
| SmartCard.EnhancedMappingsSpec | hikitsugi/smart_card_matching.py:163-176 | every mapping built from fixed keys names a fixed key, has confidence in [0, 1], the matching quality tier and sample_count 0 |
| SmartCard.MappingsOfSpec | hikitsugi/smart_card_matching.py:161-176 | every produced mapping names one of the four fixed keys, has confidence in [0, 1], the quality tier of its confidence and sample_count 0 |
| SmartCard.EnhancedMappingsContents | hikitsugi/smart_card_matching.py:163-176 | the loop yields one mapping per key, in key order, named after the key, with confidence min(1.0, total / number of matches) |
| SmartCard.MappingsOfContents | hikitsugi/smart_card_matching.py:135-176 | the mappings follow the first-credit order of the keys; each is named after its key with confidence min(1.0, total_sim / len(card_matches)), total_sim being all the similarity credited to the key; every key with positive credit has a mapping |
| BruteForceScoring.Values | python/core/card_matcher.py:348-354 | the values of the similarity dict start with exact, fuzzy and partial, which are always present |
| BruteForceScoring.WordMatches | python/core/card_matcher.py:383-388 | word_matches counts each A-side word at most once (the `break`), so it never exceeds the number of A-side words |
| BruteForceScoring.NumericEntriesInUnit | python/core/card_matcher.py:357-364 | equal numbers give numeric_exact 1.0; numeric_close, when present, lies in [0, 1] |
| BruteForceScoring.WordLevelInUnit | python/core/card_matcher.py:380-389 | word_level, when present, lies in [0, 1] |
| BruteForceScoring.ComprehensiveSpec | python/core/card_matcher.py:346-395 | with similarity measures in [0, 1] every entry and the maximum lie in [0, 1]; exact is 1 exactly for equal values and 0 otherwise; substring is present, with 0.8, exactly when both values have at least three characters and one contains the other |
| BruteForceScoring.EntriesInUnit | python/core/card_matcher.py:348-389 | when every present entry lies in [0, 1] so do all the values and their maximum |
| BruteForceScoring.MaxAtLeast | python/core/card_matcher.py:409 | `max(similarities.values())` is at least every value |
| BruteForceScoring.WeakIffNothingAboveSeven | python/core/card_matcher.py:397-412 | the type is weak_match exactly when no similarity exceeds 0.7 |
| BruteForceScoring.ExactMatchIffEqual | python/core/card_matcher.py:399-400 | the type is exact_match exactly when the two values are equal |
| BruteForceScoring.ContainedValueIsSubstringMatch | python/core/card_matcher.py:401-406 | a value of at least three characters contained in a different one is a substring_match unless the numeric or normalised test fires first |
| BruteForceScoring.Weighted | python/core/card_matcher.py:434-440 | each weighted score is the match's similarity times the weight of its type |
| BruteForceScoring.WeightedInUnit | python/core/card_matcher.py:421-439 | every weight lies in (0, 1], so a weighted score lies between 0 and the similarity |
| BruteForceScoring.MeanBounds | python/core/card_matcher.py:447-451 | the mean of weighted scores in [0, hi] lies in [0, hi] |
| BruteForceScoring.BruteForceScoreBounds | python/core/card_matcher.py:414-453 | with similarities in [0, 1] the score lies in [0, 0.95]; with no weighted score above 0.8 it is at most 0.8, and with exactly one at most 0.85 |
| FieldCorrelations.RecordLookup | python/core/card_matcher.py:457-469 | one field match above 0.7 adds 1 to its key's count, its similarity to the total and its sample to the samples, creating the key if needed; any other key and any weaker match leave the matrix unchanged |
| FieldCorrelations.RecordAllWellFormed | python/core/card_matcher.py:455-469 | the update keeps every listed key in the matrix and only appends to the key order |
| FieldCorrelations.RecordAllSpec | python/core/card_matcher.py:455-469 | after all field matches, a key's count, total and samples grow by exactly the number, similarity sum and samples of its matches above 0.7, in order |
| FieldCorrelations.RecordAllKeys | python/core/card_matcher.py:457-461 | a key is created only by a match above 0.7 that names it |
| FieldCorrelations.StrongForFacts | python/core/card_matcher.py:458-459 | the matches counted for a key are input matches above 0.7 that name the key |
| FieldCorrelations.KeyStats | python/core/card_matcher.py:455-469 | from an empty matrix a key's count and total are exactly the number and similarity sum of its matches above 0.7 |
| FieldCorrelations.StrongForNonEmpty | python/core/card_matcher.py:460-463 | a key present in the matrix has at least one counted match |
| FieldCorrelations.MeanAboveCut | python/core/card_matcher.py:458-477 | with similarities at most 1, every key's average similarity lies in (0.7, 1] |
| FieldCorrelations.NumericCount | python/core/card_matcher.py:498-506 | the numeric count never exceeds the number of samples looked at |
| FieldCorrelations.InferFieldTypeSpec | python/core/card_matcher.py:493-516 | the kind is numeric exactly when more than half of the first five samples parse as numbers on both sides, name exactly when that fails and one of the first three samples contains '名', and text for no samples |
| FieldCorrelations.NameInFirstThree | python/core/card_matcher.py:510 | looking for '名' in `samples[:3]` is looking at the samples with index below 3 |
| FieldCorrelations.CorrelateSpec | python/core/card_matcher.py:476-487 | a key seen at least twice fails to unpack exactly when it does not split into two parts at '→'; otherwise its entry names the key, has sample_count = count, confidence = average similarity, the inferred kind and quality_score = min(1, confidence × sample_count / 10) |
| FieldCorrelations.CorrelateAllErrorKind | python/core/card_matcher.py:478 | the only failure of the loop is an unpacking mismatch |
| FieldCorrelations.CorrelateAllFails | python/core/card_matcher.py:475-487 | the loop fails exactly when some key seen at least twice does not split into two parts |
| FieldCorrelations.CorrelateAllSpec | python/core/card_matcher.py:475-487 | on success every entry reports a key seen at least twice with its statistics (count, mean similarity, inferred kind, quality_score = min(1, mean × count / 10)), and every such key is reported |
| FieldCorrelations.AnalyzeFieldCorrelationsSpec | python/core/card_matcher.py:471-491 | the analysis fails exactly when a key seen at least twice does not split in two; on success the entries are sorted by confidence descending, each reports its key's statistics with quality_score = min(1, mean × count / 10), and every key seen at least twice is reported |
| FieldCorrelations.QualityScoreFacts | python/core/card_matcher.py:486 | `min(1.0, avg × count / 10)` is at most 1, at least 0 for a non-negative average, and 1 for a perfect average over ten or more matches |
| BruteForce.IdentifyCardNameFields | python/core/card_matcher.py:25-39 | when some header is name-like (it contains a pattern or is contained in one, case-insensitively) the result holds exactly the name-like headers; otherwise it is the first three headers |
| BruteForce.IdentifyPriceFields | python/core/card_matcher.py:41-55 | the result holds exactly the headers containing a price pattern, case-insensitively |
| BruteForce.EmptyHeaderIsNameLike | python/core/card_matcher.py:35 | the empty header is contained in every pattern, so it counts as a name field |
| BruteForce.CompareColumnSound | python/core/card_matcher.py:324-342 | every match recorded for one A-side column names that column and a B-side column and is exactly what their two values produce |
| BruteForce.CompareColumnComplete | python/core/card_matcher.py:324-342 | every B-side column whose value passes the length and similarity filters with the A-side value is recorded |
| BruteForce.CompareAllFieldsSpec | python/core/card_matcher.py:314-344 | every recorded match is the one its two columns produce from values of at least two characters with maximum similarity above 0.5, and every column pair passing those filters is recorded |
| BruteForce.CompareAllFieldsSound | python/core/card_matcher.py:319-342 | every recorded match names an A-side and a B-side header and is what their two values produce |
| BruteForce.CompareAllFieldsComplete | python/core/card_matcher.py:319-342 | every header pair whose values pass the filters has its match recorded |
| BruteForce.CompareAllFieldsInUnit | python/core/card_matcher.py:331-339 | with similarity records bounded by 1 every recorded similarity lies in (0.5, 1] |
| BruteForce.LibraryMeasuresValid | python/core/card_matcher.py:353-354 | the toolkit's fuzzy and partial similarities, as the matcher calls them, lie in [0, 1] |
| BruteForce.LibrarySimsBounded | python/core/card_matcher.py:346-395 | with valid measures the library similarity record never exceeds 1 |
| BruteForce.AllCandidates | python/core/card_matcher.py:263-291 | A row i gets one candidate per B row, in order, scored by the row score of its field matches |
| BruteForce.CollectSpec | python/core/card_matcher.py:263-291 | keeping the candidates that pass a test keeps them in index order, each the candidate of its own index, and misses none |
| BruteForce.CollectIn | python/core/card_matcher.py:277-291 | a candidate is kept exactly when some index produces it |
| BruteForce.BestOfSpec | python/core/card_matcher.py:294-296 | `max` over the candidates above 0.6 finds one exactly when one exists, and picks the first with the highest score |
| BruteForce.BestOfRowSpec | python/core/card_matcher.py:260-296 | an A row keeps a match exactly when some B row scores above 0.6, and keeps the first top-scoring one |
| BruteForce.RowBestsSpec | python/core/card_matcher.py:260-296 | before deduplication there is at most one match per A row, in row order, each the best of its row, and every row with a candidate has one |
| BruteForce.RowFieldMatchesFrom | python/core/card_matcher.py:263-272 | every field match fed to the matrix from one A row comes from comparing it with some B row |
| BruteForce.PairFieldMatchesFrom | python/core/card_matcher.py:260-272 | every field match fed to the matrix comes from comparing some A row with some B row |
| BruteForce.CorrelationMatrix | python/core/card_matcher.py:256-272 | the matrix built over all row pairs keeps every listed key present |
| BruteForce.UniqueMatchesSpec | python/core/card_matcher.py:298-299 | after deduplication every match is still the best of its A row, no two share an A or a B row, they are sorted by score descending, and every dropped row best conflicts with a kept match |
| BruteForce.MatchRowsFails | python/core/card_matcher.py:301-302 | the run fails exactly when the matrix holds a key seen at least twice that does not split in two |
| BruteForce.MatchRowsMatches | python/core/card_matcher.py:298-312 | on success the matches are the deduplicated row bests |
| BruteForce.MatchRowsMappings | python/core/card_matcher.py:301-309 | on success the attached mappings are sorted by confidence descending, each reports its key's statistics with quality_score = min(1, mean × count / 10), and every key seen at least twice is reported |
| BruteForce.MatchRowsErrorKind | python/core/card_matcher.py:302 | the only failure is an unpacking mismatch |
| BruteForce.LibraryFieldMatch | python/core/card_matcher.py:314-344 | every field match of the library comparison names an A-side and a B-side header, with similarity in (0.5, 1] when the record is bounded |
| BruteForce.LibraryMappingsInRange | python/core/card_matcher.py:232-312 | with the library comparison every reported mapping has confidence in (0.7, 1], quality score in [0, 1] and at least two samples |
| BruteForce.ArrowFreeHeadersSucceed | python/core/card_matcher.py:232-312 | with no '→' in any header the brute-force run never raises |
| BruteForce.NoCandidateNoBests | python/core/card_matcher.py:294-296 | when no A row has a candidate nothing is kept |
| BruteForce.FirstBestHasCandidate | python/core/card_matcher.py:294-296 | the first kept row best belongs to an A row that has a candidate |
| BruteForce.SilentComparerFindsNothing | python/core/card_matcher.py:260-312 | when no comparison records a field match the run returns no matches and no mappings |
| BruteForce.EmptySideFindsNothing | python/core/card_matcher.py:252-312 | an empty side gives no matches and no mappings |
| BruteForce.PickScores | python/core/card_matcher.py:205-214 | each score is the first truthy of match_score, similarity and score, else 0.0 |
| BruteForce.TiersPartition | python/core/card_matcher.py:220-222 | the high (> 0.8), medium ([0.6, 0.8]) and low (< 0.6) tiers count every score exactly once |
| BruteForce.AnalyzeMatchQualitySpec | python/core/card_matcher.py:193-230 | total_matches is the number of matches, the three tiers add up to it, and with scores in [0, 1] the average lies in [0, 1] |
| BruteForce.ZeroScoreFallsThrough | python/core/card_matcher.py:207-210 | a match_score of 0.0 is falsy, so the next key is read, and with none the score is 0.0 |
| Dedup.SubListIn | python/core/card_matcher.py:185-189 | every match the scan keeps is one of its input matches |
| Dedup.SubListSorted | python/core/card_matcher.py:520-535 | the kept matches of a score-sorted list stay sorted |
| Dedup.GreedySpec | python/core/card_matcher.py:179-191 | the scan keeps matches in input order, no two kept matches share an A or a B row, and every input match shares a row with a kept one |
| Dedup.GreedyKeepsOneToOne | python/core/card_matcher.py:185-189 | a list already one-to-one is kept whole |
| Dedup.RemoveDuplicates | python/core/card_matcher.py:179-191 | the loop with its two used-row sets keeps exactly the reference scan: an order-preserving one-to-one sub-list that every dropped match conflicts with |
| Dedup.GreedyByScoreSpec | python/core/card_matcher.py:518-535 | after the descending stable sort the kept matches are sorted by score, one-to-one, drawn from the input, and every input match conflicts with one of them |
| Dedup.RemoveDuplicatesByScore | python/core/card_matcher.py:518-535 | the brute-force variant keeps exactly the scan of the score-sorted list: sorted descending, one-to-one, drawn from the input, and conflicting with every input match |
| MissingMethods.ComprehensiveEntries | python/core/missing_methods.py:11-44 | numeric_exact is present exactly when both values parse to the same number, and then is 1.0 with no numeric_close; numeric_close lies in [0, 1]; normalized is present exactly when both normalised values are non-empty; word_level is present exactly when both values have words, and lies in [0, 1] |
| MissingMethods.NumericMatchIffSameNumber | python/core/missing_methods.py:52-57 | the type is numeric_match exactly when the values differ but parse to the same number |
| MissingMethods.ScoreVersusMean | python/core/missing_methods.py:69-108 | the score is the weighted mean plus at most 0.2 (at most 0.1 with one high-confidence match, exactly the mean with none), and the bonus never lowers the mean while the mean is under its cap |
| MissingMethods.StrongKeysOnly | python/core/missing_methods.py:110-124 | from an empty matrix a key exists exactly when some match above 0.7 names it, with count and total of exactly those matches |
| MissingMethods.RecordAllCountsPositive | python/core/missing_methods.py:115-118 | every key in the matrix has a positive count |
| MissingMethods.InferFieldTypeFirstFive | python/core/missing_methods.py:148-171 | the kind depends only on the first five samples |
| MissingMethods.RemoveDuplicatesIdempotent | python/core/missing_methods.py:173-190 | deduplicating an already deduplicated list changes nothing |
| Hybrid.ColumnPairsSpec | python/core/hybrid_brute_force.py:152-162 | the pairs collected for one A-side column are exactly its pairs with B-side columns whose stripped values both have at least two characters |
| Hybrid.FieldPairsSpec | python/core/hybrid_brute_force.py:146-162 | the field pairs are exactly the column pairs whose stripped values both have at least two characters |
| Hybrid.LastIndexOf | python/core/hybrid_brute_force.py:252 | the position is an occurrence of the character with none after it |
| Hybrid.JsonRegion | python/core/hybrid_brute_force.py:252-258 | the greedy `\{.*\}` search finds a region exactly when the content has a '{' followed later by a '}', and the region runs from the first '{' to the last '}' |
| Hybrid.StrKeys | python/core/hybrid_brute_force.py:255 | a parsed JSON object has only string keys, one per key of the object, with the same entries |
| Hybrid.BatchAnalysisSpec | python/core/hybrid_brute_force.py:187-208 | the results have only string keys; a failed call or a reply without braces gives no results; at most 20 pairs go into the prompt |
| Hybrid.AiCompareSpec | python/core/hybrid_brute_force.py:165-183 | a field match is recorded exactly for each pair whose looked-up entry has similarity above 0.5, built from that pair and entry |
| Hybrid.AiMatchFacts | python/core/hybrid_brute_force.py:146-183 | every AI field match names an A-side and a B-side header, has similarity above 0.5, no similarity record, and the stripped cell values of at least two characters |
| Hybrid.AsWrittenAiRecordsNothing | python/core/hybrid_brute_force.py:169 | looking the integer index up in a dict with string keys always misses, so the AI comparison records nothing |
| Hybrid.IntendedAiReadsResponse | python/core/hybrid_brute_force.py:165-183 | with the index looked up as `str(i)`, a pair whose entry in the reply has similarity above 0.5 is recorded |
| Hybrid.HybridUnknownMode | python/core/hybrid_brute_force.py:40-54 | an unknown mode raises exactly when both samples are non-empty, since the check sits inside the row loops; otherwise it returns nothing |
| Hybrid.HybridLibraryFallback | python/core/hybrid_brute_force.py:45-48 | library mode, and AI mode without an AI manager, return exactly the brute-force run's matches and mappings, tagged with the mode |
| Hybrid.AsWrittenAiFindsNothing | python/core/hybrid_brute_force.py:1-100 | as written, AI mode with a manager always returns no matches and no mappings |
| Hybrid.HybridMatchesSpec | python/core/hybrid_brute_force.py:1-100 | on success every match is tagged with the mode, is the best of its A row under the mode's comparison, and the matches are one-to-one and sorted by score |
| FieldMapper.Score | python/core/field_mapper.py:38-39 | the per-pair sample score is the comprehensive similarity of the two stripped values, lies in [0, 1] and does not depend on the argument order |
| FieldMapper.DetailsSpec | python/core/field_mapper.py:30-39 | the sample list of a field pair holds one score in [0, 1] per match where both stripped values are non-empty, and is empty exactly when no match has both |
| FieldMapper.CrossIn | python/core/field_mapper.py:28-29 | the pairs visited are exactly those with the first field from the A headers and the second from the B headers |
| FieldMapper.StatsForIn | python/core/field_mapper.py:41-51 | a statistics entry exists for a visited pair exactly when its sample list is non-empty, and then equals the statistics of that list |
| FieldMapper.StatsForDistinct | python/core/field_mapper.py:45 | distinct visited pairs give entries with distinct keys, as a dictionary keyed by the pair does |
| FieldMapper.StatsOfFacts | python/core/field_mapper.py:41-51 | an entry's sample count is the number of usable matches, its samples are their scores in match order, high matches never exceed the sample count, similarity and consistency lie in [0, 1], and consistency is 1 exactly when every sample exceeds 0.8 |
| FieldMapper.AnalyzeFieldMappingsSpec | python/core/field_mapper.py:20-54 | the result has an entry for (fa, fb) exactly when fa is an A header, fb a B header and some match has both values; each entry equals the statistics of its samples; no pair appears twice |
| FieldMapper.MinSamplesZero | python/core/field_mapper.py:62 | the minimum sample count max(min_sample_count, 0.3 * matches) is never negative, is 0 exactly when the configured minimum is at most 0 and there are no matches, and is at least 3 under the default configuration |
| FieldMapper.ConfidenceScoreFacts | python/core/field_mapper.py:210-219 | the 0.4/0.4/0.2 weighted confidence lies in [0, 1] and is 1 exactly when similarity and consistency are 1 and the sample count reaches the minimum |
| FieldMapper.ConfidentAllIn | python/core/field_mapper.py:64-86 | a confident mapping is produced exactly for the entries that pass the similarity, consistency and sample-count thresholds, built from that entry |
| FieldMapper.CalculateMappingConfidenceSpec | python/core/field_mapper.py:56-97 | the call raises (division by zero) exactly when there are entries, the configured minimum is at most 0 and there are no matches; otherwise the result is sorted by descending confidence and is a permutation of the mappings of the passing entries, one per passing entry with its multiplicity, so a value that is in the result is there because some entry passes all three thresholds |
| FieldMapper.ConfidentFacts | python/core/field_mapper.py:68-86 | a produced mapping meets both thresholds and the sample minimum, carries its pair and the estimated field type, and has confidence in [0, 1] |
| FieldMapper.FirstFiring | python/core/field_mapper.py:119-122 | the search returns the first pattern group, from the given position on, one of whose patterns occurs in the lower-cased field names, and none before it fires |
| FieldMapper.EstimateFieldTypeSpec | python/core/field_mapper.py:99-130 | the field type is the name of the first pattern group that fires; when none fires it is high-confidence unknown exactly when similarity > 0.9 and consistency > 0.8, medium exactly when not that and similarity > 0.7, and unknown exactly when similarity <= 0.7 |
| FieldMapper.CardIdIsCardName | python/core/field_mapper.py:101-122 | the pair ("card_id", "id") is typed card_name, since the card_name group is tried before the id group |
| FieldMapper.Ascending | python/core/field_mapper.py:340 | sorting returns a permutation of the samples in ascending order |
| FieldMapper.SortedAscUnique | python/core/field_mapper.py:340 | two ascending permutations of the same samples are equal, so the sorted list is determined by its contents |
| FieldMapper.MedianFacts | python/core/field_mapper.py:335-346 | the median of a non-empty list lies between its minimum and maximum and, for an odd length, is one of its elements |
| FieldMapper.MedianOrderFree | python/core/field_mapper.py:335-346 | the median depends only on the multiset of samples, not on their order |
| FieldMapper.MedianOfSorted | python/core/field_mapper.py:335-346 | the median is 0 for no values; for any ascending arrangement of the values it is the middle element for an odd count and the mean of the two middle elements for an even count |
| FieldMapper.QualityMetricsSpec | python/core/field_mapper.py:221-234 | the metrics are empty exactly when there are no samples; otherwise minimum <= median <= maximum, minimum and maximum are samples, and the consistency ratio is the entry's consistency |
| FieldMapper.PresentValues | python/core/field_mapper.py:257 | the collected values of a field are all non-empty |
| FieldMapper.PresentValuesIn | python/core/field_mapper.py:257 | a value is collected exactly when it is non-empty and some sample row holds it for the field |
| FieldMapper.PresentValuesEmpty | python/core/field_mapper.py:257-259 | no value is collected exactly when every sample row has an empty cell for the field |
| FieldMapper.KindOfSpec | python/core/field_mapper.py:256-274 | the data kind is empty exactly for no values, numeric exactly when every value parses as a number after removing ',', '¥' and '円', and mostly numeric exactly when not all but more than 70% parse |
| FieldMapper.DataKindEmpty | python/core/field_mapper.py:256-259 | a field's kind is empty exactly when every sample row leaves it empty |
| FieldMapper.TypeSimilaritySpec | python/core/field_mapper.py:276-286 | type similarity is 1 exactly for equal kinds, 0.8 exactly for numeric against mostly numeric, 0.2 otherwise, and is symmetric |
| FieldMapper.ContentSimilaritySpec | python/core/field_mapper.py:288-307 | content similarity is the Jaccard ratio of the two lower-cased value sets, lies in [0, 1], is symmetric, is 0 exactly when a side is empty or the sets are disjoint, and is 1 exactly when both sides are non-empty and the sets are equal |
| FieldMapper.TraditionalSimilarityFacts | python/core/field_mapper.py:236-251 | the 0.4/0.3/0.3 weighted field similarity lies in [0, 1], is symmetric, and is at least 0.3 when the two fields have the same data kind |
| FieldMapper.SimilarityReasonSpec | python/core/field_mapper.py:309-324 | the reason is symmetric, is an exact match exactly when the lower-cased names are equal, and reports a character count only when neither name contains the other and more than two characters are shared, giving their number |
| FieldMapper.CandidatesIn | python/core/field_mapper.py:141-150 | a candidate is kept exactly when it belongs to a target field and its similarity exceeds 0.1 |
| FieldMapper.Top3Spec | python/core/field_mapper.py:152-157 | at most three candidates are kept, in descending similarity, each a real candidate above 0.1; any candidate above 0.1 that is left out is matched or beaten by three kept ones |
| FieldMapper.Top3Sound | python/core/field_mapper.py:145-157 | every kept candidate belongs to a target field and has similarity above 0.1 |
| FieldMapper.Top3Complete | python/core/field_mapper.py:152-157 | a candidate above 0.1 is kept, or three kept candidates each have at least its similarity |
| FieldMapper.TopMatchesSpec | python/core/field_mapper.py:139-157 | a source field's matches are at most three target fields above 0.1 in descending similarity, each carrying its own traditional similarity, and any omitted target above 0.1 is beaten by three kept ones |
| FieldMapper.Direction | python/core/field_mapper.py:139-157 | one mapping per source field, in header order, each holding that field's top matches |
| FieldMapper.DirectionSpec | python/core/field_mapper.py:139-157 | the i-th mapping names the i-th source field and holds at most three target fields, sorted by descending similarity, each above 0.1 and carrying its traditional similarity |
| FieldMapper.ReverseDirectionAgrees | python/core/field_mapper.py:159-182 | the B-to-A list matches each B field against A fields, with the similarity computed with the B field first |
| FieldMapper.RuleIdsDiffer | python/core/field_mapper.py:192 | rules numbered at different positions get different rule ids |
| FieldMapper.CreateMappingRules | python/core/field_mapper.py:184-208 | the rules are the mappings whose confidence reaches the threshold, in input order, the k-th numbered rule_(k+1) |
| FieldMapper.MappingRulesSpec | python/core/field_mapper.py:184-208 | every rule reaches the threshold, every mapping that reaches it yields a rule with its source and target fields, and rule ids are pairwise distinct |
| FieldMapper.RulesAboveThreshold | python/core/field_mapper.py:190 | every rule has confidence at least the threshold |
| FieldMapper.RulesCoverSources | python/core/field_mapper.py:189-206 | every mapping with confidence at least the threshold yields a rule with its source and target fields |
| FieldMapper.RuleIdsDistinct | python/core/field_mapper.py:192 | no two rules share a rule id |
| MappingEngine.CardPairs | python/core/mapping_engine.py:83-90 | the field mapper reads one row pair per card match, in match order, holding that match's two rows |
| MappingEngine.CardPathConfidenceSucceeds | python/core/mapping_engine.py:90-93 | on the card path the confidence step never raises: an entry needs a match, so the minimum sample count is positive |
| MappingEngine.AnalyzeCardBasedMappingSpec | python/core/mapping_engine.py:68-101 | the analysis falls back to the traditional mappings of the sample rows exactly when the matching step raises or finds fewer matches than min_sample_count; otherwise it returns the matches and the confident mappings computed from them |
| MappingEngine.ArrowHeaderCanFallBack | python/core/mapping_engine.py:98-101 | when the matching step raises, the result is the traditional fallback, and that only happens when a header holds the '→' separator |
| MappingEngine.FallbackShape | python/core/mapping_engine.py:85-101 | the fallback has one A-to-B entry per A header and one B-to-A entry per B header, in header order |
| MappingEngine.Confidences | python/core/mapping_engine.py:108-110 | the confidences read are those of the mappings, one per mapping in order, 0 when the key is missing |
| MappingEngine.GenerateRecommendationsSpec | python/core/mapping_engine.py:221-246 | no mappings gives only the clean-and-reanalyse advice; otherwise one to three items, the first the single quality verdict, with the use-this-rule-set verdict exactly when more than 80% of the mappings exceed 0.8, the more-data advice exactly when there are fewer than 10 matches, and the normalise-names advice exactly when the average score is below 0.8 |
| MappingEngine.ConfidenceTiersPartition | python/core/mapping_engine.py:108-110 | the high (> 0.8), medium (0.6, 0.8] and low (<= 0.6) tiers split the confidences, so their counts sum to the number of mappings |
| MappingEngine.CreateMappingSummarySpec | python/core/mapping_engine.py:103-147 | the summary raises exactly when a side has no headers; otherwise the low count equals the number of confidences at most 0.6, the three counts sum to the number of mappings, the average is 0 for no mappings and in [0, 1] for confidences in [0, 1], and coverage lies in [0, 1] when every mapped field is a header |
| MappingEngine.CoverageBound | python/core/mapping_engine.py:137-138 | with headers, the coverage ratio is computed and lies in [0, 1] when every mapped field is one of the headers |
| MappingEngine.TypeDistributionSpec | python/core/mapping_engine.py:115-143 | a field type appears in the distribution exactly when some mapping carries it, and then with a count between 1 and the number of mappings |
| MappingEngine.WarningsOfMembers | python/core/mapping_engine.py:188-209 | each warning is present exactly when its own test holds (no matches, duplicate A fields, duplicate B fields, more than half below 0.5), and a duplicate warning names exactly the non-empty duplicate set |
| MappingEngine.ValidateMappingResultsSpec | python/core/mapping_engine.py:172-219 | the result is valid exactly when there are mappings and then has no issue; no mappings gives no warnings and no statistics; the no-match warning appears exactly when there are no matches; the A-duplicate warning appears exactly when two mappings share an A field |
| MappingEngine.DistinctFieldsNoDuplicates | python/core/mapping_engine.py:192-202 | mappings with pairwise distinct A fields and pairwise distinct B fields raise no duplicate warning |
| MappingEngine.RuleConfidences | python/core/mapping_engine.py:164-165 | the confidences of the exported rules, one per rule in order |
| MappingEngine.ExportMappingRules | python/core/mapping_engine.py:149-170 | the export holds the rules of create_mapping_rules for the threshold, numbered in order, with their count and the threshold |
| MappingEngine.RuleExportSpec | python/core/mapping_engine.py:149-170 | the average confidence is 0 for no rules and at least the threshold otherwise; the high-quality count never exceeds the rule count and equals it when the threshold exceeds 0.9 |
| MappingEngine.ThresholdStats | python/core/mapping_engine.py:164-165 | confidences all at least the threshold have a mean at least the threshold, and all count as high quality when the threshold exceeds 0.9 |
| MappingEngine.FlexibleListsAlwaysDuplicate | python/web/routes/enhanced.py:174-186 | two or more flexible mappings, stored under 'field_a'/'field_b', always draw both duplicate warnings, for the single blank field, and count one unique A field |
| MappingEngine.FlexibleListsCoverNothing | python/web/routes/enhanced.py:174-185 | the same flexible list gives coverage 0 on both sides, whatever its contents |
| MappingEngine.FlexibleKeysValidateDistinct | python/core/mapping_engine.py:192-202 | when the validation reads the keys the route writes, flexible mappings with distinct columns on each side draw no duplicate warning |
| FlexibleText.HalfWidth | python/core/flexible_matching.py:32-34 | full-width digits and Latin letters become their ASCII forms, no full-width alphanumeric survives, every other character is unchanged and whitespace stays whitespace |
| FlexibleText.NormalizeTextShape | python/core/flexible_matching.py:23-41 | normalised text has no full-width alphanumerics, no dash or wave-dash variants, no whitespace but single inner spaces, and no leading or trailing space |
| FlexibleText.StringSimilarity | python/core/flexible_matching.py:43-56 | the similarity is 0 when either string is empty and lies in [0, 1] for a valid sequence-matcher ratio |
| FlexibleText.StringSimilaritySpec | python/core/flexible_matching.py:48-56 | for non-empty strings, equal normalised forms give 1 and different ones give the sequence-matcher ratio of the normalised forms |
| FlexibleText.ImportanceByNameSpec | python/core/flexible_matching.py:96-125 | name importance lies in [0.5, 0.9], is 0.9 exactly when the lower-cased name contains a name keyword, and is 0.5 exactly when it contains no keyword of any group |
| FlexibleText.SampleValues | python/core/flexible_matching.py:133-137 | at most ten sample values are taken, from the first ten rows |
| FlexibleText.LetterRMakesRarity | python/core/flexible_matching.py:176-179 | a sample containing r, R, n or N makes the column a rarity column, since upper() of it contains the pattern 'R' or 'N' |
| FlexibleText.LowerCaseRarityWordsNeverMatch | python/core/flexible_matching.py:176-178 | the patterns 'rare', 'common' and 'super' can never occur in an upper-cased value, so they never fire |
| FlexibleText.ThirdSerialShapeRedundant | python/core/flexible_matching.py:242-249 | a value is serial-like exactly by the first two shapes (two letters then digits, or one letter then at least three digits); the third shape adds nothing |
| FlexibleText.FewSamplesAreSerial | python/core/flexible_matching.py:203-207 | one or two samples always make a serial column, since at most two distinct lengths occur |
| FlexibleText.LengthSetCard | python/core/flexible_matching.py:203 | the number of distinct sample lengths never exceeds the number of samples |
| FlexibleText.SerialVerifyOnlyInBand | python/core/flexible_matching.py:206-213 | the stored-types switch changes the serial verdict only when the alphanumeric ratio lies in (0.3, 0.7] and the stricter serial check passes |
| FlexibleText.DateLikeIsPrefix | python/core/flexible_matching.py:267-270 | the date patterns are matched at the start only, so any extension of a date-like value is date-like |
| FlexibleText.ClassifySamples | python/core/flexible_matching.py:142-166 | a column with samples is never unknown, is rarity exactly when the rarity test holds (it is tried first), and is name only when the name test holds |
| FlexibleText.ClassifyUnknownSpec | python/core/flexible_matching.py:127-140 | the field type is unknown exactly when the field name is empty or the first ten rows give no sample value |
| FlexibleText.LetterRColumnIsRarity | python/core/flexible_matching.py:147-179 | a named column whose samples include a value containing 'r' is classified as rarity |
| FlexibleText.TypesAfterSpec | python/core/flexible_matching.py:60-93 | the stored field types are non-empty after an analysis exactly when it had data and headers, or it returned early and they were non-empty before |
| FlexibleText.CoverageDiversityUnit | python/core/flexible_matching.py:69-77 | with data, coverage and diversity both lie in [0, 1] |
| FlexibleText.FieldScoreBounds | python/core/flexible_matching.py:84-91 | with data, a field's importance score lies in [0.15, 0.97] |
| FlexibleText.AnalyzeFieldImportanceSpec | python/core/flexible_matching.py:58-94 | no data gives no scores and leaves the stored types alone; with data every header, and only a header, gets a score in [0.15, 0.97], and the stored types are non-empty exactly when there are headers |
| FlexibleMatching.RawValues | python/core/flexible_matching.py:335-336 | one raw cell per row, in order, "" when missing |
| FlexibleMatching.PairSims | python/core/flexible_matching.py:343-347 | every kept value-pair similarity lies in [0, 1] for a valid ratio |
| FlexibleMatching.ContentSimilaritySpec | python/core/flexible_matching.py:330-352 | content similarity is 0 when either side has no present value, and otherwise is either 0 or a mean above 0.1 and at most 1 |
| FlexibleMatching.Candidates | python/core/flexible_matching.py:308-320 | one scored candidate per header pair, in A-major order, carrying that pair's total score |
| FlexibleMatching.PairScoreUnit | python/core/flexible_matching.py:311-320 | the 0.4/0.4/0.2 weighted pair score lies in [0, 1] |
| FlexibleMatching.FindBestFieldMatchesSpec | python/core/flexible_matching.py:297-328 | the result is sorted by descending score and holds a pair exactly when it is an A header and a B header with total score above 0.3, carrying that score, which is at most 1 |
| FlexibleMatching.StoredTypesSwitchSerialCheck | python/core/flexible_matching.py:297-303 | the first analysis sees stored types exactly when A has data and headers, and the types left behind are non-empty exactly when the B analysis stored some or, with no B data, the A analysis did |
| FlexibleMatching.Weighted | python/core/flexible_matching.py:409-419 | with positive weights and valid ratios, the weighted similarity sum lies between 0 and the weight sum |
| FlexibleMatching.Scaled | python/core/flexible_matching.py:418 | a similarity in [0, 1] times a positive weight lies in [0, weight], and similarity 1 contributes the full weight |
| FlexibleMatching.CardSimilaritySpec | python/core/flexible_matching.py:405-424 | card similarity lies in [0, 1] for valid ratios and is 0 when no field pair has both cells filled |
| FlexibleMatching.WeightedUnfilled | python/core/flexible_matching.py:416-424 | pairs without both cells filled add nothing to either sum |
| FlexibleMatching.WeightedTotal | python/core/flexible_matching.py:416-419 | the weight sum is the total weight of the filled field pairs |
| FlexibleMatching.WeightedFilled | python/core/flexible_matching.py:416-422 | one filled field pair makes the weight sum positive |
| FlexibleMatching.WeightedAgreeing | python/core/flexible_matching.py:412-419 | when every mapped cell pair agrees, the weighted similarity equals the weight sum |
| FlexibleMatching.AgreeingCardsScoreOne | python/core/flexible_matching.py:405-424 | two cards agreeing on every mapped field, with one filled, have similarity exactly 1 |
| FlexibleMatching.DetailsOver | python/core/flexible_matching.py:432-445 | each detail names a used field pair, both cells non-empty, with their similarity |
| FlexibleMatching.BuildSimilarityDetails | python/core/flexible_matching.py:426-447 | at most three details, each from one of the first three field matches |
| FlexibleMatching.RowPairs | python/core/flexible_matching.py:377-381 | the inner loop visits (i, 0) … (i, nb-1) in order |
| FlexibleMatching.AllPairsLength | python/core/flexible_matching.py:373-381 | the uncapped loops visit na * nb pairs |
| FlexibleMatching.AllPairsIn | python/core/flexible_matching.py:373-381 | the uncapped loops visit (i, j) exactly when i < na and j < nb |
| FlexibleMatching.AllPairsSorted | python/core/flexible_matching.py:373-381 | the pairs are visited in A-major lexicographic order |
| FlexibleMatching.CompareRow | python/core/flexible_matching.py:377-399 | one inner loop extends the visited prefix of the A-major order, stops at the cap, finishes the row when under the cap, and records exactly the matches of the visited pairs |
| FlexibleMatching.ComparePair | python/core/flexible_matching.py:381-399 | one comparison appends its pair to the visited ones and keeps the match list equal to that of the visited pairs |
| FlexibleMatching.MatchesSnoc | python/core/flexible_matching.py:384-399 | comparing one more pair appends its record exactly when its card similarity reaches the threshold |
| FlexibleMatching.CompareCards | python/core/flexible_matching.py:369-403 | the capped loops compare min(na * nb, cap) pairs, the first ones of the A-major order, and return exactly the matches among them |
| FlexibleMatching.CapReached | python/core/flexible_matching.py:373-379 | when the loops stop, the visited pairs are the capped prefix |
| FlexibleMatching.FlexibleCardMatching | python/core/flexible_matching.py:354-403 | the matching compares the capped prefix of the pairs, using the five best field matches, and leaves behind the field types of the field analysis |
| FlexibleMatching.MatchesSound | python/core/flexible_matching.py:388-399 | every match names a compared pair with 1-based-plus-header row numbers, carries those two rows, and its similarity reaches the threshold |
| FlexibleMatching.MatchesComplete | python/core/flexible_matching.py:384-399 | every compared pair whose similarity reaches the threshold is recorded |
| FlexibleMatching.MatchesOrdered | python/core/flexible_matching.py:373-399 | matches come out in A-major row order |
| FlexibleMatching.ComparedPairsSpec | python/core/flexible_matching.py:373-381 | the compared pairs are sorted, number min(na * nb, cap), and are all pairs when na * nb is within the cap |
| FlexibleMatching.FlexibleEnhancedMatching | python/core/flexible_matching.py:450-479 | both sides are cut to `data[:max_sample_size]`, which for a negative size drops that many rows from the end; the matches are those of threshold 0.7 over the compared pairs, the mapping list is the first ten field matches, and the counts are the product of the side sizes and the number of matches |
| FlexibleMatching.DefaultSampleComparesAll | python/core/flexible_matching.py:452-466 | with a sample size between 0 and 100, at most 100 rows per side remain, so the 10000-comparison cap never cuts the loops short |
| FlexibleMatching.NegativeSampleHitsCap | python/core/flexible_matching.py:458-461 | a negative sample size passes the `len(data) > max_sample_size` test and slices from the end: with 200 rows a side and size -1, 199 rows a side remain and the 10000-comparison cap stops the loops early |
| FlexibleMatching.EnhancedMappingsSpec | python/core/flexible_matching.py:469-472 | the reported field mappings are at most ten, sorted by descending score, each above 0.3 |
| CsvAnalyzer.EffectiveMaxRows | python/core/csv_analyzer.py:91 | a requested row limit is used unless it is absent or 0, in which case the configured limit applies |
| CsvAnalyzer.Lines | python/core/csv_analyzer.py:97 | splitting the stripped content always gives at least one line, so the header line exists |
| CsvAnalyzer.TrimCharStart | python/core/csv_analyzer.py:98 | stripping a character from the left leaves a suffix that does not start with it |
| CsvAnalyzer.TrimCharEnd | python/core/csv_analyzer.py:98 | stripping a character from the right leaves a prefix that does not end with it |
| CsvAnalyzer.StripChar | python/core/csv_analyzer.py:98 | strip('"') leaves a string that neither starts nor ends with a double quote |
| CsvAnalyzer.HeaderOf | python/core/csv_analyzer.py:98 | a cleaned header is no longer than its cell and neither starts nor ends with a double quote |
| CsvAnalyzer.ParseHeaders | python/core/csv_analyzer.py:98 | one header per comma-separated cell of the first line, each the cleaned cell |
| CsvAnalyzer.ZipRow | python/core/csv_analyzer.py:112 | the row built from headers and cells has exactly the headers as keys |
| CsvAnalyzer.ZipRowLast | python/core/csv_analyzer.py:112 | under a repeated header the row keeps the cell of the last occurrence, as dict(zip(...)) does |
| CsvAnalyzer.DistinctHeadersZip | python/core/csv_analyzer.py:112 | with distinct headers each header maps to its own cell |
| CsvAnalyzer.KeptRows | python/core/csv_analyzer.py:103-113 | no more rows are kept than lines examined |
| CsvAnalyzer.KeptRowsStep | python/core/csv_analyzer.py:107-113 | examining one more line appends its row exactly when the line is not blank and its parsed cell count equals the header count |
| CsvAnalyzer.AssembleRows | python/core/csv_analyzer.py:100-117 | the loop collects exactly the kept rows of the examined lines, and the sample is their first sample_rows |
| CsvAnalyzer.AnalyzeFileFull | python/core/csv_analyzer.py:87-135 | headers come from the first line, the full data are the kept rows of the first max_rows data lines, the sample is their prefix, total_rows counts the kept rows, file_total_rows counts the data lines, and truncated holds exactly when there are more data lines than max_rows |
| CsvAnalyzer.KeptRowsSpec | python/core/csv_analyzer.py:107-113 | a row is kept exactly when it is the row of some examined line that passes both tests, and every kept row has exactly the headers as keys |
| CsvAnalyzer.KeptRowsSound | python/core/csv_analyzer.py:107-113 | every kept row comes from a passing examined line |
| CsvAnalyzer.KeptRowsComplete | python/core/csv_analyzer.py:107-113 | every passing examined line contributes its row |
| CsvAnalyzer.NoKeptLines | python/core/csv_analyzer.py:107-113 | when no line passes, nothing is kept |
| CsvAnalyzer.ExaminedLinesSpec | python/core/csv_analyzer.py:103-105 | the examined lines are a prefix of the data lines: all of them when there are at most max_rows, exactly max_rows otherwise; all-blank examined lines give no rows |
| CsvAnalyzer.CountSplit | python/core/csv_analyzer.py:176-177 | empty and filled cells split a column |
| CsvAnalyzer.ValidateCsvStructureSpec | python/core/csv_analyzer.py:152-186 | valid exactly when there are headers; no headers gives only the no-headers issue and no stats; a duplicate-headers issue appears exactly when a header repeats; stats exist exactly with headers and data, and then each header's empty count and filled count sum to the row count and its completeness is the filled share, in [0, 1] |
| CsvAnalyzer.CompletenessShare | python/core/csv_analyzer.py:176-184 | 1 - empty/rows equals filled/rows and lies in [0, 1] |
| CsvAnalyzer.ColumnTypeOf | python/core/csv_analyzer.py:193-197 | a column is empty exactly when it has no filled value |
| CsvAnalyzer.DetectFieldTypes | python/core/csv_analyzer.py:188-214 | every header, and only a header, gets a type |
| CsvAnalyzer.DetectFieldTypesSpec | python/core/csv_analyzer.py:192-212 | a header's type is that of its filled values, and is empty exactly when every row leaves it empty |
| CsvAnalyzer.FilledValuesEmpty | python/core/csv_analyzer.py:193-196 | a column has no filled value exactly when every row leaves it empty |
| CsvAnalyzer.ColumnTypeOfSpec | python/core/csv_analyzer.py:199-212 | for filled values, the type is numeric exactly when at least 90% parse as numbers, mixed exactly when between 50% and 90%, and text exactly when under 50% |
| CsvAnalyzer.RatioAtLeast | python/core/csv_analyzer.py:205-209 | the ratio tests agree with their integer cross-multiplied forms |
| CsvAnalyzer.GetStatisticsSpec | python/core/csv_analyzer.py:226-257 | no rows give no statistics; otherwise the headers and field statistics cover the first row's keys; each field's counts split the rows, unique values never exceed filled ones, completeness lies in [0, 1], and sample values exist exactly for filled columns and are their first up to three |
| CsvAnalyzer.CompletenessAgrees | python/core/csv_analyzer.py:181-184 | for a header of the first row, the validation's completeness equals the statistics' completeness ratio |
| EnhancedRoutes.IsRarityFieldSpec | python/web/routes/enhanced.py:841-871 | an empty field name is never a rarity field; a name containing a rarity keyword always is; without sample values and without a keyword it is not |
| EnhancedRoutes.LoneLetterSuffices | python/web/routes/enhanced.py:853-865 | any sample value containing r, R, n or N makes the field a rarity field |
| EnhancedRoutes.LetterMatchesRarityWord | python/web/routes/enhanced.py:862-864 | a value containing r, R, n or N, once upper-cased, contains one of the rarity patterns |
| EnhancedRoutes.DistinctBoundAlwaysHolds | python/web/routes/enhanced.py:855-868 | at most ten distinct sample values exist, so the "at most 10 distinct" test never fails |
| EnhancedRoutes.RouteRarityNamesExtendClassifier | python/web/routes/enhanced.py:848 | every name the flexible classifier takes for rarity the route does too, since its keyword list extends the classifier's |
| EnhancedRoutes.AlnumAndDigitIsDigit | python/web/routes/enhanced.py:897 | "has an alphanumeric character and a digit" is the same as "has a digit" |
| EnhancedRoutes.IsSerialFieldSpec | python/web/routes/enhanced.py:874-905 | an empty name is never a serial field; a name with a serial keyword and no name-like keyword always is; one or two sample values always make a serial field |
| EnhancedRoutes.RouteSerialNamesExtendClassifier | python/web/routes/enhanced.py:881 | every serial keyword of the flexible classifier is one of the route's |
| Seqs.Prefix | python/core/card_matcher.py:252-253 | `data[:n]` for any integer n: the first n rows (all of them when there are fewer) for n at least 0, and all rows but the last -n for a negative n |
| Seqs.SliceBound | python/api/routes/helpers.py:84 | a slice bound is clamped as Python does: in-range bounds are kept, bounds past the end become the length, negative bounds count from the end and stop at 0 |
| RouteHelpers.CeilDiv | python/api/routes/helpers.py:89 | the page count (total + per_page - 1) // per_page is the least number of pages holding all items |
| RouteHelpers.PaginateResponseSpec | python/api/routes/helpers.py:77-93 | for page and per_page at least 1: the items are that page's window of at most per_page items, total is the length, the page count is the ceiling, there are no pages exactly for no data, has_prev holds exactly after page 1, and has_next exactly before the last page |
| RouteHelpers.PageItems | python/api/routes/helpers.py:80-84 | the slice data[start:end] is the page's window, at most per_page long |
| RouteHelpers.PagesZero | python/api/routes/helpers.py:89 | the page count is 0 exactly when there are no items |
| RouteHelpers.HasNext | python/api/routes/helpers.py:80-91 | end < total holds exactly when the page is before the last one |
| RouteHelpers.PagesUpToPrefix | python/api/routes/helpers.py:80-84 | pages 1 to k together list the first k * per_page items |
| RouteHelpers.PagesCoverData | python/api/routes/helpers.py:77-93 | reading every page from 1 to the page count lists exactly the data, in order |
| RouteHelpers.PagesBelowOne | python/api/routes/helpers.py:80-84 | page 0 is empty, while a negative page slices from the end: page -1 of [1, 2, 3] with one item per page is [2] |
| RouteHelpers.ZeroPerPageRaises | python/api/routes/helpers.py:89 | per_page 0 raises a division by zero |
| RouteHelpers.ValidateRequiredFieldsSpec | python/api/routes/helpers.py:64-74 | the result is None exactly when every required field is present, not None and not a blank string; otherwise it maps exactly the failing fields, with the "is required" message for a missing or None field and the "cannot be empty" message for a blank string |
| RouteHelpers.RequiredErrorsEmpty | python/api/routes/helpers.py:66-74 | no errors are collected exactly when every required field is usable |
| RouteHelpers.MessagesDiffer | python/api/routes/helpers.py:70-72 | the two messages for a field differ, so they tell the cases apart |
| AnalysisRoutes.TraditionalHigh | python/api/routes/analysis.py:309-319 | the traditional high-confidence list has at most one entry per source field, each above 0.8 |
| AnalysisRoutes.Confidences | python/api/routes/analysis.py:329 | the confidences of the traditional high-confidence entries, in order |
| AnalysisRoutes.TraditionalHighSpec | python/api/routes/analysis.py:309-319 | an entry is listed exactly when it comes from a source field whose first match scores above 0.8, naming that match's target and similarity |
| AnalysisRoutes.HighAverage | python/api/routes/analysis.py:329-334 | an average of values above 0.8 is 0 exactly for an empty list and above 0.8 otherwise |
| AnalysisRoutes.CompareAnalysisMethodsSpec | python/api/routes/analysis.py:306-348 | the comparison raises a missing 'confidence' key exactly when the card-based analysis fell back and returned traditional entries; otherwise the counts are bounded by the totals, each average is 0 exactly when its high count is 0 and above 0.8 otherwise, the improvement is 0 without a traditional average, precision improvement is 0 and the recommendation is 'enhanced' |
| AnalysisRoutes.AsWrittenDividesByZero | python/api/routes/analysis.py:351-366 | as written, a traditional average of 0 with a positive enhanced average takes the strong branch and raises a division by zero |
| AnalysisRoutes.NoStrongTraditionalMatchRaises | python/api/routes/analysis.py:306-366 | no traditional first match above 0.8 and one card-based mapping above 0.8 make the comparison succeed and the recommendation step raise |
| AnalysisRoutes.MethodRecommendationsSpec | python/api/routes/analysis.py:351-366 | the corrected advice has one or two items whose first is strong exactly when enhanced > 1.2 * traditional, plain exactly when traditional < enhanced <= 1.2 * traditional, and traditional-may-suit exactly when enhanced <= traditional; it equals the as-written advice whenever that does not raise |

## Left out

- TwoStage.FindIdenticalCardsSpec: scores are exact integer tenths, while the source adds the floats 0.5, 0.4 and 0.1 and compares the sum with 0.8. The two disagree at the cut-off. Example: a pair that agrees on the name and on three A-side date fields scores 0.5+0.1+0.1+0.1 = 0.7999999999999999 in IEEE doubles. Python drops that pair, but the model reaches 8 tenths and keeps it. LegacyTwoStage.LegacyFindIdenticalCardsSpec inherits the same gap.
- TwoStage.AnalyzeFieldMappings: the confidence is the exact ratio agreeing/total, not `round(confidence, 3)` (python/core/two_stage_matching.py:190), and the sort key at :199 is therefore the exact ratio too. Two mappings with confidences 2/3 and 667/1000 both round to 0.667, so Python's stable sort keeps their insertion order; the model puts 667/1000 first because it is larger. `round(score, 3)` of `match_score` (:121) is also not applied. The same holds for LegacyTwoStage.LegacyAnalyzeSpec (hikitsugi/two_stage_matching.py:149 and :207).
- TwoStage.NormalizeValue: case mapping is ASCII-only and `isdigit` accepts ASCII digits only. Python's `str.lower`/`str.upper` map every cased Unicode letter, and `str.isdigit` accepts every Unicode digit. Examples: the name branch keeps "ＥＸ" distinct from "ｅｘ", which Python's `lower()` makes equal; the id branch leaves "ｓｖ２ａ" as it is, where Python's `upper()` gives "ＳＶ２Ａ"; the date "２０２４/１/２４" is not recognised as a digit triple, so it becomes "２０２４１２４" instead of Python's zero-padded "２０２４0１２４". The copy in LegacyTwoStage.LegacyNormalizeValue uses the same ASCII case mapping and has the same gap.
- TwoStage.NormalizeForComparison: the same ASCII-only case mapping and ASCII-only `isdigit` as TwoStage.NormalizeValue, with the same three examples.
- TextSimilarity.CleanText: `\w` is ASCII letters, digits and '_' plus the kana letters and the CJK ideograph block, and lower-casing is ASCII-only. The kana letters are the hiragana and katakana blocks without their non-letters (the middle dot '・', the voicing marks U+3099-309C and the unassigned U+3097-3098), so the class is a subset of Python's `\w`, and "ア・イ" cleans to "アイ" in both (TextSimilarity.MiddleDotDropped). Python's `\w` and `lower()` cover all of Unicode. Example: `clean_text("Pokémon")` is "pokémon" in Python, but "pokmon" in the model, because 'é' is dropped. So the exact similarity of "Pokémon" and "Pokmon" is 0.0 in Python but 1.0 in the model. TextSimilarity.CleanTextIsClean and everything built on `CleanText` inherit this.
- BruteForceScoring.ExtractNumeric: the digit filter keeps ASCII digits only, while `\d` in python/core/card_matcher.py:171 keeps every Unicode decimal digit and `float()` parses them. For "１２０円" Python keeps "１２０" and reads 120.0, so against "120" it records numeric_exact and the pair is a numeric_match; the model keeps "", finds no number and records neither.
- BruteForceScoring.NormalizeWord: `\w` and `lower()` at python/core/card_matcher.py:367 are ASCII plus the kana letters and the CJK block here. "ピカチュウＥＸ" and "ピカチュウｅｘ" are equal after Python's normalisation and differ in the model, and 'é' in "Pokémon" is dropped by the model but kept by Python.
- SmartCard.NormalizeText: the symbol filter and `lower()` at hikitsugi/smart_card_matching.py:61-62 have the same ASCII restriction, so "ピカチュウＥＸ" and "ピカチュウｅｘ" do not normalise to the same text, and "Pokémon" becomes "pokmon" instead of "pokémon". The lemmas about it (NormalizeTextShape, NormalizeTextFixed, NormalizeTextIdempotent) hold for this restricted alphabet.
- MissingMethods.ComprehensiveEntries: the number and normalised-word entries use the ASCII digit and word filters above, so "１２０円" yields no number and "ＥＸ" no longer equals "ｅｘ", although Python's Unicode `\d`, `\w` and `lower()` give both (python/core/missing_methods.py:11-44).
- MissingMethods.NumericMatchIffSameNumber: "parse to the same number" means the ASCII-digit parse, so "１２０円" vs "120" is not a numeric_match in the model but is one in Python (python/core/missing_methods.py:52-57).
- FieldMapper.ContentSimilaritySpec: the values are lower-cased with ASCII case mapping only, so the value sets {"ＡＢＣ"} and {"ａｂｃ"} have Jaccard index 0 in the model and 1 in Python, whose `lower()` maps full-width capitals (python/core/field_mapper.py:291-292).
- FlexibleText.IsSerialPattern: `isalpha`, `isdigit` and `isalnum` (python/core/flexible_matching.py:221-227) are ASCII plus the kana letters and CJK here. "ＰＫ００１" has a letter and a digit in Python and passes; the model sees no letter, no digit and five special characters, so it fails.
- FlexibleText.IsSerialLike: the three serial shapes (python/core/flexible_matching.py:244-248) use the same narrow `isalpha`/`isdigit`, so "ＰＫ００１" is serial-like in Python and not in the model. The same holds for the lemmas built on it (ThirdSerialShapeRedundant, SerialVerifyOnlyInBand).
- FlexibleText.IsDateLike: `\d` in the date patterns (python/core/flexible_matching.py:267) matches full-width digits, so "２０２４/０１/０１" is date-like in Python and not in the model. DateLikeIsPrefix holds for ASCII-digit dates only in the same sense.
- FlexibleText.IsNumericText: `isdigit()` (python/core/flexible_matching.py:281) accepts full-width digits, so "１２０" is numeric text in Python and not in the model.
- EnhancedRoutes.IsSerialFieldSpec: the letter and digit tests at python/web/routes/enhanced.py:897 are ASCII plus kana and CJK here, so a sample "ＰＫ００１" counts toward the serial share in Python and not in the model.
- BruteForce.PickScores: the scores are `Option<real>`, so the `float(score)` failure path (python/core/card_matcher.py:211-214) is not expressible. In Python a truthy non-numeric `match_score` such as "high" is picked before `similarity` and becomes 0.0, even when `similarity` is 0.9; in the model the first present score is always a number.
- FieldMapper.ConfidenceScoreFacts: the confidence is the exact weighted sum, not `round(confidence, 3)` (python/core/field_mapper.py:219). Example: 0.7996 rounds to 0.8 in Python but stays below 0.8 in the model.
- FieldMapper.CreateMappingRules: the `>= confidence_threshold` filter compares the unrounded confidence, so a confidence of 0.7996 passes a 0.8 threshold in Python and fails in the model.
- FieldMapper.CalculateMappingConfidenceSpec: the sort by confidence (python/core/field_mapper.py:89) uses the unrounded value, so mappings whose confidences differ only after the third decimal can come out in another order than Python's stable sort gives.
- FieldMapper.TopMatchesSpec: the traditional field similarity is not rounded (python/core/field_mapper.py:251) before the `> 0.1` test. Example: 0.1004 rounds to 0.1, so Python rejects it but the model keeps it.
- FieldMapper.QualityMetricsOf: `std_deviation` is left out, because `_calculate_std_deviation` needs a floating-point square root.
- BruteForce.AnalyzeMatchQualitySpec: `average_score` is the exact mean, not `round(avg_score, 3)` (python/core/card_matcher.py:226).
- FlexibleMatching.FlexibleCardMatching: `overall_similarity`, and the per-field `similarity` and `weight` of the details, are exact, not rounded to three places (python/core/flexible_matching.py:394 and :443-444).
- SmartCard.CardMatchesSpec: points are exact hundredths, and the `round(..., 3)` of `overall_similarity` and `confidence` (hikitsugi/smart_card_matching.py:144 and :170) is not applied.
- Every other sum or ratio is an exact rational, so IEEE double rounding does not occur anywhere in the model.
- The legacy scorers `_calculate_match_score`, `_calculate_card_name_similarity`, `_calculate_price_similarity` and `_calculate_overall_similarity` (python/core/card_matcher.py:57-163) are only called by each other. `find_matching_cards` goes straight to `brute_force_matching`, so they cannot be reached.
- `analyze_csv_files` (python/core/mapping_engine.py:25-66) and `CSVAnalyzer.analyze_file` (python/core/csv_analyzer.py:20-85) read files through pandas and temporary files. The model starts from rows already parsed; the row assembly and statistics they compute are modelled in `CsvAnalyzer`.
- Library primitives are parameters: `difflib.SequenceMatcher.ratio`, `unicodedata.normalize('NFKC', ...)`, `float()` and the CSV row parser. Properties about them assume only what their parameter's validity predicate states.
- The AI service is an oracle parameter. The prompt text of `_build_similarity_analysis_prompt` and the HTTP call to the model are not represented. The `try`/`except` around the call is modelled only as "no results", without the logged message.
- Logging (`analysis_logger`, `performance_logger`) and timers have no effect on results and are left out.
- `apply_smart_matching_to_enhanced` (hikitsugi/smart_card_matching.py:189) only returns a block of source code as a string, so it is left out.
- Python dict iteration order is left out where the source builds a dict from a row (the headers of `get_statistics` are a set). Fixed message strings are datatype constructors, not text, and the `reasoning` text of a confident mapping (python/core/field_mapper.py:84) is not modelled.
- The web layer (Flask routes, templates, `create_*_response` JSON wrappers, sessions and uploads) is left out, except for the pure helpers named in the Model table.

## Findings

| source | as written | input that shows it | evidently intended | confidence | as-written member | corrected member |
|---|---|---|---|---|---|---|
| python/core/hybrid_brute_force.py:169 | the AI result of pair `i` is looked up with the integer `i`, but the parsed JSON reply has only string keys | a reply `{"0": {"similarity": 0.9}}` for one pair: `ai_results.get(0, {})` misses the key "0", so the pair gets no AI result and no AI field match is recorded, whatever the reply says | look up `str(i)`, the key the prompt asks the model to use | not executed | Hybrid.AsWrittenAiRecordsNothing | Hybrid.IntendedAiReadsResponse |
| python/api/routes/analysis.py:358-360 | the percentage gain in the strong recommendation divides by the traditional average confidence with no guard | a traditional average of 0 with an enhanced average above 0 (no traditional first match above 0.8, one card-based mapping above 0.8): `enhanced > traditional * 1.2` holds and the division raises ZeroDivisionError | report the gain only for a positive traditional average, as `_compare_analysis_methods` guards its own ratio | not executed | AnalysisRoutes.AsWrittenDividesByZero | AnalysisRoutes.MethodRecommendationsSpec |
| python/core/mapping_engine.py:192-202 | validation reads the keys 'company_a_field' and 'company_b_field', but the flexible mapping list built at python/web/routes/enhanced.py:177-183 writes 'field_a' and 'field_b' | any flexible list of two or more mappings: every field reads "", so validation warns that "" is duplicated on both sides and counts one unique field, and coverage is 0 | read the keys the list is written with | not executed | MappingEngine.FlexibleListsAlwaysDuplicate | MappingEngine.FlexibleKeysValidateDistinct |
