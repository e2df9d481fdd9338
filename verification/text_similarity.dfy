/** The `TextSimilarity` utility: text cleaning, four similarity measures
    (exact/containment, Levenshtein-based fuzzy, word-set Jaccard and bigram-set
    Jaccard), their weighted combination, and the best-candidate search. Scores
    are exact reals. */
module TextSimilarity {
  import opened Chars
  import opened Strings
  import opened Seqs
  import opened Sets
  import opened Levenshtein
  import opened Wrappers

  /** The class `[\w\s]` kept by the first substitution of `clean_text`. */
  predicate IsWordOrSpace(c: char) {
    IsWordChar(c) || IsSpace(c)
  }

  /** `re.sub(r'\s+', ' ', s)`: every maximal run of whitespace becomes one space. */
  function CollapseSpaces(s: string): (r: string)
    ensures r == [] <==> s == []
    ensures |r| > 0 ==> r[0] == (if IsSpace(s[0]) then ' ' else s[0])
    ensures forall i :: 0 <= i < |r| ==> r[i] == ' ' || (!IsSpace(r[i]) && r[i] in s)
    ensures NoDoubleSpace(r)
    decreases |s|
  {
    if s == [] then []
    else if IsSpace(s[0]) then
      TrimStartFacts(s);
      assert forall x :: x in TrimStart(s) ==> x in s;
      [' '] + CollapseSpaces(TrimStart(s))
    else [s[0]] + CollapseSpaces(s[1..])
  }

  predicate NoDoubleSpace(s: string) {
    forall i :: 0 <= i < |s| - 1 ==> s[i] != ' ' || s[i + 1] != ' '
  }

  /** `clean_text`: lower-case, drop everything but word characters and whitespace,
      collapse whitespace runs to one space, strip. */
  function CleanText(text: string): string {
    if text == [] then []
    else Strip(CollapseSpaces(KeepChars(Lower(text), IsWordOrSpace)))
  }

  /** The shape of a cleaned text: lower-case word characters separated by single
      spaces, with none at either end. */
  predicate IsClean(s: string) {
    && (forall i :: 0 <= i < |s| ==> IsCleanChar(s[i]))
    && NoDoubleSpace(s)
    && IsStripped(s)
  }

  /** A character a cleaned text may hold: the single space or a non-upper-case word character. */
  predicate IsCleanChar(c: char) {
    c == ' ' || (IsWordChar(c) && !IsAsciiUpper(c))
  }

  lemma CleanCharFacts(c: char)
    requires IsCleanChar(c)
    ensures !IsAsciiUpper(c) && IsWordOrSpace(c)
    ensures IsSpace(c) ==> c == ' '
  {
  }

  /** What survives the first two steps of `clean_text` is a word character that is
      not upper case, or whitespace. */
  lemma KeptLowerChars(text: string)
    ensures forall i :: 0 <= i < |KeepChars(Lower(text), IsWordOrSpace)| ==>
              var c := KeepChars(Lower(text), IsWordOrSpace)[i];
              IsSpace(c) || (IsWordChar(c) && !IsAsciiUpper(c))
  {
    var low := Lower(text);
    var kept := KeepChars(low, IsWordOrSpace);
    forall i | 0 <= i < |kept|
      ensures IsSpace(kept[i]) || (IsWordChar(kept[i]) && !IsAsciiUpper(kept[i]))
    {
      var m :| 0 <= m < |low| && low[m] == kept[i];
      ToLowerFacts(text[m]);
    }
  }

  /** Collapsing whitespace of such a string leaves only clean characters. */
  lemma CollapsedChars(kept: string)
    requires forall i :: 0 <= i < |kept| ==> IsSpace(kept[i]) || (IsWordChar(kept[i]) && !IsAsciiUpper(kept[i]))
    ensures forall i :: 0 <= i < |CollapseSpaces(kept)| ==> IsCleanChar(CollapseSpaces(kept)[i])
  {
    var col := CollapseSpaces(kept);
    forall i | 0 <= i < |col|
      ensures IsCleanChar(col[i])
    {
      if col[i] != ' ' {
        var k :| 0 <= k < |kept| && kept[k] == col[i];
      }
    }
  }

  /** Clean characters and single spacing survive taking a substring. */
  lemma SubstringKeepsShape(col: string, r: string, a: nat)
    requires OccursAt(col, r, a)
    requires forall i :: 0 <= i < |col| ==> IsCleanChar(col[i])
    requires NoDoubleSpace(col)
    ensures forall i :: 0 <= i < |r| ==> IsCleanChar(r[i])
    ensures NoDoubleSpace(r)
  {
    forall i | 0 <= i < |r|
      ensures IsCleanChar(r[i])
    {
      assert r[i] == col[a + i];
    }
    forall i | 0 <= i < |r| - 1
      ensures r[i] != ' ' || r[i + 1] != ' '
    {
      assert r[i] == col[a + i] && r[i + 1] == col[a + i + 1];
    }
  }

  lemma CleanTextIsClean(text: string)
    ensures IsClean(CleanText(text))
  {
    if text != [] {
      var kept := KeepChars(Lower(text), IsWordOrSpace);
      var col := CollapseSpaces(kept);
      KeptLowerChars(text);
      CollapsedChars(kept);
      StripFacts(col);
      var a :| 0 <= a <= |col| - |Strip(col)| && OccursAt(col, Strip(col), a);
      SubstringKeepsShape(col, Strip(col), a);
    }
  }

  lemma {:induction false} CollapseFixed(s: string)
    requires forall i :: 0 <= i < |s| ==> IsSpace(s[i]) ==> s[i] == ' '
    requires NoDoubleSpace(s)
    ensures CollapseSpaces(s) == s
    decreases |s|
  {
    if s != [] {
      assert NoDoubleSpace(s[1..]);
      if IsSpace(s[0]) {
        assert TrimStart(s) == s[1..] by {
          assert TrimStart(s) == TrimStart(s[1..]);
          if |s| > 1 {
            assert !IsSpace(s[1]);
            TrimStartFacts(s[1..]);
          }
        }
      }
      CollapseFixed(s[1..]);
    }
  }

  /** Cleaning a cleaned text changes nothing. */
  lemma CleanTextFixed(s: string)
    requires IsClean(s)
    ensures CleanText(s) == s
  {
    if s != [] {
      forall i | 0 <= i < |s|
        ensures !IsAsciiUpper(s[i]) && IsWordOrSpace(s[i]) && (IsSpace(s[i]) ==> s[i] == ' ')
      {
        CleanCharFacts(s[i]);
      }
      LowerFixed(s);
      var kept := KeepChars(s, IsWordOrSpace);
      assert kept == s;
      CollapseFixed(s);
      StripFacts(s);
      calc {
        CleanText(s);
        Strip(CollapseSpaces(KeepChars(Lower(s), IsWordOrSpace)));
        Strip(CollapseSpaces(kept));
        Strip(s);
        s;
      }
    }
  }

  lemma CleanTextIdempotent(text: string)
    ensures CleanText(CleanText(text)) == CleanText(text)
  {
    CleanTextIsClean(text);
    CleanTextFixed(CleanText(text));
  }

  /** `calculate_exact_similarity`: 1 for equal cleaned texts, 0.9 when one contains
      the other, 0 otherwise or when either cleans to nothing. */
  /** The katakana middle dot '・' is punctuation, not a word character, so
      cleaning removes it: "ア・イ" cleans to "アイ", and the two are an exact match. */
  lemma MiddleDotDropped()
    ensures CleanText("ア・イ") == "アイ"
    ensures ExactSimilarity("ア・イ", "アイ") == 1.0
  {
    CleanDotted();
    CleanUndotted();
  }

  lemma CleanDotted()
    ensures CleanText("ア・イ") == "アイ"
  {
    var s := "ア・イ";
    var t := "アイ";
    LowerFixed(s);
    var d := s[1..];
    assert d == "・イ" && d[1..] == "イ" && !IsWordOrSpace(d[0]);
    assert KeepChars(d[1..], IsWordOrSpace) == "イ";
    assert KeepChars(d, IsWordOrSpace) == "イ";
    assert IsWordOrSpace(s[0]) && [s[0]] + "イ" == t;
    CleanUndottedSteps();
  }

  lemma CleanUndotted()
    ensures CleanText("アイ") == "アイ"
  {
    var t := "アイ";
    LowerFixed(t);
    assert KeepChars(t, IsWordOrSpace) == t;
    CleanUndottedSteps();
  }

  lemma CleanUndottedSteps()
    ensures Strip(CollapseSpaces("アイ")) == "アイ"
  {
    var t := "アイ";
    assert !IsSpace(t[0]) && !IsSpace(t[1]) && t[1..] == "イ";
    assert CollapseSpaces("イ") == "イ";
    assert CollapseSpaces(t) == t;
    StripFacts(t);
  }

  function ExactSimilarity(s1: string, s2: string): real {
    ExactOfCleaned(CleanText(s1), CleanText(s2))
  }

  function ExactOfCleaned(c1: string, c2: string): real {
    if c1 == [] || c2 == [] then 0.0
    else if c1 == c2 then 1.0
    else if Contains(c2, c1) || Contains(c1, c2) then 0.9
    else 0.0
  }

  lemma ExactSimilarityFacts(s1: string, s2: string)
    ensures ExactSimilarity(s1, s2) in {0.0, 0.9, 1.0}
    ensures ExactSimilarity(s1, s2) == ExactSimilarity(s2, s1)
    ensures ExactSimilarity(s1, s2) == 1.0 <==> CleanText(s1) != [] && CleanText(s1) == CleanText(s2)
    ensures ExactSimilarity(s1, s2) > 0.0 <==>
              CleanText(s1) != [] && CleanText(s2) != []
              && (Contains(CleanText(s2), CleanText(s1)) || Contains(CleanText(s1), CleanText(s2)))
  {
    if CleanText(s1) == CleanText(s2) {
      ContainsSelf(CleanText(s1));
    }
  }

  /** `calculate_fuzzy_similarity`: one minus the edit distance over the longer
      cleaned length, clipped at 0. */
  function FuzzySimilarity(s1: string, s2: string): real {
    FuzzyOfCleaned(CleanText(s1), CleanText(s2))
  }

  function FuzzyOfCleaned(c1: string, c2: string): real {
    if c1 == [] || c2 == [] then 0.0
    else if c1 == c2 then 1.0
    else
      var maxLen := if |c1| >= |c2| then |c1| else |c2|;
      if maxLen == 0 then 1.0
      else MaxReal(0.0, 1.0 - (Distance(c1, c2) as real) / (maxLen as real))
  }

  /** The unclipped fuzzy score is never negative, so `max(0, ...)` never fires;
      and the score is 1 exactly for equal non-empty cleaned texts. */
  lemma FuzzySimilarityFacts(s1: string, s2: string)
    ensures 0.0 <= FuzzySimilarity(s1, s2) <= 1.0
    ensures FuzzySimilarity(s1, s2) == FuzzySimilarity(s2, s1)
    ensures FuzzySimilarity(s1, s2) == 1.0 <==> CleanText(s1) != [] && CleanText(s1) == CleanText(s2)
    ensures var c1 := CleanText(s1); var c2 := CleanText(s2);
            c1 != [] && c2 != [] && c1 != c2 ==>
              var maxLen := if |c1| >= |c2| then |c1| else |c2|;
              FuzzySimilarity(s1, s2) == 1.0 - (Distance(c1, c2) as real) / (maxLen as real)
  {
    FuzzyCleanedFacts(CleanText(s1), CleanText(s2));
  }

  lemma FuzzyCleanedFacts(c1: string, c2: string)
    ensures 0.0 <= FuzzyOfCleaned(c1, c2) <= 1.0
    ensures FuzzyOfCleaned(c1, c2) == FuzzyOfCleaned(c2, c1)
    ensures FuzzyOfCleaned(c1, c2) == 1.0 <==> c1 != [] && c1 == c2
    ensures c1 != [] && c2 != [] && c1 != c2 ==>
              var maxLen := if |c1| >= |c2| then |c1| else |c2|;
              FuzzyOfCleaned(c1, c2) == 1.0 - (Distance(c1, c2) as real) / (maxLen as real)
  {
    DistanceSymmetric(c1, c2);
    if c1 != [] && c2 != [] && c1 != c2 {
      var maxLen := if |c1| >= |c2| then |c1| else |c2|;
      var d := Distance(c1, c2);
      DistanceAtMostLonger(c1, c2);
      DistanceZeroIff(c1, c2);
      RatioFacts(d, maxLen);
    }
  }

  /** The alternatives of the token regex `[ぁ-ゟ]+|[ァ-ヿ]+|[一-龯]+|[a-zA-Z0-9]+`;
      0 for a character none of them matches. */
  function TokenClass(c: char): nat {
    if IsHiragana(c) then 1
    else if IsKatakana(c) then 2
    else if IsKanji(c) then 3
    else if IsAsciiLetter(c) || IsDigit(c) then 4
    else 0
  }

  /** Length of the run at the front of `s` whose characters share class `k`. */
  function ClassRun(s: string, k: nat): (n: nat)
    ensures n <= |s|
    ensures forall i :: 0 <= i < n ==> TokenClass(s[i]) == k
    ensures n < |s| ==> TokenClass(s[n]) != k
  {
    if s == [] || TokenClass(s[0]) != k then 0 else 1 + ClassRun(s[1..], k)
  }

  /** `re.findall` of the token regex: the maximal same-class runs, left to right. */
  function Tokens(s: string): (ts: seq<string>)
    ensures forall t :: t in ts ==> |t| > 0 && TokenClass(t[0]) != 0
                                     && forall i :: 0 <= i < |t| ==> TokenClass(t[i]) == TokenClass(t[0])
    decreases |s|
  {
    if s == [] then []
    else if TokenClass(s[0]) == 0 then Tokens(s[1..])
    else
      var n := ClassRun(s, TokenClass(s[0]));
      [s[..n]] + Tokens(s[n..])
  }

  predicate IsLongWord(w: string) {
    |w| >= 2
  }

  /** `extract_words`: the tokens of the raw text of length at least 2. */
  function ExtractWords(text: string): (ws: seq<string>)
    ensures forall i :: 0 <= i < |ws| ==> |ws[i]| >= 2 && ws[i] in Tokens(text)
    ensures forall t :: t in Tokens(text) && |t| >= 2 ==> t in ws
  {
    if text == [] then [] else Filter(Tokens(text), IsLongWord)
  }

  /** `calculate_partial_similarity`: Jaccard index of the two word sets. */
  function PartialSimilarity(s1: string, s2: string): real {
    var w1 := ExtractWords(s1);
    var w2 := ExtractWords(s2);
    if w1 == [] || w2 == [] then 0.0
    else Jaccard(set w | w in w1, set w | w in w2)
  }

  lemma PartialSimilarityFacts(s1: string, s2: string)
    ensures 0.0 <= PartialSimilarity(s1, s2) <= 1.0
    ensures PartialSimilarity(s1, s2) == PartialSimilarity(s2, s1)
    ensures PartialSimilarity(s1, s2) == 1.0 <==>
              ExtractWords(s1) != [] && (set w | w in ExtractWords(s1)) == (set w | w in ExtractWords(s2))
  {
    var a := set w | w in ExtractWords(s1);
    var b := set w | w in ExtractWords(s2);
    JaccardFacts(a, b);
    if ExtractWords(s1) != [] {
      assert ExtractWords(s1)[0] in a;
    }
    if ExtractWords(s2) != [] {
      assert ExtractWords(s2)[0] in b;
    }
  }

  /** `get_character_ngrams(text, 2)`: the set of two-character windows of the cleaned text. */
  function Bigrams(text: string): set<string> {
    if text == [] || |text| < 2 then {}
    else
      var c := CleanText(text);
      if |c| < 2 then {} else set i | 0 <= i <= |c| - 2 :: Window2(c, i)
  }

  function Window2(c: string, i: int): string
    requires 0 <= i <= |c| - 2
  {
    c[i..i + 2]
  }

  /** `calculate_jaccard_similarity`: Jaccard index of the two bigram sets. */
  function BigramSimilarity(s1: string, s2: string): real {
    Jaccard(Bigrams(s1), Bigrams(s2))
  }

  /** The record `calculate_comprehensive_similarity` returns. */
  datatype Scores = Scores(exact: real, fuzzy: real, partial: real, jaccard: real,
                           comprehensive: real, maxScore: real)

  /** `calculate_comprehensive_similarity`: the four measures, their 0.4/0.3/0.2/0.1
      weighted sum, and their maximum. */
  function Comprehensive(s1: string, s2: string): Scores {
    var e := ExactSimilarity(s1, s2);
    var f := FuzzySimilarity(s1, s2);
    var p := PartialSimilarity(s1, s2);
    var j := BigramSimilarity(s1, s2);
    Scores(e, f, p, j, 0.4 * e + 0.3 * f + 0.2 * p + 0.1 * j,
           MaxReal(MaxReal(MaxReal(e, f), p), j))
  }

  predicate InUnit(x: real) {
    0.0 <= x <= 1.0
  }

  /** Every score lies in [0, 1], the weighted sum never exceeds the maximum, and
      the whole record is symmetric in its two arguments. */
  lemma ComprehensiveFacts(s1: string, s2: string)
    ensures var r := Comprehensive(s1, s2);
            InUnit(r.exact) && InUnit(r.fuzzy) && InUnit(r.partial) && InUnit(r.jaccard)
            && InUnit(r.comprehensive) && InUnit(r.maxScore)
            && r.comprehensive <= r.maxScore
    ensures Comprehensive(s1, s2) == Comprehensive(s2, s1)
  {
    ExactSimilarityFacts(s1, s2);
    FuzzySimilarityFacts(s1, s2);
    PartialSimilarityFacts(s1, s2);
    JaccardFacts(Bigrams(s1), Bigrams(s2));
    var r := Comprehensive(s1, s2);
    WeightedWithinMax(r.exact, r.fuzzy, r.partial, r.jaccard);
    ComprehensiveSymmetric(s1, s2);
  }

  /** The 0.4/0.3/0.2/0.1 blend of four scores in [0, 1] lies in [0, 1] and never
      exceeds their maximum. */
  lemma WeightedWithinMax(e: real, f: real, p: real, j: real)
    requires InUnit(e) && InUnit(f) && InUnit(p) && InUnit(j)
    ensures var w := 0.4 * e + 0.3 * f + 0.2 * p + 0.1 * j;
            var m := MaxReal(MaxReal(MaxReal(e, f), p), j);
            InUnit(w) && InUnit(m) && w <= m
  {
  }

  lemma ComprehensiveSymmetric(s1: string, s2: string)
    ensures Comprehensive(s1, s2) == Comprehensive(s2, s1)
  {
    ExactSimilarityFacts(s1, s2);
    FuzzySimilarityFacts(s1, s2);
    PartialSimilarityFacts(s1, s2);
    JaccardFacts(Bigrams(s1), Bigrams(s2));
  }

  /** Two texts that clean to the same non-empty string score at least 0.7. */
  lemma SameCleanTextScoresHigh(s1: string, s2: string)
    requires CleanText(s1) != [] && CleanText(s1) == CleanText(s2)
    ensures Comprehensive(s1, s2).comprehensive >= 0.7
    ensures Comprehensive(s1, s2).maxScore == 1.0
  {
    ExactSimilarityFacts(s1, s2);
    FuzzySimilarityFacts(s1, s2);
    PartialSimilarityFacts(s1, s2);
    JaccardFacts(Bigrams(s1), Bigrams(s2));
  }

  /** The answer of `find_best_match`; `index` is -1 when nothing qualified. */
  datatype BestMatch = BestMatch(candidate: Option<string>, score: real, index: int)

  /** The comprehensive score of `target` against each candidate, in order. */
  function CandidateScores(target: string, candidates: seq<string>): (r: seq<real>)
    ensures |r| == |candidates|
    ensures forall i :: 0 <= i < |r| ==> r[i] == Comprehensive(target, candidates[i]).comprehensive
  {
    seq(|candidates|, i requires 0 <= i < |candidates| => Comprehensive(target, candidates[i]).comprehensive)
  }

  /** The loop of `find_best_match` over precomputed scores: the first index with the
      highest score among those above 0 and at least `threshold`, or -1. */
  method ArgBest(scores: seq<real>, threshold: real) returns (index: int, best: real)
    ensures index == -1 <==> forall i :: 0 <= i < |scores| ==> !(scores[i] > 0.0 && scores[i] >= threshold)
    ensures index == -1 ==> best == 0.0
    ensures index != -1 ==>
              && 0 <= index < |scores| && best == scores[index]
              && best > 0.0 && best >= threshold
              && (forall i :: 0 <= i < |scores| && scores[i] >= threshold ==> scores[i] <= best)
              && (forall i :: 0 <= i < index ==> scores[i] < best)
  {
    index, best := -1, 0.0;
    var i := 0;
    while i < |scores|
      invariant 0 <= i <= |scores|
      invariant index == -1 ==> best == 0.0
      invariant index == -1 <==> forall k :: 0 <= k < i ==> !(scores[k] > 0.0 && scores[k] >= threshold)
      invariant index != -1 ==>
                  && 0 <= index < i && best == scores[index]
                  && best > 0.0 && best >= threshold
                  && (forall k :: 0 <= k < i && scores[k] >= threshold ==> scores[k] <= best)
                  && (forall k :: 0 <= k < index ==> scores[k] < best)
    {
      if scores[i] > best && scores[i] >= threshold {
        index, best := i, scores[i];
      }
      i := i + 1;
    }
  }

  /** `find_best_match`: the first candidate with the highest comprehensive score,
      among those scoring above 0 and at least `threshold`. */
  method FindBestMatch(target: string, candidates: seq<string>, threshold: real)
    returns (result: BestMatch)
    ensures var scores := CandidateScores(target, candidates);
            && (result.index == -1 <==> forall i :: 0 <= i < |scores| ==> !(scores[i] > 0.0 && scores[i] >= threshold))
            && (result.index == -1 ==> result.candidate == None && result.score == 0.0)
            && (result.index != -1 ==>
                  && 0 <= result.index < |candidates|
                  && result.candidate == Some(candidates[result.index])
                  && result.score == scores[result.index]
                  && result.score > 0.0 && result.score >= threshold
                  && (forall i :: 0 <= i < |scores| && scores[i] >= threshold ==> scores[i] <= result.score)
                  && (forall i :: 0 <= i < result.index ==> scores[i] < result.score))
  {
    var index, best := ArgBest(CandidateScores(target, candidates), threshold);
    if index == -1 {
      result := BestMatch(None, 0.0, -1);
    } else {
      result := BestMatch(Some(candidates[index]), best, index);
    }
  }
}
