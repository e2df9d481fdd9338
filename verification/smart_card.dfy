/** The hard-coded-header matcher `smart_card_matching`. Each card yields a name,
    id, date and series value, read from fixed column lists. The card score adds
    fixed points for exact and partial agreements, and every pair scoring 0.6 or
    more is kept. Matched agreements are accumulated under four fixed mapping keys.
    Scores and field similarities are integer hundredths. */
module SmartCard {
  import opened Chars
  import opened Strings
  import opened Seqs
  import opened Pairing
  import opened Rows
  import opened TwoStage

  // ---------------------------------------------------------------------------
  // key_field_mappings and extract_field_value

  const NameFieldsA: seq<string> := ["name", "name_short", "pos_en_name"]
  const NameFieldsB: seq<string> := ["カード名", "カード名カナ"]
  const IdFieldsA: seq<string> := ["serial", "id"]
  const IdFieldsB: seq<string> := ["型番", "自社型番"]
  const DateFieldsA: seq<string> := ["releace_date"]
  const DateFieldsB: seq<string> := ["発売日"]
  const SeriesFieldsA: seq<string> := ["series"]
  const SeriesFieldsB: seq<string> := ["シリーズ"]

  /** `field in card and card[field]`. */
  predicate Filled(card: Row, field: string) {
    field in card && card[field] != []
  }

  /** The position of the first listed field that is present and non-empty. */
  function FirstFilled(card: Row, fields: seq<string>): (i: nat)
    ensures i <= |fields|
    ensures i < |fields| ==> Filled(card, fields[i])
    ensures forall j :: 0 <= j < i ==> !Filled(card, fields[j])
  {
    if fields == [] then 0
    else if Filled(card, fields[0]) then 0
    else 1 + FirstFilled(card, fields[1..])
  }

  /** `extract_field_value`: the stripped value of the first filled field, else "".
      A whitespace-only value stops the search and yields "". */
  function ExtractFieldValue(card: Row, fields: seq<string>): (r: string)
    ensures var i := FirstFilled(card, fields);
            r == if i < |fields| then Strip(card[fields[i]]) else ""
  {
    if fields == [] then ""
    else if Filled(card, fields[0]) then Strip(card[fields[0]])
    else ExtractFieldValue(card, fields[1..])
  }

  /** A blank value in an earlier field hides a later filled one. */
  lemma BlankFieldHidesLater(card: Row, f: string, g: string)
    requires f in card && card[f] == " " && Filled(card, g)
    ensures ExtractFieldValue(card, [f, g]) == ""
  {
    assert Strip(" ") == "";
  }

  // ---------------------------------------------------------------------------
  // normalize_date and normalize_text

  /** The nested `normalize_date`: a three-part '/' split is zero-padded with no
      digit check; everything else, eight digits or not, comes back stripped. */
  function SmartNormalizeDate(s: string): (r: string) {
    if s == [] then []
    else
      var v := Strip(s);
      var parts := Split(v, '/');
      if '/' in v && |parts| == 3 then ZFill(parts[0], 4) + ZFill(parts[1], 2) + ZFill(parts[2], 2)
      else v
  }

  /** Values without a three-part split are only stripped. */
  lemma SmartNormalizeDateFacts(s: string)
    ensures SmartNormalizeDate("") == ""
    ensures var v := Strip(s); !('/' in v && |Split(v, '/')| == 3) ==> SmartNormalizeDate(s) == v
  {
  }

  /** An ASCII approximation of the characters `re.sub(r'[^\w\s&・]', '', text)`
      keeps: Python's `\w` also covers accented and full-width letters and digits. */
  predicate KeptInText(c: char) {
    IsWordChar(c) || IsSpace(c) || c == '&' || c == '・'
  }

  /** `normalize_text`: strip, fold '＆' and the ideographic space, drop other
      symbols, lower-case. */
  function NormalizeText(text: string): string {
    if text == [] then [] else Lower(KeepChars(FoldSymbols(Strip(text)), KeptInText))
  }

  /** The characters a normalised text may hold: kept by the symbol filter, not an
      ASCII capital, and neither '＆' nor the ideographic space, which are folded. */
  predicate TextShaped(c: char) {
    KeptInText(c) && !IsAsciiUpper(c) && c != FullWidthAmpersand && c != IdeographicSpace
  }

  /** Normalising never lengthens a text and leaves only shaped characters. */
  lemma NormalizeTextShape(text: string)
    ensures |NormalizeText(text)| <= |text|
    ensures forall i :: 0 <= i < |NormalizeText(text)| ==> TextShaped(NormalizeText(text)[i])
  {
    if text != [] {
      StripFacts(text);
      var f := FoldSymbols(Strip(text));
      var k := KeepChars(f, KeptInText);
      forall i | 0 <= i < |k|
        ensures TextShaped(ToLower(k[i]))
      {
        assert k[i] in f;
        ToLowerFacts(k[i]);
      }
    }
  }

  /** A stripped text of shaped characters is its own normal form. */
  lemma NormalizeTextFixed(s: string)
    requires IsStripped(s)
    requires forall i :: 0 <= i < |s| ==> TextShaped(s[i])
    ensures NormalizeText(s) == s
  {
    if s != [] {
      StripFacts(s);
      assert FoldSymbols(s) == s;
      LowerFixed(s);
    }
  }

  /** Normalising twice changes nothing exactly when the first result has no
      whitespace left at its ends to strip. */
  lemma NormalizeTextIdempotent(text: string)
    ensures NormalizeText(NormalizeText(text)) == NormalizeText(text) <==> IsStripped(NormalizeText(text))
  {
    var r := NormalizeText(text);
    NormalizeTextShape(text);
    if IsStripped(r) {
      NormalizeTextFixed(r);
    } else {
      StripFacts(r);
      assert Strip(r) != r;
      NormalizeTextShape(Strip(r));
      assert |NormalizeText(r)| <= |Strip(r)| < |r|;
    }
  }

  /** The symbol filter runs after the strip, so a dropped leading symbol can
      expose a space: "! a" normalises to " a", and that to "a". */
  lemma NormalizeTextNotIdempotent()
    ensures NormalizeText("! a") == " a"
    ensures NormalizeText(" a") == "a"
  {
    NormalizeDropsSymbol();
    NormalizeStripsSpace();
  }

  /** The filter names '・' explicitly, so it survives, while the spacing voicing
      mark '゛' is neither a word character nor listed, so it goes:
      "ア・イ" stays as it is and "ア゛" becomes "ア". */
  lemma NormalizeTextKana()
    ensures NormalizeText("ア・イ") == "ア・イ"
    ensures NormalizeText("ア゛") == "ア"
  {
    NormalizeKeepsMiddleDot();
    NormalizeDropsVoicingMark();
  }

  lemma NormalizeKeepsMiddleDot()
    ensures NormalizeText("ア・イ") == "ア・イ"
  {
    var s := "ア・イ";
    assert TextShaped(s[0]) && TextShaped(s[1]) && TextShaped(s[2]);
    NormalizeTextFixed(s);
  }

  lemma NormalizeDropsVoicingMark()
    ensures NormalizeText("ア゛") == "ア"
  {
    var u := "ア゛";
    assert !IsSpace(u[0]) && !IsSpace(u[1]);
    assert Strip(u) == u;
    assert FoldSymbols(u) == u;
    assert KeptInText(u[0]) && !KeptInText(u[1]) && u[1..] == "゛";
    assert KeepChars(u[1..], KeptInText) == "";
    assert KeepChars(u, KeptInText) == "ア";
    LowerFixed("ア");
  }

  lemma NormalizeDropsSymbol()
    ensures NormalizeText("! a") == " a"
  {
    var u := "! a";
    assert !IsSpace(u[0]) && !IsSpace(u[2]);
    assert Strip(u) == u;
    assert FoldSymbols(u) == u;
    assert !KeptInText(u[0]) && u[1..] == " a";
    assert KeepChars(" a", KeptInText) == " a";
    LowerFixed(" a");
  }

  lemma NormalizeStripsSpace()
    ensures NormalizeText(" a") == "a"
  {
    var t := " a";
    assert IsSpace(t[0]) && t[1..] == "a";
    assert TrimStart("a") == "a";
    assert Strip(t) == "a";
    assert FoldSymbols("a") == "a";
    assert KeepChars("a", KeptInText) == "a";
    LowerFixed("a");
  }

  // ---------------------------------------------------------------------------
  // calculate_card_similarity

  datatype MatchTag = NameExact | NamePartial | IdExact | IdPartial | DateExact | SeriesExact

  /** The tag string stored as `detail[0]`. */
  function TagText(t: MatchTag): string {
    match t
    case NameExact => "name_exact"
    case NamePartial => "name_partial"
    case IdExact => "id_exact"
    case IdPartial => "id_partial"
    case DateExact => "date_exact"
    case SeriesExact => "series_exact"
  }

  /** One `(match_type, val_a, val_b, field_sim)` entry; `fieldSim` in hundredths. */
  datatype SmartDetail = SmartDetail(tag: MatchTag, valueA: string, valueB: string, fieldSim: nat)

  /** The two normalisers the scoring uses; the matcher passes `NormalizeText` and
      `SmartNormalizeDate`. */
  datatype Norms = Norms(text: string -> string, date: string -> string)

  /** The name comparison: exact 40, either contained in the other 30. */
  function NamePart(n: Norms, na: string, nb: string): seq<SmartDetail> {
    if na == [] || nb == [] then []
    else
      var x := n.text(na);
      var y := n.text(nb);
      if x == y then [SmartDetail(NameExact, na, nb, 100)]
      else if Contains(y, x) || Contains(x, y) then [SmartDetail(NamePartial, na, nb, 75)]
      else []
  }

  /** The id comparison, on the raw stripped values: exact 40, containment 20. */
  function IdPart(ia: string, ib: string): seq<SmartDetail> {
    if ia == [] || ib == [] then []
    else if ia == ib then [SmartDetail(IdExact, ia, ib, 100)]
    else if Contains(ib, ia) || Contains(ia, ib) then [SmartDetail(IdPartial, ia, ib, 50)]
    else []
  }

  function DatePart(n: Norms, da: string, db: string): seq<SmartDetail> {
    if da == [] || db == [] then []
    else if n.date(da) == n.date(db) then [SmartDetail(DateExact, da, db, 100)]
    else []
  }

  function SeriesPart(n: Norms, sa: string, sb: string): seq<SmartDetail> {
    if sa == [] || sb == [] then []
    else if n.text(sa) == n.text(sb) then [SmartDetail(SeriesExact, sa, sb, 100)]
    else []
  }

  /** The points of a tag, in hundredths. */
  function Points(t: MatchTag): nat {
    match t
    case NameExact => 40
    case NamePartial => 30
    case IdExact => 40
    case IdPartial => 20
    case DateExact => 15
    case SeriesExact => 5
  }

  function DetailsWith(n: Norms, a: Row, b: Row): seq<SmartDetail> {
    NamePart(n, ExtractFieldValue(a, NameFieldsA), ExtractFieldValue(b, NameFieldsB))
    + IdPart(ExtractFieldValue(a, IdFieldsA), ExtractFieldValue(b, IdFieldsB))
    + DatePart(n, ExtractFieldValue(a, DateFieldsA), ExtractFieldValue(b, DateFieldsB))
    + SeriesPart(n, ExtractFieldValue(a, SeriesFieldsA), ExtractFieldValue(b, SeriesFieldsB))
  }

  function PointsOf(ds: seq<SmartDetail>): nat {
    if ds == [] then 0 else Points(ds[0].tag) + PointsOf(ds[1..])
  }

  lemma {:induction false} PointsOfConcat(x: seq<SmartDetail>, y: seq<SmartDetail>)
    ensures PointsOf(x + y) == PointsOf(x) + PointsOf(y)
  {
    if x == [] {
      assert x + y == y;
    } else {
      assert (x + y)[1..] == x[1..] + y;
      PointsOfConcat(x[1..], y);
    }
  }

  function ScoreWith(n: Norms, a: Row, b: Row): nat {
    PointsOf(DetailsWith(n, a, b))
  }

  const SmartNorms: Norms := Norms(NormalizeText, SmartNormalizeDate)

  /** `calculate_card_similarity`'s `similarity_score`, in hundredths. */
  function CardSimilarity(a: Row, b: Row): nat {
    ScoreWith(SmartNorms, a, b)
  }

  /** The score is the sum of one name, one id, one date and one series award, so it
      lies in [0, 100]: name 0/30/40, id 0/20/40, date 0/15, series 0/5. */
  lemma ScoreDecomposition(n: Norms, a: Row, b: Row)
    ensures var np := PointsOf(NamePart(n, ExtractFieldValue(a, NameFieldsA), ExtractFieldValue(b, NameFieldsB)));
            var ip := PointsOf(IdPart(ExtractFieldValue(a, IdFieldsA), ExtractFieldValue(b, IdFieldsB)));
            var dp := PointsOf(DatePart(n, ExtractFieldValue(a, DateFieldsA), ExtractFieldValue(b, DateFieldsB)));
            var sp := PointsOf(SeriesPart(n, ExtractFieldValue(a, SeriesFieldsA), ExtractFieldValue(b, SeriesFieldsB)));
            && ScoreWith(n, a, b) == np + ip + dp + sp
            && np in {0, 30, 40} && ip in {0, 20, 40} && dp in {0, 15} && sp in {0, 5}
            && 0 <= ScoreWith(n, a, b) <= 100
  {
    var x := NamePart(n, ExtractFieldValue(a, NameFieldsA), ExtractFieldValue(b, NameFieldsB));
    var y := IdPart(ExtractFieldValue(a, IdFieldsA), ExtractFieldValue(b, IdFieldsB));
    var z := DatePart(n, ExtractFieldValue(a, DateFieldsA), ExtractFieldValue(b, DateFieldsB));
    var w := SeriesPart(n, ExtractFieldValue(a, SeriesFieldsA), ExtractFieldValue(b, SeriesFieldsB));
    PointsOfConcat(x, y);
    PointsOfConcat(x + y, z);
    PointsOfConcat(x + y + z, w);
    PartPoints(n, a, b);
  }

  lemma PartPoints(n: Norms, a: Row, b: Row)
    ensures PointsOf(NamePart(n, ExtractFieldValue(a, NameFieldsA), ExtractFieldValue(b, NameFieldsB))) in {0, 30, 40}
    ensures PointsOf(IdPart(ExtractFieldValue(a, IdFieldsA), ExtractFieldValue(b, IdFieldsB))) in {0, 20, 40}
    ensures PointsOf(DatePart(n, ExtractFieldValue(a, DateFieldsA), ExtractFieldValue(b, DateFieldsB))) in {0, 15}
    ensures PointsOf(SeriesPart(n, ExtractFieldValue(a, SeriesFieldsA), ExtractFieldValue(b, SeriesFieldsB))) in {0, 5}
  {
    NamePoints(n, ExtractFieldValue(a, NameFieldsA), ExtractFieldValue(b, NameFieldsB));
    IdPoints(ExtractFieldValue(a, IdFieldsA), ExtractFieldValue(b, IdFieldsB));
    DatePoints(n, ExtractFieldValue(a, DateFieldsA), ExtractFieldValue(b, DateFieldsB));
    SeriesPoints(n, ExtractFieldValue(a, SeriesFieldsA), ExtractFieldValue(b, SeriesFieldsB));
  }

  lemma NamePoints(n: Norms, na: string, nb: string)
    ensures PointsOf(NamePart(n, na, nb)) in {0, 30, 40}
  {
    var x := NamePart(n, na, nb);
    assert x == [] || x[1..] == [];
  }

  lemma IdPoints(ia: string, ib: string)
    ensures PointsOf(IdPart(ia, ib)) in {0, 20, 40}
  {
    var x := IdPart(ia, ib);
    assert x == [] || x[1..] == [];
  }

  lemma DatePoints(n: Norms, da: string, db: string)
    ensures PointsOf(DatePart(n, da, db)) in {0, 15}
  {
    var x := DatePart(n, da, db);
    assert x == [] || x[1..] == [];
  }

  lemma SeriesPoints(n: Norms, sa: string, sb: string)
    ensures PointsOf(SeriesPart(n, sa, sb)) in {0, 5}
  {
    var x := SeriesPart(n, sa, sb);
    assert x == [] || x[1..] == [];
  }

  /** A name whose normalised text is empty is contained in every other name, so it
      earns the partial 0.3 against any non-empty name. */
  lemma EmptyTextNameIsPartial(n: Norms, na: string, nb: string)
    requires na != [] && nb != [] && n.text(na) == [] && n.text(nb) != []
    ensures NamePart(n, na, nb) == [SmartDetail(NamePartial, na, nb, 75)]
  {
    ContainsEmpty(n.text(nb));
  }

  // ---------------------------------------------------------------------------
  // the matching loop

  /** `similarity_score >= 0.6`, and `'high'` exactly from 0.8. */
  const KeepAt: nat := 60
  const HighAt: nat := 80

  datatype Confidence = HighConfidence | MediumConfidence

  datatype SmartMatch = SmartMatch(cardA: Row, cardB: Row, score: nat, details: seq<SmartDetail>, confidence: Confidence)

  predicate IsSmartMatch(dataA: seq<Row>, dataB: seq<Row>, i: nat, j: nat) {
    i < |dataA| && j < |dataB| && CardSimilarity(dataA[i], dataB[j]) >= KeepAt
  }

  function SmartIndices(dataA: seq<Row>, dataB: seq<Row>): seq<(nat, nat)> {
    CrossPairs(|dataA|, |dataB|, (i: nat, j: nat) => IsSmartMatch(dataA, dataB, i, j))
  }

  function MakeMatch(a: Row, b: Row): SmartMatch {
    var s := CardSimilarity(a, b);
    SmartMatch(a, b, s, DetailsWith(SmartNorms, a, b), if s >= HighAt then HighConfidence else MediumConfidence)
  }

  /** `card_matches`: every pair scoring at least 0.6, A-major, no one-to-one step. */
  function CardMatches(dataA: seq<Row>, dataB: seq<Row>): (r: seq<SmartMatch>)
    ensures |r| == |SmartIndices(dataA, dataB)|
  {
    var idx := SmartIndices(dataA, dataB);
    seq(|idx|, k requires 0 <= k < |idx| => MakeMatch(dataA[idx[k].0], dataB[idx[k].1]))
  }

  /** Each kept pair scored at least 0.6 and is 'high' iff it scored at least 0.8;
      every such pair is kept, in scan order. */
  lemma CardMatchesSpec(dataA: seq<Row>, dataB: seq<Row>)
    ensures var idx := SmartIndices(dataA, dataB);
            var r := CardMatches(dataA, dataB);
            && ScanOrdered(idx)
            && (forall k :: 0 <= k < |r| ==>
                  && r[k].cardA == dataA[idx[k].0] && r[k].cardB == dataB[idx[k].1]
                  && KeepAt <= r[k].score <= 100
                  && (r[k].confidence == HighConfidence <==> r[k].score >= HighAt))
            && (forall i: nat, j: nat :: IsSmartMatch(dataA, dataB, i, j) ==> (i, j) in idx)
  {
    var idx := SmartIndices(dataA, dataB);
    forall k | 0 <= k < |idx|
      ensures CardSimilarity(dataA[idx[k].0], dataB[idx[k].1]) <= 100
    {
      ScoreDecomposition(SmartNorms, dataA[idx[k].0], dataB[idx[k].1]);
    }
  }

  /** An exact name with a date and a series reaches 0.6 whatever the ids hold. */
  lemma NameDateSeriesSuffice(n: Norms, a: Row, b: Row)
    requires NamePart(n, ExtractFieldValue(a, NameFieldsA), ExtractFieldValue(b, NameFieldsB)) != []
    requires NamePart(n, ExtractFieldValue(a, NameFieldsA), ExtractFieldValue(b, NameFieldsB))[0].tag == NameExact
    requires DatePart(n, ExtractFieldValue(a, DateFieldsA), ExtractFieldValue(b, DateFieldsB)) != []
    requires SeriesPart(n, ExtractFieldValue(a, SeriesFieldsA), ExtractFieldValue(b, SeriesFieldsB)) != []
    ensures ScoreWith(n, a, b) >= KeepAt
  {
    ScoreDecomposition(n, a, b);
    var x := NamePart(n, ExtractFieldValue(a, NameFieldsA), ExtractFieldValue(b, NameFieldsB));
    assert x[1..] == [];
  }

  /** A partial name and a partial id alone make 0.5, which is not kept. */
  lemma PartialNameAndIdFallShort(n: Norms, a: Row, b: Row)
    requires NamePart(n, ExtractFieldValue(a, NameFieldsA), ExtractFieldValue(b, NameFieldsB)) != []
    requires NamePart(n, ExtractFieldValue(a, NameFieldsA), ExtractFieldValue(b, NameFieldsB))[0].tag == NamePartial
    requires IdPart(ExtractFieldValue(a, IdFieldsA), ExtractFieldValue(b, IdFieldsB)) != []
    requires IdPart(ExtractFieldValue(a, IdFieldsA), ExtractFieldValue(b, IdFieldsB))[0].tag == IdPartial
    requires DatePart(n, ExtractFieldValue(a, DateFieldsA), ExtractFieldValue(b, DateFieldsB)) == []
    requires SeriesPart(n, ExtractFieldValue(a, SeriesFieldsA), ExtractFieldValue(b, SeriesFieldsB)) == []
    ensures ScoreWith(n, a, b) == 50 < KeepAt
  {
    ScoreDecomposition(n, a, b);
    var x := NamePart(n, ExtractFieldValue(a, NameFieldsA), ExtractFieldValue(b, NameFieldsB));
    var y := IdPart(ExtractFieldValue(a, IdFieldsA), ExtractFieldValue(b, IdFieldsB));
    assert x[1..] == [] && y[1..] == [];
  }

  // ---------------------------------------------------------------------------
  // field_mappings and enhanced_mappings

  /** The fixed key a tag's similarity is credited to, whichever listed field matched. */
  function MappingKey(t: MatchTag): string {
    match t
    case NameExact => NameKey
    case NamePartial => NameKey
    case IdExact => IdKey
    case IdPartial => IdKey
    case DateExact => DateKey
    case SeriesExact => SeriesKey
  }

  const NameKey: string := PairKey("name", "カード名")
  const IdKey: string := PairKey("serial", "型番")
  const DateKey: string := PairKey("releace_date", "発売日")
  const SeriesKey: string := PairKey("series", "シリーズ")

  /** The dict `field_mappings`: keys in first-insertion order and their totals. */
  datatype Totals = Totals(order: seq<string>, sums: map<string, nat>)

  function Credit(t: Totals, key: string, sim: nat): Totals {
    var prev := if key in t.sums then t.sums[key] else 0;
    Totals(if key in t.sums then t.order else t.order + [key], t.sums[key := prev + sim])
  }

  function CreditDetails(t: Totals, ds: seq<SmartDetail>): Totals
    decreases |ds|
  {
    if ds == [] then t else CreditDetails(Credit(t, MappingKey(ds[0].tag), ds[0].fieldSim), ds[1..])
  }

  function CreditMatches(t: Totals, ms: seq<SmartMatch>): Totals
    decreases |ms|
  {
    if ms == [] then t else CreditMatches(CreditDetails(t, ms[0].details), ms[1..])
  }

  /** The running total under a key, 0 before its first credit. */
  function TotalOf(t: Totals, key: string): nat {
    if key in t.sums then t.sums[key] else 0
  }

  /** The reference total: the similarities of the details credited to `key`. */
  function SimFor(ds: seq<SmartDetail>, key: string): nat {
    if ds == [] then 0 else (if MappingKey(ds[0].tag) == key then ds[0].fieldSim else 0) + SimFor(ds[1..], key)
  }

  /** Crediting adds exactly the similarities credited to each key; a key enters
      the order once, at its first credit, and earlier keys keep their places. */
  lemma {:induction false} CreditDetailsSpec(t: Totals, ds: seq<SmartDetail>, key: string)
    requires forall k :: k in t.order ==> k in t.sums
    ensures TotalOf(CreditDetails(t, ds), key) == TotalOf(t, key) + SimFor(ds, key)
    ensures |t.order| <= |CreditDetails(t, ds).order| && CreditDetails(t, ds).order[..|t.order|] == t.order
    ensures forall k :: k in CreditDetails(t, ds).order ==> k in CreditDetails(t, ds).sums
    decreases |ds|
  {
    if ds != [] {
      var t1 := Credit(t, MappingKey(ds[0].tag), ds[0].fieldSim);
      assert t1.order[..|t.order|] == t.order;
      CreditDetailsSpec(t1, ds[1..], key);
      var o := CreditDetails(t, ds).order;
      assert o[..|t1.order|][..|t.order|] == o[..|t.order|];
    }
  }

  /** The four fixed keys. */
  predicate IsFixedKey(k: string) {
    k == NameKey || k == IdKey || k == DateKey || k == SeriesKey
  }

  predicate FixedKeys(t: Totals) {
    (forall k :: k in t.sums ==> IsFixedKey(k))
    && (forall k :: k in t.order ==> k in t.sums)
  }

  lemma {:induction false} CreditKeepsFixed(t: Totals, ds: seq<SmartDetail>)
    requires FixedKeys(t)
    ensures FixedKeys(CreditDetails(t, ds))
    decreases |ds|
  {
    if ds != [] {
      CreditKeepsFixed(Credit(t, MappingKey(ds[0].tag), ds[0].fieldSim), ds[1..]);
    }
  }

  lemma {:induction false} CreditMatchesFixed(t: Totals, ms: seq<SmartMatch>)
    requires FixedKeys(t)
    ensures FixedKeys(CreditMatches(t, ms))
    decreases |ms|
  {
    if ms != [] {
      CreditKeepsFixed(t, ms[0].details);
      CreditMatchesFixed(CreditDetails(t, ms[0].details), ms[1..]);
    }
  }

  /** The reference total over all kept matches: every similarity credited to `key`. */
  function SimForAll(ms: seq<SmartMatch>, key: string): nat
    decreases |ms|
  {
    if ms == [] then 0 else SimFor(ms[0].details, key) + SimForAll(ms[1..], key)
  }

  /** A key is listed in the order exactly when it has a running total. */
  ghost predicate Consistent(t: Totals) {
    forall k :: k in t.sums <==> k in t.order
  }

  lemma {:induction false} CreditDetailsConsistent(t: Totals, ds: seq<SmartDetail>)
    requires Consistent(t)
    ensures Consistent(CreditDetails(t, ds))
    decreases |ds|
  {
    if ds != [] {
      CreditDetailsConsistent(Credit(t, MappingKey(ds[0].tag), ds[0].fieldSim), ds[1..]);
    }
  }

  /** Over all kept matches, a key's total is the sum of the similarities credited to it. */
  lemma {:induction false} CreditMatchesSpec(t: Totals, ms: seq<SmartMatch>, key: string)
    requires Consistent(t)
    ensures Consistent(CreditMatches(t, ms))
    ensures TotalOf(CreditMatches(t, ms), key) == TotalOf(t, key) + SimForAll(ms, key)
    decreases |ms|
  {
    if ms != [] {
      CreditDetailsConsistent(t, ms[0].details);
      CreditDetailsSpec(t, ms[0].details, key);
      CreditMatchesSpec(CreditDetails(t, ms[0].details), ms[1..], key);
    }
  }

  datatype Quality = QualityHigh | QualityMedium | QualityLow

  datatype SmartMapping = SmartMapping(fieldA: string, fieldB: string, confidence: real, sampleCount: nat, quality: Quality)

  /** `'High' if c > 0.8 else 'Medium' if c > 0.5 else 'Low'`. */
  function QualityOf(c: real): (q: Quality)
    ensures q == QualityHigh <==> c > 0.8
    ensures q == QualityMedium <==> 0.5 < c <= 0.8
    ensures q == QualityLow <==> c <= 0.5
  {
    if c > 0.8 then QualityHigh else if c > 0.5 then QualityMedium else QualityLow
  }

  /** `min(1.0, total_sim / len(card_matches)) if card_matches else 0.0`, with the
      total in hundredths. */
  function MappingConfidence(total: nat, matches: nat): (c: real)
    ensures 0.0 <= c <= 1.0
    ensures matches == 0 ==> c == 0.0
  {
    if matches == 0 then 0.0 else MinReal(1.0, (total as real / 100.0) / (matches as real))
  }

  /** `any(field_pair in f"{detail[0]}" for detail in m['match_details'])`. */
  predicate CountsForKey(m: SmartMatch, key: string) {
    exists k :: 0 <= k < |m.details| && Contains(TagText(m.details[k].tag), key)
  }

  /** `sample_count`. */
  function SampleCount(ms: seq<SmartMatch>, key: string): nat {
    |Filter(ms, (m: SmartMatch) => CountsForKey(m, key))|
  }

  /** The mapping loop over the keys; the fixed keys each split into two names. */
  function EnhancedMappings(t: Totals, keys: seq<string>, ms: seq<SmartMatch>): (r: seq<SmartMapping>)
    requires forall k :: k in keys ==> k in t.sums
    ensures |r| <= |keys|
  {
    if keys == [] then []
    else
      var k := keys[0];
      assert k in keys;
      var parts := Split(k, Arrow);
      var c := MappingConfidence(t.sums[k], |ms|);
      var m := SmartMapping(parts[0], if |parts| > 1 then parts[1] else [], c, SampleCount(ms, k), QualityOf(c));
      [m] + EnhancedMappings(t, keys[1..], ms)
  }

  /** `enhanced_mappings` built from the kept matches. */
  function MappingsOf(ms: seq<SmartMatch>): seq<SmartMapping> {
    var t := CreditMatches(Totals([], map[]), ms);
    CreditMatchesFixed(Totals([], map[]), ms);
    EnhancedMappings(t, t.order, ms)
  }

  /** `smart_card_matching`: the kept pairs and their mappings. */
  function SmartCardMatching(dataA: seq<Row>, dataB: seq<Row>): (seq<SmartMatch>, seq<SmartMapping>) {
    var ms := CardMatches(dataA, dataB);
    (ms, MappingsOf(ms))
  }

  /** No tag contains '→', so no tag contains a key and every `sample_count` is 0. */
  lemma SampleCountAlwaysZero(ms: seq<SmartMatch>, key: string)
    requires Arrow in key
    ensures SampleCount(ms, key) == 0
  {
    forall m | m in ms
      ensures !CountsForKey(m, key)
    {
      forall k | 0 <= k < |m.details|
        ensures !Contains(TagText(m.details[k].tag), key)
      {
        var tag := TagText(m.details[k].tag);
        TagHasNoArrow(m.details[k].tag);
        if Contains(tag, key) {
          ContainedChar(tag, key, Arrow);
        }
      }
    }
    FilterNone(ms, (m: SmartMatch) => CountsForKey(m, key));
  }

  lemma TagHasNoArrow(t: MatchTag)
    ensures Arrow !in TagText(t)
  {
  }

  /** A key built from two arrow-free names splits back into them. */
  lemma KeySplits(fa: string, fb: string)
    requires Arrow !in fa && Arrow !in fb
    ensures var k := PairKey(fa, fb);
            Arrow in k && |Split(k, Arrow)| == 2 && k == PairKey(Split(k, Arrow)[0], Split(k, Arrow)[1])
  {
    PairKeySplit(fa, fb);
    assert PairKey(fa, fb)[|fa|] == Arrow;
  }

  /** A key that splits at the arrow into exactly the two names it joins. */
  predicate SplitsInTwo(k: string) {
    Arrow in k && |Split(k, Arrow)| == 2 && k == PairKey(Split(k, Arrow)[0], Split(k, Arrow)[1])
  }

  /** Each fixed key splits into the names it was built from. */
  lemma FixedKeySplits(k: string)
    requires IsFixedKey(k)
    ensures Arrow in k
    ensures |Split(k, Arrow)| == 2
    ensures k == PairKey(Split(k, Arrow)[0], Split(k, Arrow)[1])
  {
    if k == NameKey {
      NameKeySplits();
    } else if k == IdKey {
      IdKeySplits();
    } else if k == DateKey {
      DateKeySplits();
    } else {
      SeriesKeySplits();
    }
  }

  lemma NameKeySplits()
    ensures SplitsInTwo(NameKey)
  {
    KeySplits("name", "カード名");
  }

  lemma IdKeySplits()
    ensures SplitsInTwo(IdKey)
  {
    KeySplits("serial", "型番");
  }

  lemma DateKeySplits()
    ensures SplitsInTwo(DateKey)
  {
    KeySplits("releace_date", "発売日");
  }

  lemma SeriesKeySplits()
    ensures SplitsInTwo(SeriesKey)
  {
    KeySplits("series", "シリーズ");
  }

  /** The mappings: names from one of the four fixed keys, confidence in [0, 1] with
      the three quality tiers, and a `sample_count` of 0. */
  lemma MappingsOfSpec(ms: seq<SmartMatch>)
    ensures var maps := MappingsOf(ms);
            forall i :: 0 <= i < |maps| ==>
              && IsFixedKey(PairKey(maps[i].fieldA, maps[i].fieldB))
              && 0.0 <= maps[i].confidence <= 1.0
              && maps[i].quality == QualityOf(maps[i].confidence)
              && maps[i].sampleCount == 0
  {
    var t := CreditMatches(Totals([], map[]), ms);
    CreditMatchesFixed(Totals([], map[]), ms);
    EnhancedMappingsSpec(t, t.order, ms);
    assert MappingsOf(ms) == EnhancedMappings(t, t.order, ms);
  }

  lemma {:induction false} EnhancedMappingsSpec(t: Totals, keys: seq<string>, ms: seq<SmartMatch>)
    requires forall k :: k in keys ==> k in t.sums && IsFixedKey(k)
    ensures var r := EnhancedMappings(t, keys, ms);
            forall i :: 0 <= i < |r| ==>
              && IsFixedKey(PairKey(r[i].fieldA, r[i].fieldB))
              && 0.0 <= r[i].confidence <= 1.0
              && r[i].quality == QualityOf(r[i].confidence)
              && r[i].sampleCount == 0
  {
    if keys != [] {
      var k := keys[0];
      assert k in keys;
      FixedKeySplits(k);
      SampleCountAlwaysZero(ms, k);
      EnhancedMappingsSpec(t, keys[1..], ms);
      var r := EnhancedMappings(t, keys, ms);
      var parts := Split(k, Arrow);
      assert r[0].fieldA == parts[0] && r[0].fieldB == parts[1];
      assert r[1..] == EnhancedMappings(t, keys[1..], ms);
    }
  }

  /** One mapping per key, in key order, named after the key, with confidence
      `min(1.0, total / len(card_matches))` of that key's total. */
  lemma {:induction false} EnhancedMappingsContents(t: Totals, keys: seq<string>, ms: seq<SmartMatch>)
    requires forall k :: k in keys ==> k in t.sums && IsFixedKey(k)
    ensures var r := EnhancedMappings(t, keys, ms);
            && |r| == |keys|
            && forall i :: 0 <= i < |r| ==>
                 PairKey(r[i].fieldA, r[i].fieldB) == keys[i]
                 && r[i].confidence == MappingConfidence(TotalOf(t, keys[i]), |ms|)
    decreases |keys|
  {
    if keys != [] {
      var k := keys[0];
      assert k in keys;
      FixedKeySplits(k);
      EnhancedMappingsContents(t, keys[1..], ms);
      var r := EnhancedMappings(t, keys, ms);
      assert r[1..] == EnhancedMappings(t, keys[1..], ms);
      forall i | 0 <= i < |r|
        ensures PairKey(r[i].fieldA, r[i].fieldB) == keys[i]
        ensures r[i].confidence == MappingConfidence(TotalOf(t, keys[i]), |ms|)
      {
        if i > 0 {
          assert keys[i] == keys[1..][i - 1];
          assert r[i] == r[1..][i - 1];
        }
      }
    }
  }

  /** The mappings list the credited keys in first-credit order; each mapping is named
      after its key and has confidence `min(1.0, total_sim / len(card_matches))`, where
      total_sim sums every similarity credited to the key over the kept matches; and
      every key with a positive total has a mapping. */
  lemma MappingsOfContents(ms: seq<SmartMatch>)
    ensures var t := CreditMatches(Totals([], map[]), ms);
            var maps := MappingsOf(ms);
            && |maps| == |t.order|
            && (forall i :: 0 <= i < |maps| ==>
                  PairKey(maps[i].fieldA, maps[i].fieldB) == t.order[i]
                  && maps[i].confidence == MappingConfidence(SimForAll(ms, t.order[i]), |ms|))
            && (forall key :: SimForAll(ms, key) > 0 ==> key in t.order)
  {
    var t0 := Totals([], map[]);
    var t := CreditMatches(t0, ms);
    CreditMatchesFixed(t0, ms);
    forall key
      ensures Consistent(t) && TotalOf(t, key) == SimForAll(ms, key)
    {
      CreditMatchesSpec(t0, ms, key);
    }
    EnhancedMappingsContents(t, t.order, ms);
    assert MappingsOf(ms) == EnhancedMappings(t, t.order, ms);
  }
}
