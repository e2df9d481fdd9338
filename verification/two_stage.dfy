/** The two-stage matcher. Stage 1 classifies headers into name/id/date key
    fields by keyword, normalises their values per type, and keeps every row pair
    whose weighted agreement score reaches the cut-off. Stage 2 learns field
    mappings as exact-agreement ratios over those pairs. Scores are integer tenths:
    name 5, id 4, date 1, cut-off 8. */
module TwoStage {
  import opened Chars
  import opened Strings
  import opened Seqs
  import opened Sorting
  import opened Pairing
  import opened Wrappers
  import opened Rows
  import opened Sets

  datatype FieldType = Name | Id | Date | Other

  /** The key types in the order of the `key_patterns` dict and of the scoring loop. */
  const KeyTypes: seq<FieldType> := [Name, Id, Date]

  function CoreKeywords(t: FieldType): seq<string> {
    match t
    case Name => ["name", "名前", "カード名", "商品名", "title", "product"]
    case Id => ["id", "serial", "型番", "code", "number", "jan", "sku"]
    case Date => ["date", "日付", "発売日", "release", "publish", "launch"]
    case Other => []
  }

  /** Score weights in tenths. */
  function Weight(t: FieldType): nat {
    match t
    case Name => 5
    case Id => 4
    case Date => 1
    case Other => 0
  }

  /** `score >= 0.8`, in tenths. */
  const Cutoff: nat := 8

  // ---------------------------------------------------------------------------
  // identify_key_fields

  /** The keyword test of a `key_patterns` table; the classification loops are
      stated for any such test. */
  type HeaderTest = (string, FieldType) -> bool

  /** `any(pattern in header.lower() for pattern in patterns)` with this module's table. */
  predicate CoreHeaderTest(header: string, t: FieldType) {
    AnyContains(Lower(header), CoreKeywords(t))
  }

  /** Only the three key types are ever tried. */
  predicate IsKeyField(kw: HeaderTest, header: string, t: FieldType) {
    t != Other && kw(header, t)
  }

  /** One side of `key_fields`: a type is present only once some header landed under it. */
  type KeyMap = map<FieldType, seq<string>>

  datatype KeyFields = KeyFields(a: KeyMap, b: KeyMap)

  /** `key_fields[side].get(key_type, [])`. */
  function FieldsOf(m: KeyMap, t: FieldType): seq<string> {
    if t in m then m[t] else []
  }

  /** The inner loop of `identify_key_fields` over the key types, for one header. */
  function AddHeader(kw: HeaderTest, m: KeyMap, h: string, types: seq<FieldType>): KeyMap
    decreases |types|
  {
    if types == [] then m
    else
      var t := types[0];
      AddHeader(kw, if IsKeyField(kw, h, t) then m[t := FieldsOf(m, t) + [h]] else m, h, types[1..])
  }

  /** The outer loop of `identify_key_fields` over one side's headers. */
  function ClassifyHeaders(kw: HeaderTest, m: KeyMap, headers: seq<string>): KeyMap
    decreases |headers|
  {
    if headers == [] then m else ClassifyHeaders(kw, AddHeader(kw, m, headers[0], KeyTypes), headers[1..])
  }

  function IdentifyWith(kw: HeaderTest, headersA: seq<string>, headersB: seq<string>): KeyFields {
    KeyFields(ClassifyHeaders(kw, map[], headersA), ClassifyHeaders(kw, map[], headersB))
  }

  /** `identify_key_fields` with this module's keyword table. */
  function IdentifyKeyFields(headersA: seq<string>, headersB: seq<string>): KeyFields {
    IdentifyWith(CoreHeaderTest, headersA, headersB)
  }

  /** Reference definition: the headers of type `t`, in header order. */
  function HeadersOfType(kw: HeaderTest, headers: seq<string>, t: FieldType): (r: seq<string>)
    ensures |r| <= |headers|
    decreases |headers|
  {
    if headers == [] then []
    else (if IsKeyField(kw, headers[0], t) then [headers[0]] else []) + HeadersOfType(kw, headers[1..], t)
  }

  lemma {:induction false} AddHeaderEffect(kw: HeaderTest, m: KeyMap, h: string, types: seq<FieldType>, t: FieldType)
    requires Distinct(types)
    ensures FieldsOf(AddHeader(kw, m, h, types), t)
         == FieldsOf(m, t) + (if t in types && IsKeyField(kw, h, t) then [h] else [])
    ensures t in AddHeader(kw, m, h, types) <==> t in m || (t in types && IsKeyField(kw, h, t))
    decreases |types|
  {
    if types != [] {
      var t0 := types[0];
      var m' := if IsKeyField(kw, h, t0) then m[t0 := FieldsOf(m, t0) + [h]] else m;
      assert Distinct(types[1..]);
      AddHeaderEffect(kw, m', h, types[1..], t);
      if t == t0 {
        assert t !in types[1..];
      }
    }
  }

  lemma ClassifyHeadersEffect(kw: HeaderTest, m: KeyMap, headers: seq<string>, t: FieldType)
    ensures FieldsOf(ClassifyHeaders(kw, m, headers), t) == FieldsOf(m, t) + HeadersOfType(kw, headers, t)
    ensures t in ClassifyHeaders(kw, m, headers) <==> t in m || HeadersOfType(kw, headers, t) != []
  {
    ClassifyHeadersFields(kw, m, headers, t);
    ClassifyHeadersKeys(kw, m, headers, t);
  }

  lemma {:induction false} ClassifyHeadersFields(kw: HeaderTest, m: KeyMap, headers: seq<string>, t: FieldType)
    ensures FieldsOf(ClassifyHeaders(kw, m, headers), t) == FieldsOf(m, t) + HeadersOfType(kw, headers, t)
    decreases |headers|
  {
    if headers != [] {
      var h := headers[0];
      var here := if IsKeyField(kw, h, t) then [h] else [];
      var m' := AddHeader(kw, m, h, KeyTypes);
      var rest := HeadersOfType(kw, headers[1..], t);
      ClassifyStep(kw, m, h, t);
      ClassifyHeadersFields(kw, m', headers[1..], t);
      assert HeadersOfType(kw, headers, t) == here + rest;
      AppendAssoc(FieldsOf(m, t), here, rest);
    }
  }

  lemma {:induction false} ClassifyHeadersKeys(kw: HeaderTest, m: KeyMap, headers: seq<string>, t: FieldType)
    ensures t in ClassifyHeaders(kw, m, headers) <==> t in m || HeadersOfType(kw, headers, t) != []
    decreases |headers|
  {
    if headers != [] {
      var m' := AddHeader(kw, m, headers[0], KeyTypes);
      ClassifyStep(kw, m, headers[0], t);
      ClassifyHeadersKeys(kw, m', headers[1..], t);
    }
  }

  /** One header, all key types. */
  lemma ClassifyStep(kw: HeaderTest, m: KeyMap, h: string, t: FieldType)
    ensures FieldsOf(AddHeader(kw, m, h, KeyTypes), t) == FieldsOf(m, t) + (if IsKeyField(kw, h, t) then [h] else [])
    ensures t in AddHeader(kw, m, h, KeyTypes) <==> t in m || IsKeyField(kw, h, t)
  {
    assert Distinct(KeyTypes);
    assert t != Other ==> t in KeyTypes;
    AddHeaderEffect(kw, m, h, KeyTypes, t);
  }

  /** Each side lists, per type, exactly the headers whose lower-cased text contains
      one of the type's keywords, in header order; a type is present iff that list is
      non-empty; and one header may land under several types. */
  lemma IdentifyKeyFieldsSpec(kw: HeaderTest, headersA: seq<string>, headersB: seq<string>, t: FieldType)
    ensures var kf := IdentifyWith(kw, headersA, headersB);
            && FieldsOf(kf.a, t) == HeadersOfType(kw, headersA, t)
            && FieldsOf(kf.b, t) == HeadersOfType(kw, headersB, t)
            && (t in kf.a <==> HeadersOfType(kw, headersA, t) != [])
            && (t in kf.b <==> HeadersOfType(kw, headersB, t) != [])
  {
    ClassifyHeadersEffect(kw, map[], headersA, t);
    ClassifyHeadersEffect(kw, map[], headersB, t);
  }

  /** "serial_date" contains both "serial" and "date", so it is an id and a date field. */
  lemma HeaderUnderTwoTypes()
    ensures IsKeyField(CoreHeaderTest, "serial_date", Id) && IsKeyField(CoreHeaderTest, "serial_date", Date)
  {
    assert Lower("serial_date") == "serial_date";
    assert CoreKeywords(Id)[1] == "serial" && CoreKeywords(Date)[0] == "date";
    assert IsPrefixOf("serial", "serial_date");
    assert Contains("serial_date", CoreKeywords(Id)[1]);
    assert IsPrefixOf("date", "date");
    assert Contains("serial_date"[7..], "date");
    assert Contains("serial_date", CoreKeywords(Date)[0]);
  }

  /** The table includes "product", "sku" and "launch". */
  lemma CoreKeywordsExtended()
    ensures "product" in CoreKeywords(Name) && "sku" in CoreKeywords(Id) && "launch" in CoreKeywords(Date)
  {
    assert CoreKeywords(Name)[5] == "product" && CoreKeywords(Id)[6] == "sku" && CoreKeywords(Date)[5] == "launch";
  }

  // ---------------------------------------------------------------------------
  // normalize_value

  /** `value.replace('＆', '&').replace('　', ' ')`. */
  function FoldSymbols(v: string): string {
    ReplaceChar(ReplaceChar(v, FullWidthAmpersand, '&'), IdeographicSpace, ' ')
  }

  /** `str(value).strip().replace('\ufeff', '')`. */
  function Prepare(value: string): string {
    RemoveChar(Strip(value), Bom)
  }

  /** A digit-only `/`-separated triple. */
  predicate IsSlashTriple(v: string) {
    var parts := Split(v, '/');
    '/' in v && |parts| == 3 && AllDigits(parts[0]) && AllDigits(parts[1]) && AllDigits(parts[2])
  }

  /** The `'date'` branch: a slash triple becomes year(4) + month(2) + day(2); any
      other value loses its '-', '/' and ' '. */
  function NormalizeDate(v: string): string {
    if IsSlashTriple(v) then
      var parts := Split(v, '/');
      ZFill(parts[0], 4) + ZFill(parts[1], 2) + ZFill(parts[2], 2)
    else
      RemoveChar(RemoveChar(RemoveChar(v, '-'), '/'), ' ')
  }

  /** The per-type branch of `normalize_value`, on the prepared value. */
  function NormalizeBranch(v: string, t: FieldType): string {
    match t
    case Date => NormalizeDate(v)
    case Name => Strip(Lower(FoldSymbols(v)))
    case Id => RemoveChar(Strip(Upper(v)), ' ')
    case Other => Strip(Lower(v))
  }

  /** `normalize_value(value, field_type)`; a missing cell arrives as "". */
  function NormalizeValue(value: string, t: FieldType): string {
    if value == [] then [] else NormalizeBranch(Prepare(value), t)
  }

  /** Removing a character from a string without it changes nothing. */
  lemma RemoveAbsent(s: string, c: char)
    requires c !in s
    ensures RemoveChar(s, c) == s
  {
  }

  /** A stripped, BOM-free value is its own preparation. */
  lemma PrepareFixed(v: string)
    requires IsStripped(v) && Bom !in v
    ensures Prepare(v) == v
  {
    StripFacts(v);
    RemoveAbsent(v, Bom);
  }

  lemma NormalizePrepared(v: string, t: FieldType)
    requires v != [] && IsStripped(v) && Bom !in v
    ensures NormalizeValue(v, t) == NormalizeBranch(v, t)
  {
    PrepareFixed(v);
  }

  /** A slash date of digit strings with nothing around it becomes the zero-padded
      concatenation; there is no calendar check. */
  lemma NormalizeSlashDate(y: string, m: string, d: string)
    requires AllDigits(y) && AllDigits(m) && AllDigits(d)
    ensures NormalizeValue(y + "/" + m + "/" + d, Date) == ZFill(y, 4) + ZFill(m, 2) + ZFill(d, 2)
  {
    var s := y + "/" + m + "/" + d;
    assert '/' !in y && '/' !in m && '/' !in d;
    assert s == y + ['/'] + m + ['/'] + d;
    SplitThree(y, m, d, '/');
    assert s[|y|] == '/';
    SlashDatePrepared(y, m, d);
    DateOfTriple(s, y, m, d);
    NormalizePrepared(s, Date);
  }

  /** A slash date of digit strings has no surrounding space and no BOM. */
  lemma SlashDatePrepared(y: string, m: string, d: string)
    requires AllDigits(y) && AllDigits(m) && AllDigits(d)
    ensures var s := y + "/" + m + "/" + d; IsStripped(s) && Bom !in s
  {
    var s := y + "/" + m + "/" + d;
    assert s == y + ['/'] + m + ['/'] + d;
    assert forall i :: 0 <= i < |s| ==> s[i] == '/' || IsDigit(s[i]);
    assert s[0] == '/' || IsDigit(s[0]);
    assert s[|s| - 1] == '/' || IsDigit(s[|s| - 1]);
  }

  lemma DateOfTriple(v: string, y: string, m: string, d: string)
    requires '/' in v && Split(v, '/') == [y, m, d]
    requires AllDigits(y) && AllDigits(m) && AllDigits(d)
    ensures NormalizeDate(v) == ZFill(y, 4) + ZFill(m, 2) + ZFill(d, 2)
  {
  }

  /** A four-digit year and a two-digit day stay as they are and a one-digit
      month gains a leading '0', whatever the digits say: 2024/1/24 becomes
      "20240124" and 2024/13/99 passes unchecked as "20241399". */
  lemma NormalizeDateExample(y: string, m: string, d: string)
    requires AllDigits(y) && AllDigits(m) && AllDigits(d) && |y| == 4 && |m| <= 2 && |d| == 2
    ensures NormalizeValue(y + "/" + m + "/" + d, Date) == y + (if |m| == 1 then "0" + m else m) + d
  {
    NormalizeSlashDate(y, m, d);
    ZFillDigits(y, 4);
    ZFillDigits(m, 2);
    ZFillDigits(d, 2);
    assert Zeros(0) + y == y && Zeros(0) + d == d && Zeros(0) + m == m;
    assert Zeros(1) == "0";
  }

  /** Empty input gives "" whatever the type, and a date that is not a slash triple
      keeps no '-', '/' or ' '. */
  lemma NormalizeValueShapes(value: string, t: FieldType)
    ensures NormalizeValue("", t) == ""
    ensures t == Date && value != [] && !IsSlashTriple(Prepare(value)) ==>
              var r := NormalizeValue(value, t);
              '-' !in r && '/' !in r && ' ' !in r
  {
    if t == Date && value != [] {
      var v := Prepare(value);
      RemoveCharKeepsOthers(RemoveChar(v, '-'), '/', '-');
      RemoveCharKeepsOthers(RemoveChar(RemoveChar(v, '-'), '/'), ' ', '-');
      RemoveCharKeepsOthers(RemoveChar(RemoveChar(v, '-'), '/'), ' ', '/');
    }
  }

  /** Lower-casing, upper-casing and the symbol fold never introduce a BOM. */
  lemma CaseNoBom(s: string)
    requires Bom !in s
    ensures Bom !in Lower(s) && Bom !in Upper(s) && Bom !in FoldSymbols(s)
  {
    assert forall i :: 0 <= i < |s| ==> ToLower(s[i]) != Bom && ToUpper(s[i]) != Bom;
  }

  lemma UpperFixed(s: string)
    requires forall i :: 0 <= i < |s| ==> !IsAsciiLower(s[i])
    ensures Upper(s) == s
  {
    forall i | 0 <= i < |s|
      ensures Upper(s)[i] == s[i]
    {
      ToUpperFacts(s[i]);
    }
  }

  /** Deleting ' ' from a stripped string keeps it stripped: the ends are not spaces. */
  lemma {:induction false} RemoveSpacesKeepsStripped(s: string)
    requires IsStripped(s)
    ensures IsStripped(RemoveChar(s, ' '))
  {
    if s != [] {
      var r := RemoveChar(s, ' ');
      assert r == [s[0]] + RemoveChar(s[1..], ' ');
      RemoveCharKeepsLast(s, ' ');
    }
  }

  /** What the name branch leaves: stripped, BOM-free, no ASCII capital, no '＆',
      no ideographic space. */
  predicate NameShaped(r: string) {
    IsStripped(r) && Bom !in r
    && forall i :: 0 <= i < |r| ==> !IsAsciiUpper(r[i]) && r[i] != FullWidthAmpersand && r[i] != IdeographicSpace
  }

  lemma NameBranchShape(v: string)
    requires Bom !in v
    ensures NameShaped(NormalizeBranch(v, Name))
  {
    var low := Lower(FoldSymbols(v));
    var r := Strip(low);
    CaseNoBom(v);
    CaseNoBom(FoldSymbols(v));
    StripChars(low);
    StripFacts(low);
    forall i | 0 <= i < |r|
      ensures !IsAsciiUpper(r[i]) && r[i] != FullWidthAmpersand && r[i] != IdeographicSpace
    {
      assert r[i] in low;
      var k :| 0 <= k < |low| && low[k] == r[i];
      ToLowerFacts(FoldSymbols(v)[k]);
    }
  }

  lemma NameBranchFixed(r: string)
    requires NameShaped(r)
    ensures NormalizeBranch(r, Name) == r
  {
    assert FoldSymbols(r) == r;
    LowerFixed(r);
    StripFacts(r);
  }

  /** The name, id and other branches are idempotent: normalising a normalised
      value changes nothing. */
  lemma NormalizeNameIdempotent(value: string)
    ensures NormalizeValue(NormalizeValue(value, Name), Name) == NormalizeValue(value, Name)
  {
    if value != [] {
      var r := NormalizeBranch(Prepare(value), Name);
      NameBranchShape(Prepare(value));
      if r != [] {
        NormalizePrepared(r, Name);
        NameBranchFixed(r);
      }
    }
  }

  /** What the id branch leaves: stripped, BOM-free, no ASCII lower-case letter, no ' '. */
  predicate IdShaped(r: string) {
    IsStripped(r) && Bom !in r && ' ' !in r
    && forall i :: 0 <= i < |r| ==> !IsAsciiLower(r[i])
  }

  lemma IdBranchShape(v: string)
    requires Bom !in v
    ensures IdShaped(NormalizeBranch(v, Id))
  {
    var up := Strip(Upper(v));
    var r := RemoveChar(up, ' ');
    CaseNoBom(v);
    StripFacts(Upper(v));
    StripChars(Upper(v));
    RemoveSpacesKeepsStripped(up);
    forall i | 0 <= i < |r|
      ensures !IsAsciiLower(r[i])
    {
      assert r[i] in up;
      assert r[i] in Upper(v);
      var k :| 0 <= k < |Upper(v)| && Upper(v)[k] == r[i];
      ToUpperFacts(v[k]);
    }
  }

  lemma IdBranchFixed(r: string)
    requires IdShaped(r)
    ensures NormalizeBranch(r, Id) == r
  {
    UpperFixed(r);
    StripFacts(r);
    RemoveAbsent(r, ' ');
  }

  lemma NormalizeIdIdempotent(value: string)
    ensures NormalizeValue(NormalizeValue(value, Id), Id) == NormalizeValue(value, Id)
  {
    if value != [] {
      var r := NormalizeBranch(Prepare(value), Id);
      IdBranchShape(Prepare(value));
      if r != [] {
        NormalizePrepared(r, Id);
        IdBranchFixed(r);
      }
    }
  }

  /** What the fallback branch leaves: stripped, BOM-free, no ASCII capital. */
  predicate OtherShaped(r: string) {
    IsStripped(r) && Bom !in r && forall i :: 0 <= i < |r| ==> !IsAsciiUpper(r[i])
  }

  lemma OtherBranchShape(v: string)
    requires Bom !in v
    ensures OtherShaped(NormalizeBranch(v, Other))
  {
    var r := Strip(Lower(v));
    CaseNoBom(v);
    StripChars(Lower(v));
    StripFacts(Lower(v));
    forall i | 0 <= i < |r|
      ensures !IsAsciiUpper(r[i])
    {
      assert r[i] in Lower(v);
      var k :| 0 <= k < |Lower(v)| && Lower(v)[k] == r[i];
      ToLowerFacts(v[k]);
    }
  }

  lemma OtherBranchFixed(r: string)
    requires OtherShaped(r)
    ensures NormalizeBranch(r, Other) == r
  {
    LowerFixed(r);
    StripFacts(r);
  }

  lemma NormalizeOtherIdempotent(value: string)
    ensures NormalizeValue(NormalizeValue(value, Other), Other) == NormalizeValue(value, Other)
  {
    if value != [] {
      var r := NormalizeBranch(Prepare(value), Other);
      OtherBranchShape(Prepare(value));
      if r != [] {
        NormalizePrepared(r, Other);
        OtherBranchFixed(r);
      }
    }
  }

  /** The date branch is not idempotent: deleting a leading '-' can expose
      whitespace that the first `strip()` could not see (a tab, say, before a
      plain value), and the second call strips it. */
  lemma NormalizeDateNotIdempotent(w: char, s: string)
    requires IsSpace(w) && w != ' '
    requires s != [] && IsStripped(s) && Bom !in s && '-' !in s && '/' !in s && ' ' !in s
    ensures NormalizeValue("-" + [w] + s, Date) == [w] + s
    ensures NormalizeValue([w] + s, Date) == s
  {
    DashDropped(w, s);
    SpaceDropped(w, s);
  }

  lemma DashDropped(w: char, s: string)
    requires IsSpace(w) && w != ' '
    requires s != [] && IsStripped(s) && Bom !in s && '-' !in s && '/' !in s && ' ' !in s
    ensures NormalizeValue("-" + [w] + s, Date) == [w] + s
  {
    var u := [w] + s;
    var v := "-" + u;
    assert "-" + [w] + s == v;
    DashFirst(u, s);
    SeparatorsGone(v, u);
    PlainDate(v);
  }

  lemma SeparatorsGone(v: string, u: string)
    requires RemoveChar(v, '-') == u && '/' !in u && ' ' !in u
    ensures RemoveChar(RemoveChar(RemoveChar(v, '-'), '/'), ' ') == u
  {
    RemoveAbsent(u, '/');
    RemoveAbsent(u, ' ');
  }

  lemma SpaceDropped(w: char, s: string)
    requires IsSpace(w)
    requires s != [] && IsStripped(s) && Bom !in s && '-' !in s && '/' !in s && ' ' !in s
    ensures NormalizeValue([w] + s, Date) == s
  {
    SpaceFirst(w, s);
    RemoveAbsent(s, Bom);
    PlainDate(s);
    RemoveAbsent(s, '-');
    RemoveAbsent(s, '/');
    RemoveAbsent(s, ' ');
  }

  /** A '-' in front of a string ending like `s`. */
  lemma DashFirst(u: string, s: string)
    requires |u| > |s| > 0 && u[|u| - 1] == s[|s| - 1] && IsStripped(s) && Bom !in u && '-' !in u
    ensures IsStripped("-" + u) && Bom !in "-" + u && RemoveChar("-" + u, '-') == u
  {
    var v := "-" + u;
    assert v == ['-'] + u;
    assert v[|v| - 1] == u[|u| - 1];
    RemoveCharConcat(['-'], u, '-');
    RemoveAbsent(u, '-');
  }

  /** A value without '/' is not a slash triple and only loses its separators. */
  lemma PlainDate(v: string)
    requires v != [] && IsStripped(v) && Bom !in v && '/' !in v
    ensures NormalizeValue(v, Date) == RemoveChar(RemoveChar(RemoveChar(v, '-'), '/'), ' ')
  {
    NormalizePrepared(v, Date);
  }

  /** One whitespace character in front of a stripped string is stripped off. */
  lemma SpaceFirst(w: char, s: string)
    requires IsSpace(w) && s != [] && IsStripped(s)
    ensures Strip([w] + s) == s
  {
    var u := [w] + s;
    assert u[1..] == s;
    TrimStartFacts(s);
    TrimEndFacts(s);
  }

  // ---------------------------------------------------------------------------
  // calculate_match_score / find_identical_cards

  /** One entry of `match_details`. */
  datatype MatchDetail = MatchDetail(keyType: FieldType, fieldA: string, fieldB: string, value: string)

  /** A per-type value normaliser. The scoring loops are stated for any of them;
      the system passes `NormalizeValue`. */
  type Normalizer = (string, FieldType) -> string

  /** `val_a and val_b and val_a == val_b` for one field pair. */
  predicate Agree(norm: Normalizer, a: Row, b: Row, t: FieldType, fa: string, fb: string) {
    var va := norm(Get(a, fa), t);
    var vb := norm(Get(b, fb), t);
    va != [] && vb != [] && va == vb
  }

  /** The B-side field at which the `break` fires for A-side field `fa`, if any. */
  function FirstAgreeing(norm: Normalizer, a: Row, b: Row, t: FieldType, fa: string, fbs: seq<string>): (r: Option<string>)
    ensures r.Some? ==> r.value in fbs && Agree(norm, a, b, t, fa, r.value)
    ensures r.Some? ==> exists j :: 0 <= j < |fbs| && fbs[j] == r.value
                         && forall i :: 0 <= i < j ==> !Agree(norm, a, b, t, fa, fbs[i])
    ensures r.None? <==> forall fb :: fb in fbs ==> !Agree(norm, a, b, t, fa, fb)
    decreases |fbs|
  {
    if fbs == [] then None
    else if Agree(norm, a, b, t, fa, fbs[0]) then Some(fbs[0])
    else FirstAgreeing(norm, a, b, t, fa, fbs[1..])
  }

  /** The detail recorded for A-side field `fa`, if its B-side loop breaks. */
  function FieldDetail(norm: Normalizer, a: Row, b: Row, t: FieldType, fa: string, fbs: seq<string>): seq<MatchDetail> {
    match FirstAgreeing(norm, a, b, t, fa, fbs)
    case Some(fb) => [MatchDetail(t, fa, fb, norm(Get(a, fa), t))]
    case None => []
  }

  /** Reference definition of the details one key type contributes: at most one per
      A-side field, because the `break` leaves only the B-side loop. */
  function TypeDetails(norm: Normalizer, a: Row, b: Row, t: FieldType, fas: seq<string>, fbs: seq<string>): (ds: seq<MatchDetail>)
    ensures |ds| <= |fas|
    decreases |fas|
  {
    if fas == [] then []
    else TypeDetails(norm, a, b, t, fas[..|fas| - 1], fbs) + FieldDetail(norm, a, b, t, fas[|fas| - 1], fbs)
  }

  function DetailsWith(norm: Normalizer, a: Row, b: Row, kf: KeyFields): seq<MatchDetail> {
    TypeDetails(norm, a, b, Name, FieldsOf(kf.a, Name), FieldsOf(kf.b, Name))
    + TypeDetails(norm, a, b, Id, FieldsOf(kf.a, Id), FieldsOf(kf.b, Id))
    + TypeDetails(norm, a, b, Date, FieldsOf(kf.a, Date), FieldsOf(kf.b, Date))
  }

  /** The `matches` list of `calculate_match_score`. */
  function MatchDetails(a: Row, b: Row, kf: KeyFields): seq<MatchDetail> {
    DetailsWith(NormalizeValue, a, b, kf)
  }

  /** Sum of the weights of the recorded details, in tenths. */
  function DetailWeight(ds: seq<MatchDetail>): nat {
    if ds == [] then 0 else Weight(ds[0].keyType) + DetailWeight(ds[1..])
  }

  lemma {:induction false} DetailWeightConcat(x: seq<MatchDetail>, y: seq<MatchDetail>)
    ensures DetailWeight(x + y) == DetailWeight(x) + DetailWeight(y)
  {
    if x == [] {
      assert x + y == y;
    } else {
      assert (x + y)[1..] == x[1..] + y;
      DetailWeightConcat(x[1..], y);
    }
  }

  function ScoreWith(norm: Normalizer, a: Row, b: Row, kf: KeyFields): nat {
    DetailWeight(DetailsWith(norm, a, b, kf))
  }

  /** The `score` of `calculate_match_score`, in tenths. */
  function MatchScore(a: Row, b: Row, kf: KeyFields): nat {
    ScoreWith(NormalizeValue, a, b, kf)
  }

  /** `calculate_match_score` as the source writes it: the three nested loops and the
      `break` that ends only the B-side loop. */
  method CalculateMatchScore(a: Row, b: Row, kf: KeyFields) returns (score: nat, details: seq<MatchDetail>)
    ensures details == MatchDetails(a, b, kf)
    ensures score == DetailWeight(details)
  {
    var n, wn := ScoreType(NormalizeValue, a, b, Name, FieldsOf(kf.a, Name), FieldsOf(kf.b, Name));
    var i, wi := ScoreType(NormalizeValue, a, b, Id, FieldsOf(kf.a, Id), FieldsOf(kf.b, Id));
    var d, wd := ScoreType(NormalizeValue, a, b, Date, FieldsOf(kf.a, Date), FieldsOf(kf.b, Date));
    DetailWeightConcat(n, i);
    DetailWeightConcat(n + i, d);
    details := n + i + d;
    score := wn + wi + wd;
  }

  /** The loops over `fields_a` and `fields_b` for one key type. */
  method ScoreType(norm: Normalizer, a: Row, b: Row, t: FieldType, fas: seq<string>, fbs: seq<string>)
    returns (ds: seq<MatchDetail>, w: nat)
    ensures ds == TypeDetails(norm, a, b, t, fas, fbs)
    ensures w == DetailWeight(ds)
  {
    ds, w := [], 0;
    var i := 0;
    while i < |fas|
      invariant 0 <= i <= |fas|
      invariant ds == TypeDetails(norm, a, b, t, fas[..i], fbs)
      invariant w == DetailWeight(ds)
    {
      var fa := fas[i];
      var here := ScanB(norm, a, b, t, fa, fbs);
      TypeDetailsSnoc(norm, a, b, t, fas, fbs, i);
      DetailWeightConcat(ds, here);
      w := w + DetailWeight(here);
      ds := ds + here;
      i := i + 1;
    }
    assert fas[..|fas|] == fas;
  }

  lemma TypeDetailsSnoc(norm: Normalizer, a: Row, b: Row, t: FieldType, fas: seq<string>, fbs: seq<string>, i: nat)
    requires i < |fas|
    ensures TypeDetails(norm, a, b, t, fas[..i + 1], fbs)
         == TypeDetails(norm, a, b, t, fas[..i], fbs) + FieldDetail(norm, a, b, t, fas[i], fbs)
  {
    assert fas[..i + 1][..i] == fas[..i];
  }

  /** The B-side loop with its `break`, for one A-side field. */
  method ScanB(norm: Normalizer, a: Row, b: Row, t: FieldType, fa: string, fbs: seq<string>)
    returns (here: seq<MatchDetail>)
    ensures here == FieldDetail(norm, a, b, t, fa, fbs)
  {
    var j := 0;
    while j < |fbs|
      invariant 0 <= j <= |fbs|
      invariant FirstAgreeing(norm, a, b, t, fa, fbs) == FirstAgreeing(norm, a, b, t, fa, fbs[j..])
    {
      var fb := fbs[j];
      var va := norm(Get(a, fa), t);
      var vb := norm(Get(b, fb), t);
      if va != [] && vb != [] && va == vb {
        return [MatchDetail(t, fa, fb, va)];
      }
      assert fbs[j..][1..] == fbs[j + 1..];
      j := j + 1;
    }
    return [];
  }

  /** With one key field per type on each side, the score is the weighted sum of the
      three agreements, and the 0.8 cut-off is reached iff both name and id agree:
      name alone (0.5) or name and date (0.6) fall short, name and id (0.9) pass.
      Stated for any normaliser; `MatchScore` is the `NormalizeValue` instance. */
  lemma SingleKeyFieldScore(norm: Normalizer, a: Row, b: Row, kf: KeyFields, na: string, nb: string, ia: string, ib: string, da: string, db: string)
    requires FieldsOf(kf.a, Name) == [na] && FieldsOf(kf.b, Name) == [nb]
    requires FieldsOf(kf.a, Id) == [ia] && FieldsOf(kf.b, Id) == [ib]
    requires FieldsOf(kf.a, Date) == [da] && FieldsOf(kf.b, Date) == [db]
    ensures ScoreWith(norm, a, b, kf) == (if Agree(norm, a, b, Name, na, nb) then 5 else 0)
                                       + (if Agree(norm, a, b, Id, ia, ib) then 4 else 0)
                                       + (if Agree(norm, a, b, Date, da, db) then 1 else 0)
    ensures ScoreWith(norm, a, b, kf) >= Cutoff <==> Agree(norm, a, b, Name, na, nb) && Agree(norm, a, b, Id, ia, ib)
  {
    SingleKeyFieldSum(norm, a, b, kf, na, nb, ia, ib, da, db);
  }

  lemma SingleKeyFieldSum(norm: Normalizer, a: Row, b: Row, kf: KeyFields, na: string, nb: string, ia: string, ib: string, da: string, db: string)
    requires FieldsOf(kf.a, Name) == [na] && FieldsOf(kf.b, Name) == [nb]
    requires FieldsOf(kf.a, Id) == [ia] && FieldsOf(kf.b, Id) == [ib]
    requires FieldsOf(kf.a, Date) == [da] && FieldsOf(kf.b, Date) == [db]
    ensures ScoreWith(norm, a, b, kf) == (if Agree(norm, a, b, Name, na, nb) then 5 else 0)
                                       + (if Agree(norm, a, b, Id, ia, ib) then 4 else 0)
                                       + (if Agree(norm, a, b, Date, da, db) then 1 else 0)
  {
    var n := TypeDetails(norm, a, b, Name, [na], [nb]);
    var i := TypeDetails(norm, a, b, Id, [ia], [ib]);
    var d := TypeDetails(norm, a, b, Date, [da], [db]);
    SingleFieldWeight(norm, a, b, Name, na, nb);
    SingleFieldWeight(norm, a, b, Id, ia, ib);
    SingleFieldWeight(norm, a, b, Date, da, db);
    DetailWeightConcat(n, i);
    DetailWeightConcat(n + i, d);
    assert DetailsWith(norm, a, b, kf) == n + i + d;
  }

  /** One field on each side contributes the type's weight exactly when they agree. */
  lemma SingleFieldWeight(norm: Normalizer, a: Row, b: Row, t: FieldType, fa: string, fb: string)
    ensures DetailWeight(TypeDetails(norm, a, b, t, [fa], [fb])) == if Agree(norm, a, b, t, fa, fb) then Weight(t) else 0
  {
    assert [fa][..0] == [] && [fb][1..] == [];
    var x := FieldDetail(norm, a, b, t, fa, [fb]);
    assert TypeDetails(norm, a, b, t, [fa], [fb]) == [] + x;
  }

  /** Two A-side name fields that both agree with the one B-side name field each add
      0.5, so a name-only agreement reaches the cut-off: the `break` does not make a
      type count once. */
  lemma TwoNameFieldsReachCutoff(norm: Normalizer, a: Row, b: Row, kf: KeyFields, n1: string, n2: string, nb: string)
    requires FieldsOf(kf.a, Name) == [n1, n2] && FieldsOf(kf.b, Name) == [nb]
    requires FieldsOf(kf.a, Id) == [] && FieldsOf(kf.a, Date) == []
    requires Agree(norm, a, b, Name, n1, nb) && Agree(norm, a, b, Name, n2, nb)
    ensures ScoreWith(norm, a, b, kf) == 10 && ScoreWith(norm, a, b, kf) >= Cutoff
  {
    var y := FieldDetail(norm, a, b, Name, n2, [nb]);
    var n1s := TypeDetails(norm, a, b, Name, [n1], [nb]);
    SingleFieldWeight(norm, a, b, Name, n1, nb);
    assert [n1, n2][..1] == [n1];
    var n := TypeDetails(norm, a, b, Name, [n1, n2], [nb]);
    assert n == n1s + y;
    assert [nb][1..] == [];
    assert y == [MatchDetail(Name, n2, nb, norm(Get(a, n2), Name))];
    DetailWeightConcat(n1s, y);
    assert DetailsWith(norm, a, b, kf) == n + [] + [];
    assert n + [] + [] == n;
  }

  /** One row of `identical_pairs`. */
  datatype IdenticalPair = IdenticalPair(cardA: Row, cardB: Row, score: nat, details: seq<MatchDetail>)

  /** `score >= 0.8` for rows `i` of A and `j` of B. */
  predicate IsIdentical(dataA: seq<Row>, dataB: seq<Row>, kf: KeyFields, i: nat, j: nat) {
    i < |dataA| && j < |dataB| && MatchScore(dataA[i], dataB[j], kf) >= Cutoff
  }

  /** The index pairs `find_identical_cards` keeps, in its A-major scan order. */
  function IdenticalIndices(dataA: seq<Row>, dataB: seq<Row>, kf: KeyFields): seq<(nat, nat)> {
    CrossPairs(|dataA|, |dataB|, (i: nat, j: nat) => IsIdentical(dataA, dataB, kf, i, j))
  }

  function FindIdenticalCards(dataA: seq<Row>, dataB: seq<Row>, kf: KeyFields): (r: seq<IdenticalPair>)
    ensures |r| == |IdenticalIndices(dataA, dataB, kf)|
  {
    var idx := IdenticalIndices(dataA, dataB, kf);
    seq(|idx|, k requires 0 <= k < |idx| =>
      var i := idx[k].0;
      var j := idx[k].1;
      IdenticalPair(dataA[i], dataB[j], MatchScore(dataA[i], dataB[j], kf), MatchDetails(dataA[i], dataB[j], kf)))
  }

  /** Every kept pair scored at least 0.8, every such pair is kept, the pairs come in
      A-major order, and nothing makes them one-to-one. */
  lemma FindIdenticalCardsSpec(dataA: seq<Row>, dataB: seq<Row>, kf: KeyFields)
    ensures var idx := IdenticalIndices(dataA, dataB, kf);
            var r := FindIdenticalCards(dataA, dataB, kf);
            && ScanOrdered(idx)
            && (forall k :: 0 <= k < |r| ==>
                  && idx[k].0 < |dataA| && idx[k].1 < |dataB|
                  && r[k].cardA == dataA[idx[k].0] && r[k].cardB == dataB[idx[k].1]
                  && r[k].score == MatchScore(r[k].cardA, r[k].cardB, kf) >= Cutoff
                  && r[k].details == MatchDetails(r[k].cardA, r[k].cardB, kf))
            && (forall i: nat, j: nat :: IsIdentical(dataA, dataB, kf, i, j) ==> (i, j) in idx)
  {
  }

  /** Nothing makes the pairs one-to-one: an A row identical to a B row that occurs
      twice is paired with both copies. */
  lemma NoOneToOneReduction(a: Row, b: Row, kf: KeyFields)
    requires MatchScore(a, b, kf) >= Cutoff
    ensures var p := IdenticalPair(a, b, MatchScore(a, b, kf), MatchDetails(a, b, kf));
            FindIdenticalCards([a], [b, b], kf) == [p, p]
  {
    TwoCopiesIndices(a, b, kf);
    var r := FindIdenticalCards([a], [b, b], kf);
    assert r[0] == r[1];
  }

  lemma TwoCopiesIndices(a: Row, b: Row, kf: KeyFields)
    requires MatchScore(a, b, kf) >= Cutoff
    ensures IdenticalIndices([a], [b, b], kf) == [(0, 0), (0, 1)]
  {
    var keep := (i: nat, j: nat) => IsIdentical([a], [b, b], kf, i, j);
    assert keep(0, 0) && keep(0, 1);
    BothKept(keep);
  }

  /** One row against two, both pairs kept: the scan lists both. */
  lemma BothKept(keep: (nat, nat) -> bool)
    requires keep(0, 0) && keep(0, 1)
    ensures CrossPairs(1, 2, keep) == [(0, 0), (0, 1)]
  {
    assert CrossPairs(1, 2, keep) == CrossPairs(0, 2, keep) + RowPairs(0, 2, keep);
    assert RowPairs(0, 2, keep) == RowPairs(0, 1, keep) + [(0, 1)];
    assert RowPairs(0, 1, keep) == RowPairs(0, 0, keep) + [(0, 0)];
  }

  // ---------------------------------------------------------------------------
  // analyze_field_mappings_from_pairs / normalize_for_comparison

  /** `normalize_for_comparison`: slash triples are zero-padded as dates, everything
      else gets the name fold. */
  function NormalizeForComparison(value: string): string {
    if value == [] then []
    else
      var v := Prepare(value);
      if IsSlashTriple(v) then NormalizeDate(v) else NormalizeBranch(v, Name)
  }

  /** It agrees with the date branch of `normalize_value` on slash triples, and with
      the name branch on everything else; and it is idempotent on the name side. */
  lemma NormalizeForComparisonBranches(value: string)
    ensures value != [] && IsSlashTriple(Prepare(value)) ==> NormalizeForComparison(value) == NormalizeValue(value, Date)
    ensures !(value != [] && IsSlashTriple(Prepare(value))) ==> NormalizeForComparison(value) == NormalizeValue(value, Name)
  {
  }

  /** One entry of `sample_values`. */
  datatype Sample = Sample(originalA: string, originalB: string, normalized: string)

  /** One entry of `field_match_stats`. */
  datatype Stats = Stats(exactMatches: nat, totalComparisons: nat, samples: seq<Sample>)

  /** `field_match_stats`: a defaultdict, so its keys keep first-insertion order. */
  datatype Table = Table(order: seq<string>, stats: map<string, Stats>)

  const MaxSamples: nat := 3

  predicate ValidStats(s: Stats) {
    s.exactMatches <= s.totalComparisons && s.totalComparisons >= 1
    && |s.samples| <= MaxSamples && |s.samples| <= s.exactMatches
  }

  /** The table invariant: insertion order lists each key once, and every entry has
      at least one comparison, no more agreements than comparisons, and at most
      three samples. */
  ghost predicate ValidTable(t: Table) {
    && Distinct(t.order)
    && (forall k :: k in t.stats <==> k in t.order)
    && (forall k :: k in t.stats ==> ValidStats(t.stats[k]))
  }

  function Lookup(t: Table, k: string): Stats {
    if k in t.stats then t.stats[k] else Stats(0, 0, [])
  }

  function TotalOf(t: Table, k: string): nat {
    Lookup(t, k).totalComparisons
  }

  function ExactOf(t: Table, k: string): nat {
    Lookup(t, k).exactMatches
  }

  /** A comparison normaliser; the system passes `NormalizeForComparison`. */
  type Comparer = string -> string

  /** `if val_a and val_b` and the normalised values are equal. */
  predicate ValuesAgree(cmp: Comparer, va: string, vb: string) {
    va != [] && vb != [] && cmp(va) == cmp(vb)
  }

  /** One comparison recorded in a key's entry; a sample is kept while fewer than three are. */
  function Bump(s: Stats, agree: bool, sample: Sample): (r: Stats)
    ensures r.totalComparisons == s.totalComparisons + 1
    ensures r.exactMatches == s.exactMatches + (if agree then 1 else 0)
    ensures |s.samples| <= |r.samples| <= |s.samples| + 1
    ensures |r.samples| <= MaxSamples || r.samples == s.samples
  {
    Stats(s.exactMatches + (if agree then 1 else 0), s.totalComparisons + 1,
          if agree && |s.samples| < MaxSamples then s.samples + [sample] else s.samples)
  }

  /** The body of the innermost loop for one (pair, field_a, field_b), given the
      pair key and the two stripped values. */
  function Tally(cmp: Comparer, t: Table, key: string, va: string, vb: string): Table {
    var s := Bump(Lookup(t, key), ValuesAgree(cmp, va, vb), Sample(va, vb, cmp(va)));
    Table(if key in t.stats then t.order else t.order + [key], t.stats[key := s])
  }

  lemma TallyValid(cmp: Comparer, t: Table, key: string, va: string, vb: string)
    requires ValidTable(t)
    ensures ValidTable(Tally(cmp, t, key, va, vb))
  {
    var r := Tally(cmp, t, key, va, vb);
    if key !in t.stats {
      assert key !in t.order;
      forall i, j | 0 <= i < j < |r.order|
        ensures r.order[i] != r.order[j]
      {
        if j == |t.order| {
          assert r.order[i] == t.order[i];
        }
      }
    }
  }

  lemma TallyCounts(cmp: Comparer, t: Table, key: string, va: string, vb: string, k: string)
    ensures var r := Tally(cmp, t, key, va, vb);
            && TotalOf(r, k) == TotalOf(t, k) + (if k == key then 1 else 0)
            && ExactOf(r, k) == ExactOf(t, k) + (if k == key && ValuesAgree(cmp, va, vb) then 1 else 0)
            && (k in r.stats <==> k in t.stats || k == key)
  {
  }

  /** `str(row.get(field, '')).strip()`. */
  function Cell(row: Row, field: string): string {
    Strip(Get(row, field))
  }

  function TallyFields(cmp: Comparer, t: Table, a: Row, b: Row, fa: string, hb: seq<string>): Table
    decreases |hb|
  {
    if hb == [] then t else TallyFields(cmp, Tally(cmp, t, PairKey(fa, hb[0]), Cell(a, fa), Cell(b, hb[0])), a, b, fa, hb[1..])
  }

  function TallyPair(cmp: Comparer, t: Table, a: Row, b: Row, ha: seq<string>, hb: seq<string>): Table
    decreases |ha|
  {
    if ha == [] then t else TallyPair(cmp, TallyFields(cmp, t, a, b, ha[0], hb), a, b, ha[1..], hb)
  }

  /** The loop over `identical_pairs`, each pair comparing every `field_a` with every `field_b`. */
  function TallyPairs(cmp: Comparer, t: Table, pairs: seq<IdenticalPair>, ha: seq<string>, hb: seq<string>): Table
    decreases |pairs|
  {
    if pairs == [] then t else TallyPairs(cmp, TallyPair(cmp, t, pairs[0].cardA, pairs[0].cardB, ha, hb), pairs[1..], ha, hb)
  }

  /** Reference counts: how many (field_a, field_b) combinations produce key `k`, and
      how many (pair, field_a, field_b) combinations with key `k` agree. */
  function KeyCount(fa: string, hb: seq<string>, k: string): nat {
    if hb == [] then 0 else (if PairKey(fa, hb[0]) == k then 1 else 0) + KeyCount(fa, hb[1..], k)
  }

  function Multiplicity(ha: seq<string>, hb: seq<string>, k: string): nat {
    if ha == [] then 0 else KeyCount(ha[0], hb, k) + Multiplicity(ha[1..], hb, k)
  }

  function AgreeFields(cmp: Comparer, a: Row, b: Row, fa: string, hb: seq<string>, k: string): nat {
    if hb == [] then 0
    else (if PairKey(fa, hb[0]) == k && ValuesAgree(cmp, Cell(a, fa), Cell(b, hb[0])) then 1 else 0)
         + AgreeFields(cmp, a, b, fa, hb[1..], k)
  }

  function AgreePair(cmp: Comparer, a: Row, b: Row, ha: seq<string>, hb: seq<string>, k: string): nat {
    if ha == [] then 0 else AgreeFields(cmp, a, b, ha[0], hb, k) + AgreePair(cmp, a, b, ha[1..], hb, k)
  }

  function AgreeCount(cmp: Comparer, pairs: seq<IdenticalPair>, ha: seq<string>, hb: seq<string>, k: string): nat {
    if pairs == [] then 0
    else AgreePair(cmp, pairs[0].cardA, pairs[0].cardB, ha, hb, k) + AgreeCount(cmp, pairs[1..], ha, hb, k)
  }

  /** Keys that come from some header combination. */
  ghost predicate KeysFrom(t: Table, ha: seq<string>, hb: seq<string>) {
    forall k :: k in t.stats ==> exists fa, fb :: fa in ha && fb in hb && k == PairKey(fa, fb)
  }

  lemma {:induction false} TallyFieldsValid(cmp: Comparer, t: Table, a: Row, b: Row, fa: string, hb: seq<string>)
    requires ValidTable(t)
    ensures ValidTable(TallyFields(cmp, t, a, b, fa, hb))
    decreases |hb|
  {
    if hb != [] {
      var t' := Tally(cmp, t, PairKey(fa, hb[0]), Cell(a, fa), Cell(b, hb[0]));
      TallyValid(cmp, t, PairKey(fa, hb[0]), Cell(a, fa), Cell(b, hb[0]));
      TallyFieldsValid(cmp, t', a, b, fa, hb[1..]);
    }
  }

  lemma {:induction false} TallyFieldsCounts(cmp: Comparer, t: Table, a: Row, b: Row, fa: string, hb: seq<string>, k: string)
    ensures TotalOf(TallyFields(cmp, t, a, b, fa, hb), k) == TotalOf(t, k) + KeyCount(fa, hb, k)
    ensures ExactOf(TallyFields(cmp, t, a, b, fa, hb), k) == ExactOf(t, k) + AgreeFields(cmp, a, b, fa, hb, k)
    decreases |hb|
  {
    if hb != [] {
      var t' := Tally(cmp, t, PairKey(fa, hb[0]), Cell(a, fa), Cell(b, hb[0]));
      TallyCounts(cmp, t, PairKey(fa, hb[0]), Cell(a, fa), Cell(b, hb[0]), k);
      TallyFieldsCounts(cmp, t', a, b, fa, hb[1..], k);
    }
  }

  lemma {:induction false} TallyFieldsKeys(cmp: Comparer, t: Table, a: Row, b: Row, fa: string, hb: seq<string>, ha0: seq<string>, hb0: seq<string>)
    requires fa in ha0 && (forall fb :: fb in hb ==> fb in hb0) && KeysFrom(t, ha0, hb0)
    ensures KeysFrom(TallyFields(cmp, t, a, b, fa, hb), ha0, hb0)
    decreases |hb|
  {
    if hb != [] {
      var t' := Tally(cmp, t, PairKey(fa, hb[0]), Cell(a, fa), Cell(b, hb[0]));
      forall k | k in t'.stats
        ensures exists fa', fb' :: fa' in ha0 && fb' in hb0 && k == PairKey(fa', fb')
      {
        TallyCounts(cmp, t, PairKey(fa, hb[0]), Cell(a, fa), Cell(b, hb[0]), k);
        if k == PairKey(fa, hb[0]) {
          assert hb[0] in hb0;
        }
      }
      TallyFieldsKeys(cmp, t', a, b, fa, hb[1..], ha0, hb0);
    }
  }

  lemma {:induction false} TallyPairValid(cmp: Comparer, t: Table, a: Row, b: Row, ha: seq<string>, hb: seq<string>)
    requires ValidTable(t)
    ensures ValidTable(TallyPair(cmp, t, a, b, ha, hb))
    decreases |ha|
  {
    if ha != [] {
      TallyFieldsValid(cmp, t, a, b, ha[0], hb);
      TallyPairValid(cmp, TallyFields(cmp, t, a, b, ha[0], hb), a, b, ha[1..], hb);
    }
  }

  lemma {:induction false} TallyPairCounts(cmp: Comparer, t: Table, a: Row, b: Row, ha: seq<string>, hb: seq<string>, k: string)
    ensures TotalOf(TallyPair(cmp, t, a, b, ha, hb), k) == TotalOf(t, k) + Multiplicity(ha, hb, k)
    ensures ExactOf(TallyPair(cmp, t, a, b, ha, hb), k) == ExactOf(t, k) + AgreePair(cmp, a, b, ha, hb, k)
    decreases |ha|
  {
    if ha != [] {
      TallyFieldsCounts(cmp, t, a, b, ha[0], hb, k);
      TallyPairCounts(cmp, TallyFields(cmp, t, a, b, ha[0], hb), a, b, ha[1..], hb, k);
    }
  }

  lemma {:induction false} TallyPairKeys(cmp: Comparer, t: Table, a: Row, b: Row, ha: seq<string>, hb: seq<string>, ha0: seq<string>)
    requires (forall fa :: fa in ha ==> fa in ha0) && KeysFrom(t, ha0, hb)
    ensures KeysFrom(TallyPair(cmp, t, a, b, ha, hb), ha0, hb)
    decreases |ha|
  {
    if ha != [] {
      TallyFieldsKeys(cmp, t, a, b, ha[0], hb, ha0, hb);
      assert forall fa :: fa in ha[1..] ==> fa in ha;
      TallyPairKeys(cmp, TallyFields(cmp, t, a, b, ha[0], hb), a, b, ha[1..], hb, ha0);
    }
  }

  lemma {:induction false} TallyPairsValid(cmp: Comparer, t: Table, pairs: seq<IdenticalPair>, ha: seq<string>, hb: seq<string>)
    requires ValidTable(t)
    ensures ValidTable(TallyPairs(cmp, t, pairs, ha, hb))
    decreases |pairs|
  {
    if pairs != [] {
      TallyPairValid(cmp, t, pairs[0].cardA, pairs[0].cardB, ha, hb);
      TallyPairsValid(cmp, TallyPair(cmp, t, pairs[0].cardA, pairs[0].cardB, ha, hb), pairs[1..], ha, hb);
    }
  }

  lemma ProductStep(n: nat, m: nat)
    ensures (n + 1) * m == m + n * m
  {
  }

  lemma {:induction false} TallyPairsCounts(cmp: Comparer, t: Table, pairs: seq<IdenticalPair>, ha: seq<string>, hb: seq<string>, k: string)
    ensures TotalOf(TallyPairs(cmp, t, pairs, ha, hb), k) == TotalOf(t, k) + |pairs| * Multiplicity(ha, hb, k)
    ensures ExactOf(TallyPairs(cmp, t, pairs, ha, hb), k) == ExactOf(t, k) + AgreeCount(cmp, pairs, ha, hb, k)
    decreases |pairs|
  {
    if pairs != [] {
      var m := Multiplicity(ha, hb, k);
      var p, rest := pairs[0], pairs[1..];
      var t1 := TallyPair(cmp, t, p.cardA, p.cardB, ha, hb);
      assert TallyPairs(cmp, t, pairs, ha, hb) == TallyPairs(cmp, t1, rest, ha, hb);
      TallyPairCounts(cmp, t, p.cardA, p.cardB, ha, hb, k);
      TallyPairsCounts(cmp, t1, rest, ha, hb, k);
      ProductStep(|rest|, m);
    }
  }

  lemma {:induction false} TallyPairsKeys(cmp: Comparer, t: Table, pairs: seq<IdenticalPair>, ha: seq<string>, hb: seq<string>)
    requires KeysFrom(t, ha, hb)
    ensures KeysFrom(TallyPairs(cmp, t, pairs, ha, hb), ha, hb)
    decreases |pairs|
  {
    if pairs != [] {
      TallyPairKeys(cmp, t, pairs[0].cardA, pairs[0].cardB, ha, hb, ha);
      TallyPairsKeys(cmp, TallyPair(cmp, t, pairs[0].cardA, pairs[0].cardB, ha, hb), pairs[1..], ha, hb);
    }
  }

  /** Reference samples: the agreeing comparisons of one (pair, field_a) that hit key
      `k`, as `sample_values` entries, in loop order. */
  function KeySamplesFields(cmp: Comparer, a: Row, b: Row, fa: string, hb: seq<string>, k: string): seq<Sample>
    decreases |hb|
  {
    if hb == [] then []
    else
      (if PairKey(fa, hb[0]) == k && ValuesAgree(cmp, Cell(a, fa), Cell(b, hb[0]))
       then [Sample(Cell(a, fa), Cell(b, hb[0]), cmp(Cell(a, fa)))] else [])
      + KeySamplesFields(cmp, a, b, fa, hb[1..], k)
  }

  function KeySamplesPair(cmp: Comparer, a: Row, b: Row, ha: seq<string>, hb: seq<string>, k: string): seq<Sample>
    decreases |ha|
  {
    if ha == [] then [] else KeySamplesFields(cmp, a, b, ha[0], hb, k) + KeySamplesPair(cmp, a, b, ha[1..], hb, k)
  }

  /** Every agreeing comparison for key `k` over all pairs, in loop order. */
  function KeySamples(cmp: Comparer, pairs: seq<IdenticalPair>, ha: seq<string>, hb: seq<string>, k: string): seq<Sample>
    decreases |pairs|
  {
    if pairs == [] then []
    else KeySamplesPair(cmp, pairs[0].cardA, pairs[0].cardB, ha, hb, k) + KeySamples(cmp, pairs[1..], ha, hb, k)
  }

  /** One comparison appends its sample to key `k`'s list exactly when it hits `k`,
      agrees and finds fewer than three samples there. */
  lemma TallySamples(cmp: Comparer, t: Table, key: string, va: string, vb: string, k: string)
    requires |Lookup(t, k).samples| <= MaxSamples
    ensures Lookup(Tally(cmp, t, key, va, vb), k).samples
         == Take(Lookup(t, k).samples + (if k == key && ValuesAgree(cmp, va, vb) then [Sample(va, vb, cmp(va))] else []), MaxSamples)
  {
    var s := Lookup(t, k).samples;
    if !(k == key && ValuesAgree(cmp, va, vb)) {
      assert s + [] == s;
    }
  }

  lemma {:induction false} TallyFieldsSamples(cmp: Comparer, t: Table, a: Row, b: Row, fa: string, hb: seq<string>, k: string)
    requires |Lookup(t, k).samples| <= MaxSamples
    ensures Lookup(TallyFields(cmp, t, a, b, fa, hb), k).samples
         == Take(Lookup(t, k).samples + KeySamplesFields(cmp, a, b, fa, hb, k), MaxSamples)
    decreases |hb|
  {
    var s := Lookup(t, k).samples;
    if hb == [] {
      assert s + [] == s;
    } else {
      var key, va, vb := PairKey(fa, hb[0]), Cell(a, fa), Cell(b, hb[0]);
      var x := if k == key && ValuesAgree(cmp, va, vb) then [Sample(va, vb, cmp(va))] else [];
      var y := KeySamplesFields(cmp, a, b, fa, hb[1..], k);
      var t' := Tally(cmp, t, key, va, vb);
      TallySamples(cmp, t, key, va, vb, k);
      TallyFieldsSamples(cmp, t', a, b, fa, hb[1..], k);
      TakeTakeAppend(s + x, y, MaxSamples);
      AppendAssoc(s, x, y);
    }
  }

  lemma {:induction false} TallyPairSamples(cmp: Comparer, t: Table, a: Row, b: Row, ha: seq<string>, hb: seq<string>, k: string)
    requires |Lookup(t, k).samples| <= MaxSamples
    ensures Lookup(TallyPair(cmp, t, a, b, ha, hb), k).samples
         == Take(Lookup(t, k).samples + KeySamplesPair(cmp, a, b, ha, hb, k), MaxSamples)
    decreases |ha|
  {
    var s := Lookup(t, k).samples;
    if ha == [] {
      assert s + [] == s;
    } else {
      var x := KeySamplesFields(cmp, a, b, ha[0], hb, k);
      var y := KeySamplesPair(cmp, a, b, ha[1..], hb, k);
      var t' := TallyFields(cmp, t, a, b, ha[0], hb);
      TallyFieldsSamples(cmp, t, a, b, ha[0], hb, k);
      TallyPairSamples(cmp, t', a, b, ha[1..], hb, k);
      TakeTakeAppend(s + x, y, MaxSamples);
      AppendAssoc(s, x, y);
    }
  }

  lemma {:induction false} TallyPairsSamples(cmp: Comparer, t: Table, pairs: seq<IdenticalPair>, ha: seq<string>, hb: seq<string>, k: string)
    requires |Lookup(t, k).samples| <= MaxSamples
    ensures Lookup(TallyPairs(cmp, t, pairs, ha, hb), k).samples
         == Take(Lookup(t, k).samples + KeySamples(cmp, pairs, ha, hb, k), MaxSamples)
    decreases |pairs|
  {
    var s := Lookup(t, k).samples;
    if pairs == [] {
      assert s + [] == s;
    } else {
      var p := pairs[0];
      var x := KeySamplesPair(cmp, p.cardA, p.cardB, ha, hb, k);
      var y := KeySamples(cmp, pairs[1..], ha, hb, k);
      var t' := TallyPair(cmp, t, p.cardA, p.cardB, ha, hb);
      TallyPairSamples(cmp, t, p.cardA, p.cardB, ha, hb, k);
      TallyPairsSamples(cmp, t', pairs[1..], ha, hb, k);
      TakeTakeAppend(s + x, y, MaxSamples);
      AppendAssoc(s, x, y);
    }
  }

  /** Reference key order: the pair key of every comparison, in loop order. */
  function FieldKeys(fa: string, hb: seq<string>): seq<string>
    decreases |hb|
  {
    if hb == [] then [] else [PairKey(fa, hb[0])] + FieldKeys(fa, hb[1..])
  }

  function ComboKeys(ha: seq<string>, hb: seq<string>): seq<string>
    decreases |ha|
  {
    if ha == [] then [] else FieldKeys(ha[0], hb) + ComboKeys(ha[1..], hb)
  }

  function ScanKeys(pairs: seq<IdenticalPair>, ha: seq<string>, hb: seq<string>): seq<string>
    decreases |pairs|
  {
    if pairs == [] then [] else ComboKeys(ha, hb) + ScanKeys(pairs[1..], ha, hb)
  }

  lemma {:induction false} FieldKeysSpec(fa: string, hb: seq<string>, k: string)
    ensures k in FieldKeys(fa, hb) <==> exists fb :: fb in hb && k == PairKey(fa, fb)
    decreases |hb|
  {
    if hb != [] {
      FieldKeysSpec(fa, hb[1..], k);
      assert hb == [hb[0]] + hb[1..];
      if k in FieldKeys(fa, hb[1..]) {
        var fb :| fb in hb[1..] && k == PairKey(fa, fb);
        assert fb in hb;
      }
    }
  }

  /** The keys met are exactly the joined header combinations. */
  lemma {:induction false} ComboKeysSpec(ha: seq<string>, hb: seq<string>, k: string)
    ensures k in ComboKeys(ha, hb) <==> exists fa, fb :: fa in ha && fb in hb && k == PairKey(fa, fb)
    decreases |ha|
  {
    if ha != [] {
      FieldKeysSpec(ha[0], hb, k);
      ComboKeysSpec(ha[1..], hb, k);
      assert ha == [ha[0]] + ha[1..];
      if k in ComboKeys(ha[1..], hb) {
        var fa, fb :| fa in ha[1..] && fb in hb && k == PairKey(fa, fb);
        assert fa in ha;
      }
    }
  }

  lemma {:induction false} ScanKeysIn(pairs: seq<IdenticalPair>, ha: seq<string>, hb: seq<string>)
    ensures forall k :: k in ScanKeys(pairs, ha, hb) ==> k in ComboKeys(ha, hb)
    decreases |pairs|
  {
    if pairs != [] {
      ScanKeysIn(pairs[1..], ha, hb);
    }
  }

  /** The table's insertion order is the Dedupe of the keys seen so far. */
  ghost predicate OrderedBy(t: Table, seen: seq<string>) {
    t.order == Dedupe(seen) && forall k :: k in t.stats <==> k in t.order
  }

  lemma TallyOrder(cmp: Comparer, t: Table, key: string, va: string, vb: string, seen: seq<string>)
    requires OrderedBy(t, seen)
    ensures OrderedBy(Tally(cmp, t, key, va, vb), seen + [key])
  {
    DedupeSnoc(seen, key);
  }

  lemma {:induction false} TallyFieldsOrder(cmp: Comparer, t: Table, a: Row, b: Row, fa: string, hb: seq<string>, seen: seq<string>)
    requires OrderedBy(t, seen)
    ensures OrderedBy(TallyFields(cmp, t, a, b, fa, hb), seen + FieldKeys(fa, hb))
    decreases |hb|
  {
    if hb == [] {
      assert seen + [] == seen;
    } else {
      var key := PairKey(fa, hb[0]);
      TallyOrder(cmp, t, key, Cell(a, fa), Cell(b, hb[0]), seen);
      TallyFieldsOrder(cmp, Tally(cmp, t, key, Cell(a, fa), Cell(b, hb[0])), a, b, fa, hb[1..], seen + [key]);
      AppendAssoc(seen, [key], FieldKeys(fa, hb[1..]));
    }
  }

  lemma {:induction false} TallyPairOrder(cmp: Comparer, t: Table, a: Row, b: Row, ha: seq<string>, hb: seq<string>, seen: seq<string>)
    requires OrderedBy(t, seen)
    ensures OrderedBy(TallyPair(cmp, t, a, b, ha, hb), seen + ComboKeys(ha, hb))
    decreases |ha|
  {
    if ha == [] {
      assert seen + [] == seen;
    } else {
      var x := FieldKeys(ha[0], hb);
      TallyFieldsOrder(cmp, t, a, b, ha[0], hb, seen);
      TallyPairOrder(cmp, TallyFields(cmp, t, a, b, ha[0], hb), a, b, ha[1..], hb, seen + x);
      AppendAssoc(seen, x, ComboKeys(ha[1..], hb));
    }
  }

  lemma {:induction false} TallyPairsOrder(cmp: Comparer, t: Table, pairs: seq<IdenticalPair>, ha: seq<string>, hb: seq<string>, seen: seq<string>)
    requires OrderedBy(t, seen)
    ensures OrderedBy(TallyPairs(cmp, t, pairs, ha, hb), seen + ScanKeys(pairs, ha, hb))
    decreases |pairs|
  {
    if pairs == [] {
      assert seen + [] == seen;
    } else {
      var p := pairs[0];
      var x := ComboKeys(ha, hb);
      TallyPairOrder(cmp, t, p.cardA, p.cardB, ha, hb, seen);
      TallyPairsOrder(cmp, TallyPair(cmp, t, p.cardA, p.cardB, ha, hb), pairs[1..], ha, hb, seen + x);
      AppendAssoc(seen, x, ScanKeys(pairs[1..], ha, hb));
    }
  }

  datatype QualityTag = High | Medium

  /** One entry of `field_mappings`. */
  datatype FieldMapping = FieldMapping(fieldA: string, fieldB: string, confidence: real, sampleCount: nat,
                                       totalComparisons: nat, quality: QualityTag, samples: seq<Sample>)

  function MappingConfidence(m: FieldMapping): real {
    m.confidence
  }

  /** `.replace('\ufeff', '').strip()` on a split-off field name. */
  function CleanFieldName(f: string): string {
    Strip(RemoveChar(f, Bom))
  }

  /** What every produced mapping satisfies. */
  predicate WellFormedMapping(m: FieldMapping) {
    && 0.5 <= m.confidence <= 1.0
    && (m.quality == High <==> m.confidence > 0.8)
    && m.sampleCount <= m.totalComparisons
    && |m.samples| <= MaxSamples
  }

  /** The second loop: keys in insertion order, confidence = exact/total, kept iff
      >= 0.5, then `field_a, field_b = field_pair.split('→')`, which raises unless
      the key splits into exactly two parts. */
  function CollectMappings(t: Table, keys: seq<string>): (r: Result<seq<FieldMapping>, PyError>)
    requires forall k :: k in keys ==> k in t.stats && ValidStats(t.stats[k])
    ensures r.Success? ==> forall i :: 0 <= i < |r.value| ==> WellFormedMapping(r.value[i])
    ensures r.Success? ==> |r.value| <= |keys|
  {
    if keys == [] then Success([])
    else
      var k := keys[0];
      assert k in keys;
      var s := t.stats[k];
      assert ValidStats(s);
      var conf := (s.exactMatches as real) / (s.totalComparisons as real);
      if conf >= 0.5 then
        var parts := Split(k, Arrow);
        if |parts| != 2 then Failure(UnpackMismatch(k))
        else
          var rest := CollectMappings(t, keys[1..]);
          if rest.Failure? then rest
          else
            RatioFacts(s.exactMatches, s.totalComparisons);
            var m := FieldMapping(CleanFieldName(parts[0]), CleanFieldName(parts[1]), conf,
                                  s.exactMatches, s.totalComparisons,
                                  if conf > 0.8 then High else Medium, s.samples);
            Success([m] + rest.value)
      else CollectMappings(t, keys[1..])
  }

  /** `field_match_stats` after the loop over `identical_pairs`. */
  function FieldMappingTable(pairs: seq<IdenticalPair>, ha: seq<string>, hb: seq<string>): Table {
    TallyPairs(NormalizeForComparison, Table([], map[]), pairs, ha, hb)
  }

  lemma FieldMappingTableValid(pairs: seq<IdenticalPair>, ha: seq<string>, hb: seq<string>)
    ensures ValidTable(FieldMappingTable(pairs, ha, hb))
    ensures KeysFrom(FieldMappingTable(pairs, ha, hb), ha, hb)
  {
    TallyPairsValid(NormalizeForComparison, Table([], map[]), pairs, ha, hb);
    TallyPairsKeys(NormalizeForComparison, Table([], map[]), pairs, ha, hb);
  }

  /** `analyze_field_mappings_from_pairs`. */
  function AnalyzeFieldMappings(pairs: seq<IdenticalPair>, ha: seq<string>, hb: seq<string>): Result<seq<FieldMapping>, PyError> {
    var t := FieldMappingTable(pairs, ha, hb);
    FieldMappingTableValid(pairs, ha, hb);
    var collected := CollectMappings(t, t.order);
    if collected.Failure? then collected else Success(SortDesc(collected.value, MappingConfidence))
  }

  /** Every comparison is counted, agreements only for non-empty values equal after
      `normalize_for_comparison`: a key's total is the pair count times the number
      of header combinations yielding it, and its agreements are counted exactly. */
  lemma FieldMappingCounts(pairs: seq<IdenticalPair>, ha: seq<string>, hb: seq<string>, k: string)
    ensures var t := FieldMappingTable(pairs, ha, hb);
            && TotalOf(t, k) == |pairs| * Multiplicity(ha, hb, k)
            && ExactOf(t, k) == AgreeCount(NormalizeForComparison, pairs, ha, hb, k)
            && ExactOf(t, k) <= TotalOf(t, k)
            && (k in t.stats <==> k in t.order)
  {
    TallyPairsCounts(NormalizeForComparison, Table([], map[]), pairs, ha, hb, k);
    FieldMappingTableValid(pairs, ha, hb);
  }

  /** The output: the analysis raises exactly when some kept key does not re-split
      into two names, and then on such a key; otherwise it holds one mapping per kept
      key, each well formed (confidence in [0.5, 1], 'High' exactly above 0.8, so 0.8
      is 'Medium', at most three samples), sorted by confidence descending; no pairs
      give no mappings. */
  lemma AnalyzeFieldMappingsSpec(pairs: seq<IdenticalPair>, ha: seq<string>, hb: seq<string>)
    ensures var r := AnalyzeFieldMappings(pairs, ha, hb);
            var t := FieldMappingTable(pairs, ha, hb);
            && (r.Success? <==> forall k :: k in t.order && KeptKey(t, k) ==> Splits(k))
            && (r.Failure? ==> exists k :: k in t.order && KeptKey(t, k) && !Splits(k) && r.error == UnpackMismatch(k))
            && (r.Success? ==> SortedDesc(r.value, MappingConfidence))
            && (r.Success? ==> multiset(r.value) == multiset(KeptMappings(t, Filter(t.order, KeptIn(t)))))
            && (r.Success? ==> forall i :: 0 <= i < |r.value| ==> WellFormedMapping(r.value[i]))
            && (pairs == [] ==> r == Success([]))
  {
    var t := FieldMappingTable(pairs, ha, hb);
    FieldMappingTableValid(pairs, ha, hb);
    CollectMappingsSpec(t, t.order);
    var c := CollectMappings(t, t.order);
    if c.Failure? {
      var i :| 0 <= i < |t.order| && KeptKey(t, t.order[i]) && !Splits(t.order[i]) && c.error == UnpackMismatch(t.order[i]);
    } else {
      var s := SortDesc(c.value, MappingConfidence);
      forall i | 0 <= i < |s|
        ensures WellFormedMapping(s[i])
      {
        assert s[i] in multiset(c.value);
        var j :| 0 <= j < |c.value| && c.value[j] == s[i];
      }
    }
  }

  /** What the mapping of a table key says, in terms of the reference counts and
      samples: totals over every pair and header combination yielding the key, the
      agreeing comparisons, their ratio, the first three agreeing samples, and the
      two names cleaned of BOM and surrounding whitespace. A key is kept exactly
      when at least half its comparisons agree. */
  lemma MappingContents(pairs: seq<IdenticalPair>, ha: seq<string>, hb: seq<string>, k: string)
    requires k in FieldMappingTable(pairs, ha, hb).order && Splits(k)
    ensures var t := FieldMappingTable(pairs, ha, hb);
            k in t.stats && t.stats[k].totalComparisons == |pairs| * Multiplicity(ha, hb, k) > 0
    ensures var t := FieldMappingTable(pairs, ha, hb);
            var m := MappingOf(t, k);
            var total := |pairs| * Multiplicity(ha, hb, k);
            var agree := AgreeCount(NormalizeForComparison, pairs, ha, hb, k);
            && m.fieldA == CleanFieldName(Split(k, Arrow)[0]) && m.fieldB == CleanFieldName(Split(k, Arrow)[1])
            && m.sampleCount == agree && m.totalComparisons == total
            && m.confidence == (agree as real) / (total as real)
            && (m.quality == High <==> m.confidence > 0.8)
            && m.samples == Take(KeySamples(NormalizeForComparison, pairs, ha, hb, k), MaxSamples)
            && (KeptKey(t, k) <==> m.confidence >= 0.5)
  {
    var t := FieldMappingTable(pairs, ha, hb);
    FieldMappingTableValid(pairs, ha, hb);
    FieldMappingCounts(pairs, ha, hb, k);
    FieldMappingSamples(pairs, ha, hb, k);
    assert ValidStats(t.stats[k]);
  }

  /** With no '→' in any header every key re-splits into two parts, so nothing raises. */
  lemma NoArrowNoFailure(pairs: seq<IdenticalPair>, ha: seq<string>, hb: seq<string>)
    requires forall h :: h in ha || h in hb ==> Arrow !in h
    ensures AnalyzeFieldMappings(pairs, ha, hb).Success?
  {
    var t := FieldMappingTable(pairs, ha, hb);
    FieldMappingTableValid(pairs, ha, hb);
    forall k | k in t.order
      ensures |Split(k, Arrow)| == 2
    {
      var fa, fb :| fa in ha && fb in hb && k == PairKey(fa, fb);
      PairKeySplit(fa, fb);
    }
    CollectSucceeds(t, t.order);
  }

  /** The first kept key, in insertion order, that does not re-split into two parts
      makes the whole analysis raise. */
  lemma CollectFailsOnArrowKey(t: Table, k: string)
    requires k in t.stats && ValidStats(t.stats[k]) && |Split(k, Arrow)| != 2
    requires (t.stats[k].exactMatches as real) / (t.stats[k].totalComparisons as real) >= 0.5
    ensures CollectMappings(t, [k]) == Failure(UnpackMismatch(k))
  {
  }

  /** `confidence >= 0.5` for a key of the table. */
  predicate KeptKey(t: Table, k: string) {
    && k in t.stats && t.stats[k].totalComparisons > 0
    && (t.stats[k].exactMatches as real) / (t.stats[k].totalComparisons as real) >= 0.5
  }

  function KeptIn(t: Table): string -> bool {
    k => KeptKey(t, k)
  }

  /** `field_pair.split('→')` yields exactly two names. */
  predicate Splits(k: string) {
    |Split(k, Arrow)| == 2
  }

  /** Reference definition of the mapping one kept key yields. */
  function MappingOf(t: Table, k: string): FieldMapping
    requires k in t.stats && t.stats[k].totalComparisons > 0 && Splits(k)
  {
    var s := t.stats[k];
    var parts := Split(k, Arrow);
    var conf := (s.exactMatches as real) / (s.totalComparisons as real);
    FieldMapping(CleanFieldName(parts[0]), CleanFieldName(parts[1]), conf, s.exactMatches, s.totalComparisons,
                 if conf > 0.8 then High else Medium, s.samples)
  }

  /** The mappings of a list of keys, in that order. */
  function KeptMappings(t: Table, ks: seq<string>): seq<FieldMapping>
    requires forall i :: 0 <= i < |ks| ==> ks[i] in t.stats && t.stats[ks[i]].totalComparisons > 0 && Splits(ks[i])
    decreases |ks|
  {
    if ks == [] then [] else [MappingOf(t, ks[0])] + KeptMappings(t, ks[1..])
  }

  /** The second loop raises exactly when a kept key does not split, and then on the
      first such key; otherwise it yields, in key order, the mapping of each kept key
      and nothing for the others. */
  lemma CollectMappingsSpec(t: Table, keys: seq<string>)
    requires forall k :: k in keys ==> k in t.stats && ValidStats(t.stats[k])
    ensures CollectMappings(t, keys).Success? <==> forall k :: k in keys && KeptKey(t, k) ==> Splits(k)
    ensures CollectMappings(t, keys).Failure? ==>
              exists i :: 0 <= i < |keys| && KeptKey(t, keys[i]) && !Splits(keys[i])
                          && CollectMappings(t, keys).error == UnpackMismatch(keys[i])
                          && forall j :: 0 <= j < i && KeptKey(t, keys[j]) ==> Splits(keys[j])
    ensures CollectMappings(t, keys).Success? ==>
              CollectMappings(t, keys).value == KeptMappings(t, Filter(keys, KeptIn(t)))
  {
    CollectSucceeds(t, keys);
    if CollectMappings(t, keys).Failure? {
      CollectFailsFirst(t, keys);
    } else {
      CollectValue(t, keys);
    }
  }

  lemma {:induction false} CollectSucceeds(t: Table, keys: seq<string>)
    requires forall k :: k in keys ==> k in t.stats && ValidStats(t.stats[k])
    ensures CollectMappings(t, keys).Success? <==> forall k :: k in keys && KeptKey(t, k) ==> Splits(k)
    decreases |keys|
  {
    if keys != [] {
      var k, rest := keys[0], keys[1..];
      assert k in keys;
      assert forall x :: x in keys <==> x == k || x in rest;
      assert ValidStats(t.stats[k]);
      CollectSucceeds(t, rest);
    }
  }

  lemma {:induction false} CollectFailsFirst(t: Table, keys: seq<string>)
    requires forall k :: k in keys ==> k in t.stats && ValidStats(t.stats[k])
    requires CollectMappings(t, keys).Failure?
    ensures exists i :: 0 <= i < |keys| && KeptKey(t, keys[i]) && !Splits(keys[i])
                        && CollectMappings(t, keys).error == UnpackMismatch(keys[i])
                        && forall j :: 0 <= j < i && KeptKey(t, keys[j]) ==> Splits(keys[j])
    decreases |keys|
  {
    var k, rest := keys[0], keys[1..];
    assert k in keys;
    assert forall x :: x in rest ==> x in keys;
    assert ValidStats(t.stats[k]);
    if !(KeptKey(t, k) && !Splits(k)) {
      var rr := CollectMappings(t, rest);
      assert rr.Failure? && CollectMappings(t, keys).error == rr.error;
      CollectFailsFirst(t, rest);
      var i :| 0 <= i < |rest| && KeptKey(t, rest[i]) && !Splits(rest[i]) && rr.error == UnpackMismatch(rest[i])
               && forall j :: 0 <= j < i && KeptKey(t, rest[j]) ==> Splits(rest[j]);
      assert keys[i + 1] == rest[i];
      forall j | 0 <= j < i + 1 && KeptKey(t, keys[j])
        ensures Splits(keys[j])
      {
        if j > 0 {
          assert keys[j] == rest[j - 1];
        }
      }
    }
  }

  lemma {:induction false} CollectValue(t: Table, keys: seq<string>)
    requires forall k :: k in keys ==> k in t.stats && ValidStats(t.stats[k])
    requires forall k :: k in keys && KeptKey(t, k) ==> Splits(k)
    ensures CollectMappings(t, keys).Success?
    ensures CollectMappings(t, keys).value == KeptMappings(t, Filter(keys, KeptIn(t)))
    decreases |keys|
  {
    if keys != [] {
      var k, rest := keys[0], keys[1..];
      assert k in keys;
      assert forall x :: x in rest ==> x in keys;
      assert ValidStats(t.stats[k]);
      CollectValue(t, rest);
      assert Filter(keys, KeptIn(t)) == (if KeptKey(t, k) then [k] else []) + Filter(rest, KeptIn(t));
      if KeptKey(t, k) {
        assert CollectMappings(t, keys).value == [MappingOf(t, k)] + CollectMappings(t, rest).value;
      } else {
        assert [] + Filter(rest, KeptIn(t)) == Filter(rest, KeptIn(t));
      }
    }
  }

  /** Each key's samples are the first three agreeing comparisons of that key. */
  lemma FieldMappingSamples(pairs: seq<IdenticalPair>, ha: seq<string>, hb: seq<string>, k: string)
    ensures Lookup(FieldMappingTable(pairs, ha, hb), k).samples
         == Take(KeySamples(NormalizeForComparison, pairs, ha, hb, k), MaxSamples)
  {
    var ks := KeySamples(NormalizeForComparison, pairs, ha, hb, k);
    TallyPairsSamples(NormalizeForComparison, Table([], map[]), pairs, ha, hb, k);
    assert [] + ks == ks;
  }

  /** The keys appear in first-comparison order: the Dedupe of every comparison's key,
      which with at least one pair is the Dedupe of the header combinations of the
      first pair; the keys are exactly the joined header combinations. */
  lemma FieldMappingOrder(pairs: seq<IdenticalPair>, ha: seq<string>, hb: seq<string>)
    ensures var t := FieldMappingTable(pairs, ha, hb);
            && t.order == Dedupe(ScanKeys(pairs, ha, hb))
            && (pairs != [] ==> t.order == Dedupe(ComboKeys(ha, hb)))
            && forall k :: k in t.order <==> pairs != [] && exists fa, fb :: fa in ha && fb in hb && k == PairKey(fa, fb)
  {
    var t0 := Table([], map[]);
    var scan := ScanKeys(pairs, ha, hb);
    assert OrderedBy(t0, []);
    TallyPairsOrder(NormalizeForComparison, t0, pairs, ha, hb, []);
    assert [] + scan == scan;
    ScanKeysIn(pairs, ha, hb);
    if pairs != [] {
      ScanKeysIn(pairs[1..], ha, hb);
      DedupeAbsorb(ComboKeys(ha, hb), ScanKeys(pairs[1..], ha, hb));
    }
    forall k
      ensures k in scan <==> pairs != [] && exists fa, fb :: fa in ha && fb in hb && k == PairKey(fa, fb)
    {
      ComboKeysSpec(ha, hb, k);
    }
  }

  /** One pair and one header on each side make one comparison. */
  lemma SinglePairTable(cmp: Comparer, p: IdenticalPair, fa: string, fb: string)
    ensures TallyPairs(cmp, Table([], map[]), [p], [fa], [fb])
         == Tally(cmp, Table([], map[]), PairKey(fa, fb), Cell(p.cardA, fa), Cell(p.cardB, fb))
  {
    var t0 := Table([], map[]);
    var t := Tally(cmp, t0, PairKey(fa, fb), Cell(p.cardA, fa), Cell(p.cardB, fb));
    assert [fa][1..] == [] && [fb][1..] == [] && [p][1..] == [];
    assert TallyFields(cmp, t0, p.cardA, p.cardB, fa, [fb]) == t;
    assert TallyPair(cmp, t0, p.cardA, p.cardB, [fa], [fb]) == t;
  }

  /** A header holding '→' whose column agrees on the only pair raises on unpacking. */
  lemma ArrowHeaderFails(p: IdenticalPair)
    requires Get(p.cardA, "a→b") == "1" && Get(p.cardB, "c") == "1"
    ensures AnalyzeFieldMappings([p], ["a→b"], ["c"]) == Failure(UnpackMismatch("a→b→c"))
  {
    var key := PairKey("a→b", "c");
    assert key == "a→b→c";
    assert Strip("1") == "1";
    SinglePairTable(NormalizeForComparison, p, "a→b", "c");
    var t := FieldMappingTable([p], ["a→b"], ["c"]);
    assert key in t.stats && t.order == [key];
    assert t.stats[key].exactMatches == 1 && t.stats[key].totalComparisons == 1;
    PairKeySplit("a→b", "c");
    assert Arrow in "a→b";
    assert |Split(key, Arrow)| != 2;
    assert ValidStats(t.stats[key]);
    RatioFacts(t.stats[key].exactMatches, t.stats[key].totalComparisons);
    CollectFailsOnArrowKey(t, key);
  }

  // ---------------------------------------------------------------------------
  // two_stage_matching_system / enhanced_two_stage_matching

  function TwoStageMatching(dataA: seq<Row>, dataB: seq<Row>, ha: seq<string>, hb: seq<string>)
    : Result<(seq<IdenticalPair>, seq<FieldMapping>), PyError>
  {
    var kf := IdentifyKeyFields(ha, hb);
    var pairs := FindIdenticalCards(dataA, dataB, kf);
    if pairs == [] then Success(([], []))
    else
      var mappings := AnalyzeFieldMappings(pairs, ha, hb);
      if mappings.Failure? then Failure(mappings.error) else Success((pairs, mappings.value))
  }

  /** Without Stage 1 pairs the system returns two empty lists and never reaches Stage 2. */
  lemma TwoStageNoPairs(dataA: seq<Row>, dataB: seq<Row>, ha: seq<string>, hb: seq<string>)
    requires FindIdenticalCards(dataA, dataB, IdentifyKeyFields(ha, hb)) == []
    ensures TwoStageMatching(dataA, dataB, ha, hb) == Success(([], []))
  {
  }

  /** With no '→' in any header the system succeeds with the Stage 1 pairs and, sorted
      by confidence descending, exactly the mappings of the kept keys of the table those
      pairs produce. */
  lemma TwoStageMatchingSpec(dataA: seq<Row>, dataB: seq<Row>, ha: seq<string>, hb: seq<string>)
    requires forall h :: h in ha || h in hb ==> Arrow !in h
    ensures var pairs := FindIdenticalCards(dataA, dataB, IdentifyKeyFields(ha, hb));
            var t := FieldMappingTable(pairs, ha, hb);
            var r := TwoStageMatching(dataA, dataB, ha, hb);
            && r.Success? && r.value.0 == pairs
            && (forall k :: k in t.order ==> Splits(k))
            && SortedDesc(r.value.1, MappingConfidence)
            && multiset(r.value.1) == multiset(KeptMappings(t, Filter(t.order, KeptIn(t))))
  {
    var pairs := FindIdenticalCards(dataA, dataB, IdentifyKeyFields(ha, hb));
    var t := FieldMappingTable(pairs, ha, hb);
    FieldMappingTableValid(pairs, ha, hb);
    forall k | k in t.order
      ensures Splits(k)
    {
      var fa, fb :| fa in ha && fb in hb && k == PairKey(fa, fb);
      PairKeySplit(fa, fb);
    }
    NoArrowNoFailure(pairs, ha, hb);
    AnalyzeFieldMappingsSpec(pairs, ha, hb);
  }

  /** The `max_sample_size` default. */
  const DefaultMaxSampleSize: nat := 100

  /** The match record of the enhanced-route format. */
  datatype EnhancedMatch = EnhancedMatch(cardA: Row, cardB: Row, overallSimilarity: real, similarityDetails: map<string, real>)

  /** `similarity_details[f"{field_a}→{field_b}"] = 1.0` for each detail. */
  function EvidenceMap(ds: seq<MatchDetail>): (m: map<string, real>)
    ensures forall k :: k in m <==> exists d :: d in ds && k == PairKey(d.fieldA, d.fieldB)
    ensures forall k :: k in m ==> m[k] == 1.0
  {
    if ds == [] then map[]
    else
      var m := EvidenceMap(ds[..|ds| - 1]);
      var last := ds[|ds| - 1];
      assert forall d :: d in ds ==> d in ds[..|ds| - 1] || d == last;
      m[PairKey(last.fieldA, last.fieldB) := 1.0]
  }

  function ToEnhanced(p: IdenticalPair): EnhancedMatch {
    EnhancedMatch(p.cardA, p.cardB, (p.score as real) / 10.0, EvidenceMap(p.details))
  }

  /** `e` is `p` in the enhanced-route format: the same cards, the score as a fraction
      of 1.0, and one evidence entry of value 1.0 for each key field pair of `p`'s
      details and for nothing else. */
  ghost predicate EvidenceOf(e: EnhancedMatch, p: IdenticalPair) {
    && e.cardA == p.cardA && e.cardB == p.cardB
    && e.overallSimilarity * 10.0 == p.score as real
    && (forall key :: key in e.similarityDetails <==>
          exists d :: d in p.details && key == PairKey(d.fieldA, d.fieldB))
    && (forall key :: key in e.similarityDetails ==> e.similarityDetails[key] == 1.0)
  }

  lemma ToEnhancedEvidence(p: IdenticalPair)
    ensures EvidenceOf(ToEnhanced(p), p)
  {
    var m := EvidenceMap(p.details);
    assert ToEnhanced(p).similarityDetails == m;
  }

  /** `enhanced_two_stage_matching`: both inputs cut to `maxSampleSize` rows, then the
      system, then each pair in the enhanced-route format. */
  function EnhancedTwoStageMatching(dataA: seq<Row>, dataB: seq<Row>, ha: seq<string>, hb: seq<string>, maxSampleSize: int)
    : Result<(seq<EnhancedMatch>, seq<FieldMapping>), PyError>
  {
    EnhancedResult(TwoStageMatching(Prefix(dataA, maxSampleSize), Prefix(dataB, maxSampleSize), ha, hb))
  }

  /** A system result with its pairs put in the enhanced-route format. */
  function EnhancedResult<M>(r: Result<(seq<IdenticalPair>, seq<M>), PyError>)
    : Result<(seq<EnhancedMatch>, seq<M>), PyError>
  {
    if r.Failure? then Failure(r.error) else Success((EnhancedPairs(r.value.0), r.value.1))
  }

  lemma EnhancedResultEvidence<M>(r: Result<(seq<IdenticalPair>, seq<M>), PyError>)
    ensures var e := EnhancedResult(r);
            && (e.Success? <==> r.Success?)
            && (e.Failure? ==> e.error == r.error)
            && (e.Success? ==>
                  && |e.value.0| == |r.value.0| && e.value.1 == r.value.1
                  && forall k :: 0 <= k < |e.value.0| ==> EvidenceOf(e.value.0[k], r.value.0[k]))
  {
    if r.Success? {
      EnhancedPairsEvidence(r.value.0);
    }
  }

  /** Each pair in the enhanced-route format, in order. */
  function EnhancedPairs(pairs: seq<IdenticalPair>): (es: seq<EnhancedMatch>)
    ensures |es| == |pairs| && forall k :: 0 <= k < |pairs| ==> es[k] == ToEnhanced(pairs[k])
  {
    seq(|pairs|, k requires 0 <= k < |pairs| => ToEnhanced(pairs[k]))
  }

  /** The wrapper only ever sees the first `maxSampleSize` rows of each side, keeps the
      system's mappings and errors, and turns each pair into its enhanced form. */
  lemma EnhancedTwoStageSpec(dataA: seq<Row>, dataB: seq<Row>, ha: seq<string>, hb: seq<string>, maxSampleSize: int)
    ensures var r := EnhancedTwoStageMatching(dataA, dataB, ha, hb, maxSampleSize);
            var inner := TwoStageMatching(Prefix(dataA, maxSampleSize), Prefix(dataB, maxSampleSize), ha, hb);
            && (r.Success? <==> inner.Success?)
            && (r.Failure? ==> r.error == inner.error)
            && (r.Success? ==>
                  && |r.value.0| == |inner.value.0| && r.value.1 == inner.value.1
                  && forall k :: 0 <= k < |r.value.0| ==> EvidenceOf(r.value.0[k], inner.value.0[k]))
  {
    EnhancedResultEvidence(TwoStageMatching(Prefix(dataA, maxSampleSize), Prefix(dataB, maxSampleSize), ha, hb));
  }

  lemma EnhancedPairsEvidence(pairs: seq<IdenticalPair>)
    ensures var es := EnhancedPairs(pairs);
            forall k :: 0 <= k < |es| ==> EvidenceOf(es[k], pairs[k])
  {
    var es := EnhancedPairs(pairs);
    forall k | 0 <= k < |es|
      ensures EvidenceOf(es[k], pairs[k])
    {
      ToEnhancedEvidence(pairs[k]);
    }
  }
}
