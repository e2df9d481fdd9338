/** The older two-stage matcher. It shares the shape of `TwoStage` but differs in
    four rules: shorter keyword lists, a date normaliser that zero-pads any
    three-part '/' split and keeps spaces, an id normaliser that keeps inner spaces,
    and scoring loops without a `break`, so every agreeing key-field pair adds its
    weight. Stage 2 counts exactly as the newer copy does, keeps field names as
    split, and its samples read the fixed columns 'name' and 'カード名'. */
module LegacyTwoStage {
  import opened Chars
  import opened Strings
  import opened Seqs
  import opened Sorting
  import opened Pairing
  import opened Wrappers
  import opened Rows
  import opened Sets
  import opened TwoStage

  // ---------------------------------------------------------------------------
  // identify_key_fields

  function LegacyKeywords(t: FieldType): seq<string> {
    match t
    case Name => ["name", "名前", "カード名", "商品名", "title"]
    case Id => ["id", "serial", "型番", "code", "number", "jan"]
    case Date => ["date", "日付", "発売日", "release", "publish"]
    case Other => []
  }

  predicate LegacyHeaderTest(header: string, t: FieldType) {
    AnyContains(Lower(header), LegacyKeywords(t))
  }

  function LegacyIdentifyKeyFields(headersA: seq<string>, headersB: seq<string>): KeyFields {
    IdentifyWith(LegacyHeaderTest, headersA, headersB)
  }

  /** Each key type's list is the newer list without its last keyword ('product',
      'sku', 'launch'), so every legacy key field is also a key field of the newer copy. */
  lemma LegacyKeywordsPrefix(t: FieldType, h: string)
    ensures t != Other ==> CoreKeywords(t) == LegacyKeywords(t) + [CoreKeywords(t)[|CoreKeywords(t)| - 1]]
    ensures "product" !in LegacyKeywords(Name) && "sku" !in LegacyKeywords(Id) && "launch" !in LegacyKeywords(Date)
    ensures IsKeyField(LegacyHeaderTest, h, t) ==> IsKeyField(CoreHeaderTest, h, t)
  {
    if IsKeyField(LegacyHeaderTest, h, t) {
      var k :| 0 <= k < |LegacyKeywords(t)| && Contains(Lower(h), LegacyKeywords(t)[k]);
      assert CoreKeywords(t)[k] == LegacyKeywords(t)[k];
    }
  }

  /** Per type, each side lists exactly the headers the legacy keywords pick, in order. */
  lemma LegacyIdentifyKeyFieldsSpec(headersA: seq<string>, headersB: seq<string>, t: FieldType)
    ensures var kf := LegacyIdentifyKeyFields(headersA, headersB);
            && FieldsOf(kf.a, t) == HeadersOfType(LegacyHeaderTest, headersA, t)
            && FieldsOf(kf.b, t) == HeadersOfType(LegacyHeaderTest, headersB, t)
            && (t in kf.a <==> HeadersOfType(LegacyHeaderTest, headersA, t) != [])
  {
    IdentifyKeyFieldsSpec(LegacyHeaderTest, headersA, headersB, t);
  }

  // ---------------------------------------------------------------------------
  // the nested normalize_value

  /** The legacy `'date'` branch: any three-part '/' split is zero-padded, digits
      or not; any other value loses its '-' and '/', but keeps its spaces. */
  function LegacyNormalizeDate(v: string): string {
    var parts := Split(v, '/');
    if '/' in v && |parts| == 3 then ZFill(parts[0], 4) + ZFill(parts[1], 2) + ZFill(parts[2], 2)
    else RemoveChar(RemoveChar(v, '-'), '/')
  }

  function LegacyBranch(v: string, t: FieldType): string {
    match t
    case Date => LegacyNormalizeDate(v)
    case Name => Strip(Lower(FoldSymbols(v)))
    case Id => Strip(Upper(v))
    case Other => Strip(Lower(v))
  }

  function LegacyNormalizeValue(value: string, t: FieldType): string {
    if value == [] then [] else LegacyBranch(Prepare(value), t)
  }

  /** The name and fallback branches are those of the newer copy; a digit-only slash
      triple is padded by both. */
  lemma LegacyNormalizeAgrees(value: string, t: FieldType)
    ensures t == Name || t == Other ==> LegacyNormalizeValue(value, t) == NormalizeValue(value, t)
    ensures t == Date && value != [] && IsSlashTriple(Prepare(value)) ==>
              LegacyNormalizeValue(value, t) == NormalizeValue(value, t)
    ensures LegacyNormalizeValue("", t) == ""
  {
  }

  /** A '/'-joined triple with nothing to strip is its own preparation and splits
      back into its parts. */
  lemma PreparedTriple(y: string, m: string, d: string)
    requires '/' !in y && '/' !in m && '/' !in d && Bom !in y && Bom !in m && Bom !in d
    requires y != [] && d != [] && !IsSpace(y[0]) && !IsSpace(d[|d| - 1])
    ensures var s := y + "/" + m + "/" + d;
            && s != [] && '/' in s && Prepare(s) == s && Split(s, '/') == [y, m, d]
  {
    var s := y + "/" + m + "/" + d;
    assert s == y + ['/'] + m + ['/'] + d;
    SplitThree(y, m, d, '/');
    assert s[|y|] == '/';
    assert s[0] == y[0] && s[|s| - 1] == d[|d| - 1];
    assert Bom !in s;
    PrepareFixed(s);
  }

  /** Where the copies part: the legacy copy zero-pads any such triple, digits or not. */
  lemma LegacyDatePadsAnyTriple(y: string, m: string, d: string)
    requires '/' !in y && '/' !in m && '/' !in d && Bom !in y && Bom !in m && Bom !in d
    requires y != [] && d != [] && !IsSpace(y[0]) && !IsSpace(d[|d| - 1])
    ensures LegacyNormalizeValue(y + "/" + m + "/" + d, Date) == ZFill(y, 4) + ZFill(m, 2) + ZFill(d, 2)
  {
    PreparedTriple(y, m, d);
  }

  /** The newer copy pads only digit triples: with a non-digit part the value takes
      the deletion branch instead. */
  lemma CoreDateSkipsNonDigitTriple(y: string, m: string, d: string)
    requires '/' !in y && '/' !in m && '/' !in d && Bom !in y && Bom !in m && Bom !in d
    requires y != [] && d != [] && !IsSpace(y[0]) && !IsSpace(d[|d| - 1])
    requires !AllDigits(y) || !AllDigits(m) || !AllDigits(d)
    ensures var s := y + "/" + m + "/" + d;
            NormalizeValue(s, Date) == RemoveChar(RemoveChar(RemoveChar(s, '-'), '/'), ' ')
  {
    PreparedTriple(y, m, d);
  }

  /** A space inside a date survives only in the legacy copy: for a prepared
      value without '/' or '-', the legacy copy returns it unchanged while the newer
      copy drops its spaces. */
  lemma LegacyDateKeepsSpaces(v: string)
    requires v != [] && Prepare(v) == v && '/' !in v && '-' !in v && ' ' in v
    ensures LegacyNormalizeValue(v, Date) == v
    ensures NormalizeValue(v, Date) == RemoveChar(v, ' ')
    ensures LegacyNormalizeValue(v, Date) != NormalizeValue(v, Date)
  {
    RemoveAbsent(v, '-');
    RemoveAbsent(v, '/');
    RemoveCharRemoves(v, ' ');
  }

  /** A space inside an id survives only in the legacy copy: for a stripped,
      upper-case value the legacy copy returns it unchanged while the newer copy
      drops its spaces. */
  lemma LegacyIdKeepsSpaces(v: string)
    requires v != [] && Strip(v) == v && Bom !in v && Upper(v) == v && ' ' in v
    ensures LegacyNormalizeValue(v, Id) == v
    ensures NormalizeValue(v, Id) == RemoveChar(v, ' ')
    ensures LegacyNormalizeValue(v, Id) != NormalizeValue(v, Id)
  {
    RemoveAbsent(v, Bom);
    RemoveCharRemoves(v, ' ');
  }

  lemma {:induction false} RemoveCharRemoves(s: string, c: char)
    ensures c !in RemoveChar(s, c)
    decreases |s|
  {
    if s != [] {
      RemoveCharRemoves(s[1..], c);
    }
  }

  // ---------------------------------------------------------------------------
  // calculate_match_score without `break` / find_identical_cards

  /** Every B-side field agreeing with A-side field `fa`, in B order. */
  function AllAgreeing(norm: Normalizer, a: Row, b: Row, t: FieldType, fa: string, fbs: seq<string>): (ds: seq<MatchDetail>)
    ensures |ds| <= |fbs|
    decreases |fbs|
  {
    if fbs == [] then []
    else
      var last := fbs[|fbs| - 1];
      AllAgreeing(norm, a, b, t, fa, fbs[..|fbs| - 1])
      + (if Agree(norm, a, b, t, fa, last) then [MatchDetail(t, fa, last, norm(Get(a, fa), t))] else [])
  }

  /** Reference definition of one key type's details: every agreeing (field_a,
      field_b) pair, A-major. */
  function LegacyTypeDetails(norm: Normalizer, a: Row, b: Row, t: FieldType, fas: seq<string>, fbs: seq<string>): seq<MatchDetail>
    decreases |fas|
  {
    if fas == [] then []
    else LegacyTypeDetails(norm, a, b, t, fas[..|fas| - 1], fbs) + AllAgreeing(norm, a, b, t, fas[|fas| - 1], fbs)
  }

  /** The B-side scan keeps exactly the agreeing fields, each as a detail of type `t`. */
  lemma {:induction false} AllAgreeingSpec(norm: Normalizer, a: Row, b: Row, t: FieldType, fa: string, fbs: seq<string>)
    ensures var ds := AllAgreeing(norm, a, b, t, fa, fbs);
            && (forall k :: 0 <= k < |ds| ==>
                  ds[k].keyType == t && ds[k].fieldA == fa && ds[k].fieldB in fbs && Agree(norm, a, b, t, fa, ds[k].fieldB))
            && (forall fb :: fb in fbs && Agree(norm, a, b, t, fa, fb) ==> exists k :: 0 <= k < |ds| && ds[k].fieldB == fb)
    decreases |fbs|
  {
    if fbs != [] {
      var front := fbs[..|fbs| - 1];
      var last := fbs[|fbs| - 1];
      AllAgreeingSpec(norm, a, b, t, fa, front);
      var x := AllAgreeing(norm, a, b, t, fa, front);
      var y := if Agree(norm, a, b, t, fa, last) then [MatchDetail(t, fa, last, norm(Get(a, fa), t))] else [];
      var ds := x + y;
      assert AllAgreeing(norm, a, b, t, fa, fbs) == ds;
      forall fb | fb in fbs && Agree(norm, a, b, t, fa, fb)
        ensures exists k :: 0 <= k < |ds| && ds[k].fieldB == fb
      {
        if fb == last {
          assert ds[|x|].fieldB == fb;
        } else {
          assert fb in front;
          var k :| 0 <= k < |x| && x[k].fieldB == fb;
          assert ds[k] == x[k];
        }
      }
      forall k | 0 <= k < |ds|
        ensures ds[k].keyType == t && ds[k].fieldA == fa && ds[k].fieldB in fbs && Agree(norm, a, b, t, fa, ds[k].fieldB)
      {
        if k < |x| {
          assert ds[k] == x[k];
        }
      }
    }
  }

  /** The legacy details of one type are exactly its agreeing (field_a, field_b) pairs. */
  lemma LegacyTypeDetailsSpec(norm: Normalizer, a: Row, b: Row, t: FieldType, fas: seq<string>, fbs: seq<string>)
    ensures var ds := LegacyTypeDetails(norm, a, b, t, fas, fbs);
            && (forall k :: 0 <= k < |ds| ==>
                  ds[k].keyType == t && ds[k].fieldA in fas && ds[k].fieldB in fbs && Agree(norm, a, b, t, ds[k].fieldA, ds[k].fieldB))
            && (forall fa, fb :: fa in fas && fb in fbs && Agree(norm, a, b, t, fa, fb) ==>
                  exists k :: 0 <= k < |ds| && ds[k].fieldA == fa && ds[k].fieldB == fb)
  {
    LegacyTypeDetailsSound(norm, a, b, t, fas, fbs);
    LegacyTypeDetailsComplete(norm, a, b, t, fas, fbs);
    var ds := LegacyTypeDetails(norm, a, b, t, fas, fbs);
    assert forall fa, fb :: Listed(ds, fa, fb) ==> exists k :: 0 <= k < |ds| && ds[k].fieldA == fa && ds[k].fieldB == fb;
  }

  /** A detail of type `t` for an agreeing pair of the listed fields. */
  predicate ListedAgreeing(norm: Normalizer, a: Row, b: Row, t: FieldType, fas: seq<string>, fbs: seq<string>, d: MatchDetail) {
    d.keyType == t && d.fieldA in fas && d.fieldB in fbs && Agree(norm, a, b, t, d.fieldA, d.fieldB)
  }

  lemma LegacyTypeDetailsSound(norm: Normalizer, a: Row, b: Row, t: FieldType, fas: seq<string>, fbs: seq<string>)
    ensures var ds := LegacyTypeDetails(norm, a, b, t, fas, fbs);
            forall k :: 0 <= k < |ds| ==> ListedAgreeing(norm, a, b, t, fas, fbs, ds[k])
  {
    var ds := LegacyTypeDetails(norm, a, b, t, fas, fbs);
    forall k | 0 <= k < |ds|
      ensures ListedAgreeing(norm, a, b, t, fas, fbs, ds[k])
    {
      LegacyTypeDetailsSoundAt(norm, a, b, t, fas, fbs, k);
    }
  }

  lemma {:induction false} LegacyTypeDetailsSoundAt(norm: Normalizer, a: Row, b: Row, t: FieldType, fas: seq<string>,
                                                     fbs: seq<string>, k: nat)
    requires k < |LegacyTypeDetails(norm, a, b, t, fas, fbs)|
    ensures ListedAgreeing(norm, a, b, t, fas, fbs, LegacyTypeDetails(norm, a, b, t, fas, fbs)[k])
    decreases |fas|
  {
    var front := fas[..|fas| - 1];
    var last := fas[|fas| - 1];
    var x := LegacyTypeDetails(norm, a, b, t, front, fbs);
    var y := AllAgreeing(norm, a, b, t, last, fbs);
    assert LegacyTypeDetails(norm, a, b, t, fas, fbs) == x + y;
    assert fas == front + [last];
    if k < |x| {
      LegacyTypeDetailsSoundAt(norm, a, b, t, front, fbs, k);
      assert LegacyTypeDetails(norm, a, b, t, fas, fbs)[k] == x[k];
      InLeft(front, [last], x[k].fieldA);
    } else {
      AllAgreeingSpec(norm, a, b, t, last, fbs);
      assert LegacyTypeDetails(norm, a, b, t, fas, fbs)[k] == y[k - |x|];
    }
  }

  /** Some detail of `ds` pairs `fa` with `fb`. */
  predicate Listed(ds: seq<MatchDetail>, fa: string, fb: string) {
    exists k :: 0 <= k < |ds| && ds[k].fieldA == fa && ds[k].fieldB == fb
  }

  lemma LegacyTypeDetailsComplete(norm: Normalizer, a: Row, b: Row, t: FieldType, fas: seq<string>, fbs: seq<string>)
    ensures forall fa, fb :: fa in fas && fb in fbs && Agree(norm, a, b, t, fa, fb) ==>
              Listed(LegacyTypeDetails(norm, a, b, t, fas, fbs), fa, fb)
  {
    forall fa, fb | fa in fas && fb in fbs && Agree(norm, a, b, t, fa, fb)
      ensures Listed(LegacyTypeDetails(norm, a, b, t, fas, fbs), fa, fb)
    {
      LegacyTypeDetailsCompleteAt(norm, a, b, t, fas, fbs, fa, fb);
    }
  }

  lemma {:induction false} LegacyTypeDetailsCompleteAt(norm: Normalizer, a: Row, b: Row, t: FieldType, fas: seq<string>,
                                                         fbs: seq<string>, fa: string, fb: string)
    requires fa in fas && fb in fbs && Agree(norm, a, b, t, fa, fb)
    ensures Listed(LegacyTypeDetails(norm, a, b, t, fas, fbs), fa, fb)
    decreases |fas|
  {
    var front := fas[..|fas| - 1];
    var last := fas[|fas| - 1];
    var x := LegacyTypeDetails(norm, a, b, t, front, fbs);
    var y := AllAgreeing(norm, a, b, t, last, fbs);
    assert LegacyTypeDetails(norm, a, b, t, fas, fbs) == x + y;
    assert fas == front + [last];
    if fa == last {
      AllAgreeingListed(norm, a, b, t, fa, fbs, fb);
      ListedRight(x, y, fa, fb);
    } else {
      assert fa in front;
      LegacyTypeDetailsCompleteAt(norm, a, b, t, front, fbs, fa, fb);
      ListedLeft(x, y, fa, fb);
    }
  }

  lemma AllAgreeingListed(norm: Normalizer, a: Row, b: Row, t: FieldType, fa: string, fbs: seq<string>, fb: string)
    requires fb in fbs && Agree(norm, a, b, t, fa, fb)
    ensures Listed(AllAgreeing(norm, a, b, t, fa, fbs), fa, fb)
  {
    var y := AllAgreeing(norm, a, b, t, fa, fbs);
    AllAgreeingSpec(norm, a, b, t, fa, fbs);
    var k :| 0 <= k < |y| && y[k].fieldB == fb;
    assert y[k].fieldA == fa;
  }

  lemma ListedLeft(x: seq<MatchDetail>, y: seq<MatchDetail>, fa: string, fb: string)
    requires Listed(x, fa, fb)
    ensures Listed(x + y, fa, fb)
  {
    var k :| 0 <= k < |x| && x[k].fieldA == fa && x[k].fieldB == fb;
    assert (x + y)[k] == x[k];
  }

  lemma ListedRight(x: seq<MatchDetail>, y: seq<MatchDetail>, fa: string, fb: string)
    requires Listed(y, fa, fb)
    ensures Listed(x + y, fa, fb)
  {
    var k :| 0 <= k < |y| && y[k].fieldA == fa && y[k].fieldB == fb;
    assert (x + y)[|x| + k] == y[k];
  }

  function LegacyDetailsWith(norm: Normalizer, a: Row, b: Row, kf: KeyFields): seq<MatchDetail> {
    LegacyTypeDetails(norm, a, b, Name, FieldsOf(kf.a, Name), FieldsOf(kf.b, Name))
    + LegacyTypeDetails(norm, a, b, Id, FieldsOf(kf.a, Id), FieldsOf(kf.b, Id))
    + LegacyTypeDetails(norm, a, b, Date, FieldsOf(kf.a, Date), FieldsOf(kf.b, Date))
  }

  function LegacyScoreWith(norm: Normalizer, a: Row, b: Row, kf: KeyFields): nat {
    DetailWeight(LegacyDetailsWith(norm, a, b, kf))
  }

  function LegacyMatchDetails(a: Row, b: Row, kf: KeyFields): seq<MatchDetail> {
    LegacyDetailsWith(LegacyNormalizeValue, a, b, kf)
  }

  function LegacyMatchScore(a: Row, b: Row, kf: KeyFields): nat {
    LegacyScoreWith(LegacyNormalizeValue, a, b, kf)
  }

  /** The nested `calculate_match_score` as written: three loops, no `break`. */
  method LegacyCalculateMatchScore(a: Row, b: Row, kf: KeyFields) returns (score: nat, details: seq<MatchDetail>)
    ensures details == LegacyMatchDetails(a, b, kf)
    ensures score == DetailWeight(details)
  {
    var n, wn := LegacyScoreType(LegacyNormalizeValue, a, b, Name, FieldsOf(kf.a, Name), FieldsOf(kf.b, Name));
    var i, wi := LegacyScoreType(LegacyNormalizeValue, a, b, Id, FieldsOf(kf.a, Id), FieldsOf(kf.b, Id));
    var d, wd := LegacyScoreType(LegacyNormalizeValue, a, b, Date, FieldsOf(kf.a, Date), FieldsOf(kf.b, Date));
    DetailWeightConcat(n, i);
    DetailWeightConcat(n + i, d);
    details := n + i + d;
    score := wn + wi + wd;
  }

  method LegacyScoreType(norm: Normalizer, a: Row, b: Row, t: FieldType, fas: seq<string>, fbs: seq<string>)
    returns (ds: seq<MatchDetail>, w: nat)
    ensures ds == LegacyTypeDetails(norm, a, b, t, fas, fbs)
    ensures w == DetailWeight(ds)
  {
    ds, w := [], 0;
    var i := 0;
    while i < |fas|
      invariant 0 <= i <= |fas|
      invariant ds == LegacyTypeDetails(norm, a, b, t, fas[..i], fbs)
      invariant w == DetailWeight(ds)
    {
      var here := LegacyScanB(norm, a, b, t, fas[i], fbs);
      assert fas[..i + 1][..i] == fas[..i];
      DetailWeightConcat(ds, here);
      w := w + DetailWeight(here);
      ds := ds + here;
      i := i + 1;
    }
    assert fas[..|fas|] == fas;
  }

  /** The B-side loop for one A-side field, running to the end. */
  method LegacyScanB(norm: Normalizer, a: Row, b: Row, t: FieldType, fa: string, fbs: seq<string>)
    returns (here: seq<MatchDetail>)
    ensures here == AllAgreeing(norm, a, b, t, fa, fbs)
  {
    var j := 0;
    here := [];
    while j < |fbs|
      invariant 0 <= j <= |fbs|
      invariant here == AllAgreeing(norm, a, b, t, fa, fbs[..j])
    {
      var va := norm(Get(a, fa), t);
      var vb := norm(Get(b, fbs[j]), t);
      assert fbs[..j + 1][..j] == fbs[..j];
      if va != [] && vb != [] && va == vb {
        here := here + [MatchDetail(t, fa, fbs[j], va)];
      }
      j := j + 1;
    }
    assert fbs[..|fbs|] == fbs;
  }

  /** Details of one key type all weigh the same. */
  predicate AllOfType(ds: seq<MatchDetail>, t: FieldType) {
    forall k :: 0 <= k < |ds| ==> ds[k].keyType == t
  }

  lemma {:induction false} UniformWeight(ds: seq<MatchDetail>, t: FieldType)
    requires AllOfType(ds, t)
    ensures DetailWeight(ds) == Weight(t) * |ds|
  {
    if ds != [] {
      assert AllOfType(ds[1..], t);
      UniformWeight(ds[1..], t);
      assert Weight(t) * |ds| == Weight(t) + Weight(t) * |ds[1..]|;
    }
  }

  /** Per A-side field the `break` keeps at most what the legacy loop keeps: one
      detail exactly when the legacy loop finds at least one. */
  lemma FieldDetailAtMostAll(norm: Normalizer, a: Row, b: Row, t: FieldType, fa: string, fbs: seq<string>)
    ensures |FieldDetail(norm, a, b, t, fa, fbs)| <= |AllAgreeing(norm, a, b, t, fa, fbs)|
    ensures AllOfType(FieldDetail(norm, a, b, t, fa, fbs), t)
  {
    AllAgreeingSpec(norm, a, b, t, fa, fbs);
    match FirstAgreeing(norm, a, b, t, fa, fbs)
    case Some(fb) =>
      assert fb in fbs && Agree(norm, a, b, t, fa, fb);
    case None =>
  }

  lemma {:induction false} TypeDetailsAtMost(norm: Normalizer, a: Row, b: Row, t: FieldType, fas: seq<string>, fbs: seq<string>)
    ensures |TypeDetails(norm, a, b, t, fas, fbs)| <= |LegacyTypeDetails(norm, a, b, t, fas, fbs)|
    ensures AllOfType(TypeDetails(norm, a, b, t, fas, fbs), t)
    decreases |fas|
  {
    if fas != [] {
      var front := fas[..|fas| - 1];
      var last := fas[|fas| - 1];
      TypeDetailsAtMost(norm, a, b, t, front, fbs);
      FieldDetailAtMostAll(norm, a, b, t, last, fbs);
      var x := TypeDetails(norm, a, b, t, front, fbs);
      var y := FieldDetail(norm, a, b, t, last, fbs);
      assert TypeDetails(norm, a, b, t, fas, fbs) == x + y;
      assert LegacyTypeDetails(norm, a, b, t, fas, fbs)
          == LegacyTypeDetails(norm, a, b, t, front, fbs) + AllAgreeing(norm, a, b, t, last, fbs);
      assert forall k :: 0 <= k < |x + y| ==> (x + y)[k] == if k < |x| then x[k] else y[k - |x|];
    }
  }

  /** One key type weighs no more in the newer copy than in the legacy one. */
  lemma TypeWeightAtMost(norm: Normalizer, a: Row, b: Row, t: FieldType, fas: seq<string>, fbs: seq<string>)
    ensures DetailWeight(TypeDetails(norm, a, b, t, fas, fbs)) <= DetailWeight(LegacyTypeDetails(norm, a, b, t, fas, fbs))
    ensures DetailWeight(LegacyTypeDetails(norm, a, b, t, fas, fbs)) == Weight(t) * |LegacyTypeDetails(norm, a, b, t, fas, fbs)|
  {
    var x := TypeDetails(norm, a, b, t, fas, fbs);
    var y := LegacyTypeDetails(norm, a, b, t, fas, fbs);
    TypeDetailsAtMost(norm, a, b, t, fas, fbs);
    LegacyTypeDetailsSpec(norm, a, b, t, fas, fbs);
    UniformWeight(x, t);
    UniformWeight(y, t);
    MulMonotone(Weight(t), |x|, |y|);
  }

  lemma MulMonotone(w: nat, p: nat, q: nat)
    requires p <= q
    ensures w * p <= w * q
  {
  }

  /** Without the `break` the score only grows: a pair the newer copy keeps, the
      legacy loops keep too (for the same normaliser). */
  lemma LegacyScoreAtLeastCore(norm: Normalizer, a: Row, b: Row, kf: KeyFields)
    ensures ScoreWith(norm, a, b, kf) <= LegacyScoreWith(norm, a, b, kf)
  {
    var n := TypeDetails(norm, a, b, Name, FieldsOf(kf.a, Name), FieldsOf(kf.b, Name));
    var i := TypeDetails(norm, a, b, Id, FieldsOf(kf.a, Id), FieldsOf(kf.b, Id));
    var d := TypeDetails(norm, a, b, Date, FieldsOf(kf.a, Date), FieldsOf(kf.b, Date));
    var ln := LegacyTypeDetails(norm, a, b, Name, FieldsOf(kf.a, Name), FieldsOf(kf.b, Name));
    var li := LegacyTypeDetails(norm, a, b, Id, FieldsOf(kf.a, Id), FieldsOf(kf.b, Id));
    var ld := LegacyTypeDetails(norm, a, b, Date, FieldsOf(kf.a, Date), FieldsOf(kf.b, Date));
    TypeWeightAtMost(norm, a, b, Name, FieldsOf(kf.a, Name), FieldsOf(kf.b, Name));
    TypeWeightAtMost(norm, a, b, Id, FieldsOf(kf.a, Id), FieldsOf(kf.b, Id));
    TypeWeightAtMost(norm, a, b, Date, FieldsOf(kf.a, Date), FieldsOf(kf.b, Date));
    DetailWeightConcat(n, i);
    DetailWeightConcat(n + i, d);
    DetailWeightConcat(ln, li);
    DetailWeightConcat(ln + li, ld);
  }

  /** One A-side name field agreeing with two B-side name fields: the newer copy's
      `break` counts 0.5, the legacy loop counts 1.0 and reaches the cut-off. */
  lemma TwoAgreeingBFields(norm: Normalizer, a: Row, b: Row, kf: KeyFields, na: string, n1: string, n2: string)
    requires FieldsOf(kf.a, Name) == [na] && FieldsOf(kf.b, Name) == [n1, n2]
    requires FieldsOf(kf.a, Id) == [] && FieldsOf(kf.a, Date) == []
    requires Agree(norm, a, b, Name, na, n1) && Agree(norm, a, b, Name, na, n2)
    ensures ScoreWith(norm, a, b, kf) == 5 && ScoreWith(norm, a, b, kf) < Cutoff
    ensures LegacyScoreWith(norm, a, b, kf) == 10 && LegacyScoreWith(norm, a, b, kf) >= Cutoff
  {
    CoreCountsOnce(norm, a, b, kf, na, n1, n2);
    LegacyCountsTwice(norm, a, b, kf, na, n1, n2);
  }

  lemma CoreCountsOnce(norm: Normalizer, a: Row, b: Row, kf: KeyFields, na: string, n1: string, n2: string)
    requires FieldsOf(kf.a, Name) == [na] && FieldsOf(kf.b, Name) == [n1, n2]
    requires FieldsOf(kf.a, Id) == [] && FieldsOf(kf.a, Date) == []
    requires Agree(norm, a, b, Name, na, n1)
    ensures ScoreWith(norm, a, b, kf) == 5
  {
    assert [na][..0] == [];
    var v := norm(Get(a, na), Name);
    var core := TypeDetails(norm, a, b, Name, [na], [n1, n2]);
    assert FirstAgreeing(norm, a, b, Name, na, [n1, n2]) == Some(n1);
    assert core == [] + FieldDetail(norm, a, b, Name, na, [n1, n2]);
    assert core == [MatchDetail(Name, na, n1, v)];
    assert core[1..] == [];
    assert DetailWeight(core) == 5;
    assert DetailsWith(norm, a, b, kf) == core + [] + [];
    assert core + [] + [] == core;
  }

  lemma LegacyCountsTwice(norm: Normalizer, a: Row, b: Row, kf: KeyFields, na: string, n1: string, n2: string)
    requires FieldsOf(kf.a, Name) == [na] && FieldsOf(kf.b, Name) == [n1, n2]
    requires FieldsOf(kf.a, Id) == [] && FieldsOf(kf.a, Date) == []
    requires Agree(norm, a, b, Name, na, n1) && Agree(norm, a, b, Name, na, n2)
    ensures LegacyScoreWith(norm, a, b, kf) == 10
  {
    var legacy := LegacyTypeDetails(norm, a, b, Name, [na], [n1, n2]);
    TwoAgreeingDetails(norm, a, b, na, n1, n2);
    assert LegacyDetailsWith(norm, a, b, kf) == legacy + [] + [];
    assert legacy + [] + [] == legacy;
    UniformWeight(legacy, Name);
  }

  /** Both B-side fields agree, so the legacy loop keeps a name detail for each. */
  lemma TwoAgreeingDetails(norm: Normalizer, a: Row, b: Row, na: string, n1: string, n2: string)
    requires Agree(norm, a, b, Name, na, n1) && Agree(norm, a, b, Name, na, n2)
    ensures var legacy := LegacyTypeDetails(norm, a, b, Name, [na], [n1, n2]);
            |legacy| == 2 && AllOfType(legacy, Name)
  {
    assert [na][..0] == [] && [n1, n2][..1] == [n1] && [n1][..0] == [];
    var v := norm(Get(a, na), Name);
    var all := AllAgreeing(norm, a, b, Name, na, [n1, n2]);
    assert AllAgreeing(norm, a, b, Name, na, [n1]) == [MatchDetail(Name, na, n1, v)];
    assert all == [MatchDetail(Name, na, n1, v), MatchDetail(Name, na, n2, v)];
    assert LegacyTypeDetails(norm, a, b, Name, [], [n1, n2]) == [];
    assert LegacyTypeDetails(norm, a, b, Name, [na], [n1, n2]) == [] + all;
  }

  /** `score >= 0.8` for rows `i` of A and `j` of B under the legacy score. */
  predicate LegacyIsIdentical(dataA: seq<Row>, dataB: seq<Row>, kf: KeyFields, i: nat, j: nat) {
    i < |dataA| && j < |dataB| && LegacyMatchScore(dataA[i], dataB[j], kf) >= Cutoff
  }

  function LegacyIdenticalIndices(dataA: seq<Row>, dataB: seq<Row>, kf: KeyFields): seq<(nat, nat)> {
    CrossPairs(|dataA|, |dataB|, (i: nat, j: nat) => LegacyIsIdentical(dataA, dataB, kf, i, j))
  }

  function LegacyFindIdenticalCards(dataA: seq<Row>, dataB: seq<Row>, kf: KeyFields): (r: seq<IdenticalPair>)
    ensures |r| == |LegacyIdenticalIndices(dataA, dataB, kf)|
  {
    var idx := LegacyIdenticalIndices(dataA, dataB, kf);
    seq(|idx|, k requires 0 <= k < |idx| =>
      var i := idx[k].0;
      var j := idx[k].1;
      IdenticalPair(dataA[i], dataB[j], LegacyMatchScore(dataA[i], dataB[j], kf), LegacyMatchDetails(dataA[i], dataB[j], kf)))
  }

  /** A pair is kept iff its legacy score is at least 0.8, in A-major order. */
  lemma LegacyFindIdenticalCardsSpec(dataA: seq<Row>, dataB: seq<Row>, kf: KeyFields)
    ensures var idx := LegacyIdenticalIndices(dataA, dataB, kf);
            var r := LegacyFindIdenticalCards(dataA, dataB, kf);
            && ScanOrdered(idx)
            && (forall k :: 0 <= k < |r| ==>
                  && idx[k].0 < |dataA| && idx[k].1 < |dataB|
                  && r[k].cardA == dataA[idx[k].0] && r[k].cardB == dataB[idx[k].1]
                  && r[k].score == LegacyMatchScore(r[k].cardA, r[k].cardB, kf) >= Cutoff)
            && (forall i: nat, j: nat :: LegacyIsIdentical(dataA, dataB, kf, i, j) ==> (i, j) in idx)
  {
  }

  // ---------------------------------------------------------------------------
  // analyze_field_mappings_from_pairs

  /** One entry of `sample_pairs`: the two stripped values and the fixed columns
      `card_a.get('name', '')` and `card_b.get('カード名', '')`. */
  datatype LegacySample = LegacySample(valueA: string, valueB: string, cardAKey: string, cardBKey: string)

  function SampleOf(a: Row, b: Row, fa: string, fb: string): LegacySample {
    LegacySample(Cell(a, fa), Cell(b, fb), Get(a, "name"), Get(b, "カード名"))
  }

  /** The comparisons of one (pair, field_a) that hit key `k` and agree, as samples. */
  function SamplesFields(a: Row, b: Row, fa: string, hb: seq<string>, k: string): (r: seq<LegacySample>)
    ensures |r| == AgreeFields(NormalizeForComparison, a, b, fa, hb, k)
    ensures forall s :: s in r ==> s.cardAKey == Get(a, "name") && s.cardBKey == Get(b, "カード名")
  {
    if hb == [] then []
    else
      (if PairKey(fa, hb[0]) == k && ValuesAgree(NormalizeForComparison, Cell(a, fa), Cell(b, hb[0]))
       then [SampleOf(a, b, fa, hb[0])] else [])
      + SamplesFields(a, b, fa, hb[1..], k)
  }

  function SamplesPair(a: Row, b: Row, ha: seq<string>, hb: seq<string>, k: string): (r: seq<LegacySample>)
    ensures |r| == AgreePair(NormalizeForComparison, a, b, ha, hb, k)
    ensures forall s :: s in r ==> s.cardAKey == Get(a, "name") && s.cardBKey == Get(b, "カード名")
  {
    if ha == [] then [] else SamplesFields(a, b, ha[0], hb, k) + SamplesPair(a, b, ha[1..], hb, k)
  }

  /** Reference definition: every agreeing comparison for key `k`, in loop order. */
  function AgreeingSamples(pairs: seq<IdenticalPair>, ha: seq<string>, hb: seq<string>, k: string): (r: seq<LegacySample>)
    ensures |r| == AgreeCount(NormalizeForComparison, pairs, ha, hb, k)
    ensures forall s :: s in r ==> exists p :: p in pairs && s.cardAKey == Get(p.cardA, "name") && s.cardBKey == Get(p.cardB, "カード名")
  {
    if pairs == [] then []
    else
      var here := SamplesPair(pairs[0].cardA, pairs[0].cardB, ha, hb, k);
      var rest := AgreeingSamples(pairs[1..], ha, hb, k);
      assert forall s :: s in rest ==> exists p :: p in pairs && s.cardAKey == Get(p.cardA, "name") && s.cardBKey == Get(p.cardB, "カード名") by {
        forall s | s in rest
          ensures exists p :: p in pairs && s.cardAKey == Get(p.cardA, "name") && s.cardBKey == Get(p.cardB, "カード名")
        {
          var p :| p in pairs[1..] && s.cardAKey == Get(p.cardA, "name") && s.cardBKey == Get(p.cardB, "カード名");
          assert p in pairs;
        }
      }
      assert pairs[0] in pairs;
      here + rest
  }

  /** One entry of the legacy `field_mappings`. */
  datatype LegacyMapping = LegacyMapping(fieldA: string, fieldB: string, confidence: real, sampleCount: nat,
                                         totalComparisons: nat, quality: QualityTag, samples: seq<LegacySample>)

  function LegacyConfidence(m: LegacyMapping): real {
    m.confidence
  }

  predicate WellFormedLegacy(m: LegacyMapping) {
    && 0.5 <= m.confidence <= 1.0
    && (m.quality == High <==> m.confidence > 0.8)
    && m.sampleCount <= m.totalComparisons
    && |m.samples| <= MaxSamples
    && |m.samples| <= m.sampleCount
  }

  /** The second loop, with the split-off names kept verbatim and the samples the
      first three agreeing comparisons of the key. */
  function LegacyCollect(t: Table, keys: seq<string>, pairs: seq<IdenticalPair>, ha: seq<string>, hb: seq<string>)
    : (r: Result<seq<LegacyMapping>, PyError>)
    requires forall k :: k in keys ==> k in t.stats && ValidStats(t.stats[k])
    requires forall k :: k in keys ==> t.stats[k].exactMatches == AgreeCount(NormalizeForComparison, pairs, ha, hb, k)
    ensures r.Success? ==> forall i :: 0 <= i < |r.value| ==> WellFormedLegacy(r.value[i])
    ensures r.Success? ==> forall i :: 0 <= i < |r.value| ==> PairKey(r.value[i].fieldA, r.value[i].fieldB) in keys
  {
    if keys == [] then Success([])
    else
      var k := keys[0];
      assert k in keys;
      var s := t.stats[k];
      assert ValidStats(s);
      var rest := LegacyCollect(t, keys[1..], pairs, ha, hb);
      if s.totalComparisons == 0 then rest
      else
        var conf := (s.exactMatches as real) / (s.totalComparisons as real);
        if conf >= 0.5 then
          var parts := Split(k, Arrow);
          if |parts| != 2 then Failure(UnpackMismatch(k))
          else if rest.Failure? then rest
          else
            RatioFacts(s.exactMatches, s.totalComparisons);
            JoinTwo(k, parts);
            var m := LegacyMapping(parts[0], parts[1], conf, s.exactMatches, s.totalComparisons,
                                   if conf > 0.8 then High else Medium,
                                   Take(AgreeingSamples(pairs, ha, hb, k), MaxSamples));
            Success([m] + rest.value)
        else rest
  }

  /** A key that splits into two parts is the two parts joined by the arrow. */
  lemma JoinTwo(k: string, parts: seq<string>)
    requires parts == Split(k, Arrow) && |parts| == 2
    ensures PairKey(parts[0], parts[1]) == k
  {
    JoinSplit(k, Arrow);
    assert Join(parts, Arrow) == parts[0] + [Arrow] + Join(parts[1..], Arrow);
  }

  function LegacyAnalyzeFieldMappings(pairs: seq<IdenticalPair>, ha: seq<string>, hb: seq<string>)
    : Result<seq<LegacyMapping>, PyError>
  {
    var t := FieldMappingTable(pairs, ha, hb);
    FieldMappingTableValid(pairs, ha, hb);
    LegacyTableCounts(pairs, ha, hb);
    var collected := LegacyCollect(t, t.order, pairs, ha, hb);
    if collected.Failure? then collected else Success(SortDesc(collected.value, LegacyConfidence))
  }

  lemma LegacyTableCounts(pairs: seq<IdenticalPair>, ha: seq<string>, hb: seq<string>)
    ensures var t := FieldMappingTable(pairs, ha, hb);
            forall k :: k in t.order ==> k in t.stats && t.stats[k].exactMatches == AgreeCount(NormalizeForComparison, pairs, ha, hb, k)
  {
    var t := FieldMappingTable(pairs, ha, hb);
    FieldMappingTableValid(pairs, ha, hb);
    forall k | k in t.order
      ensures k in t.stats && t.stats[k].exactMatches == AgreeCount(NormalizeForComparison, pairs, ha, hb, k)
    {
      FieldMappingCounts(pairs, ha, hb, k);
    }
  }

  /** Reference definition of the legacy mapping one kept key yields. */
  function LegacyMappingOf(t: Table, k: string, pairs: seq<IdenticalPair>, ha: seq<string>, hb: seq<string>): LegacyMapping
    requires k in t.stats && t.stats[k].totalComparisons > 0 && Splits(k)
  {
    var s := t.stats[k];
    var parts := Split(k, Arrow);
    var conf := (s.exactMatches as real) / (s.totalComparisons as real);
    LegacyMapping(parts[0], parts[1], conf, s.exactMatches, s.totalComparisons,
                  if conf > 0.8 then High else Medium, Take(AgreeingSamples(pairs, ha, hb, k), MaxSamples))
  }

  function LegacyKeptMappings(t: Table, ks: seq<string>, pairs: seq<IdenticalPair>, ha: seq<string>, hb: seq<string>)
    : seq<LegacyMapping>
    requires forall i :: 0 <= i < |ks| ==> ks[i] in t.stats && t.stats[ks[i]].totalComparisons > 0 && Splits(ks[i])
    decreases |ks|
  {
    if ks == [] then [] else [LegacyMappingOf(t, ks[0], pairs, ha, hb)] + LegacyKeptMappings(t, ks[1..], pairs, ha, hb)
  }

  /** The legacy second loop raises exactly when a kept key does not split, and then
      on the first such key; otherwise it yields the mapping of each kept key in key
      order. */
  lemma LegacyCollectSpec(t: Table, keys: seq<string>, pairs: seq<IdenticalPair>, ha: seq<string>, hb: seq<string>)
    requires forall k :: k in keys ==> k in t.stats && ValidStats(t.stats[k])
    requires forall k :: k in keys ==> t.stats[k].exactMatches == AgreeCount(NormalizeForComparison, pairs, ha, hb, k)
    ensures LegacyCollect(t, keys, pairs, ha, hb).Success? <==> forall k :: k in keys && KeptKey(t, k) ==> Splits(k)
    ensures LegacyCollect(t, keys, pairs, ha, hb).Failure? ==>
              exists i :: 0 <= i < |keys| && KeptKey(t, keys[i]) && !Splits(keys[i])
                          && LegacyCollect(t, keys, pairs, ha, hb).error == UnpackMismatch(keys[i])
                          && forall j :: 0 <= j < i && KeptKey(t, keys[j]) ==> Splits(keys[j])
    ensures LegacyCollect(t, keys, pairs, ha, hb).Success? ==>
              LegacyCollect(t, keys, pairs, ha, hb).value == LegacyKeptMappings(t, Filter(keys, KeptIn(t)), pairs, ha, hb)
  {
    LegacyCollectSucceeds(t, keys, pairs, ha, hb);
    if LegacyCollect(t, keys, pairs, ha, hb).Failure? {
      LegacyCollectFailsFirst(t, keys, pairs, ha, hb);
    } else {
      LegacyCollectValue(t, keys, pairs, ha, hb);
    }
  }

  lemma {:induction false} LegacyCollectSucceeds(t: Table, keys: seq<string>, pairs: seq<IdenticalPair>, ha: seq<string>, hb: seq<string>)
    requires forall k :: k in keys ==> k in t.stats && ValidStats(t.stats[k])
    requires forall k :: k in keys ==> t.stats[k].exactMatches == AgreeCount(NormalizeForComparison, pairs, ha, hb, k)
    ensures LegacyCollect(t, keys, pairs, ha, hb).Success? <==> forall k :: k in keys && KeptKey(t, k) ==> Splits(k)
    decreases |keys|
  {
    if keys != [] {
      var k, rest := keys[0], keys[1..];
      assert k in keys;
      assert forall x :: x in keys <==> x == k || x in rest;
      assert ValidStats(t.stats[k]);
      LegacyCollectSucceeds(t, rest, pairs, ha, hb);
    }
  }

  lemma {:induction false} LegacyCollectFailsFirst(t: Table, keys: seq<string>, pairs: seq<IdenticalPair>, ha: seq<string>, hb: seq<string>)
    requires forall k :: k in keys ==> k in t.stats && ValidStats(t.stats[k])
    requires forall k :: k in keys ==> t.stats[k].exactMatches == AgreeCount(NormalizeForComparison, pairs, ha, hb, k)
    requires LegacyCollect(t, keys, pairs, ha, hb).Failure?
    ensures exists i :: 0 <= i < |keys| && KeptKey(t, keys[i]) && !Splits(keys[i])
                        && LegacyCollect(t, keys, pairs, ha, hb).error == UnpackMismatch(keys[i])
                        && forall j :: 0 <= j < i && KeptKey(t, keys[j]) ==> Splits(keys[j])
    decreases |keys|
  {
    var k, rest := keys[0], keys[1..];
    assert k in keys;
    assert forall x :: x in rest ==> x in keys;
    assert ValidStats(t.stats[k]);
    if !(KeptKey(t, k) && !Splits(k)) {
      var rr := LegacyCollect(t, rest, pairs, ha, hb);
      assert rr.Failure? && LegacyCollect(t, keys, pairs, ha, hb).error == rr.error;
      LegacyCollectFailsFirst(t, rest, pairs, ha, hb);
      var i :| 0 <= i < |rest| && KeptKey(t, rest[i]) && !Splits(rest[i]) && rr.error == UnpackMismatch(rest[i])
               && forall j :: 0 <= j < i && KeptKey(t, rest[j]) ==> Splits(rest[j]);
      assert keys[i + 1] == rest[i];
      forall j | 0 <= j < i + 1 && KeptKey(t, keys[j])
        ensures Splits(keys[j])
      {
        if j > 0 {
          assert keys[j] == rest[j - 1];
        }
      }
    }
  }

  lemma {:induction false} LegacyCollectValue(t: Table, keys: seq<string>, pairs: seq<IdenticalPair>, ha: seq<string>, hb: seq<string>)
    requires forall k :: k in keys ==> k in t.stats && ValidStats(t.stats[k])
    requires forall k :: k in keys ==> t.stats[k].exactMatches == AgreeCount(NormalizeForComparison, pairs, ha, hb, k)
    requires forall k :: k in keys && KeptKey(t, k) ==> Splits(k)
    ensures LegacyCollect(t, keys, pairs, ha, hb).Success?
    ensures LegacyCollect(t, keys, pairs, ha, hb).value == LegacyKeptMappings(t, Filter(keys, KeptIn(t)), pairs, ha, hb)
    decreases |keys|
  {
    if keys != [] {
      var k, rest := keys[0], keys[1..];
      assert k in keys;
      assert forall x :: x in rest ==> x in keys;
      assert ValidStats(t.stats[k]);
      LegacyCollectValue(t, rest, pairs, ha, hb);
      var rr := LegacyCollect(t, rest, pairs, ha, hb);
      assert LegacyCollect(t, keys, pairs, ha, hb)
          == if KeptKey(t, k) then Success([LegacyMappingOf(t, k, pairs, ha, hb)] + rr.value) else rr;
      assert Filter(keys, KeptIn(t)) == (if KeptKey(t, k) then [k] else []) + Filter(rest, KeptIn(t));
      if !KeptKey(t, k) {
        assert [] + Filter(rest, KeptIn(t)) == Filter(rest, KeptIn(t));
      }
    }
  }

  /** The legacy output: it raises exactly when a kept key does not re-split, and
      then on such a key; otherwise it holds one mapping per kept key, with ratios and
      tags as in the newer copy, at most three samples read from the fixed columns,
      names exactly as split from the key, sorted by confidence descending. */
  lemma LegacyAnalyzeSpec(pairs: seq<IdenticalPair>, ha: seq<string>, hb: seq<string>)
    ensures var r := LegacyAnalyzeFieldMappings(pairs, ha, hb);
            var t := FieldMappingTable(pairs, ha, hb);
            && (r.Success? <==> forall k :: k in t.order && KeptKey(t, k) ==> Splits(k))
            && (r.Failure? ==> exists k :: k in t.order && KeptKey(t, k) && !Splits(k) && r.error == UnpackMismatch(k))
            && (r.Success? ==> SortedDesc(r.value, LegacyConfidence))
            && (r.Success? ==> multiset(r.value) == multiset(LegacyKeptMappings(t, Filter(t.order, KeptIn(t)), pairs, ha, hb)))
            && (r.Success? ==> forall i :: 0 <= i < |r.value| ==>
                  WellFormedLegacy(r.value[i]) && PairKey(r.value[i].fieldA, r.value[i].fieldB) in t.order)
  {
    var t := FieldMappingTable(pairs, ha, hb);
    FieldMappingTableValid(pairs, ha, hb);
    LegacyTableCounts(pairs, ha, hb);
    LegacyCollectSpec(t, t.order, pairs, ha, hb);
    var c := LegacyCollect(t, t.order, pairs, ha, hb);
    if c.Failure? {
      var i :| 0 <= i < |t.order| && KeptKey(t, t.order[i]) && !Splits(t.order[i]) && c.error == UnpackMismatch(t.order[i]);
    } else {
      var s := SortDesc(c.value, LegacyConfidence);
      forall i | 0 <= i < |s|
        ensures WellFormedLegacy(s[i]) && PairKey(s[i].fieldA, s[i].fieldB) in t.order
      {
        assert s[i] in multiset(c.value);
        var j :| 0 <= j < |c.value| && c.value[j] == s[i];
      }
    }
  }

  /** What a legacy mapping says in terms of the reference counts: the two names
      re-join to the key, the totals and agreements are counted over every pair and
      header combination, and the samples are the first three agreeing comparisons. */
  lemma LegacyMappingContents(pairs: seq<IdenticalPair>, ha: seq<string>, hb: seq<string>, k: string)
    requires k in FieldMappingTable(pairs, ha, hb).order && Splits(k)
    ensures var t := FieldMappingTable(pairs, ha, hb);
            k in t.stats && t.stats[k].totalComparisons == |pairs| * Multiplicity(ha, hb, k) > 0
    ensures var t := FieldMappingTable(pairs, ha, hb);
            var m := LegacyMappingOf(t, k, pairs, ha, hb);
            var total := |pairs| * Multiplicity(ha, hb, k);
            var agree := AgreeCount(NormalizeForComparison, pairs, ha, hb, k);
            && PairKey(m.fieldA, m.fieldB) == k
            && m.sampleCount == agree && m.totalComparisons == total
            && m.confidence == (agree as real) / (total as real)
            && (m.quality == High <==> m.confidence > 0.8)
            && m.samples == Take(AgreeingSamples(pairs, ha, hb, k), MaxSamples)
            && (KeptKey(t, k) <==> m.confidence >= 0.5)
  {
    var t := FieldMappingTable(pairs, ha, hb);
    FieldMappingTableValid(pairs, ha, hb);
    FieldMappingCounts(pairs, ha, hb, k);
    assert ValidStats(t.stats[k]);
    JoinTwo(k, Split(k, Arrow));
  }

  // ---------------------------------------------------------------------------
  // format_results_for_display

  /** `d.get(k, default)`: a present key wins even when its value is empty. */
  function GetOr(row: Row, k: string, default: string): string {
    if k in row then row[k] else default
  }

  datatype CardSummary = CardSummary(index: nat, nameA: string, nameB: string, score: nat, matchTypes: seq<FieldType>)

  datatype MappingSummary = MappingSummary(fieldA: string, fieldB: string, confidence: real, sampleCount: nat, quality: QualityTag)

  datatype Display = Display(cards: seq<CardSummary>, mappings: seq<MappingSummary>,
                             totalCards: nat, totalMappings: nat, highConfidence: nat)

  function Summarize(i: nat, p: IdenticalPair): CardSummary {
    CardSummary(i + 1, GetOr(p.cardA, "name", GetOr(p.cardA, "serial", "Unknown")),
                GetOr(p.cardB, "カード名", GetOr(p.cardB, "型番", "Unknown")), p.score,
                seq(|p.details|, k requires 0 <= k < |p.details| => p.details[k].keyType))
  }

  function SummarizeMapping(m: LegacyMapping): MappingSummary {
    MappingSummary(m.fieldA, m.fieldB, m.confidence, m.sampleCount, m.quality)
  }

  predicate IsHighConfidence(m: LegacyMapping) {
    m.confidence > 0.8
  }

  function FormatResultsForDisplay(pairs: seq<IdenticalPair>, mappings: seq<LegacyMapping>): Display {
    var top := Take(pairs, 10);
    var topM := Take(mappings, 20);
    Display(seq(|top|, i requires 0 <= i < |top| => Summarize(i, top[i])),
            seq(|topM|, i requires 0 <= i < |topM| => SummarizeMapping(topM[i])),
            |pairs|, |mappings|, Count(mappings, IsHighConfidence))
  }

  /** At most 10 cards, numbered from 1 in pair order, at most 20 mappings in order,
      the full totals, and the count of mappings above 0.8. */
  lemma FormatResultsSpec(pairs: seq<IdenticalPair>, mappings: seq<LegacyMapping>)
    ensures var d := FormatResultsForDisplay(pairs, mappings);
            && |d.cards| == (if |pairs| < 10 then |pairs| else 10)
            && |d.mappings| == (if |mappings| < 20 then |mappings| else 20)
            && (forall i :: 0 <= i < |d.cards| ==> d.cards[i].index == i + 1 && d.cards[i].score == pairs[i].score)
            && (forall i :: 0 <= i < |d.mappings| ==> d.mappings[i].confidence == mappings[i].confidence)
            && d.totalCards == |pairs| && d.totalMappings == |mappings|
            && d.highConfidence <= d.totalMappings
            && d.highConfidence == |Filter(mappings, IsHighConfidence)|
  {
  }

  // ---------------------------------------------------------------------------
  // two_stage_matching_system / enhanced_two_stage_matching

  function LegacyTwoStageMatching(dataA: seq<Row>, dataB: seq<Row>, ha: seq<string>, hb: seq<string>)
    : Result<(seq<IdenticalPair>, seq<LegacyMapping>), PyError>
  {
    var kf := LegacyIdentifyKeyFields(ha, hb);
    var pairs := LegacyFindIdenticalCards(dataA, dataB, kf);
    if pairs == [] then Success(([], []))
    else
      var mappings := LegacyAnalyzeFieldMappings(pairs, ha, hb);
      if mappings.Failure? then Failure(mappings.error) else Success((pairs, mappings.value))
  }

  /** No Stage 1 pair: two empty lists. */
  lemma LegacyNoPairs(dataA: seq<Row>, dataB: seq<Row>, ha: seq<string>, hb: seq<string>)
    requires LegacyFindIdenticalCards(dataA, dataB, LegacyIdentifyKeyFields(ha, hb)) == []
    ensures LegacyTwoStageMatching(dataA, dataB, ha, hb) == Success(([], []))
  {
  }

  /** The legacy wrapper: the system on the whole inputs, with no truncation. */
  function LegacyEnhancedMatching(dataA: seq<Row>, dataB: seq<Row>, ha: seq<string>, hb: seq<string>)
    : Result<(seq<EnhancedMatch>, seq<LegacyMapping>), PyError>
  {
    EnhancedResult(LegacyTwoStageMatching(dataA, dataB, ha, hb))
  }

  /** Every Stage 1 pair over all rows, in order, comes out in the enhanced format
      (score/10 as its similarity, one entry per key field pair): nothing is cut to a
      sample size, and the mappings and errors are the system's. */
  lemma LegacyEnhancedSpec(dataA: seq<Row>, dataB: seq<Row>, ha: seq<string>, hb: seq<string>)
    ensures var r := LegacyEnhancedMatching(dataA, dataB, ha, hb);
            var inner := LegacyTwoStageMatching(dataA, dataB, ha, hb);
            var pairs := LegacyFindIdenticalCards(dataA, dataB, LegacyIdentifyKeyFields(ha, hb));
            && (r.Success? <==> inner.Success?)
            && (r.Failure? ==> r.error == inner.error)
            && (r.Success? ==>
                  && |r.value.0| == |pairs| && r.value.1 == inner.value.1
                  && forall k :: 0 <= k < |pairs| ==> EvidenceOf(r.value.0[k], pairs[k]))
  {
    LegacyPairsKept(dataA, dataB, ha, hb);
    EnhancedResultEvidence(LegacyTwoStageMatching(dataA, dataB, ha, hb));
  }

  lemma LegacyPairsKept(dataA: seq<Row>, dataB: seq<Row>, ha: seq<string>, hb: seq<string>)
    ensures var r := LegacyTwoStageMatching(dataA, dataB, ha, hb);
            r.Success? ==> r.value.0 == LegacyFindIdenticalCards(dataA, dataB, LegacyIdentifyKeyFields(ha, hb))
  {
  }
}
