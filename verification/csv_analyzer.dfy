/** `CSVAnalyzer`: turning the lines of a CSV file into header-keyed rows, checking
    the header line, guessing a data type per column and per-column statistics.
    Reading the file and `csv.reader` are outside the model: the file content is
    given as a string and the row parser as a function. */
module CsvAnalyzer {
  import opened Strings
  import opened Seqs
  import opened Rows
  import opened Wrappers
  import Sets

  /** `csv_max_rows` and `csv_sample_rows` when the configuration has none. */
  const DefaultMaxRows: int := 1000
  const DefaultSampleRows: int := 5

  // ---------------------------------------------------------------------------
  // analyze_file_full: the header line and row assembly

  /** `max_rows or self.max_rows`: a missing or zero request falls back to the
      configured limit. */
  function EffectiveMaxRows(requested: Option<int>, configured: int): (m: int)
    ensures requested.Some? && requested.value != 0 ==> m == requested.value
    ensures requested.None? || requested.value == 0 ==> m == configured
  {
    if requested.Some? && requested.value != 0 then requested.value else configured
  }

  /** A limit as a count: a negative limit admits nothing. */
  function Budget(limit: int): nat {
    if limit < 0 then 0 else limit
  }

  /** `content.strip().split('\n')`: never empty. */
  function Lines(content: string): (r: seq<string>)
    ensures |r| >= 1
  {
    Split(Strip(content), '\n')
  }

  function TrimCharStart(s: string, c: char): (r: string)
    ensures r == [] || r[0] != c
    ensures |r| <= |s| && r == s[|s| - |r|..]
    decreases |s|
  {
    if |s| > 0 && s[0] == c then TrimCharStart(s[1..], c) else s
  }

  function TrimCharEnd(s: string, c: char): (r: string)
    ensures r == [] || r[|r| - 1] != c
    ensures |r| <= |s| && r == s[..|r|]
    decreases |s|
  {
    if |s| > 0 && s[|s| - 1] == c then TrimCharEnd(s[..|s| - 1], c) else s
  }

  /** `s.strip(c)`: every `c` at either end removed. */
  function StripChar(s: string, c: char): (r: string)
    ensures r == [] || (r[0] != c && r[|r| - 1] != c)
  {
    var t := TrimCharStart(s, c);
    var r := TrimCharEnd(t, c);
    assert r != [] ==> r[0] == t[0];
    r
  }

  /** `h.strip().strip('"')`. */
  function HeaderOf(cell: string): (h: string)
    ensures h == [] || (h[0] != '"' && h[|h| - 1] != '"')
    ensures |h| <= |cell|
  {
    StripChar(Strip(cell), '"')
  }

  /** The header line split on every comma, each cell cleaned. */
  function ParseHeaders(line: string): (hs: seq<string>)
    ensures |hs| == |Split(line, ',')|
    ensures forall k :: 0 <= k < |hs| ==> hs[k] == HeaderOf(Split(line, ',')[k])
  {
    var parts := Split(line, ',');
    seq(|parts|, k requires 0 <= k < |parts| => HeaderOf(parts[k]))
  }

  /** `dict(zip(headers, cells))`: keyed by exactly the header names. */
  function ZipRow(hs: seq<string>, cs: seq<string>): (r: Row)
    requires |hs| == |cs|
    ensures r.Keys == set h | h in hs
    decreases |hs|
  {
    if hs == [] then map[]
    else
      var n := |hs| - 1;
      assert hs == hs[..n] + [hs[n]];
      ZipRow(hs[..n], cs[..n])[hs[n] := cs[n]]
  }

  /** A header named twice keeps its last cell. */
  lemma {:induction false} ZipRowLast(hs: seq<string>, cs: seq<string>, k: nat)
    requires |hs| == |cs| && k < |hs| && hs[k] !in hs[k + 1..]
    ensures ZipRow(hs, cs)[hs[k]] == cs[k]
    decreases |hs|
  {
    var n := |hs| - 1;
    if k < n {
      assert hs[n] in hs[k + 1..];
      assert hs[..n][k + 1..] == hs[k + 1..n];
      assert hs[k + 1..] == hs[k + 1..n] + [hs[n]];
      assert hs[..n][k] == hs[k];
      ZipRowLast(hs[..n], cs[..n], k);
    }
  }

  /** With distinct header names every cell lands under its own header. */
  lemma DistinctHeadersZip(hs: seq<string>, cs: seq<string>, k: nat)
    requires |hs| == |cs| && Distinct(hs) && k < |hs|
    ensures ZipRow(hs, cs)[hs[k]] == cs[k]
  {
    assert hs[k] !in hs[k + 1..];
    ZipRowLast(hs, cs, k);
  }

  /** A data line becomes a row when it is not blank and parses into one cell per
      header. */
  predicate KeepsLine(parse: string -> seq<string>, headers: seq<string>, line: string) {
    Strip(line) != "" && |parse(line)| == |headers|
  }

  function RowOf(parse: string -> seq<string>, headers: seq<string>, line: string): Row
    requires KeepsLine(parse, headers, line)
  {
    ZipRow(headers, parse(line))
  }

  /** The rows assembled from `ls`, in line order. */
  function KeptRows(parse: string -> seq<string>, headers: seq<string>, ls: seq<string>): (rows: seq<Row>)
    ensures |rows| <= |ls|
    decreases |ls|
  {
    if ls == [] then []
    else
      var n := |ls| - 1;
      var front := KeptRows(parse, headers, ls[..n]);
      if KeepsLine(parse, headers, ls[n]) then front + [RowOf(parse, headers, ls[n])] else front
  }

  /** The data lines the limit lets `analyze_file_full` look at: the first
      `max_rows` after the header line, blank or not. */
  function ExaminedLines(lines: seq<string>, maxRows: int): seq<string>
    requires |lines| >= 1
  {
    Take(lines[1..], Budget(maxRows))
  }

  /** One more line: one more row exactly when it is kept. */
  lemma KeptRowsStep(parse: string -> seq<string>, headers: seq<string>, ls: seq<string>, line: string)
    ensures KeptRows(parse, headers, ls + [line]) ==
      if KeepsLine(parse, headers, line) then KeptRows(parse, headers, ls) + [RowOf(parse, headers, line)]
      else KeptRows(parse, headers, ls)
  {
    assert (ls + [line])[..|ls|] == ls;
  }

  datatype FullAnalysis = FullAnalysis(headers: seq<string>, sampleData: seq<Row>, fullData: seq<Row>,
                                       totalRows: nat, fileTotalRows: nat, truncated: bool)

  /** The loop of `analyze_file_full` over the data lines, stopping at the limit. */
  method AssembleRows(parse: string -> seq<string>, headers: seq<string>, lines: seq<string>, maxRows: int,
                      sampleRows: int) returns (all: seq<Row>, sample: seq<Row>)
    requires |lines| >= 1
    ensures all == KeptRows(parse, headers, ExaminedLines(lines, maxRows))
    ensures sample == Take(all, Budget(sampleRows))
  {
    all := [];
    sample := [];
    var i := 1;
    while i < |lines| && i <= maxRows
      invariant 1 <= i <= |lines| && i <= Budget(maxRows) + 1
      invariant all == KeptRows(parse, headers, lines[1..i])
      invariant sample == Take(all, Budget(sampleRows))
    {
      var line := lines[i];
      assert lines[1..i + 1] == lines[1..i] + [line];
      KeptRowsStep(parse, headers, lines[1..i], line);
      if Strip(line) != "" {
        var cells := parse(line);
        if |cells| == |headers| {
          var row := ZipRow(headers, cells);
          TakeAppend(all, row, Budget(sampleRows));
          if |sample| < sampleRows {
            sample := sample + [row];
          }
          all := all + [row];
        }
      }
      i := i + 1;
    }
    assert lines[1..i] == Take(lines[1..], Budget(maxRows));
  }

  /** `analyze_file_full` on the content of a file: the rows of the examined lines
      that parse into one cell per header, the first `sample_rows` of them as the
      sample, and whether the file had more data lines than the limit. */
  method AnalyzeFileFull(content: string, requested: Option<int>, configured: int, sampleRows: int,
                         parse: string -> seq<string>) returns (r: FullAnalysis)
    ensures var lines := Lines(content);
            var maxRows := EffectiveMaxRows(requested, configured);
            && r.headers == ParseHeaders(lines[0])
            && r.fullData == KeptRows(parse, r.headers, ExaminedLines(lines, maxRows))
            && r.sampleData == Take(r.fullData, Budget(sampleRows))
            && r.totalRows == |r.fullData|
            && r.fileTotalRows == |lines| - 1
            && (r.truncated <==> |lines| - 1 > maxRows)
  {
    var maxRows := EffectiveMaxRows(requested, configured);
    var lines := Lines(content);
    var headers := ParseHeaders(lines[0]);
    var all, sample := AssembleRows(parse, headers, lines, maxRows, sampleRows);
    r := FullAnalysis(headers, sample, all, |all|, |lines| - 1, |lines| - 1 > maxRows);
  }

  /** Appending one row grows the first `n` rows exactly when there were fewer. */
  lemma TakeAppend<T>(xs: seq<T>, x: T, n: nat)
    ensures |xs| < n ==> Take(xs + [x], n) == Take(xs, n) + [x]
    ensures |xs| >= n ==> Take(xs + [x], n) == Take(xs, n)
  {
    if |xs| >= n {
      assert (xs + [x])[..n] == xs[..n];
    }
  }

  /** A row comes out exactly when some examined line is kept and assembles to it;
      each row is keyed by exactly the header names. */
  lemma KeptRowsSpec(parse: string -> seq<string>, headers: seq<string>, ls: seq<string>, row: Row)
    ensures row in KeptRows(parse, headers, ls) <==>
      exists k :: 0 <= k < |ls| && KeepsLine(parse, headers, ls[k]) && row == RowOf(parse, headers, ls[k])
    ensures row in KeptRows(parse, headers, ls) ==> row.Keys == set h | h in headers
  {
    if row in KeptRows(parse, headers, ls) {
      KeptRowsSound(parse, headers, ls, row);
    }
    if exists k :: 0 <= k < |ls| && KeepsLine(parse, headers, ls[k]) && row == RowOf(parse, headers, ls[k]) {
      var k :| 0 <= k < |ls| && KeepsLine(parse, headers, ls[k]) && row == RowOf(parse, headers, ls[k]);
      KeptRowsComplete(parse, headers, ls, k);
    }
  }

  /** Every row comes from a kept examined line and is keyed by the header names. */
  lemma {:induction false} KeptRowsSound(parse: string -> seq<string>, headers: seq<string>, ls: seq<string>, row: Row)
    requires row in KeptRows(parse, headers, ls)
    ensures exists k :: 0 <= k < |ls| && KeepsLine(parse, headers, ls[k]) && row == RowOf(parse, headers, ls[k])
    ensures row.Keys == set h | h in headers
    decreases |ls|
  {
    var n := |ls| - 1;
    var front := ls[..n];
    if row in KeptRows(parse, headers, front) {
      KeptRowsSound(parse, headers, front, row);
      var k :| 0 <= k < |front| && KeepsLine(parse, headers, front[k]) && row == RowOf(parse, headers, front[k]);
      assert front[k] == ls[k];
    } else {
      assert KeepsLine(parse, headers, ls[n]) && row == RowOf(parse, headers, ls[n]);
    }
  }

  /** Every kept examined line gives a row. */
  lemma {:induction false} KeptRowsComplete(parse: string -> seq<string>, headers: seq<string>, ls: seq<string>, k: nat)
    requires k < |ls| && KeepsLine(parse, headers, ls[k])
    ensures RowOf(parse, headers, ls[k]) in KeptRows(parse, headers, ls)
    decreases |ls|
  {
    var n := |ls| - 1;
    var front := ls[..n];
    var fr := KeptRows(parse, headers, front);
    var extra := if KeepsLine(parse, headers, ls[n]) then [RowOf(parse, headers, ls[n])] else [];
    assert KeptRows(parse, headers, ls) == fr + extra;
    if k < n {
      assert front[k] == ls[k];
      KeptRowsComplete(parse, headers, front, k);
      InLeft(fr, extra, RowOf(parse, headers, ls[k]));
    } else {
      assert extra == [RowOf(parse, headers, ls[k])];
    }
  }

  /** No kept line among `ls`: no rows. */
  lemma {:induction false} NoKeptLines(parse: string -> seq<string>, headers: seq<string>, ls: seq<string>)
    requires forall k :: 0 <= k < |ls| ==> !KeepsLine(parse, headers, ls[k])
    ensures KeptRows(parse, headers, ls) == []
    decreases |ls|
  {
    if ls != [] {
      var n := |ls| - 1;
      assert forall k :: 0 <= k < n ==> ls[..n][k] == ls[k];
      NoKeptLines(parse, headers, ls[..n]);
    }
  }

  /** Blank lines use up the limit: the examined lines are the first `max_rows`
      data lines whatever they hold, every data line is examined when the file is
      not truncated, and a truncated file is cut to exactly the limit. Blank lines
      in all of the first `max_rows` give no rows, whatever follows. */
  lemma ExaminedLinesSpec(parse: string -> seq<string>, lines: seq<string>, maxRows: int)
    requires |lines| >= 1
    ensures ExaminedLines(lines, maxRows) == lines[1..|ExaminedLines(lines, maxRows)| + 1]
    ensures !(|lines| - 1 > maxRows) ==> ExaminedLines(lines, maxRows) == lines[1..]
    ensures |lines| - 1 > maxRows >= 0 ==> |ExaminedLines(lines, maxRows)| == maxRows < |lines| - 1
    ensures (forall k :: 1 <= k <= Budget(maxRows) && k < |lines| ==> Strip(lines[k]) == "") ==>
      KeptRows(parse, ParseHeaders(lines[0]), ExaminedLines(lines, maxRows)) == []
  {
    var ex := ExaminedLines(lines, maxRows);
    assert forall k :: 0 <= k < |ex| ==> ex[k] == lines[k + 1];
    if forall k :: 1 <= k <= Budget(maxRows) && k < |lines| ==> Strip(lines[k]) == "" {
      NoKeptLines(parse, ParseHeaders(lines[0]), ex);
    }
  }

  // ---------------------------------------------------------------------------
  // validate_csv_structure

  predicate IsEmptyCell(v: string) {
    v == ""
  }

  predicate IsFilledCell(v: string) {
    v != ""
  }

  /** The rows whose stripped value for `h` is empty. */
  function EmptyCount(data: seq<Row>, h: string): nat {
    Count(Cells(data, h), IsEmptyCell)
  }

  datatype CsvIssue = NoHeaders | DuplicateHeaders(names: set<string>)

  datatype CsvStats = CsvStats(emptyValues: map<string, nat>, totalRows: nat, completeness: map<string, real>)

  /** `stats` is `{}` when there is no data, here `None`. */
  datatype CsvValidation = CsvValidation(isValid: bool, issues: seq<CsvIssue>, stats: Option<CsvStats>)

  function Completeness(data: seq<Row>, h: string): real
    requires data != []
  {
    1.0 - EmptyCount(data, h) as real / |data| as real
  }

  /** `validate_csv_structure`: no headers is the one issue and returns at once;
      duplicate header names are reported without making the file invalid, and
      with data each header gets its empty count and completeness. */
  function ValidateCsvStructure(headers: seq<string>, data: seq<Row>): CsvValidation {
    if headers == [] then CsvValidation(false, [NoHeaders], None)
    else
      var dups := Duplicates(headers);
      var issues := if dups != {} then [DuplicateHeaders(dups)] else [];
      if data == [] then CsvValidation(true, issues, None)
      else
        CsvValidation(true, issues,
                      Some(CsvStats(map h | h in headers :: EmptyCount(data, h), |data|,
                                    map h | h in headers :: Completeness(data, h))))
  }

  /** Empty and filled cells split the rows. */
  lemma {:induction false} CountSplit(xs: seq<string>)
    ensures Count(xs, IsEmptyCell) + Count(xs, IsFilledCell) == |xs|
  {
    if xs != [] {
      CountSplit(xs[1..]);
    }
  }

  /** Valid exactly when there are headers; a duplicate issue exactly when two
      header positions hold the same name; with data, each header's completeness is
      its share of filled cells, in [0, 1]. */
  lemma ValidateCsvStructureSpec(headers: seq<string>, data: seq<Row>, h: string)
    ensures var v := ValidateCsvStructure(headers, data);
      && (v.isValid <==> headers != [])
      && (headers == [] ==> v.issues == [NoHeaders] && v.stats.None?)
      && (headers != [] ==>
            ((exists i, j :: 0 <= i < j < |headers| && headers[i] == headers[j]) <==>
               v.issues == [DuplicateHeaders(Duplicates(headers))]))
      && (v.stats.Some? <==> headers != [] && data != [])
    ensures var v := ValidateCsvStructure(headers, data);
      v.stats.Some? && h in headers ==>
        && h in v.stats.value.emptyValues && h in v.stats.value.completeness
        && v.stats.value.totalRows == |data|
        && v.stats.value.emptyValues[h] + Count(Cells(data, h), IsFilledCell) == |data|
        && v.stats.value.completeness[h] == Count(Cells(data, h), IsFilledCell) as real / |data| as real
        && 0.0 <= v.stats.value.completeness[h] <= 1.0
  {
    DuplicatesSpec(headers);
    if headers != [] && data != [] && h in headers {
      CompletenessShare(data, h);
    }
  }

  lemma CompletenessShare(data: seq<Row>, h: string)
    requires data != []
    ensures EmptyCount(data, h) + Count(Cells(data, h), IsFilledCell) == |data|
    ensures Completeness(data, h) == Count(Cells(data, h), IsFilledCell) as real / |data| as real
    ensures 0.0 <= Completeness(data, h) <= 1.0
  {
    var cs := Cells(data, h);
    CountSplit(cs);
    var e := EmptyCount(data, h);
    var f := Count(cs, IsFilledCell);
    Sets.RatioFacts(f, |data|);
    ShareComplement(e, f, |data|);
  }

  lemma ShareComplement(e: nat, f: nat, n: nat)
    requires n > 0 && e + f == n
    ensures 1.0 - e as real / n as real == f as real / n as real
  {
    var nr := n as real;
    var p, q := e as real / nr, f as real / nr;
    assert p * nr == e as real;
    assert q * nr == f as real;
    var d := 1.0 - p - q;
    assert d * nr == nr - p * nr - q * nr;
    assert d * nr == 0.0;
  }

  // ---------------------------------------------------------------------------
  // detect_field_types

  datatype ColumnType = Empty | Numeric | Mixed | Text

  /** `_is_numeric`: `float()` accepts the value once commas, '¥' and '円' are
      removed; `float` itself is a parameter. */
  predicate IsNumeric(isFloat: string -> bool, v: string) {
    isFloat(RemoveChar(RemoveChar(RemoveChar(v, ','), '¥'), '円'))
  }

  function NumericTest(isFloat: string -> bool): string -> bool {
    v => IsNumeric(isFloat, v)
  }

  /** The stripped non-empty values of a column. */
  function FilledValues(data: seq<Row>, h: string): seq<string> {
    Filter(Cells(data, h), IsFilledCell)
  }

  /** The type of one column from its filled values. */
  function ColumnTypeOf(isFloat: string -> bool, values: seq<string>): (t: ColumnType)
    ensures t == Empty <==> values == []
  {
    if values == [] then Empty
    else
      var ratio := Count(values, NumericTest(isFloat)) as real / |values| as real;
      if ratio >= 0.9 then Numeric else if ratio >= 0.5 then Mixed else Text
  }

  /** `detect_field_types`: one type per header name. */
  function DetectFieldTypes(isFloat: string -> bool, headers: seq<string>, data: seq<Row>)
    : (types: map<string, ColumnType>)
    ensures types.Keys == set h | h in headers
  {
    map h | h in headers :: ColumnTypeOf(isFloat, FilledValues(data, h))
  }

  /** 'empty' exactly when the column has no filled value. */
  lemma DetectFieldTypesSpec(isFloat: string -> bool, headers: seq<string>, data: seq<Row>, h: string)
    requires h in headers
    ensures DetectFieldTypes(isFloat, headers, data)[h] == ColumnTypeOf(isFloat, FilledValues(data, h))
    ensures DetectFieldTypes(isFloat, headers, data)[h] == Empty <==>
      forall i :: 0 <= i < |data| ==> CellValue(data[i], h) == ""
  {
    var t := DetectFieldTypes(isFloat, headers, data)[h];
    assert t == ColumnTypeOf(isFloat, FilledValues(data, h));
    FilledValuesEmpty(data, h);
  }

  lemma FilledValuesEmpty(data: seq<Row>, h: string)
    ensures FilledValues(data, h) == [] <==> forall i :: 0 <= i < |data| ==> CellValue(data[i], h) == ""
  {
    var vs := FilledValues(data, h);
    var cs := Cells(data, h);
    if forall i :: 0 <= i < |data| ==> CellValue(data[i], h) == "" {
      assert forall x :: x in cs ==> !IsFilledCell(x);
      FilterNone(cs, IsFilledCell);
    } else {
      var i :| 0 <= i < |data| && CellValue(data[i], h) != "";
      assert cs[i] in vs;
    }
  }

  /** With `c` numeric values out of `n` filled ones: 'numeric' when 10c >= 9n,
      'mixed' when 9n > 10c and 2c >= n, 'text' when 2c < n. */
  lemma ColumnTypeOfSpec(isFloat: string -> bool, vs: seq<string>)
    requires vs != []
    ensures var t := ColumnTypeOf(isFloat, vs);
            var c := Count(vs, NumericTest(isFloat));
            && (t == Numeric <==> 10 * c >= 9 * |vs|)
            && (t == Mixed <==> 10 * c < 9 * |vs| && 2 * c >= |vs|)
            && (t == Text <==> 2 * c < |vs|)
  {
    var c := Count(vs, NumericTest(isFloat));
    RatioAtLeast(c, |vs|, 9, 10);
    RatioAtLeast(c, |vs|, 1, 2);
  }

  /** `c/n >= a/b` exactly when `b·c >= a·n`. */
  lemma RatioAtLeast(c: nat, n: nat, a: nat, b: nat)
    requires n > 0 && b > 0
    ensures c as real / n as real >= a as real / b as real <==> b * c >= a * n
  {
    var q := c as real / n as real;
    assert q * n as real == c as real;
    assert (a as real / b as real) * b as real == a as real;
    assert (b * c) as real == b as real * c as real;
    assert (a * n) as real == a as real * n as real;
    if q >= a as real / b as real {
      assert q * (n as real * b as real) >= (a as real / b as real) * (n as real * b as real);
    }
    if b * c >= a * n {
      assert q * (n as real * b as real) >= (a as real / b as real) * (n as real * b as real);
    }
  }

  // ---------------------------------------------------------------------------
  // get_statistics

  datatype FieldStatistics = FieldStatistics(totalCount: nat, nonEmptyCount: nat, emptyCount: nat,
                                             uniqueCount: nat, completenessRatio: real,
                                             sampleValues: Option<seq<string>>)

  /** The headers are the first row's keys; their order is not kept. */
  datatype Statistics = Statistics(totalRows: nat, headers: set<string>, fieldCount: nat,
                                   fieldStatistics: map<string, FieldStatistics>)

  function FieldStatisticsOf(data: seq<Row>, h: string): FieldStatistics {
    var values := Cells(data, h);
    var filled := Filter(values, IsFilledCell);
    FieldStatistics(|values|, |filled|, |values| - |filled|, |set v | v in filled|,
                    if values != [] then |filled| as real / |values| as real else 0.0,
                    if filled != [] then Some(Take(filled, 3)) else None)
  }

  /** `get_statistics`: `{}` (here `None`) for no data, otherwise statistics for
      every key of the first row. */
  function GetStatistics(data: seq<Row>): Option<Statistics> {
    if data == [] then None
    else
      var first := data[0];
      Some(Statistics(|data|, first.Keys, |first|, map h | h in first.Keys :: FieldStatisticsOf(data, h)))
  }

  /** Per field the filled and empty counts add up to the row count, the distinct
      count is at most the filled count, the ratio is the filled share, and the
      samples are the first filled values, at most three, present exactly when
      something is filled. */
  lemma GetStatisticsSpec(data: seq<Row>, h: string)
    ensures GetStatistics(data).None? <==> data == []
    ensures data != [] ==>
      && GetStatistics(data).value.headers == data[0].Keys
      && GetStatistics(data).value.fieldStatistics.Keys == data[0].Keys
      && GetStatistics(data).value.fieldCount == |data[0]|
    ensures var s := FieldStatisticsOf(data, h);
            && s.totalCount == |data| == s.nonEmptyCount + s.emptyCount
            && s.nonEmptyCount == Count(Cells(data, h), IsFilledCell)
            && s.uniqueCount <= s.nonEmptyCount
            && 0.0 <= s.completenessRatio <= 1.0
            && (s.sampleValues.Some? <==> s.nonEmptyCount > 0)
            && (s.sampleValues.Some? ==>
                  |s.sampleValues.value| <= 3 && s.sampleValues.value == FilledValues(data, h)[..|s.sampleValues.value|])
  {
    var filled := FilledValues(data, h);
    SetOfSeqCard(filled);
    if data != [] {
      Sets.RatioFacts(|filled|, |data|);
    }
  }

  /** Both report the same completeness for a header of the first row. */
  lemma CompletenessAgrees(headers: seq<string>, data: seq<Row>, h: string)
    requires data != [] && h in headers && h in data[0]
    ensures ValidateCsvStructure(headers, data).stats.Some?
    ensures ValidateCsvStructure(headers, data).stats.value.completeness[h]
         == GetStatistics(data).value.fieldStatistics[h].completenessRatio
  {
    CompletenessShare(data, h);
  }
}
