/** Parsed CSV rows and the column-pair keys the engine builds from header names. */
module Rows {
  import opened Strings

  /** One parsed CSV row: header name to cell text. */
  type Row = map<string, string>

  /** `row.get(k, '')`: a missing column reads as the empty string. */
  function Get(row: Row, k: string): string {
    if k in row then row[k] else ""
  }

  /** `str(row.get(field, '')).strip()`. */
  function CellValue(row: Row, field: string): string {
    Strip(Get(row, field))
  }

  /** `[str(row.get(key, '')).strip() for row in rows]`. */
  function Cells(rows: seq<Row>, key: string): (r: seq<string>)
    ensures |r| == |rows| && forall i :: 0 <= i < |rows| ==> r[i] == CellValue(rows[i], key)
  {
    seq(|rows|, i requires 0 <= i < |rows| => CellValue(rows[i], key))
  }

  /** The separator of the `f"{field_a}→{field_b}"` keys. */
  const Arrow: char := '→'

  /** `f"{field_a}→{field_b}"`. */
  function PairKey(fa: string, fb: string): string {
    fa + [Arrow] + fb
  }

  /** Splitting a key built from two arrow-free headers gives the headers back;
      a header that holds an arrow makes the key split into more than two parts. */
  lemma PairKeySplit(fa: string, fb: string)
    ensures Arrow !in fa && Arrow !in fb ==> Split(PairKey(fa, fb), Arrow) == [fa, fb]
    ensures Arrow in fa || Arrow in fb ==> |Split(PairKey(fa, fb), Arrow)| > 2
  {
    if Arrow !in fa && Arrow !in fb {
      SplitTwo(fa, fb, Arrow);
    } else {
      SplitPartsCount(PairKey(fa, fb), Arrow);
      ArrowCount(fa, fb);
    }
  }

  /** Number of occurrences of `c` in `s`. */
  function Occurrences(s: string, c: char): nat {
    if s == [] then 0 else (if s[0] == c then 1 else 0) + Occurrences(s[1..], c)
  }

  lemma {:induction false} OccurrencesConcat(a: string, b: string, c: char)
    ensures Occurrences(a + b, c) == Occurrences(a, c) + Occurrences(b, c)
  {
    if a == [] {
      assert a + b == b;
    } else {
      assert (a + b)[1..] == a[1..] + b;
      OccurrencesConcat(a[1..], b, c);
    }
  }

  lemma {:induction false} OccurrencesPositive(s: string, c: char)
    ensures c in s <==> Occurrences(s, c) > 0
  {
    if s != [] {
      OccurrencesPositive(s[1..], c);
      assert s == [s[0]] + s[1..];
    }
  }

  lemma ArrowCount(fa: string, fb: string)
    requires Arrow in fa || Arrow in fb
    ensures Occurrences(PairKey(fa, fb), Arrow) >= 2
  {
    OccurrencesConcat(fa + [Arrow], fb, Arrow);
    OccurrencesConcat(fa, [Arrow], Arrow);
    OccurrencesPositive(fa, Arrow);
    OccurrencesPositive(fb, Arrow);
  }

  /** `split` yields one more part than there are separators. */
  lemma {:induction false} SplitPartsCount(s: string, c: char)
    ensures |Split(s, c)| == Occurrences(s, c) + 1
    decreases |s|
  {
    if c in s {
      var i := IndexOf(s, c);
      SplitPartsCount(s[i + 1..], c);
      assert s == s[..i] + [c] + s[i + 1..];
      OccurrencesConcat(s[..i] + [c], s[i + 1..], c);
      OccurrencesConcat(s[..i], [c], c);
      OccurrencesPositive(s[..i], c);
    } else {
      OccurrencesPositive(s, c);
    }
  }
}
