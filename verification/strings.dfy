/** The Python `str` operations the modelled code relies on: case mapping,
    single-character replace and delete, `strip()`, the `in` operator on strings,
    `split(c)`, `split()` and `zfill(n)`. */
module Strings {
  import opened Chars

  function Lower(s: string): string {
    seq(|s|, i requires 0 <= i < |s| => ToLower(s[i]))
  }

  lemma LowerFixed(s: string)
    requires forall i :: 0 <= i < |s| ==> !IsAsciiUpper(s[i])
    ensures Lower(s) == s
  {
    forall i | 0 <= i < |s|
      ensures Lower(s)[i] == s[i]
    {
      ToLowerFacts(s[i]);
    }
  }

  function Upper(s: string): string {
    seq(|s|, i requires 0 <= i < |s| => ToUpper(s[i]))
  }

  /** `s.replace(a, b)` for single characters `a` and `b`. */
  function ReplaceChar(s: string, a: char, b: char): string {
    seq(|s|, i requires 0 <= i < |s| => if s[i] == a then b else s[i])
  }

  /** `s.replace(c, '')`. */
  function RemoveChar(s: string, c: char): (r: string)
    ensures |r| <= |s|
    ensures c !in r
    ensures forall x :: x in r ==> x in s
    ensures c !in s ==> r == s
  {
    if s == [] then []
    else (if s[0] == c then [] else [s[0]]) + RemoveChar(s[1..], c)
  }

  lemma {:induction false} RemoveCharConcat(a: string, b: string, c: char)
    ensures RemoveChar(a + b, c) == RemoveChar(a, c) + RemoveChar(b, c)
    decreases |a|
  {
    if a == [] {
      assert a + b == b;
    } else {
      var x, rest := a[0], a[1..];
      var h := if x == c then [] else [x];
      assert a == [x] + rest;
      assert a + b == [x] + (rest + b);
      RemoveCharCons(x, rest + b, c);
      RemoveCharCons(x, rest, c);
      RemoveCharConcat(rest, b, c);
      RegroupHead(h, RemoveChar(rest, c), RemoveChar(b, c), RemoveChar(a + b, c), RemoveChar(a, c));
    }
  }

  /** `w1 = h + (u + v)` and `w2 = h + u` give `w1 = w2 + v`. */
  lemma RegroupHead(h: string, u: string, v: string, w1: string, w2: string)
    requires w1 == h + (u + v) && w2 == h + u
    ensures w1 == w2 + v
  {
  }

  lemma RemoveCharCons(x: char, t: string, c: char)
    ensures RemoveChar([x] + t, c) == (if x == c then [] else [x]) + RemoveChar(t, c)
  {
    assert ([x] + t)[1..] == t;
  }

  /** A last character other than `c` survives the removal, and stays last. */
  lemma RemoveCharKeepsLast(s: string, c: char)
    requires s != [] && s[|s| - 1] != c
    ensures var r := RemoveChar(s, c); r != [] && r[|r| - 1] == s[|s| - 1]
  {
    var init, last := s[..|s| - 1], s[|s| - 1];
    assert s == init + [last];
    RemoveCharConcat(init, [last], c);
    assert RemoveChar([last], c) == [last];
  }

  /** Removing other characters never introduces `c`'s absence or presence. */
  lemma RemoveCharKeepsOthers(s: string, c: char, x: char)
    requires x != c
    ensures x in RemoveChar(s, c) <==> x in s
  {
    if s != [] {
      RemoveCharKeepsOthers(s[1..], c, x);
      assert s == [s[0]] + s[1..];
    }
  }

  /** `re.sub('[^...]', '', s)`: the characters of `s` that `keep` accepts, in order. */
  function KeepChars(s: string, keep: char -> bool): (r: string)
    ensures |r| <= |s|
    ensures forall i :: 0 <= i < |r| ==> keep(r[i]) && r[i] in s
    ensures (forall i :: 0 <= i < |s| ==> keep(s[i])) ==> r == s
  {
    if s == [] then []
    else (if keep(s[0]) then [s[0]] else []) + KeepChars(s[1..], keep)
  }

  /** Leading whitespace removed. */
  function TrimStart(s: string): (r: string)
    ensures |r| <= |s|
    ensures |s| > 0 && IsSpace(s[0]) ==> |r| < |s|
  {
    if |s| > 0 && IsSpace(s[0]) then TrimStart(s[1..]) else s
  }

  lemma {:induction false} TrimStartFacts(s: string)
    ensures var r := TrimStart(s);
            && r == s[|s| - |r|..]
            && (r == [] || !IsSpace(r[0]))
            && (forall i :: 0 <= i < |s| - |r| ==> IsSpace(s[i]))
            && (|s| > 0 && !IsSpace(s[0]) ==> r == s)
    decreases |s|
  {
    if |s| > 0 && IsSpace(s[0]) {
      TrimStartFacts(s[1..]);
      var r := TrimStart(s);
      assert s[1..][|s| - 1 - |r|..] == s[|s| - |r|..];
      forall i | 0 <= i < |s| - |r|
        ensures IsSpace(s[i])
      {
        if i > 0 {
          assert s[i] == s[1..][i - 1];
        }
      }
    }
  }

  /** Trailing whitespace removed. */
  function TrimEnd(s: string): (r: string)
    ensures |r| <= |s|
  {
    if |s| > 0 && IsSpace(s[|s| - 1]) then TrimEnd(s[..|s| - 1]) else s
  }

  lemma {:induction false} TrimEndFacts(s: string)
    ensures var r := TrimEnd(s);
            && r == s[..|r|]
            && (r == [] || !IsSpace(r[|r| - 1]))
            && (forall i :: |r| <= i < |s| ==> IsSpace(s[i]))
            && (|s| > 0 && !IsSpace(s[|s| - 1]) ==> r == s)
    decreases |s|
  {
    if |s| > 0 && IsSpace(s[|s| - 1]) {
      TrimEndFacts(s[..|s| - 1]);
      var r := TrimEnd(s);
      assert s[..|s| - 1][..|r|] == s[..|r|];
      forall i | |r| <= i < |s|
        ensures IsSpace(s[i])
      {
        if i < |s| - 1 {
          assert s[i] == s[..|s| - 1][i];
        }
      }
    }
  }

  /** `s.strip()`. */
  function Strip(s: string): string {
    TrimEnd(TrimStart(s))
  }

  /** A string `strip()` leaves alone: empty, or non-whitespace at both ends. */
  predicate IsStripped(s: string) {
    s == [] || (!IsSpace(s[0]) && !IsSpace(s[|s| - 1]))
  }

  lemma StripFacts(s: string)
    ensures IsStripped(Strip(s))
    ensures |Strip(s)| <= |s|
    ensures exists a :: 0 <= a <= |s| - |Strip(s)| && OccursAt(s, Strip(s), a)
    ensures IsStripped(s) ==> Strip(s) == s
    ensures Strip(s) == [] <==> forall i :: 0 <= i < |s| ==> IsSpace(s[i])
  {
    var t := TrimStart(s);
    var r := TrimEnd(t);
    TrimStartFacts(s);
    TrimEndFacts(t);
    var a := |s| - |t|;
    assert r == s[a..a + |r|];
    assert OccursAt(s, r, a);
    if r != [] {
      assert r[0] == t[0];
    }
    if IsStripped(s) && s != [] {
      assert t == s;
    }
    if r == [] {
      assert t == [];
    }
  }

  lemma StripIdempotent(s: string)
    ensures Strip(Strip(s)) == Strip(s)
  {
    StripFacts(s);
    StripFacts(Strip(s));
  }

  /** Every character of `Strip(s)` is a character of `s`. */
  lemma StripChars(s: string)
    ensures forall x :: x in Strip(s) ==> x in s
  {
    StripFacts(s);
  }

  /** Upper- and lower-casing commute with `strip()`, since case mapping never
      turns whitespace into non-whitespace or back. */
  lemma StripLower(s: string)
    ensures IsStripped(s) ==> IsStripped(Lower(s))
  {
    if s != [] {
      ToLowerFacts(s[0]);
      ToLowerFacts(s[|s| - 1]);
    }
  }

  lemma StripUpper(s: string)
    ensures IsStripped(s) ==> IsStripped(Upper(s))
  {
    if s != [] {
      ToUpperFacts(s[0]);
      ToUpperFacts(s[|s| - 1]);
    }
  }

  predicate IsPrefixOf(p: string, s: string) {
    |p| <= |s| && s[..|p|] == p
  }

  /** Python's `sub in s`. */
  predicate Contains(s: string, sub: string)
    decreases |s|
  {
    IsPrefixOf(sub, s) || (|s| > 0 && Contains(s[1..], sub))
  }

  lemma ContainsLength(s: string, sub: string)
    requires Contains(s, sub)
    ensures |sub| <= |s|
    ensures |sub| == |s| ==> sub == s
    decreases |s|
  {
    if !IsPrefixOf(sub, s) {
      ContainsLength(s[1..], sub);
    }
  }

  lemma ContainsSelf(s: string)
    ensures Contains(s, s)
  {
    assert IsPrefixOf(s, s);
  }

  lemma ContainsEmpty(s: string)
    ensures Contains(s, "")
  {
    assert IsPrefixOf("", s);
  }

  /** `sub` occurs in `s` starting at offset `i`. */
  predicate OccursAt(s: string, sub: string, i: int) {
    0 <= i <= |s| - |sub| && s[i..i + |sub|] == sub
  }

  /** `Contains` as a position: `sub` occurs in `s` at some offset. */
  lemma ContainsAt(s: string, sub: string)
    ensures Contains(s, sub) <==> exists i :: OccursAt(s, sub, i)
    decreases |s|
  {
    if IsPrefixOf(sub, s) {
      assert OccursAt(s, sub, 0);
    }
    if |s| > 0 {
      ContainsAt(s[1..], sub);
      if exists i :: OccursAt(s, sub, i) {
        var i :| OccursAt(s, sub, i);
        if i > 0 {
          assert OccursAt(s[1..], sub, i - 1);
        }
      }
      if Contains(s[1..], sub) && !IsPrefixOf(sub, s) {
        var i :| OccursAt(s[1..], sub, i);
        assert OccursAt(s, sub, i + 1);
      }
    }
  }

  /** A single character occurs as a substring exactly when it is an element. */
  lemma ContainsChar(s: string, c: char)
    ensures Contains(s, [c]) <==> c in s
  {
    ContainsAt(s, [c]);
    if c in s {
      var i :| 0 <= i < |s| && s[i] == c;
      assert OccursAt(s, [c], i);
    }
    if Contains(s, [c]) {
      var i :| OccursAt(s, [c], i);
      assert s[i] == s[i..i + 1][0];
    }
  }

  /** Every character of a contained string occurs in the containing one. */
  lemma ContainedChar(s: string, sub: string, c: char)
    requires Contains(s, sub) && c in sub
    ensures c in s
  {
    ContainsAt(s, sub);
    var i :| OccursAt(s, sub, i);
    var j :| 0 <= j < |sub| && sub[j] == c;
    assert s[i..i + |sub|][j] == c;
  }

  /** `any(p in s for p in patterns)`. */
  predicate AnyContains(s: string, patterns: seq<string>) {
    exists k :: 0 <= k < |patterns| && Contains(s, patterns[k])
  }

  /** The first position of `c` in `s`. */
  function IndexOf(s: string, c: char): (i: nat)
    requires c in s
    ensures i < |s| && s[i] == c && c !in s[..i]
  {
    if s[0] == c then 0 else 1 + IndexOf(s[1..], c)
  }

  /** `s.split(c)` for a one-character separator. */
  function Split(s: string, c: char): (parts: seq<string>)
    ensures |parts| >= 1
    ensures forall k :: 0 <= k < |parts| ==> c !in parts[k]
    decreases |s|
  {
    if c !in s then [s]
    else
      var i := IndexOf(s, c);
      [s[..i]] + Split(s[i + 1..], c)
  }

  lemma SplitCons(x: string, c: char, rest: string)
    requires c !in x
    ensures Split(x + [c] + rest, c) == [x] + Split(rest, c)
  {
    var s := x + [c] + rest;
    assert s[|x|] == c;
    var i := IndexOf(s, c);
    assert s[..|x|] == x;
    assert forall j :: 0 <= j < |x| ==> s[j] == x[j];
    assert s[|x|] in s[..i] || i <= |x|;
    assert i == |x|;
    assert s[|x| + 1..] == rest;
  }

  lemma SplitTwo(x: string, y: string, c: char)
    requires c !in x && c !in y
    ensures Split(x + [c] + y, c) == [x, y]
  {
    SplitCons(x, c, y);
    assert Split(y, c) == [y];
  }

  /** The part count of `split` is one more than the separator count, so a string
      splits into three parts exactly when it holds two separators. */
  lemma SplitThree(y: string, m: string, d: string, c: char)
    requires c !in y && c !in m && c !in d
    ensures Split(y + [c] + m + [c] + d, c) == [y, m, d]
  {
    var t := m + [c] + d;
    assert y + [c] + m + [c] + d == y + [c] + t;
    SplitCons(y, c, t);
    SplitCons(m, c, d);
    assert Split(d, c) == [d];
    assert Split(t, c) == [m, d];
  }

  /** Rejoining the parts with the separator gives back the string. */
  function Join(parts: seq<string>, c: char): string
    requires |parts| >= 1
  {
    if |parts| == 1 then parts[0] else parts[0] + [c] + Join(parts[1..], c)
  }

  lemma JoinSplit(s: string, c: char)
    ensures Join(Split(s, c), c) == s
    decreases |s|
  {
    if c in s {
      var i := IndexOf(s, c);
      JoinSplit(s[i + 1..], c);
      assert s == s[..i] + [c] + s[i + 1..];
    }
  }

  /** `str(i)` in decimal. */
  function NatToString(n: nat): (r: string)
    ensures |r| >= 1 && AllDigits(r)
  {
    var d := ['0', '1', '2', '3', '4', '5', '6', '7', '8', '9'][n % 10];
    if n < 10 then [d] else NatToString(n / 10) + [d]
  }

  /** Different numbers have different decimal texts. */
  lemma {:induction false} NatToStringInjective(a: nat, b: nat)
    requires NatToString(a) == NatToString(b)
    ensures a == b
    decreases a
  {
    var ra, rb := NatToString(a), NatToString(b);
    var digits := ['0', '1', '2', '3', '4', '5', '6', '7', '8', '9'];
    assert ra[|ra| - 1] == digits[a % 10] && rb[|rb| - 1] == digits[b % 10];
    assert a % 10 == b % 10;
    if a >= 10 && b >= 10 {
      assert ra[..|ra| - 1] == NatToString(a / 10);
      assert rb[..|rb| - 1] == NatToString(b / 10);
      NatToStringInjective(a / 10, b / 10);
    }
  }

  /** Python's `isdigit()` on a whole string: non-empty and all ASCII digits (see `IsDigit`). */
  predicate AllDigits(s: string) {
    |s| > 0 && forall i :: 0 <= i < |s| ==> IsDigit(s[i])
  }

  function Zeros(n: nat): (r: string)
    ensures |r| == n && forall i :: 0 <= i < n ==> r[i] == '0'
  {
    if n == 0 then [] else ['0'] + Zeros(n - 1)
  }

  /** `s.zfill(width)`: left-pad with '0' to `width`, keeping a leading sign first. */
  function ZFill(s: string, width: nat): (r: string)
    ensures |r| == if |s| >= width then |s| else width
  {
    if |s| >= width then s
    else if |s| > 0 && (s[0] == '+' || s[0] == '-') then [s[0]] + Zeros(width - |s|) + s[1..]
    else Zeros(width - |s|) + s
  }

  lemma ZFillDigits(s: string, width: nat)
    requires AllDigits(s)
    ensures AllDigits(ZFill(s, width))
    ensures ZFill(s, width) == Zeros(if |s| >= width then 0 else width - |s|) + s
  {
    if |s| >= width {
      assert Zeros(0) + s == s;
    }
    var r := ZFill(s, width);
    forall i | 0 <= i < |r|
      ensures IsDigit(r[i])
    {
      if |s| < width && i >= width - |s| {
        assert r[i] == s[i - (width - |s|)];
      }
    }
  }

  /** Length of the run of non-whitespace characters at the front of `s`. */
  function NonSpaceRun(s: string): (n: nat)
    ensures n <= |s|
    ensures forall i :: 0 <= i < n ==> !IsSpace(s[i])
    ensures n < |s| ==> IsSpace(s[n])
  {
    if |s| == 0 || IsSpace(s[0]) then 0 else 1 + NonSpaceRun(s[1..])
  }

  /** `s.split()`: the maximal runs of non-whitespace characters. */
  function Words(s: string): (ws: seq<string>)
    ensures forall k :: 0 <= k < |ws| ==> |ws[k]| > 0
    decreases |s|
  {
    var t := TrimStart(s);
    TrimStartFacts(s);
    if t == [] then []
    else
      var n := NonSpaceRun(t);
      [t[..n]] + Words(t[n..])
  }

  /** `not s.strip()`: the string is empty or all whitespace. */
  predicate IsBlank(s: string) {
    Strip(s) == []
  }
}
