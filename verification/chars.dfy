/** Character classes behind Python's `str` methods and `re` classes, as the
    modelled code uses them. Case mapping is ASCII-only; `IsSpace` is exactly the
    set for which Python's `str.isspace()` holds; the word and letter classes cover
    ASCII plus the kana letters and the CJK-ideograph block, and the digit class
    is ASCII only, so all three are subsets of Python's Unicode classes. */
module Chars {

  const Bom: char := '\U{FEFF}'
  const FullWidthAmpersand: char := '＆'
  const IdeographicSpace: char := '\U{3000}'

  /** Python's `str.isspace()`: the characters with bidirectional class WS, B or S,
      or general category Zs. */
  predicate IsSpace(c: char) {
    || c == ' ' || c == '\t' || c == '\n' || c == '\r'
    || c == '\U{0B}' || c == '\U{0C}'
    || ('\U{1C}' <= c <= '\U{1F}')
    || c == '\U{85}' || c == '\U{A0}' || c == '\U{1680}'
    || ('\U{2000}' <= c <= '\U{200A}')
    || c == '\U{2028}' || c == '\U{2029}' || c == '\U{202F}' || c == '\U{205F}'
    || c == '\U{3000}'
  }

  /** ASCII digits only: Python's `str.isdigit()` also accepts full-width and other
      Unicode digits. */
  predicate IsDigit(c: char) {
    '0' <= c <= '9'
  }

  predicate IsAsciiUpper(c: char) {
    'A' <= c <= 'Z'
  }

  predicate IsAsciiLower(c: char) {
    'a' <= c <= 'z'
  }

  predicate IsAsciiLetter(c: char) {
    IsAsciiUpper(c) || IsAsciiLower(c)
  }

  /** The block `[ぁ-ゟ]` of the token regex. */
  predicate IsHiragana(c: char) {
    '\U{3041}' <= c <= '\U{309F}'
  }

  /** The block `[ァ-ヿ]` of the token regex. */
  predicate IsKatakana(c: char) {
    '\U{30A1}' <= c <= '\U{30FF}'
  }

  /** The block `[一-龯]` of the token regex. */
  predicate IsKanji(c: char) {
    '\U{4E00}' <= c <= '\U{9FAF}'
  }

  /** The hiragana letters (general category Lo or Lm): the block without the
      unassigned U+3097-3098, the combining voicing marks U+3099-309A and the
      spacing marks '゛' and '゜' (U+309B-309C). */
  predicate IsHiraganaLetter(c: char) {
    ('\U{3041}' <= c <= '\U{3096}') || ('\U{309D}' <= c <= '\U{309F}')
  }

  /** The katakana letters: the block without the middle dot '・' (U+30FB), which
      is punctuation. */
  predicate IsKatakanaLetter(c: char) {
    ('\U{30A1}' <= c <= '\U{30FA}') || ('\U{30FC}' <= c <= '\U{30FF}')
  }

  /** Python's `str.isalpha()`, restricted to ASCII, the kana letters and the CJK
      block. */
  predicate IsAlpha(c: char) {
    IsAsciiLetter(c) || IsHiraganaLetter(c) || IsKatakanaLetter(c) || IsKanji(c)
  }

  /** An approximation of Python's `str.isalnum()`: ASCII letters and digits, kana
      and the CJK block; Latin letters with diacritics such as 'é', full-width forms
      and other scripts are left out. */
  predicate IsAlnum(c: char) {
    IsAlpha(c) || IsDigit(c)
  }

  /** An approximation of the regex class `\w`: `IsAlnum` plus '_'. */
  predicate IsWordChar(c: char) {
    IsAlnum(c) || c == '_'
  }

  /** ASCII case mapping only: Python's `lower()` also maps full-width, Greek,
      Cyrillic and accented capitals. */
  function ToLower(c: char): char {
    if IsAsciiUpper(c) then (c as int + 32) as char else c
  }

  /** ASCII case mapping only, like `ToLower`. */
  function ToUpper(c: char): char {
    if IsAsciiLower(c) then (c as int - 32) as char else c
  }

  lemma ToLowerFacts(c: char)
    ensures ToLower(ToLower(c)) == ToLower(c)
    ensures !IsAsciiUpper(ToLower(c))
    ensures IsSpace(ToLower(c)) <==> IsSpace(c)
    ensures IsWordChar(ToLower(c)) <==> IsWordChar(c)
    ensures ToLower(c) == c <==> !IsAsciiUpper(c)
  {
  }

  lemma ToUpperFacts(c: char)
    ensures ToUpper(ToUpper(c)) == ToUpper(c)
    ensures !IsAsciiLower(ToUpper(c))
    ensures IsSpace(ToUpper(c)) <==> IsSpace(c)
    ensures ToUpper(c) == c <==> !IsAsciiLower(c)
  {
  }
}
