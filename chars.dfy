/** Character classes the application relies on through Python's `re` module and `str`
    methods. Digits are ASCII only; letters and other word characters are ASCII and Latin-1 (the range
    that covers Portuguese text). */
module Chars {

  /** `\d`, restricted to ASCII. */
  predicate IsDigit(c: char) {
    '0' <= c <= '9'
  }

  predicate IsAsciiLetter(c: char) {
    'a' <= c <= 'z' || 'A' <= c <= 'Z'
  }

  /** The letters of the Latin-1 Supplement block: ª, µ, º and À..ÿ except × and ÷. */
  predicate IsLatin1Letter(c: char) {
    c == '\U{00AA}' || c == '\U{00B5}' || c == '\U{00BA}'
    || ('\U{00C0}' <= c <= '\U{00FF}' && c != '\U{00D7}' && c != '\U{00F7}')
  }

  /** The Latin-1 characters `str.isnumeric` accepts besides the digits: superscripts ², ³
      and ¹, and the fractions ¼, ½ and ¾. */
  predicate IsLatin1Numeric(c: char) {
    c == '\U{00B2}' || c == '\U{00B3}' || c == '\U{00B9}' || '\U{00BC}' <= c <= '\U{00BE}'
  }

  /** `\w`: what `str.isalnum` accepts, and the underscore. Word boundaries `\b` are defined
      by it. */
  predicate IsWordChar(c: char) {
    IsAsciiLetter(c) || IsDigit(c) || c == '_' || IsLatin1Letter(c) || IsLatin1Numeric(c)
  }

  /** Python's `str.isspace`, the set `str.strip()` removes and `float()` ignores. */
  predicate IsSpace(c: char) {
    c == ' ' || '\t' <= c <= '\r' || '\U{001C}' <= c <= '\U{001F}'
    || c == '\U{0085}' || c == '\U{00A0}' || c == '\U{1680}'
    || '\U{2000}' <= c <= '\U{200A}' || c == '\U{2028}' || c == '\U{2029}'
    || c == '\U{202F}' || c == '\U{205F}' || c == '\U{3000}'
  }

  /** `str.lower` on one character: ASCII A..Z and the Latin-1 capitals À..Þ (except ×). */
  function Lower(c: char): (r: char)
    ensures IsDigit(r) <==> IsDigit(c)
    ensures 'A' <= c <= 'Z' ==> 'a' <= r <= 'z'
  {
    if 'A' <= c <= 'Z' || ('\U{00C0}' <= c <= '\U{00DE}' && c != '\U{00D7}')
    then (c as int + 32) as char
    else c
  }

  /** The character a case-insensitive `re` pattern compares: `Lower`, plus the equivalences
      Python adds for İ, ı (both match `i`), ſ (matches `s`) and the Kelvin sign (matches `k`). */
  function Fold(c: char): char {
    if c == '\U{0130}' || c == '\U{0131}' then 'i'
    else if c == '\U{017F}' then 's'
    else if c == '\U{212A}' then 'k'
    else Lower(c)
  }

  /** Lower-casing first does not change what a case-insensitive match sees. */
  lemma FoldLower(c: char)
    ensures Fold(Lower(c)) == Fold(c)
  {
  }
}
