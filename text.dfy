/** Optional values, standing for JavaScript's `null` results and absent fields. */
module Options {
  datatype Option<+T> = None | Some(value: T)
}

/** Character classes and case mappings that the bot's string handling relies on. */
module Text {

  /** `\d` in a JavaScript regular expression without the `u` flag: ASCII digits only. */
  predicate IsDigit(c: char) {
    '0' <= c <= '9'
  }

  /** A numeral: every character is a `\d` digit. */
  predicate AllDigits(s: string) {
    forall i :: 0 <= i < |s| ==> IsDigit(s[i])
  }

  predicate IsAsciiLetter(c: char) {
    'a' <= c <= 'z' || 'A' <= c <= 'Z'
  }

  /** `\s` in a JavaScript regular expression: the WhiteSpace and LineTerminator characters. */
  predicate IsSpace(c: char) {
    c == ' ' || c == '\t' || c == '\n' || c == '\r' || c == '\U{000B}' || c == '\U{000C}'
    || c == '\U{00A0}' || c == '\U{1680}' || ('\U{2000}' <= c <= '\U{200A}')
    || c == '\U{2028}' || c == '\U{2029}' || c == '\U{202F}' || c == '\U{205F}'
    || c == '\U{3000}' || c == '\U{FEFF}'
  }

  lemma DigitsAndLettersAreNotSpaces(c: char)
    ensures IsDigit(c) ==> !IsSpace(c) && !IsAsciiLetter(c)
    ensures IsAsciiLetter(c) ==> !IsSpace(c)
  {
  }

  /** Case folding used by the `i` flag of a regular expression without the `u` flag,
      restricted to the ASCII letters the bot's patterns contain. */
  function AsciiLowerChar(c: char): (r: char)
    ensures IsAsciiLetter(c) <==> ('a' <= r <= 'z')
  {
    if 'A' <= c <= 'Z' then (c as int + 32) as char else c
  }

  function AsciiLower(s: string): (r: string)
    ensures |r| == |s|
  {
    seq(|s|, i requires 0 <= i < |s| => AsciiLowerChar(s[i]))
  }

  function AsciiUpperChar(c: char): (r: char)
    ensures 'a' <= c <= 'z' ==> 'A' <= r <= 'Z' && AsciiLowerChar(r) == c
    ensures 'A' <= c <= 'Z' ==> r == c
  {
    if 'a' <= c <= 'z' then (c as int - 32) as char else c
  }

  /** `String.prototype.toLowerCase`, one character at a time. ASCII capitals map to
      small letters and KELVIN SIGN (U+212A) maps to `k`; every other character is kept.
      For a comparison with an all-ASCII string this decides exactly as the Unicode
      mapping does: apart from these, a character whose lowering contains an ASCII letter
      also keeps a non-ASCII character in it (U+0130 lowers to `i` and U+0307), so it
      cannot equal the ASCII text; and no character lowers to a space. */
  function LowerChar(c: char): (r: char)
    ensures r == ' ' <==> c == ' '
  {
    if 'A' <= c <= 'Z' then (c as int + 32) as char
    else if c == '\U{212A}' then 'k'
    else c
  }

  function Lower(s: string): (r: string)
    ensures |r| == |s|
  {
    seq(|s|, i requires 0 <= i < |s| => LowerChar(s[i]))
  }
}
