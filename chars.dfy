/** The character classes of Python's `re` module (`\w`, `\d`, `\s`) and of
    `str.isspace`, restricted to ASCII. */
module Chars {

  datatype CharClass = Word | Digit | Space

  /** `\w`: letters, digits and the underscore. */
  predicate IsWordChar(c: char) {
    ('a' <= c <= 'z') || ('A' <= c <= 'Z') || ('0' <= c <= '9') || c == '_'
  }

  /** `\d`. */
  predicate IsDigitChar(c: char) {
    '0' <= c <= '9'
  }

  /** `\s` and `str.isspace`: space, tab, line feed, vertical tab, form feed,
      carriage return and the four ASCII separators 0x1C-0x1F. */
  predicate IsSpaceChar(c: char) {
    c == ' ' || ('\t' <= c <= '\r') || ('\U{1C}' <= c <= '\U{1F}')
  }

  predicate InClass(c: char, cls: CharClass) {
    match cls
    case Word => IsWordChar(c)
    case Digit => IsDigitChar(c)
    case Space => IsSpaceChar(c)
  }

  /** Every character of `s` belongs to `cls`. */
  predicate AllIn(s: string, cls: CharClass) {
    forall k :: 0 <= k < |s| ==> InClass(s[k], cls)
  }

  /** A non-empty run of `cls`, what `\w+`, `\d+` or `\s+` consumes. */
  predicate IsRun(s: string, cls: CharClass) {
    |s| > 0 && AllIn(s, cls)
  }
}
