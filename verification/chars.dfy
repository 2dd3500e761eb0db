/**
 * Character classes used by the string operations of the assistant:
 * Python's whitespace set (str.strip, regex \s), the digit and word classes
 * of the regular expressions (\d, \w) and a lower-casing map (str.lower).
 */
module Chars {

  /**
   * Exactly the code points for which Python's str.isspace holds; these are
   * the characters str.strip() removes and the regex class \s matches.
   */
  predicate IsSpace(c: char) {
    || c == ' '
    || ('\t' <= c <= '\r')
    || ('\U{1C}' <= c <= '\U{1F}')
    || c == '\U{85}'
    || c == '\U{A0}'
    || c == '\U{1680}'
    || ('\U{2000}' <= c <= '\U{200A}')
    || c == '\U{2028}'
    || c == '\U{2029}'
    || c == '\U{202F}'
    || c == '\U{205F}'
    || c == '\U{3000}'
  }

  /** The regex class \d, restricted to ASCII digits. */
  predicate IsDigit(c: char) {
    '0' <= c <= '9'
  }

  /**
   * The regex class \w: ASCII letters, digits and underscore, and every
   * non-ASCII character that is not whitespace and not one of the marks below
   * (Latin accented letters, Arabic letters and digits, superscript digits and
   * vulgar fractions are word characters).
   */
  predicate IsWordChar(c: char) {
    || ('a' <= c <= 'z')
    || ('A' <= c <= 'Z')
    || IsDigit(c)
    || c == '_'
    || (c >= '\U{80}' && !IsSpace(c) && !IsNonAsciiMark(c))
  }

  /**
   * Non-ASCII characters that are neither letters nor digits: the Latin-1
   * controls, punctuation and symbols (the guillemets, the degree sign, the
   * multiplication and division signs, ...), the general punctuation block
   * (typographic quotes and dashes, the ellipsis, invisible format
   * characters) and the Arabic punctuation marks.
   */
  predicate IsNonAsciiMark(c: char) {
    || ('\U{80}' <= c <= '\U{A9}')
    || ('\U{AB}' <= c <= '\U{B1}')
    || c == '\U{B4}'
    || ('\U{B6}' <= c <= '\U{B8}')
    || c == '\U{BB}'
    || c == '\U{BF}'
    || c == '\U{D7}'
    || c == '\U{F7}'
    || c == '\U{060C}'
    || c == '\U{061B}'
    || c == '\U{061F}'
    || ('\U{066A}' <= c <= '\U{066D}')
    || c == '\U{06D4}'
    || ('\U{200B}' <= c <= '\U{206F}')
  }

  /** The capital letters str.lower maps here: ASCII and Latin-1, but not the multiplication sign. */
  predicate IsUpper(c: char) {
    ('A' <= c <= 'Z') || ('\U{C0}' <= c <= '\U{DE}' && c != '\U{D7}')
  }

  /** str.lower on one character, for ASCII and the Latin-1 capital letters. */
  function LowerChar(c: char): (r: char)
    ensures IsWordChar(r) == IsWordChar(c)
    ensures IsSpace(r) == IsSpace(c)
    ensures !IsUpper(r)
    ensures !IsUpper(c) ==> r == c
  {
    if IsUpper(c) then (c as int + 32) as char else c
  }

  /**
   * str.lower on a string, character by character: no capital is left, and a
   * string without capitals is unchanged.
   */
  function Lower(s: string): (r: string)
    ensures |r| == |s|
    ensures forall i :: 0 <= i < |s| ==> r[i] == LowerChar(s[i])
    ensures forall i :: 0 <= i < |r| ==> !IsUpper(r[i])
    ensures (forall i :: 0 <= i < |s| ==> !IsUpper(s[i])) ==> r == s
  {
    seq(|s|, i requires 0 <= i < |s| => LowerChar(s[i]))
  }

  /** Lower-casing twice is lower-casing once. */
  lemma LowerIdempotent(s: string)
    ensures Lower(Lower(s)) == Lower(s)
  {
    var r := Lower(s);
    assert forall i :: 0 <= i < |r| ==> !IsUpper(r[i]);
  }

  /** Lower-casing a slice is slicing the lower-cased string. */
  lemma LowerSlice(s: string, a: nat, b: nat)
    requires a <= b <= |s|
    ensures Lower(s[a..b]) == Lower(s)[a..b]
  {
  }
}
