/**
 Character classes used by the scanner and its consumers.

 The source relies on Python's `str.isspace`, `str.isalpha` and `str.isalnum`.
 These are modelled on ASCII only: a character outside ASCII is neither a
 letter, a digit nor whitespace.
 */
module Chars {

  /** `str.isspace` restricted to ASCII: tab, newline, vertical tab, form feed,
      carriage return, the four information separators and space. */
  predicate IsSpace(c: char) {
    (9 <= c as int <= 13) || (28 <= c as int <= 31) || c == ' '
  }

  /** Whitespace the scanner skips: everything `IsSpace` accepts except newline. */
  predicate IsBlank(c: char) {
    IsSpace(c) && c != '\n'
  }

  predicate IsAlpha(c: char) {
    ('a' <= c <= 'z') || ('A' <= c <= 'Z')
  }

  predicate IsDigit(c: char) {
    '0' <= c <= '9'
  }

  predicate IsAlnum(c: char) {
    IsAlpha(c) || IsDigit(c)
  }

  /** Characters that continue a name: alphanumerics and underscore. */
  predicate IsWordChar(c: char) {
    IsAlnum(c) || c == '_'
  }

  /** Characters that continue a number: digits and the dot. */
  predicate IsNumberChar(c: char) {
    IsDigit(c) || c == '.'
  }

  /** The operator character class `[!@#^&*-+=|<>/%.:]` of the scanner.
      Inside the class, `*-+` is a RANGE from '*' to '+', which holds only
      those two characters: the minus sign is not an operator character. */
  predicate IsOperatorChar(c: char) {
    || c == '!' || c == '@' || c == '#' || c == '^' || c == '&'
    || ('*' <= c <= '+')
    || c == '=' || c == '|' || c == '<' || c == '>' || c == '/'
    || c == '%' || c == '.' || c == ':'
  }

  /** The characters the scanner emits as one-character structural tokens. */
  predicate IsStructural(c: char) {
    c == ';' || c == '(' || c == ')' || c == '[' || c == ']' || c == ',' || c == '\n'
  }

  /** ASCII `str.lower` on one character. */
  function Lower(c: char): (r: char)
    ensures IsAlpha(c) ==> IsAlpha(r) && 'a' <= r <= 'z'
    ensures !('A' <= c <= 'Z') ==> r == c
  {
    if 'A' <= c <= 'Z' then (c as int + 32) as char else c
  }

  /** ASCII `str.lower` on a string. */
  function LowerString(s: string): (r: string)
    ensures |r| == |s|
    ensures forall i :: 0 <= i < |s| ==> r[i] == Lower(s[i])
  {
    if s == [] then [] else [Lower(s[0])] + LowerString(s[1..])
  }

  /** The characters the scanner can ever skip are never the first character of a token. */
  lemma ClassesDisjoint(c: char)
    ensures IsBlank(c) ==> !IsAlnum(c) && !IsOperatorChar(c) && !IsStructural(c)
    ensures IsStructural(c) ==> !IsAlnum(c) && !IsOperatorChar(c)
    ensures IsOperatorChar(c) ==> !IsAlnum(c) && !IsSpace(c)
    ensures IsDigit(c) ==> IsAlnum(c) && !IsAlpha(c)
    ensures !IsOperatorChar('-') && !IsOperatorChar('~')
  {
  }
}
