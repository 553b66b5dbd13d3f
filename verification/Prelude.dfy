/** Types shared by every module of the project. */
module Prelude {

  datatype Option<+T> = None | Some(value: T)

  datatype Result<+T, +E> = Ok(value: T) | Err(error: E)

  /** Ceiling of `a / b`, as JavaScript's `Math.ceil` computes it, also for a negative `a`. */
  function CeilDiv(a: int, b: int): (q: int)
    requires b > 0
    ensures a <= q * b < a + b
  {
    -((-a) / b)
  }

  function Max(a: int, b: int): int {
    if a >= b then a else b
  }

  /** White space and line terminators of ECMAScript: what `\s` matches and `trim` removes. */
  predicate IsWhiteSpace(c: char) {
    || '\U{0009}' <= c <= '\U{000D}' || c == ' ' || c == '\U{00A0}' || c == '\U{1680}' || '\U{2000}' <= c <= '\U{200A}'
    || c == '\U{2028}' || c == '\U{2029}' || c == '\U{202F}' || c == '\U{205F}' || c == '\U{3000}' || c == '\U{FEFF}'
  }

  /** The characters that are white space, one by one. */
  lemma WhiteSpaceExact(c: char)
    ensures IsWhiteSpace(c) <==> c in {
      '\U{0009}', '\U{000A}', '\U{000B}', '\U{000C}', '\U{000D}', '\U{0020}', '\U{00A0}', '\U{1680}',
      '\U{2000}', '\U{2001}', '\U{2002}', '\U{2003}', '\U{2004}', '\U{2005}', '\U{2006}', '\U{2007}', '\U{2008}',
      '\U{2009}', '\U{200A}', '\U{2028}', '\U{2029}', '\U{202F}', '\U{205F}', '\U{3000}', '\U{FEFF}'}
  {
    assert '\U{0009}' <= c <= '\U{000D}' ==> c as int in {9, 10, 11, 12, 13};
    assert '\U{2000}' <= c <= '\U{200A}' ==> c as int - 0x2000 in {0, 1, 2, 3, 4, 5, 6, 7, 8, 9, 10};
  }

  /** A capital letter and its small letter. */
  predicate IsCasePair(capital: char, small: char) {
    'A' <= capital <= 'Z' && 'a' <= small <= 'z' && capital as int - 'A' as int == small as int - 'a' as int
  }

  /** Equal, or the two forms of one letter of the English alphabet. */
  predicate SameLetter(c: char, d: char) {
    c == d || IsCasePair(c, d) || IsCasePair(d, c)
  }
}
