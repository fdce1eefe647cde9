/** Character classes used by the text rewrites of the factsheet parser. */
module CharClass {

  /** Python's `str.isspace`, which is also what the `\s` class of `re` matches on str patterns:
    * the space, tab to carriage return, the four separators `\x1c`-`\x1f`, NEL, the no-break
    * space and the spaces of the Unicode Zs, Zl and Zp categories. */
  const SPACE_CHARS: set<char> := {
    ' ', '\t', '\n', '\U{0B}', '\U{0C}', '\r', '\U{1C}', '\U{1D}', '\U{1E}', '\U{1F}',
    '\U{85}', '\U{A0}', '\U{1680}',
    '\U{2000}', '\U{2001}', '\U{2002}', '\U{2003}', '\U{2004}', '\U{2005}', '\U{2006}',
    '\U{2007}', '\U{2008}', '\U{2009}', '\U{200A}',
    '\U{2028}', '\U{2029}', '\U{202F}', '\U{205F}', '\U{3000}'
  }

  predicate IsSpace(c: char) {
    c in SPACE_CHARS
  }

  /** The regex classes `[A-Z]`, `[a-z]`, `[A-Za-z]`. */
  predicate IsUpper(c: char) { 'A' <= c <= 'Z' }
  predicate IsLower(c: char) { 'a' <= c <= 'z' }
  predicate IsLetter(c: char) { IsUpper(c) || IsLower(c) }

  /** `\d`, restricted to the ASCII digits. */
  predicate IsDigit(c: char) { '0' <= c <= '9' }

  /** `\w`, restricted to ASCII letters, digits and the underscore. */
  predicate IsWordChar(c: char) { IsLetter(c) || IsDigit(c) || c == '_' }

  /** Lower-casing of ASCII letters; every other character is left alone. */
  function ToLower(c: char): (d: char)
    ensures IsLetter(c) <==> IsLetter(d)
    ensures IsLetter(c) ==> IsLower(d)
    ensures !IsUpper(c) ==> d == c
  {
    if IsUpper(c) then (c as int - 'A' as int + 'a' as int) as char else c
  }

  /** Upper-casing of ASCII letters. */
  function ToUpper(c: char): (d: char)
    ensures IsLetter(c) <==> IsLetter(d)
    ensures IsLetter(c) ==> IsUpper(d)
    ensures !IsLower(c) ==> d == c
  {
    if IsLower(c) then (c as int - 'a' as int + 'A' as int) as char else c
  }
}
