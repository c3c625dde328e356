/** White space, as the services strip it. */
module WhiteSpace {
  predicate IsSpace(c: char) {
    c in {' ', '\t', '\n', '\r', 11 as char, 12 as char, 28 as char, 29 as char, 30 as char, 31 as char, 133 as char,
          160 as char, 5760 as char, 8232 as char, 8233 as char, 8239 as char, 8287 as char, 12288 as char}
    || 8192 as char <= c <= 8202 as char
  }

  /** Nothing is left after stripping white space. */
  predicate Blank(s: string) {
    forall i :: 0 <= i < |s| ==> IsSpace(s[i])
  }
}
