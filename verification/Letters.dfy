/** Letters of the ASCII range, as the scanners know them. */
module Letters {
  predicate Letter(c: char) {
    'a' <= c <= 'z' || 'A' <= c <= 'Z'
  }

  predicate Blank(c: char) {
    c == ' ' || c == '\t'
  }

  function LowerChar(c: char): char {
    if 'A' <= c <= 'Z' then c - 'A' + 'a' else c
  }
}
