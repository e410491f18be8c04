/** ASCII case folding, used for identifiers and for LIKE. */
module Ascii {
  function LowerChar(c: char): char {
    if 'A' <= c <= 'Z' then ((c as int) - ('A' as int) + ('a' as int)) as char else c
  }

  function Lower(s: string): (r: string)
    ensures |r| == |s|
  {
    seq(|s|, i requires 0 <= i < |s| => LowerChar(s[i]))
  }

  /** eq_ignore_ascii_case */
  predicate SameName(a: string, b: string) {
    Lower(a) == Lower(b)
  }
}
