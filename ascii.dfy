/**
 * Upper-casing of symbols, as `str.upper()` does for ASCII text: the letters
 * a-z become A-Z and every other character is left as it is.
 */
module Ascii {

  predicate IsLower(c: char) {
    'a' <= c <= 'z'
  }

  /** No character of `s` is a lower-case letter. */
  predicate IsUpper(s: string) {
    forall i :: 0 <= i < |s| ==> !IsLower(s[i])
  }

  function UpperChar(c: char): (u: char)
    ensures !IsLower(u)
    ensures IsLower(c) ==> 'A' <= u <= 'Z' && u as int - 'A' as int == c as int - 'a' as int
    ensures !IsLower(c) ==> u == c
  {
    if IsLower(c) then (c as int - 'a' as int + 'A' as int) as char else c
  }

  /** The upper-cased form of a symbol: same length, no lower-case letter left,
      and a symbol already in upper case is its own upper-cased form. */
  function Upper(s: string): (r: string)
    ensures |r| == |s|
    ensures forall i :: 0 <= i < |s| ==> r[i] == UpperChar(s[i])
    ensures IsUpper(r)
    ensures r == s <==> IsUpper(s)
  {
    seq(|s|, i requires 0 <= i < |s| => UpperChar(s[i]))
  }
}
