/**
 * The string operations the extension relies on: `String.prototype.toLowerCase`,
 * `includes` and `startsWith`.
 */
module Text {

  predicate IsUpper(c: char) {
    'A' <= c <= 'Z'
  }

  /** The lower-case form of one character (ASCII letters only). */
  function LowerChar(c: char): (r: char)
    ensures !IsUpper(r)
    ensures IsUpper(c) ==> r as int == c as int + 32
    ensures !IsUpper(c) ==> r == c
  {
    if IsUpper(c) then (c as int + 32) as char else c
  }

  /** `s.toLowerCase()`: every character lowered, the length unchanged. */
  function ToLower(s: string): (r: string)
    ensures |r| == |s|
    ensures forall i :: 0 <= i < |s| ==> r[i] == LowerChar(s[i])
  {
    if s == [] then [] else [LowerChar(s[0])] + ToLower(s[1..])
  }

  /** Two strings that differ at most in the case of their letters. */
  ghost predicate EqualIgnoringCase(a: string, b: string) {
    |a| == |b| && forall i :: 0 <= i < |a| ==> LowerChar(a[i]) == LowerChar(b[i])
  }

  /** Strings equal up to letter case have the same lower-case form. */
  lemma ToLowerIgnoresCase(a: string, b: string)
    requires EqualIgnoringCase(a, b)
    ensures ToLower(a) == ToLower(b)
  {
  }

  /** `s.startsWith(prefix)`. */
  predicate StartsWith(s: string, prefix: string)
    ensures StartsWith(s, prefix) <==>
              |prefix| <= |s| && forall i :: 0 <= i < |prefix| ==> s[i] == prefix[i]
  {
    |prefix| <= |s| && s[..|prefix|] == prefix
  }

  /** `s.includes(part)`: `part` occurs at some index of `s`. */
  predicate Includes(s: string, part: string)
    ensures part == [] ==> Includes(s, part)
    ensures Includes(s, part) ==> |part| <= |s|
    ensures StartsWith(s, part) ==> Includes(s, part)
  {
    assert s[0..] == s;
    exists i :: 0 <= i <= |s| && StartsWith(s[i..], part)
  }
}
