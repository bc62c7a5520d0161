/** The ASCII character classes and case mapping the converter relies on. */
module Ascii {

  predicate IsLetter(c: char) {
    'a' <= c <= 'z' || 'A' <= c <= 'Z'
  }

  predicate IsDigit(c: char) {
    '0' <= c <= '9'
  }

  function DigitValue(c: char): (d: nat)
    requires IsDigit(c)
    ensures d <= 9
  {
    c as int - '0' as int
  }

  /** One character lower-cased: an upper-case ASCII letter moves 32 code points down to its lower-case letter. */
  function LowerChar(c: char): (r: char)
    ensures 'A' <= c <= 'Z' ==> r as int == c as int + 32 && 'a' <= r <= 'z'
    ensures !('A' <= c <= 'Z') ==> r == c
  {
    if 'A' <= c <= 'Z' then (c as int - 'A' as int + 'a' as int) as char else c
  }

  /** `s` with every upper-case ASCII letter lower-cased. */
  function Lower(s: string): (r: string)
    ensures |r| == |s|
    ensures forall i :: 0 <= i < |s| ==> r[i] == LowerChar(s[i])
    ensures forall i :: 0 <= i < |s| ==> !('A' <= r[i] <= 'Z')
  {
    seq(|s|, i requires 0 <= i < |s| => LowerChar(s[i]))
  }

  /**
   * A string lower-cases to "true" exactly when it has four characters, each
   * the letter of "true" in either case.
   */
  lemma LowerIsTrue(t: string)
    ensures Lower(t) == "true" <==>
      |t| == 4 && forall i :: 0 <= i < 4 ==> t[i] == "true"[i] || t[i] == "TRUE"[i]
  {
    if |t| == 4 && Lower(t) != "true" {
      var k :| 0 <= k < 4 && Lower(t)[k] != "true"[k];
      assert Lower(t)[k] == LowerChar(t[k]);
    }
  }
}
