/**
 * Python's `int()` on text: an optional sign followed by ASCII digits, used
 * for the SplitsPerPage setting and for the fields of the start offset.
 */
module IntParse {
  import opened Wrappers
  import opened Ascii

  predicate AllDigits(s: string) {
    forall i :: 0 <= i < |s| ==> IsDigit(s[i])
  }

  /** The value of a string of decimal digits, the empty string counting 0. */
  function DecimalValue(s: string): nat
    requires AllDigits(s)
    decreases |s|
  {
    if s == [] then 0 else 10 * DecimalValue(s[..|s| - 1]) + DigitValue(s[|s| - 1])
  }

  /**
   * Python's `int(s)` on an optional sign followed by one or more ASCII digits;
   * None for the ValueError it raises on anything else.
   */
  function ParseInt(s: string): (r: Option<int>)
    ensures r.Some? <==>
      (|s| > 0 && AllDigits(s)) || (|s| > 1 && (s[0] == '+' || s[0] == '-') && AllDigits(s[1..]))
    ensures |s| > 0 && AllDigits(s) ==> r == Some(DecimalValue(s))
    ensures |s| > 1 && s[0] == '+' && AllDigits(s[1..]) ==> r == Some(DecimalValue(s[1..]))
    ensures |s| > 1 && s[0] == '-' && AllDigits(s[1..]) ==> r == Some(-(DecimalValue(s[1..]) as int))
  {
    if |s| > 0 && (s[0] == '+' || s[0] == '-') then
      var digits := s[1..];
      if |digits| > 0 && AllDigits(digits) then
        var magnitude: int := DecimalValue(digits);
        Some(if s[0] == '-' then -magnitude else magnitude)
      else None
    else if |s| > 0 && AllDigits(s) then Some(DecimalValue(s))
    else None
  }
}
