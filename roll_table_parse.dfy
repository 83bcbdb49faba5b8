/**
  The number parser of `rusty-roll-tables`: `digit1`, then the digits'
  text parsed as an `i32` and unwrapped.
 */
module RollTableParse {
  import opened Wrappers
  import opened Numbers
  import opened Nom

  /**
    `parse_number`. The `unwrap` panics on a digit run above `i32::MAX`,
    so such a run is excluded by the precondition.
   */
  function ParseNumber(s: string): (r: ParseResult<i32>)
    requires DigitSpan(s) >= 1 ==> Value(s[..DigitSpan(s)]) <= I32_MAX
    ensures r.Done? <==> |s| >= 1 && IsDigit(s[0])
    ensures r.Done? ==> IsSuffix(r.rest, s) && s == s[..|s| - |r.rest|] + r.rest
    ensures r.Done? ==> AllDigits(s[..|s| - |r.rest|]) && (r.rest == [] || !IsDigit(r.rest[0]))
    ensures r.Done? ==> r.value == Value(s[..|s| - |r.rest|])
    ensures !r.OutOfFuel?
  {
    match Digit1(s)
    case Done(rest, digits) =>
      assert digits == s[..|s| - |rest|];
      Done(rest, ParseI32(digits).value)
    case _ => Fail
  }

  /**
    Reading back the decimal text of a non-negative `i32` gives the number
    and leaves what follows the digits.
   */
  lemma ParseNumberShow(n: nat, t: string)
    requires n <= I32_MAX && (t == [] || !IsDigit(t[0]))
    ensures DigitSpan(ShowNat(n) + t) == |ShowNat(n)|
    ensures (ShowNat(n) + t)[..|ShowNat(n)|] == ShowNat(n) && Value(ShowNat(n)) == n
    ensures ParseNumber(ShowNat(n) + t) == Done(t, n)
  {
    var w := ShowNat(n);
    DigitSpanOfDigits(w, t);
    ValueOfShowNat(n);
    assert (w + t)[..|w|] == w;
  }
}
