/**
  Machine integers and decimal text, as the Rust code uses them:
  the `u32` and `i32` ranges, decimal digit runs, the rendering `{}` gives a
  natural number, and the `str::parse` / `from_str_radix(_, 10)` conversions
  of the standard library for `u32` and `i32`.
 */
module Numbers {
  import opened Wrappers

  const U32_MAX: int := 0xFFFF_FFFF
  const I32_MAX: int := 0x7FFF_FFFF
  const I32_MIN: int := -0x8000_0000

  type u32 = x: int | 0 <= x <= 0xFFFF_FFFF
  type i32 = x: int | -0x8000_0000 <= x <= 0x7FFF_FFFF

  predicate IsDigit(c: char) {
    '0' <= c <= '9'
  }

  predicate AllDigits(s: string) {
    forall i | 0 <= i < |s| :: IsDigit(s[i])
  }

  function DigitValue(c: char): nat
    requires IsDigit(c)
  {
    c as int - '0' as int
  }

  function DigitChar(n: nat): (c: char)
    requires n < 10
    ensures IsDigit(c) && DigitValue(c) == n
  {
    ('0' as int + n) as char
  }

  /** The value of a run of decimal digits, most significant first. */
  function Value(s: string): nat
    requires AllDigits(s)
  {
    if |s| == 0 then 0 else 10 * Value(s[..|s| - 1]) + DigitValue(s[|s| - 1])
  }

  /** The decimal rendering of `n` that `format!("{}", n)` produces: no sign, no leading zero. */
  function ShowNat(n: nat): (r: string)
    ensures |r| >= 1 && AllDigits(r)
    ensures |r| > 1 ==> r[0] != '0'
  {
    if n < 10 then [DigitChar(n)] else ShowNat(n / 10) + [DigitChar(n % 10)]
  }

  lemma {:induction false} ValueOfShowNat(n: nat)
    ensures Value(ShowNat(n)) == n
  {
    if n >= 10 {
      var s := ShowNat(n);
      assert s[..|s| - 1] == ShowNat(n / 10);
      ValueOfShowNat(n / 10);
    }
  }

  lemma ShowNatInjective(m: nat, n: nat)
    requires ShowNat(m) == ShowNat(n)
    ensures m == n
  {
    ValueOfShowNat(m);
    ValueOfShowNat(n);
  }

  /** Length of the longest prefix of `s` made of decimal digits. */
  function DigitSpan(s: string): (k: nat)
    ensures k <= |s| && AllDigits(s[..k])
    ensures k < |s| ==> !IsDigit(s[k])
  {
    if |s| == 0 || !IsDigit(s[0]) then 0
    else
      var k := 1 + DigitSpan(s[1..]);
      assert s[..k] == [s[0]] + s[1..][..k - 1];
      k
  }

  lemma DigitSpanOfDigits(a: string, t: string)
    requires AllDigits(a)
    requires t == [] || !IsDigit(t[0])
    ensures DigitSpan(a + t) == |a|
    decreases |a|
  {
    if |a| > 0 {
      assert (a + t)[1..] == a[1..] + t;
      DigitSpanOfDigits(a[1..], t);
    }
  }

  /** Dropping the leading digit of a digit run never increases its value. */
  lemma {:induction false} ValueDropFirst(w: string)
    requires AllDigits(w) && |w| >= 1
    ensures Value(w[1..]) <= Value(w)
  {
    if |w| > 1 {
      var init := w[..|w| - 1];
      assert w[1..][..|w| - 2] == init[1..];
      assert w[1..][|w| - 2] == w[|w| - 1];
      ValueDropFirst(init);
    }
  }

  /** A digit run of at most `k` digits stays below 10^k. */
  lemma {:induction false} ValueBelowPower(s: string, k: nat)
    requires AllDigits(s) && |s| <= k
    ensures Value(s) < Pow10(k)
  {
    if |s| > 0 {
      ValueBelowPower(s[..|s| - 1], k - 1);
    } else {
      Pow10Positive(k);
    }
  }

  function Pow10(k: nat): nat {
    if k == 0 then 1 else 10 * Pow10(k - 1)
  }

  lemma {:induction false} Pow10Positive(k: nat)
    ensures Pow10(k) >= 1
  {
    if k > 0 { Pow10Positive(k - 1); }
  }

  /**
    `<u32 as FromStr>::from_str`, which is `u32::from_str_radix(t, 10)`:
    an optional leading '+' (a lone sign is refused, and '-' is never a sign
    for an unsigned type), then at least one decimal digit, and a value that
    fits in 32 bits.
   */
  function ParseU32(t: string): (r: Option<u32>)
    ensures AllDigits(t) ==> (r.Some? <==> |t| >= 1 && Value(t) <= U32_MAX)
    ensures AllDigits(t) && r.Some? ==> r.value == Value(t)
    ensures |t| >= 2 && t[0] == '+' && AllDigits(t[1..]) ==>
      (r.Some? <==> Value(t[1..]) <= U32_MAX) && (r.Some? ==> r.value == Value(t[1..]))
    ensures r.Some? ==> AllDigits(t) || (|t| >= 2 && t[0] == '+' && AllDigits(t[1..]))
  {
    var digits := if |t| >= 1 && t[0] == '+' then t[1..] else t;
    if |digits| == 0 || !AllDigits(digits) then None
    else
      var v := Value(digits);
      if v <= U32_MAX then Some(v) else None
  }

  /**
    `<i32 as FromStr>::from_str`: an optional sign ('+' or '-'), then at least
    one decimal digit, and a value in the `i32` range.
   */
  function ParseI32(t: string): (r: Option<i32>)
    ensures AllDigits(t) ==> (r.Some? <==> |t| >= 1 && Value(t) <= I32_MAX)
    ensures AllDigits(t) && r.Some? ==> r.value == Value(t)
    ensures |t| >= 2 && t[0] == '+' && AllDigits(t[1..]) ==>
      (r.Some? <==> Value(t[1..]) <= I32_MAX) && (r.Some? ==> r.value == Value(t[1..]))
    ensures |t| >= 2 && t[0] == '-' && AllDigits(t[1..]) ==>
      (r.Some? <==> Value(t[1..]) <= -I32_MIN) && (r.Some? ==> r.value == -(Value(t[1..]) as int))
    ensures r.Some? ==> AllDigits(t) || (|t| >= 2 && (t[0] == '+' || t[0] == '-') && AllDigits(t[1..]))
  {
    var negative := |t| >= 1 && t[0] == '-';
    var digits := if |t| >= 1 && (t[0] == '+' || t[0] == '-') then t[1..] else t;
    if |digits| == 0 || !AllDigits(digits) then None
    else
      var v: int := if negative then -(Value(digits) as int) else Value(digits);
      if I32_MIN <= v <= I32_MAX then Some(v) else None
  }

  lemma ParseU32OfShowNat(n: nat)
    requires n <= U32_MAX
    ensures ParseU32(ShowNat(n)) == Some(n)
  {
    ValueOfShowNat(n);
  }
}
