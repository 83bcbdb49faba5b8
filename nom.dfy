/**
  The parsing primitives of the `nom` crate that the parsers use, on `&str`
  input in "complete" mode. A parser maps its input to the input it leaves
  unconsumed and a value, or fails. nom's error value (its diagnostic text)
  is not modelled: a failure is the single value `Fail`. `OutOfFuel` marks a
  recursion that has exhausted the nesting bound a caller gave it; only the
  mutually recursive expression-kind parsers produce it.
 */
module Nom {
  import opened Numbers

  datatype ParseResult<+T> = Done(rest: string, value: T) | Fail | OutOfFuel

  /** `t` is what is left of `s` after some prefix of `s` has been consumed. */
  predicate IsSuffix(t: string, s: string) {
    |t| <= |s| && t == s[|s| - |t|..]
  }

  lemma SuffixTransitive(u: string, t: string, s: string)
    requires IsSuffix(u, t) && IsSuffix(t, s)
    ensures IsSuffix(u, s)
  {
    assert s[|s| - |t|..][|t| - |u|..] == s[|s| - |u|..];
  }

  /** `digit1`: one or more decimal digits; the digits are the value. */
  function Digit1(s: string): (r: ParseResult<string>)
    ensures r.Done? <==> DigitSpan(s) >= 1
    ensures r.Done? ==> r.value == s[..DigitSpan(s)] && r.rest == s[DigitSpan(s)..]
    ensures !r.OutOfFuel?
  {
    var k := DigitSpan(s);
    if k == 0 then Fail else Done(s[k..], s[..k])
  }

  predicate IsMultispace(c: char) {
    c == ' ' || c == '\t' || c == '\r' || c == '\n'
  }

  predicate IsSpace(c: char) {
    c == ' ' || c == '\t'
  }

  /** `multispace0`: skips spaces, tabs, carriage returns and line feeds; never fails. */
  function Multispace0(s: string): (rest: string)
    ensures IsSuffix(rest, s)
    ensures rest == [] || !IsMultispace(rest[0])
    ensures forall i | 0 <= i < |s| - |rest| :: IsMultispace(s[i])
  {
    if |s| > 0 && IsMultispace(s[0]) then Multispace0(s[1..]) else s
  }

  /** `space0`: skips spaces and tabs; never fails. */
  function Space0(s: string): (rest: string)
    ensures IsSuffix(rest, s)
    ensures rest == [] || !IsSpace(rest[0])
    ensures forall i | 0 <= i < |s| - |rest| :: IsSpace(s[i])
  {
    if |s| > 0 && IsSpace(s[0]) then Space0(s[1..]) else s
  }

  /** `tag` of a one-character literal. */
  function Tag(s: string, c: char): (r: ParseResult<char>)
    ensures r.Done? <==> |s| >= 1 && s[0] == c
    ensures r.Done? ==> r.rest == s[1..] && r.value == c
    ensures !r.OutOfFuel?
  {
    if |s| >= 1 && s[0] == c then Done(s[1..], c) else Fail
  }

  /**
    `take_until` of a one-character literal (complete mode): everything before
    the first occurrence of `c`, which is left in the input; fails when `c`
    does not occur at all.
   */
  function TakeUntil(s: string, c: char): (r: ParseResult<string>)
    ensures r.Done? <==> c in s
    ensures r.Done? ==> c !in r.value && s == r.value + r.rest && r.rest[0] == c
    ensures !r.OutOfFuel?
  {
    if c in s then
      var i := IndexOf(s, c);
      assert s == s[..i] + s[i..];
      Done(s[i..], s[..i])
    else Fail
  }

  /** The position of the first `c` in `s`. */
  function IndexOf(s: string, c: char): (i: nat)
    requires c in s
    ensures i < |s| && s[i] == c && c !in s[..i]
  {
    if s[0] == c then 0
    else
      assert s == [s[0]] + s[1..];
      var j := IndexOf(s[1..], c);
      assert s[..j + 1] == [s[0]] + s[1..][..j];
      j + 1
  }

  lemma Multispace0OfNonSpace(s: string)
    requires s == [] || !IsMultispace(s[0])
    ensures Multispace0(s) == s
  {
  }

  lemma {:induction false} Multispace0Skip(w: string, s: string)
    requires forall i | 0 <= i < |w| :: IsMultispace(w[i])
    requires s == [] || !IsMultispace(s[0])
    ensures Multispace0(w + s) == s
    decreases |w|
  {
    if |w| > 0 {
      assert IsMultispace((w + s)[0]);
      assert (w + s)[1..] == w[1..] + s;
      assert forall i | 0 <= i < |w[1..]| :: IsMultispace(w[1..][i]) by {
        forall i | 0 <= i < |w[1..]| ensures IsMultispace(w[1..][i]) {
          assert w[1..][i] == w[i + 1];
        }
      }
      Multispace0Skip(w[1..], s);
    } else {
      assert w + s == s;
    }
  }

  /** `take_until` stops at the first `c`, which is the one after a `c`-free prefix. */
  lemma TakeUntilFirst(w: string, c: char, rest: string)
    requires c !in w
    ensures TakeUntil(w + ([c] + rest), c) == Done([c] + rest, w)
  {
    var s := w + ([c] + rest);
    assert s[|w|] == c;
    assert s[..|w|] == w;
  }
}
