/**
  Roll modifiers of `rusty-dice`: keep or drop the `n` highest or lowest
  results of a roll. Roll results are kept sorted ascending by `DiceRoll`, so
  "highest" means "last" and "lowest" means "first"; every modifier returns a
  contiguous slice of its input. The four modifier structs and the
  `RollModifiers` enum that wraps them are one datatype here.
 */
module Modifiers {
  import opened Numbers
  import opened Sorting

  /** `RollResults`: the values of one roll, one per die. */
  type RollResults = seq<u32>

  datatype RollModifier =
    | KeepHighest(n: nat)
    | DropLowest(n: nat)
    | KeepLowest(n: nat)
    | DropHighest(n: nat)

  function Min(a: nat, b: nat): nat {
    if a <= b then a else b
  }

  /** `usize::saturating_sub`. */
  function SaturatingSub(a: nat, b: nat): (r: nat)
    ensures r == if a >= b then a - b else 0
  {
    if a >= b then a - b else 0
  }

  /** `KeepHighest(n).apply`: skip all but the last `n` values; keeps everything when `n` exceeds the length. */
  function KeepHighestApply(n: nat, input: RollResults): (r: RollResults)
    ensures |r| == Min(n, |input|)
    ensures r == input[|input| - |r|..]
  {
    input[SaturatingSub(|input|, n)..]
  }

  /** `KeepLowest(n).apply`: take the first `n` values; keeps everything when `n` exceeds the length. */
  function KeepLowestApply(n: nat, input: RollResults): (r: RollResults)
    ensures |r| == Min(n, |input|)
    ensures r == input[..|r|]
  {
    if n <= |input| then input[..n] else input
  }

  /**
    `DropLowest(n).apply` is `KeepHighest(len - n).apply`; the `usize`
    subtraction underflows (a panic in debug builds) unless `n <= len`.
   */
  function DropLowestApply(n: nat, input: RollResults): (r: RollResults)
    requires n <= |input|
    ensures r == input[n..]
  {
    KeepHighestApply(|input| - n, input)
  }

  /** `DropHighest(n).apply` is `KeepLowest(len - n).apply`, again needing `n <= len`. */
  function DropHighestApply(n: nat, input: RollResults): (r: RollResults)
    requires n <= |input|
    ensures r == input[..|input| - n]
  {
    KeepLowestApply(|input| - n, input)
  }

  /** A modifier can be applied to `len` results without a `usize` underflow. */
  predicate Applicable(m: RollModifier, len: nat) {
    match m
    case DropLowest(n) => n <= len
    case DropHighest(n) => n <= len
    case _ => true
  }

  /** `RollModifier::apply` for each of the four modifiers. */
  function Apply(m: RollModifier, input: RollResults): (r: RollResults)
    requires Applicable(m, |input|)
  {
    match m
    case KeepHighest(n) => KeepHighestApply(n, input)
    case DropLowest(n) => DropLowestApply(n, input)
    case KeepLowest(n) => KeepLowestApply(n, input)
    case DropHighest(n) => DropHighestApply(n, input)
  }

  /** Where `Apply(m, input)` starts and ends inside `input`. */
  function Window(m: RollModifier, len: nat): (w: (nat, nat))
    requires Applicable(m, len)
    ensures w.0 <= w.1 <= len
  {
    match m
    case KeepHighest(n) => (SaturatingSub(len, n), len)
    case DropLowest(n) => (n, len)
    case KeepLowest(n) => (0, Min(n, len))
    case DropHighest(n) => (0, len - n)
  }

  /**
    `RollMapping::map`, which is `apply`: the output is a contiguous slice of
    the input, so it is never longer, holds no value the input does not, and
    is sorted when the input is.
   */
  function Map(m: RollModifier, input: RollResults): (r: RollResults)
    requires Applicable(m, |input|)
    ensures var (i, j) := Window(m, |input|); r == input[i..j]
    ensures |r| <= |input|
    ensures multiset(r) <= multiset(input)
    ensures Sorted(input) ==> Sorted(r)
  {
    var (i, j) := Window(m, |input|);
    SliceOfSorted(input, i, j);
    SliceMultiset(input, i, j);
    Apply(m, input)
  }

  lemma SliceOfSorted(xs: RollResults, i: nat, j: nat)
    requires i <= j <= |xs|
    ensures Sorted(xs) ==> Sorted(xs[i..j])
  {
  }

  lemma SliceMultiset(xs: RollResults, i: nat, j: nat)
    requires i <= j <= |xs|
    ensures multiset(xs[i..j]) <= multiset(xs)
  {
    assert xs == xs[..i] + xs[i..j] + xs[j..];
  }

  /**
    On sorted results `KeepHighest(n)` keeps the highest values: each value
    it drops is at most each value it keeps.
   */
  lemma KeepHighestKeepsHighest(n: nat, input: RollResults)
    requires Sorted(input)
    ensures var kept := KeepHighestApply(n, input);
      forall i, j | 0 <= i < |input| - |kept| && 0 <= j < |kept| :: input[i] <= kept[j]
  {
  }

  /** On sorted results `KeepLowest(n)` keeps the lowest values. */
  lemma KeepLowestKeepsLowest(n: nat, input: RollResults)
    requires Sorted(input)
    ensures var kept := KeepLowestApply(n, input);
      forall i, j | 0 <= i < |kept| && |kept| <= j < |input| :: kept[i] <= input[j]
  {
  }

  /** Saturation: keeping at least as many values as there are is the identity. */
  lemma KeepSaturates(n: nat, input: RollResults)
    requires n >= |input|
    ensures KeepHighestApply(n, input) == input
    ensures KeepLowestApply(n, input) == input
  {
  }

  /** `Display` of each modifier: `kh<n>`, `dl<n>`, `kl<n>`, `dh<n>`; `RollModifiers` displays as the modifier it wraps. */
  function Show(m: RollModifier): (r: string)
    ensures |r| >= 3
  {
    match m
    case KeepHighest(n) => "kh" + ShowNat(n)
    case DropLowest(n) => "dl" + ShowNat(n)
    case KeepLowest(n) => "kl" + ShowNat(n)
    case DropHighest(n) => "dh" + ShowNat(n)
  }

  /** The displayed text determines the modifier: different modifiers never display alike. */
  lemma ShowInjective(m1: RollModifier, m2: RollModifier)
    requires Show(m1) == Show(m2)
    ensures m1 == m2
  {
    var s := Show(m1);
    assert s[..2] == Show(m2)[..2];
    assert s[2..] == ShowNat(m1.n) == ShowNat(m2.n);
    ShowNatInjective(m1.n, m2.n);
  }
}
