/**
  The `rusty-dice` crate: a `Dice` value (a quantity of dice with the same
  number of sides), its `XdY` text form, rolling it, and `DiceRoll`, a roll's
  results kept in ascending order, with the modifier plumbing on top of it.
  The crate's `lib.rs` carries an older copy of `Dice` whose `roll` returns
  the sorted values directly; both copies share one datatype here.

  Die outcomes come from the random number generator in the source; here
  they are a parameter `draws`, one value per die, each in `[1, sides]`.
 */
module RustyDice {
  import opened Wrappers
  import opened Numbers
  import opened Sorting
  import opened Modifiers

  /** `DiceError`: the only failure is text that is not a dice expression, carried verbatim. */
  datatype DiceError = InvalidExpression(text: string)

  datatype Dice = Dice(quantity: u32, numSides: u32)

  /** `Dice::new`. */
  function New(quantity: u32, numSides: u32): (d: Dice)
    ensures d.quantity == quantity && d.numSides == numSides
  {
    Dice(quantity, numSides)
  }

  /** `Dice::single`: one die with `numSides` sides. */
  function Single(numSides: u32): (d: Dice)
    ensures d == New(1, numSides)
  {
    New(1, numSides)
  }

  /** `Display for Dice`: `{quantity}d{num_sides}`. */
  function Display(d: Dice): (r: string)
    ensures 'd' in r
  {
    var r := ShowNat(d.quantity) + "d" + ShowNat(d.numSides);
    assert r[|ShowNat(d.quantity)|] == 'd';
    r
  }

  /** `parts` joined back together with `c` between neighbours. */
  function Join(parts: seq<string>, c: char): string
    requires |parts| >= 1
  {
    if |parts| == 1 then parts[0] else parts[0] + [c] + Join(parts[1..], c)
  }

  /** How many times `c` occurs in `s`. */
  function Count(s: string, c: char): nat {
    if |s| == 0 then 0 else (if s[0] == c then 1 else 0) + Count(s[1..], c)
  }

  /**
    `str::split` on a one-character pattern: the pieces between occurrences
    of `c`, including empty ones; there is always one piece more than there
    are occurrences, and no piece contains `c`.
   */
  function Split(s: string, c: char): (parts: seq<string>)
    ensures |parts| == Count(s, c) + 1
    ensures forall i | 0 <= i < |parts| :: c !in parts[i]
  {
    if |s| == 0 then [""]
    else
      var tail := Split(s[1..], c);
      assert s == [s[0]] + s[1..];
      if s[0] == c then [""] + tail
      else [[s[0]] + tail[0]] + tail[1..]
  }

  lemma JoinCons(p: string, ps: seq<string>, c: char)
    ensures Join([p] + ps, c) == if ps == [] then p else p + [c] + Join(ps, c)
  {
    assert ([p] + ps)[1..] == ps;
  }

  /** Joining the pieces gives back the text: `Join` is the inverse of `Split`. */
  lemma {:induction false} SplitJoin(s: string, c: char)
    ensures Join(Split(s, c), c) == s
  {
    if |s| > 0 {
      var tail := Split(s[1..], c);
      SplitJoin(s[1..], c);
      assert s == [s[0]] + s[1..];
      if s[0] == c {
        JoinCons("", tail, c);
      } else {
        JoinCons([s[0]] + tail[0], tail[1..], c);
        JoinCons(tail[0], tail[1..], c);
        assert [tail[0]] + tail[1..] == tail;
      }
    }
  }

  lemma {:induction false} SplitNoSep(s: string, c: char)
    requires c !in s
    ensures Split(s, c) == [s]
  {
    if |s| > 0 {
      assert s == [s[0]] + s[1..];
      assert c !in s[1..];
      SplitNoSep(s[1..], c);
    }
  }

  /** Text with exactly one `c` splits into what is before and what is after it. */
  lemma {:induction false} SplitOnce(a: string, b: string, c: char)
    requires c !in a && c !in b
    ensures Split(a + [c] + b, c) == [a, b]
  {
    var s := a + [c] + b;
    if |a| == 0 {
      assert s[1..] == b;
      SplitNoSep(b, c);
    } else {
      assert s[1..] == a[1..] + [c] + b;
      SplitOnce(a[1..], b, c);
      assert [a[0]] + a[1..] == a;
    }
  }

  /**
    `FromStr for Dice`: split on `d`; anything other than exactly two pieces,
    or a piece `u32::from_str` refuses, is `InvalidExpression` of the whole
    text.
   */
  function FromStr(s: string): (r: Result<Dice, DiceError>)
    ensures r.Err? ==> r.error == InvalidExpression(s)
    ensures r.Ok? ==> Count(s, 'd') == 1
  {
    var parts := Split(s, 'd');
    if |parts| != 2 then Err(InvalidExpression(s))
    else
      var quantity := ParseU32(parts[0]);
      var numSides := ParseU32(parts[1]);
      if quantity.Some? && numSides.Some? then Ok(New(quantity.value, numSides.value))
      else Err(InvalidExpression(s))
  }

  /**
    Every successful parse reads the text as a `u32` field, the only `d`,
    and another `u32` field.
   */
  lemma FromStrFields(s: string)
    requires FromStr(s).Ok?
    ensures exists i | 0 <= i < |s| && s[i] == 'd' ::
      ParseU32(s[..i]) == Some(FromStr(s).value.quantity) && ParseU32(s[i + 1..]) == Some(FromStr(s).value.numSides)
  {
    var parts := Split(s, 'd');
    SplitJoin(s, 'd');
    var i := |parts[0]|;
    assert s == parts[0] + "d" + parts[1];
    assert s[..i] == parts[0] && s[i] == 'd' && s[i + 1..] == parts[1];
  }

  /** Two `u32` fields around one `d` always parse back to those fields. */
  lemma FromStrOfParts(a: string, b: string, q: u32, n: u32)
    requires 'd' !in a && 'd' !in b
    requires ParseU32(a) == Some(q) && ParseU32(b) == Some(n)
    ensures FromStr(a + "d" + b) == Ok(Dice(q, n))
  {
    SplitOnce(a, b, 'd');
  }

  lemma NoDInDigits(s: string)
    requires AllDigits(s)
    ensures 'd' !in s
  {
  }

  /** Displaying a `Dice` and parsing the text gives the same `Dice` back. */
  lemma FromStrDisplay(d: Dice)
    ensures FromStr(Display(d)) == Ok(d)
  {
    NoDInDigits(ShowNat(d.quantity));
    NoDInDigits(ShowNat(d.numSides));
    ParseU32OfShowNat(d.quantity);
    ParseU32OfShowNat(d.numSides);
    FromStrOfParts(ShowNat(d.quantity), ShowNat(d.numSides), d.quantity, d.numSides);
  }

  /** The unit tests of `lib.rs`. */
  lemma DisplaySingleSix()
    ensures Display(Single(6)) == "1d6"
  {
  }

  lemma FromStrFourEights()
    ensures FromStr("4d8") == Ok(New(4, 8))
  {
    assert "4" + "d" + "8" == "4d8";
    FromStrOfParts("4", "8", 4, 8);
  }

  /** A leading '+' is accepted, as `u32::from_str` accepts it. */
  lemma FromStrPlusSign()
    ensures FromStr("+4d8") == Ok(New(4, 8))
  {
    assert "+4" + "d" + "8" == "+4d8";
    assert "+4"[1..] == "4" && AllDigits("4") && Value("4") == 4;
    FromStrOfParts("+4", "8", 4, 8);
  }

  lemma FromStrManyD()
    ensures FromStr("3d5d8d9") == Err(InvalidExpression("3d5d8d9"))
  {
    assert Count("3d5d8d9", 'd') == 3;
  }

  /** A first field that `u32::from_str` refuses makes the whole text invalid. */
  lemma FromStrBadQuantity(a: string, b: string)
    requires 'd' !in a && 'd' !in b
    requires ParseU32(a) == None
    ensures FromStr(a + "d" + b) == Err(InvalidExpression(a + "d" + b))
  {
    SplitOnce(a, b, 'd');
  }

  lemma FromStrNegative()
    ensures FromStr("-10d8") == Err(InvalidExpression("-10d8"))
  {
    assert "-10" + "d" + "8" == "-10d8";
    assert !IsDigit("-10"[0]);
    FromStrBadQuantity("-10", "8");
  }

  lemma FromStrWords()
    ensures FromStr("whatdochat") == Err(InvalidExpression("whatdochat"))
  {
    var a, b := "what", "ochat";
    assert a + "d" + b == "whatdochat";
    assert !IsDigit(a[0]);
    assert forall i | 0 <= i < |b| :: b[i] != 'd';
    FromStrBadQuantity(a, b);
  }

  lemma FromStrNoD()
    ensures FromStr("lolkek") == Err(InvalidExpression("lolkek"))
  {
    assert Count("lolkek", 'd') == 0;
  }

  /** `draws` is a possible outcome of rolling `d`: one value per die, each a face of the die. */
  predicate ValidDraws(d: Dice, draws: seq<u32>) {
    |draws| == d.quantity && forall i | 0 <= i < |draws| :: 1 <= draws[i] <= d.numSides
  }

  function Sum(xs: seq<u32>): nat {
    if xs == [] then 0 else xs[0] + Sum(xs[1..])
  }

  /** Values all within `[lo, hi]` sum to between `|xs| * lo` and `|xs| * hi`. */
  lemma {:induction false} SumBetween(xs: seq<u32>, lo: int, hi: int)
    requires forall i | 0 <= i < |xs| :: lo <= xs[i] <= hi
    ensures |xs| * lo <= Sum(xs) <= |xs| * hi
  {
    if xs != [] {
      SumBetween(xs[1..], lo, hi);
      MulSucc(|xs| - 1, lo);
      MulSucc(|xs| - 1, hi);
    }
  }

  lemma MulSucc(n: nat, x: int)
    ensures (n + 1) * x == x + n * x
  {
  }

  lemma {:induction false} SumInsert(x: u32, xs: seq<u32>)
    ensures Sum(Insert(x, xs)) == x + Sum(xs)
  {
    if xs != [] && x > xs[0] {
      SumInsert(x, xs[1..]);
    }
  }

  /** Sorting does not change the total. */
  lemma {:induction false} SumSortSeq(xs: seq<u32>)
    ensures Sum(SortSeq(xs)) == Sum(xs)
  {
    if xs != [] {
      SumSortSeq(xs[1..]);
      SumInsert(xs[0], SortSeq(xs[1..]));
    }
  }

  /** A roll of `d` totals between `quantity` and `quantity * sides`. */
  lemma RollSumBounds(d: Dice, draws: seq<u32>)
    requires ValidDraws(d, draws)
    ensures d.quantity <= Sum(SortSeq(draws)) <= d.quantity * d.numSides
  {
    SumSortSeq(draws);
    SumBetween(draws, 1, d.numSides);
  }

  /**
    `"1d0"` is accepted by `from_str`, but no roll of it exists: its one die
    asks `random_range(1..=0)`, which panics on the empty range.
   */
  lemma FromStrNoSides()
    ensures FromStr("1d0") == Ok(New(1, 0))
    ensures forall draws: seq<u32> :: !ValidDraws(New(1, 0), draws)
  {
    assert "1" + "d" + "0" == "1d0";
    assert AllDigits("1") && Value("1") == 1 && AllDigits("0") && Value("0") == 0;
    FromStrOfParts("1", "0", 1, 0);
    forall draws: seq<u32> ensures !ValidDraws(New(1, 0), draws) {
      if |draws| == 1 {
        assert !(1 <= draws[0] <= 0);
      }
    }
  }

  /**
    The sum of a roll built from a vector is the sum of the vector's values:
    the sorting that `From<Vec<T>>` does changes no total.
   */
  lemma TotalOfSorted(value: seq<u32>)
    requires Sum(value) <= U32_MAX
    ensures Sum(SortSeq(value)) <= U32_MAX
    ensures DiceRoll(SortSeq(value)).Total() == Sum(value)
  {
    SumSortSeq(value);
  }

  /**
    The older `Dice::roll` of `lib.rs`: collect one outcome per die, then sort
    the vector in place.
   */
  method RollSorted(d: Dice, draws: seq<u32>) returns (results: seq<u32>)
    requires ValidDraws(d, draws)
    ensures results == SortSeq(draws)
    ensures |results| == d.quantity && Sorted(results)
    ensures forall i | 0 <= i < |results| :: 1 <= results[i] <= d.numSides
  {
    results := SortVec(draws);
    assert forall i | 0 <= i < |results| :: results[i] in multiset(draws);
  }

  /** `DiceRoll`: the results of a roll, which the crate keeps in ascending order. */
  datatype DiceRoll = DiceRoll(values: RollResults)
  {
    /** The documented invariant of `DiceRoll`. */
    predicate Valid() {
      Sorted(values)
    }

    /** `DiceRoll::sum`, defined when the `u32` total does not overflow. */
    function Total(): (r: u32)
      requires Sum(values) <= U32_MAX
      ensures r == Sum(values)
      ensures Valid() && |values| > 0 ==>
        |values| * values[0] <= r <= |values| * values[|values| - 1]
    {
      if Valid() && |values| > 0 then
        SumBetween(values, values[0], values[|values| - 1]);
        Sum(values)
      else
        Sum(values)
    }

    /** `DiceRoll::len`. */
    function Len(): (r: nat)
      ensures r == |values|
    {
      |values|
    }

    /** `DiceRoll::is_empty`: whether nothing is left, for instance after dropping every value. */
    function IsEmpty(): (r: bool)
      ensures r <==> Len() == 0
    {
      |values| == 0
    }

    /**
      `DiceRoll::apply`: the modifier's output becomes the roll, without
      re-sorting; being a slice of sorted results it is still sorted.
     */
    function Apply(m: RollModifier): (r: DiceRoll)
      requires Applicable(m, |values|)
      ensures r.values == Map(m, values)
      ensures Valid() ==> r.Valid()
    {
      DiceRoll(Map(m, values))
    }

    /**
      `DiceRoll::and`: map the values through the modifier, then sort the
      result in place. On a valid roll the sort changes nothing.
     */
    method And(m: RollModifier) returns (r: DiceRoll)
      requires Applicable(m, |values|)
      ensures r.values == SortSeq(Map(m, values))
      ensures r.Valid()
      ensures Valid() ==> r.values == Map(m, values)
    {
      var mapped := Map(m, values);
      var sorted := SortVec(mapped);
      r := DiceRoll(sorted);
      if Valid() {
        SortSeqOfSorted(mapped);
      }
    }

    /** `DiceRoll::keep`: the `n` highest values. */
    method Keep(n: nat) returns (r: DiceRoll)
      requires Valid()
      ensures r.values == values[|values| - Min(n, |values|)..]
      ensures r.Valid()
    {
      r := And(KeepHighest(n));
    }

    /** `DiceRoll::drop`: all but the `n` lowest values; `n` must not exceed the count. */
    method Drop(n: nat) returns (r: DiceRoll)
      requires Valid() && n <= |values|
      ensures r.values == values[n..]
      ensures r.Valid()
    {
      r := And(DropLowest(n));
    }

    /** `DiceRoll::keep_lowest`: the `n` lowest values. */
    method KeepLowest(n: nat) returns (r: DiceRoll)
      requires Valid()
      ensures r.values == values[..Min(n, |values|)]
      ensures r.Valid()
    {
      r := And(Modifiers.KeepLowest(n));
    }

    /** `DiceRoll::drop_highest`: all but the `n` highest values; `n` must not exceed the count. */
    method DropHighest(n: nat) returns (r: DiceRoll)
      requires Valid() && n <= |values|
      ensures r.values == values[..|values| - n]
      ensures r.Valid()
    {
      r := And(Modifiers.DropHighest(n));
    }
  }

  /** `From<Vec<T>> for DiceRoll`: collect the values, sort them in place, and wrap them. */
  method FromVec(value: seq<u32>) returns (r: DiceRoll)
    ensures r.values == SortSeq(value)
    ensures r.Valid() && multiset(r.values) == multiset(value)
  {
    var sorted := SortVec(value);
    r := DiceRoll(sorted);
  }

  /** `Dice::roll` of `dice.rs`: one outcome per die, collected into a `DiceRoll`. */
  method Roll(d: Dice, draws: seq<u32>) returns (r: DiceRoll)
    requires ValidDraws(d, draws)
    ensures r.values == SortSeq(draws)
    ensures r.Valid() && r.Len() == d.quantity
    ensures forall i | 0 <= i < r.Len() :: 1 <= r.values[i] <= d.numSides
    ensures d.quantity <= Sum(r.values) <= d.quantity * d.numSides
  {
    r := FromVec(draws);
    assert forall i | 0 <= i < |r.values| :: r.values[i] in multiset(draws);
    RollSumBounds(d, draws);
  }
}
