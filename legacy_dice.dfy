/**
  The application's own, older `Dice` (`src/dice.rs`): a number of sides
  and a quantity, rolled into an unsorted vector of outcomes and written
  as `{quantity}d{num_sides}`.

  `roll` asks the random number generator for `gen_range(1..=num_sides)`
  once per die; here the generator's answers are the parameter `draws`,
  in the order they are produced.
 */
module LegacyDice {
  import opened Numbers
  import RustyDice

  /** Field order as declared: the sides first, then the quantity. */
  datatype Dice = Dice(numSides: u32, quantity: u32)

  /** `draws` are answers `gen_range(1..=num_sides)` can give, one per die. */
  predicate ValidDraws(d: Dice, draws: seq<u32>) {
    |draws| == d.quantity && forall i | 0 <= i < |draws| :: 1 <= draws[i] <= d.numSides
  }

  /**
    `Dice::roll`: the range `1..=quantity` mapped to one generator call
    each, collected in order.
   */
  function Roll(d: Dice, draws: seq<u32>): (r: seq<u32>)
    requires ValidDraws(d, draws)
    ensures |r| == d.quantity
    ensures forall i | 0 <= i < |r| :: 1 <= r[i] <= d.numSides
    ensures r == draws
  {
    seq(d.quantity, i requires 0 <= i < |draws| => draws[i])
  }

  /**
    The generator can answer exactly when the roll does not panic:
    `gen_range(1..=0)` panics on its empty range, so a die with no sides
    can only be rolled zero times.
   */
  lemma RollPossible(d: Dice)
    ensures (exists draws :: ValidDraws(d, draws)) <==> d.quantity == 0 || d.numSides >= 1
  {
    if d.quantity == 0 || d.numSides >= 1 {
      var ones := seq(d.quantity, _ => 1 as u32);
      assert ValidDraws(d, ones);
    } else {
      forall draws: seq<u32> ensures !ValidDraws(d, draws) {
        if |draws| == d.quantity {
          assert !(1 <= draws[0] <= d.numSides);
        }
      }
    }
  }

  /**
    `to_string`: `{quantity}d{num_sides}`, the same text the newer crate's
    `Display` gives the same dice.
   */
  function ToString(d: Dice): (r: string)
    ensures r == RustyDice.Display(RustyDice.New(d.quantity, d.numSides))
    ensures r[..|ShowNat(d.quantity)|] == ShowNat(d.quantity) && r[|ShowNat(d.quantity)|] == 'd'
  {
    ShowNat(d.quantity) + "d" + ShowNat(d.numSides)
  }
}
