/**
  The application's older tokenizer (`src/expressions.rs`): a `nom`
  `many0` loop over dice tokens (`[quantity]d<sides>`, the quantity
  optional) and number tokens, with spaces and an optional `'+'` after each
  token. It never fails: it stops before the first text that is not a
  token and hands that text back.

  `to_num` is `u32::from_str_radix(_, 10)`, which is `Numbers.ParseU32`.
 */
module LegacyTokens {
  import opened Wrappers
  import opened Numbers
  import opened Nom
  import opened LegacyDice

  datatype Token = Die(dice: Dice) | Num(n: u32)

  /**
    `map_res(take_while(is_dec_digit), to_num)`: the digit run in front,
    possibly empty, converted by `to_num`; fails when the run is empty or
    its value does not fit in a `u32`.
   */
  function Digits(s: string): (r: ParseResult<u32>)
    ensures r.Done? <==> DigitSpan(s) >= 1 && Value(s[..DigitSpan(s)]) <= U32_MAX
    ensures r.Done? ==> r.rest == s[DigitSpan(s)..] && r.value == Value(s[..DigitSpan(s)])
    ensures !r.OutOfFuel?
  {
    var k := DigitSpan(s);
    match ParseU32(s[..k])
    case Some(n) => Done(s[k..], n)
    case None => Fail
  }

  /** `num`: a number token. */
  function Number(s: string): (r: ParseResult<Token>)
    ensures r.Done? <==> Digits(s).Done?
    ensures r.Done? ==> r == Done(Digits(s).rest, Num(Digits(s).value))
  {
    match Digits(s)
    case Done(rest, n) => Done(rest, Num(n))
    case _ => Fail
  }

  /**
    `die`: an optional quantity (`opt` of the digit parser, which gives up
    without consuming anything when the digits are missing or too large),
    the letter `'d'`, then the sides; an absent quantity is 1.
   */
  function DieToken(s: string): (r: ParseResult<Token>)
    ensures r.Done? ==> r.value.Die? && IsSuffix(r.rest, s) && |r.rest| < |s|
    ensures r.Done? ==> r.rest == [] || !IsDigit(r.rest[0])
    ensures !r.OutOfFuel?
  {
    var quantity := Digits(s);
    var q: u32 := if quantity.Done? then quantity.value else 1;
    var t := if quantity.Done? then quantity.rest else s;
    if |t| == 0 || t[0] != 'd' then Fail
    else
      match Digits(t[1..])
      case Done(rest, n) => Done(rest, Die(Dice(n, q)))
      case _ => Fail
  }

  /** `alt((die, num))`: a dice token if there is one, otherwise a number. */
  function ParseToken(s: string): (r: ParseResult<Token>)
    ensures r.Done? ==> IsSuffix(r.rest, s) && |r.rest| < |s|
    ensures !r.OutOfFuel?
  {
    if DieToken(s).Done? then DieToken(s) else Number(s)
  }

  /** `space0` then `opt(tag("+"))`: what follows a token. */
  function Trailer(s: string): (r: string)
    ensures IsSuffix(r, s)
  {
    var b := Space0(s);
    if |b| >= 1 && b[0] == '+' then b[1..] else b
  }

  /** `tuple((space0, alt((die, num)), space0, opt(tag("+"))))`: one round of the loop. */
  function Item(s: string): (r: ParseResult<Token>)
    ensures r.Done? ==> IsSuffix(r.rest, s) && |r.rest| < |s|
    ensures !r.OutOfFuel?
  {
    var token := ParseToken(Space0(s));
    if token.Done? then
      SuffixTransitive(token.rest, Space0(s), s);
      SuffixTransitive(Trailer(token.rest), token.rest, s);
      Done(Trailer(token.rest), token.value)
    else Fail
  }

  /**
    `dice_expression`: `many0` of `Item`, keeping the tokens. Every round
    consumes at least one character, so `many0`'s no-progress error cannot
    arise and the parser always succeeds, leaving the text on which the
    next round would fail.
   */
  function DiceExpression(s: string): (r: ParseResult<seq<Token>>)
    ensures r.Done? && IsSuffix(r.rest, s) && !Item(r.rest).Done?
    ensures |r.value| <= |s| - |r.rest|
    decreases |s|
  {
    var item := Item(s);
    if item.Done? then
      var more := DiceExpression(item.rest);
      SuffixTransitive(more.rest, item.rest, s);
      Done(more.rest, [item.value] + more.value)
    else Done(s, [])
  }

  /** `s` is `w d x rest`: an optional quantity `w`, the sides `x`, both in range. */
  predicate DieShape(s: string, w: string, x: string, rest: string, token: Token) {
    && AllDigits(w) && AllDigits(x) && |x| >= 1
    && Value(w) <= U32_MAX && Value(x) <= U32_MAX
    && (rest == [] || !IsDigit(rest[0]))
    && s == w + ("d" + (x + rest))
    && token == Die(Dice(Value(x), if w == [] then 1 else Value(w)))
  }

  /** Every text of that shape is a dice token, the quantity defaulting to 1. */
  lemma DieOfText(s: string, w: string, x: string, rest: string, token: Token)
    requires DieShape(s, w, x, rest, token)
    ensures DieToken(s) == Done(rest, token)
  {
    var t := "d" + (x + rest);
    DigitsBefore(s, w, t);
    assert t[1..] == x + rest;
    DigitsBefore(x + rest, x, rest);
  }

  /** The digit parser on a digit run `w` followed by a non-digit. */
  lemma DigitsBefore(s: string, w: string, t: string)
    requires AllDigits(w) && Value(w) <= U32_MAX && s == w + t
    requires t == [] || !IsDigit(t[0])
    ensures w == [] ==> Digits(s) == Fail
    ensures w != [] ==> Digits(s) == Done(t, Value(w))
  {
    DigitSpanOfDigits(w, t);
    assert s[..|w|] == w && s[|w|..] == t;
  }

  /** ... and every dice token has that shape. */
  lemma DieDone(s: string)
    requires DieToken(s).Done?
    ensures exists w: string, x: string :: DieShape(s, w, x, DieToken(s).rest, DieToken(s).value)
  {
    var quantity := Digits(s);
    var k := if quantity.Done? then DigitSpan(s) else 0;
    var w, t := s[..k], s[k..];
    Cut(s, k);
    var u := t[1..];
    LeadingD(t);
    var j := DigitSpan(u);
    Cut(u, j);
    assert DieShape(s, w, u[..j], DieToken(s).rest, DieToken(s).value);
  }

  lemma Cut(s: string, k: nat)
    requires k <= |s|
    ensures s == s[..k] + s[k..]
  {
  }

  lemma LeadingD(t: string)
    requires |t| >= 1 && t[0] == 'd'
    ensures t == "d" + t[1..]
  {
  }

  /** `"d6"`: the quantity defaults to 1. */
  lemma DieWithoutQuantity()
    ensures DieToken("d6") == Done("", Die(Dice(6, 1)))
  {
    assert Value("6") == 6;
    DieOfText("d6", "", "6", "", Die(Dice(6, 1)));
  }

  /** `"2d"`: with no sides the dice token fails, and the number `2` is taken instead. */
  lemma NumberBeforeBareD()
    ensures ParseToken("2d") == Done("d", Num(2))
  {
    assert DigitSpan("2d") == 1 by {
      assert DigitSpan("d") == 0;
    }
    assert "2d"[..1] == "2" && Value("2") == 2;
    assert DigitSpan("2d"[1..][1..]) == 0;
  }

  /** How a token is written: `to_string` for dice, decimal for numbers. */
  function ShowToken(t: Token): (r: string)
    ensures |r| >= 1 && IsDigit(r[0])
  {
    match t
    case Die(d) => ToString(d)
    case Num(n) => ShowNat(n)
  }

  /** Tokens written with `" + "` between neighbours. */
  function ShowTokens(ts: seq<Token>): string {
    if |ts| == 0 then ""
    else if |ts| == 1 then ShowToken(ts[0])
    else ShowToken(ts[0]) + (" + " + ShowTokens(ts[1..]))
  }

  /** What may follow the last token without being read as part of the expression. */
  predicate Stop(u: string) {
    u == [] || !(IsDigit(u[0]) || IsSpace(u[0]) || u[0] == '+' || u[0] == 'd')
  }

  /** A written token followed by text that cannot extend it is read back. */
  lemma ParseTokenShow(a: Token, w: string)
    requires w == [] || !(IsDigit(w[0]) || w[0] == 'd')
    ensures ParseToken(ShowToken(a) + w) == Done(w, a)
  {
    match a
    case Die(d) => ParseDieShow(d, w);
    case Num(n) => ParseNumShow(n, w);
  }

  lemma ParseDieShow(d: Dice, w: string)
    requires w == [] || !IsDigit(w[0])
    ensures ParseToken(ToString(d) + w) == Done(w, Die(d))
  {
    var qs, ss := ShowNat(d.quantity), ShowNat(d.numSides);
    ValueOfShowNat(d.quantity);
    ValueOfShowNat(d.numSides);
    DieTextParts(d, w);
    DieOfText(ToString(d) + w, qs, ss, w, Die(d));
  }

  lemma DieTextParts(d: Dice, w: string)
    ensures ToString(d) + w == ShowNat(d.quantity) + ("d" + (ShowNat(d.numSides) + w))
  {
    var qs, ss := ShowNat(d.quantity), ShowNat(d.numSides);
    assert qs + "d" + ss + w == qs + ("d" + (ss + w));
  }

  lemma ParseNumShow(n: u32, w: string)
    requires w == [] || !(IsDigit(w[0]) || w[0] == 'd')
    ensures ParseToken(ShowNat(n) + w) == Done(w, Num(n))
  {
    ValueOfShowNat(n);
    DigitsBefore(ShowNat(n) + w, ShowNat(n), w);
  }

  /** A round on text that starts with a token: the token, then its trailer. */
  lemma ItemOfToken(s: string, a: Token, rest: string)
    requires |s| >= 1 && !IsSpace(s[0]) && ParseToken(s) == Done(rest, a)
    ensures Item(s) == Done(Trailer(rest), a)
  {
    assert Space0(s) == s;
  }

  lemma TrailerOfStop(u: string)
    requires Stop(u)
    ensures Trailer(u) == u
  {
    assert Space0(u) == u;
  }

  lemma TrailerOfPlus(v: string)
    ensures Trailer(" + " + v) == " " + v
  {
    assert (" + " + v)[1..] == "+ " + v;
    assert Space0("+ " + v) == "+ " + v;
    assert ("+ " + v)[1..] == " " + v;
  }

  /** A written token, then text that cannot extend it: a round can start there. */
  lemma TokenStart(a: Token, w: string)
    requires w == [] || !(IsDigit(w[0]) || w[0] == 'd')
    ensures |ShowToken(a) + w| >= 1 && !IsSpace((ShowToken(a) + w)[0])
    ensures ParseToken(ShowToken(a) + w) == Done(w, a)
  {
    ParseTokenShow(a, w);
  }

  /** The text left after a stop is the stop itself. */
  lemma ItemLast(a: Token, u: string)
    requires Stop(u)
    ensures Item(ShowToken(a) + u) == Done(u, a)
  {
    TokenStart(a, u);
    ItemBeforeStop(ShowToken(a) + u, a, u);
  }

  lemma ItemBeforeStop(s: string, a: Token, u: string)
    requires |s| >= 1 && !IsSpace(s[0]) && ParseToken(s) == Done(u, a) && Stop(u)
    ensures Item(s) == Done(u, a)
  {
    ItemOfToken(s, a, u);
    TrailerOfStop(u);
  }

  /** A token and its `" + "` separator are one round of the loop. */
  lemma ItemBeforePlus(a: Token, v: string)
    ensures Item(ShowToken(a) + (" + " + v)) == Done(" " + v, a)
  {
    TokenStart(a, " + " + v);
    ItemOfToken(ShowToken(a) + (" + " + v), a, " + " + v);
    TrailerOfPlus(v);
  }

  /** A space in front of the loop is skipped by its first round's `space0`. */
  lemma SpaceBeforeLoop(v: string)
    requires DiceExpression(v).value != []
    ensures DiceExpression(" " + v) == DiceExpression(v)
  {
    assert (" " + v)[1..] == v;
    assert Item(" " + v) == Item(v);
  }

  /** One round of the loop, then the rest of it. */
  lemma LoopStep(s: string, a: Token, r: string, ts: seq<Token>, u: string)
    requires Item(s) == Done(r, a) && DiceExpression(r) == Done(u, ts)
    ensures DiceExpression(s) == Done(u, [a] + ts)
  {
  }

  lemma TokenHeadTail(ts: seq<Token>)
    requires |ts| >= 1
    ensures [ts[0]] + ts[1..] == ts
  {
  }

  lemma ShowTokensCons(ts: seq<Token>, u: string)
    requires |ts| >= 2
    ensures ShowTokens(ts) + u == ShowToken(ts[0]) + (" + " + (ShowTokens(ts[1..]) + u))
  {
    Reassociate(ShowToken(ts[0]), " + ", ShowTokens(ts[1..]), u);
  }

  lemma Reassociate(x: string, p: string, y: string, u: string)
    ensures (x + (p + y)) + u == x + (p + (y + u))
  {
  }

  /**
    Written tokens are read back in order, all of them, and the parser
    stops exactly at the text that follows.
   */
  lemma {:induction false} DiceExpressionShow(ts: seq<Token>, u: string)
    requires |ts| >= 1 && Stop(u)
    ensures DiceExpression(ShowTokens(ts) + u) == Done(u, ts)
    decreases |ts|
  {
    if |ts| == 1 {
      ItemLast(ts[0], u);
      DiceExpressionOfStop(u);
      LoopStep(ShowToken(ts[0]) + u, ts[0], u, [], u);
      TokenHeadTail(ts);
    } else {
      var v := ShowTokens(ts[1..]) + u;
      ShowTokensCons(ts, u);
      ItemBeforePlus(ts[0], v);
      DiceExpressionShow(ts[1..], u);
      SpaceBeforeLoop(v);
      LoopStep(ShowToken(ts[0]) + (" + " + v), ts[0], " " + v, ts[1..], u);
      TokenHeadTail(ts);
    }
  }

  /** Text that does not begin with a token yields no tokens and is left whole. */
  lemma DiceExpressionOfStop(u: string)
    requires Stop(u)
    ensures DiceExpression(u) == Done(u, [])
  {
    assert Space0(u) == u;
  }
}
