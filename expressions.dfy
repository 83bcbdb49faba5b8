/**
  The parser of `rusty-dice-expressions`: text becomes an expression tree.

  An atom is a dice expression `XdY`, a signed number or a bare `+`/`-`.
  Expressions are atoms or right-associative binary applications
  `atom op expr`; an expression kind is a simple expression, a labeled
  expression `label: expr`, or a `;`-separated list of kinds.

  Every parser follows the `nom` combinator it is built from, on the
  primitives of `Nom`. Two `unwrap` calls in the parsers panic on
  out-of-range digit runs; `NoPanic` excludes those inputs. The expression
  kind parser and the separated-list parser call each other on the same,
  unconsumed input; a `fuel` bound on that recursion makes the model total,
  and running out of it is the outcome `OutOfFuel`.
 */
module Expressions {
  import opened Wrappers
  import opened Numbers
  import opened Nom
  import RustyDice

  datatype Operation = Add | Sub

  datatype Atom =
    | Dice(dice: RustyDice.Dice)
    | Number(n: i32)
    | Operation(op: Operation)

  /** The operator slot of an application is a whole expression, as in the source. */
  datatype Expr =
    | Constant(atom: Atom)
    | Application(op: Expr, left: Expr, right: Expr)

  datatype ExprKind =
    | Simple(expr: Expr)
    | Labeled(name: string, expr: Expr)
    | Separated(kinds: seq<ExprKind>)

  /** `Expr::application`: an operator applied to two constants. */
  function ApplicationOf(op: Operation, left: Atom, right: Atom): (e: Expr)
    ensures e.Application? && e.op == Constant(Operation(op))
    ensures e.left == Constant(left) && e.right == Constant(right)
  {
    Application(Constant(Operation(op)), Constant(left), Constant(right))
  }

  /** `Expr::get_num`: the value of a number constant, and nothing for anything else. */
  function GetNum(e: Expr): (r: Option<i32>)
    ensures r.Some? <==> e.Constant? && e.atom.Number?
    ensures r.Some? ==> e == Constant(Number(r.value))
  {
    match e
    case Constant(Number(n)) => Some(n)
    case _ => None
  }

  /** `Display for Operation`: one character, which `parse_operation` reads back. */
  function ShowOp(op: Operation): (r: string)
    ensures |r| == 1 && ParseOperation(r) == Done("", Operation(op))
  {
    match op
    case Add => "+"
    case Sub => "-"
  }

  // ---------------------------------------------------------------------
  // Where the parsers panic

  /** `t` starts with `digits 'd' digits`, the shape `parse_dice` recognises. */
  predicate IsDiceAt(t: string) {
    var k := DigitSpan(t);
    k >= 1 && k < |t| && t[k] == 'd' && DigitSpan(t[k + 1..]) >= 1
  }

  /** The length of the dice text at the start of `t`. */
  function DiceEnd(t: string): (n: nat)
    requires IsDiceAt(t)
    ensures DigitSpan(t) + 2 <= n <= |t|
  {
    var k := DigitSpan(t);
    k + 1 + DigitSpan(t[k + 1..])
  }

  function QuantityText(t: string): string
    requires IsDiceAt(t)
  {
    t[..DigitSpan(t)]
  }

  function SidesText(t: string): string
    requires IsDiceAt(t)
  {
    var u := t[DigitSpan(t) + 1..];
    u[..DigitSpan(u)]
  }

  /** `t` starts with `'-'` and a digit run, the shape of the second branch of `parse_num`. */
  predicate IsNegAt(t: string) {
    |t| >= 1 && t[0] == '-' && DigitSpan(t[1..]) >= 1
  }

  function NegText(t: string): string
    requires IsNegAt(t)
  {
    t[1..][..DigitSpan(t[1..])]
  }

  /**
    Neither `unwrap` of the atom parsers panics at the start of `t`: the
    fields of a dice text fit in `u32` (parse.rs:144) and the digits after a
    `'-'` fit in `i32` (parse.rs:155).
   */
  predicate SafeAt(t: string) {
    (IsDiceAt(t) ==> Value(QuantityText(t)) <= U32_MAX && Value(SidesText(t)) <= U32_MAX)
    && (IsNegAt(t) ==> Value(NegText(t)) <= I32_MAX)
  }

  /** No atom parser panics anywhere in `s`: `SafeAt` holds at every suffix. */
  predicate NoPanic(s: string)
    decreases |s|
  {
    SafeAt(s) && (|s| == 0 || NoPanic(s[1..]))
  }

  lemma {:induction false} NoPanicSuffix(t: string, s: string)
    requires NoPanic(s) && IsSuffix(t, s)
    ensures NoPanic(t)
    decreases |s|
  {
    if |t| < |s| {
      assert IsSuffix(t, s[1..]) by {
        assert s[1..][|s| - 1 - |t|..] == s[|s| - |t|..];
      }
      NoPanicSuffix(t, s[1..]);
    } else {
      assert t == s;
    }
  }

  // ---------------------------------------------------------------------
  // Atoms

  /** `parse_operation`: `one_of("+-")`, then `'+'` is `Add` and `'-'` is `Sub`. */
  function ParseOperation(s: string): (r: ParseResult<Atom>)
    ensures r.Done? <==> |s| >= 1 && (s[0] == '+' || s[0] == '-')
    ensures r.Done? ==> r.rest == s[1..] && r.value == Operation(if s[0] == '+' then Add else Sub)
    ensures !r.OutOfFuel?
  {
    if |s| >= 1 && (s[0] == '+' || s[0] == '-') then
      Done(s[1..], Operation(if s[0] == '+' then Add else Sub))
    else Fail
  }

  /** `recognize(separated_pair(digit1, tag("d"), digit1))`: the text of `digits 'd' digits`. */
  function RecognizeDice(s: string): (r: ParseResult<string>)
    ensures r.Done? <==> IsDiceAt(s)
    ensures r.Done? ==> r.value == s[..DiceEnd(s)] && r.rest == s[DiceEnd(s)..]
    ensures !r.OutOfFuel?
  {
    var k := DigitSpan(s);
    var quantity := Digit1(s);
    if !quantity.Done? then Fail
    else
      assert quantity.rest == s[k..];
      var d := Tag(quantity.rest, 'd');
      if !d.Done? then Fail
      else
        assert d.rest == s[k + 1..];
        var sides := Digit1(d.rest);
        if !sides.Done? then Fail
        else
          assert sides.rest == s[DiceEnd(s)..];
          Done(sides.rest, s[..|s| - |sides.rest|])
  }

  /** The `Dice` that the dice text at the start of `t` denotes. */
  function DiceAt(t: string): RustyDice.Dice
    requires IsDiceAt(t) && SafeAt(t)
  {
    RustyDice.Dice(Value(QuantityText(t)), Value(SidesText(t)))
  }

  /**
    `parse_dice`: recognise the dice text, then turn it into a `Dice` with
    `Dice::from_str`, whose `unwrap` is safe under `SafeAt`.
   */
  function ParseDice(s: string): (r: ParseResult<Atom>)
    requires SafeAt(s)
    ensures r.Done? <==> IsDiceAt(s)
    ensures r.Done? ==> r == Done(s[DiceEnd(s)..], Dice(DiceAt(s)))
    ensures !r.OutOfFuel?
  {
    var text := RecognizeDice(s);
    if !text.Done? then Fail
    else
      DiceTextParse(s);
      var parsed := RustyDice.FromStr(text.value);
      Done(text.rest, Dice(parsed.value))
  }

  /** `Dice::from_str` of recognised dice text succeeds with the values of its two fields. */
  lemma DiceTextParse(t: string)
    requires IsDiceAt(t) && SafeAt(t)
    ensures RustyDice.FromStr(t[..DiceEnd(t)]) == Ok(DiceAt(t))
  {
    DiceTextParts(t);
    RustyDice.FromStrOfParts(QuantityText(t), SidesText(t), Value(QuantityText(t)), Value(SidesText(t)));
  }

  /** The dice text at the start of `t` is its two digit runs around one `'d'`. */
  lemma DiceTextParts(t: string)
    requires IsDiceAt(t)
    ensures t[..DiceEnd(t)] == QuantityText(t) + "d" + SidesText(t)
    ensures t[DigitSpan(t) + 1..][DigitSpan(t[DigitSpan(t) + 1..])..] == t[DiceEnd(t)..]
    ensures 'd' !in QuantityText(t) && 'd' !in SidesText(t)
  {
    NoDigitIsD(QuantityText(t));
    NoDigitIsD(SidesText(t));
  }

  lemma NoDigitIsD(s: string)
    requires AllDigits(s)
    ensures 'd' !in s
  {
  }

  /**
    `parse_num`: a digit run whose value fits in `i32` is that number; if it
    does not, the first branch fails and so does the second, which needs a
    leading `'-'`. A `'-'` and a digit run is the negated value.
   */
  function ParseNum(s: string): (r: ParseResult<Atom>)
    requires SafeAt(s)
    ensures r.Done? <==> IsNumberAt(s) || IsNegAt(s)
    ensures IsNumberAt(s) ==> r == Done(s[DigitSpan(s)..], Number(Value(s[..DigitSpan(s)])))
    ensures IsNegAt(s) ==> r == Done(s[1 + DigitSpan(s[1..])..], Number(-(Value(NegText(s)) as int)))
    ensures !r.OutOfFuel?
  {
    var digits := Digit1(s);
    if digits.Done? then
      var v := ParseI32(digits.value);
      if v.Some? then
        Done(digits.rest, Number(v.value))
      else
        assert !IsNegAt(s) by { assert IsDigit(s[0]); }
        ParseNegative(s)
    else
      ParseNegative(s)
  }

  /** `t` starts with a digit run whose value fits in `i32`. */
  predicate IsNumberAt(t: string) {
    DigitSpan(t) >= 1 && Value(t[..DigitSpan(t)]) <= I32_MAX
  }

  /** The second branch of `parse_num`: `preceded(tag("-"), digit1)`, negated. */
  function ParseNegative(s: string): (r: ParseResult<Atom>)
    requires SafeAt(s)
    ensures r.Done? <==> IsNegAt(s)
    ensures r.Done? ==> r.rest == s[1 + DigitSpan(s[1..])..] && r.value == Number(-(Value(NegText(s)) as int))
    ensures !r.OutOfFuel?
  {
    var minus := Tag(s, '-');
    if !minus.Done? then Fail
    else
      var digits := Digit1(minus.rest);
      if !digits.Done? then Fail
      else
        Done(digits.rest, Number(-ParseI32(digits.value).value))
  }

  /** `parse_atom`: dice, then number, then operation; an atom is never empty. */
  function ParseAtom(s: string): (r: ParseResult<Atom>)
    requires SafeAt(s)
    ensures r.Done? ==> IsSuffix(r.rest, s) && |r.rest| < |s|
    ensures !r.OutOfFuel?
  {
    if ParseDice(s).Done? then ParseDice(s)
    else if ParseNum(s).Done? then ParseNum(s)
    else ParseOperation(s)
  }

  /**
    The order of the alternatives decides overlapping inputs: dice text is
    always a dice atom, and a `'-'` before digits is always a negative
    number, never the `Sub` operation.
   */
  lemma DiceBeforeNumber(s: string, d: RustyDice.Dice, rest: string)
    requires SafeAt(s) && IsDiceAt(s)
    requires d == DiceAt(s) && rest == s[DiceEnd(s)..]
    ensures ParseAtom(s) == Done(rest, Dice(d))
  {
  }

  lemma NegativeBeforeOperation(s: string, digits: string, rest: string, n: i32)
    requires SafeAt(s) && IsNegAt(s)
    requires digits == NegText(s) && rest == s[1 + DigitSpan(s[1..])..]
    requires n as int == -(Value(digits) as int)
    ensures ParseAtom(s) == Done(rest, Number(n))
  {
    assert !IsDigit(s[0]);
    assert !ParseDice(s).Done?;
  }

  /** Every atom starts with a digit or a sign. */
  lemma AtomStart(s: string)
    requires SafeAt(s) && ParseAtom(s).Done?
    ensures |s| >= 1 && (IsDigit(s[0]) || s[0] == '+' || s[0] == '-')
  {
    if ParseDice(s).Done? {
      assert DigitSpan(s) >= 1;
    } else if !ParseNum(s).Done? {
      assert ParseOperation(s).Done?;
    }
  }

  /** `parse_constant`: an atom as a constant expression. */
  function ParseConstant(s: string): (r: ParseResult<Expr>)
    requires SafeAt(s)
    ensures r.Done? <==> ParseAtom(s).Done?
    ensures r.Done? ==> r.rest == ParseAtom(s).rest && r.value == Constant(ParseAtom(s).value)
    ensures !r.OutOfFuel?
  {
    var a := ParseAtom(s);
    if a.Done? then Done(a.rest, Constant(a.value)) else Fail
  }

  // ---------------------------------------------------------------------
  // Expressions

  /** The trees `parse_expr` builds: a constant, or an operator constant applied to a constant and such a tree. */
  predicate ParserShaped(e: Expr) {
    match e
    case Constant(_) => true
    case Application(op, left, right) =>
      op.Constant? && op.atom.Operation? && left.Constant? && ParserShaped(right)
  }

  /** `preceded(multispace0, parse_atom)`. */
  function ParseSpacedAtom(s: string): (r: ParseResult<Atom>)
    requires NoPanic(s)
    ensures r.Done? ==> IsSuffix(r.rest, s) && |r.rest| < |s|
    ensures !r.OutOfFuel?
  {
    var t := Multispace0(s);
    NoPanicSuffix(t, s);
    var a := ParseAtom(t);
    if a.Done? then
      SuffixTransitive(a.rest, t, s);
      a
    else Fail
  }

  /** `preceded(multispace0, parse_operation)`. */
  function ParseSpacedOperation(s: string): (r: ParseResult<Atom>)
    ensures r.Done? ==> IsSuffix(r.rest, s) && |r.rest| < |s| && r.value.Operation?
    ensures !r.OutOfFuel?
  {
    var t := Multispace0(s);
    var op := ParseOperation(t);
    if op.Done? then
      SuffixTransitive(op.rest, t, s);
      op
    else Fail
  }

  /**
    `parse_application`: an atom, an operation and a whole expression, each
    after optional whitespace; the operation goes into the operator slot as a
    constant, so `a + b + c` nests to the right.
   */
  function ParseApplication(s: string): (r: ParseResult<Expr>)
    requires NoPanic(s)
    ensures r.Done? ==> IsSuffix(r.rest, s) && |r.rest| < |s|
    ensures r.Done? ==> r.value.Application? && ParserShaped(r.value)
    ensures !r.OutOfFuel?
    decreases |s|, 0
  {
    var left := ParseSpacedAtom(s);
    if !left.Done? then Fail
    else
      var op := ParseSpacedOperation(left.rest);
      if !op.Done? then Fail
      else
        SuffixTransitive(op.rest, left.rest, s);
        NoPanicSuffix(op.rest, s);
        var right := ParseExpr(op.rest);
        if !right.Done? then Fail
        else
          SuffixTransitive(right.rest, op.rest, s);
          Done(right.rest, Application(Constant(op.value), Constant(left.value), right.value))
  }

  /** `parse_expr`: skip whitespace, then an application or, failing that, a constant. */
  function ParseExpr(s: string): (r: ParseResult<Expr>)
    requires NoPanic(s)
    ensures r.Done? ==> IsSuffix(r.rest, s) && |r.rest| < |s|
    ensures r.Done? ==> ParserShaped(r.value)
    ensures !r.OutOfFuel?
    decreases |s|, 1
  {
    var t := Multispace0(s);
    NoPanicSuffix(t, s);
    var app := ParseApplication(t);
    if app.Done? then
      SuffixTransitive(app.rest, t, s);
      app
    else
      var con := ParseConstant(t);
      if con.Done? then
        SuffixTransitive(con.rest, t, s);
        con
      else Fail
  }

  // ---------------------------------------------------------------------
  // Expression kinds

  /** `parse_simple`. */
  function ParseSimple(s: string): (r: ParseResult<ExprKind>)
    requires NoPanic(s)
    ensures r.Done? <==> ParseExpr(s).Done?
    ensures r.Done? ==> r.rest == ParseExpr(s).rest && r.value == Simple(ParseExpr(s).value)
    ensures !r.OutOfFuel?
  {
    var e := ParseExpr(s);
    if e.Done? then Done(e.rest, Simple(e.value)) else Fail
  }

  /**
    The label and separator of `parse_labeled`: after optional whitespace,
    everything up to the first `':'`, then the `':'` itself.
   */
  function ParseLabel(s: string): (r: ParseResult<string>)
    ensures r.Done? <==> ':' in s
    ensures r.Done? ==> Multispace0(s) == r.value + [':'] + r.rest
    ensures r.Done? ==> ':' !in r.value && IsSuffix(r.rest, s) && |r.rest| < |s|
    ensures !r.OutOfFuel?
  {
    var t := Multispace0(s);
    ColonAfterSpace(s);
    var name := TakeUntil(t, ':');
    if !name.Done? then Fail
    else
      var colon := Tag(name.rest, ':');
      LabelSuffix(s, t, name.value, name.rest);
      Done(colon.rest, name.value)
  }

  /** Skipping whitespace never skips a colon. */
  lemma ColonAfterSpace(s: string)
    ensures ':' in s ==> ':' in Multispace0(s)
  {
    if ':' in s {
      var i :| 0 <= i < |s| && s[i] == ':';
      var k := |s| - |Multispace0(s)|;
      assert !IsMultispace(s[i]);
      assert i >= k;
      assert Multispace0(s)[i - k] == ':';
    }
  }

  lemma LabelSuffix(s: string, t: string, name: string, rest: string)
    requires IsSuffix(t, s) && t == name + rest && |rest| >= 1 && rest[0] == ':'
    ensures ':' in s && IsSuffix(rest[1..], s) && |rest| - 1 < |s|
    ensures t == name + [':'] + rest[1..]
  {
    assert rest == [':'] + rest[1..];
    assert s[|s| - |rest|] == ':';
    assert s[|s| - |rest|..] == rest;
  }

  /** `parse_labeled`: a label and its colon, then an expression. */
  function ParseLabeled(s: string): (r: ParseResult<ExprKind>)
    requires NoPanic(s)
    ensures r.Done? ==> ':' in s && IsSuffix(r.rest, s) && |r.rest| < |s|
    ensures r.Done? ==> r.value.Labeled? && ':' !in r.value.name && ParserShaped(r.value.expr)
    ensures !r.OutOfFuel?
  {
    var name := ParseLabel(s);
    if !name.Done? then Fail
    else
      NoPanicSuffix(name.rest, s);
      var e := ParseExpr(name.rest);
      if !e.Done? then Fail
      else
        SuffixTransitive(e.rest, name.rest, s);
        Done(e.rest, Labeled(name.value, e.value))
  }

  /**
    `parse_expr_kind`: a simple expression, else a labeled one, else a
    separated list, whose first element is again `parse_expr_kind` of the
    same input.
   */
  function ParseExprKind(s: string, fuel: nat): (r: ParseResult<ExprKind>)
    requires NoPanic(s)
    ensures r.Done? ==> IsSuffix(r.rest, s)
    decreases fuel, 1, 0
  {
    if ParseSimple(s).Done? then ParseSimple(s)
    else if ParseLabeled(s).Done? then ParseLabeled(s)
    else ParseSeparated(s, fuel)
  }

  /**
    `parse_separated`: `separated_list1` of `parse_expr_kind`, the separator
    being `';'` after optional whitespace. Each nested call spends one unit
    of `fuel`.
   */
  function ParseSeparated(s: string, fuel: nat): (r: ParseResult<ExprKind>)
    requires NoPanic(s)
    ensures r.Done? ==> IsSuffix(r.rest, s) && r.value.Separated? && |r.value.kinds| >= 1
    decreases fuel, 0, 0
  {
    if fuel == 0 then OutOfFuel
    else
      var first := ParseExprKind(s, fuel - 1);
      if first.Fail? then Fail
      else if !first.Done? then OutOfFuel
      else
        NoPanicSuffix(first.rest, s);
        var more := SeparatedTail(first.rest, fuel - 1);
        if !more.Done? then OutOfFuel
        else
          SuffixTransitive(more.rest, first.rest, s);
          Done(more.rest, Separated([first.value] + more.value))
  }

  /**
    The loop of `separated_list1` after its first element: while a separator
    and then an element follow, take both; when either is missing, stop
    before the separator. The separator always consumes its `';'`, so the
    loop guard of `separated_list1` against a separator that consumes nothing
    never fires.
   */
  function SeparatedTail(s: string, fuel: nat): (r: ParseResult<seq<ExprKind>>)
    requires NoPanic(s)
    ensures r.Done? ==> IsSuffix(r.rest, s)
    ensures !r.Fail?
    decreases fuel, 2, |s|
  {
    var t := Multispace0(s);
    var sep := Tag(t, ';');
    if !sep.Done? then Done(s, [])
    else
      SeparatorSuffix(s);
      NoPanicSuffix(sep.rest, s);
      var k := ParseExprKind(sep.rest, fuel);
      if k.Fail? then Done(s, [])
      else if !k.Done? then OutOfFuel
      else
        NoPanicSuffix(k.rest, sep.rest);
        SuffixTransitive(k.rest, sep.rest, s);
        var more := SeparatedTail(k.rest, fuel);
        if !more.Done? then OutOfFuel
        else
          SuffixTransitive(more.rest, k.rest, s);
          Done(more.rest, [k.value] + more.value)
  }

  /** The separator consumes its `';'` and leaves a suffix of the text. */
  lemma SeparatorSuffix(s: string)
    requires Tag(Multispace0(s), ';').Done?
    ensures IsSuffix(Tag(Multispace0(s), ';').rest, s) && |Tag(Multispace0(s), ';').rest| < |s|
  {
    var t := Multispace0(s);
    assert t[1..] == s[|s| - |t| + 1..];
  }
}
