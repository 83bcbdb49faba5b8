/**
  The evaluator of `rusty-dice-expressions` (`eval.rs`).

  Dice are the only source of randomness. Their outcomes come from an
  oracle `rolls`: one sequence of face values per dice atom, in the order
  evaluation meets them (left operand before right operand, elements of a
  separated list in order). An evaluation returns the rolls it did not use.

  The source panics in four places; `Panics` stands for all of them:
  an `unwrap` of an operand that did not evaluate to a number, a `u32`
  sum of dice faces that overflows, and an `i32` addition or subtraction
  that overflows (overflow checks as in a debug build). The `as i32` cast
  of a dice total does not panic: it wraps, and `AsI32` writes that out.
 */
module Evaluation {
  import opened Wrappers
  import opened Numbers
  import opened Nom
  import opened Sorting
  import opened Expressions
  import opened ExpressionLaws
  import RustyDice

  /** `ExpressionError` of `lib.rs`; the text of a parse error is not modelled. */
  datatype ExpressionError = ParseError | EvaluationError

  /** What an evaluation does: a value (or `None`) with the unused rolls, or a panic. */
  datatype Outcome<+T> = Value(value: T, rest: seq<seq<u32>>) | Nothing | Panics

  // ---------------------------------------------------------------------
  // The roll oracle

  /** The dice of `e` in the order evaluation rolls them. */
  function DiceOf(e: Expr): seq<RustyDice.Dice> {
    match e
    case Constant(Dice(d)) => [d]
    case Constant(_) => []
    case Application(_, l, r) => DiceOf(l) + DiceOf(r)
  }

  /** `rolls` starts with one possible outcome for each of `ds`, in order. */
  predicate Fits(ds: seq<RustyDice.Dice>, rolls: seq<seq<u32>>) {
    |ds| <= |rolls| && forall i | 0 <= i < |ds| :: RustyDice.ValidDraws(ds[i], rolls[i])
  }

  lemma FitsSplit(a: seq<RustyDice.Dice>, b: seq<RustyDice.Dice>, rolls: seq<seq<u32>>)
    requires Fits(a + b, rolls)
    ensures Fits(a, rolls) && Fits(b, rolls[|a|..])
  {
    forall i | 0 <= i < |b|
      ensures RustyDice.ValidDraws(b[i], rolls[|a|..][i])
    {
      assert (a + b)[|a| + i] == b[i];
    }
  }

  // ---------------------------------------------------------------------
  // Machine integers

  /** `x as i32` for a `u32`: the same bits read as two's complement. */
  function AsI32(x: u32): (r: i32)
    ensures r as int % 0x1_0000_0000 == x as int
    ensures x <= I32_MAX ==> r == x
  {
    if x <= I32_MAX then x else x - 0x1_0000_0000
  }

  /** An `i32` result, or nothing when the mathematical result is out of range. */
  function CheckedI32(x: int): (r: Option<i32>)
    ensures r.Some? <==> I32_MIN <= x <= I32_MAX
    ensures r.Some? ==> r.value == x
  {
    if I32_MIN <= x <= I32_MAX then Some(x) else None
  }

  // ---------------------------------------------------------------------
  // Expressions

  /**
    `Expr::eval_complete`: only a number constant is fully evaluated, which
    is exactly when `get_num` has a value to give.
   */
  predicate EvalComplete(e: Expr): (r: bool)
    ensures r <==> GetNum(e).Some?
  {
    e.Constant? && e.atom.Number?
  }

  /** The total of one roll of a die: `die.roll().iter().sum()`, summed over the sorted faces. */
  function RollTotal(draws: seq<u32>): (r: nat)
    ensures r == RustyDice.Sum(draws)
  {
    RustyDice.SumSortSeq(draws);
    RustyDice.Sum(SortSeq(draws))
  }

  /**
    `Expr::eval`. A dice constant becomes the number its roll totals; an
    application evaluates its left operand, then its right one, and adds or
    subtracts them according to its operator slot, giving nothing for any
    other operator; every other constant is returned unchanged.
   */
  function Eval(e: Expr, rolls: seq<seq<u32>>): (r: Outcome<Expr>)
    requires Fits(DiceOf(e), rolls)
    ensures r.Value? ==> r.rest == rolls[|DiceOf(e)|..]
    ensures r.Value? ==> (EvalComplete(r.value) <==> !(e.Constant? && e.atom.Operation?))
    ensures r.Nothing? ==> e.Application? && e.op != Constant(Operation(Add)) && e.op != Constant(Operation(Sub))
    ensures e.Constant? && !e.atom.Dice? ==> r == Value(e, rolls)
    ensures e.Constant? && e.atom.Dice? ==>
      r == (if RustyDice.Sum(rolls[0]) > U32_MAX then Panics
            else Value(Constant(Number(AsI32(RustyDice.Sum(rolls[0])))), rolls[1..]))
  {
    match e
    case Constant(Dice(d)) =>
      var total := RollTotal(rolls[0]);
      if total > U32_MAX then Panics
      else Value(Constant(Number(AsI32(total))), rolls[1..])
    case Constant(_) => Value(e, rolls)
    case Application(op, l, r) =>
      FitsSplit(DiceOf(l), DiceOf(r), rolls);
      var lo := Eval(l, rolls);
      if !lo.Value? || !lo.value.Constant? || !lo.value.atom.Number? then Panics
      else
        var ro := Eval(r, lo.rest);
        if !ro.Value? || !ro.value.Constant? || !ro.value.atom.Number? then Panics
        else
          var a, b := lo.value.atom.n, ro.value.atom.n;
          Arithmetic(op, a, b, ro.rest)
  }

  /** The operator step of an application whose operands are the numbers `a` and `b`. */
  function Arithmetic(op: Expr, a: i32, b: i32, rest: seq<seq<u32>>): (r: Outcome<Expr>)
    ensures r.Value? ==> r.rest == rest && EvalComplete(r.value)
    ensures op == Constant(Operation(Add)) && I32_MIN <= a + b <= I32_MAX ==> r == Value(Constant(Number(a + b)), rest)
    ensures op == Constant(Operation(Sub)) && I32_MIN <= a - b <= I32_MAX ==> r == Value(Constant(Number(a - b)), rest)
    ensures r.Panics? <==>
      || (op == Constant(Operation(Add)) && !(I32_MIN <= a + b <= I32_MAX))
      || (op == Constant(Operation(Sub)) && !(I32_MIN <= a - b <= I32_MAX))
    ensures r.Nothing? <==> op != Constant(Operation(Add)) && op != Constant(Operation(Sub))
  {
    if op == Constant(Operation(Add)) then
      var sum := CheckedI32(a + b);
      if sum.None? then Panics else Value(Constant(Number(sum.value)), rest)
    else if op == Constant(Operation(Sub)) then
      var diff := CheckedI32(a - b);
      if diff.None? then Panics else Value(Constant(Number(diff.value)), rest)
    else Nothing
  }

  /**
    A tree that `Expr::eval` takes to a number without reaching an `unwrap`
    on a non-number: every operand is a dice or number constant or an
    application whose operator slot holds an operation.
   */
  predicate Numeric(e: Expr) {
    match e
    case Constant(a) => !a.Operation?
    case Application(op, l, r) => op.Constant? && op.atom.Operation? && Numeric(l) && Numeric(r)
  }

  /** The largest magnitude any evaluation of `e` can reach. */
  function Bound(e: Expr): nat {
    match e
    case Constant(Dice(d)) => d.quantity * d.numSides
    case Constant(Number(n)) => if n < 0 then -(n as int) else n
    case Constant(Operation(_)) => 0
    case Application(_, l, r) => Bound(l) + Bound(r)
  }

  /**
    A dice constant whose largest total fits in an `i32` evaluates to the
    number its roll sums to, which lies between its quantity and quantity
    times sides.
   */
  lemma EvalDice(d: RustyDice.Dice, rolls: seq<seq<u32>>)
    requires Fits([d], rolls) && d.quantity * d.numSides <= I32_MAX
    ensures d.quantity <= RustyDice.Sum(rolls[0]) <= d.quantity * d.numSides
    ensures Eval(Constant(Dice(d)), rolls) == Value(Constant(Number(RustyDice.Sum(rolls[0]))), rolls[1..])
  {
    assert RustyDice.ValidDraws([d][0], rolls[0]);
    RustyDice.SumBetween(rolls[0], 1, d.numSides);
  }

  /**
    A numeric tree whose bound fits in an `i32` evaluates to a number within
    that bound, whatever the rolls: none of the panics can happen.
   */
  lemma {:induction false} EvalNumeric(e: Expr, rolls: seq<seq<u32>>)
    requires Numeric(e) && Bound(e) <= I32_MAX && Fits(DiceOf(e), rolls)
    ensures Eval(e, rolls).Value? && EvalComplete(Eval(e, rolls).value)
    ensures -(Bound(e) as int) <= Eval(e, rolls).value.atom.n <= Bound(e)
  {
    match e
    case Constant(Dice(d)) =>
      EvalDice(d, rolls);
    case Constant(_) =>
    case Application(op, l, r) =>
      FitsSplit(DiceOf(l), DiceOf(r), rolls);
      EvalNumeric(l, rolls);
      var mid := Eval(l, rolls).rest;
      EvalNumeric(r, mid);
      EvalApplication(op.atom.op, l, r, rolls, Eval(l, rolls).value.atom.n, mid,
        Eval(r, mid).value.atom.n, Eval(r, mid).rest);
  }

  /**
    An application of `+` or `-` evaluates its left operand with the first
    rolls, its right operand with the rolls left over, and adds or
    subtracts the two numbers.
   */
  lemma EvalApplication(op: Operation, l: Expr, r: Expr, rolls: seq<seq<u32>>,
                        a: i32, mid: seq<seq<u32>>, b: i32, rest: seq<seq<u32>>)
    requires Fits(DiceOf(Application(Constant(Operation(op)), l, r)), rolls)
    requires Fits(DiceOf(l), rolls) && Eval(l, rolls) == Value(Constant(Number(a)), mid)
    requires Fits(DiceOf(r), mid) && Eval(r, mid) == Value(Constant(Number(b)), rest)
    requires I32_MIN <= (if op == Add then a + b else a - b) <= I32_MAX
    ensures Eval(Application(Constant(Operation(op)), l, r), rolls)
      == Value(Constant(Number(if op == Add then a + b else a - b)), rest)
  {
  }

  // ---------------------------------------------------------------------
  // Expression kinds

  function DiceOfKind(k: ExprKind): seq<RustyDice.Dice>
    decreases k, 1
  {
    match k
    case Simple(e) => DiceOf(e)
    case Labeled(_, e) => DiceOf(e)
    case Separated(ks) => DiceOfKinds(ks)
  }

  function DiceOfKinds(ks: seq<ExprKind>): seq<RustyDice.Dice>
    decreases ks, 0
  {
    if ks == [] then [] else DiceOfKind(ks[0]) + DiceOfKinds(ks[1..])
  }

  /**
    `ExprKind::eval_complete`: the expression of a simple or labeled kind is
    complete, or every element of a separated list is, so that an empty
    list is complete.
   */
  predicate KindComplete(k: ExprKind): (r: bool)
    ensures !k.Separated? ==> (r <==> GetNum(k.expr).Some?)
    ensures k.Separated? && k.kinds == [] ==> r
  {
    match k
    case Simple(e) => EvalComplete(e)
    case Labeled(_, e) => EvalComplete(e)
    case Separated(ks) => forall i | 0 <= i < |ks| :: KindComplete(ks[i])
  }

  /** An outcome with a kind in place of its expression value. */
  function Wrap(o: Outcome<Expr>, k: Expr -> ExprKind): (r: Outcome<ExprKind>)
    ensures r.Value? <==> o.Value?
    ensures r.Value? ==> r == Value(k(o.value), o.rest)
    ensures r.Panics? <==> o.Panics?
  {
    match o
    case Value(v, rest) => Value(k(v), rest)
    case Nothing => Nothing
    case Panics => Panics
  }

  /**
    `ExprKind::eval`: the expression of a simple or labeled kind is
    evaluated and the label kept; a separated list is evaluated element by
    element, in order, and nothing is returned when any element gives
    nothing.
   */
  function EvalKind(k: ExprKind, rolls: seq<seq<u32>>): (r: Outcome<ExprKind>)
    requires Fits(DiceOfKind(k), rolls)
    ensures r.Value? ==> r.rest == rolls[|DiceOfKind(k)|..]
    ensures r.Value? ==> match k
      case Simple(_) => r.value.Simple?
      case Labeled(name, _) => r.value.Labeled? && r.value.name == name
      case Separated(ks) => r.value.Separated? && |r.value.kinds| == |ks|
    decreases k, 1
  {
    match k
    case Simple(e) => Wrap(Eval(e, rolls), v => Simple(v))
    case Labeled(name, e) => Wrap(Eval(e, rolls), v => Labeled(name, v))
    case Separated(ks) =>
      var vs := EvalKinds(ks, rolls);
      match vs
      case Value(v, rest) => Value(Separated(v), rest)
      case Nothing => Nothing
      case Panics => Panics
  }

  /** The elements of a separated list evaluated in order, each with the rolls left by the one before. */
  function EvalKinds(ks: seq<ExprKind>, rolls: seq<seq<u32>>): (r: Outcome<seq<ExprKind>>)
    requires Fits(DiceOfKinds(ks), rolls)
    ensures r.Value? ==> r.rest == rolls[|DiceOfKinds(ks)|..] && |r.value| == |ks|
    decreases ks, 0
  {
    if ks == [] then Value([], rolls)
    else
      FitsSplit(DiceOfKind(ks[0]), DiceOfKinds(ks[1..]), rolls);
      var first := EvalKind(ks[0], rolls);
      match first
      case Nothing => Nothing
      case Panics => Panics
      case Value(v, rest) =>
        var more := EvalKinds(ks[1..], rest);
        match more
        case Nothing => Nothing
        case Panics => Panics
        case Value(vs, rest2) => Value([v] + vs, rest2)
  }

  /** An outcome of a list of kinds with `p` in front of its value. */
  function Prepend(p: seq<ExprKind>, o: Outcome<seq<ExprKind>>): (r: Outcome<seq<ExprKind>>)
    ensures r.Value? <==> o.Value?
    ensures r.Value? ==> r.value == p + o.value && r.rest == o.rest
    ensures r.Panics? <==> o.Panics?
  {
    match o
    case Value(v, rest) => Value(p + v, rest)
    case Nothing => Nothing
    case Panics => Panics
  }

  lemma PrependNothing(o: Outcome<seq<ExprKind>>)
    ensures Prepend([], o) == o
  {
    if o.Value? {
      assert [] + o.value == o.value;
    }
  }

  /** One round of the loop over a separated list: the element at `i` evaluated to `v`. */
  lemma EvalKindsStep(ks: seq<ExprKind>, i: nat, rest: seq<seq<u32>>, p: seq<ExprKind>,
                      v: ExprKind, rest2: seq<seq<u32>>)
    requires i < |ks| && Fits(DiceOfKinds(ks[i..]), rest)
    requires Fits(DiceOfKind(ks[i]), rest) && EvalKind(ks[i], rest) == Value(v, rest2)
    ensures Fits(DiceOfKinds(ks[i + 1..]), rest2)
    ensures Prepend(p, EvalKinds(ks[i..], rest)) == Prepend(p + [v], EvalKinds(ks[i + 1..], rest2))
  {
    assert ks[i..][0] == ks[i] && ks[i..][1..] == ks[i + 1..];
    FitsSplit(DiceOfKind(ks[i]), DiceOfKinds(ks[i + 1..]), rest);
    match EvalKinds(ks[i + 1..], rest2)
    case Value(vs, _) =>
      assert p + ([v] + vs) == (p + [v]) + vs;
    case Nothing =>
    case Panics =>
  }

  /** The same round when the element gives nothing or panics: the whole list does too. */
  lemma EvalKindsStop(ks: seq<ExprKind>, i: nat, rest: seq<seq<u32>>, p: seq<ExprKind>)
    requires i < |ks| && Fits(DiceOfKinds(ks[i..]), rest)
    requires Fits(DiceOfKind(ks[i]), rest) && !EvalKind(ks[i], rest).Value?
    ensures Prepend(p, EvalKinds(ks[i..], rest)) == if EvalKind(ks[i], rest).Nothing? then Nothing else Panics
  {
    assert ks[i..][0] == ks[i];
  }

  /** `ExprKind::eval` as the source runs it, with the loop of a separated list in `EvaluateList`. */
  method EvaluateKind(k: ExprKind, rolls: seq<seq<u32>>) returns (r: Outcome<ExprKind>)
    requires Fits(DiceOfKind(k), rolls)
    ensures r == EvalKind(k, rolls)
    decreases k, 1
  {
    match k
    case Simple(e) =>
      r := Wrap(Eval(e, rolls), v => Simple(v));
    case Labeled(name, e) =>
      r := Wrap(Eval(e, rolls), v => Labeled(name, v));
    case Separated(ks) =>
      var vs := EvaluateList(ks, rolls);
      r := match vs
        case Value(v, rest) => Value(Separated(v), rest)
        case Nothing => Nothing
        case Panics => Panics;
  }

  /**
    The `Separated` branch of `ExprKind::eval`: a loop that pushes each
    evaluated element onto a new vector and returns early, through `?`,
    when an element gives nothing.
   */
  method EvaluateList(ks: seq<ExprKind>, rolls: seq<seq<u32>>) returns (r: Outcome<seq<ExprKind>>)
    requires Fits(DiceOfKinds(ks), rolls)
    ensures r == EvalKinds(ks, rolls)
    decreases ks, 0
  {
    var newKinds: seq<ExprKind> := [];
    var rest := rolls;
    var i := 0;
    assert ks[0..] == ks;
    PrependNothing(EvalKinds(ks, rolls));
    while i < |ks|
      invariant 0 <= i <= |ks|
      invariant Fits(DiceOfKinds(ks[i..]), rest)
      invariant EvalKinds(ks, rolls) == Prepend(newKinds, EvalKinds(ks[i..], rest))
    {
      assert ks[i..][0] == ks[i] && ks[i..][1..] == ks[i + 1..];
      FitsSplit(DiceOfKind(ks[i]), DiceOfKinds(ks[i + 1..]), rest);
      var kind := EvaluateKind(ks[i], rest);
      if !kind.Value? {
        EvalKindsStop(ks, i, rest, newKinds);
        r := if kind.Nothing? then Nothing else Panics;
        return;
      }
      EvalKindsStep(ks, i, rest, newKinds, kind.value, kind.rest);
      newKinds := newKinds + [kind.value];
      rest := kind.rest;
      i := i + 1;
    }
    assert ks[i..] == [];
    assert newKinds + [] == newKinds;
    r := Value(newKinds, rest);
  }

  /** Every expression in `k` is numeric within `i32` range. */
  predicate KindNumeric(k: ExprKind) {
    match k
    case Simple(e) => Numeric(e) && Bound(e) <= I32_MAX
    case Labeled(_, e) => Numeric(e) && Bound(e) <= I32_MAX
    case Separated(ks) => forall i | 0 <= i < |ks| :: KindNumeric(ks[i])
  }

  /** A numeric kind evaluates, whatever the rolls, to a complete one. */
  lemma {:induction false} EvalKindComplete(k: ExprKind, rolls: seq<seq<u32>>)
    requires KindNumeric(k) && Fits(DiceOfKind(k), rolls)
    ensures EvalKind(k, rolls).Value? && KindComplete(EvalKind(k, rolls).value)
    decreases k, 1
  {
    match k
    case Simple(e) => EvalNumeric(e, rolls);
    case Labeled(_, e) => EvalNumeric(e, rolls);
    case Separated(ks) => EvalKindsComplete(ks, rolls);
  }

  lemma {:induction false} EvalKindsComplete(ks: seq<ExprKind>, rolls: seq<seq<u32>>)
    requires (forall i | 0 <= i < |ks| :: KindNumeric(ks[i])) && Fits(DiceOfKinds(ks), rolls)
    ensures EvalKinds(ks, rolls).Value?
    ensures forall i | 0 <= i < |ks| :: KindComplete(EvalKinds(ks, rolls).value[i])
    decreases ks, 0
  {
    if ks != [] {
      FitsSplit(DiceOfKind(ks[0]), DiceOfKinds(ks[1..]), rolls);
      EvalKindComplete(ks[0], rolls);
      var first := EvalKind(ks[0], rolls);
      NumericTail(ks);
      EvalKindsComplete(ks[1..], first.rest);
      var vs := EvalKinds(ks[1..], first.rest).value;
      assert EvalKinds(ks, rolls).value == [first.value] + vs;
      CompleteCons(first.value, vs);
    }
  }

  lemma NumericTail(ks: seq<ExprKind>)
    requires ks != [] && forall i | 0 <= i < |ks| :: KindNumeric(ks[i])
    ensures forall i | 0 <= i < |ks[1..]| :: KindNumeric(ks[1..][i])
  {
    forall i | 0 <= i < |ks[1..]| ensures KindNumeric(ks[1..][i]) {
      assert ks[1..][i] == ks[i + 1];
    }
  }

  lemma CompleteCons(first: ExprKind, vs: seq<ExprKind>)
    requires KindComplete(first) && forall i | 0 <= i < |vs| :: KindComplete(vs[i])
    ensures forall i | 0 <= i < |[first] + vs| :: KindComplete(([first] + vs)[i])
  {
    forall i | 0 <= i < |[first] + vs| ensures KindComplete(([first] + vs)[i]) {
      if i > 0 {
        assert ([first] + vs)[i] == vs[i - 1];
      }
    }
  }

  // ---------------------------------------------------------------------
  // From text to value

  /** What running `eval_from_str` does: return a result, panic, or recurse without end. */
  datatype Run = Returns(result: Result<ExprKind, ExpressionError>) | Panicked | Diverges

  /**
    `eval_from_str`: parse an expression kind, discard the input it leaves,
    and evaluate it. A parse failure would be a `ParseError` and an
    evaluation giving nothing an `EvaluationError`; neither can happen:
    `parse_expr_kind` never fails (it recurses without end instead), and
    the parser only builds applications whose operator slot holds an
    operation.
   */
  function EvalFromStr(s: string, fuel: nat, rolls: seq<seq<u32>>): (r: Run)
    requires NoPanic(s)
    requires ParseExprKind(s, fuel).Done? ==> Fits(DiceOfKind(ParseExprKind(s, fuel).value), rolls)
    ensures r.Returns? ==> r.result.Ok? && !r.result.value.Separated?
    ensures r.Diverges? <==> !ParseSimple(s).Done? && !ParseLabeled(s).Done?
  {
    ParseExprKindCases(s, fuel);
    match ParseExprKind(s, fuel)
    case Fail => Returns(Err(ParseError))
    case OutOfFuel => Diverges
    case Done(_, k) =>
      ParsedShape(s);
      RunKind(k, rolls)
  }

  /** The simple or labeled kind that `parse_expr_kind` returns has a tree of the parser's shape. */
  lemma ParsedShape(s: string)
    requires NoPanic(s) && ParseKind(s).Done?
    ensures ParseKind(s).value.Simple? || ParseKind(s).value.Labeled?
    ensures ParserShaped(ParseKind(s).value.expr)
  {
  }

  /** The evaluation step of `eval_from_str`: a value, an `EvaluationError`, or a panic. */
  function RunKind(k: ExprKind, rolls: seq<seq<u32>>): (r: Run)
    requires Fits(DiceOfKind(k), rolls)
    ensures r.Returns? && r.result.Ok? <==> EvalKind(k, rolls).Value?
    ensures r.Returns? && r.result.Ok? ==> r.result.value == EvalKind(k, rolls).value
    ensures (k.Simple? || k.Labeled?) && ParserShaped(k.expr) ==> r.Panicked? || (r.Returns? && r.result.Ok?)
  {
    ShapedNeverNothing(k, rolls);
    match EvalKind(k, rolls)
    case Value(v, _) => Returns(Ok(v))
    case Nothing => Returns(Err(EvaluationError))
    case Panics => Panicked
  }

  /** An application of the parser's shape has `+` or `-` in its operator slot, so it never gives nothing. */
  lemma ShapedNeverNothing(k: ExprKind, rolls: seq<seq<u32>>)
    requires Fits(DiceOfKind(k), rolls)
    ensures (k.Simple? || k.Labeled?) && ParserShaped(k.expr) ==> !EvalKind(k, rolls).Nothing?
  {
    if (k.Simple? || k.Labeled?) && ParserShaped(k.expr) {
      var e := k.expr;
      if e.Application? {
        assert e.op.Constant? && e.op.atom.Operation?;
        assert e.op == Constant(Operation(e.op.atom.op));
        assert e.op.atom.op.Add? || e.op.atom.op.Sub?;
      }
    }
  }
}
