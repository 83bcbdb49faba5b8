/**
  A printer for expression trees and the round trips it completes with the
  parser: printing a tree and parsing the text gives the tree back.

  The source has no printer for `Atom`, `Expr` or `ExprKind`; `ShowAtom`,
  `ShowExpr` and `ShowKind` write the notation the parser reads (dice as
  `Dice`'s `Display`, numbers in decimal with a `'-'` when negative,
  operators as `Operation`'s `Display`, one space around each operator,
  `label: expr` and `"; "` between the elements of a list). The texts they
  give never make a parser panic, which the `NoPanic...` lemmas establish.
 */
module ExpressionPrinting {
  import opened Numbers
  import opened Nom
  import opened Expressions
  import opened ExpressionLaws
  import RustyDice

  function ShowAtom(a: Atom): (r: string)
    ensures |r| >= 1 && (IsDigit(r[0]) || r[0] == '+' || r[0] == '-')
  {
    match a
    case Dice(d) => RustyDice.Display(d)
    case Number(n) => if n < 0 then "-" + ShowNat(-(n as int)) else ShowNat(n)
    case Operation(op) => ShowOp(op)
  }

  /**
    An atom whose text reads back: every atom but the number `i32::MIN`,
    whose digits after the `'-'` do not fit in `i32`, so that the `unwrap`
    of parse.rs:155 panics on them.
   */
  predicate Printable(a: Atom) {
    a.Number? ==> a.n != I32_MIN
  }

  /** What may follow an atom's text without extending it. */
  predicate AtomFollow(t: string) {
    t == [] || t[0] == ' ' || t[0] == ';'
  }

  // ---------------------------------------------------------------------
  // Printed text never panics

  lemma NoPanicCons(c: char, t: string)
    requires NoPanic(t) && SafeAt([c] + t)
    ensures NoPanic([c] + t)
  {
    assert ([c] + t)[1..] == t;
  }

  /** A character that starts no dice text and no negative number is safe. */
  lemma NoPanicPlain(c: char, t: string)
    requires !IsDigit(c) && c != '-' && NoPanic(t)
    ensures NoPanic([c] + t)
  {
    assert DigitSpan([c] + t) == 0;
    NoPanicCons(c, t);
  }

  /** A `'-'` not followed by a digit is safe. */
  lemma NoPanicMinus(t: string)
    requires NoPanic(t) && (t == [] || !IsDigit(t[0]))
    ensures NoPanic("-" + t)
  {
    assert ("-" + t)[1..] == t;
    assert DigitSpan(t) == 0;
    assert DigitSpan("-" + t) == 0;
    NoPanicCons('-', t);
  }

  /** Text without digits is safe, as long as no digit follows it. */
  lemma {:induction false} NoPanicText(w: string, t: string)
    requires forall i | 0 <= i < |w| :: !IsDigit(w[i])
    requires NoPanic(t) && (t == [] || !IsDigit(t[0]))
    ensures NoPanic(w + t)
    decreases |w|
  {
    if |w| > 0 {
      NoPanicText(w[1..], t);
      assert w + t == [w[0]] + (w[1..] + t);
      if w[0] == '-' {
        assert w[1..] + t == [] || !IsDigit((w[1..] + t)[0]) by {
          if |w| > 1 {
            assert (w[1..] + t)[0] == w[1];
          }
        }
        NoPanicMinus(w[1..] + t);
      } else {
        NoPanicPlain(w[0], w[1..] + t);
      }
    }
  }

  /** A digit run followed by neither a digit nor a `'d'` is safe. */
  lemma {:induction false} NoPanicDigits(w: string, t: string)
    requires AllDigits(w) && NoPanic(t)
    requires t == [] || (!IsDigit(t[0]) && t[0] != 'd')
    ensures NoPanic(w + t)
    decreases |w|
  {
    if |w| > 0 {
      NoPanicDigits(w[1..], t);
      var x := w + t;
      assert x == [w[0]] + (w[1..] + t);
      DigitSpanOfDigits(w, t);
      assert |w| < |x| ==> x[|w|] == t[0];
      assert !IsDiceAt(x);
      NoPanicCons(w[0], w[1..] + t);
    }
  }

  /** A `'-'` and a digit run whose value fits in `i32` is safe. */
  lemma NoPanicNeg(w: string, t: string)
    requires AllDigits(w) && |w| >= 1 && Value(w) <= I32_MAX && NoPanic(t)
    requires t == [] || (!IsDigit(t[0]) && t[0] != 'd')
    ensures NoPanic("-" + w + t)
  {
    NoPanicDigits(w, t);
    var x := "-" + w + t;
    assert x == ['-'] + (w + t);
    assert x[1..] == w + t;
    DigitSpanOfDigits(w, t);
    assert (w + t)[..|w|] == w;
    assert NegText(x) == w;
    NoPanicCons('-', w + t);
  }

  /** Dice text whose fields fit in `u32` is safe. */
  lemma {:induction false} NoPanicDice(q: string, s: string, t: string)
    requires AllDigits(q) && AllDigits(s) && |s| >= 1
    requires Value(q) <= U32_MAX && Value(s) <= U32_MAX && NoPanic(t)
    requires t == [] || (!IsDigit(t[0]) && t[0] != 'd')
    ensures NoPanic(q + (['d'] + (s + t)))
    decreases |q|
  {
    NoPanicDigits(s, t);
    if |q| == 0 {
      assert q + (['d'] + (s + t)) == ['d'] + (s + t);
      NoPanicPlain('d', s + t);
    } else {
      var x := q + (['d'] + (s + t));
      ValueDropFirst(q);
      NoPanicDice(q[1..], s, t);
      DropFirst(q, ['d'] + (s + t));
      DiceText(x, q, s, t);
      NoPanicStep(x);
    }
  }

  /** Safe at the start and safe after it: safe everywhere. */
  lemma NoPanicStep(x: string)
    requires |x| >= 1 && SafeAt(x) && NoPanic(x[1..])
    ensures NoPanic(x)
  {
  }

  lemma DropFirst(a: string, b: string)
    requires |a| >= 1
    ensures (a + b)[1..] == a[1..] + b
  {
  }

  /** Two digit runs around a `'d'` are dice text with those fields, and the rest follows it. */
  lemma DiceText(x: string, q: string, s: string, t: string)
    requires AllDigits(q) && AllDigits(s) && |q| >= 1 && |s| >= 1
    requires t == [] || (!IsDigit(t[0]) && t[0] != 'd')
    requires x == q + (['d'] + (s + t))
    ensures IsDiceAt(x) && QuantityText(x) == q && SidesText(x) == s && x[DiceEnd(x)..] == t
    ensures !IsNegAt(x)
  {
    var v := s + t;
    DigitSpanOfDigits(q, ['d'] + v);
    Halves(q, ['d'] + v);
    assert x[|q| + 1..] == v;
    DigitSpanOfDigits(s, t);
    Halves(s, t);
    assert x[0] == q[0];
  }

  lemma Regroup(a: string, b: string, c: string, t: string)
    ensures a + b + c + t == a + (b + (c + t))
  {
  }

  lemma Halves(a: string, b: string)
    ensures (a + b)[..|a|] == a && (a + b)[|a|..] == b
  {
  }

  lemma NoPanicShowAtom(a: Atom, t: string)
    requires Printable(a) && NoPanic(t) && AtomFollow(t)
    ensures NoPanic(ShowAtom(a) + t)
  {
    match a
    case Dice(d) =>
      ValueOfShowNat(d.quantity);
      ValueOfShowNat(d.numSides);
      NoPanicDice(ShowNat(d.quantity), ShowNat(d.numSides), t);
      Regroup(ShowNat(d.quantity), "d", ShowNat(d.numSides), t);
    case Number(n) =>
      if n < 0 {
        ValueOfShowNat(-(n as int));
        NoPanicNeg(ShowNat(-(n as int)), t);
        assert ShowAtom(a) + t == "-" + ShowNat(-(n as int)) + t;
      } else {
        NoPanicDigits(ShowNat(n), t);
      }
    case Operation(op) =>
      if op == Add {
        NoPanicPlain('+', t);
      } else {
        NoPanicMinus(t);
      }
  }

  // ---------------------------------------------------------------------
  // Atoms read back

  lemma ParseDiceShow(d: RustyDice.Dice, t: string)
    requires AtomFollow(t) && SafeAt(RustyDice.Display(d) + t)
    ensures ParseAtom(RustyDice.Display(d) + t) == Done(t, Dice(d))
  {
    var qs, ss := ShowNat(d.quantity), ShowNat(d.numSides);
    var x := RustyDice.Display(d) + t;
    Regroup(qs, "d", ss, t);
    DiceText(x, qs, ss, t);
    ValueOfShowNat(d.quantity);
    ValueOfShowNat(d.numSides);
    assert DiceAt(x) == d;
    DiceBeforeNumber(x, d, t);
  }

  lemma ParseNumberShow(n: i32, t: string)
    requires n != I32_MIN && AtomFollow(t) && SafeAt(ShowAtom(Number(n)) + t)
    ensures ParseAtom(ShowAtom(Number(n)) + t) == Done(t, Number(n))
  {
    var x := ShowAtom(Number(n)) + t;
    if n < 0 {
      var w := ShowNat(-(n as int));
      ValueOfShowNat(-(n as int));
      assert x == ['-'] + (w + t);
      ParseNegativeShow(x, w, t, n);
    } else {
      ValueOfShowNat(n);
      ParseNaturalShow(x, ShowNat(n), t, n);
    }
  }

  lemma ParseNaturalShow(x: string, w: string, t: string, n: i32)
    requires AllDigits(w) && |w| >= 1 && Value(w) == n as int
    requires AtomFollow(t) && x == w + t && SafeAt(x)
    ensures ParseAtom(x) == Done(t, Number(n))
  {
    DigitSpanOfDigits(w, t);
    Halves(w, t);
    assert |w| < |x| ==> x[|w|] == t[0];
    assert !IsDiceAt(x);
    assert IsNumberAt(x);
  }

  lemma ParseNegativeShow(x: string, w: string, t: string, n: i32)
    requires AllDigits(w) && |w| >= 1 && Value(w) == -(n as int)
    requires AtomFollow(t) && x == ['-'] + (w + t) && SafeAt(x)
    ensures ParseAtom(x) == Done(t, Number(n))
  {
    NegativeText(x, w, t);
    NegativeBeforeOperation(x, w, t, n);
  }

  /** A `'-'`, a digit run and what follows it: the negative-number text is the digit run. */
  lemma NegativeText(x: string, w: string, t: string)
    requires AllDigits(w) && |w| >= 1 && AtomFollow(t) && x == ['-'] + (w + t)
    ensures IsNegAt(x) && NegText(x) == w && x[1 + DigitSpan(x[1..])..] == t
  {
    assert x[1..] == w + t;
    DigitSpanOfDigits(w, t);
    Halves(w, t);
    assert x[1 + |w|..] == t;
  }

  lemma ParseOperationShow(op: Operation, t: string)
    requires AtomFollow(t) && SafeAt(ShowOp(op) + t)
    ensures ParseAtom(ShowOp(op) + t) == Done(t, Operation(op))
  {
    var x := ShowOp(op) + t;
    assert x[1..] == t;
    assert DigitSpan(t) == 0;
    assert !IsNegAt(x);
  }

  /** Every printable atom reads back from its text, whatever follows it. */
  lemma ParseAtomShow(a: Atom, t: string)
    requires Printable(a) && AtomFollow(t) && SafeAt(ShowAtom(a) + t)
    ensures ParseAtom(ShowAtom(a) + t) == Done(t, a)
  {
    match a
    case Dice(d) => ParseDiceShow(d, t);
    case Number(n) => ParseNumberShow(n, t);
    case Operation(op) => ParseOperationShow(op, t);
  }

  // ---------------------------------------------------------------------
  // Expressions read back

  /** Every atom of `e` is printable. */
  predicate ExprPrintable(e: Expr) {
    match e
    case Constant(a) => Printable(a)
    case Application(op, left, right) => ExprPrintable(left) && ExprPrintable(right)
  }

  /** Where an expression's text may end: at the end of the input or at a `';'`. */
  predicate Stop(t: string) {
    t == [] || t[0] == ';'
  }

  /** A tree of `parse_expr`'s shape, written with one space around each operator. */
  function ShowExpr(e: Expr): (r: string)
    requires ParserShaped(e)
    ensures |r| >= 1 && (IsDigit(r[0]) || r[0] == '+' || r[0] == '-')
  {
    match e
    case Constant(a) => ShowAtom(a)
    case Application(op, left, right) =>
      ShowAtom(left.atom) + (" " + (ShowOp(op.atom.op) + (" " + ShowExpr(right))))
  }

  /** The text of an application, followed by `t`, regrouped around its parts. */
  lemma ShowApplication(e: Expr, t: string)
    requires ParserShaped(e) && e.Application?
    ensures ShowExpr(e) + t
      == ShowAtom(e.left.atom) + (" " + (ShowOp(e.op.atom.op) + (" " + (ShowExpr(e.right) + t))))
  {
  }

  /** On text that does not start with whitespace, `parse_expr` is its two alternatives. */
  lemma ParseExprNoSpace(x: string)
    requires NoPanic(x) && |x| >= 1 && !IsMultispace(x[0])
    ensures ParseExpr(x) == if ParseApplication(x).Done? then ParseApplication(x) else ParseConstant(x)
  {
    Multispace0OfNonSpace(x);
  }

  /** `parse_expr` skips leading whitespace. */
  lemma ParseExprSkipsSpace(w: string, x: string)
    requires forall i | 0 <= i < |w| :: IsMultispace(w[i])
    requires x == [] || !IsMultispace(x[0])
    requires NoPanic(w + x)
    ensures NoPanic(x) && ParseExpr(w + x) == ParseExpr(x)
  {
    Multispace0Skip(w, x);
    Multispace0OfNonSpace(x);
    NoPanicSuffix(x, w + x);
  }

  /** `parse_application` on its three parts, each already parsed. */
  lemma ApplicationSteps(x: string, y: string, left: Atom, z: string, op: Atom, t: string, right: Expr)
    requires NoPanic(x) && NoPanic(z)
    requires ParseSpacedAtom(x) == Done(y, left)
    requires ParseSpacedOperation(y) == Done(z, op)
    requires ParseExpr(z) == Done(t, right)
    ensures ParseApplication(x) == Done(t, Application(Constant(op), Constant(left), right))
  {
  }

  /** `parse_application` fails when no operator follows its first atom. */
  lemma ApplicationNeedsOperator(x: string, y: string, left: Atom)
    requires NoPanic(x)
    requires ParseSpacedAtom(x) == Done(y, left)
    requires !ParseSpacedOperation(y).Done?
    ensures !ParseApplication(x).Done?
  {
  }

  lemma SpacedAtomNoSpace(x: string)
    requires NoPanic(x) && |x| >= 1 && !IsMultispace(x[0])
    ensures ParseSpacedAtom(x) == ParseAtom(x)
  {
    Multispace0OfNonSpace(x);
  }

  /** A printed atom reads back after the optional whitespace too. */
  lemma ParseSpacedAtomShow(a: Atom, u: string)
    requires Printable(a) && AtomFollow(u) && NoPanic(ShowAtom(a) + u)
    ensures |ShowAtom(a) + u| >= 1 && !IsMultispace((ShowAtom(a) + u)[0])
    ensures ParseAtom(ShowAtom(a) + u) == Done(u, a)
    ensures ParseSpacedAtom(ShowAtom(a) + u) == Done(u, a)
  {
    var x := ShowAtom(a) + u;
    assert x[0] == ShowAtom(a)[0];
    ParseAtomShow(a, u);
    SpacedAtomNoSpace(x);
  }

  lemma SpacedOperationAtStop(t: string)
    requires Stop(t)
    ensures !ParseSpacedOperation(t).Done?
  {
    Multispace0OfNonSpace(t);
  }

  lemma SpacedOperationShow(op: Operation, y: string)
    ensures ParseSpacedOperation(" " + (ShowOp(op) + y)) == Done(y, Operation(op))
  {
    Multispace0Skip(" ", ShowOp(op) + y);
    assert (ShowOp(op) + y)[1..] == y;
  }

  /** A printed atom followed by the end of an expression is a constant. */
  lemma ParseConstantShow(a: Atom, t: string)
    requires Printable(a) && NoPanic(t) && Stop(t)
    ensures NoPanic(ShowAtom(a) + t)
    ensures ParseExpr(ShowAtom(a) + t) == Done(t, Constant(a))
  {
    var x := ShowAtom(a) + t;
    NoPanicShowAtom(a, t);
    ParseSpacedAtomShow(a, t);
    SpacedOperationAtStop(t);
    ApplicationNeedsOperator(x, t, a);
    ExprOfConstant(x, t, a);
  }

  /** `parse_expr` on text that is an atom and no application. */
  lemma ExprOfConstant(x: string, t: string, a: Atom)
    requires NoPanic(x) && |x| >= 1 && !IsMultispace(x[0])
    requires ParseAtom(x) == Done(t, a) && !ParseApplication(x).Done?
    ensures ParseExpr(x) == Done(t, Constant(a))
  {
    ParseExprNoSpace(x);
  }

  /** A printed operator followed by a space is safe. */
  lemma NoPanicShowOp(op: Operation, y: string)
    requires NoPanic(y) && |y| >= 1 && y[0] == ' '
    ensures NoPanic(ShowOp(op) + y)
  {
    if op == Add {
      NoPanicPlain('+', y);
    } else {
      NoPanicMinus(y);
    }
  }

  /** `parse_expr` skips one leading space. */
  lemma ParseExprSkipsOneSpace(x: string)
    requires x == [] || !IsMultispace(x[0])
    requires NoPanic(" " + x)
    ensures NoPanic(x) && ParseExpr(" " + x) == ParseExpr(x)
  {
    ParseExprSkipsSpace(" ", x);
  }

  /** The text of an application is safe when the text of its right operand is. */
  lemma NoPanicApplicationText(op: Operation, left: Atom, y: string)
    requires Printable(left) && NoPanic(y)
    ensures NoPanic(" " + y)
    ensures NoPanic(ShowAtom(left) + (" " + (ShowOp(op) + (" " + y))))
  {
    NoPanicPlain(' ', y);
    NoPanicShowOp(op, " " + y);
    NoPanicPlain(' ', ShowOp(op) + (" " + y));
    NoPanicShowAtom(left, " " + (ShowOp(op) + (" " + y)));
  }

  /** A printed atom, operator and expression is an application of that operator. */
  lemma ParseApplicationShow(op: Operation, left: Atom, y: string, right: Expr, t: string)
    requires Printable(left) && |y| >= 1 && !IsMultispace(y[0])
    requires NoPanic(y) && ParseExpr(y) == Done(t, right)
    ensures NoPanic(ShowAtom(left) + (" " + (ShowOp(op) + (" " + y))))
    ensures ParseApplication(ShowAtom(left) + (" " + (ShowOp(op) + (" " + y))))
      == Done(t, Application(Constant(Operation(op)), Constant(left), right))
  {
    var y1 := " " + y;
    var y3 := " " + (ShowOp(op) + y1);
    var x := ShowAtom(left) + y3;
    NoPanicApplicationText(op, left, y);
    ParseSpacedAtomShow(left, y3);
    SpacedOperationShow(op, y1);
    ParseExprSkipsOneSpace(y);
    ApplicationSteps(x, y3, left, y1, Operation(op), t, right);
  }

  /** Printing an expression and parsing the text gives the expression back. */
  lemma {:induction false} ParseExprShow(e: Expr, t: string)
    requires ParserShaped(e) && ExprPrintable(e) && NoPanic(t) && Stop(t)
    ensures NoPanic(ShowExpr(e) + t)
    ensures ParseExpr(ShowExpr(e) + t) == Done(t, e)
  {
    if e.Constant? {
      ParseConstantShow(e.atom, t);
    } else {
      ParseExprShow(e.right, t);
      ParseExprShowApplication(e, t);
    }
  }

  lemma ParseExprShowApplication(e: Expr, t: string)
    requires ParserShaped(e) && ExprPrintable(e) && e.Application?
    requires NoPanic(ShowExpr(e.right) + t) && ParseExpr(ShowExpr(e.right) + t) == Done(t, e.right)
    ensures NoPanic(ShowExpr(e) + t)
    ensures ParseExpr(ShowExpr(e) + t) == Done(t, e)
  {
    var op, left, right := e.op.atom.op, e.left.atom, e.right;
    var x := ShowExpr(e) + t;
    ShowApplication(e, t);
    ShowExprStart(right, t);
    ParseApplicationShow(op, left, ShowExpr(right) + t, right, t);
    assert e == Application(Constant(Operation(op)), Constant(left), right);
    ShowExprStart(e, t);
    ParseExprOfApplication(x, t, e);
  }

  /** Printed expressions start with a digit or a sign, never with whitespace. */
  lemma ShowExprStart(e: Expr, t: string)
    requires ParserShaped(e)
    ensures |ShowExpr(e) + t| >= 1 && !IsMultispace((ShowExpr(e) + t)[0])
  {
    var r := ShowExpr(e);
    assert (r + t)[0] == r[0];
  }

  /** `parse_expr` on text that is an application. */
  lemma ParseExprOfApplication(x: string, t: string, v: Expr)
    requires NoPanic(x) && |x| >= 1 && !IsMultispace(x[0])
    requires ParseApplication(x) == Done(t, v)
    ensures ParseExpr(x) == Done(t, v)
  {
    ParseExprNoSpace(x);
  }
}
