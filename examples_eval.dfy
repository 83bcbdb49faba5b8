/**
  The unit tests of `eval.rs` as lemmas: each text parses, and evaluating
  it with any roll of its one die gives a complete result.
 */
module EvaluationExamples {
  import opened Wrappers
  import opened Numbers
  import opened Nom
  import opened Expressions
  import opened ExpressionLaws
  import opened ExpressionPrinting
  import opened KindPrinting
  import opened Evaluation
  import opened ExpressionExamples
  import RustyDice

  /** `eval_from_str` evaluates whatever kind `parse_expr_kind` returns. */
  lemma EvalFromStrOfKind(s: string, fuel: nat, rolls: seq<seq<u32>>, rest: string, k: ExprKind)
    requires NoPanic(s) && ParseExprKind(s, fuel) == Done(rest, k)
    requires Fits(DiceOfKind(k), rolls)
    ensures EvalFromStr(s, fuel, rolls) == RunKind(k, rolls)
  {
  }

  /**
    `eval_from_str` on a printed list of kinds parses the first kind, leaves
    the others, and evaluates that first kind alone.
   */
  lemma EvalFirstOfList(ks: seq<ExprKind>, fuel: nat, rolls: seq<seq<u32>>)
    requires |ks| >= 1 && forall k | k in ks :: KindPrintable(k)
    requires Fits(DiceOfKind(ks[0]), rolls)
    ensures NoPanic(ShowKinds(ks))
    ensures ParseExprKind(ShowKinds(ks), fuel) == Done(ShowRest(ks[1..]), ks[0])
    ensures EvalFromStr(ShowKinds(ks), fuel, rolls) == RunKind(ks[0], rolls)
  {
    FirstKindOfList(ks, fuel);
    EvalFromStrOfKind(ShowKinds(ks), fuel, rolls, ShowRest(ks[1..]), ks[0]);
  }

  /** One roll of a single die totals the face it shows. */
  lemma EvalOneDie(d: RustyDice.Dice, x: u32)
    requires d.quantity == 1 && 1 <= x <= d.numSides && x <= I32_MAX
    ensures Fits([d], [[x]])
    ensures Eval(Constant(Dice(d)), [[x]]) == Value(Constant(Number(x)), [])
  {
    assert RustyDice.ValidDraws([d][0], [[x]][0]);
    assert RustyDice.Sum([x]) == x;
  }

  function D4(): RustyDice.Dice {
    RustyDice.New(1, 4)
  }

  /** `"1d4 + 4"` as a tree. */
  function OnePlusFour(): Expr {
    ApplicationOf(Add, Dice(D4()), Number(4))
  }

  lemma DiceRollText()
    ensures KindPrintable(Simple(Constant(Dice(D4()))))
    ensures ShowKinds([Simple(Constant(Dice(D4())))]) == "1d4"
    ensures ShowRest([Simple(Constant(Dice(D4())))][1..]) == ""
  {
    assert [Simple(Constant(Dice(D4())))][1..] == [];
    assert ShowAtom(Dice(D4())) == "1d4";
  }

  /** A roll of `x` on `1d4` evaluates to `x`. */
  lemma RunDiceRoll(x: u32)
    requires 1 <= x <= 4
    ensures Fits(DiceOfKind(Simple(Constant(Dice(D4())))), [[x]])
    ensures RunKind(Simple(Constant(Dice(D4()))), [[x]]) == Returns(Ok(Simple(Constant(Number(x)))))
    ensures KindComplete(Simple(Constant(Number(x))))
  {
    EvalOneDie(D4(), x);
  }

  /** `test_dice_roll`: `"1d4"` evaluates to the face rolled, a complete result. */
  lemma EvalDiceRollExample(fuel: nat, x: u32)
    requires 1 <= x <= 4
    ensures NoPanic("1d4")
    ensures ParseExprKind("1d4", fuel) == Done("", Simple(Constant(Dice(D4()))))
    ensures Fits(DiceOfKind(Simple(Constant(Dice(D4())))), [[x]])
    ensures EvalFromStr("1d4", fuel, [[x]]) == Returns(Ok(Simple(Constant(Number(x)))))
    ensures KindComplete(Simple(Constant(Number(x))))
  {
    DiceRollText();
    RunDiceRoll(x);
    EvalFirstOfList([Simple(Constant(Dice(D4())))], fuel, [[x]]);
  }

  lemma ApplicationText()
    ensures KindPrintable(Simple(OnePlusFour()))
    ensures ShowKinds([Simple(OnePlusFour())]) == "1d4 + 4"
    ensures ShowRest([Simple(OnePlusFour())][1..]) == ""
  {
    assert [Simple(OnePlusFour())][1..] == [];
    assert ShowAtom(Dice(D4())) == "1d4";
  }

  /** `1d4 + 4` with a roll of `x` is `x + 4`. */
  lemma EvalOnePlusFour(x: u32)
    requires 1 <= x <= 4
    ensures Fits(DiceOf(OnePlusFour()), [[x]])
    ensures Eval(OnePlusFour(), [[x]]) == Value(Constant(Number(x + 4)), [])
  {
    EvalOneDie(D4(), x);
    EvalApplication(Add, Constant(Dice(D4())), Constant(Number(4)), [[x]], x, [], 4, []);
  }

  lemma RunOnePlusFour(x: u32)
    requires 1 <= x <= 4
    ensures Fits(DiceOfKind(Simple(OnePlusFour())), [[x]])
    ensures RunKind(Simple(OnePlusFour()), [[x]]) == Returns(Ok(Simple(Constant(Number(x + 4)))))
    ensures KindComplete(Simple(Constant(Number(x + 4))))
  {
    EvalOnePlusFour(x);
  }

  /** `test_application`: `"1d4 + 4"` evaluates to the face rolled plus 4. */
  lemma EvalApplicationExample(fuel: nat, x: u32)
    requires 1 <= x <= 4
    ensures NoPanic("1d4 + 4")
    ensures ParseExprKind("1d4 + 4", fuel) == Done("", Simple(OnePlusFour()))
    ensures Fits(DiceOfKind(Simple(OnePlusFour())), [[x]])
    ensures EvalFromStr("1d4 + 4", fuel, [[x]]) == Returns(Ok(Simple(Constant(Number(x + 4)))))
    ensures KindComplete(Simple(Constant(Number(x + 4))))
  {
    ApplicationText();
    RunOnePlusFour(x);
    EvalFirstOfList([Simple(OnePlusFour())], fuel, [[x]]);
  }

  /** The three kinds of `"1d4 + 4; 2d6; my roll: 1d4 + 3"`. */
  function SeparationKinds(): seq<ExprKind> {
    [ Simple(OnePlusFour()),
      Simple(Constant(Dice(RustyDice.New(2, 6)))),
      Labeled("my roll", ApplicationOf(Add, Dice(D4()), Number(3))) ]
  }

  lemma SeparationKindTexts()
    ensures forall k | k in SeparationKinds() :: KindPrintable(k)
    ensures ShowKind(SeparationKinds()[0]) == "1d4 + 4"
    ensures ShowKind(SeparationKinds()[1]) == "2d6"
    ensures ShowKind(SeparationKinds()[2]) == "my roll: 1d4 + 3"
  {
    OnePlusFourText();
    TwoSixText();
    MyRollText();
  }

  lemma OnePlusFourText()
    ensures KindPrintable(Simple(OnePlusFour()))
    ensures ShowKind(Simple(OnePlusFour())) == "1d4 + 4"
  {
    assert ShowAtom(Dice(D4())) == "1d4";
  }

  lemma TwoSixText()
    ensures KindPrintable(Simple(Constant(Dice(RustyDice.New(2, 6)))))
    ensures ShowKind(Simple(Constant(Dice(RustyDice.New(2, 6))))) == "2d6"
  {
    assert ShowAtom(Dice(RustyDice.New(2, 6))) == "2d6";
  }

  lemma MyRollText()
    ensures KindPrintable(Labeled("my roll", ApplicationOf(Add, Dice(D4()), Number(3))))
    ensures ShowKind(Labeled("my roll", ApplicationOf(Add, Dice(D4()), Number(3)))) == "my roll: 1d4 + 3"
  {
    MyRollLabel();
    MyRollBodyText();
    MyRollJoinText();
  }

  lemma MyRollBodyText()
    ensures ExprPrintable(ApplicationOf(Add, Dice(D4()), Number(3)))
    ensures ParserShaped(ApplicationOf(Add, Dice(D4()), Number(3)))
    ensures ShowExpr(ApplicationOf(Add, Dice(D4()), Number(3))) == "1d4 + 3"
  {
    assert ShowAtom(Dice(D4())) == "1d4";
  }

  lemma MyRollJoinText()
    ensures "my roll" + (":" + (" " + "1d4 + 3")) == "my roll: 1d4 + 3"
  {
  }

  lemma MyRollLabel()
    ensures LabelOk("my roll")
  {
  }

  lemma SeparationJoinText()
    ensures "; " + "2d6" + "; " + "my roll: 1d4 + 3" == "; 2d6; my roll: 1d4 + 3"
    ensures "1d4 + 4" + "; 2d6; my roll: 1d4 + 3" == "1d4 + 4; 2d6; my roll: 1d4 + 3"
  {
  }

  lemma SeparationText()
    ensures forall k | k in SeparationKinds() :: KindPrintable(k)
    ensures ShowKinds(SeparationKinds()) == "1d4 + 4; 2d6; my roll: 1d4 + 3"
    ensures ShowRest(SeparationKinds()[1..]) == "; 2d6; my roll: 1d4 + 3"
  {
    SeparationKindTexts();
    SeparationJoinText();
    ShowThreeTexts(SeparationKinds(), "1d4 + 4", "2d6", "my roll: 1d4 + 3");
  }

  /**
    `test_separation`: `"1d4 + 4; 2d6; my roll: 1d4 + 3"` also evaluates to a
    complete result, but only because `parse_expr_kind` takes the first
    simple expression: the result is `x + 4` for the one die rolled, and the
    other two elements are discarded unevaluated.
   */
  lemma EvalSeparationExample(fuel: nat, x: u32)
    requires 1 <= x <= 4
    ensures NoPanic("1d4 + 4; 2d6; my roll: 1d4 + 3")
    ensures ParseExprKind("1d4 + 4; 2d6; my roll: 1d4 + 3", fuel)
      == Done("; 2d6; my roll: 1d4 + 3", Simple(OnePlusFour()))
    ensures Fits(DiceOfKind(Simple(OnePlusFour())), [[x]])
    ensures EvalFromStr("1d4 + 4; 2d6; my roll: 1d4 + 3", fuel, [[x]]) == Returns(Ok(Simple(Constant(Number(x + 4)))))
    ensures KindComplete(Simple(Constant(Number(x + 4))))
  {
    SeparationText();
    RunOnePlusFour(x);
    SeparationFirst(SeparationKinds(), fuel, [[x]]);
  }

  lemma SeparationFirst(ks: seq<ExprKind>, fuel: nat, rolls: seq<seq<u32>>)
    requires ks == SeparationKinds() && Fits(DiceOfKind(Simple(OnePlusFour())), rolls)
    requires forall k | k in ks :: KindPrintable(k)
    ensures NoPanic(ShowKinds(ks))
    ensures ParseExprKind(ShowKinds(ks), fuel) == Done(ShowRest(ks[1..]), Simple(OnePlusFour()))
    ensures EvalFromStr(ShowKinds(ks), fuel, rolls) == RunKind(Simple(OnePlusFour()), rolls)
  {
    EvalFirstOfList(ks, fuel, rolls);
  }

  lemma PlusText()
    ensures KindPrintable(Simple(Constant(Operation(Add))))
    ensures ShowKinds([Simple(Constant(Operation(Add)))]) == "+"
    ensures ShowRest([Simple(Constant(Operation(Add)))][1..]) == ""
  {
    assert [Simple(Constant(Operation(Add)))][1..] == [];
  }

  /**
    `"+"` parses to the operation alone, which evaluates to itself: the
    evaluation succeeds, yet its result is not complete.
   */
  lemma EvalPlusExample(fuel: nat)
    ensures NoPanic("+")
    ensures ParseExprKind("+", fuel) == Done("", Simple(Constant(Operation(Add))))
    ensures Fits(DiceOfKind(Simple(Constant(Operation(Add)))), [])
    ensures EvalFromStr("+", fuel, []) == Returns(Ok(Simple(Constant(Operation(Add)))))
    ensures !KindComplete(Simple(Constant(Operation(Add))))
  {
    PlusText();
    EvalFirstOfList([Simple(Constant(Operation(Add)))], fuel, []);
  }

  /** `"+ + 3"` as the parser builds it: the operation `+` as the left operand. */
  function PlusPlusThree(): Expr {
    Application(Constant(Operation(Add)), Constant(Operation(Add)), Constant(Number(3)))
  }

  lemma PlusPlusThreeText()
    ensures KindPrintable(Simple(PlusPlusThree()))
    ensures ShowKinds([Simple(PlusPlusThree())]) == "+ + 3"
    ensures ShowRest([Simple(PlusPlusThree())][1..]) == ""
  {
    assert [Simple(PlusPlusThree())][1..] == [];
  }

  /** An operation as the left operand makes the evaluation panic. */
  lemma RunPlusPlusThree()
    ensures Fits(DiceOfKind(Simple(PlusPlusThree())), [])
    ensures RunKind(Simple(PlusPlusThree()), []) == Panicked
  {
  }

  /**
    `"+ + 3"` parses, but its left operand is an operation, so the `unwrap`
    of `get_num` on it panics.
   */
  lemma EvalPlusPlusThreePanics(fuel: nat)
    ensures NoPanic("+ + 3")
    ensures ParseExprKind("+ + 3", fuel) == Done("", Simple(PlusPlusThree()))
    ensures Fits(DiceOfKind(Simple(PlusPlusThree())), [])
    ensures EvalFromStr("+ + 3", fuel, []) == Panicked
  {
    PlusPlusThreeText();
    RunPlusPlusThree();
    EvalFirstOfList([Simple(PlusPlusThree())], fuel, []);
  }

  /** `"whatdochat"` never returns: neither a `ParseError` nor anything else. */
  lemma EvalWhatdochatDiverges(fuel: nat)
    ensures NoPanic("whatdochat") && ParseExprKind("whatdochat", fuel) == OutOfFuel
    ensures EvalFromStr("whatdochat", fuel, []) == Diverges
  {
    WhatdochatDiverges(fuel);
  }
}
