/**
  The unit tests of the expression parser (`parse.rs`) and of the
  evaluator (`eval.rs`), stated as lemmas about the model.
 */
module ExpressionExamples {
  import opened Numbers
  import opened Nom
  import opened Expressions
  import opened ExpressionLaws
  import opened ExpressionPrinting
  import opened KindPrinting
  import opened Evaluation
  import RustyDice

  /** `test_parse_op`: `"+"` is the `Add` operation. */
  lemma ParseOpExample()
    ensures ParseOperation("+") == Done("", Operation(Add))
  {
  }

  /** `test_parse_die`: `"12d20"` is the dice `12d20`. */
  lemma ParseDieExample()
    ensures SafeAt("12d20")
    ensures ParseDice("12d20") == Done("", Dice(RustyDice.New(12, 20)))
  {
    DiceShown(RustyDice.New(12, 20));
    DieText();
  }

  /** Any dice, printed, is read back by `parse_dice` and by `parse_constant`. */
  lemma DiceShown(d: RustyDice.Dice)
    ensures var x := ShowAtom(Dice(d)) + "";
      && SafeAt(x)
      && ParseDice(x) == Done("", Dice(d))
      && ParseConstant(x) == Done("", Constant(Dice(d)))
  {
    NoPanicShowAtom(Dice(d), "");
    ParseDiceShow(d, "");
  }

  lemma DieText()
    ensures ShowAtom(Dice(RustyDice.New(12, 20))) + "" == "12d20"
  {
    assert ShowAtom(Dice(RustyDice.New(12, 20))) == "12d20";
  }

  /** `test_parse_num`: `"-1234"` is the number -1234. */
  lemma ParseNumExample()
    ensures SafeAt("-1234")
    ensures ParseNum("-1234") == Done("", Number(-1234))
  {
    NumberShown(-1234);
    NumText();
  }

  /** Any number but `i32::MIN`, printed, is read back by `parse_num`. */
  lemma NumberShown(n: i32)
    requires n != I32_MIN
    ensures var x := ShowAtom(Number(n)) + "";
      SafeAt(x) && ParseNum(x) == Done("", Number(n))
  {
    NoPanicShowAtom(Number(n), "");
    ParseNumberShow(n, "");
  }

  lemma NumText()
    ensures ShowAtom(Number(-1234)) + "" == "-1234"
  {
    assert ShowAtom(Number(-1234)) == "-1234";
  }

  /** `test_parse_constant`: `"2d6"` is a dice constant. */
  lemma ParseConstantExample()
    ensures SafeAt("2d6")
    ensures ParseConstant("2d6") == Done("", Constant(Dice(RustyDice.New(2, 6))))
  {
    DiceShown(RustyDice.New(2, 6));
    TwoSixAtomText();
  }

  lemma TwoSixAtomText()
    ensures ShowAtom(Dice(RustyDice.New(2, 6))) + "" == "2d6"
  {
    assert ShowAtom(Dice(RustyDice.New(2, 6))) == "2d6";
  }

  /** `test_parse_application`: `"2d6 + 5"` adds the dice `2d6` and the number 5. */
  lemma ParseApplicationExample()
    ensures NoPanic("2d6 + 5")
    ensures ParseApplication("2d6 + 5") == Done("", ApplicationOf(Add, Dice(RustyDice.New(2, 6)), Number(5)))
  {
    ApplicationExampleShown();
    ApplicationExampleText();
  }

  /** The same application, its text left as the printer builds it. */
  lemma ApplicationExampleShown()
    ensures var x := ShowAtom(Dice(RustyDice.New(2, 6))) + (" " + (ShowOp(Add) + (" " + (ShowAtom(Number(5)) + ""))));
      NoPanic(x) && ParseApplication(x) == Done("", ApplicationOf(Add, Dice(RustyDice.New(2, 6)), Number(5)))
  {
    ParseConstantShow(Number(5), "");
    ParseApplicationShow(Add, Dice(RustyDice.New(2, 6)), ShowAtom(Number(5)) + "", Constant(Number(5)), "");
  }

  lemma ApplicationExampleText()
    ensures ShowAtom(Dice(RustyDice.New(2, 6))) + (" " + (ShowOp(Add) + (" " + (ShowAtom(Number(5)) + "")))) == "2d6 + 5"
  {
    assert ShowAtom(Dice(RustyDice.New(2, 6))) == "2d6";
    assert ShowAtom(Number(5)) + "" == "5";
  }

  /** `test_parse_label`: `"yay dice: 1d4"` is the dice `1d4` labeled `"yay dice"`. */
  lemma ParseLabeledExample()
    ensures NoPanic("yay dice: 1d4")
    ensures ParseLabeled("yay dice: 1d4") == Done("", Labeled("yay dice", Constant(Dice(RustyDice.New(1, 4)))))
  {
    LabeledExampleText();
    LabeledShown("yay dice", RustyDice.New(1, 4));
  }

  /** A labeled dice, printed, is read back by `parse_labeled`. */
  lemma LabeledShown(name: string, d: RustyDice.Dice)
    requires LabelOk(name)
    ensures var x := name + (":" + (" " + (ShowExpr(Constant(Dice(d))) + "")));
      NoPanic(x) && ParseLabeled(x) == Done("", Labeled(name, Constant(Dice(d))))
  {
    ParseLabeledShow(name, Constant(Dice(d)), "");
  }

  lemma LabeledExampleText()
    ensures LabelOk("yay dice")
    ensures "yay dice" + (":" + (" " + (ShowExpr(Constant(Dice(RustyDice.New(1, 4)))) + ""))) == "yay dice: 1d4"
  {
    assert ShowExpr(Constant(Dice(RustyDice.New(1, 4)))) == "1d4";
  }

  /**
    A label may carry digits: `"roll 2: 1d4"` is not a simple expression,
    since it starts with a letter, and reads back as a labeled dice.
   */
  lemma DigitLabelExample(fuel: nat)
    ensures NoPanic("roll 2: 1d4")
    ensures ParseExprKind("roll 2: 1d4", fuel) == Done("", Labeled("roll 2", Constant(Dice(RustyDice.New(1, 4)))))
  {
    DigitLabelText();
    DigitLabelSafe();
    ParseKindLabelShow("roll 2", Constant(Dice(RustyDice.New(1, 4))), "");
    ParseExprKindCases("roll 2: 1d4", fuel);
  }

  lemma DigitLabelText()
    ensures LabelReadable("roll 2")
    ensures "roll 2" + (":" + (" " + (ShowExpr(Constant(Dice(RustyDice.New(1, 4)))) + ""))) == "roll 2: 1d4"
  {
    assert ShowExpr(Constant(Dice(RustyDice.New(1, 4)))) == "1d4";
  }

  /** The digit of the label is followed by its colon, so no atom parser can panic there. */
  lemma DigitLabelSafe()
    ensures NoPanic("roll 2: 1d4")
  {
    DigitSafe();
    RollWord();
    NoPanicWord("roll ", "2: 1d4");
  }

  lemma RollWord()
    ensures forall i | 0 <= i < |"roll "| :: !IsDigit("roll "[i]) && "roll "[i] != '-'
    ensures "roll " + "2: 1d4" == "roll 2: 1d4"
  {
  }

  /** Letters and spaces in front of safe text keep it safe. */
  lemma {:induction false} NoPanicWord(w: string, t: string)
    requires forall i | 0 <= i < |w| :: !IsDigit(w[i]) && w[i] != '-'
    requires NoPanic(t)
    ensures NoPanic(w + t)
    decreases |w|
  {
    if |w| > 0 {
      NoPanicWord(w[1..], t);
      assert w + t == [w[0]] + (w[1..] + t);
      NoPanicPlain(w[0], w[1..] + t);
    } else {
      assert w + t == t;
    }
  }

  lemma DigitSafe()
    ensures NoPanic("2: 1d4")
  {
    ColonSafe();
    var t := ": 1d4";
    DigitSpanOfDigits("2", t);
    assert ['2'] + t == "2" + t;
    assert !IsDiceAt(['2'] + t) && !IsNegAt(['2'] + t);
    NoPanicCons('2', t);
    assert ['2'] + t == "2: 1d4";
  }

  lemma ColonSafe()
    ensures NoPanic(": 1d4")
  {
    DieSafe();
    NoPanicPlain(' ', "1d4");
    assert [' '] + "1d4" == " 1d4";
    NoPanicPlain(':', " 1d4");
    assert [':'] + " 1d4" == ": 1d4";
  }

  lemma DieSafe()
    ensures NoPanic("1d4")
  {
    NoPanicShowAtom(Dice(RustyDice.New(1, 4)), "");
    assert ShowAtom(Dice(RustyDice.New(1, 4))) + "" == "1d4";
  }

  /** The three kinds of the separated example. */
  function SeparatedExampleKinds(): seq<ExprKind> {
    [ Simple(ApplicationOf(Add, Dice(RustyDice.New(1, 6)), Number(3))),
      Simple(Constant(Number(-2))),
      Labeled("my roll", Constant(Dice(RustyDice.New(1, 4)))) ]
  }

  lemma SeparatedExampleText()
    ensures forall k | k in SeparatedExampleKinds() :: KindPrintable(k)
    ensures ShowKinds(SeparatedExampleKinds()) == "1d6 + 3; -2; my roll: 1d4"
    ensures ShowRest(SeparatedExampleKinds()[1..]) == "; -2; my roll: 1d4"
  {
    KindExampleTexts();
    SeparatedJoinText();
    ShowThreeTexts(SeparatedExampleKinds(), "1d6 + 3", "-2", "my roll: 1d4");
  }

  lemma SeparatedJoinText()
    ensures "; " + "-2" + "; " + "my roll: 1d4" == "; -2; my roll: 1d4"
    ensures "1d6 + 3" + "; -2; my roll: 1d4" == "1d6 + 3; -2; my roll: 1d4"
  {
  }

  lemma KindExampleTexts()
    ensures forall k | k in SeparatedExampleKinds() :: KindPrintable(k)
    ensures ShowKind(SeparatedExampleKinds()[0]) == "1d6 + 3"
    ensures ShowKind(SeparatedExampleKinds()[1]) == "-2"
    ensures ShowKind(SeparatedExampleKinds()[2]) == "my roll: 1d4"
  {
    FirstKindText();
    SecondKindText();
    ThirdKindText();
  }

  lemma FirstKindText()
    ensures KindPrintable(Simple(ApplicationOf(Add, Dice(RustyDice.New(1, 6)), Number(3))))
    ensures ShowKind(Simple(ApplicationOf(Add, Dice(RustyDice.New(1, 6)), Number(3)))) == "1d6 + 3"
  {
    assert ShowAtom(Dice(RustyDice.New(1, 6))) == "1d6";
  }

  lemma SecondKindText()
    ensures KindPrintable(Simple(Constant(Number(-2))))
    ensures ShowKind(Simple(Constant(Number(-2)))) == "-2"
  {
    assert ShowAtom(Number(-2)) == "-2";
  }

  lemma ThirdKindText()
    ensures KindPrintable(Labeled("my roll", Constant(Dice(RustyDice.New(1, 4)))))
    ensures ShowKind(Labeled("my roll", Constant(Dice(RustyDice.New(1, 4))))) == "my roll: 1d4"
  {
    assert LabelOk("my roll");
    assert ShowExpr(Constant(Dice(RustyDice.New(1, 4)))) == "1d4";
  }

  /** The printed text of three kinds, from the printed text of each. */
  lemma ShowThreeTexts(ks: seq<ExprKind>, a: string, b: string, c: string)
    requires |ks| == 3 && forall k | k in ks :: KindPrintable(k)
    requires ShowKind(ks[0]) == a && ShowKind(ks[1]) == b && ShowKind(ks[2]) == c
    ensures ShowRest(ks[1..]) == "; " + b + "; " + c
    ensures ShowKinds(ks) == a + ShowRest(ks[1..])
  {
    var r := ks[1..];
    assert r[1..] == [ks[2]] && [ks[2]][1..] == [];
    assert ShowRest([ks[2]]) == ";" + (" " + (c + []));
    assert ShowRest(r) == ";" + (" " + (b + ShowRest([ks[2]])));
    Join2(b, c);
  }

  lemma Join2(y: string, z: string)
    ensures ";" + (" " + (y + (";" + (" " + (z + []))))) == "; " + y + "; " + z
  {
  }

  /**
    `test_parse_separated`: `"1d6 + 3; -2; my roll: 1d4"` is a list of
    three kinds and nothing is left over.
   */
  lemma ParseSeparatedExample(fuel: nat)
    ensures NoPanic("1d6 + 3; -2; my roll: 1d4")
    ensures ParseSeparated("1d6 + 3; -2; my roll: 1d4", fuel + 1) == Done("", Separated(SeparatedExampleKinds()))
  {
    SeparatedExampleText();
    ParseSeparatedShow(SeparatedExampleKinds(), fuel);
  }

  /**
    `parse_expr_kind` on the same text: the simple expression in front wins,
    and the rest of the list is left unconsumed.
   */
  lemma ParseExprKindOfSeparatedExample(fuel: nat)
    ensures NoPanic("1d6 + 3; -2; my roll: 1d4")
    ensures ParseExprKind("1d6 + 3; -2; my roll: 1d4", fuel)
      == Done("; -2; my roll: 1d4", SeparatedExampleKinds()[0])
  {
    SeparatedExampleText();
    FirstKindOfList(SeparatedExampleKinds(), fuel);
  }

  /** `parse_expr_kind` on a printed list takes its first kind and leaves the others. */
  lemma FirstKindOfList(ks: seq<ExprKind>, fuel: nat)
    requires |ks| >= 1 && forall k | k in ks :: KindPrintable(k)
    ensures NoPanic(ShowKinds(ks))
    ensures ParseExprKind(ShowKinds(ks), fuel) == Done(ShowRest(ks[1..]), ks[0])
  {
    SeparatedRestShow(ks[1..]);
    ParseKindShow(ks[0], ShowRest(ks[1..]));
    ParseExprKindCases(ShowKinds(ks), fuel);
  }

  /** A text without digits or `'-'` has no atom that could panic. */
  lemma {:induction false} NoPanicWithoutDigits(s: string)
    requires forall i | 0 <= i < |s| :: !IsDigit(s[i]) && s[i] != '-'
    ensures NoPanic(s)
    decreases |s|
  {
    if |s| == 0 {
      assert DigitSpan(s) == 0;
    } else {
      NoPanicWithoutDigits(s[1..]);
      assert s == [s[0]] + s[1..];
      NoPanicPlain(s[0], s[1..]);
    }
  }

  /**
    A text that does not start with an atom and has no `':'` is neither a
    simple nor a labeled expression, so `parse_expr_kind` recurses into
    `parse_separated` without end.
   */
  lemma DivergesWithoutAtom(s: string, fuel: nat)
    requires NoPanic(s) && |s| >= 1 && ':' !in s
    requires !IsMultispace(s[0]) && !IsDigit(s[0]) && s[0] != '+' && s[0] != '-'
    ensures ParseExprKind(s, fuel) == OutOfFuel
  {
    ParseExprKindCases(s, fuel);
    ParseExprNoSpace(s);
    SpacedAtomNoSpace(s);
    if ParseAtom(s).Done? {
      AtomStart(s);
    }
  }

  /** `"whatdochat"` is such a text. */
  lemma WhatdochatDiverges(fuel: nat)
    ensures NoPanic("whatdochat")
    ensures ParseExprKind("whatdochat", fuel) == OutOfFuel
  {
    WhatdochatNoPanic();
    WhatdochatStart();
    DivergesWithoutAtom("whatdochat", fuel);
  }

  lemma WhatdochatNoPanic()
    ensures NoPanic("whatdochat")
  {
    WhatdochatLetters();
    NoPanicWithoutDigits("whatdochat");
  }

  lemma WhatdochatLetters()
    ensures forall i | 0 <= i < |"whatdochat"| :: !IsDigit("whatdochat"[i]) && "whatdochat"[i] != '-'
  {
  }

  lemma WhatdochatStart()
    ensures |"whatdochat"| >= 1 && ':' !in "whatdochat"
    ensures var c := "whatdochat"[0]; !IsMultispace(c) && !IsDigit(c) && c != '+' && c != '-'
  {
  }
}
