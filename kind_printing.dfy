/**
  Expression kinds printed back to text and read again.

  A labeled kind is printed `label: expr`. A separated list is printed with
  its elements joined by `"; "`. The label must be one that `parse_labeled`
  gives back: it has no `':'` (the label ends at the first one), it does not
  start with whitespace (which `parse_labeled` skips), and it does not start
  with a digit or a sign (so that `parse_simple`, tried first, fails on it).
  Any such label reads back when its text is safe for the atom parsers
  (`ParseKindLabelShow`); the printable labels also carry no digits, which
  makes that safety follow from the label alone.
 */
module KindPrinting {
  import opened Numbers
  import opened Nom
  import opened Expressions
  import opened ExpressionLaws
  import opened ExpressionPrinting

  /** A label that `parse_labeled` gives back and `parse_simple` does not read. */
  predicate LabelReadable(name: string) {
    && ':' !in name
    && (name == [] || (!IsMultispace(name[0]) && !IsDigit(name[0]) && name[0] != '+' && name[0] != '-'))
  }

  /** A readable label without digits, whose text is always safe. */
  predicate LabelOk(name: string) {
    LabelReadable(name) && forall i | 0 <= i < |name| :: !IsDigit(name[i])
  }

  /** The kinds that are printed: simple and labeled ones with printable trees. */
  predicate KindPrintable(k: ExprKind) {
    match k
    case Simple(e) => ParserShaped(e) && ExprPrintable(e)
    case Labeled(name, e) => LabelOk(name) && ParserShaped(e) && ExprPrintable(e)
    case Separated(_) => false
  }

  function ShowKind(k: ExprKind): (r: string)
    requires KindPrintable(k)
    ensures |r| >= 1 && !IsMultispace(r[0])
  {
    match k
    case Simple(e) => ShowExpr(e)
    case Labeled(name, e) =>
      var r := name + (":" + (" " + ShowExpr(e)));
      assert r[0] == if name == [] then ':' else name[0];
      r
  }

  /** The text of a label ahead of an expression is no atom, so no simple expression reads it. */
  lemma LabelNotSimple(x: string)
    requires NoPanic(x) && |x| >= 1 && !IsMultispace(x[0])
    requires !IsDigit(x[0]) && x[0] != '+' && x[0] != '-'
    ensures !ParseSimple(x).Done?
  {
    ParseExprNoSpace(x);
    SpacedAtomNoSpace(x);
    if ParseAtom(x).Done? {
      AtomStart(x);
    }
  }

  /** A label, its colon and a space ahead of safe text are safe. */
  lemma NoPanicLabel(name: string, y: string)
    requires LabelOk(name) && NoPanic(y)
    ensures NoPanic(" " + y) && NoPanic(":" + (" " + y))
    ensures NoPanic(name + (":" + (" " + y)))
  {
    NoPanicPlain(' ', y);
    NoPanicPlain(':', " " + y);
    NoPanicText(name, ":" + (" " + y));
  }

  /** `parse_label` reads a printed label up to its colon. */
  lemma ParseLabelShow(name: string, y: string)
    requires LabelReadable(name)
    ensures ParseLabel(name + (":" + (" " + y))) == Done(" " + y, name)
  {
    var x := name + (":" + (" " + y));
    assert x == [] || !IsMultispace(x[0]) by {
      assert x[0] == if name == [] then ':' else name[0];
    }
    Multispace0OfNonSpace(x);
    TakeUntilFirst(name, ':', " " + y);
  }

  /** `parse_labeled` on its two parts, each already parsed. */
  lemma LabeledSteps(x: string, name: string, z: string, t: string, e: Expr)
    requires NoPanic(x) && NoPanic(z)
    requires ParseLabel(x) == Done(z, name) && ParseExpr(z) == Done(t, e)
    ensures ParseLabeled(x) == Done(t, Labeled(name, e))
  {
  }

  /** `parse_labeled` on a printed label reads the label and the expression after it. */
  lemma ParseLabeledShow(name: string, e: Expr, t: string)
    requires LabelOk(name) && ParserShaped(e) && ExprPrintable(e) && NoPanic(t) && Stop(t)
    ensures NoPanic(name + (":" + (" " + (ShowExpr(e) + t))))
    ensures ParseLabeled(name + (":" + (" " + (ShowExpr(e) + t)))) == Done(t, Labeled(name, e))
  {
    var y := ShowExpr(e) + t;
    var x := name + (":" + (" " + y));
    ParseExprShow(e, t);
    ShowExprStart(e, t);
    NoPanicLabel(name, y);
    ParseLabelShow(name, y);
    ParseExprSkipsOneSpace(y);
    LabeledSteps(x, name, " " + y, t, e);
  }

  /** `ParseKind` takes a simple expression when there is one. */
  lemma KindOfSimple(x: string, t: string, e: Expr)
    requires NoPanic(x) && ParseExpr(x) == Done(t, e)
    ensures ParseKind(x) == Done(t, Simple(e))
  {
  }

  /** Printed label text starts with neither whitespace, nor a digit, nor a sign. */
  lemma LabelStart(name: string, y: string)
    requires LabelReadable(name)
    ensures var x := name + (":" + (" " + y));
      |x| >= 1 && !IsMultispace(x[0]) && !IsDigit(x[0]) && x[0] != '+' && x[0] != '-'
  {
    var x := name + (":" + (" " + y));
    assert x[0] == if name == [] then ':' else name[0];
  }

  /** Text that starts like a label and parses as one is a labeled kind. */
  lemma LabeledKind(x: string, t: string, name: string, e: Expr)
    requires NoPanic(x) && |x| >= 1 && !IsMultispace(x[0])
    requires !IsDigit(x[0]) && x[0] != '+' && x[0] != '-'
    requires ParseLabeled(x) == Done(t, Labeled(name, e))
    ensures ParseKind(x) == Done(t, Labeled(name, e))
  {
    LabelNotSimple(x);
  }

  lemma ParseKindShowLabeled(name: string, e: Expr, t: string)
    requires LabelOk(name) && ParserShaped(e) && ExprPrintable(e) && NoPanic(t) && Stop(t)
    ensures NoPanic(name + (":" + (" " + (ShowExpr(e) + t))))
    ensures ParseKind(name + (":" + (" " + (ShowExpr(e) + t)))) == Done(t, Labeled(name, e))
  {
    ParseLabeledShow(name, e, t);
    LabelStart(name, ShowExpr(e) + t);
    LabeledKind(name + (":" + (" " + (ShowExpr(e) + t))), t, name, e);
  }

  /**
    `label: expr` reads back as that labeled kind for every readable label,
    digits included, whenever the text is safe for the atom parsers.
   */
  lemma ParseKindLabelShow(name: string, e: Expr, t: string)
    requires LabelReadable(name) && ParserShaped(e) && ExprPrintable(e) && NoPanic(t) && Stop(t)
    requires NoPanic(name + (":" + (" " + (ShowExpr(e) + t))))
    ensures ParseKind(name + (":" + (" " + (ShowExpr(e) + t)))) == Done(t, Labeled(name, e))
  {
    var y := ShowExpr(e) + t;
    var x := name + (":" + (" " + y));
    ParseExprShow(e, t);
    ShowExprStart(e, t);
    ParseLabelShow(name, y);
    NoPanicSuffix(" " + y, x);
    ParseExprSkipsOneSpace(y);
    LabeledSteps(x, name, " " + y, t, e);
    LabelStart(name, y);
    LabeledKind(x, t, name, e);
  }

  /** A printed kind followed by `t` reads back as itself, and its text is safe. */
  lemma ParseKindShow(k: ExprKind, t: string)
    requires KindPrintable(k) && NoPanic(t) && Stop(t)
    ensures NoPanic(ShowKind(k) + t)
    ensures ParseKind(ShowKind(k) + t) == Done(t, k)
  {
    match k
    case Simple(e) =>
      ParseExprShow(e, t);
      KindOfSimple(ShowExpr(e) + t, t, e);
    case Labeled(name, e) =>
      ShowLabeled(name, e, t);
      ParseKindShowLabeled(name, e, t);
  }

  lemma ShowLabeled(name: string, e: Expr, t: string)
    requires KindPrintable(Labeled(name, e))
    ensures ShowKind(Labeled(name, e)) + t == name + (":" + (" " + (ShowExpr(e) + t)))
  {
  }

  /** An expression kind is read the same after a leading space. */
  lemma ParseKindSkipsOneSpace(x: string)
    requires |x| >= 1 && !IsMultispace(x[0])
    requires NoPanic(" " + x)
    ensures NoPanic(x) && ParseKind(" " + x) == ParseKind(x)
  {
    ParseExprSkipsOneSpace(x);
    Multispace0Skip(" ", x);
    Multispace0OfNonSpace(x);
  }

  // ---------------------------------------------------------------------
  // Separated lists

  /** Each of the kinds after the first, preceded by its `"; "`. */
  function ShowRest(ks: seq<ExprKind>): (r: string)
    requires forall k | k in ks :: KindPrintable(k)
    ensures Stop(r)
  {
    if ks == [] then []
    else ";" + (" " + (ShowKind(ks[0]) + ShowRest(ks[1..])))
  }

  /** The kinds joined by `"; "`. */
  function ShowKinds(ks: seq<ExprKind>): string
    requires |ks| >= 1 && forall k | k in ks :: KindPrintable(k)
  {
    ShowKind(ks[0]) + ShowRest(ks[1..])
  }

  /** A `';'` and then a kind is one round of the loop of `separated_list1`. */
  lemma SeparatorThenKindAt(x: string)
    requires NoPanic(x) && |x| >= 1 && x[0] == ';'
    ensures NoPanic(x[1..]) && SeparatorThenKind(x) == ParseKind(x[1..])
  {
    Multispace0OfNonSpace(x);
    NoPanicSuffix(x[1..], x);
  }

  /** The loop of `separated_list1` takes one round, then goes on. */
  lemma SeparatedRestUnfold(x: string, u: string, k: ExprKind, more: seq<ExprKind>)
    requires NoPanic(x) && SeparatorThenKind(x) == Done(u, k)
    requires NoPanic(u) && SeparatedRest(u) == Done([], more)
    ensures SeparatedRest(x) == Done([], [k] + more)
  {
  }

  /** Printed kind text does not start with whitespace, whatever follows it. */
  lemma ShowKindStart(k: ExprKind, u: string)
    requires KindPrintable(k)
    ensures |ShowKind(k) + u| >= 1 && !IsMultispace((ShowKind(k) + u)[0])
  {
    assert (ShowKind(k) + u)[0] == ShowKind(k)[0];
  }

  /** One separator and one kind, read by the loop of `separated_list1`. */
  lemma SeparatedRestStep(k: ExprKind, u: string, more: seq<ExprKind>)
    requires KindPrintable(k) && NoPanic(u) && Stop(u)
    requires SeparatedRest(u) == Done([], more)
    ensures NoPanic(";" + (" " + (ShowKind(k) + u)))
    ensures SeparatedRest(";" + (" " + (ShowKind(k) + u))) == Done([], [k] + more)
  {
    var z := ShowKind(k) + u;
    var x := ";" + (" " + z);
    ParseKindShow(k, u);
    NoPanicPlain(' ', z);
    NoPanicPlain(';', " " + z);
    ShowKindStart(k, u);
    ParseKindSkipsOneSpace(z);
    assert x[1..] == " " + z;
    SeparatorThenKindAt(x);
    SeparatedRestUnfold(x, u, k, more);
  }

  lemma HeadTail(ks: seq<ExprKind>)
    requires |ks| >= 1
    ensures [ks[0]] + ks[1..] == ks
  {
  }

  lemma ShowRestCons(ks: seq<ExprKind>)
    requires ks != [] && forall k | k in ks :: KindPrintable(k)
    ensures ShowRest(ks) == ";" + (" " + (ShowKind(ks[0]) + ShowRest(ks[1..])))
  {
  }

  /** The printed rest of a list, one kind longer. */
  lemma SeparatedRestCons(ks: seq<ExprKind>)
    requires ks != [] && forall k | k in ks :: KindPrintable(k)
    requires NoPanic(ShowRest(ks[1..])) && SeparatedRest(ShowRest(ks[1..])) == Done([], ks[1..])
    ensures NoPanic(ShowRest(ks)) && SeparatedRest(ShowRest(ks)) == Done([], ks)
  {
    HeadTail(ks);
    ShowRestCons(ks);
    SeparatedRestStep(ks[0], ShowRest(ks[1..]), ks[1..]);
  }

  lemma {:induction false} SeparatedRestShow(ks: seq<ExprKind>)
    requires forall k | k in ks :: KindPrintable(k)
    ensures NoPanic(ShowRest(ks))
    ensures SeparatedRest(ShowRest(ks)) == Done([], ks)
  {
    if ks != [] {
      SeparatedRestShow(ks[1..]);
      SeparatedRestCons(ks);
    }
  }

  /** `separated_list1` takes a first element, then runs its loop. */
  lemma SeparatedListUnfold(x: string, u: string, k: ExprKind, more: seq<ExprKind>)
    requires NoPanic(x) && ParseKind(x) == Done(u, k)
    requires NoPanic(u) && SeparatedRest(u) == Done([], more)
    ensures SeparatedList(x) == Done([], Separated([k] + more))
  {
  }

  /** The list `separated_list1` reads from printed kinds is those kinds. */
  lemma SeparatedListShow(ks: seq<ExprKind>)
    requires |ks| >= 1 && forall k | k in ks :: KindPrintable(k)
    ensures NoPanic(ShowKinds(ks))
    ensures SeparatedList(ShowKinds(ks)) == Done([], Separated(ks))
  {
    var u := ShowRest(ks[1..]);
    HeadTail(ks);
    SeparatedRestShow(ks[1..]);
    ParseKindShow(ks[0], u);
    SeparatedListUnfold(ShowKinds(ks), u, ks[0], ks[1..]);
  }

  /** With any fuel, `parse_separated` reads printed kinds back as well. */
  lemma ParseSeparatedShow(ks: seq<ExprKind>, fuel: nat)
    requires |ks| >= 1 && forall k | k in ks :: KindPrintable(k)
    ensures NoPanic(ShowKinds(ks))
    ensures ParseSeparated(ShowKinds(ks), fuel + 1) == Done([], Separated(ks))
  {
    SeparatedListShow(ks);
    ParseSeparatedCases(ShowKinds(ks), fuel);
  }
}
