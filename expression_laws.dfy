/**
  What the expression parser does, stated without fuel.

  `parse_expr_kind` tries `parse_simple`, then `parse_labeled`, then
  `parse_separated`, and `parse_separated` starts by calling
  `parse_expr_kind` on the same input. So the third alternative can only
  ever recurse again: an expression kind is a simple expression, else a
  labeled one, else the recursion never ends. `ParseKind` states this
  outcome without fuel, with `OutOfFuel` standing for the endless
  recursion, and `ParseExprKindCases` shows that every fuel gives it.
 */
module ExpressionLaws {
  import opened Wrappers
  import opened Numbers
  import opened Nom
  import opened Expressions

  /** One element of an expression kind: simple, else labeled, else no end. */
  function ParseKind(s: string): (r: ParseResult<ExprKind>)
    requires NoPanic(s)
    ensures !r.Fail?
    ensures r.OutOfFuel? <==> !ParseSimple(s).Done? && !ParseLabeled(s).Done?
    ensures r.Done? ==> (r.value.Simple? || r.value.Labeled?) && IsSuffix(r.rest, s) && |r.rest| < |s|
  {
    if ParseSimple(s).Done? then ParseSimple(s)
    else if ParseLabeled(s).Done? then ParseLabeled(s)
    else OutOfFuel
  }

  /** `parse_expr_kind` gives the same outcome whatever the fuel. */
  lemma {:induction false} ParseExprKindCases(s: string, fuel: nat)
    requires NoPanic(s)
    ensures ParseExprKind(s, fuel) == ParseKind(s)
    decreases fuel
  {
    if !ParseSimple(s).Done? && !ParseLabeled(s).Done? && fuel > 0 {
      ParseExprKindCases(s, fuel - 1);
    }
  }

  /**
    `parse_expr_kind` never builds a `Separated` kind and never fails: it
    gives a simple or labeled expression, or it recurses without end.
   */
  lemma NeverSeparated(s: string, fuel: nat)
    requires NoPanic(s)
    ensures ParseExprKind(s, fuel).Done? ==> !ParseExprKind(s, fuel).value.Separated?
    ensures !ParseExprKind(s, fuel).Fail?
  {
    ParseExprKindCases(s, fuel);
  }

  /**
    The elements after the first one in `separated_list1`, without fuel: a
    separator and an element as long as both follow. The element parser
    never fails, so a separator that is not followed by an element leads
    into the endless recursion.
   */
  function SeparatedRest(s: string): (r: ParseResult<seq<ExprKind>>)
    requires NoPanic(s)
    ensures !r.Fail?
    decreases |s|
  {
    var k := SeparatorThenKind(s);
    if k.Fail? then Done(s, [])
    else if !k.Done? then OutOfFuel
    else
      var more := SeparatedRest(k.rest);
      if !more.Done? then OutOfFuel
      else Done(more.rest, [k.value] + more.value)
  }

  /** One round of that loop: a `';'` after optional whitespace, then an element. */
  function SeparatorThenKind(s: string): (r: ParseResult<ExprKind>)
    requires NoPanic(s)
    ensures r.Done? ==> NoPanic(r.rest) && IsSuffix(r.rest, s) && |r.rest| < |s|
  {
    var sep := Tag(Multispace0(s), ';');
    if !sep.Done? then Fail
    else
      NoPanicSuffix(sep.rest, s);
      var k := ParseKind(sep.rest);
      if k.Done? then
        NoPanicSuffix(k.rest, sep.rest);
        SuffixTransitive(k.rest, sep.rest, s);
        k
      else k
  }

  /**
    The loop of `separated_list1` leaves a suffix of its input, and each
    element it takes is a simple or a labeled expression.
   */
  lemma {:induction false} SeparatedRestShape(s: string)
    requires NoPanic(s)
    ensures SeparatedRest(s).Done? ==> IsSuffix(SeparatedRest(s).rest, s)
    ensures SeparatedRest(s).Done? ==> forall k | k in SeparatedRest(s).value :: k.Simple? || k.Labeled?
    decreases |s|
  {
    var k := SeparatorThenKind(s);
    if k.Done? {
      SeparatedRestShape(k.rest);
      if SeparatedRest(k.rest).Done? {
        SuffixTransitive(SeparatedRest(k.rest).rest, k.rest, s);
      }
    }
  }

  /** `parse_separated` without fuel: a first element, then `SeparatedRest`. */
  function SeparatedList(s: string): (r: ParseResult<ExprKind>)
    requires NoPanic(s)
    ensures !r.Fail?
    ensures r.Done? ==> IsSuffix(r.rest, s) && r.value.Separated? && |r.value.kinds| >= 1
    ensures r.Done? ==> forall k | k in r.value.kinds :: k.Simple? || k.Labeled?
  {
    var first := ParseKind(s);
    if !first.Done? then OutOfFuel
    else
      NoPanicSuffix(first.rest, s);
      var more := SeparatedRest(first.rest);
      if !more.Done? then OutOfFuel
      else
        SeparatedRestShape(first.rest);
        SuffixTransitive(more.rest, first.rest, s);
        Done(more.rest, Separated([first.value] + more.value))
  }

  lemma {:induction false} SeparatedTailCases(s: string, fuel: nat)
    requires NoPanic(s)
    ensures SeparatedTail(s, fuel) == SeparatedRest(s)
    decreases |s|
  {
    var t := Multispace0(s);
    var sep := Tag(t, ';');
    if sep.Done? {
      NoPanicSuffix(sep.rest, s);
      ParseExprKindCases(sep.rest, fuel);
      var k := ParseKind(sep.rest);
      if k.Done? {
        NoPanicSuffix(k.rest, sep.rest);
        SeparatedTailCases(k.rest, fuel);
      }
    }
  }

  /**
    `parse_separated` with any fuel beyond the first call is `SeparatedList`:
    its elements are simple or labeled expressions, it never fails, and one
    unit of fuel already suffices.
   */
  lemma ParseSeparatedCases(s: string, fuel: nat)
    requires NoPanic(s)
    ensures ParseSeparated(s, fuel + 1) == SeparatedList(s)
  {
    ParseExprKindCases(s, fuel);
    var first := ParseKind(s);
    if first.Done? {
      NoPanicSuffix(first.rest, s);
      SeparatedTailCases(first.rest, fuel);
    }
  }
}
