/**
 * The text renderer: a vector equation becomes the rule string that the GeNeTool rule
 * parser reads. `Render` is the pure specification; `StringifyVisitor` is the visitor
 * that appends to its string builder, proved to append exactly `Render(e)`.
 */
module Stringify {
  import opened JavaTypes
  import opened Decimal
  import opened VectorEquation

  /** The offset text after "AT": "+" for positive and "-" for zero, then the decimal. */
  function AtOffsetText(t: int): string {
    (if t >= 0 then (if t > 0 then "+" else "-") else "") + IntToString(t)
  }

  function BoolDigit(v: bool): string {
    if v then "1" else "0"
  }

  predicate StartsWith(s: string, prefix: string) {
    |prefix| <= |s| && s[..|prefix|] == prefix
  }

  /** The rule text of an equation. No parentheses are written, and the text is never empty. */
  function Render(e: Expr): (r: string)
    ensures |r| > 0
  {
    match e
    case And(l, r) => Render(l) + " AND " + Render(r)
    case Or(l, r) => Render(l) + " OR " + Render(r)
    case Not(c) => "NOT" + " " + Render(c)
    case GeneValue(g, v, _) => "G:" + g + "=" + BoolDigit(v)
    case TimePoint(c, t) => "AT" + AtOffsetText(t) + " " + Render(c)
    case GreaterThanTime(t) => ">" + IntToString(t)
    case LessThanTime(t) => "<" + IntToString(t)
    case InRegion(r) => "IN D:" + r
    case ImmediateCellContact(d) => "IN CC D:" + d
    case Modifier(l, r) => Render(l) + " " + Render(r)
  }

  /** The kinds written with a keyword in front start with that keyword. */
  lemma RenderLeadingKeyword(e: Expr)
    ensures e.Not? ==> StartsWith(Render(e), "NOT ")
    ensures e.GeneValue? ==> StartsWith(Render(e), "G:")
    ensures e.TimePoint? ==> StartsWith(Render(e), "AT")
    ensures e.GreaterThanTime? ==> StartsWith(Render(e), ">")
    ensures e.LessThanTime? ==> StartsWith(Render(e), "<")
    ensures e.InRegion? ==> StartsWith(Render(e), "IN D:")
    ensures e.ImmediateCellContact? ==> StartsWith(Render(e), "IN CC D:")
  {
  }

  class StringifyVisitor {
    var builder: string

    /** A fresh visitor holds the empty string. */
    constructor ()
      ensures builder == ""
    {
      builder := "";
    }

    /** `getValue`: the text built so far. */
    function GetValue(): (v: string)
      reads this
      ensures v == builder
    {
      builder
    }

    /**
     * `e.accept(this)`: appends the rendering of `e` to what this visitor already holds,
     * without resetting it. Children are rendered by fresh visitors.
     */
    method Visit(e: Expr)
      modifies this
      ensures builder == old(builder) + Render(e)
      decreases e, 1
    {
      match e
      case And(_, _) => VisitJoined(e, " AND ");
      case Or(_, _) => VisitJoined(e, " OR ");
      case Modifier(_, _) => VisitJoined(e, " ");
      case Not(c) =>
        var childText := RenderRule(c);
        builder := builder + "NOT" + " " + childText;
      case TimePoint(c, t) =>
        var childText := RenderRule(c);
        var sign := "";
        if t >= 0 {
          sign := if t > 0 then "+" else "-";
        }
        builder := builder + "AT" + sign + IntToString(t) + " " + childText;
      case _ => VisitLeaf(e);
    }

    /** The And, Or and Modifier cases: both children by fresh visitors, joined by `sep`. */
    method VisitJoined(e: Expr, sep: string)
      requires e.And? || e.Or? || e.Modifier?
      requires sep == (if e.And? then " AND " else if e.Or? then " OR " else " ")
      modifies this
      ensures builder == old(builder) + Render(e)
      decreases e, 0
    {
      var leftText := RenderRule(e.left);
      var rightText := RenderRule(e.right);
      builder := builder + leftText + sep + rightText;
    }

    /** The cases without children. */
    method VisitLeaf(e: Expr)
      requires e.GeneValue? || e.GreaterThanTime? || e.LessThanTime? || e.InRegion? || e.ImmediateCellContact?
      modifies this
      ensures builder == old(builder) + Render(e)
    {
      match e
      case GeneValue(g, v, _) =>
        builder := builder + "G:" + g + "=" + (if v then "1" else "0");
      case GreaterThanTime(t) =>
        builder := builder + ">" + IntToString(t);
      case LessThanTime(t) =>
        builder := builder + "<" + IntToString(t);
      case InRegion(r) =>
        builder := builder + "IN D:" + r;
      case ImmediateCellContact(d) =>
        builder := builder + "IN CC D:" + d;
    }
  }

  /**
   * A fresh visitor used once: how each visit renders a child, and how the adapter
   * renders an equation before attaching the rule to a gene.
   */
  method RenderRule(e: Expr) returns (rule: string)
    ensures rule == Render(e)
    decreases e, 2
  {
    var visitor := new StringifyVisitor();
    visitor.Visit(e);
    rule := visitor.GetValue();
  }

  /** One visitor used for two trees holds the concatenation of their renderings. */
  method RenderBoth(e1: Expr, e2: Expr) returns (text: string)
    ensures text == Render(e1) + Render(e2)
  {
    var visitor := new StringifyVisitor();
    visitor.Visit(e1);
    visitor.Visit(e2);
    text := visitor.GetValue();
  }

  /** The offset after "AT" always reads back as the time value, "AT-0" included. */
  lemma AtOffsetRoundTrip(t: int)
    ensures var w := AtOffsetText(t);
      |w| > 0 && AllDigits(w[1..]) && (w[0] == '+' || w[0] == '-') && ParseSigned(w) == t
  {
    var d := IntToString(t);
    var w := AtOffsetText(t);
    if t >= 0 {
      ParseNatToString(t);
      assert w[1..] == d == NatToString(t);
    } else {
      ParseIntToString(t);
      assert w == d;
    }
  }

  /** The sign after "AT": "+" exactly for positive times, "-" for zero and negative ones. */
  lemma AtOffsetSign(t: int)
    ensures AtOffsetText(t)[0] == '+' <==> t > 0
    ensures AtOffsetText(t)[0] == '-' <==> t <= 0
    ensures t == 0 ==> AtOffsetText(t) == "-0"
    ensures t < 0 ==> AtOffsetText(t) == IntToString(t)
  {
  }

  /** The time of a GeneValue node is not written: two nodes differing only in time render alike. */
  lemma GeneValueTimeNotRendered(g: string, v: bool, t1: int32, t2: int32)
    ensures Render(GeneValue(g, v, t1)) == Render(GeneValue(g, v, t2))
    ensures Render(GeneValue(g, v, t1)) == "G:" + g + "=" + (if v then "1" else "0")
  {
  }

  /** Without parentheses the grouping of a conjunction is lost. */
  lemma RenderAndAssociative(a: Expr, b: Expr, c: Expr)
    ensures Render(And(And(a, b), c)) == Render(And(a, And(b, c)))
  {
    var ra, rb, rc := Render(a), Render(b), Render(c);
    var sep := " AND ";
    assert Render(And(And(a, b), c)) == (ra + sep + rb) + sep + rc;
    assert Render(And(a, And(b, c))) == ra + sep + (rb + sep + rc);
    assert (ra + sep + rb) + sep + rc == ra + sep + (rb + sep + rc);
  }

  /** Rendering is not injective: distinct trees share a rule text. */
  lemma RenderNotInjective()
    ensures exists e1: Expr, e2: Expr :: e1 != e2 && Render(e1) == Render(e2)
  {
    var a, b, c := NewGeneValue("a"), NewGeneValue("b"), NewGeneValue("c");
    RenderAndAssociative(a, b, c);
    assert And(And(a, b), c) != And(a, And(b, c));
  }

  /** The cases of the test suite. */
  lemma RenderGeneExample()
    ensures Render(GeneValue("Ets1", true, 0)) == "G:Ets1=1"
  {
  }

  lemma RenderNotExample()
    ensures Render(Not(GeneValue("Ets1", true, 0))) == "NOT G:Ets1=1"
  {
  }

  lemma RenderTimePointExample()
    ensures Render(TimePoint(Not(GeneValue("Ets1", true, 0)), -3)) == "AT-3 NOT G:Ets1=1"
  {
    assert IntToString(-3) == "-3" by { assert NatToString(3) == "3"; }
  }

  lemma RenderAndOrExamples()
    ensures Render(And(GeneValue("Ets1", true, 0), GeneValue("HesC", true, 0))) == "G:Ets1=1 AND G:HesC=1"
    ensures Render(Or(GeneValue("Ets1", true, 0), GeneValue("HesC", true, 0))) == "G:Ets1=1 OR G:HesC=1"
  {
  }

  lemma RenderZeroTimePointExample()
    ensures Render(Or(TimePoint(GeneValue("geneA", true, 0), 0), TimePoint(GeneValue("geneB", true, 0), 0)))
      == "AT-0 G:geneA=1 OR AT-0 G:geneB=1"
  {
    assert AtOffsetText(0) == "-0" by { assert NatToString(0) == "0"; }
    var a, b := TimePoint(GeneValue("geneA", true, 0), 0), TimePoint(GeneValue("geneB", true, 0), 0);
    assert Render(a) == "AT-0 G:geneA=1";
    assert Render(b) == "AT-0 G:geneB=1";
  }
}
