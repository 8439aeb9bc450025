/**
 * The vector-equation syntax tree. The visitor interface of the plugin fixes exactly ten
 * node kinds, one `visit` case each; here they are the ten constructors of one datatype,
 * and a visitor's double dispatch is an exhaustive `match`.
 */
module VectorEquation {
  import opened JavaTypes

  datatype Expr =
    | And(left: Expr, right: Expr)
    | Or(left: Expr, right: Expr)
    | Not(child: Expr)
    | GeneValue(gene: string, value: bool, time: int32)
    | TimePoint(child: Expr, time: int32)
    | GreaterThanTime(time: int32)
    | LessThanTime(time: int32)
    | InRegion(region: string)
    | ImmediateCellContact(domain: string)
    | Modifier(left: Expr, right: Expr)

  /** The one-argument GeneValueNode constructor: the gene is asked to be on, at time 0. */
  function NewGeneValue(gene: string): (e: Expr)
    ensures e.GeneValue? && e.gene == gene
    ensures e.value && e.time == 0
    ensures e == GeneValue(gene, true, 0)
  {
    GeneValue(gene, true, 0)
  }
}
