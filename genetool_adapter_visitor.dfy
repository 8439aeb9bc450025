/**
 * The target renderer: a vector equation is lowered into GeNeTool's own logic objects
 * (LogicTwo, LogicOne, LogicGene over the operator table). GeNeTool's types are abstract
 * here; the gene lookup is a partial map, and the operator table a sequence of shared,
 * mutable operator objects.
 */
module GeNeToolLowering {
  import opened JavaTypes
  import opened VectorEquation

  /** A GeNeTool gene handle; only its identity matters here. */
  datatype Gene = Gene(name: string)

  /** An entry of GeNeTool's operator table; the AT entry carries the step it shifts by. */
  class Operator {
    var step: int

    constructor (step: int)
      ensures this.step == step
    {
      this.step := step;
    }
  }

  const LOGIC_OP_NOT: nat := 0
  const LOGIC_OP_AND: nat := 1
  const LOGIC_OP_OR: nat := 2
  const LOGIC_OP_AT: nat := 8

  /** The parts of a GRNBoolModel the lowering uses: the operator table and the gene manager. */
  class GRNBoolModel {
    const logicOperators: seq<Operator>
    const genes: map<string, Gene>

    constructor (logicOperators: seq<Operator>, genes: map<string, Gene>)
      ensures this.logicOperators == logicOperators && this.genes == genes
    {
      this.logicOperators := logicOperators;
      this.genes := genes;
    }

    /** The operator table holds the entries the lowering indexes (up to AT, index 8). */
    predicate Valid() {
      |logicOperators| > LOGIC_OP_AT
    }

    /** `gm.getGene(name)`: an unknown name gives a null handle. */
    function GetGene(name: string): (g: Option<Gene>)
      ensures g.Some? <==> name in genes
      ensures g.Some? ==> g.value == genes[name]
    {
      if name in genes then Some(genes[name]) else None
    }
  }

  /** GeNeTool logic objects; `NullLogic` is a null `Logic` reference. */
  datatype Logic =
    | NullLogic
    | LogicTwo(left: Logic, op: Operator, right: Logic)
    | LogicOne(op: Operator, child: Logic)
    | LogicGene(gene: Option<Gene>, value: bool)

  /** The node kinds whose visit case assigns `logic_`; the other five leave it alone. */
  predicate SetsLogic(e: Expr) {
    e.And? || e.Or? || e.Not? || e.GeneValue? || e.TimePoint?
  }

  /** What a fresh visitor holds after visiting `e`. */
  function Lower(e: Expr, m: GRNBoolModel): (r: Logic)
    requires m.Valid()
    ensures r == NullLogic <==> !SetsLogic(e)
    ensures r.LogicTwo? <==> e.And? || e.Or?
    ensures r.LogicOne? <==> e.Not? || e.TimePoint?
    ensures r.LogicGene? <==> e.GeneValue?
  {
    match e
    case And(l, r) => LogicTwo(Lower(l, m), m.logicOperators[LOGIC_OP_AND], Lower(r, m))
    case Or(l, r) => LogicTwo(Lower(l, m), m.logicOperators[LOGIC_OP_OR], Lower(r, m))
    case Not(c) => LogicOne(m.logicOperators[LOGIC_OP_NOT], Lower(c, m))
    case GeneValue(g, v, _) => LogicGene(m.GetGene(g), v)
    case TimePoint(c, _) => LogicOne(m.logicOperators[LOGIC_OP_AT], Lower(c, m))
    case _ => NullLogic
  }

  /** The times of the TimePoint nodes a visit reaches, in the order it writes them to AT's step. */
  function VisitedTimes(e: Expr): seq<int32> {
    match e
    case And(l, r) => VisitedTimes(l) + VisitedTimes(r)
    case Or(l, r) => VisitedTimes(l) + VisitedTimes(r)
    case Not(c) => VisitedTimes(c)
    case TimePoint(c, t) => VisitedTimes(c) + [t]
    case _ => []
  }

  /** The last element of `s`, or `prior` when there is none. */
  function LastOr(s: seq<int32>, prior: int): int {
    if s == [] then prior else s[|s| - 1]
  }

  lemma LastOrAppend(a: seq<int32>, b: seq<int32>, prior: int)
    ensures LastOr(a + b, prior) == LastOr(b, LastOr(a, prior))
  {
    if b != [] {
      assert (a + b)[|a + b| - 1] == b[|b| - 1];
    }
  }

  class GeNeToolAdapterVisitor {
    const model: GRNBoolModel
    var logic: Logic

    /** A fresh visitor holds no logic. */
    constructor (model: GRNBoolModel)
      ensures this.model == model && logic == NullLogic
    {
      this.model := model;
      logic := NullLogic;
    }

    function GetLogic(): (l: Logic)
      reads this
      ensures l == logic
    {
      logic
    }

    function GetNotLogicOperator(): (op: Operator)
      requires model.Valid()
      ensures op == model.logicOperators[LOGIC_OP_NOT]
    {
      model.logicOperators[LOGIC_OP_NOT]
    }

    function GetAndLogicOperator(): (op: Operator)
      requires model.Valid()
      ensures op == model.logicOperators[LOGIC_OP_AND]
    {
      model.logicOperators[LOGIC_OP_AND]
    }

    function GetOrLogicOperator(): (op: Operator)
      requires model.Valid()
      ensures op == model.logicOperators[LOGIC_OP_OR]
    {
      model.logicOperators[LOGIC_OP_OR]
    }

    function GetAtLogicOperator(): (op: Operator)
      requires model.Valid()
      ensures op == model.logicOperators[LOGIC_OP_AT]
    {
      model.logicOperators[LOGIC_OP_AT]
    }

    /**
     * `e.accept(this)`. The five supported kinds set `logic_` to the lowering of `e`; the
     * other five leave it as it was. Every TimePoint reached writes its time into the
     * shared AT operator's step, so afterwards the step is the last such time.
     */
    method Visit(e: Expr)
      requires model.Valid()
      modifies this, model.logicOperators[LOGIC_OP_AT]
      ensures logic == if SetsLogic(e) then Lower(e, model) else old(logic)
      ensures model.logicOperators[LOGIC_OP_AT].step
           == LastOr(VisitedTimes(e), old(model.logicOperators[LOGIC_OP_AT].step))
      decreases e, 1
    {
      ghost var prior := model.logicOperators[LOGIC_OP_AT].step;
      match e
      case And(l, r) =>
        var leftLogic := LowerEquation(model, l);
        var rightLogic := LowerEquation(model, r);
        LastOrAppend(VisitedTimes(l), VisitedTimes(r), prior);
        logic := LogicTwo(leftLogic, GetAndLogicOperator(), rightLogic);
      case Or(l, r) =>
        var leftLogic := LowerEquation(model, l);
        var rightLogic := LowerEquation(model, r);
        LastOrAppend(VisitedTimes(l), VisitedTimes(r), prior);
        logic := LogicTwo(leftLogic, GetOrLogicOperator(), rightLogic);
      case Not(c) =>
        var childLogic := LowerEquation(model, c);
        logic := LogicOne(GetNotLogicOperator(), childLogic);
      case GeneValue(g, v, _) =>
        logic := LogicGene(model.GetGene(g), v);
      case TimePoint(c, t) =>
        var childLogic := LowerEquation(model, c);
        var atOp := GetAtLogicOperator();
        atOp.step := t;
        logic := LogicOne(atOp, childLogic);
      case GreaterThanTime(_) =>
      case LessThanTime(_) =>
      case InRegion(_) =>
      case ImmediateCellContact(_) =>
      case Modifier(_, _) =>
    }
  }

  /** Lowers `e` with a fresh visitor and returns its `getLogic()`. */
  method LowerEquation(m: GRNBoolModel, e: Expr) returns (logic: Logic)
    requires m.Valid()
    modifies m.logicOperators[LOGIC_OP_AT]
    ensures logic == Lower(e, m)
    ensures m.logicOperators[LOGIC_OP_AT].step == LastOr(VisitedTimes(e), old(m.logicOperators[LOGIC_OP_AT].step))
    decreases e, 2
  {
    var visitor := new GeNeToolAdapterVisitor(m);
    visitor.Visit(e);
    logic := visitor.GetLogic();
  }

  /** Every node of `e` is of a kind the lowering supports. */
  predicate Supported(e: Expr) {
    match e
    case And(l, r) => Supported(l) && Supported(r)
    case Or(l, r) => Supported(l) && Supported(r)
    case Not(c) => Supported(c)
    case GeneValue(_, _, _) => true
    case TimePoint(c, _) => Supported(c)
    case _ => false
  }

  /** No null reference anywhere in a logic tree. */
  predicate NullFree(l: Logic) {
    match l
    case NullLogic => false
    case LogicTwo(a, _, b) => NullFree(a) && NullFree(b)
    case LogicOne(_, c) => NullFree(c)
    case LogicGene(_, _) => true
  }

  /** The lowering contains a null child exactly when the equation uses an unsupported kind. */
  lemma {:induction false} LowerNullFreeIffSupported(e: Expr, m: GRNBoolModel)
    requires m.Valid()
    ensures NullFree(Lower(e, m)) <==> Supported(e)
  {
    match e
    case And(l, r) =>
      LowerNullFreeIffSupported(l, m);
      LowerNullFreeIffSupported(r, m);
    case Or(l, r) =>
      LowerNullFreeIffSupported(l, m);
      LowerNullFreeIffSupported(r, m);
    case Not(c) =>
      LowerNullFreeIffSupported(c, m);
    case TimePoint(c, _) =>
      LowerNullFreeIffSupported(c, m);
    case _ =>
  }

  /** The gene names a visit looks up. */
  function VisitedGenes(e: Expr): set<string> {
    match e
    case And(l, r) => VisitedGenes(l) + VisitedGenes(r)
    case Or(l, r) => VisitedGenes(l) + VisitedGenes(r)
    case Not(c) => VisitedGenes(c)
    case GeneValue(g, _, _) => {g}
    case TimePoint(c, _) => VisitedGenes(c)
    case _ => {}
  }

  /** The gene handles a logic tree refers to (a null handle is `None`). */
  function GeneHandles(l: Logic): set<Option<Gene>> {
    match l
    case NullLogic => {}
    case LogicTwo(a, _, b) => GeneHandles(a) + GeneHandles(b)
    case LogicOne(_, c) => GeneHandles(c)
    case LogicGene(g, _) => {g}
  }

  /** The lowered logic refers to exactly the looked-up handles of the genes the visit reaches. */
  lemma {:induction false} LowerGeneHandles(e: Expr, m: GRNBoolModel)
    requires m.Valid()
    ensures GeneHandles(Lower(e, m)) == set g | g in VisitedGenes(e) :: m.GetGene(g)
  {
    match e
    case And(l, r) =>
      LowerGeneHandles(l, m);
      LowerGeneHandles(r, m);
    case Or(l, r) =>
      LowerGeneHandles(l, m);
      LowerGeneHandles(r, m);
    case Not(c) =>
      LowerGeneHandles(c, m);
    case TimePoint(c, _) =>
      LowerGeneHandles(c, m);
    case _ =>
  }

  /** A gene name unknown to the model lowers to a null gene handle, not to an error. */
  lemma UnknownGeneLowersToNullHandle(g: string, v: bool, t: int32, m: GRNBoolModel)
    requires m.Valid() && g !in m.genes
    ensures Lower(GeneValue(g, v, t), m) == LogicGene(None, v)
  {
  }
}
