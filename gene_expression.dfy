/** The GeNeTool expression codes and the expression grid of one GeNeTool gene. */
module GeneExpression {
  import opened JavaTypes
  import opened ExpressionData

  /** The code `mapExpressionLevel` returns for an observation GeNeTool cannot use. */
  const GENETOOL_EXPRESSION_INVALID := 5

  /**
   * `mapExpressionLevel`: a maternal observation is 4 whatever its level; otherwise not
   * expressed is 1, expressed 3, no data 0, weak 2, and any other level is invalid.
   */
  function MapExpressionLevel(mre: ModelExpressionEntry): (code: int)
    ensures 0 <= code <= GENETOOL_EXPRESSION_INVALID
    ensures code == 4 <==> mre.source == MaternalSource
    ensures code == GENETOOL_EXPRESSION_INVALID <==> mre.source != MaternalSource && mre.level == Variable
  {
    if mre.source == MaternalSource then 4
    else if mre.level == NotExpressed then 1
    else if mre.level == Expressed then 3
    else if mre.level == NoData then 0
    else if mre.level == WeakExpression then 2
    else assert mre.level.Variable?; GENETOOL_EXPRESSION_INVALID
  }

  /** The level a non-maternal code stands for, as an independent table. */
  function LevelOfCode(code: int): Option<Level> {
    match code
    case 0 => Some(NoData)
    case 1 => Some(NotExpressed)
    case 2 => Some(WeakExpression)
    case 3 => Some(Expressed)
    case _ => None
  }

  /** Codes 0 to 3 are read back to the level they came from: the mapping loses only source and invalid levels. */
  lemma MapExpressionLevelInverse(mre: ModelExpressionEntry)
    ensures LevelOfCode(MapExpressionLevel(mre)) == Some(mre.level)
         <==> mre.source != MaternalSource && mre.level != Variable
  {
  }

  /** Two non-maternal observations with valid levels get the same code exactly when their levels agree. */
  lemma MapExpressionLevelInjective(a: ModelExpressionEntry, b: ModelExpressionEntry)
    requires a.source != MaternalSource && b.source != MaternalSource
    requires a.level != Variable && b.level != Variable
    ensures MapExpressionLevel(a) == MapExpressionLevel(b) <==> a.level == b.level
  {
    MapExpressionLevelInverse(a);
    MapExpressionLevelInverse(b);
  }

  /**
   * The value of grid cell (row, col) after `buildGeneExpression` has filled the grid of
   * `gene`: rows are region numbers (the k-th region is row k), columns are time points.
   * A cell some (region, time) writes to takes the code of its observation unless that code
   * is invalid; every other cell keeps its prior value.
   */
  function CellAfter(prior: int, gene: string, regions: seq<string>, times: seq<int32>, lookup: ExpressionLookup,
                     row: nat, col: int): int
  {
    if row < |regions| && col in times
       && MapExpressionLevel(lookup(Some(gene), regions[row], col)) != GENETOOL_EXPRESSION_INVALID
    then MapExpressionLevel(lookup(Some(gene), regions[row], col))
    else prior
  }

  /**
   * The write loops of `buildGeneExpression` for one gene found in the GeNeTool model:
   * for every region and every expression time point, the observation's code is written
   * to `expression[region number][time]` when it is valid.
   */
  method FillGeneExpression(expression: array2<int>, gene: string, regions: seq<string>, times: seq<int32>,
                            lookup: ExpressionLookup)
    requires |regions| <= expression.Length0
    requires forall j :: 0 <= j < |times| ==> 0 <= times[j] < expression.Length1
    modifies expression
    ensures forall r, c :: 0 <= r < expression.Length0 && 0 <= c < expression.Length1 ==>
      expression[r, c] == CellAfter(old(expression[r, c]), gene, regions, times, lookup, r, c)
  {
    var k := 0;
    while k < |regions|
      invariant 0 <= k <= |regions|
      invariant forall r, c :: 0 <= r < expression.Length0 && 0 <= c < expression.Length1 ==>
        expression[r, c] == CellAfter(old(expression[r, c]), gene, regions[..k], times, lookup, r, c)
    {
      FillRegionRow(expression, gene, regions[..k], regions[k], times, lookup);
      assert regions[..k] + [regions[k]] == regions[..k + 1];
      k := k + 1;
    }
    assert regions[..|regions|] == regions;
  }

  /** The loop over the time points for one region, the k-th, whose row is k. */
  method FillRegionRow(expression: array2<int>, gene: string, done: seq<string>, reg: string, times: seq<int32>,
                       lookup: ExpressionLookup)
    requires |done| < expression.Length0
    requires forall j :: 0 <= j < |times| ==> 0 <= times[j] < expression.Length1
    modifies expression
    ensures forall r, c :: 0 <= r < expression.Length0 && 0 <= c < expression.Length1 && r != |done| ==>
      expression[r, c] == old(expression[r, c])
    ensures forall c :: 0 <= c < expression.Length1 ==>
      expression[|done|, c] == CellAfter(old(expression[|done|, c]), gene, done + [reg], times, lookup, |done|, c)
  {
    var row := |done|;
    var j := 0;
    while j < |times|
      invariant 0 <= j <= |times|
      invariant forall r, c :: 0 <= r < expression.Length0 && 0 <= c < expression.Length1 && r != row ==>
        expression[r, c] == old(expression[r, c])
      invariant forall c :: 0 <= c < expression.Length1 ==>
        expression[row, c] == CellAfter(old(expression[row, c]), gene, done + [reg], times[..j], lookup, row, c)
    {
      var time := times[j];
      var mre := lookup(Some(gene), reg, time);
      var genetoolExpression := MapExpressionLevel(mre);
      if genetoolExpression != GENETOOL_EXPRESSION_INVALID {
        expression[row, time] := genetoolExpression;
      }
      assert times[..j + 1] == times[..j] + [time];
      j := j + 1;
    }
    assert times[..|times|] == times;
  }
}
