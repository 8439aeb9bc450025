/** The expression observations a model source hands to the plugin. */
module ExpressionData {
  import opened JavaTypes

  /** An observed expression level (ModelExpressionEntry.Level). */
  datatype Level = NoData | NotExpressed | WeakExpression | Expressed | Variable

  /** Where an observation comes from (ModelExpressionEntry.Source). */
  datatype Source = MaternalSource | ExplicitSource | NoSourceSpecified

  /** One expression observation of a gene in a region at a time point. */
  datatype ModelExpressionEntry = ModelExpressionEntry(region: string, time: int32, level: Level, source: Source)

  /**
   * The model source's `getExpressionEntry(gene, region, time)`. The gene name is an
   * `Option` because the plugin may pass a null name; what the model source answers for
   * any argument is outside this model.
   */
  type ExpressionLookup = (Option<string>, string, int32) -> ModelExpressionEntry
}
