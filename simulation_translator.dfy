/** The translation of GeNeTool's simulated values back into expression levels and entries. */
module SimulationTranslator {
  import opened JavaTypes
  import opened ExpressionData

  /** SimulatorRow: one simulated value of a gene in a domain at a time. */
  datatype SimulatorRow = SimulatorRow(region: string, gene: string, time: int32, level: Level)

  /** `transformLevel`: "yes" for an expressed level, "no" for every other. */
  function TransformLevel(level: Level): (s: string)
    ensures s == "yes" <==> level == Expressed
    ensures s == "yes" || s == "no"
  {
    if level == Expressed then "yes" else "no"
  }

  /** `booleanToLevel`: a simulated true is expressed, false is not expressed. */
  function BooleanToLevel(value: bool): (level: Level)
    ensures value ==> level == Expressed
    ensures !value ==> level == NotExpressed
  {
    if value then Expressed else NotExpressed
  }

  /** A simulated boolean survives the trip through a level to the "yes"/"no" text. */
  lemma TransformBooleanRoundTrip(value: bool)
    ensures TransformLevel(BooleanToLevel(value)) == "yes" <==> value
    ensures TransformLevel(BooleanToLevel(value)) == "no" <==> !value
  {
  }

  /** The entry `getModelExpressionEntryList` makes of a row: its region, time and level, with no source. */
  function EntryOf(row: SimulatorRow): (e: ModelExpressionEntry)
    ensures e.region == row.region && e.time == row.time && e.level == row.level
    ensures e.source == NoSourceSpecified
  {
    ModelExpressionEntry(row.region, row.time, row.level, NoSourceSpecified)
  }

  /** GeNeToolSimulationTranslator: holds the simulated table, by gene name. */
  class GeNeToolSimulationTranslator {
    const data: map<string, seq<SimulatorRow>>

    constructor (data: map<string, seq<SimulatorRow>>)
      ensures this.data == data
    {
      this.data := data;
    }

    /**
     * `getModelExpressionEntryList`: the same genes, and for each the list of entries made
     * from its rows, one per row in the same order.
     */
    method GetModelExpressionEntryList() returns (result: map<string, seq<ModelExpressionEntry>>)
      ensures result.Keys == data.Keys
      ensures forall g :: g in result ==> |result[g]| == |data[g]|
      ensures forall g, i :: g in result && 0 <= i < |result[g]| ==> result[g][i] == EntryOf(data[g][i])
    {
      result := map[];
      var todo := data.Keys;
      while todo != {}
        invariant todo <= data.Keys
        invariant result.Keys == data.Keys - todo
        invariant forall g :: g in result ==> |result[g]| == |data[g]|
        invariant forall g, i :: g in result && 0 <= i < |result[g]| ==> result[g][i] == EntryOf(data[g][i])
        decreases todo
      {
        var geneName :| geneName in todo;
        var rows := data[geneName];
        var meeList: seq<ModelExpressionEntry> := [];
        var k := 0;
        while k < |rows|
          invariant 0 <= k <= |rows|
          invariant |meeList| == k
          invariant forall i :: 0 <= i < k ==> meeList[i] == EntryOf(rows[i])
        {
          var row := rows[k];
          meeList := meeList + [ModelExpressionEntry(row.region, row.time, row.level, NoSourceSpecified)];
          k := k + 1;
        }
        result := result[geneName := meeList];
        todo := todo - {geneName};
      }
    }
  }
}
