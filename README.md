# GeNeTool boolean-equation export, modelled in Dafny

This project models the part of BioTapestry's GeNeTool simulator plug-in that turns a
BioTapestry model into a GeNeTool boolean network. It covers:

- **Vector equations.** The expression tree (`VectorEquation.Expr`: And, Or, Not, GeneValue,
  TimePoint, GreaterThanTime, LessThanTime, InRegion, ImmediateCellContact, Modifier).
- **The StringifyVisitor.** It writes a tree as GeNeTool rule text. It is modelled as a class
  with a `builder` field and is proved to append `Render(e)`.
- **The GeNeToolAdapterVisitor.** It lowers a tree to GeNeTool logic objects and sets the
  shared AT operator's step as it goes. It is modelled as a class with a `logic` field, over a
  `GRNBoolModel` whose operator table holds `Operator` objects. It is proved against the
  function `Lower`.
- **Model graph analysis.** Roots of the root model; feedback edges through a link map.
- **The GeNeToolModelAdapter.**
  - Regions with the global maximum time, domains (lineage leaves) and the domain topology.
  - The mapping of expression levels to GeNeTool codes, and the expression grid of a gene.
  - The equations of genes with upstream links. An AND chain over the forward sources joins
    an OR chain over the feedback sources, and each source is delayed by one time point.
  - The input equations of root genes from their first expressed time slice per region.
  - Attaching a rendered rule to a gene.
- **The GeNeToolSimulationTranslator.** It turns simulated boolean values back into levels
  and expression entries.

Java `int` is the subset type `JavaTypes.int32`. The one addition that can overflow is
`end + 1` in an input equation, and `JavaTypes.AddOne` writes its wrap-around out. Java
`null` is `Option.None`, or `Logic.NullLogic` for a logic object. Iteration over a `HashSet`
or a `HashMap` picks elements nondeterministically (`:|`). Where the result depends on the
order, the contract says "for some enumeration order of the set" (`JavaTypes.Enumerates`).

Behaviour of the code worth knowing:

- A time point of 0 renders as `AT-0`: the sign is written for every non-negative time
  (`StringifyVisitor.java:63-67`; `GeNeToolAdapterVisitorTests.java:57` expects it).
- A time slice ends at the first time point that no longer matches, not at the last one that
  does (`GeNeToolModelAdapter.java:575-587`). A run expressed at 2..4 followed by 5 gives the
  window `>2 AND <6` (`TimeSlices.SliceEndIsFirstNonMatch`).
- Lowering a node kind GeNeTool has no logic for is a silent no-op that leaves the logic
  unchanged (`GeNeToolAdapterVisitor.java:122-145`).
- An empty list of expression time points makes the slice search fail with an index error
  (`IndexOutOfBounds`) before it can answer "no slice" (`GeNeToolModelAdapter.java:586`).

## Model

| member | source | states |
|---|---|---|
| JavaTypes.AddOne | src/org/systemsbiology/biotapestry/plugin/simulation/genetool/GeNeToolModelAdapter.java:702 | Java's `end + 1` on an `int`: one more, except that Integer.MAX_VALUE wraps to Integer.MIN_VALUE; never the argument itself |
| VectorEquation.NewGeneValue | src/org/systemsbiology/biotapestry/plugin/simulation/genetool/vectorequation/GeneValueNode.java:27-31 | the one-argument GeneValueNode constructor gives value true and time 0 for the given gene |
| Decimal.NatToString | src/org/systemsbiology/biotapestry/plugin/simulation/genetool/vectorequation/StringifyVisitor.java:67 | the decimal text `append(int)` writes for a non-negative value: non-empty, digits only, a leading zero only for 0 |
| Decimal.IntToString | src/org/systemsbiology/biotapestry/plugin/simulation/genetool/vectorequation/StringifyVisitor.java:67 | the text starts with "-" exactly for a negative value, followed by the digits of its magnitude |
| Decimal.ParseNatToString | src/org/systemsbiology/biotapestry/plugin/simulation/genetool/vectorequation/StringifyVisitor.java:74 | the decimal digits of n read back as n |
| Decimal.ParseIntToString | src/org/systemsbiology/biotapestry/plugin/simulation/genetool/vectorequation/StringifyVisitor.java:79 | the decimal text of any integer reads back as that integer (round trip) |
| Decimal.IntToStringInjective | src/org/systemsbiology/biotapestry/plugin/simulation/genetool/vectorequation/StringifyVisitor.java:74 | two time values render to the same text only if they are equal |
| Stringify.Render | src/org/systemsbiology/biotapestry/plugin/simulation/genetool/vectorequation/StringifyVisitor.java:14-104 | the rule text of a tree, one case per visit method: "G:g=1/0", "NOT c", "l AND r", "l OR r", "AT" + sign + t + " c", ">t", "<t", "IN D:r", "IN CC D:d", "l r" (the reference every visitor contract is stated in); its contract states the text is never empty |
| Stringify.RenderLeadingKeyword | src/org/systemsbiology/biotapestry/plugin/simulation/genetool/vectorequation/StringifyVisitor.java:42-90 | NOT, GeneValue, TimePoint, GreaterThan, LessThan, InRegion and ImmediateCellContact texts start with "NOT ", "G:", "AT", ">", "<", "IN D:", "IN CC D:" |
| Stringify.StringifyVisitor.GetValue | src/org/systemsbiology/biotapestry/plugin/simulation/genetool/vectorequation/StringifyVisitor.java:10-12 | `getValue` gives the text the builder holds, unchanged |
| Stringify.StringifyVisitor.constructor | src/org/systemsbiology/biotapestry/plugin/simulation/genetool/vectorequation/StringifyVisitor.java:6-8 | a fresh visitor holds the empty string |
| Stringify.StringifyVisitor.Visit | src/org/systemsbiology/biotapestry/plugin/simulation/genetool/vectorequation/StringifyVisitor.java:14-104 | visiting any node appends exactly its rendering to what the builder already held (no reset, all ten kinds) |
| Stringify.StringifyVisitor.VisitJoined | src/org/systemsbiology/biotapestry/plugin/simulation/genetool/vectorequation/StringifyVisitor.java:14-40 | And, Or and Modifier append the renderings of left and right, each made by a fresh visitor, around " AND ", " OR " or " " |
| Stringify.StringifyVisitor.VisitLeaf | src/org/systemsbiology/biotapestry/plugin/simulation/genetool/vectorequation/StringifyVisitor.java:51-90 | GeneValue, GreaterThan, LessThan, InRegion and ImmediateCellContact append "G:g=1/0", ">t", "<t", "IN D:r", "IN CC D:d" |
| Stringify.RenderRule | src/org/systemsbiology/biotapestry/plugin/simulation/genetool/GeNeToolModelAdapter.java:835-837 | the rule text a fresh visitor holds after visiting an equation is its rendering |
| Stringify.RenderBoth | src/org/systemsbiology/biotapestry/plugin/simulation/genetool/vectorequation/StringifyVisitor.java:6-12 | one visitor used for two trees holds the concatenation of their renderings |
| Stringify.AtOffsetRoundTrip | src/org/systemsbiology/biotapestry/plugin/simulation/genetool/vectorequation/StringifyVisitor.java:58-70 | the offset text after "AT" always reads back as the time point, so no time is lost in the rule text |
| Stringify.AtOffsetSign | src/org/systemsbiology/biotapestry/plugin/simulation/genetool/vectorequation/StringifyVisitor.java:63-67 | the offset starts with "+" exactly for t > 0; t = 0 gives "-0"; a negative t gives only its own "-" |
| Stringify.GeneValueTimeNotRendered | src/org/systemsbiology/biotapestry/plugin/simulation/genetool/vectorequation/StringifyVisitor.java:51-56 | a gene value renders as "G:" + name + "=" + 1 or 0, the same for every time field |
| Stringify.RenderAndAssociative | src/org/systemsbiology/biotapestry/plugin/simulation/genetool/vectorequation/StringifyVisitor.java:14-26 | no parentheses: And(And(a,b),c) and And(a,And(b,c)) render identically |
| Stringify.RenderNotInjective | src/org/systemsbiology/biotapestry/plugin/simulation/genetool/vectorequation/StringifyVisitor.java:14-40 | two different equations can have the same rule text |
| Stringify.RenderGeneExample | src/org/systemsbiology/biotapestry/plugin/simulation/genetool/tests/StringifyTests.java:10-17 | GeneValue("Ets1", true, 0) renders "G:Ets1=1" |
| Stringify.RenderNotExample | src/org/systemsbiology/biotapestry/plugin/simulation/genetool/tests/StringifyTests.java:19-28 | Not of it renders "NOT G:Ets1=1" |
| Stringify.RenderTimePointExample | src/org/systemsbiology/biotapestry/plugin/simulation/genetool/tests/StringifyTests.java:30-40 | TimePoint(Not(...), -3) renders "AT-3 NOT G:Ets1=1" |
| Stringify.RenderAndOrExamples | src/org/systemsbiology/biotapestry/plugin/simulation/genetool/tests/StringifyTests.java:42-66 | And and Or of Ets1 and HesC render "G:Ets1=1 AND G:HesC=1" and "G:Ets1=1 OR G:HesC=1" |
| Stringify.RenderZeroTimePointExample | src/org/systemsbiology/biotapestry/plugin/simulation/genetool/tests/GeNeToolAdapterVisitorTests.java:42-57 | Or of two time-0 points renders "AT-0 G:geneA=1 OR AT-0 G:geneB=1" |
| GeNeToolLowering.GRNBoolModel.GetGene | src/org/systemsbiology/biotapestry/plugin/simulation/genetool/vectorequation/GeNeToolAdapterVisitor.java:107-108 | the gene lookup gives a handle exactly for a known name, and null (None) otherwise |
| GeNeToolLowering.Lower | src/org/systemsbiology/biotapestry/plugin/simulation/genetool/vectorequation/GeNeToolAdapterVisitor.java:64-145 | the logic a fresh visitor holds after a visit: LogicTwo over operator 1 or 2, LogicOne over operator 0 or 8, LogicGene of the looked-up handle; null exactly for the five kinds without a lowering |
| GeNeToolLowering.GeNeToolAdapterVisitor.GetLogic | src/org/systemsbiology/biotapestry/plugin/simulation/genetool/vectorequation/GeNeToolAdapterVisitor.java:60-62 | `getLogic` gives the logic the visitor holds, unchanged |
| GeNeToolLowering.GeNeToolAdapterVisitor.constructor | src/org/systemsbiology/biotapestry/plugin/simulation/genetool/vectorequation/GeNeToolAdapterVisitor.java:40-42 | a fresh visitor keeps the model and holds a null logic |
| GeNeToolLowering.GeNeToolAdapterVisitor.GetNotLogicOperator | src/org/systemsbiology/biotapestry/plugin/simulation/genetool/vectorequation/GeNeToolAdapterVisitor.java:44-46 | the NOT operator is entry 0 of the model's operator table |
| GeNeToolLowering.GeNeToolAdapterVisitor.GetAndLogicOperator | src/org/systemsbiology/biotapestry/plugin/simulation/genetool/vectorequation/GeNeToolAdapterVisitor.java:48-50 | the AND operator is entry 1 |
| GeNeToolLowering.GeNeToolAdapterVisitor.GetOrLogicOperator | src/org/systemsbiology/biotapestry/plugin/simulation/genetool/vectorequation/GeNeToolAdapterVisitor.java:52-54 | the OR operator is entry 2 |
| GeNeToolLowering.GeNeToolAdapterVisitor.GetAtLogicOperator | src/org/systemsbiology/biotapestry/plugin/simulation/genetool/vectorequation/GeNeToolAdapterVisitor.java:56-58 | the AT operator is entry 8 |
| GeNeToolLowering.GeNeToolAdapterVisitor.Visit | src/org/systemsbiology/biotapestry/plugin/simulation/genetool/vectorequation/GeNeToolAdapterVisitor.java:64-145 | And/Or/Not/GeneValue/TimePoint set the logic to the lowering (LogicTwo with op 1 or 2, LogicOne with op 0 or 8, LogicGene of the looked-up handle); the other five kinds leave it unchanged; the shared AT step ends as the time of the last time point visited, or keeps its value |
| GeNeToolLowering.LowerEquation | src/org/systemsbiology/biotapestry/plugin/simulation/genetool/GeNeToolModelAdapter.java:832-833 | a fresh visitor over an equation yields its lowering and leaves the AT step at the last visited time point |
| GeNeToolLowering.LowerNullFreeIffSupported | src/org/systemsbiology/biotapestry/plugin/simulation/genetool/vectorequation/GeNeToolAdapterVisitor.java:122-145 | a lowering contains no null logic exactly when the equation uses only the five supported kinds |
| GeNeToolLowering.LowerGeneHandles | src/org/systemsbiology/biotapestry/plugin/simulation/genetool/vectorequation/GeNeToolAdapterVisitor.java:107-110 | the gene handles of a lowering are exactly the lookups of the genes the visitor reaches (Modifier children are not reached) |
| GeNeToolLowering.UnknownGeneLowersToNullHandle | src/org/systemsbiology/biotapestry/plugin/simulation/genetool/vectorequation/GeNeToolAdapterVisitor.java:107-110 | an unknown gene name lowers to a LogicGene with a null handle, not an error |
| ModelGraphAnalysis.FindRootModelRootNodeIDs | src/org/systemsbiology/biotapestry/plugin/simulation/toolkit/ModelGraphAnalysis.java:85-100 | the roots are exactly the node IDs that are no link's target |
| ModelGraphAnalysis.RootIdsCharacterization | src/org/systemsbiology/biotapestry/plugin/simulation/toolkit/ModelGraphAnalysis.java:88-97 | a root is a node ID and every link points elsewhere |
| ModelGraphAnalysis.SelfLoopIsNotRoot | src/org/systemsbiology/biotapestry/plugin/simulation/toolkit/ModelGraphAnalysis.java:94-97 | a node with a self-loop is never a root |
| ModelGraphAnalysis.ForeignTargetsIgnored | src/org/systemsbiology/biotapestry/plugin/simulation/toolkit/ModelGraphAnalysis.java:88-97 | a link whose target is not a node leaves the roots unchanged |
| ModelGraphAnalysis.LinkMapLastWins | src/org/systemsbiology/biotapestry/plugin/simulation/toolkit/ModelGraphAnalysis.java:55-67 | the link map holds a pair exactly when some link has it, mapped to the last such link |
| ModelGraphAnalysis.LinkMapKeys | src/org/systemsbiology/biotapestry/plugin/simulation/toolkit/ModelGraphAnalysis.java:55-67 | the link map's keys are exactly the deduplicated link set |
| ModelGraphAnalysis.CollectLinks | src/org/systemsbiology/biotapestry/plugin/simulation/toolkit/ModelGraphAnalysis.java:58-67 | the loop builds the set of (source, target) pairs of the links |
| ModelGraphAnalysis.FindFeedbackEdges | src/org/systemsbiology/biotapestry/plugin/simulation/toolkit/ModelGraphAnalysis.java:45-79 | the result is the link-map image of the pairs the finder reports when run with the node set, the link set and the root set |
| ModelGraphAnalysis.MappedPairsAreModelLinks | src/org/systemsbiology/biotapestry/plugin/simulation/toolkit/ModelGraphAnalysis.java:74-76 | when every reported pair is a link of the model, every element of the result is a model link (never null) whose pair was reported |
| ModelGraphAnalysis.MapPairsSize | src/org/systemsbiology/biotapestry/plugin/simulation/toolkit/ModelGraphAnalysis.java:74-78 | the result has at most as many elements as the finder reported |
| EquationSynthesis.Factory.Make | src/org/systemsbiology/biotapestry/plugin/simulation/genetool/GeNeToolModelAdapter.java:623-633 | the AND factory makes And(l, r), the OR factory Or(l, r) |
| EquationSynthesis.CalcInboundEdges | src/org/systemsbiology/biotapestry/plugin/simulation/genetool/GeNeToolModelAdapter.java:600-617 | the keys are exactly the link targets, each set is non-empty and holds s exactly when (s, t) is a link |
| EquationSynthesis.GeneLeaf | src/org/systemsbiology/biotapestry/plugin/simulation/genetool/GeNeToolModelAdapter.java:432-442 | an intercell node's leaf is Modifier(GeneValue(name,true,0), ImmediateCellContact("R")), any other node's is GeneValue(name,true,0); neither holds a time point |
| EquationSynthesis.BuildVectorEquationGeneNodes | src/org/systemsbiology/biotapestry/plugin/simulation/genetool/GeNeToolModelAdapter.java:429-445 | every named node gets its leaf, and no other key is added |
| EquationSynthesis.DelayedLeaves | src/org/systemsbiology/biotapestry/plugin/simulation/genetool/GeNeToolModelAdapter.java:810-814 | one delayed leaf, TimePoint(leaf, -1), per source in iteration order |
| EquationSynthesis.SpineOfChain | src/org/systemsbiology/biotapestry/plugin/simulation/genetool/GeNeToolModelAdapter.java:799-815 | a chain over n operands has n - 1 factory nodes and reads back to its operands |
| EquationSynthesis.ChainOverShape | src/org/systemsbiology/biotapestry/plugin/simulation/genetool/GeNeToolModelAdapter.java:799-815 | a target with n sources gets n - 1 factory nodes and exactly the delayed leaves of its sources, each source's leaf present |
| EquationSynthesis.BuildChain | src/org/systemsbiology/biotapestry/plugin/simulation/genetool/GeNeToolModelAdapter.java:808-815 | the while loop builds the left-nested chain over the delayed leaves of all sources, in some iteration order |
| EquationSynthesis.ChainLoop | src/org/systemsbiology/biotapestry/plugin/simulation/genetool/GeNeToolModelAdapter.java:808-815 | the loop over the sources in the iterator's order builds the left-nested chain of their delayed leaves |
| EquationSynthesis.ChainInOrderShape | src/org/systemsbiology/biotapestry/plugin/simulation/genetool/GeNeToolModelAdapter.java:799-815 | for one iteration order, the chain's operands are exactly the delayed leaves in that order, with n - 1 factory nodes |
| EquationSynthesis.TreesFor | src/org/systemsbiology/biotapestry/plugin/simulation/genetool/GeNeToolModelAdapter.java:747-757 | a target gets a tree exactly when the pairs give it a source, and the tree is the chain over those sources |
| EquationSynthesis.BuildVectorEquationForNode | src/org/systemsbiology/biotapestry/plugin/simulation/genetool/GeNeToolModelAdapter.java:802-821 | exactly the targets get an equation, each the chain over its sources |
| EquationSynthesis.JoinVectorEquationTrees | src/org/systemsbiology/biotapestry/plugin/simulation/genetool/GeNeToolModelAdapter.java:780-793 | (null,null) gives null, (x,null) x, (null,y) y, (x,y) the factory's node of x and y |
| EquationSynthesis.RemoveFeedbackPairs | src/org/systemsbiology/biotapestry/plugin/simulation/genetool/GeNeToolModelAdapter.java:743-746 | the AND pairs are all pairs minus the feedback links' pairs |
| EquationSynthesis.CollectFeedbackPairs | src/org/systemsbiology/biotapestry/plugin/simulation/genetool/GeNeToolModelAdapter.java:752-755 | the OR pairs are exactly the feedback links' pairs |
| EquationSynthesis.JoinPerNode | src/org/systemsbiology/biotapestry/plugin/simulation/genetool/GeNeToolModelAdapter.java:761-770 | a node gets an entry exactly when it has an AND or an OR tree, the OR join of the two |
| EquationSynthesis.BuildVectorEquationsForGenes | src/org/systemsbiology/biotapestry/plugin/simulation/genetool/GeNeToolModelAdapter.java:725-770 | a node gets an equation exactly when it has an AND or an OR source; with both it is Or(AND chain, OR chain), otherwise the one chain |
| EquationSynthesis.InboundMapSources | src/org/systemsbiology/biotapestry/plugin/simulation/genetool/GeNeToolModelAdapter.java:600-617 | the inbound map has a target exactly when some pair reaches it, with the set of those pairs' sources |
| EquationSynthesis.GeneEquationsExactlyForNonRoots | src/org/systemsbiology/biotapestry/plugin/simulation/genetool/GeNeToolModelAdapter.java:725-770 | when the feedback links are links of the model, exactly the nodes that are link targets, i.e. the non-roots, get a gene equation |
| EquationSynthesis.ChainStep | src/org/systemsbiology/biotapestry/plugin/simulation/genetool/GeNeToolModelAdapter.java:808-815 | lowering a chain of delayed leaves leaves the AT step at -1 |
| EquationSynthesis.GeneEquationStep | src/org/systemsbiology/biotapestry/plugin/simulation/genetool/GeNeToolModelAdapter.java:830-833 | after lowering any gene equation the shared AT operator's step is the gene delay, -1 |
| EquationSynthesis.TwoForwardPredecessors | src/org/systemsbiology/biotapestry/plugin/simulation/genetool/GeNeToolModelAdapter.java:742-770 | two non-feedback predecessors x and y give And(AT-1 x, AT-1 y) or And(AT-1 y, AT-1 x) |
| EquationSynthesis.AddVectorEquationToGene | src/org/systemsbiology/biotapestry/plugin/simulation/genetool/GeNeToolModelAdapter.java:830-842 | the rule attached to the gene is the rendering of the equation, after the lowering has set the AT step |
| TimeSlices.ScanFromFirst | src/org/systemsbiology/biotapestry/plugin/simulation/genetool/GeNeToolModelAdapter.java:564-587 | a scan stops at the first time point with the wanted match status and passes only the others |
| TimeSlices.FindFirstTimeSliceInRegion | src/org/systemsbiology/biotapestry/plugin/simulation/genetool/GeNeToolModelAdapter.java:560-594 | the two loops over one iterator give the reference slice: exception, null or the slice |
| TimeSlices.ScanToFirstMatch | src/org/systemsbiology/biotapestry/plugin/simulation/genetool/GeNeToolModelAdapter.java:564-573 | the first loop stops just after the earliest matching time point, or exhausts the list |
| TimeSlices.ScanToFirstMismatch | src/org/systemsbiology/biotapestry/plugin/simulation/genetool/GeNeToolModelAdapter.java:575-583 | the second loop finds the first later time point that does not match, if any |
| TimeSlices.FirstTimeSliceCharacterization | src/org/systemsbiology/biotapestry/plugin/simulation/genetool/GeNeToolModelAdapter.java:560-594 | an exception exactly for an empty list; null exactly when nothing matches; else the start is the earliest match and the end the first later non-match, or the last time point when all later ones match |
| TimeSlices.SliceEndIsFirstNonMatch | src/org/systemsbiology/biotapestry/plugin/simulation/genetool/GeNeToolModelAdapter.java:575-587 | a run at 2..4 followed by 5 gives the slice [2, 5], so the input window is ">2" and "<6" |
| TimeSlices.InputEquation | src/org/systemsbiology/biotapestry/plugin/simulation/genetool/GeNeToolModelAdapter.java:695-702 | And(InRegion(r), And(GreaterThan(start), LessThan(end + 1))), with Java's wrap of end + 1 |
| TimeSlices.InputEquationText | src/org/systemsbiology/biotapestry/plugin/simulation/genetool/GeNeToolModelAdapter.java:697-702 | the input rule reads "IN D:r AND >start AND <end+1" |
| TimeSlices.InternalName | src/org/systemsbiology/biotapestry/plugin/simulation/genetool/GeNeToolModelAdapter.java:635-643 | the gene-name map's value when it has the name; otherwise the non-gene map's value when that has it; null exactly when neither knows the name |
| TimeSlices.RootExprGenesKeys | src/org/systemsbiology/biotapestry/plugin/simulation/genetool/GeNeToolModelAdapter.java:671-680 | expression genes are recorded only for root nodes |
| TimeSlices.LastGeneFor | src/org/systemsbiology/biotapestry/plugin/simulation/genetool/GeNeToolModelAdapter.java:671-680 | the index of the last expression gene, in sorted order, whose looked-up node ID is the given node, or -1 |
| TimeSlices.RootExprGenesLastWins | src/org/systemsbiology/biotapestry/plugin/simulation/genetool/GeNeToolModelAdapter.java:671-680 | a node is recorded exactly when it is a root and some expression gene maps to it, and it is recorded with the last such gene |
| TimeSlices.LastSliceRegion | src/org/systemsbiology/biotapestry/plugin/simulation/genetool/GeNeToolModelAdapter.java:683-693 | the last region in list order whose scan finds a slice, or none |
| TimeSlices.RegionSliceKept | src/org/systemsbiology/biotapestry/plugin/simulation/genetool/GeNeToolModelAdapter.java:683-693 | a root keeps a slice exactly when some region has one |
| TimeSlices.RegionSliceSnoc | src/org/systemsbiology/biotapestry/plugin/simulation/genetool/GeNeToolModelAdapter.java:689-691 | a later region with a slice replaces the kept one; one without keeps it |
| TimeSlices.BuildVectorEquationsForInputs | src/org/systemsbiology/biotapestry/plugin/simulation/genetool/GeNeToolModelAdapter.java:655-702 | the result is the reference: the exception when a scan runs over no time points, else one window equation per root that has a slice |
| TimeSlices.RemoveLinkTargets | src/org/systemsbiology/biotapestry/plugin/simulation/genetool/GeNeToolModelAdapter.java:663-667 | the roots are the node IDs minus every link target |
| TimeSlices.SlicesForRoots | src/org/systemsbiology/biotapestry/plugin/simulation/genetool/GeNeToolModelAdapter.java:682-693 | per root, the slice of the last region in list order that has one; the exception exactly when the time-point list is empty and there is at least one region and one root to scan |
| TimeSlices.CollectRootExprGenes | src/org/systemsbiology/biotapestry/plugin/simulation/genetool/GeNeToolModelAdapter.java:671-680 | the loop over the sorted expression genes records, for each root, the last gene that maps to it |
| TimeSlices.SlicesInRegion | src/org/systemsbiology/biotapestry/plugin/simulation/genetool/GeNeToolModelAdapter.java:685-692 | one region's pass updates exactly the roots whose scan finds a slice |
| TimeSlices.InputEquationsForRoots | src/org/systemsbiology/biotapestry/plugin/simulation/genetool/GeNeToolModelAdapter.java:682-702 | a node gets an input equation exactly when it is a root and some region has a slice for it, and the equation is about the last such region |
| GeneExpression.MapExpressionLevel | src/org/systemsbiology/biotapestry/plugin/simulation/genetool/GeNeToolModelAdapter.java:453-470 | code 4 exactly for a maternal observation; invalid (5) exactly for a non-maternal variable level; always 0..5 |
| GeneExpression.MapExpressionLevelInverse | src/org/systemsbiology/biotapestry/plugin/simulation/genetool/GeNeToolModelAdapter.java:453-470 | codes 0..3 read back to the level they came from exactly for non-maternal, non-variable observations |
| GeneExpression.MapExpressionLevelInjective | src/org/systemsbiology/biotapestry/plugin/simulation/genetool/GeNeToolModelAdapter.java:458-466 | for non-maternal, valid observations the code determines the level |
| GeneExpression.FillGeneExpression | src/org/systemsbiology/biotapestry/plugin/simulation/genetool/GeNeToolModelAdapter.java:495-512 | every cell (region k, time t) gets the code of its observation unless that code is invalid; every other cell keeps its value |
| GeneExpression.FillRegionRow | src/org/systemsbiology/biotapestry/plugin/simulation/genetool/GeNeToolModelAdapter.java:499-511 | the time-point loop writes only the region's own row, with the same filter |
| RegionsDomains.MaxOfIsMaximum | src/org/systemsbiology/biotapestry/plugin/simulation/genetool/GeNeToolModelAdapter.java:142-148 | the running maximum bounds the start value and every element and is one of them |
| RegionsDomains.BuildRegions | src/org/systemsbiology/biotapestry/plugin/simulation/genetool/GeNeToolModelAdapter.java:137-162 | the maximum time point becomes the running maximum of the region ends; the k-th region is numbered k with its own name and times |
| RegionsDomains.MaxExpressionTimePoint | src/org/systemsbiology/biotapestry/plugin/simulation/genetool/GeNeToolModelAdapter.java:879-888 | the largest expression time point, starting from -1 |
| RegionsDomains.LastNamed | src/org/systemsbiology/biotapestry/plugin/simulation/genetool/GeNeToolModelAdapter.java:193 | the index of the last region of a name |
| RegionsDomains.LineageMapLastWins | src/org/systemsbiology/biotapestry/plugin/simulation/genetool/GeNeToolModelAdapter.java:181-194 | the lineage map holds every region name, with the lineage of the last region of that name |
| RegionsDomains.BuildDomains | src/org/systemsbiology/biotapestry/plugin/simulation/genetool/GeNeToolModelAdapter.java:176-212 | the domain list follows the regions, keeping those that are no lineage's ancestor; the domain map holds them by name |
| RegionsDomains.MarkAncestors | src/org/systemsbiology/biotapestry/plugin/simulation/genetool/GeNeToolModelAdapter.java:181-191 | the marked regions are exactly those listed before the end of some lineage |
| RegionsDomains.DomainIffNoDescendants | src/org/systemsbiology/biotapestry/plugin/simulation/genetool/GeNeToolModelAdapter.java:176-212 | a name is a domain exactly when some region has it and no lineage lists it before its last element; its trees are that region's lineage |
| RegionsDomains.BuildLinkBetweenDomains | src/org/systemsbiology/biotapestry/plugin/simulation/genetool/GeNeToolModelAdapter.java:222-243 | the link, with its time bounds and target, is appended to the source domain's list, created when missing |
| RegionsDomains.BuildDomainTopology | src/org/systemsbiology/biotapestry/plugin/simulation/genetool/GeNeToolModelAdapter.java:249-283 | the map files every topology link between two domains in both directions, in iteration order |
| RegionsDomains.FileWindowLinks | src/org/systemsbiology/biotapestry/plugin/simulation/genetool/GeNeToolModelAdapter.java:257-282 | the links of one window are filed after the earlier ones |
| RegionsDomains.GroupedByInOrder | src/org/systemsbiology/biotapestry/plugin/simulation/genetool/GeNeToolModelAdapter.java:233-241 | the map has a domain exactly when some filed link starts there, with those links in order |
| RegionsDomains.TopologySymmetric | src/org/systemsbiology/biotapestry/plugin/simulation/genetool/GeNeToolModelAdapter.java:273-281 | a link from A to B over a window is filed as often as the link from B to A |
| RegionsDomains.LinkEdgesSymmetric | src/org/systemsbiology/biotapestry/plugin/simulation/genetool/GeNeToolModelAdapter.java:273-281 | the same symmetry for the links of one window |
| RegionsDomains.TopologyEdgesJoinDomains | src/org/systemsbiology/biotapestry/plugin/simulation/genetool/GeNeToolModelAdapter.java:264-271 | every filed link joins two domains; other links are skipped |
| SimulationTranslator.TransformLevel | src/org/systemsbiology/biotapestry/plugin/simulation/genetool/GeNeToolSimulationTranslator.java:49-56 | "yes" exactly for an expressed level; "no" otherwise |
| SimulationTranslator.BooleanToLevel | src/org/systemsbiology/biotapestry/plugin/simulation/genetool/GeNeToolSimulationTranslator.java:106-113 | true gives expressed, false not expressed |
| SimulationTranslator.TransformBooleanRoundTrip | src/org/systemsbiology/biotapestry/plugin/simulation/genetool/GeNeToolSimulationTranslator.java:49-56 | a simulated value reads "yes" exactly when it is true and "no" exactly when it is false |
| SimulationTranslator.EntryOf | src/org/systemsbiology/biotapestry/plugin/simulation/genetool/GeNeToolSimulationTranslator.java:122-125 | an entry carries its row's region, time and level, and no source |
| SimulationTranslator.GeNeToolSimulationTranslator.constructor | src/org/systemsbiology/biotapestry/plugin/simulation/genetool/GeNeToolSimulationTranslator.java:44-46 | the translator holds the table it is given |
| SimulationTranslator.GeNeToolSimulationTranslator.GetModelExpressionEntryList | src/org/systemsbiology/biotapestry/plugin/simulation/genetool/GeNeToolSimulationTranslator.java:115-131 | the same gene keys; per gene as many entries as rows, entry i made from row i |
| RegionsDomains.LinkEdgesJoinDomains | src/org/systemsbiology/biotapestry/plugin/simulation/genetool/GeNeToolModelAdapter.java:264-281 | every link filed for one window joins two domains, in both directions |

## Left out

- The plug-in's user interface, threads and the launching of GeNeTool: these are I/O outside the model.
- GeNeToolSimulationTranslator.asXMLString: it writes XML through the JDK's DOM and transformer, which are foreign code.
- Mutation of the GeNeTool model itself (the `Gene`, `Region` and `Domain` constructors, `addRegion`, `addDomain`, `addTree`, `gene.addLogic`, `computeData`, `deleteModel`): GeNeTool's classes are not part of this model. The model returns the values the adapter hands to them (regions, domains, topology map, rule text, grid codes).
- The packing of each domain link into an `Objet[]` pair, and the copy of the `LOGIC_OP_CC` operator with `hmin`/`hmax`: both are GeNeTool types. `DomainLink` keeps the same three facts (bounds and target domain).
- The copy of the topology map into each domain's `DefObjets` (GeNeToolModelAdapter.java:289-298) mutates GeNeTool objects, which are not part of this model. `DataUtil.normKey` (GeNeToolModelAdapter.java:327) is a foreign call; its results come in through the name maps. Ubiquity detection is disabled in the source (GeNeToolModelAdapter.java:68, 422).
- getSimulatedExpressionTable: it reads GeNeTool's simulation result arrays, which are not part of this model. The translator starts from its result table.
- The feedback-edge search (`GraphFeedbackFinder`, a depth-first search): it is a function parameter (`ModelGraphAnalysis.FeedbackFinder`). Only how its result is mapped back to model links is modelled.
- GeneExpression.FillGeneExpression: it models the write loops for one gene found in the GeNeTool model. The per-gene loop, the skip of genes GeNeTool does not know and the `nodeIDToExpressionGeneMap_` update are not modelled. A region's number is its list index. The grid bounds are a precondition, because the Java array would throw otherwise.
- The `Double` variable value and the `myLev` level computed in `buildGeneExpression`: both are unused there.
- EquationSynthesis.BuildVectorEquationsForGenes: it requires every link and feedback source to have a gene leaf, because otherwise the Java code builds a time point over `null`. The final loop that attaches each equation (`addVectorEquationToGene`) is `EquationSynthesis.AddVectorEquationToGene`, applied per entry; the loop itself is not modelled.
- TimeSlices.BuildVectorEquationsForInputs: it returns the input equations instead of attaching them, so the attaching loop is left out as above. The unused `gntGeneNodes` and `expressionRootNodes` locals are left out.
- The sorting of expression gene names by `TreeSet`: the names come in as a sorted sequence.
- RegionsDomains.BuildRegions: it does not model overflow of the region counter, which would need more than 2^31 regions.
- The debug printing to standard output.
- Fields of the adapter (`nodeIDsToNames_`, `gntGeneNodes_`, `domainMap_` and others) are parameters and results of the modelled operations, not object state. The adapter's build order is kept by the way the results feed each other.
