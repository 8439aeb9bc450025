/**
 * The first continuous time slice of one expression state in a region, and the "always on"
 * equations the adapter builds for the root nodes of the network from those slices.
 */
module TimeSlices {
  import opened JavaTypes
  import opened ExpressionData
  import opened VectorEquation
  import opened ModelGraphAnalysis
  import Stringify
  import Decimal

  /** RegionLevelTimeSlice: a run of time points over which the gene keeps one (source, level). */
  datatype TimeSlice = TimeSlice(region: string, gene: Option<string>, start: int32, end: int32, source: Source, level: Level)

  /**
   * What `findFirstTimeSliceInRegion` gives: a slice, null (no time point matches), or the
   * IndexOutOfBoundsException that `get(size - 1)` throws on an empty time point list.
   */
  datatype SliceResult = NoSlice | Found(slice: TimeSlice) | IndexOutOfBounds

  /** The observation of `gene` in `region` at `t` has the given source and level. */
  predicate Matches(lookup: ExpressionLookup, gene: Option<string>, region: string, t: int32, source: Source, level: Level) {
    var entry := lookup(gene, region, t);
    entry.source == source && entry.level == level
  }

  /** The first index from `from` on whose match status is `want`, or |tps| when there is none. */
  function ScanFrom(tps: seq<int32>, from: nat, lookup: ExpressionLookup, gene: Option<string>, region: string,
                    source: Source, level: Level, want: bool): (k: nat)
    requires from <= |tps|
    ensures from <= k <= |tps|
    decreases |tps| - from
  {
    if from == |tps| then |tps|
    else if Matches(lookup, gene, region, tps[from], source, level) == want then from
    else ScanFrom(tps, from + 1, lookup, gene, region, source, level, want)
  }

  /** ScanFrom stops at the first index with the wanted status and skips only the others. */
  lemma {:induction false} ScanFromFirst(tps: seq<int32>, from: nat, lookup: ExpressionLookup, gene: Option<string>,
                                         region: string, source: Source, level: Level, want: bool)
    requires from <= |tps|
    ensures var k := ScanFrom(tps, from, lookup, gene, region, source, level, want);
      && (forall j :: from <= j < k ==> Matches(lookup, gene, region, tps[j], source, level) != want)
      && (k < |tps| ==> Matches(lookup, gene, region, tps[k], source, level) == want)
    decreases |tps| - from
  {
    if from < |tps| && Matches(lookup, gene, region, tps[from], source, level) != want {
      ScanFromFirst(tps, from + 1, lookup, gene, region, source, level, want);
    }
  }

  /** Reference definition of `findFirstTimeSliceInRegion` on the ordered time point list `tps`. */
  function FirstTimeSlice(tps: seq<int32>, lookup: ExpressionLookup, gene: Option<string>, region: string,
                          source: Source, level: Level): SliceResult
  {
    var i := ScanFrom(tps, 0, lookup, gene, region, source, level, true);
    var j := if i < |tps| then ScanFrom(tps, i + 1, lookup, gene, region, source, level, false) else |tps|;
    if |tps| == 0 then IndexOutOfBounds
    else if i == |tps| then NoSlice
    else Found(TimeSlice(region, gene, tps[i], if j < |tps| then tps[j] else tps[|tps| - 1], source, level))
  }

  /**
   * `findFirstTimeSliceInRegion`: two loops share one iterator; the first finds the first
   * matching time point, the second the first later one that does not match.
   */
  method FindFirstTimeSliceInRegion(tps: seq<int32>, lookup: ExpressionLookup, gene: Option<string>, region: string,
                                    source: Source, level: Level)
    returns (r: SliceResult)
    ensures r == FirstTimeSlice(tps, lookup, gene, region, source, level)
  {
    var k, first := ScanToFirstMatch(tps, lookup, gene, region, source, level);
    var last := ScanToFirstMismatch(tps, k, lookup, gene, region, source, level);
    if last.None? {
      if |tps| == 0 {
        return IndexOutOfBounds;
      }
      last := Some(tps[|tps| - 1]);
    }
    if first.None? {
      return NoSlice;
    }
    r := Found(TimeSlice(region, gene, first.value, last.value, source, level));
  }

  /** The first loop of the scan: stops just after the first matching time point, if any. */
  method ScanToFirstMatch(tps: seq<int32>, lookup: ExpressionLookup, gene: Option<string>, region: string,
                          source: Source, level: Level)
    returns (k: nat, first: Option<int32>)
    ensures var i := ScanFrom(tps, 0, lookup, gene, region, source, level, true);
      && (first.None? ==> k == i == |tps|)
      && (first.Some? ==> i < |tps| && k == i + 1 && first.value == tps[i])
  {
    ghost var i0 := ScanFrom(tps, 0, lookup, gene, region, source, level, true);
    k := 0;
    first := None;
    while k < |tps| && first.None?
      invariant 0 <= k <= |tps|
      invariant first.None? ==> ScanFrom(tps, k, lookup, gene, region, source, level, true) == i0
      invariant first.Some? ==> 0 < k && k - 1 == i0 && first.value == tps[i0]
    {
      if Matches(lookup, gene, region, tps[k], source, level) {
        first := Some(tps[k]);
      }
      k := k + 1;
    }
  }

  /** The second loop of the scan: continues from `k` to the first time point that does not match. */
  method ScanToFirstMismatch(tps: seq<int32>, k0: nat, lookup: ExpressionLookup, gene: Option<string>, region: string,
                             source: Source, level: Level)
    returns (last: Option<int32>)
    requires k0 <= |tps|
    ensures var j := ScanFrom(tps, k0, lookup, gene, region, source, level, false);
      && (last.None? ==> j == |tps|)
      && (last.Some? ==> j < |tps| && last.value == tps[j])
  {
    ghost var j0 := ScanFrom(tps, k0, lookup, gene, region, source, level, false);
    var k := k0;
    last := None;
    while k < |tps| && last.None?
      invariant k0 <= k <= |tps|
      invariant last.None? ==> ScanFrom(tps, k, lookup, gene, region, source, level, false) == j0
      invariant last.Some? ==> j0 < |tps| && last.value == tps[j0]
    {
      if !Matches(lookup, gene, region, tps[k], source, level) {
        last := Some(tps[k]);
      }
      k := k + 1;
    }
  }

  /**
   * What the scan promises: an exception exactly for an empty list; no slice exactly when no
   * time point matches; otherwise the start is the earliest match, and the end is the first
   * later time point that does not match, or the last time point when every later one matches.
   */
  lemma FirstTimeSliceCharacterization(tps: seq<int32>, lookup: ExpressionLookup, gene: Option<string>, region: string,
                                       source: Source, level: Level)
    ensures FirstTimeSlice(tps, lookup, gene, region, source, level).IndexOutOfBounds? <==> tps == []
    ensures FirstTimeSlice(tps, lookup, gene, region, source, level).NoSlice? <==>
      tps != [] && forall j :: 0 <= j < |tps| ==> !Matches(lookup, gene, region, tps[j], source, level)
    ensures var r := FirstTimeSlice(tps, lookup, gene, region, source, level);
      r.Found? ==> exists i :: 0 <= i < |tps| && StartsAt(tps, lookup, gene, region, source, level, i, r.slice)
  {
    var i := ScanFrom(tps, 0, lookup, gene, region, source, level, true);
    ScanFromFirst(tps, 0, lookup, gene, region, source, level, true);
    if 0 < |tps| && i < |tps| {
      ScanFromFirst(tps, i + 1, lookup, gene, region, source, level, false);
      var r := FirstTimeSlice(tps, lookup, gene, region, source, level);
      assert StartsAt(tps, lookup, gene, region, source, level, i, r.slice);
    }
  }

  /** `s` is the slice that starts at index `i` of `tps`, as the characterization states it. */
  ghost predicate StartsAt(tps: seq<int32>, lookup: ExpressionLookup, gene: Option<string>, region: string,
                           source: Source, level: Level, i: nat, s: TimeSlice)
    requires i < |tps|
  {
    && s == TimeSlice(region, gene, s.start, s.end, source, level)
    && s.start == tps[i]
    && Matches(lookup, gene, region, tps[i], source, level)
    && (forall j :: 0 <= j < i ==> !Matches(lookup, gene, region, tps[j], source, level))
    && ((exists k :: i < k < |tps| && s.end == tps[k] && !Matches(lookup, gene, region, tps[k], source, level)
           && forall m :: i < m < k ==> Matches(lookup, gene, region, tps[m], source, level))
        || ((forall m :: i < m < |tps| ==> Matches(lookup, gene, region, tps[m], source, level))
            && s.end == tps[|tps| - 1]))
  }

  /** The lookup of the end-asymmetry example: the gene is expressed at times 2 to 4 only. */
  function ExpressedTwoToFour(gene: Option<string>, region: string, t: int32): ModelExpressionEntry {
    ModelExpressionEntry(region, t, if 2 <= t <= 4 then Expressed else NotExpressed, NoSourceSpecified)
  }

  /**
   * The slice end is the first time point that no longer matches, not the last one that does:
   * a run at 2..4 followed by 5 ends at 5, and the input equation then admits times below 6.
   */
  lemma SliceEndIsFirstNonMatch()
    ensures FirstTimeSlice([1, 2, 3, 4, 5], ExpressedTwoToFour, None, "A", NoSourceSpecified, Expressed)
         == Found(TimeSlice("A", None, 2, 5, NoSourceSpecified, Expressed))
    ensures InputEquation(TimeSlice("A", None, 2, 5, NoSourceSpecified, Expressed))
         == And(InRegion("A"), And(GreaterThanTime(2), LessThanTime(6)))
  {
    var tps: seq<int32> := [1, 2, 3, 4, 5];
    assert !Matches(ExpressedTwoToFour, None, "A", tps[0], NoSourceSpecified, Expressed);
    assert Matches(ExpressedTwoToFour, None, "A", tps[1], NoSourceSpecified, Expressed);
    assert ScanFrom(tps, 1, ExpressedTwoToFour, None, "A", NoSourceSpecified, Expressed, true) == 1;
    assert ScanFrom(tps, 0, ExpressedTwoToFour, None, "A", NoSourceSpecified, Expressed, true) == 1;
    assert ScanFrom(tps, 4, ExpressedTwoToFour, None, "A", NoSourceSpecified, Expressed, false) == 4;
    assert ScanFrom(tps, 3, ExpressedTwoToFour, None, "A", NoSourceSpecified, Expressed, false) == 4;
    assert ScanFrom(tps, 2, ExpressedTwoToFour, None, "A", NoSourceSpecified, Expressed, false) == 4;
  }

  /** The always-on equation of a root: in the slice's region, after its start, before its end plus one. */
  function InputEquation(s: TimeSlice): (e: Expr)
    ensures e.And? && e.left == InRegion(s.region) && e.right.And?
    ensures e.right.left == GreaterThanTime(s.start)
    ensures s.end < INT32_MAX ==> e.right.right == LessThanTime(s.end + 1)
    ensures s.end == INT32_MAX ==> e.right.right == LessThanTime(INT32_MIN)
  {
    And(InRegion(s.region), And(GreaterThanTime(s.start), LessThanTime(AddOne(s.end))))
  }

  /** Rendered, an input equation reads "IN D:region AND >start AND <end+1". */
  lemma InputEquationText(s: TimeSlice)
    ensures Stringify.Render(InputEquation(s))
         == "IN D:" + s.region + " AND " + ">" + Decimal.IntToString(s.start)
            + " AND " + "<" + Decimal.IntToString(AddOne(s.end))
  {
    var e := InputEquation(s);
    assert Stringify.Render(e.right) == ">" + Decimal.IntToString(s.start) + " AND " + "<" + Decimal.IntToString(AddOne(s.end));
  }

  /** GeNeTool's name of an expression gene: the gene map first, then the non-gene map (null if neither). */
  function InternalName(exprGene: string, geneNames: map<string, string>, nonGeneNames: map<string, string>): (u: Option<string>)
    ensures u.None? <==> exprGene !in geneNames && exprGene !in nonGeneNames
    ensures exprGene in geneNames ==> u == Some(geneNames[exprGene])
    ensures exprGene !in geneNames && exprGene in nonGeneNames ==> u == Some(nonGeneNames[exprGene])
  {
    if exprGene in geneNames then Some(geneNames[exprGene])
    else if exprGene in nonGeneNames then Some(nonGeneNames[exprGene])
    else None
  }

  /** The node ID an expression gene maps to, or None where a lookup gives null. */
  function ExprGeneNodeId(exprGene: string, geneNames: map<string, string>, nonGeneNames: map<string, string>,
                          namesToNodeId: map<string, string>): Option<string>
  {
    var u := InternalName(exprGene, geneNames, nonGeneNames);
    if u.Some? && u.value in namesToNodeId then Some(namesToNodeId[u.value]) else None
  }

  /**
   * `rootNodeIDtoExprGeneNames` after the loop over the sorted expression genes: each gene
   * whose node is a root is recorded for that node, a later gene replacing an earlier one.
   */
  function RootExprGenes(exprGenes: seq<string>, geneNames: map<string, string>, nonGeneNames: map<string, string>,
                         namesToNodeId: map<string, string>, roots: set<string>): map<string, string>
    decreases |exprGenes|
  {
    if exprGenes == [] then map[]
    else
      var prior := RootExprGenes(exprGenes[..|exprGenes| - 1], geneNames, nonGeneNames, namesToNodeId, roots);
      var g := exprGenes[|exprGenes| - 1];
      var id := ExprGeneNodeId(g, geneNames, nonGeneNames, namesToNodeId);
      if id.Some? && id.value in roots then prior[id.value := g] else prior
  }

  /** The recorded expression genes belong to root nodes. */
  lemma {:induction false} RootExprGenesKeys(exprGenes: seq<string>, geneNames: map<string, string>,
                                             nonGeneNames: map<string, string>, namesToNodeId: map<string, string>,
                                             roots: set<string>)
    ensures RootExprGenes(exprGenes, geneNames, nonGeneNames, namesToNodeId, roots).Keys <= roots
    decreases |exprGenes|
  {
    if exprGenes != [] {
      RootExprGenesKeys(exprGenes[..|exprGenes| - 1], geneNames, nonGeneNames, namesToNodeId, roots);
    }
  }

  /** The index of the last expression gene that maps to node `n`, or -1 when none does. */
  function LastGeneFor(exprGenes: seq<string>, geneNames: map<string, string>, nonGeneNames: map<string, string>,
                       namesToNodeId: map<string, string>, n: string): (k: int)
    ensures -1 <= k < |exprGenes|
    ensures k >= 0 ==> ExprGeneNodeId(exprGenes[k], geneNames, nonGeneNames, namesToNodeId) == Some(n)
    ensures forall k' :: k < k' < |exprGenes| ==> ExprGeneNodeId(exprGenes[k'], geneNames, nonGeneNames, namesToNodeId) != Some(n)
    decreases |exprGenes|
  {
    if exprGenes == [] then -1
    else if ExprGeneNodeId(exprGenes[|exprGenes| - 1], geneNames, nonGeneNames, namesToNodeId) == Some(n) then |exprGenes| - 1
    else LastGeneFor(exprGenes[..|exprGenes| - 1], geneNames, nonGeneNames, namesToNodeId, n)
  }

  /**
   * A root is recorded exactly when some expression gene maps to it, and it is recorded with
   * the last such gene in the sorted order: a later `put` replaces an earlier one.
   */
  lemma {:induction false} RootExprGenesLastWins(exprGenes: seq<string>, geneNames: map<string, string>,
                                                 nonGeneNames: map<string, string>, namesToNodeId: map<string, string>,
                                                 roots: set<string>, n: string)
    ensures var m := RootExprGenes(exprGenes, geneNames, nonGeneNames, namesToNodeId, roots);
      n in m <==> n in roots && LastGeneFor(exprGenes, geneNames, nonGeneNames, namesToNodeId, n) >= 0
    ensures var m := RootExprGenes(exprGenes, geneNames, nonGeneNames, namesToNodeId, roots);
      n in m ==> m[n] == exprGenes[LastGeneFor(exprGenes, geneNames, nonGeneNames, namesToNodeId, n)]
    decreases |exprGenes|
  {
    if exprGenes != [] {
      RootExprGenesLastWins(exprGenes[..|exprGenes| - 1], geneNames, nonGeneNames, namesToNodeId, roots, n);
    }
  }

  /** The expression gene recorded for `node`, or None (`get` returning null). */
  function GeneFor(m: map<string, string>, node: string): Option<string> {
    if node in m then Some(m[node]) else None
  }

  /** Scanning `region` for the expressed, unspecified-source state of `gene` finds a slice. */
  predicate HasSlice(tps: seq<int32>, lookup: ExpressionLookup, gene: Option<string>, region: string) {
    FirstTimeSlice(tps, lookup, gene, region, NoSourceSpecified, Expressed).Found?
  }

  /** The index of the last region with a slice, or -1 when none has one. */
  function LastSliceRegion(regions: seq<string>, tps: seq<int32>, lookup: ExpressionLookup, gene: Option<string>): (k: int)
    ensures -1 <= k < |regions|
    ensures k >= 0 ==> HasSlice(tps, lookup, gene, regions[k])
    ensures forall k' :: k < k' < |regions| ==> !HasSlice(tps, lookup, gene, regions[k'])
    decreases |regions|
  {
    if regions == [] then -1
    else if HasSlice(tps, lookup, gene, regions[|regions| - 1]) then |regions| - 1
    else LastSliceRegion(regions[..|regions| - 1], tps, lookup, gene)
  }

  /** The slice kept for a root after the regions in `regions`: the one of the last region that has one. */
  function RegionSlice(regions: seq<string>, tps: seq<int32>, lookup: ExpressionLookup, gene: Option<string>): Option<TimeSlice>
  {
    var k := LastSliceRegion(regions, tps, lookup, gene);
    if k < 0 then None
    else Some(FirstTimeSlice(tps, lookup, gene, regions[k], NoSourceSpecified, Expressed).slice)
  }

  /** A slice is kept exactly when some region has one. */
  lemma RegionSliceKept(regions: seq<string>, tps: seq<int32>, lookup: ExpressionLookup, gene: Option<string>)
    ensures RegionSlice(regions, tps, lookup, gene).Some? <==>
      exists k :: 0 <= k < |regions| && HasSlice(tps, lookup, gene, regions[k])
  {
  }

  /** Appending a region with a slice makes its slice the kept one; appending one without keeps the old. */
  lemma RegionSliceSnoc(regions: seq<string>, r: string, tps: seq<int32>, lookup: ExpressionLookup, gene: Option<string>)
    ensures HasSlice(tps, lookup, gene, r) ==>
      RegionSlice(regions + [r], tps, lookup, gene) == Some(FirstTimeSlice(tps, lookup, gene, r, NoSourceSpecified, Expressed).slice)
    ensures !HasSlice(tps, lookup, gene, r) ==> RegionSlice(regions + [r], tps, lookup, gene) == RegionSlice(regions, tps, lookup, gene)
  {
    assert (regions + [r])[..|regions|] == regions;
  }

  /** Either the input equations per root, or the exception of a scan over an empty time point list. */
  datatype InputsResult = InputEquations(eqs: map<string, Expr>) | InputsIndexOutOfBounds

  /** Reference definition of `buildVectorEquationsForInputs`. */
  function InputsSpec(roots: set<string>, rootGenes: map<string, string>, regions: seq<string>, tps: seq<int32>,
                      lookup: ExpressionLookup): InputsResult
  {
    if tps == [] && regions != [] && roots != {} then InputsIndexOutOfBounds
    else InputEquations(map n | n in roots && RegionSlice(regions, tps, lookup, GeneFor(rootGenes, n)).Some?
                              :: InputEquation(RegionSlice(regions, tps, lookup, GeneFor(rootGenes, n)).value))
  }

  /**
   * `buildVectorEquationsForInputs`. `exprGenes` is the sorted expression gene set in its
   * (ascending) iteration order; `geneNames`, `nonGeneNames` and `namesToNodeId` are the
   * adapter's name maps; `regions` is the model source's region list in order.
   */
  method BuildVectorEquationsForInputs(nodeIds: set<string>, links: seq<ModelLink>, exprGenes: seq<string>,
                                       geneNames: map<string, string>, nonGeneNames: map<string, string>,
                                       namesToNodeId: map<string, string>, regions: seq<string>, tps: seq<int32>,
                                       lookup: ExpressionLookup)
    returns (r: InputsResult)
    ensures r == InputsSpec(RootIds(nodeIds, links),
                            RootExprGenes(exprGenes, geneNames, nonGeneNames, namesToNodeId, RootIds(nodeIds, links)),
                            regions, tps, lookup)
  {
    var rootNodes := RemoveLinkTargets(nodeIds, links);
    var rootGenes := CollectRootExprGenes(exprGenes, geneNames, nonGeneNames, namesToNodeId, rootNodes);

    var slicesForRoots, failed := SlicesForRoots(rootNodes, rootGenes, regions, tps, lookup);
    if failed {
      return InputsIndexOutOfBounds;
    }
    r := InputEquations(map n | n in slicesForRoots :: InputEquation(slicesForRoots[n]));
  }

  /** The loop that removes each link's target from the node IDs. */
  method RemoveLinkTargets(nodeIds: set<string>, links: seq<ModelLink>) returns (rootNodes: set<string>)
    ensures rootNodes == RootIds(nodeIds, links)
  {
    rootNodes := nodeIds;
    var j := 0;
    while j < |links|
      invariant 0 <= j <= |links|
      invariant rootNodes == nodeIds - Targets(links[..j])
    {
      assert Targets(links[..j + 1]) == Targets(links[..j]) + {links[j].trg} by {
        var next := links[..j + 1];
        forall t | t in Targets(next) ensures t in Targets(links[..j]) + {links[j].trg} {
          var i :| 0 <= i < |next| && next[i].trg == t;
          if i < j { assert links[..j][i].trg == t; }
        }
        forall t | t in Targets(links[..j]) ensures t in Targets(next) {
          var i :| 0 <= i < j && links[..j][i].trg == t;
          assert next[i].trg == t;
        }
        assert next[j].trg == links[j].trg;
      }
      rootNodes := rootNodes - {links[j].trg};
      j := j + 1;
    }
    assert links[..|links|] == links;
  }

  /** The loop over the regions, in list order, keeping per root the slice of the last region that has one. */
  method SlicesForRoots(rootNodes: set<string>, rootGenes: map<string, string>, regions: seq<string>, tps: seq<int32>,
                        lookup: ExpressionLookup)
    returns (slicesForRoots: map<string, TimeSlice>, failed: bool)
    ensures failed <==> tps == [] && regions != [] && rootNodes != {}
    ensures !failed ==> forall n :: n in slicesForRoots <==> n in rootNodes && RegionSlice(regions, tps, lookup, GeneFor(rootGenes, n)).Some?
    ensures !failed ==> forall n :: n in slicesForRoots ==> slicesForRoots[n] == RegionSlice(regions, tps, lookup, GeneFor(rootGenes, n)).value
  {
    slicesForRoots := map[];
    failed := false;
    var i := 0;
    while i < |regions|
      invariant 0 <= i <= |regions|
      invariant tps == [] && i > 0 ==> rootNodes == {}
      invariant forall n :: n in slicesForRoots <==> n in rootNodes && RegionSlice(regions[..i], tps, lookup, GeneFor(rootGenes, n)).Some?
      invariant forall n :: n in slicesForRoots ==> slicesForRoots[n] == RegionSlice(regions[..i], tps, lookup, GeneFor(rootGenes, n)).value
    {
      assert regions[..i] + [regions[i]] == regions[..i + 1];
      slicesForRoots, failed := SlicesInRegion(slicesForRoots, rootNodes, rootGenes, regions[..i], regions[i], tps, lookup);
      if failed {
        return;
      }
      i := i + 1;
    }
    assert regions[..|regions|] == regions;
  }

  /** The loop over the sorted expression genes that records the expression gene of each root. */
  method CollectRootExprGenes(exprGenes: seq<string>, geneNames: map<string, string>, nonGeneNames: map<string, string>,
                              namesToNodeId: map<string, string>, roots: set<string>)
    returns (m: map<string, string>)
    ensures m == RootExprGenes(exprGenes, geneNames, nonGeneNames, namesToNodeId, roots)
  {
    m := map[];
    var k := 0;
    while k < |exprGenes|
      invariant 0 <= k <= |exprGenes|
      invariant m == RootExprGenes(exprGenes[..k], geneNames, nonGeneNames, namesToNodeId, roots)
    {
      assert exprGenes[..k + 1][..k] == exprGenes[..k];
      var exprGeneName := exprGenes[k];
      var uniqueGeneName := InternalName(exprGeneName, geneNames, nonGeneNames);
      if uniqueGeneName.Some? && uniqueGeneName.value in namesToNodeId && namesToNodeId[uniqueGeneName.value] in roots {
        m := m[namesToNodeId[uniqueGeneName.value] := exprGeneName];
      }
      k := k + 1;
    }
    assert exprGenes[..|exprGenes|] == exprGenes;
  }

  /**
   * The inner loop over the root nodes for one region: scans each root's expression gene and
   * keeps the slice when there is one; `failed` is the exception of a scan over no time points.
   */
  method SlicesInRegion(slices: map<string, TimeSlice>, roots: set<string>, rootGenes: map<string, string>,
                        done: seq<string>, region: string, tps: seq<int32>, lookup: ExpressionLookup)
    returns (slices': map<string, TimeSlice>, failed: bool)
    requires forall n :: n in slices <==> n in roots && RegionSlice(done, tps, lookup, GeneFor(rootGenes, n)).Some?
    requires forall n :: n in slices ==> slices[n] == RegionSlice(done, tps, lookup, GeneFor(rootGenes, n)).value
    ensures failed <==> tps == [] && roots != {}
    ensures !failed ==> forall n :: n in slices' <==> n in roots && RegionSlice(done + [region], tps, lookup, GeneFor(rootGenes, n)).Some?
    ensures !failed ==> forall n :: n in slices' ==> slices'[n] == RegionSlice(done + [region], tps, lookup, GeneFor(rootGenes, n)).value
  {
    slices' := slices;
    failed := false;
    var todo := roots;
    while todo != {}
      invariant todo <= roots
      invariant !failed
      invariant tps == [] ==> todo == roots
      invariant forall n :: n in slices' ==> n in roots
      invariant forall n :: n in todo ==> (n in slices' <==> n in slices) && (n in slices ==> slices'[n] == slices[n])
      invariant forall n :: n in roots - todo ==>
        (n in slices' <==> RegionSlice(done + [region], tps, lookup, GeneFor(rootGenes, n)).Some?)
      invariant forall n :: n in roots - todo && n in slices' ==>
        slices'[n] == RegionSlice(done + [region], tps, lookup, GeneFor(rootGenes, n)).value
      decreases todo
    {
      var geneNodeID :| geneNodeID in todo;
      var exprGeneName := GeneFor(rootGenes, geneNodeID);
      var slice := FindFirstTimeSliceInRegion(tps, lookup, exprGeneName, region, NoSourceSpecified, Expressed);
      if slice.IndexOutOfBounds? {
        failed := true;
        return;
      }
      RegionSliceSnoc(done, region, tps, lookup, exprGeneName);
      if slice.Found? {
        slices' := slices'[geneNodeID := slice.slice];
      }
      todo := todo - {geneNodeID};
    }
  }

  /** Every input equation belongs to a root node and starts with the region of that root's kept slice. */
  lemma InputEquationsForRoots(roots: set<string>, rootGenes: map<string, string>, regions: seq<string>, tps: seq<int32>,
                               lookup: ExpressionLookup, n: string)
    requires InputsSpec(roots, rootGenes, regions, tps, lookup).InputEquations?
    ensures n in InputsSpec(roots, rootGenes, regions, tps, lookup).eqs <==>
      (n in roots && exists k :: 0 <= k < |regions| && HasSlice(tps, lookup, GeneFor(rootGenes, n), regions[k]))
    ensures n in InputsSpec(roots, rootGenes, regions, tps, lookup).eqs ==>
      var e := InputsSpec(roots, rootGenes, regions, tps, lookup).eqs[n];
      e.And? && e.left.InRegion? && e.left.region == regions[LastSliceRegion(regions, tps, lookup, GeneFor(rootGenes, n))]
  {
    RegionSliceKept(regions, tps, lookup, GeneFor(rootGenes, n));
  }
}
