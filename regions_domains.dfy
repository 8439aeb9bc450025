/**
 * The spatial side of the GeNeTool model: numbered regions (progenitors) with the maximum
 * time, the domains (terminal regions of the lineage tree), and the links between domains.
 */
module RegionsDomains {
  import opened JavaTypes

  /** A region of the model source: its name, time span and lineage (ancestors, then itself). */
  datatype ModelRegion = ModelRegion(name: string, start: int32, end: int32, lineage: seq<string>)

  /** A GeNeTool Region: a model region with its number. */
  datatype Region = Region(name: string, number: nat, start: int32, end: int32)

  /** A GeNeTool Domain: a terminal region with the trees (regions) of its lineage. */
  datatype Domain = Domain(name: string, trees: seq<string>)

  /** The running maximum of `xs` from the initial value `init`. */
  function MaxOf(init: int, xs: seq<int32>): int
    decreases |xs|
  {
    if xs == [] then init
    else
      var m := MaxOf(init, xs[..|xs| - 1]);
      if xs[|xs| - 1] > m then xs[|xs| - 1] else m
  }

  /** The running maximum bounds every element and the initial value, and is one of them. */
  lemma {:induction false} MaxOfIsMaximum(init: int, xs: seq<int32>)
    ensures init <= MaxOf(init, xs)
    ensures forall i :: 0 <= i < |xs| ==> xs[i] <= MaxOf(init, xs)
    ensures MaxOf(init, xs) == init || exists i :: 0 <= i < |xs| && MaxOf(init, xs) == xs[i]
    decreases |xs|
  {
    if xs != [] {
      var prefix := xs[..|xs| - 1];
      MaxOfIsMaximum(init, prefix);
      forall i | 0 <= i < |xs| - 1 ensures xs[i] <= MaxOf(init, xs) {
        assert xs[i] == prefix[i];
      }
      if MaxOf(init, xs) != init && MaxOf(init, xs) != xs[|xs| - 1] {
        var i :| 0 <= i < |prefix| && MaxOf(init, prefix) == prefix[i];
        assert MaxOf(init, xs) == xs[i];
      }
    }
  }

  /** The end times of the regions, in list order. */
  function RegionEnds(mrl: seq<ModelRegion>): (ends: seq<int32>)
    ensures |ends| == |mrl| && forall k :: 0 <= k < |mrl| ==> ends[k] == mrl[k].end
  {
    seq(|mrl|, k requires 0 <= k < |mrl| => mrl[k].end)
  }

  /**
   * `buildRegions`. `maxTimePoint` is the adapter's maximum time point before the call (-1
   * after construction); the result is the new maximum and the regions numbered 0, 1, ...
   * in list order.
   */
  method BuildRegions(mrl: seq<ModelRegion>, maxTimePoint: int32) returns (maxTime: int32, regions: seq<Region>)
    ensures maxTime == MaxOf(maxTimePoint, RegionEnds(mrl))
    ensures |regions| == |mrl|
    ensures forall k :: 0 <= k < |mrl| ==> regions[k] == Region(mrl[k].name, k, mrl[k].start, mrl[k].end)
  {
    maxTime := maxTimePoint;
    var i := 0;
    while i < |mrl|
      invariant 0 <= i <= |mrl|
      invariant maxTime == MaxOf(maxTimePoint, RegionEnds(mrl)[..i])
    {
      assert RegionEnds(mrl)[..i + 1][..i] == RegionEnds(mrl)[..i];
      var endTime := mrl[i].end;
      if endTime > maxTime {
        maxTime := endTime;
      }
      i := i + 1;
    }
    assert RegionEnds(mrl)[..|mrl|] == RegionEnds(mrl);

    regions := [];
    var regionCounter := 0;
    while regionCounter < |mrl|
      invariant 0 <= regionCounter <= |mrl|
      invariant |regions| == regionCounter
      invariant forall k :: 0 <= k < regionCounter ==> regions[k] == Region(mrl[k].name, k, mrl[k].start, mrl[k].end)
    {
      var mr := mrl[regionCounter];
      regions := regions + [Region(mr.name, regionCounter, mr.start, mr.end)];
      regionCounter := regionCounter + 1;
    }
  }

  /** `maxExpressionTimePoint`: the largest expression time point, or -1 when there is none above it. */
  method MaxExpressionTimePoint(times: seq<int32>) returns (maxTime: int32)
    ensures maxTime == MaxOf(-1, times)
  {
    maxTime := -1;
    var i := 0;
    while i < |times|
      invariant 0 <= i <= |times|
      invariant maxTime == MaxOf(-1, times[..i])
    {
      assert times[..i + 1][..i] == times[..i];
      if times[i] > maxTime {
        maxTime := times[i];
      }
      i := i + 1;
    }
    assert times[..|times|] == times;
  }

  /** The regions that precede another region in some lineage: the ones with descendants. */
  function WithDescendants(mrl: seq<ModelRegion>): set<string> {
    set k, j | 0 <= k < |mrl| && 0 <= j < |mrl[k].lineage| - 1 :: mrl[k].lineage[j]
  }

  /** `regionToLineageMap`: each region name to its lineage, a later region replacing an earlier one of the same name. */
  function LineageMap(mrl: seq<ModelRegion>): map<string, seq<string>>
    decreases |mrl|
  {
    if mrl == [] then map[]
    else LineageMap(mrl[..|mrl| - 1])[mrl[|mrl| - 1].name := mrl[|mrl| - 1].lineage]
  }

  /** The index of the last region named `n`, or -1. */
  function LastNamed(mrl: seq<ModelRegion>, n: string): (k: int)
    ensures -1 <= k < |mrl|
    ensures k >= 0 ==> mrl[k].name == n
    ensures forall k' :: k < k' < |mrl| ==> mrl[k'].name != n
    decreases |mrl|
  {
    if mrl == [] then -1
    else if mrl[|mrl| - 1].name == n then |mrl| - 1
    else LastNamed(mrl[..|mrl| - 1], n)
  }

  /** The lineage map holds every region name, with the lineage of the last region of that name. */
  lemma {:induction false} LineageMapLastWins(mrl: seq<ModelRegion>, n: string)
    ensures n in LineageMap(mrl) <==> LastNamed(mrl, n) >= 0
    ensures n in LineageMap(mrl) ==> LineageMap(mrl)[n] == mrl[LastNamed(mrl, n)].lineage
    decreases |mrl|
  {
    if mrl != [] {
      LineageMapLastWins(mrl[..|mrl| - 1], n);
    }
  }

  /** The domains `buildDomains` adds in the order of the regions: regions without descendants. */
  function DomainList(mrl: seq<ModelRegion>, withDescendants: set<string>, lineages: map<string, seq<string>>): seq<Domain>
    decreases |mrl|
  {
    if mrl == [] then []
    else
      var prior := DomainList(mrl[..|mrl| - 1], withDescendants, lineages);
      var n := mrl[|mrl| - 1].name;
      if n !in withDescendants && n in lineages then prior + [Domain(n, lineages[n])] else prior
  }

  /** `domainMap_`: the domains by name. */
  function DomainMap(mrl: seq<ModelRegion>): map<string, Domain> {
    var withDescendants := WithDescendants(mrl);
    var lineages := LineageMap(mrl);
    map n | n in lineages && n !in withDescendants :: Domain(n, lineages[n])
  }

  /**
   * `buildDomains`: marks every region that comes before the end of some lineage, then makes
   * a domain of every other region with that region's lineage as its trees.
   */
  method BuildDomains(mrl: seq<ModelRegion>) returns (domains: seq<Domain>, domainMap: map<string, Domain>)
    ensures domains == DomainList(mrl, WithDescendants(mrl), LineageMap(mrl))
    ensures domainMap == DomainMap(mrl)
  {
    var regionsWithDescendants, regionToLineageMap := MarkAncestors(mrl);
    domains := [];
    domainMap := map[];
    var i := 0;
    while i < |mrl|
      invariant 0 <= i <= |mrl|
      invariant domains == DomainList(mrl[..i], regionsWithDescendants, regionToLineageMap)
      invariant forall n :: n in domainMap <==> (n in regionToLineageMap && n !in regionsWithDescendants
                                              && exists k :: 0 <= k < i && mrl[k].name == n)
      invariant forall n :: n in domainMap ==> domainMap[n] == Domain(n, regionToLineageMap[n])
    {
      assert mrl[..i + 1][..i] == mrl[..i];
      var lineageKey := mrl[i].name;
      LineageMapLastWins(mrl, lineageKey);
      if lineageKey !in regionsWithDescendants {
        var domain := Domain(lineageKey, regionToLineageMap[lineageKey]);
        domains := domains + [domain];
        domainMap := domainMap[lineageKey := domain];
      }
      i := i + 1;
    }
    assert mrl[..|mrl|] == mrl;
    forall n | n in regionToLineageMap ensures exists k :: 0 <= k < |mrl| && mrl[k].name == n {
      LineageMapLastWins(mrl, n);
    }
  }

  /** The first loop of `buildDomains`: the regions with descendants, and the lineage map. */
  method MarkAncestors(mrl: seq<ModelRegion>) returns (regionsWithDescendants: set<string>, regionToLineageMap: map<string, seq<string>>)
    ensures regionsWithDescendants == WithDescendants(mrl)
    ensures regionToLineageMap == LineageMap(mrl)
  {
    regionsWithDescendants := {};
    regionToLineageMap := map[];
    var i := 0;
    while i < |mrl|
      invariant 0 <= i <= |mrl|
      invariant regionsWithDescendants == WithDescendants(mrl[..i])
      invariant regionToLineageMap == LineageMap(mrl[..i])
    {
      var prefix := mrl[..i + 1];
      assert prefix[..i] == mrl[..i];
      var lineages := mrl[i].lineage;
      if |lineages| > 1 {
        var j := 0;
        while j < |lineages| - 1
          invariant 0 <= j <= |lineages| - 1
          invariant regionsWithDescendants == WithDescendants(mrl[..i]) + set j' | 0 <= j' < j :: lineages[j']
        {
          regionsWithDescendants := regionsWithDescendants + {lineages[j]};
          j := j + 1;
        }
      }
      assert WithDescendants(prefix) == WithDescendants(mrl[..i]) + set j' | 0 <= j' < |lineages| - 1 :: lineages[j'] by {
        forall x | x in WithDescendants(prefix) ensures x in WithDescendants(mrl[..i]) + set j' | 0 <= j' < |lineages| - 1 :: lineages[j'] {
          var k, j :| 0 <= k < |prefix| && 0 <= j < |prefix[k].lineage| - 1 && prefix[k].lineage[j] == x;
          if k < i { assert mrl[..i][k].lineage[j] == x; }
        }
        forall x | x in WithDescendants(mrl[..i]) ensures x in WithDescendants(prefix) {
          var k, j :| 0 <= k < i && 0 <= j < |mrl[..i][k].lineage| - 1 && mrl[..i][k].lineage[j] == x;
          assert prefix[k].lineage[j] == x;
        }
        forall j | 0 <= j < |lineages| - 1 ensures lineages[j] in WithDescendants(prefix) {
          assert prefix[i].lineage[j] == lineages[j];
        }
      }
      regionToLineageMap := regionToLineageMap[mrl[i].name := lineages];
      i := i + 1;
    }
    assert mrl[..|mrl|] == mrl;
  }

  /**
   * A name is a domain exactly when some region has it and no lineage lists it before its
   * last element, i.e. it is no region's ancestor.
   */
  lemma DomainIffNoDescendants(mrl: seq<ModelRegion>, n: string)
    ensures n in DomainMap(mrl) <==>
      (exists k :: 0 <= k < |mrl| && mrl[k].name == n)
      && forall k, j :: 0 <= k < |mrl| && 0 <= j < |mrl[k].lineage| - 1 ==> mrl[k].lineage[j] != n
    ensures n in DomainMap(mrl) ==> DomainMap(mrl)[n].trees == mrl[LastNamed(mrl, n)].lineage
  {
    LineageMapLastWins(mrl, n);
    if exists k :: 0 <= k < |mrl| && mrl[k].name == n {
      var k :| 0 <= k < |mrl| && mrl[k].name == n;
      assert LastNamed(mrl, n) >= k;
    }
  }

  /** A topology link between two regions, as the model source reports it. */
  datatype TopoLink = TopoLink(region1: string, region2: string)

  /** The region topology for one time window. */
  datatype Topology = Topology(minTime: int32, maxTime: int32, links: seq<TopoLink>)

  /** One GeNeTool link from a domain: a cell-contact operator over [hmin, hmax] and the target domain. */
  datatype DomainLink = DomainLink(hmin: int32, hmax: int32, target: string)

  /** A directed link and the domain it is filed under. */
  datatype Edge = Edge(source: string, link: DomainLink)

  /** The directed links the topology links of one window give: both directions, between domains only. */
  function LinkEdges(minTime: int32, maxTime: int32, links: seq<TopoLink>, domains: set<string>): seq<Edge>
    decreases |links|
  {
    if links == [] then []
    else
      var prior := LinkEdges(minTime, maxTime, links[..|links| - 1], domains);
      var l := links[|links| - 1];
      if l.region1 in domains && l.region2 in domains
      then prior + [Edge(l.region1, DomainLink(minTime, maxTime, l.region2)), Edge(l.region2, DomainLink(minTime, maxTime, l.region1))]
      else prior
  }

  /** The directed links of all windows, in iteration order. */
  function TopologyEdges(topos: seq<Topology>, domains: set<string>): seq<Edge>
    decreases |topos|
  {
    if topos == [] then []
    else
      var t := topos[|topos| - 1];
      TopologyEdges(topos[..|topos| - 1], domains) + LinkEdges(t.minTime, t.maxTime, t.links, domains)
  }

  /** Files one directed link under its source domain, after the ones already there. */
  function AddLink(m: map<string, seq<DomainLink>>, e: Edge): map<string, seq<DomainLink>> {
    m[e.source := (if e.source in m then m[e.source] else []) + [e.link]]
  }

  /** `domainLinkMap` after filing the directed links `es` in order. */
  function Grouped(es: seq<Edge>): map<string, seq<DomainLink>>
    decreases |es|
  {
    if es == [] then map[] else AddLink(Grouped(es[..|es| - 1]), es[|es| - 1])
  }

  /** `buildLinkBetweenDomains`: appends the link from `source` to `target` to the list of `source`. */
  method BuildLinkBetweenDomains(domainLinkMap: map<string, seq<DomainLink>>, minTime: int32, maxTime: int32,
                                 source: string, target: string)
    returns (m: map<string, seq<DomainLink>>)
    ensures m == AddLink(domainLinkMap, Edge(source, DomainLink(minTime, maxTime, target)))
  {
    var operator1 := DomainLink(minTime, maxTime, target);
    var links: seq<DomainLink>;
    if source !in domainLinkMap {
      links := [];
    } else {
      links := domainLinkMap[source];
    }
    m := domainLinkMap[source := links + [operator1]];
  }

  /**
   * `buildDomainTopology` up to the packing into GeNeTool arrays: every topology link between
   * two domains is filed in both directions, with its window's time bounds.
   */
  method BuildDomainTopology(topos: seq<Topology>, domains: set<string>) returns (domainLinkMap: map<string, seq<DomainLink>>)
    ensures domainLinkMap == Grouped(TopologyEdges(topos, domains))
  {
    domainLinkMap := map[];
    var i := 0;
    while i < |topos|
      invariant 0 <= i <= |topos|
      invariant domainLinkMap == Grouped(TopologyEdges(topos[..i], domains))
    {
      assert topos[..i + 1][..i] == topos[..i];
      domainLinkMap := FileWindowLinks(domainLinkMap, topos[i], domains, TopologyEdges(topos[..i], domains));
      i := i + 1;
    }
    assert topos[..|topos|] == topos;
  }

  /** The inner loop of `buildDomainTopology` over the links of one time window. */
  method FileWindowLinks(m0: map<string, seq<DomainLink>>, topo: Topology, domains: set<string>, ghost before: seq<Edge>)
    returns (domainLinkMap: map<string, seq<DomainLink>>)
    requires m0 == Grouped(before)
    ensures domainLinkMap == Grouped(before + LinkEdges(topo.minTime, topo.maxTime, topo.links, domains))
  {
    domainLinkMap := m0;
    assert before + [] == before;
    var j := 0;
    while j < |topo.links|
      invariant 0 <= j <= |topo.links|
      invariant domainLinkMap == Grouped(before + LinkEdges(topo.minTime, topo.maxTime, topo.links[..j], domains))
    {
      ghost var es := before + LinkEdges(topo.minTime, topo.maxTime, topo.links[..j], domains);
      LinkEdgesSnoc(topo.minTime, topo.maxTime, topo.links, j, domains);
      var tlink := topo.links[j];
      var region1 := tlink.region1;
      var region2 := tlink.region2;
      if region1 in domains && region2 in domains {
        var a := Edge(region1, DomainLink(topo.minTime, topo.maxTime, region2));
        var b := Edge(region2, DomainLink(topo.minTime, topo.maxTime, region1));
        domainLinkMap := BuildLinkBetweenDomains(domainLinkMap, topo.minTime, topo.maxTime, region1, region2);
        domainLinkMap := BuildLinkBetweenDomains(domainLinkMap, topo.minTime, topo.maxTime, region2, region1);
        GroupedTwo(es, a, b);
        assert before + LinkEdges(topo.minTime, topo.maxTime, topo.links[..j + 1], domains) == es + [a, b];
      } else {
        assert before + LinkEdges(topo.minTime, topo.maxTime, topo.links[..j + 1], domains) == es;
      }
      j := j + 1;
    }
    assert topo.links[..|topo.links|] == topo.links;
  }

  lemma LinkEdgesSnoc(minTime: int32, maxTime: int32, links: seq<TopoLink>, j: nat, domains: set<string>)
    requires j < |links|
    ensures LinkEdges(minTime, maxTime, links[..j + 1], domains)
         == LinkEdges(minTime, maxTime, links[..j], domains)
            + (if links[j].region1 in domains && links[j].region2 in domains
               then [Edge(links[j].region1, DomainLink(minTime, maxTime, links[j].region2)),
                     Edge(links[j].region2, DomainLink(minTime, maxTime, links[j].region1))]
               else [])
  {
    assert links[..j + 1][..j] == links[..j];
  }

  lemma GroupedTwo(es: seq<Edge>, a: Edge, b: Edge)
    ensures Grouped(es + [a, b]) == AddLink(AddLink(Grouped(es), a), b)
  {
    assert (es + [a, b])[..|es| + 1] == es + [a];
    assert (es + [a])[..|es|] == es;
  }

  /** The links filed under `d`, in order: a reference definition of one entry of the map. */
  function LinksFrom(es: seq<Edge>, d: string): seq<DomainLink>
    decreases |es|
  {
    if es == [] then []
    else LinksFrom(es[..|es| - 1], d) + (if es[|es| - 1].source == d then [es[|es| - 1].link] else [])
  }

  /** The map files exactly the sources of the links, each with its links in order. */
  lemma {:induction false} GroupedByInOrder(es: seq<Edge>, d: string)
    ensures d in Grouped(es) <==> exists i :: 0 <= i < |es| && es[i].source == d
    ensures d in Grouped(es) ==> Grouped(es)[d] == LinksFrom(es, d)
    ensures d !in Grouped(es) ==> LinksFrom(es, d) == []
    decreases |es|
  {
    if es != [] {
      var prefix := es[..|es| - 1];
      GroupedByInOrder(prefix, d);
      if exists i :: 0 <= i < |prefix| && prefix[i].source == d {
        var i :| 0 <= i < |prefix| && prefix[i].source == d;
        assert es[i].source == d;
      }
      if exists i :: 0 <= i < |es| && es[i].source == d {
        var i :| 0 <= i < |es| && es[i].source == d;
        if i < |prefix| { assert prefix[i].source == d; }
      }
    }
  }

  /** The same link filed under the other end. */
  function Reversed(e: Edge): Edge {
    Edge(e.link.target, DomainLink(e.link.hmin, e.link.hmax, e.source))
  }

  function ReversedAll(es: seq<Edge>): (rs: seq<Edge>)
    ensures |rs| == |es| && forall i :: 0 <= i < |es| ==> rs[i] == Reversed(es[i])
  {
    seq(|es|, i requires 0 <= i < |es| => Reversed(es[i]))
  }

  lemma ReversedAllAppend(a: seq<Edge>, b: seq<Edge>)
    ensures ReversedAll(a + b) == ReversedAll(a) + ReversedAll(b)
  {
  }

  /** Every link of one window appears as often in one direction as in the other. */
  lemma {:induction false} LinkEdgesSymmetric(minTime: int32, maxTime: int32, links: seq<TopoLink>, domains: set<string>)
    ensures multiset(ReversedAll(LinkEdges(minTime, maxTime, links, domains))) == multiset(LinkEdges(minTime, maxTime, links, domains))
    decreases |links|
  {
    if links != [] {
      var prefix := links[..|links| - 1];
      var prior := LinkEdges(minTime, maxTime, prefix, domains);
      LinkEdgesSymmetric(minTime, maxTime, prefix, domains);
      var l := links[|links| - 1];
      if l.region1 in domains && l.region2 in domains {
        var a := Edge(l.region1, DomainLink(minTime, maxTime, l.region2));
        var b := Edge(l.region2, DomainLink(minTime, maxTime, l.region1));
        ReversedAllAppend(prior, [a, b]);
        assert ReversedAll([a, b]) == [b, a];
      }
    }
  }

  /**
   * The domain topology is symmetric: a link from A to B over a window is filed exactly as
   * many times as the link from B to A over the same window.
   */
  lemma {:induction false} TopologySymmetric(topos: seq<Topology>, domains: set<string>)
    ensures multiset(ReversedAll(TopologyEdges(topos, domains))) == multiset(TopologyEdges(topos, domains))
    decreases |topos|
  {
    if topos != [] {
      var t := topos[|topos| - 1];
      var prefix := topos[..|topos| - 1];
      TopologySymmetric(prefix, domains);
      LinkEdgesSymmetric(t.minTime, t.maxTime, t.links, domains);
      ReversedAllAppend(TopologyEdges(prefix, domains), LinkEdges(t.minTime, t.maxTime, t.links, domains));
    }
  }

  /** Every filed link joins two domains. */
  lemma {:induction false} TopologyEdgesJoinDomains(topos: seq<Topology>, domains: set<string>)
    ensures forall e :: e in TopologyEdges(topos, domains) ==> e.source in domains && e.link.target in domains
    decreases |topos|
  {
    if topos != [] {
      var t := topos[|topos| - 1];
      TopologyEdgesJoinDomains(topos[..|topos| - 1], domains);
      LinkEdgesJoinDomains(t.minTime, t.maxTime, t.links, domains);
    }
  }

  lemma {:induction false} LinkEdgesJoinDomains(minTime: int32, maxTime: int32, links: seq<TopoLink>, domains: set<string>)
    ensures forall e :: e in LinkEdges(minTime, maxTime, links, domains) ==> e.source in domains && e.link.target in domains
    decreases |links|
  {
    if links != [] {
      LinkEdgesJoinDomains(minTime, maxTime, links[..|links| - 1], domains);
    }
  }
}
