/**
 * Graph queries over the model source: the root nodes (no inbound link) and the mapping of
 * a feedback finder's (source, target) pairs back to the model's links.
 */
module ModelGraphAnalysis {
  import opened JavaTypes

  /** A link of the model; `id` stands for whatever else distinguishes two ModelLink objects. */
  datatype ModelLink = ModelLink(id: string, src: string, trg: string)

  /** The feedback finder's link: identity is the (source, target) pair. */
  datatype Link = Link(src: string, trg: string)

  function LinkOf(ml: ModelLink): (l: Link)
    ensures l.src == ml.src && l.trg == ml.trg
  {
    Link(ml.src, ml.trg)
  }

  /** The targets of the model's links. */
  function Targets(links: seq<ModelLink>): set<string> {
    set i | 0 <= i < |links| :: links[i].trg
  }

  /** The node IDs that are not the target of any link. */
  function RootIds(nodes: set<string>, links: seq<ModelLink>): set<string> {
    nodes - Targets(links)
  }

  /**
   * `findRootModelRootNodeIDs`: adds every node ID, then removes every link target.
   * `nodeIds` lists the IDs of the model source's nodes in iteration order.
   */
  method FindRootModelRootNodeIDs(nodeIds: seq<string>, links: seq<ModelLink>) returns (roots: set<string>)
    ensures roots == RootIds(set i | 0 <= i < |nodeIds| :: nodeIds[i], links)
  {
    roots := {};
    var i := 0;
    while i < |nodeIds|
      invariant 0 <= i <= |nodeIds|
      invariant roots == set k | 0 <= k < i :: nodeIds[k]
    {
      roots := roots + {nodeIds[i]};
      i := i + 1;
    }
    ghost var all := roots;
    var j := 0;
    while j < |links|
      invariant 0 <= j <= |links|
      invariant roots == all - set k | 0 <= k < j :: links[k].trg
    {
      roots := roots - {links[j].trg};
      j := j + 1;
    }
  }

  /** A root is one of the nodes, and is the target of no link. */
  lemma RootIdsCharacterization(nodes: set<string>, links: seq<ModelLink>, n: string)
    ensures n in RootIds(nodes, links) <==> n in nodes && forall k :: 0 <= k < |links| ==> links[k].trg != n
  {
  }

  /** A node with a self-loop is not a root, whatever its other links. */
  lemma SelfLoopIsNotRoot(nodes: set<string>, links: seq<ModelLink>, k: nat)
    requires k < |links| && links[k].src == links[k].trg
    ensures links[k].src !in RootIds(nodes, links)
  {
  }

  /** Links whose target is not a node do not change the roots. */
  lemma ForeignTargetsIgnored(nodes: set<string>, links: seq<ModelLink>, extra: ModelLink)
    requires extra.trg !in nodes
    ensures RootIds(nodes, links + [extra]) == RootIds(nodes, links)
  {
    assert Targets(links + [extra]) == Targets(links) + {extra.trg} by {
      var ext := links + [extra];
      forall t | t in Targets(ext) ensures t in Targets(links) + {extra.trg} {
        var i :| 0 <= i < |ext| && ext[i].trg == t;
        if i < |links| { assert links[i].trg == t; }
      }
      forall t | t in Targets(links) ensures t in Targets(ext) {
        var i :| 0 <= i < |links| && links[i].trg == t;
        assert ext[i].trg == t;
      }
      assert ext[|links|].trg == extra.trg;
    }
  }

  /** `linkMap` after putting every link in order: the later of two links with one pair wins. */
  function LinkMap(links: seq<ModelLink>): map<Link, ModelLink>
    decreases |links|
  {
    if links == [] then map[]
    else LinkMap(links[..|links| - 1])[LinkOf(links[|links| - 1]) := links[|links| - 1]]
  }

  /** The pairs the finder is given. */
  function LinkSet(links: seq<ModelLink>): set<Link> {
    set i | 0 <= i < |links| :: LinkOf(links[i])
  }

  /** The index of the last link with pair `l`, or -1 when no link has it. */
  function LastIndexOf(links: seq<ModelLink>, l: Link): (k: int)
    ensures -1 <= k < |links|
    ensures k >= 0 ==> LinkOf(links[k]) == l
    ensures forall j :: k < j < |links| ==> LinkOf(links[j]) != l
    decreases |links|
  {
    if links == [] then -1
    else if LinkOf(links[|links| - 1]) == l then |links| - 1
    else LastIndexOf(links[..|links| - 1], l)
  }

  /** The map holds exactly the pairs of the links, each mapped to the LAST link that has it. */
  lemma {:induction false} LinkMapLastWins(links: seq<ModelLink>, l: Link)
    ensures l in LinkMap(links) <==> LastIndexOf(links, l) >= 0
    ensures l in LinkMap(links) ==> LinkMap(links)[l] == links[LastIndexOf(links, l)]
    decreases |links|
  {
    if links != [] && LinkOf(links[|links| - 1]) != l {
      LinkMapLastWins(links[..|links| - 1], l);
    }
  }

  /** The pairs in `linkMap` are the pairs given to the finder. */
  lemma LinkMapKeys(links: seq<ModelLink>)
    ensures LinkMap(links).Keys == LinkSet(links)
  {
    forall l ensures l in LinkMap(links) <==> l in LinkSet(links) {
      LinkMapLastWins(links, l);
      if l in LinkSet(links) {
        var i :| 0 <= i < |links| && LinkOf(links[i]) == l;
      }
    }
  }

  /** The loop that turns each model link into its (source, target) pair and adds it to a set. */
  method CollectLinks(links: seq<ModelLink>) returns (pairs: set<Link>)
    ensures pairs == LinkSet(links)
  {
    pairs := {};
    var j := 0;
    while j < |links|
      invariant 0 <= j <= |links|
      invariant pairs == LinkSet(links[..j])
    {
      var link := Link(links[j].src, links[j].trg);
      pairs := pairs + {link};
      assert LinkSet(links[..j + 1]) == LinkSet(links[..j]) + {link} by {
        var next := links[..j + 1];
        forall l | l in LinkSet(next) ensures l in LinkSet(links[..j]) + {link} {
          var k :| 0 <= k < |next| && LinkOf(next[k]) == l;
          if k < j { assert LinkOf(links[..j][k]) == l; }
        }
        forall l | l in LinkSet(links[..j]) ensures l in LinkSet(next) {
          var k :| 0 <= k < j && LinkOf(links[..j][k]) == l;
          assert LinkOf(next[k]) == l;
        }
        assert LinkOf(next[j]) == link;
      }
      j := j + 1;
    }
    assert links[..|links|] == links;
  }

  /** The finder: given the node IDs, the pairs and the roots, it reports feedback pairs. */
  type FeedbackFinder = (set<string>, set<Link>, set<string>) -> set<Link>

  /** The image of the finder's pairs under `linkMap`; a pair not in the map gives a null (`None`). */
  function MapPairs(pairs: set<Link>, linkMap: map<Link, ModelLink>): set<Option<ModelLink>> {
    set l | l in pairs :: if l in linkMap then Some(linkMap[l]) else None
  }

  /**
   * `findFeedbackEdges`, with the finder as a parameter: collects the node IDs, the pairs and
   * `linkMap`, runs the finder on the roots, and maps its pairs back to model links.
   */
  method FindFeedbackEdges(nodeIds: seq<string>, links: seq<ModelLink>, finder: FeedbackFinder)
    returns (result: set<Option<ModelLink>>)
    ensures result == MapPairs(
      finder(set i | 0 <= i < |nodeIds| :: nodeIds[i], LinkSet(links),
             RootIds(set i | 0 <= i < |nodeIds| :: nodeIds[i], links)),
      LinkMap(links))
  {
    var nodes: set<string> := {};
    var i := 0;
    while i < |nodeIds|
      invariant 0 <= i <= |nodeIds|
      invariant nodes == set k | 0 <= k < i :: nodeIds[k]
    {
      nodes := nodes + {nodeIds[i]};
      i := i + 1;
    }
    var pairs := CollectLinks(links);
    var linkMap: map<Link, ModelLink> := map[];
    var j := 0;
    while j < |links|
      invariant 0 <= j <= |links|
      invariant linkMap == LinkMap(links[..j])
    {
      assert links[..j + 1][..j] == links[..j];
      linkMap := linkMap[Link(links[j].src, links[j].trg) := links[j]];
      j := j + 1;
    }
    assert links[..|links|] == links;
    var rootNodeIDs := FindRootModelRootNodeIDs(nodeIds, links);
    var possibleFeedback := finder(nodes, pairs, rootNodeIDs);
    result := {};
    var rest := possibleFeedback;
    while rest != {}
      invariant rest <= possibleFeedback
      invariant result == MapPairs(possibleFeedback - rest, linkMap)
      decreases rest
    {
      var l :| l in rest;
      result := result + {if l in linkMap then Some(linkMap[l]) else None};
      rest := rest - {l};
      assert possibleFeedback - rest == (possibleFeedback - (rest + {l})) + {l};
    }
  }

  /** When the finder reports only pairs it was given, every result is a model link with that pair. */
  lemma MappedPairsAreModelLinks(pairs: set<Link>, links: seq<ModelLink>)
    requires pairs <= LinkSet(links)
    ensures forall r :: r in MapPairs(pairs, LinkMap(links)) ==>
      r.Some? && r.value in links && LinkOf(r.value) in pairs
  {
    LinkMapKeys(links);
    forall r | r in MapPairs(pairs, LinkMap(links))
      ensures r.Some? && r.value in links && LinkOf(r.value) in pairs
    {
      var l :| l in pairs && r == (if l in LinkMap(links) then Some(LinkMap(links)[l]) else None);
      LinkMapLastWins(links, l);
    }
  }

  /** Mapping pairs back never yields more links than the finder reported. */
  lemma {:induction false} MapPairsSize(pairs: set<Link>, linkMap: map<Link, ModelLink>)
    ensures |MapPairs(pairs, linkMap)| <= |pairs|
    decreases |pairs|
  {
    if pairs != {} {
      var l :| l in pairs;
      var rest := pairs - {l};
      MapPairsSize(rest, linkMap);
      assert MapPairs(pairs, linkMap) == MapPairs(rest, linkMap) + {if l in linkMap then Some(linkMap[l]) else None};
    }
  }
}
