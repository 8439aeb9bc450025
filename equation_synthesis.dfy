/**
 * Equation synthesis for genes: inbound-edge maps, the left-nested AND/OR chains over
 * one-step-delayed predecessor values, the AND/OR join, and attaching a rule to a gene.
 */
module EquationSynthesis {
  import opened JavaTypes
  import opened VectorEquation
  import opened ModelGraphAnalysis
  import opened Stringify
  import opened GeNeToolLowering

  /** The delay of a predecessor's value in a gene's equation (GENE_DELAY). */
  const GENE_DELAY: int32 := -1

  /** A model node's type, as far as the equations depend on it. */
  datatype NodeType = GeneType | IntercellType | OtherType

  /** The two node factories: AndNodeFactory and OrNodeFactory. */
  datatype Factory = AndFactory | OrFactory {
    function Make(l: Expr, r: Expr): (e: Expr)
      ensures this == AndFactory ==> e == And(l, r)
      ensures this == OrFactory ==> e == Or(l, r)
    {
      if this == AndFactory then And(l, r) else Or(l, r)
    }

    predicate IsNode(e: Expr) {
      if this == AndFactory then e.And? else e.Or?
    }
  }

  /** The pairs `edges` maps to each target. */
  ghost predicate IsInboundMap(r: map<string, set<string>>, edges: set<Link>) {
    && r.Keys == (set l | l in edges :: l.trg)
    && (forall t :: t in r ==> r[t] != {})
    && (forall s, t :: t in r ==> (s in r[t] <==> Link(s, t) in edges))
  }

  /** `calcInboundEdges`: for each link target, the set of its sources. */
  method CalcInboundEdges(edges: set<Link>) returns (r: map<string, set<string>>)
    ensures IsInboundMap(r, edges)
  {
    r := map[];
    var rest := edges;
    while rest != {}
      invariant rest <= edges
      invariant r.Keys == (set l | l in edges - rest :: l.trg)
      invariant forall t :: t in r ==> r[t] != {}
      invariant forall s, t :: t in r ==> (s in r[t] <==> Link(s, t) in edges - rest)
      decreases rest
    {
      var link :| link in rest;
      var forTrg := if link.trg in r then r[link.trg] else {};
      r := r[link.trg := forTrg + {link.src}];
      rest := rest - {link};
    }
  }

  /** The equation leaf of a node: its gene value, qualified by "IN CC D:R" for an intercell node. */
  function GeneLeaf(name: string, t: NodeType): (e: Expr)
    ensures VisitedTimes(e) == []
    ensures t == IntercellType ==> e == Modifier(NewGeneValue(name), ImmediateCellContact("R"))
    ensures t != IntercellType ==> e == NewGeneValue(name)
  {
    var g := NewGeneValue(name);
    if t == IntercellType then Modifier(g, ImmediateCellContact("R")) else g
  }

  /** `buildVectorEquationGeneNodes`: the leaf of every named node. */
  method BuildVectorEquationGeneNodes(names: map<string, string>, types: map<string, NodeType>)
    returns (leaves: map<string, Expr>)
    requires names.Keys <= types.Keys
    ensures leaves.Keys == names.Keys
    ensures forall id :: id in leaves ==> leaves[id] == GeneLeaf(names[id], types[id])
  {
    leaves := map[];
    var rest := names.Keys;
    while rest != {}
      invariant rest <= names.Keys
      invariant leaves.Keys == names.Keys - rest
      invariant forall id :: id in leaves ==> leaves[id] == GeneLeaf(names[id], types[id])
      decreases rest
    {
      var id :| id in rest;
      leaves := leaves[id := GeneLeaf(names[id], types[id])];
      rest := rest - {id};
    }
  }

  /** A predecessor's leaf, one step in the past. */
  function Delayed(leaf: Expr): Expr {
    TimePoint(leaf, GENE_DELAY)
  }

  /** The delayed leaves of the sources in `order`. */
  function DelayedLeaves(order: seq<string>, leaves: map<string, Expr>): (r: seq<Expr>)
    requires forall i :: 0 <= i < |order| ==> order[i] in leaves
    ensures |r| == |order|
    ensures forall i :: 0 <= i < |r| ==> r[i] == Delayed(leaves[order[i]])
    decreases |order|
  {
    if order == [] then []
    else DelayedLeaves(order[..|order| - 1], leaves) + [Delayed(leaves[order[|order| - 1]])]
  }

  /** The left-nested chain `f(f(f(x0, x1), x2), ...)` over a non-empty sequence. */
  function ChainOf(f: Factory, xs: seq<Expr>): Expr
    requires |xs| > 0
    decreases |xs|
  {
    if |xs| == 1 then xs[0] else f.Make(ChainOf(f, xs[..|xs| - 1]), xs[|xs| - 1])
  }

  /** Reads a left-nested chain back into its operands. */
  function Spine(f: Factory, e: Expr): seq<Expr> {
    if f.IsNode(e) then Spine(f, e.left) + [e.right] else [e]
  }

  /** Number of `f` nodes on the left spine of `e`. */
  function SpineNodes(f: Factory, e: Expr): nat {
    if f.IsNode(e) then SpineNodes(f, e.left) + 1 else 0
  }

  /** A chain of operands that are not themselves `f` nodes reads back to those operands. */
  lemma {:induction false} SpineOfChain(f: Factory, xs: seq<Expr>)
    requires |xs| > 0
    requires forall i :: 0 <= i < |xs| ==> !f.IsNode(xs[i])
    ensures Spine(f, ChainOf(f, xs)) == xs
    ensures SpineNodes(f, ChainOf(f, xs)) == |xs| - 1
    decreases |xs|
  {
    if |xs| > 1 {
      SpineOfChain(f, xs[..|xs| - 1]);
      assert xs[..|xs| - 1] + [xs[|xs| - 1]] == xs;
    }
  }

  /** `e` is the chain of `f` over the delayed leaves of `srcs`, taken in the iteration order `order`. */
  ghost predicate ChainInOrder(e: Expr, f: Factory, order: seq<string>, srcs: set<string>, leaves: map<string, Expr>) {
    && Enumerates(order, srcs)
    && |order| > 0
    && (forall i :: 0 <= i < |order| ==> order[i] in leaves)
    && e == ChainOf(f, DelayedLeaves(order, leaves))
  }

  /** `e` is the chain of `f` over the delayed leaves of `srcs`, in some iteration order. */
  ghost predicate ChainOver(e: Expr, f: Factory, srcs: set<string>, leaves: map<string, Expr>) {
    exists order: seq<string> :: ChainInOrder(e, f, order, srcs, leaves)
  }

  /** Extending a prefix of the operands by the next one adds one factory node at the top. */
  lemma ChainPrefixStep(f: Factory, xs: seq<Expr>, i: nat)
    requires 1 <= i < |xs|
    ensures ChainOf(f, xs[..i + 1]) == f.Make(ChainOf(f, xs[..i]), xs[i])
  {
    assert xs[..i + 1][..i] == xs[..i];
  }

  /** A chain over n sources has n - 1 factory nodes and exactly one delayed leaf per source. */
  lemma ChainOverShape(e: Expr, f: Factory, srcs: set<string>, leaves: map<string, Expr>)
    requires ChainOver(e, f, srcs, leaves)
    ensures SpineNodes(f, e) == |srcs| - 1
    ensures |Spine(f, e)| == |srcs|
    ensures forall s :: s in srcs ==> s in leaves && Delayed(leaves[s]) in Spine(f, e)
    ensures forall x :: x in Spine(f, e) ==> exists s :: s in srcs && s in leaves && x == Delayed(leaves[s])
  {
    var order: seq<string> :| ChainInOrder(e, f, order, srcs, leaves);
    ChainInOrderShape(e, f, order, srcs, leaves);
  }

  /** The same, for one iteration order: the spine is the delayed leaves in that order. */
  lemma ChainInOrderShape(e: Expr, f: Factory, order: seq<string>, srcs: set<string>, leaves: map<string, Expr>)
    requires ChainInOrder(e, f, order, srcs, leaves)
    ensures Spine(f, e) == DelayedLeaves(order, leaves)
    ensures SpineNodes(f, e) == |srcs| - 1
    ensures |Spine(f, e)| == |srcs|
    ensures forall s :: s in srcs ==> s in leaves && Delayed(leaves[s]) in Spine(f, e)
    ensures forall x :: x in Spine(f, e) ==> exists s :: s in srcs && s in leaves && x == Delayed(leaves[s])
  {
    var xs := DelayedLeaves(order, leaves);
    forall i | 0 <= i < |xs| ensures !f.IsNode(xs[i]) {
      assert xs[i].TimePoint?;
    }
    SpineOfChain(f, xs);
    EnumerationLength(order, srcs);
    DelayedLeavesCover(order, srcs, leaves);
  }

  /** The delayed leaves of an enumeration of `srcs` are exactly the delayed leaves of its members. */
  lemma DelayedLeavesCover(order: seq<string>, srcs: set<string>, leaves: map<string, Expr>)
    requires Enumerates(order, srcs)
    requires forall i :: 0 <= i < |order| ==> order[i] in leaves
    ensures forall s :: s in srcs ==> s in leaves && Delayed(leaves[s]) in DelayedLeaves(order, leaves)
    ensures forall x :: x in DelayedLeaves(order, leaves) ==> exists s :: s in srcs && s in leaves && x == Delayed(leaves[s])
  {
    var xs := DelayedLeaves(order, leaves);
    forall s | s in srcs ensures s in leaves && Delayed(leaves[s]) in xs {
      var i :| 0 <= i < |order| && order[i] == s;
      assert xs[i] == Delayed(leaves[s]);
    }
    forall x | x in xs ensures exists s :: s in srcs && s in leaves && x == Delayed(leaves[s]) {
      var i :| 0 <= i < |xs| && xs[i] == x;
      assert order[i] in srcs;
    }
  }

  /** The inner loop of `buildVectorEquationForNode`: folds the sources of one target into a chain. */
  method BuildChain(leaves: map<string, Expr>, sources: set<string>, f: Factory) returns (node1: Expr)
    requires sources != {} && sources <= leaves.Keys
    ensures ChainOver(node1, f, sources, leaves)
  {
    var order := SetToSequence(sources);
    EnumerationLength(order, sources);
    node1 := ChainLoop(leaves, order, f);
    assert ChainInOrder(node1, f, order, sources, leaves);
  }

  /** The loop of `BuildChain` over the sources in the iterator's order. */
  method ChainLoop(leaves: map<string, Expr>, order: seq<string>, f: Factory) returns (node1: Expr)
    requires |order| > 0
    requires forall i :: 0 <= i < |order| ==> order[i] in leaves
    ensures node1 == ChainOf(f, DelayedLeaves(order, leaves))
  {
    ghost var xs := DelayedLeaves(order, leaves);
    node1 := Delayed(leaves[order[0]]);
    assert xs[..1] == [xs[0]];
    var i := 1;
    while i < |order|
      invariant 1 <= i <= |order|
      invariant node1 == ChainOf(f, xs[..i])
    {
      ChainPrefixStep(f, xs, i);
      assert xs[i] == Delayed(leaves[order[i]]);
      node1 := f.Make(node1, Delayed(leaves[order[i]]));
      i := i + 1;
    }
    assert xs[..|order|] == xs;
  }

  /** `buildVectorEquationForNode`: for each target, the chain over its sources. */
  method BuildVectorEquationForNode(leaves: map<string, Expr>, upstream: map<string, set<string>>, f: Factory)
    returns (eqs: map<string, Expr>)
    requires forall t :: t in upstream ==> upstream[t] != {} && upstream[t] <= leaves.Keys
    ensures eqs.Keys == upstream.Keys
    ensures forall t :: t in eqs ==> ChainOver(eqs[t], f, upstream[t], leaves)
  {
    eqs := map[];
    var targets := upstream.Keys;
    while targets != {}
      invariant targets <= upstream.Keys
      invariant eqs.Keys == upstream.Keys - targets
      invariant forall t :: t in eqs ==> ChainOver(eqs[t], f, upstream[t], leaves)
      decreases targets
    {
      var target :| target in targets;
      var node1 := BuildChain(leaves, upstream[target], f);
      eqs := eqs[target := node1];
      targets := targets - {target};
    }
  }

  /** `joinVectorEquationTrees`: a missing tree (null) is dropped; two trees are joined by the factory. */
  function JoinVectorEquationTrees(a: Option<Expr>, b: Option<Expr>, f: Factory): (r: Option<Expr>)
    ensures r.None? <==> a.None? && b.None?
    ensures a.None? ==> r == b
    ensures b.None? ==> r == a
    ensures a.Some? && b.Some? ==> r == Some(f.Make(a.value, b.value))
  {
    if a.None? && b.Some? then b
    else if a.Some? && b.None? then a
    else if a.Some? && b.Some? then Some(f.Make(a.value, b.value))
    else None
  }

  /** The pairs of the feedback links. */
  function FeedbackPairs(feedback: set<ModelLink>): set<Link> {
    set ml | ml in feedback :: LinkOf(ml)
  }

  /** The pairs combined by AND: every link's pair except the feedback ones. */
  function AndPairs(links: seq<ModelLink>, feedback: set<ModelLink>): set<Link> {
    LinkSet(links) - FeedbackPairs(feedback)
  }

  /** The sources the pairs give node `n`. */
  function Sources(pairs: set<Link>, n: string): set<string> {
    set l | l in pairs && l.trg == n :: l.src
  }

  /** The shape of a gene's equation, given its AND sources `a` and OR sources `o`. */
  ghost predicate GeneEquation(e: Expr, a: set<string>, o: set<string>, leaves: map<string, Expr>) {
    && (a != {} && o != {} ==> e.Or? && ChainOver(e.left, AndFactory, a, leaves) && ChainOver(e.right, OrFactory, o, leaves))
    && (a != {} && o == {} ==> ChainOver(e, AndFactory, a, leaves))
    && (a == {} && o != {} ==> ChainOver(e, OrFactory, o, leaves))
  }

  /** An inbound map built from pairs whose sources all have leaves only names sources with leaves. */
  lemma InboundSourcesHaveLeaves(r: map<string, set<string>>, edges: set<Link>, leaves: map<string, Expr>)
    requires IsInboundMap(r, edges)
    requires forall l :: l in edges ==> l.src in leaves
    ensures forall t :: t in r ==> r[t] != {} && r[t] <= leaves.Keys
  {
    forall t, s | t in r && s in r[t] ensures s in leaves {
      assert Link(s, t) in edges;
    }
  }

  /** A target has an entry in the inbound map exactly when it has sources, and they are its sources. */
  lemma InboundMapSources(r: map<string, set<string>>, edges: set<Link>, n: string)
    requires IsInboundMap(r, edges)
    ensures n in r <==> Sources(edges, n) != {}
    ensures n in r ==> r[n] == Sources(edges, n)
  {
    if Sources(edges, n) != {} {
      var s :| s in Sources(edges, n);
      var l :| l in edges && l.trg == n && l.src == s;
      assert n in (set l | l in edges :: l.trg);
    }
    if n in r {
      var l :| l in edges && l.trg == n;
      assert l.src in Sources(edges, n);
      forall s ensures s in r[n] <==> s in Sources(edges, n) {
        if s in Sources(edges, n) {
          var l' :| l' in edges && l'.trg == n && l'.src == s;
          assert l' == Link(s, n);
        }
      }
    }
  }

  /**
   * `buildVectorEquationsForGenes`, with the feedback links as an input: links that are not
   * feedback are combined by AND, feedback links by OR, and the two trees joined by OR.
   */
  method BuildVectorEquationsForGenes(nodeIds: set<string>, links: seq<ModelLink>, feedback: set<ModelLink>,
                                      leaves: map<string, Expr>)
    returns (eqs: map<string, Expr>)
    requires forall k :: 0 <= k < |links| ==> links[k].src in leaves
    requires forall ml :: ml in feedback ==> ml.src in leaves
    ensures eqs.Keys == set n | n in nodeIds
      && (Sources(AndPairs(links, feedback), n) != {} || Sources(FeedbackPairs(feedback), n) != {})
    ensures forall n :: n in eqs ==>
      GeneEquation(eqs[n], Sources(AndPairs(links, feedback), n), Sources(FeedbackPairs(feedback), n), leaves)
  {
    var pairs := CollectLinks(links);
    var andLinks := RemoveFeedbackPairs(pairs, feedback);
    forall l | l in andLinks ensures l.src in leaves {
      var k :| 0 <= k < |links| && LinkOf(links[k]) == l;
    }
    var andEquationsPerNode := TreesFor(andLinks, leaves, AndFactory);

    var orLinks := CollectFeedbackPairs(feedback);
    forall l | l in orLinks ensures l.src in leaves {
      var ml :| ml in feedback && LinkOf(ml) == l;
    }
    var orEquationsPerNode := TreesFor(orLinks, leaves, OrFactory);

    eqs := JoinPerNode(nodeIds, andEquationsPerNode, orEquationsPerNode);
  }

  /** The inbound map of one set of pairs and the chains built over it, by AND or by OR. */
  method TreesFor(pairs: set<Link>, leaves: map<string, Expr>, f: Factory) returns (trees: map<string, Expr>)
    requires forall l :: l in pairs ==> l.src in leaves
    ensures forall n :: n in trees <==> Sources(pairs, n) != {}
    ensures forall n :: n in trees ==> ChainOver(trees[n], f, Sources(pairs, n), leaves)
  {
    var inbound := CalcInboundEdges(pairs);
    InboundSourcesHaveLeaves(inbound, pairs, leaves);
    trees := BuildVectorEquationForNode(leaves, inbound, f);
    forall n ensures n in trees <==> Sources(pairs, n) != {} {
      InboundMapSources(inbound, pairs, n);
    }
    forall n | n in trees ensures ChainOver(trees[n], f, Sources(pairs, n), leaves) {
      InboundMapSources(inbound, pairs, n);
    }
  }

  /** The loop that removes the feedback pairs from the set of all pairs. */
  method RemoveFeedbackPairs(pairs: set<Link>, feedback: set<ModelLink>) returns (r: set<Link>)
    ensures r == pairs - FeedbackPairs(feedback)
  {
    r := pairs;
    var rest := feedback;
    while rest != {}
      invariant rest <= feedback
      invariant r == pairs - FeedbackPairs(feedback - rest)
      decreases rest
    {
      var ml :| ml in rest;
      r := r - {Link(ml.src, ml.trg)};
      rest := rest - {ml};
      assert FeedbackPairs(feedback - rest) == FeedbackPairs(feedback - (rest + {ml})) + {LinkOf(ml)};
    }
    assert feedback - {} == feedback;
  }

  /** The loop that collects the pairs of the feedback links. */
  method CollectFeedbackPairs(feedback: set<ModelLink>) returns (r: set<Link>)
    ensures r == FeedbackPairs(feedback)
  {
    r := {};
    var rest := feedback;
    while rest != {}
      invariant rest <= feedback
      invariant r == FeedbackPairs(feedback - rest)
      decreases rest
    {
      var ml :| ml in rest;
      r := r + {Link(ml.src, ml.trg)};
      rest := rest - {ml};
      assert FeedbackPairs(feedback - rest) == FeedbackPairs(feedback - (rest + {ml})) + {LinkOf(ml)};
    }
    assert feedback - {} == feedback;
  }

  /** The entry of `m` for `k`, or None (Java's `get` returning null). */
  function Get(m: map<string, Expr>, k: string): (r: Option<Expr>)
    ensures r.Some? <==> k in m
    ensures r.Some? ==> r.value == m[k]
  {
    if k in m then Some(m[k]) else None
  }

  /** The per-node loop: joins each node's AND tree and OR tree by OR and keeps non-null results. */
  method JoinPerNode(nodeIds: set<string>, andEqs: map<string, Expr>, orEqs: map<string, Expr>)
    returns (eqs: map<string, Expr>)
    ensures forall n :: n in eqs <==> n in nodeIds && (n in andEqs || n in orEqs)
    ensures forall n :: n in eqs ==> eqs[n] == JoinVectorEquationTrees(Get(andEqs, n), Get(orEqs, n), OrFactory).value
  {
    eqs := map[];
    var todo := nodeIds;
    while todo != {}
      invariant todo <= nodeIds
      invariant forall n :: n in eqs <==> n in nodeIds - todo && (n in andEqs || n in orEqs)
      invariant forall n :: n in eqs ==> eqs[n] == JoinVectorEquationTrees(Get(andEqs, n), Get(orEqs, n), OrFactory).value
      decreases todo
    {
      var nodeID :| nodeID in todo;
      var joined := JoinVectorEquationTrees(Get(andEqs, nodeID), Get(orEqs, nodeID), OrFactory);
      if joined.Some? {
        eqs := eqs[nodeID := joined.value];
      }
      todo := todo - {nodeID};
    }
  }

  /** With feedback drawn from the links, exactly the non-root nodes get a gene equation. */
  lemma GeneEquationsExactlyForNonRoots(nodeIds: set<string>, links: seq<ModelLink>, feedback: set<ModelLink>, n: string)
    requires FeedbackPairs(feedback) <= LinkSet(links)
    ensures (Sources(AndPairs(links, feedback), n) != {} || Sources(FeedbackPairs(feedback), n) != {})
        <==> n in Targets(links)
    ensures n in nodeIds && n in Targets(links) <==> n in nodeIds - RootIds(nodeIds, links)
  {
    if n in Targets(links) {
      var k :| 0 <= k < |links| && links[k].trg == n;
      var l := LinkOf(links[k]);
      assert l in LinkSet(links);
      if l in FeedbackPairs(feedback) {
        assert l.src in Sources(FeedbackPairs(feedback), n);
      } else {
        assert l.src in Sources(AndPairs(links, feedback), n);
      }
    }
    if Sources(AndPairs(links, feedback), n) != {} {
      var s :| s in Sources(AndPairs(links, feedback), n);
      var l :| l in AndPairs(links, feedback) && l.trg == n && l.src == s;
      var k :| 0 <= k < |links| && LinkOf(links[k]) == l;
    }
    if Sources(FeedbackPairs(feedback), n) != {} {
      var s :| s in Sources(FeedbackPairs(feedback), n);
      var l :| l in FeedbackPairs(feedback) && l.trg == n && l.src == s;
      var k :| 0 <= k < |links| && LinkOf(links[k]) == l;
    }
  }

  /** The last operand of a chain is visited last, so its delay is the AT step a lowering leaves. */
  lemma {:induction false} ChainStep(f: Factory, order: seq<string>, leaves: map<string, Expr>, prior: int)
    requires |order| > 0
    requires forall i :: 0 <= i < |order| ==> order[i] in leaves
    requires forall x :: x in leaves.Values ==> VisitedTimes(x) == []
    ensures LastOr(VisitedTimes(ChainOf(f, DelayedLeaves(order, leaves))), prior) == GENE_DELAY
  {
    var xs := DelayedLeaves(order, leaves);
    var last := xs[|xs| - 1];
    assert leaves[order[|order| - 1]] in leaves.Values;
    assert VisitedTimes(last) == [GENE_DELAY];
    if |xs| > 1 {
      LastOrAppend(VisitedTimes(ChainOf(f, xs[..|xs| - 1])), VisitedTimes(last), prior);
    }
  }

  /** After lowering any gene equation, the shared AT operator's step is the gene delay, -1. */
  lemma GeneEquationStep(e: Expr, a: set<string>, o: set<string>, leaves: map<string, Expr>, prior: int)
    requires GeneEquation(e, a, o, leaves) && (a != {} || o != {})
    requires forall x :: x in leaves.Values ==> VisitedTimes(x) == []
    ensures LastOr(VisitedTimes(e), prior) == GENE_DELAY
  {
    if o != {} {
      var chain := if a != {} then e.right else e;
      var order: seq<string> :| ChainInOrder(chain, OrFactory, order, o, leaves);
      if a != {} {
        ChainStep(OrFactory, order, leaves, LastOr(VisitedTimes(e.left), prior));
        LastOrAppend(VisitedTimes(e.left), VisitedTimes(e.right), prior);
      } else {
        ChainStep(OrFactory, order, leaves, prior);
      }
    } else {
      var order: seq<string> :| ChainInOrder(e, AndFactory, order, a, leaves);
      ChainStep(AndFactory, order, leaves, prior);
    }
  }

  /** Two forward predecessors and no feedback: one AND of the two delayed leaves, in either order. */
  lemma TwoForwardPredecessors(e: Expr, x: string, y: string, leaves: map<string, Expr>)
    requires x != y && x in leaves && y in leaves
    requires GeneEquation(e, {x, y}, {}, leaves)
    ensures e == And(Delayed(leaves[x]), Delayed(leaves[y])) || e == And(Delayed(leaves[y]), Delayed(leaves[x]))
  {
    var order: seq<string> :| ChainInOrder(e, AndFactory, order, {x, y}, leaves);
    EnumerationLength(order, {x, y});
    assert |order| == 2;
    assert order[..1][..0] == [];
    assert order[..1] == [order[0]];
    var xs := DelayedLeaves(order, leaves);
    assert xs == [Delayed(leaves[order[0]]), Delayed(leaves[order[1]])];
    assert xs[..1] == [xs[0]];
    assert ChainOf(AndFactory, xs[..1]) == xs[0];
    assert e == AndFactory.Make(xs[0], xs[1]);
    assert order[0] in {x, y} && order[1] in {x, y} && order[0] != order[1];
  }

  /**
   * `addVectorEquationToGene`: lowers the equation with a fresh adapter visitor (whose logic
   * the adapter does not keep) and renders the rule text attached to the gene.
   */
  method AddVectorEquationToGene(m: GRNBoolModel, eq: Expr) returns (rule: string)
    requires m.Valid()
    modifies m.logicOperators[LOGIC_OP_AT]
    ensures rule == Render(eq)
    ensures m.logicOperators[LOGIC_OP_AT].step == LastOr(VisitedTimes(eq), old(m.logicOperators[LOGIC_OP_AT].step))
  {
    var _ := LowerEquation(m, eq);
    rule := RenderRule(eq);
  }
}
