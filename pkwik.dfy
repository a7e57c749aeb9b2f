/**
 * The pKwik pivot clustering baseline (scripts/pkwik.py).  Edges below
 * probability 0.5 are dropped; then, while nodes remain, a random root is
 * chosen and the root with its remaining neighbours becomes a cluster that
 * is removed from the graph.
 */
module PKwik {
  import opened Common
  import opened Text

  /** An input edge as read from the edge list: two endpoints and a probability. */
  type WeightedEdge = (string, string, real)

  const Threshold: real := 0.5

  /** The edges kept for clustering, in input order. */
  function SurvivingEdges(edges: seq<WeightedEdge>): (es: seq<(string, string)>)
    ensures forall u, v :: (u, v) in es <==> exists p :: (u, v, p) in edges && p >= Threshold
  {
    if edges == [] then []
    else
      var rest := SurvivingEdges(edges[..|edges| - 1]);
      var e := edges[|edges| - 1];
      assert forall x :: x in edges <==> x in edges[..|edges| - 1] || x == e;
      if e.2 >= Threshold then rest + [(e.0, e.1)] else rest
  }

  /** The nodes of the graph built from a list of edges: exactly their endpoints. */
  function EdgeNodes(es: seq<(string, string)>): set<string>
  {
    (set e | e in es :: e.0) + (set e | e in es :: e.1)
  }

  predicate Adjacent(es: seq<(string, string)>, u: string, v: string)
  {
    (u, v) in es || (v, u) in es
  }

  /** `G[r]` in the residual graph whose node set is `residual` (r itself on a self-loop). */
  function Neighbours(es: seq<(string, string)>, r: string, residual: set<string>): set<string>
  {
    set v | v in residual && Adjacent(es, r, v)
  }

  /** The vertices of the clusters emitted so far. */
  function Covered(cs: seq<seq<string>>): set<string>
  {
    if cs == [] then {} else Covered(cs[..|cs| - 1]) + Elems(cs[|cs| - 1])
  }

  /** One iteration: a root of the residual graph followed by its residual neighbours. */
  predicate PivotStep(es: seq<(string, string)>, residual: set<string>, c: seq<string>)
  {
    |c| >= 1 && c[0] in residual && NoDup(c[1..]) && Elems(c[1..]) == Neighbours(es, c[0], residual)
  }

  /** cs is a run of the pivot loop on the graph (nodes, es), up to the choice of roots and neighbour order. */
  predicate PivotRun(nodes: set<string>, es: seq<(string, string)>, cs: seq<seq<string>>)
  {
    (forall i :: 0 <= i < |cs| ==> PivotStep(es, nodes - Covered(cs[..i]), cs[i]))
    && nodes - Covered(cs) == {}
  }

  /** `pKwikCluster`: the surviving edges' graph, clustered by the pivot loop. */
  method PKwikCluster(edges: seq<WeightedEdge>) returns (clusters: seq<seq<string>>)
    ensures PivotRun(EdgeNodes(SurvivingEdges(edges)), SurvivingEdges(edges), clusters)
  {
    var es := SurvivingEdges(edges);
    clusters := PivotLoop(EdgeNodes(es), es);
  }

  /** The loop of `pKwikCluster`; `random.choice` is an arbitrary choice among the remaining nodes. */
  method PivotLoop(nodes: set<string>, es: seq<(string, string)>) returns (clusters: seq<seq<string>>)
    ensures PivotRun(nodes, es, clusters)
  {
    var residual := nodes;
    clusters := [];
    while |residual| > 0
      invariant residual == nodes - Covered(clusters)
      invariant forall i :: 0 <= i < |clusters| ==> PivotStep(es, nodes - Covered(clusters[..i]), clusters[i])
      decreases |residual|
    {
      var root :| root in residual;
      var star := Enumerate(Neighbours(es, root, residual));
      var cluster := [root] + star;
      assert cluster[1..] == star;
      PivotAppend(nodes, es, clusters, cluster);
      clusters := clusters + [cluster];
      residual := residual - Elems(cluster);
      assert root in Elems(cluster);
    }
    assert clusters[..|clusters|] == clusters;
  }

  /** Appending a pivot step of the residual graph extends the run. */
  lemma PivotAppend(nodes: set<string>, es: seq<(string, string)>, cs: seq<seq<string>>, c: seq<string>)
    requires forall i :: 0 <= i < |cs| ==> PivotStep(es, nodes - Covered(cs[..i]), cs[i])
    requires PivotStep(es, nodes - Covered(cs), c)
    ensures forall i :: 0 <= i < |cs| + 1 ==> PivotStep(es, nodes - Covered((cs + [c])[..i]), (cs + [c])[i])
    ensures Covered(cs + [c]) == Covered(cs) + Elems(c)
  {
    var cs' := cs + [c];
    assert cs'[..|cs|] == cs;
    forall i | 0 <= i < |cs| + 1
      ensures PivotStep(es, nodes - Covered(cs'[..i]), cs'[i])
    {
      if i < |cs| {
        assert cs'[..i] == cs[..i];
      }
    }
    assert cs'[..|cs'| - 1] == cs;
  }

  // ---------------------------------------------------------------------------
  // Properties of a pivot run.

  /** A cluster lies within the residual graph it was taken from, and holds its root. */
  lemma StepWithinResidual(es: seq<(string, string)>, residual: set<string>, c: seq<string>)
    requires PivotStep(es, residual, c)
    ensures c[0] in Elems(c) && Elems(c) <= residual
  {
    assert c == [c[0]] + c[1..];
    assert Elems(c) == {c[0]} + Elems(c[1..]);
  }

  /** Each earlier cluster is part of what has been covered. */
  lemma {:induction false} CoveredContains(cs: seq<seq<string>>, i: nat, j: nat)
    requires i < j <= |cs|
    ensures Elems(cs[i]) <= Covered(cs[..j])
    decreases j
  {
    assert cs[..j][..j - 1] == cs[..j - 1];
    if i < j - 1 {
      CoveredContains(cs, i, j - 1);
    }
  }

  /** What has been covered lies within the nodes, and each iteration removes at least one node. */
  lemma {:induction false} CoveredPrefix(nodes: set<string>, es: seq<(string, string)>, cs: seq<seq<string>>, j: nat)
    requires forall i :: 0 <= i < |cs| ==> PivotStep(es, nodes - Covered(cs[..i]), cs[i])
    requires j <= |cs|
    ensures Covered(cs[..j]) <= nodes
    ensures |nodes - Covered(cs[..j])| <= |nodes| - j
  {
    if j > 0 {
      CoveredPrefix(nodes, es, cs, j - 1);
      var c := cs[j - 1];
      assert PivotStep(es, nodes - Covered(cs[..j - 1]), c);
      assert cs[..j][..j - 1] == cs[..j - 1];
      assert Covered(cs[..j]) == Covered(cs[..j - 1]) + Elems(c);
      CoverGrows(nodes, es, Covered(cs[..j - 1]), c);
    }
  }

  /** A pivot step covers at least one more node, and only nodes. */
  lemma CoverGrows(nodes: set<string>, es: seq<(string, string)>, covered: set<string>, c: seq<string>)
    requires PivotStep(es, nodes - covered, c)
    ensures |nodes - (covered + Elems(c))| <= |nodes - covered| - 1
    ensures covered <= nodes ==> covered + Elems(c) <= nodes
  {
    var before := nodes - covered;
    StepWithinResidual(es, before, c);
    var after := nodes - (covered + Elems(c));
    assert after <= before - {c[0]} by {
      forall x | x in after
        ensures x in before - {c[0]}
      {
        assert x !in Elems(c);
      }
    }
    SubsetCard(after, before - {c[0]});
  }

  /**
   * The clusters of a run partition the surviving nodes: they are pairwise
   * disjoint, their union is the node set, and there are at most as many
   * clusters as nodes.
   */
  lemma PivotRunPartitions(nodes: set<string>, es: seq<(string, string)>, cs: seq<seq<string>>)
    requires PivotRun(nodes, es, cs)
    ensures forall i, j :: 0 <= i < j < |cs| ==> Elems(cs[i]) * Elems(cs[j]) == {}
    ensures Covered(cs) == nodes
    ensures |cs| <= |nodes|
    ensures forall i :: 0 <= i < |cs| ==> |cs[i]| >= 1
  {
    assert cs[..|cs|] == cs;
    CoveredPrefix(nodes, es, cs, |cs|);
    forall i, j | 0 <= i < j < |cs|
      ensures Elems(cs[i]) * Elems(cs[j]) == {}
    {
      CoveredContains(cs, i, j);
      assert PivotStep(es, nodes - Covered(cs[..j]), cs[j]);
      StepWithinResidual(es, nodes - Covered(cs[..j]), cs[j]);
    }
  }

  /** A node with no surviving edge is in no cluster. */
  lemma UnkeptNodeIsUnclustered(edges: seq<WeightedEdge>, cs: seq<seq<string>>, x: string)
    requires PivotRun(EdgeNodes(SurvivingEdges(edges)), SurvivingEdges(edges), cs)
    requires forall u, v, p :: (u, v, p) in edges && (u == x || v == x) ==> p < Threshold
    ensures forall i :: 0 <= i < |cs| ==> x !in cs[i]
  {
    var es := SurvivingEdges(edges);
    var nodes := EdgeNodes(es);
    assert x !in nodes;
    PivotRunPartitions(nodes, es, cs);
    forall i | 0 <= i < |cs|
      ensures x !in cs[i]
    {
      CoveredContains(cs, i, |cs|);
      assert cs[..|cs|] == cs;
      assert x !in Elems(cs[i]);
    }
  }

  // ---------------------------------------------------------------------------
  // Output.

  function Length(c: seq<string>): nat
  {
    |c|
  }

  /**
   * The printed output: the clusters by non-increasing size (ties keep
   * emission order, by `Common.SortDescStable`), each joined with single spaces.
   */
  method PrintedClusters(clusters: seq<seq<string>>) returns (sorted: seq<seq<string>>, lines: seq<string>)
    ensures SortedDesc(sorted, Length)
    ensures multiset(sorted) == multiset(clusters)
    ensures forall n :: OfSize(sorted, Length, n) == OfSize(clusters, Length, n)
    ensures |lines| == |sorted|
    ensures forall i :: 0 <= i < |lines| ==> lines[i] == Join(sorted[i], ' ')
  {
    sorted := SortDesc(clusters, Length);
    SortDescCorrect(clusters, Length);
    SortDescStableAll(clusters, Length);
    lines := [];
    for i := 0 to |sorted|
      invariant |lines| == i
      invariant forall k :: 0 <= k < i ==> lines[k] == Join(sorted[k], ' ')
    {
      lines := lines + [Join(sorted[i], ' ')];
    }
  }
}
