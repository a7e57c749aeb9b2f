/**
 * Connected components of one sampled world (core/connected_components.cpp):
 * `dfs` labels what a root reaches along sampled edges, and
 * `connected_components` labels every vertex, numbering the components in
 * the order of their smallest vertex.  A label below 0 means "not yet
 * labelled".  The caller's scratch `stack` vector is a local sequence here.
 */
module Components {
  import opened Common
  import opened Graphs

  /** Vertex v is one `dfs` from root labelled: the root, or a vertex unlabelled in c0 and labelled in c. */
  predicate Fresh(c0: seq<int>, c: seq<int>, root: nat, v: nat)
    requires v < |c0| && v < |c|
  {
    v == root || (c0[v] < 0 && c[v] >= 0)
  }

  /** Every usable out-edge of v leads to a labelled vertex. */
  predicate Expanded(g: Graph, m: Mask, c: seq<int>, v: nat)
    requires v < |g.adj|
  {
    forall i :: 0 <= i < |g.adj[v]| && Flagged(m, g.adj[v][i].index) ==>
      g.adj[v][i].target < |c| && c[g.adj[v][i].target] >= 0
  }

  /** The first n usable out-edges of v lead to labelled vertices. */
  predicate ExpandedUpTo(g: Graph, m: Mask, c: seq<int>, v: nat, n: nat)
    requires v < |g.adj| && n <= |g.adj[v]|
  {
    forall i :: 0 <= i < n && Flagged(m, g.adj[v][i].index) ==>
      g.adj[v][i].target < |c| && c[g.adj[v][i].target] >= 0
  }

  function Unlabelled(c: seq<int>): set<nat>
  {
    set v: nat | v < |c| && c[v] < 0
  }

  /**
   * What `dfs(root, id)` guarantees, from labels c0 to labels c: the root
   * gets id, labelled vertices other than the root keep their label, every
   * changed label is id, and every vertex it labelled is reached from the
   * root through vertices unlabelled before the call, and has all its usable
   * neighbours labelled.
   */
  ghost predicate DfsPost(g: Graph, m: Mask, c0: seq<int>, c: seq<int>, root: nat, id: int)
  {
    |c0| == |g.adj| && |c| == |g.adj| && root < |c| && c[root] == id
    && (forall v :: 0 <= v < |c| && v != root && c0[v] >= 0 ==> c[v] == c0[v])
    && (forall v :: 0 <= v < |c| && c[v] != c0[v] ==> c[v] == id)
    && (forall v :: 0 <= v < |c| && Fresh(c0, c, root, v) ==>
          ConnectedWithin(g, m, Unlabelled(c0), root, v) && Expanded(g, m, c, v))
  }

  /**
   * The loop invariant of `dfs`: DfsPost holds except that the vertices on
   * the stack and in `pending` may still have unlabelled neighbours; the
   * stack holds vertices this call labelled.
   */
  ghost predicate DfsState(g: Graph, m: Mask, c0: seq<int>, c: seq<int>, root: nat, id: int,
                           stack: seq<nat>, pending: set<nat>)
  {
    |c0| == |g.adj| && |c| == |g.adj| && root < |c| && c[root] == id && id >= 0
    && (forall v :: 0 <= v < |c| && v != root && c0[v] >= 0 ==> c[v] == c0[v])
    && (forall v :: 0 <= v < |c| && c[v] != c0[v] ==> c[v] == id)
    && (forall k :: 0 <= k < |stack| ==> stack[k] < |c| && Fresh(c0, c, root, stack[k]))
    && (forall v :: 0 <= v < |c| && Fresh(c0, c, root, v) ==> ConnectedWithin(g, m, Unlabelled(c0), root, v))
    && (forall v :: 0 <= v < |c| && Fresh(c0, c, root, v) && v !in stack && v !in pending ==> Expanded(g, m, c, v))
  }

  lemma DfsStart(g: Graph, m: Mask, c0: seq<int>, root: nat, id: int)
    requires |c0| == |g.adj| && root < |c0| && id >= 0
    ensures DfsState(g, m, c0, c0[root := id], root, id, [root], {})
  {
    ConnectedWithinSelf(g, m, Unlabelled(c0), root);
  }

  /** Popping u off the stack leaves it pending until its edges are scanned. */
  lemma DfsPop(g: Graph, m: Mask, c0: seq<int>, c: seq<int>, root: nat, id: int, stack: seq<nat>)
    requires DfsState(g, m, c0, c, root, id, stack, {}) && |stack| > 0
    ensures var u := stack[|stack| - 1];
            u < |c| && Fresh(c0, c, root, u) && DfsState(g, m, c0, c, root, id, stack[..|stack| - 1], {u})
  {
    var init := stack[..|stack| - 1];
    assert forall k :: 0 <= k < |init| ==> init[k] == stack[k];
    assert forall v :: v in stack ==> v in init || v == stack[|stack| - 1];
  }

  /** Labelling the unlabelled target t of a usable edge of u with id and pushing it. */
  lemma DfsLabel(g: Graph, m: Mask, c0: seq<int>, c: seq<int>, root: nat, id: int, stack: seq<nat>, u: nat, i: nat)
    requires WellFormed(g, m) && DfsState(g, m, c0, c, root, id, stack, {u})
    requires u < |c| && Fresh(c0, c, root, u) && i < |g.adj[u]| && Flagged(m, g.adj[u][i].index)
    requires c[g.adj[u][i].target] < 0
    requires ExpandedUpTo(g, m, c, u, i)
    ensures var t := g.adj[u][i].target;
            var c' := c[t := id];
            DfsState(g, m, c0, c', root, id, stack + [t], {u}) && ExpandedUpTo(g, m, c', u, i + 1)
            && Unlabelled(c') == Unlabelled(c) - {t} && t in Unlabelled(c)
  {
    var t := g.adj[u][i].target;
    var c' := c[t := id];
    assert Step(g, m, u, t);
    assert t != root;
    assert c0[t] < 0;
    assert t in Unlabelled(c0);
    ConnectedWithinStep(g, m, Unlabelled(c0), root, u, t);
    UnlabelledShrinks(c, t, id);
    assert forall v :: v in stack + [t] ==> v in stack || v == t;
    forall v | 0 <= v < |c'| && Fresh(c0, c', root, v) && v !in stack + [t] && v != u
      ensures Expanded(g, m, c', v)
    {
      assert Fresh(c0, c, root, v);
    }
  }

  /** Labelling an unlabelled vertex removes exactly it from the unlabelled ones. */
  lemma UnlabelledShrinks(c: seq<int>, t: nat, id: int)
    requires t < |c| && c[t] < 0 && id >= 0
    ensures Unlabelled(c[t := id]) == Unlabelled(c) - {t} && t in Unlabelled(c)
  {
  }

  /** Scanning edge i of u without labelling. */
  lemma DfsSkip(g: Graph, m: Mask, c: seq<int>, u: nat, i: nat)
    requires u < |g.adj| && i < |g.adj[u]| && ExpandedUpTo(g, m, c, u, i)
    requires Flagged(m, g.adj[u][i].index) ==> g.adj[u][i].target < |c| && c[g.adj[u][i].target] >= 0
    ensures ExpandedUpTo(g, m, c, u, i + 1)
  {
  }

  /** With all its edges scanned, u is no longer pending. */
  lemma DfsExpanded(g: Graph, m: Mask, c0: seq<int>, c: seq<int>, root: nat, id: int, stack: seq<nat>, u: nat)
    requires DfsState(g, m, c0, c, root, id, stack, {u}) && u < |g.adj| && ExpandedUpTo(g, m, c, u, |g.adj[u]|)
    ensures DfsState(g, m, c0, c, root, id, stack, {})
  {
  }

  lemma DfsFinish(g: Graph, m: Mask, c0: seq<int>, c: seq<int>, root: nat, id: int)
    requires DfsState(g, m, c0, c, root, id, [], {})
    ensures DfsPost(g, m, c0, c, root, id)
  {
  }

  /** The scan of the out-edges of u: each usable edge to an unlabelled vertex labels and pushes it. */
  method ScanEdges(g: Graph, smpl: seq<bool>, comp: array<int>, stack: seq<nat>, u: nat, id: int,
                   ghost c0: seq<int>, ghost root: nat)
    returns (stack': seq<nat>)
    requires WellFormed(g, Sample(smpl)) && comp.Length == |g.adj| && u < |g.adj|
    requires DfsState(g, Sample(smpl), c0, comp[..], root, id, stack, {u}) && Fresh(c0, comp[..], root, u)
    modifies comp
    ensures DfsState(g, Sample(smpl), c0, comp[..], root, id, stack', {})
    ensures Unlabelled(comp[..]) <= Unlabelled(old(comp[..]))
    ensures Unlabelled(comp[..]) == Unlabelled(old(comp[..])) ==> stack' == stack
  {
    ghost var m := Sample(smpl);
    ghost var start := comp[..];
    stack' := stack;
    for i := 0 to |g.adj[u]|
      invariant DfsState(g, m, c0, comp[..], root, id, stack', {u}) && Fresh(c0, comp[..], root, u)
      invariant ExpandedUpTo(g, m, comp[..], u, i)
      invariant Unlabelled(comp[..]) <= Unlabelled(start)
      invariant Unlabelled(comp[..]) == Unlabelled(start) ==> stack' == stack
    {
      var e := g.adj[u][i];
      if smpl[e.index] && comp[e.target] < 0 {
        ghost var c := comp[..];
        DfsLabel(g, m, c0, c, root, id, stack', u, i);
        comp[e.target] := id;
        assert comp[..] == c[e.target := id];
        stack' := stack' + [e.target];
      } else {
        DfsSkip(g, m, comp[..], u, i);
      }
    }
    DfsExpanded(g, m, c0, comp[..], root, id, stack', u);
  }

  /** `dfs`: label with id the root and everything it reaches through unlabelled vertices. */
  method Dfs(g: Graph, smpl: seq<bool>, comp: array<int>, root: nat, id: int)
    requires WellFormed(g, Sample(smpl)) && comp.Length == |g.adj| && root < |g.adj| && id >= 0
    modifies comp
    ensures DfsPost(g, Sample(smpl), old(comp[..]), comp[..], root, id)
  {
    ghost var m := Sample(smpl);
    ghost var c0 := comp[..];
    var stack: seq<nat> := [root];
    comp[root] := id;
    DfsStart(g, m, c0, root, id);
    assert comp[..] == c0[root := id];
    while stack != []
      invariant DfsState(g, m, c0, comp[..], root, id, stack, {})
      decreases Unlabelled(comp[..]), |stack|
    {
      var u := stack[|stack| - 1];
      DfsPop(g, m, c0, comp[..], root, id, stack);
      stack := stack[..|stack| - 1];
      stack := ScanEdges(g, smpl, comp, stack, u, id, c0, root);
    }
    DfsFinish(g, m, c0, comp[..], root, id);
  }

  /**
   * After `dfs`, the root and every vertex reachable from it along a walk
   * whose other vertices were unlabelled carry the label id.
   */
  lemma {:induction false} DfsReaches(g: Graph, m: Mask, c0: seq<int>, c: seq<int>, root: nat, id: int, p: seq<nat>)
    requires WellFormed(g, m) && DfsPost(g, m, c0, c, root, id) && id >= 0
    requires IsPath(g, m, p) && p[0] == root
    requires forall k :: 1 <= k < |p| ==> p[k] < |c0| && c0[p[k]] < 0
    ensures p[|p| - 1] < |c| && c[p[|p| - 1]] == id && Fresh(c0, c, root, p[|p| - 1])
  {
    if |p| > 1 {
      PathPrefix(g, m, p, |p| - 1);
      var init := p[..|p| - 1];
      DfsReaches(g, m, c0, c, root, id, init);
      var u := p[|p| - 2];
      var t := p[|p| - 1];
      assert init[|init| - 1] == u;
      assert Step(g, m, u, t);
      var i :| 0 <= i < |g.adj[u]| && g.adj[u][i].target == t && Flagged(m, g.adj[u][i].index);
      assert Expanded(g, m, c, u);
      assert c[t] >= 0 && c0[t] < 0;
    }
  }

  // ---------------------------------------------------------------------------
  // connected_components

  /** Labelled vertices pass their label along every usable edge. */
  ghost predicate LabelClosed(g: Graph, m: Mask, c: seq<int>)
  {
    forall v, i :: 0 <= v < |g.adj| && 0 <= i < |g.adj[v]| && v < |c| && c[v] >= 0 && Flagged(m, g.adj[v][i].index)
      ==> g.adj[v][i].target < |c| && c[g.adj[v][i].target] == c[v]
  }

  /**
   * The invariant of the vertex loop after the vertices below r: they are
   * labelled; labels run from -1 to |roots| - 1; component j has root
   * roots[j] < r, its smallest vertex, from which all its vertices are
   * reached; the roots increase; labels are closed under usable edges.
   */
  ghost predicate Labelling(g: Graph, m: Mask, c: seq<int>, roots: seq<nat>, r: nat)
  {
    |c| == |g.adj| && r <= |c|
    && (forall v :: 0 <= v < |c| ==> -1 <= c[v] < |roots|)
    && (forall v :: 0 <= v < r ==> c[v] >= 0)
    && (forall j :: 0 <= j < |roots| ==> roots[j] < r && c[roots[j]] == j)
    && (forall v :: 0 <= v < |c| && c[v] >= 0 ==> roots[c[v]] <= v && Connected(g, m, roots[c[v]], v))
    && (forall i, j :: 0 <= i < j < |roots| ==> roots[i] < roots[j])
    && LabelClosed(g, m, c)
  }

  /** Skipping a labelled vertex r. */
  lemma LabellingSkip(g: Graph, m: Mask, c: seq<int>, roots: seq<nat>, r: nat)
    requires Labelling(g, m, c, roots, r) && r < |c| && c[r] >= 0
    ensures Labelling(g, m, c, roots, r + 1)
  {
  }

  /** `dfs` from the unlabelled vertex r with the next id opens a new component rooted at r. */
  lemma LabellingDfs(g: Graph, m: Mask, c: seq<int>, roots: seq<nat>, r: nat, c': seq<int>)
    requires WellFormed(g, m) && Undirected(g)
    requires Labelling(g, m, c, roots, r) && r < |c| && c[r] < 0
    requires DfsPost(g, m, c, c', r, |roots|)
    ensures Labelling(g, m, c', roots + [r], r + 1)
  {
    var id := |roots|;
    var roots' := roots + [r];
    forall v | 0 <= v < |c'|
      ensures -1 <= c'[v] < |roots'|
    {
      if c'[v] != c[v] {
        assert c'[v] == id;
      }
    }
    forall v | 0 <= v < |c'| && c'[v] >= 0
      ensures roots'[c'[v]] <= v && Connected(g, m, roots'[c'[v]], v)
    {
      if c[v] < 0 {
        assert Fresh(c, c', r, v);
        assert c'[v] == id;
        ConnectedWithinConnected(g, m, Unlabelled(c), r, v);
      } else {
        assert v != r && c'[v] == c[v];
        assert roots'[c[v]] == roots[c[v]];
      }
    }
    forall j | 0 <= j < |roots'|
      ensures roots'[j] < r + 1 && c'[roots'[j]] == j
    {
      if j < |roots| {
        assert roots'[j] == roots[j] && c[roots[j]] == j;
      }
    }
    forall v, i | 0 <= v < |g.adj| && 0 <= i < |g.adj[v]| && c'[v] >= 0 && Flagged(m, g.adj[v][i].index)
      ensures g.adj[v][i].target < |c'| && c'[g.adj[v][i].target] == c'[v]
    {
      var t := g.adj[v][i].target;
      if c[v] >= 0 {
        assert v != r;
        assert c[t] == c[v];
        assert t != r;
      } else {
        assert Fresh(c, c', r, v) && Expanded(g, m, c', v);
        assert c'[t] >= 0;
        assert Fresh(c, c', r, t);
      }
    }
  }

  /**
   * Along a walk of usable edges a closed labelling keeps its label.
   */
  lemma {:induction false} LabelAlongPath(g: Graph, m: Mask, c: seq<int>, p: seq<nat>)
    requires WellFormed(g, m) && |c| == |g.adj| && LabelClosed(g, m, c)
    requires IsPath(g, m, p) && p[0] < |c| && c[p[0]] >= 0
    ensures p[|p| - 1] < |c| && c[p[|p| - 1]] == c[p[0]]
  {
    if |p| > 1 {
      PathPrefix(g, m, p, |p| - 1);
      var init := p[..|p| - 1];
      LabelAlongPath(g, m, c, init);
      var u := p[|p| - 2];
      assert init[|init| - 1] == u;
      assert Step(g, m, u, p[|p| - 1]);
      var i :| 0 <= i < |g.adj[u]| && g.adj[u][i].target == p[|p| - 1] && Flagged(m, g.adj[u][i].index);
    }
  }

  /**
   * When every vertex is labelled: labels are exactly 0..|roots| - 1, and two
   * vertices share a label exactly when a walk of usable edges joins them.
   */
  lemma LabellingDone(g: Graph, m: Mask, c: seq<int>, roots: seq<nat>)
    requires WellFormed(g, m) && Undirected(g) && Labelling(g, m, c, roots, |c|)
    ensures forall v :: 0 <= v < |c| ==> 0 <= c[v] < |roots|
    ensures forall j :: 0 <= j < |roots| ==> roots[j] < |c| && c[roots[j]] == j
    ensures forall j, v :: 0 <= j < |roots| && 0 <= v < |c| && c[v] == j ==> roots[j] <= v
    ensures forall i, j :: 0 <= i < j < |roots| ==> roots[i] < roots[j]
    ensures forall v, w :: 0 <= v < |c| && 0 <= w < |c| ==> (c[v] == c[w] <==> Connected(g, m, v, w))
  {
    forall v, w | 0 <= v < |c| && 0 <= w < |c|
      ensures c[v] == c[w] <==> Connected(g, m, v, w)
    {
      if c[v] == c[w] {
        var x := roots[c[v]];
        ConnectedSymmetric(g, m, x, v);
        ConnectedTransitive(g, m, v, x, w);
      }
      if Connected(g, m, v, w) {
        var p :| IsPath(g, m, p) && p[0] == v && p[|p| - 1] == w;
        LabelAlongPath(g, m, c, p);
      }
    }
  }

  /**
   * `connected_components`: every entry set to -1, then a `dfs` with the
   * next id from each vertex still unlabelled, in vertex order.  `roots`
   * lists the vertex each component was started from.
   */
  method ConnectedComponents(g: Graph, smpl: seq<bool>, comp: array<int>) returns (ghost roots: seq<nat>)
    requires WellFormed(g, Sample(smpl)) && Undirected(g) && comp.Length == |g.adj|
    modifies comp
    ensures forall v :: 0 <= v < comp.Length ==> 0 <= comp[v] < |roots|
    ensures forall j :: 0 <= j < |roots| ==> roots[j] < comp.Length && comp[roots[j]] == j
    ensures forall j, v :: 0 <= j < |roots| && 0 <= v < comp.Length && comp[v] == j ==> roots[j] <= v
    ensures forall i, j :: 0 <= i < j < |roots| ==> roots[i] < roots[j]
    ensures forall v, w :: 0 <= v < comp.Length && 0 <= w < comp.Length ==>
              (comp[v] == comp[w] <==> Connected(g, Sample(smpl), v, w))
  {
    ClearComponents(comp);
    roots := LabelComponents(g, smpl, comp);
    LabellingDone(g, Sample(smpl), comp[..], roots);
  }

  /** Every entry set to -1: no vertex labelled yet. */
  method ClearComponents(comp: array<int>)
    modifies comp
    ensures forall j :: 0 <= j < comp.Length ==> comp[j] == -1
  {
    for i := 0 to comp.Length
      invariant forall j :: 0 <= j < i ==> comp[j] == -1
    {
      comp[i] := -1;
    }
  }

  /** The loop of `connected_components`: a `dfs` from every vertex still unlabelled, in order. */
  method LabelComponents(g: Graph, smpl: seq<bool>, comp: array<int>) returns (ghost roots: seq<nat>)
    requires WellFormed(g, Sample(smpl)) && Undirected(g) && comp.Length == |g.adj|
    requires forall j :: 0 <= j < comp.Length ==> comp[j] == -1
    modifies comp
    ensures Labelling(g, Sample(smpl), comp[..], roots, comp.Length)
  {
    ghost var m := Sample(smpl);
    roots := [];
    var componentId := 0;
    for r := 0 to comp.Length
      invariant componentId == |roots|
      invariant Labelling(g, m, comp[..], roots, r)
    {
      if comp[r] < 0 {
        ghost var c := comp[..];
        Dfs(g, smpl, comp, r, componentId);
        LabellingDfs(g, m, c, roots, r, comp[..]);
        roots := roots + [r];
        componentId := componentId + 1;
      } else {
        LabellingSkip(g, m, comp[..], roots, r);
      }
    }
  }
}
