/**
 * The helpers of the concurrent clustering (core/concurrent_clustering.hpp)
 * that the rest of that file builds on: the connection-probability map
 * keyed by unordered vertex pairs, and `mark_reachable`, which flags what a
 * root reaches over all edges of the graph.
 */
module ConnectionMap {
  import opened Graphs

  /** The key of the unordered pair {u, v}: the smaller vertex first. */
  function Key(u: nat, v: nat): (k: (nat, nat))
    ensures k == (u, v) || k == (v, u)
    ensures k.0 <= k.1
  {
    if u < v then (u, v) else (v, u)
  }

  /** Both orders of a pair share one key, and distinct unordered pairs have distinct keys. */
  lemma KeySymmetric(u: nat, v: nat, x: nat, y: nat)
    ensures Key(u, v) == Key(v, u)
    ensures Key(u, v) == Key(x, y) <==> (u == x && v == y) || (u == y && v == x)
  {
  }

  /** `pairwise_prob_conn_t`: the map from pair keys to connection probabilities. */
  class PairwiseProbConn {
    var pmap: map<(nat, nat), real>

    /** Every key has its smaller vertex first. */
    ghost predicate Valid()
      reads this
    {
      forall k :: k in pmap ==> k.0 <= k.1
    }

    constructor ()
      ensures Valid() && pmap == map[]
    {
      pmap := map[];
    }

    /** `connection_map_put` */
    method Put(u: nat, v: nat, p: real)
      requires Valid()
      modifies this
      ensures Valid()
      ensures pmap == old(pmap)[Key(u, v) := p]
    {
      pmap := pmap[Key(u, v) := p];
    }

    /** `connection_map_get`: `operator[]` inserts 0.0 for an absent pair before reading it. */
    method Get(u: nat, v: nat) returns (p: real)
      requires Valid()
      modifies this
      ensures Valid()
      ensures Key(u, v) in old(pmap) ==> p == old(pmap)[Key(u, v)] && pmap == old(pmap)
      ensures Key(u, v) !in old(pmap) ==> p == 0.0 && pmap == old(pmap)[Key(u, v) := 0.0]
    {
      var key := Key(u, v);
      if key !in pmap {
        pmap := pmap[key := 0.0];
      }
      p := pmap[key];
    }

    /** `connection_map_contains`: the pair is stored in one of its two orders. */
    function Contains(u: nat, v: nat): (b: bool)
      requires Valid()
      reads this
      ensures b <==> (u, v) in pmap || (v, u) in pmap
    {
      Key(u, v) in pmap
    }
  }

  /** A probability put for (u, v) is read back for (u, v) and for (v, u), and the pair is then contained. */
  method PutThenGet(u: nat, v: nat, p: real) returns (forward: real, backward: real)
    ensures forward == p && backward == p
  {
    var conn := new PairwiseProbConn();
    conn.Put(u, v, p);
    assert conn.Contains(v, u);
    forward := conn.Get(u, v);
    backward := conn.Get(v, u);
  }

  /** Reading an absent pair stores 0.0 for it: afterwards the pair is contained. */
  method GetInserts(u: nat, v: nat) returns (p: real, contained: bool)
    ensures p == 0.0 && contained
  {
    var conn := new PairwiseProbConn();
    p := conn.Get(v, u);
    contained := conn.Contains(u, v);
  }

  // ---------------------------------------------------------------------------
  // mark_reachable

  /** Vertex v is one the call flagged: the root, or a vertex unflagged in f0 and flagged in f. */
  predicate Marked(f0: seq<bool>, f: seq<bool>, root: nat, v: nat)
    requires v < |f0| && v < |f|
  {
    v == root || (!f0[v] && f[v])
  }

  /** The first n out-neighbours of v are flagged. */
  predicate NeighboursFlagged(g: Graph, f: seq<bool>, v: nat, n: nat)
    requires v < |g.adj| && n <= |g.adj[v]|
  {
    forall i :: 0 <= i < n ==> g.adj[v][i].target < |f| && f[g.adj[v][i].target]
  }

  /** Every flagged vertex has all its out-neighbours flagged. */
  predicate FlagsClosed(g: Graph, f: seq<bool>)
  {
    forall v :: 0 <= v < |g.adj| && v < |f| && f[v] ==> NeighboursFlagged(g, f, v, |g.adj[v]|)
  }

  /**
   * What `mark_reachable` guarantees, from flags f0 to flags f: the root is
   * flagged, no flag is cleared, and each vertex it flagged is reached from
   * the root through vertices unflagged before the call, and has all its
   * out-neighbours flagged.
   */
  ghost predicate MarkPost(g: Graph, f0: seq<bool>, f: seq<bool>, root: nat)
  {
    |f0| == |g.adj| && |f| == |g.adj| && root < |f| && f[root]
    && (forall v :: 0 <= v < |f| && f0[v] ==> f[v])
    && (forall v :: 0 <= v < |f| && Marked(f0, f, root, v) ==>
          ConnectedWithin(g, AllEdges, Unflagged(f0), root, v) && NeighboursFlagged(g, f, v, |g.adj[v]|))
  }

  /** The loop invariant of `mark_reachable`: MarkPost except for the vertices on the stack and in `pending`. */
  ghost predicate MarkState(g: Graph, f0: seq<bool>, f: seq<bool>, root: nat, stack: seq<nat>, pending: set<nat>)
  {
    |f0| == |g.adj| && |f| == |g.adj| && root < |f| && f[root]
    && (forall v :: 0 <= v < |f| && f0[v] ==> f[v])
    && (forall k :: 0 <= k < |stack| ==> stack[k] < |f| && Marked(f0, f, root, stack[k]))
    && (forall v :: 0 <= v < |f| && Marked(f0, f, root, v) ==> ConnectedWithin(g, AllEdges, Unflagged(f0), root, v))
    && (forall v :: 0 <= v < |f| && Marked(f0, f, root, v) && v !in stack && v !in pending ==>
          NeighboursFlagged(g, f, v, |g.adj[v]|))
  }

  function Unflagged(f: seq<bool>): set<nat>
  {
    set v: nat | v < |f| && !f[v]
  }

  lemma MarkStart(g: Graph, f0: seq<bool>, root: nat)
    requires |f0| == |g.adj| && root < |f0|
    ensures MarkState(g, f0, f0[root := true], root, [root], {})
  {
    ConnectedWithinSelf(g, AllEdges, Unflagged(f0), root);
  }

  lemma MarkPop(g: Graph, f0: seq<bool>, f: seq<bool>, root: nat, stack: seq<nat>)
    requires MarkState(g, f0, f, root, stack, {}) && |stack| > 0
    ensures var v := stack[|stack| - 1];
            v < |f| && Marked(f0, f, root, v) && MarkState(g, f0, f, root, stack[..|stack| - 1], {v})
  {
    var init := stack[..|stack| - 1];
    assert forall k :: 0 <= k < |init| ==> init[k] == stack[k];
    assert forall w :: w in stack ==> w in init || w == stack[|stack| - 1];
  }

  /** Flagging the unflagged out-neighbour u = target of edge i of v, and pushing it. */
  lemma MarkFlag(g: Graph, f0: seq<bool>, f: seq<bool>, root: nat, stack: seq<nat>, v: nat, i: nat)
    requires WellFormed(g, AllEdges) && MarkState(g, f0, f, root, stack, {v})
    requires v < |f| && Marked(f0, f, root, v) && i < |g.adj[v]| && !f[g.adj[v][i].target]
    requires NeighboursFlagged(g, f, v, i)
    ensures var u := g.adj[v][i].target;
            var f' := f[u := true];
            MarkState(g, f0, f', root, stack + [u], {v}) && NeighboursFlagged(g, f', v, i + 1)
            && Unflagged(f') == Unflagged(f) - {u} && u in Unflagged(f)
  {
    var u := g.adj[v][i].target;
    var f' := f[u := true];
    assert Step(g, AllEdges, v, u);
    assert u != root;
    assert !f0[u];
    assert u in Unflagged(f0);
    ConnectedWithinStep(g, AllEdges, Unflagged(f0), root, v, u);
    assert forall w :: w in stack + [u] ==> w in stack || w == u;
    forall w | 0 <= w < |f'| && Marked(f0, f', root, w) && w !in stack + [u] && w != v
      ensures NeighboursFlagged(g, f', w, |g.adj[w]|)
    {
      assert Marked(f0, f, root, w);
    }
  }

  lemma MarkExpanded(g: Graph, f0: seq<bool>, f: seq<bool>, root: nat, stack: seq<nat>, v: nat)
    requires MarkState(g, f0, f, root, stack, {v}) && v < |g.adj| && NeighboursFlagged(g, f, v, |g.adj[v]|)
    ensures MarkState(g, f0, f, root, stack, {})
  {
  }

  /** The scan of the out-edges of v: each unflagged neighbour is flagged and pushed. */
  method MarkNeighbours(g: Graph, flags: array<bool>, stack: seq<nat>, v: nat, ghost f0: seq<bool>, ghost root: nat)
    returns (stack': seq<nat>)
    requires WellFormed(g, AllEdges) && flags.Length == |g.adj| && v < |g.adj|
    requires MarkState(g, f0, flags[..], root, stack, {v}) && Marked(f0, flags[..], root, v)
    modifies flags
    ensures MarkState(g, f0, flags[..], root, stack', {})
    ensures Unflagged(flags[..]) <= Unflagged(old(flags[..]))
    ensures Unflagged(flags[..]) == Unflagged(old(flags[..])) ==> stack' == stack
  {
    ghost var start := flags[..];
    stack' := stack;
    for i := 0 to |g.adj[v]|
      invariant MarkState(g, f0, flags[..], root, stack', {v}) && Marked(f0, flags[..], root, v)
      invariant NeighboursFlagged(g, flags[..], v, i)
      invariant Unflagged(flags[..]) <= Unflagged(start)
      invariant Unflagged(flags[..]) == Unflagged(start) ==> stack' == stack
    {
      var u := g.adj[v][i].target;
      if !flags[u] {
        ghost var f := flags[..];
        MarkFlag(g, f0, f, root, stack', v, i);
        flags[u] := true;
        assert flags[..] == f[u := true];
        stack' := stack' + [u];
      }
    }
    MarkExpanded(g, f0, flags[..], root, stack', v);
  }

  /** `mark_reachable`; the stack is the function's own copy. */
  method MarkReachable(g: Graph, root: nat, flags: array<bool>)
    requires WellFormed(g, AllEdges) && root < |g.adj| && flags.Length == |g.adj|
    modifies flags
    ensures MarkPost(g, old(flags[..]), flags[..], root)
  {
    ghost var f0 := flags[..];
    var stack: seq<nat> := [root];
    flags[root] := true;
    MarkStart(g, f0, root);
    assert flags[..] == f0[root := true];
    while stack != []
      invariant MarkState(g, f0, flags[..], root, stack, {})
      decreases Unflagged(flags[..]), |stack|
    {
      var v := stack[|stack| - 1];
      MarkPop(g, f0, flags[..], root, stack);
      stack := stack[..|stack| - 1];
      stack := MarkNeighbours(g, flags, stack, v, f0, root);
    }
  }

  /**
   * After `mark_reachable`, every vertex reached from the root along a walk
   * whose other vertices were unflagged is flagged, and was flagged by this
   * call.
   */
  lemma {:induction false} MarkReaches(g: Graph, f0: seq<bool>, f: seq<bool>, root: nat, p: seq<nat>)
    requires WellFormed(g, AllEdges) && MarkPost(g, f0, f, root)
    requires IsPath(g, AllEdges, p) && p[0] == root
    requires forall k :: 1 <= k < |p| ==> p[k] < |f0| && !f0[p[k]]
    ensures p[|p| - 1] < |f| && f[p[|p| - 1]] && Marked(f0, f, root, p[|p| - 1])
  {
    if |p| > 1 {
      PathPrefix(g, AllEdges, p, |p| - 1);
      var init := p[..|p| - 1];
      MarkReaches(g, f0, f, root, init);
      var u := p[|p| - 2];
      assert init[|init| - 1] == u;
      assert Step(g, AllEdges, u, p[|p| - 1]);
      var i :| 0 <= i < |g.adj[u]| && g.adj[u][i].target == p[|p| - 1];
      assert NeighboursFlagged(g, f, u, |g.adj[u]|);
    }
  }

  /** Flags closed under adjacency before the call are closed after it, as the comment in the source says. */
  lemma MarkKeepsClosed(g: Graph, f0: seq<bool>, f: seq<bool>, root: nat)
    requires MarkPost(g, f0, f, root) && FlagsClosed(g, f0)
    ensures FlagsClosed(g, f)
  {
    forall v | 0 <= v < |g.adj| && v < |f| && f[v]
      ensures NeighboursFlagged(g, f, v, |g.adj[v]|)
    {
      if f0[v] {
        assert NeighboursFlagged(g, f0, v, |g.adj[v]|);
      } else {
        assert Marked(f0, f, root, v);
      }
    }
  }
}
