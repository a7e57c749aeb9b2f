/**
 * The uncertain graph as the C++ kernels traverse it: boost's
 * `adjacency_list<vecS, vecS, undirectedS>` gives vertices 0..n-1, each with
 * its list of out-edges, and lists an undirected edge at both endpoints
 * with the same `EdgeData::index`.  A sampled world is a `vector<bool>`
 * indexed by edge index; some traversals ignore it and use every edge.
 */
module Graphs {

  /** An out-edge: the endpoint it leads to and the index of the edge. */
  datatype OutEdge = OutEdge(target: nat, index: nat)

  datatype Graph = Graph(adj: seq<seq<OutEdge>>)

  /** Which edges a traversal may use: all of them, or those flagged in a sample. */
  datatype Mask = AllEdges | Sample(flags: seq<bool>)

  predicate Flagged(m: Mask, index: nat)
  {
    m.AllEdges? || (index < |m.flags| && m.flags[index])
  }

  /** Every out-edge leads to a vertex, and a sample has a flag for every edge index. */
  predicate WellFormed(g: Graph, m: Mask)
  {
    forall v, i :: 0 <= v < |g.adj| && 0 <= i < |g.adj[v]| ==>
      g.adj[v][i].target < |g.adj| && (m.Sample? ==> g.adj[v][i].index < |m.flags|)
  }

  /** Each edge u -> v is also listed at v as an edge v -> u with the same index. */
  predicate Undirected(g: Graph)
  {
    forall v, i :: 0 <= v < |g.adj| && 0 <= i < |g.adj[v]| ==>
      g.adj[v][i].target < |g.adj| && OutEdge(v, g.adj[v][i].index) in g.adj[g.adj[v][i].target]
  }

  /** One move along a usable edge. */
  predicate Step(g: Graph, m: Mask, u: nat, v: nat)
  {
    u < |g.adj| && exists i :: 0 <= i < |g.adj[u]| && g.adj[u][i].target == v && Flagged(m, g.adj[u][i].index)
  }

  /** A walk along usable edges; it has |p| - 1 edges. */
  predicate IsPath(g: Graph, m: Mask, p: seq<nat>)
  {
    |p| >= 1 && forall i :: 0 <= i < |p| - 1 ==> Step(g, m, p[i], p[i + 1])
  }

  /** y can be reached from x along usable edges. */
  ghost predicate Connected(g: Graph, m: Mask, x: nat, y: nat)
  {
    exists p :: IsPath(g, m, p) && p[0] == x && p[|p| - 1] == y
  }

  lemma PathExtend(g: Graph, m: Mask, p: seq<nat>, v: nat)
    requires IsPath(g, m, p) && Step(g, m, p[|p| - 1], v)
    ensures IsPath(g, m, p + [v])
  {
    var q := p + [v];
    forall i | 0 <= i < |q| - 1
      ensures Step(g, m, q[i], q[i + 1])
    {
      if i < |p| - 1 {
        assert q[i] == p[i] && q[i + 1] == p[i + 1];
      }
    }
  }

  lemma PathPrefix(g: Graph, m: Mask, p: seq<nat>, k: nat)
    requires IsPath(g, m, p) && 1 <= k <= |p|
    ensures IsPath(g, m, p[..k])
  {
    var q := p[..k];
    forall i | 0 <= i < |q| - 1
      ensures Step(g, m, q[i], q[i + 1])
    {
      assert q[i] == p[i] && q[i + 1] == p[i + 1];
    }
  }

  lemma StepSymmetric(g: Graph, m: Mask, u: nat, v: nat)
    requires Undirected(g) && Step(g, m, u, v)
    ensures Step(g, m, v, u)
  {
    var i :| 0 <= i < |g.adj[u]| && g.adj[u][i].target == v && Flagged(m, g.adj[u][i].index);
    var e := OutEdge(u, g.adj[u][i].index);
    assert e in g.adj[v];
    var j :| 0 <= j < |g.adj[v]| && g.adj[v][j] == e;
  }

  lemma {:induction false} PathReverse(g: Graph, m: Mask, p: seq<nat>)
    requires Undirected(g) && IsPath(g, m, p)
    ensures IsPath(g, m, Reverse(p)) && Reverse(p)[0] == p[|p| - 1] && Reverse(p)[|p| - 1] == p[0]
  {
    var r := Reverse(p);
    forall i | 0 <= i < |r| - 1
      ensures Step(g, m, r[i], r[i + 1])
    {
      StepSymmetric(g, m, p[|p| - 2 - i], p[|p| - 1 - i]);
    }
  }

  function Reverse(p: seq<nat>): (r: seq<nat>)
    ensures |r| == |p| && forall i :: 0 <= i < |p| ==> r[i] == p[|p| - 1 - i]
  {
    seq(|p|, i requires 0 <= i < |p| => p[|p| - 1 - i])
  }

  lemma PathConcat(g: Graph, m: Mask, p: seq<nat>, q: seq<nat>)
    requires IsPath(g, m, p) && IsPath(g, m, q) && p[|p| - 1] == q[0]
    ensures IsPath(g, m, p + q[1..])
  {
    var r := p + q[1..];
    forall i | 0 <= i < |r| - 1
      ensures Step(g, m, r[i], r[i + 1])
    {
      if i < |p| - 1 {
        assert r[i] == p[i] && r[i + 1] == p[i + 1];
      } else {
        assert r[i] == q[i - |p| + 1] && r[i + 1] == q[i - |p| + 2];
      }
    }
  }

  /** In an undirected graph connection is symmetric and transitive. */
  lemma ConnectedSymmetric(g: Graph, m: Mask, x: nat, y: nat)
    requires Undirected(g) && Connected(g, m, x, y)
    ensures Connected(g, m, y, x)
  {
    var p :| IsPath(g, m, p) && p[0] == x && p[|p| - 1] == y;
    PathReverse(g, m, p);
  }

  lemma ConnectedTransitive(g: Graph, m: Mask, x: nat, y: nat, z: nat)
    requires Connected(g, m, x, y) && Connected(g, m, y, z)
    ensures Connected(g, m, x, z)
  {
    var p :| IsPath(g, m, p) && p[0] == x && p[|p| - 1] == y;
    var q :| IsPath(g, m, q) && q[0] == y && q[|q| - 1] == z;
    PathConcat(g, m, p, q);
    var r := p + q[1..];
    if |q| == 1 {
      assert r == p;
    } else {
      assert r[|r| - 1] == q[|q| - 1];
    }
  }

  /**
   * A vertex set closed under usable edges holds every vertex of a path that
   * starts in it.
   */
  lemma {:induction false} ClosedHoldsPath(g: Graph, m: Mask, inS: seq<bool>, p: seq<nat>)
    requires |inS| == |g.adj| && WellFormed(g, m)
    requires forall v, i :: 0 <= v < |g.adj| && 0 <= i < |g.adj[v]| && inS[v] && Flagged(m, g.adj[v][i].index)
               ==> inS[g.adj[v][i].target]
    requires IsPath(g, m, p) && p[0] < |g.adj| && inS[p[0]]
    ensures p[|p| - 1] < |g.adj| && inS[p[|p| - 1]]
  {
    if |p| > 1 {
      var init := p[..|p| - 1];
      PathPrefix(g, m, p, |p| - 1);
      ClosedHoldsPath(g, m, inS, init);
      var u := p[|p| - 2];
      assert Step(g, m, u, p[|p| - 1]);
      var i :| 0 <= i < |g.adj[u]| && g.adj[u][i].target == p[|p| - 1] && Flagged(m, g.adj[u][i].index);
    }
  }

  /** One more usable edge extends a connection. */
  lemma ConnectedStep(g: Graph, m: Mask, x: nat, u: nat, v: nat)
    requires Connected(g, m, x, u) && Step(g, m, u, v)
    ensures Connected(g, m, x, v)
  {
    var p :| IsPath(g, m, p) && p[0] == x && p[|p| - 1] == u;
    PathExtend(g, m, p, v);
    assert (p + [v])[0] == x;
  }

  /** A vertex reaches itself along the empty walk. */
  lemma ConnectedSelf(g: Graph, m: Mask, x: nat)
    ensures Connected(g, m, x, x)
  {
    assert IsPath(g, m, [x]);
  }

  /**
   * y can be reached from x along usable edges whose every vertex after x
   * lies in s: the walks a traversal that only enters vertices of s takes.
   */
  ghost predicate ConnectedWithin(g: Graph, m: Mask, s: set<nat>, x: nat, y: nat)
  {
    exists p :: IsPath(g, m, p) && p[0] == x && p[|p| - 1] == y && forall k :: 1 <= k < |p| ==> p[k] in s
  }

  lemma ConnectedWithinSelf(g: Graph, m: Mask, s: set<nat>, x: nat)
    ensures ConnectedWithin(g, m, s, x, x)
  {
    assert IsPath(g, m, [x]);
  }

  /** One more usable edge into s extends a walk within s. */
  lemma ConnectedWithinStep(g: Graph, m: Mask, s: set<nat>, x: nat, u: nat, v: nat)
    requires ConnectedWithin(g, m, s, x, u) && Step(g, m, u, v) && v in s
    ensures ConnectedWithin(g, m, s, x, v)
  {
    var p :| IsPath(g, m, p) && p[0] == x && p[|p| - 1] == u && forall k :: 1 <= k < |p| ==> p[k] in s;
    PathExtend(g, m, p, v);
    var q := p + [v];
    assert q[0] == x && q[|q| - 1] == v;
    assert forall k :: 1 <= k < |q| ==> q[k] in s by {
      forall k | 1 <= k < |q|
        ensures q[k] in s
      {
        if k < |p| {
          assert q[k] == p[k];
        }
      }
    }
  }

  lemma ConnectedWithinConnected(g: Graph, m: Mask, s: set<nat>, x: nat, y: nat)
    requires ConnectedWithin(g, m, s, x, y)
    ensures Connected(g, m, x, y)
  {
  }
}
