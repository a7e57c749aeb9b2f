/**
 * Depth-limited breadth-first search over one sampled world
 * (`bfs` in core/bfs_sampler.cpp): the distance of every vertex from the
 * root along sampled edges, or `SIZE_MAX` for vertices farther than
 * `max_dist` or unreachable.  The queue is the caller's
 * `FixedCapacityQueue`.
 */
module Bfs {
  import opened Common
  import opened Graphs
  import opened FixedQueue

  /** `g_infinite_distance`: `std::numeric_limits<size_t>::max()`. */
  const Infinite: nat := 0xFFFF_FFFF_FFFF_FFFF

  /** Some walk of exactly k usable edges leads from x to y. */
  ghost predicate ReachesIn(g: Graph, m: Mask, x: nat, y: nat, k: nat)
  {
    exists p :: IsPath(g, m, p) && p[0] == x && p[|p| - 1] == y && |p| == k + 1
  }

  /** Each finite distance is at most maxDist and is witnessed by a walk of that length. */
  ghost predicate Witnessed(g: Graph, m: Mask, d: seq<nat>, maxDist: nat, root: nat, paths: map<nat, seq<nat>>)
  {
    forall v :: 0 <= v < |d| && d[v] != Infinite ==>
      d[v] <= maxDist && v in paths && IsPath(g, m, paths[v]) && paths[v][0] == root
      && paths[v][|paths[v]| - 1] == v && |paths[v]| == d[v] + 1
  }

  /**
   * The queue holds distinct reached vertices in non-decreasing order of
   * distance, all at distance level or level + 1, and no reached vertex is
   * farther than level + 1.
   */
  ghost predicate Layered(d: seq<nat>, q: seq<nat>, level: nat)
  {
    (forall k :: 0 <= k < |q| ==> q[k] < |d| && d[q[k]] != Infinite && level <= d[q[k]] <= level + 1)
    && (forall i, j :: 0 <= i <= j < |q| && q[i] < |d| && q[j] < |d| ==> d[q[i]] <= d[q[j]])
    && NoDup(q)
    && (forall v :: 0 <= v < |d| && d[v] != Infinite ==> d[v] <= level + 1)
  }

  /**
   * Every reached vertex not waiting in `pending` has been expanded: its
   * usable edges lead to vertices at most one step farther, unless that
   * step would exceed maxDist.
   */
  ghost predicate Closed(g: Graph, m: Mask, d: seq<nat>, maxDist: nat, pending: set<nat>)
  {
    forall v, i :: 0 <= v < |g.adj| && 0 <= i < |g.adj[v]| && v < |d| && d[v] != Infinite && v !in pending
                   && Flagged(m, g.adj[v][i].index) && d[v] + 1 <= maxDist
      ==> g.adj[v][i].target < |d| && d[g.adj[v][i].target] <= d[v] + 1
  }

  ghost function Unreached(d: seq<nat>): set<nat>
  {
    set w | 0 <= w < |d| && d[w] == Infinite
  }

  /** Every finite distance is at most maxDist and is the length of some walk from the root. */
  ghost predicate Sound(g: Graph, m: Mask, d: seq<nat>, maxDist: nat, root: nat)
  {
    forall v :: 0 <= v < |d| && d[v] != Infinite ==> d[v] <= maxDist && ReachesIn(g, m, root, v, d[v])
  }

  /** Every walk of at most maxDist edges from the root ends at a vertex no farther than the walk is long. */
  ghost predicate Complete(g: Graph, m: Mask, d: seq<nat>, maxDist: nat, root: nat)
  {
    forall p :: IsPath(g, m, p) && p[0] == root && |p| - 1 <= maxDist ==> p[|p| - 1] < |d| && d[p[|p| - 1]] <= |p| - 1
  }

  /**
   * When every reached vertex has been expanded, a walk of at most maxDist
   * edges from the root ends at a vertex whose distance is at most the
   * walk's length.
   */
  lemma {:induction false} ClosedBounds(g: Graph, m: Mask, d: seq<nat>, maxDist: nat, root: nat, p: seq<nat>)
    requires WellFormed(g, m) && |d| == |g.adj| && maxDist <= Infinite
    requires Closed(g, m, d, maxDist, {}) && root < |d| && d[root] == 0
    requires IsPath(g, m, p) && p[0] == root && |p| - 1 <= maxDist
    ensures p[|p| - 1] < |d| && d[p[|p| - 1]] <= |p| - 1
  {
    if |p| > 1 {
      var init := p[..|p| - 1];
      PathPrefix(g, m, p, |p| - 1);
      ClosedBounds(g, m, d, maxDist, root, init);
      var u := p[|p| - 2];
      assert init[|init| - 1] == u;
      assert Step(g, m, u, p[|p| - 1]);
      var i :| 0 <= i < |g.adj[u]| && g.adj[u][i].target == p[|p| - 1] && Flagged(m, g.adj[u][i].index);
    }
  }

  /** A queue of distinct vertices that avoids two distinct vertices u and v leaves them room. */
  lemma QueueRoom(q: seq<nat>, n: nat, u: nat, v: nat)
    requires NoDup(q) && u < n && v < n && u != v
    requires forall k :: 0 <= k < |q| ==> q[k] < n && q[k] != u && q[k] != v
    ensures |q| <= n - 2
  {
    var s := Elems(q) + {u, v};
    ElemsCard(q);
    assert u !in Elems(q) && v !in Elems(q);
    assert |s| == |q| + 2;
    SubsetOfRange(s, n);
  }

  /** Taking the front vertex off the queue q moves the level up to its distance. */
  lemma PopStep(d: seq<nat>, q: seq<nat>, level: nat)
    requires Layered(d, q, level) && |q| > 0
    ensures q[0] < |d| && d[q[0]] != Infinite
    ensures Layered(d, q[1..], d[q[0]]) && q[0] !in Elems(q[1..])
    ensures Elems(q) == Elems(q[1..]) + {q[0]}
  {
    var rest := q[1..];
    assert forall k :: 0 <= k < |rest| ==> q[k + 1] == rest[k];
    forall k | 0 <= k < |rest|
      ensures rest[k] != q[0] && rest[k] < |d| && d[q[0]] <= d[rest[k]]
    {
      assert q[k + 1] == rest[k];
    }
    forall i, j | 0 <= i < j < |rest|
      ensures rest[i] != rest[j]
    {
      assert q[i + 1] == rest[i] && q[j + 1] == rest[j];
    }
    assert q == [q[0]] + rest;
  }

  /**
   * Lowering the distance of a neighbour u of v from above level + 1: u had
   * not been reached, gets distance level + 1 and joins the back of the
   * queue, and the invariants still hold.
   */
  lemma RelaxStep(g: Graph, m: Mask, d: seq<nat>, maxDist: nat, root: nat, paths: map<nat, seq<nat>>,
                  q: seq<nat>, level: nat, v: nat, i: nat)
    requires WellFormed(g, m) && |d| == |g.adj| && v < |d| && d[v] == level && level + 1 <= maxDist
    requires 0 <= i < |g.adj[v]| && Flagged(m, g.adj[v][i].index) && level + 1 < d[g.adj[v][i].target]
    requires Witnessed(g, m, d, maxDist, root, paths) && Layered(d, q, level)
    requires v !in Elems(q) && root < |d| && d[root] == 0
    requires Closed(g, m, d, maxDist, Elems(q) + {v})
    ensures var u := g.adj[v][i].target;
            d[u] == Infinite && u != v && u !in Elems(q) && u != root
    ensures var u := g.adj[v][i].target;
            var d' := d[u := level + 1];
            var q' := q + [u];
            var paths' := paths[u := paths[v] + [u]];
            Witnessed(g, m, d', maxDist, root, paths') && Layered(d', q', level) && v !in Elems(q')
            && Closed(g, m, d', maxDist, Elems(q') + {v}) && d'[root] == 0
            && Unreached(d') == Unreached(d) - {u}
  {
    var u := g.adj[v][i].target;
    assert Step(g, m, v, u);
    assert d[u] == Infinite;
    assert u !in Elems(q) by {
      assert forall k :: 0 <= k < |q| ==> q[k] != u;
    }
    RelaxLayered(d, q, level, u);
    RelaxWitnessed(g, m, d, maxDist, root, paths, v, u);
    RelaxClosed(g, m, d, maxDist, Elems(q) + {v}, u, level + 1);
    UnreachedLower(d, u, level + 1);
  }

  /** A newly reached vertex at distance level + 1 joins the back of a layered queue. */
  lemma RelaxLayered(d: seq<nat>, q: seq<nat>, level: nat, u: nat)
    requires Layered(d, q, level) && u < |d| && d[u] == Infinite && u !in Elems(q) && level + 1 != Infinite
    ensures Layered(d[u := level + 1], q + [u], level)
    ensures Elems(q + [u]) == Elems(q) + {u}
  {
    var d' := d[u := level + 1];
    var q' := q + [u];
    forall k | 0 <= k < |q'|
      ensures q'[k] < |d'| && d'[q'[k]] != Infinite && level <= d'[q'[k]] <= level + 1
    {
      if k < |q| {
        assert q'[k] == q[k];
      }
    }
    forall a, b | 0 <= a <= b < |q'| && q'[a] < |d'| && q'[b] < |d'|
      ensures d'[q'[a]] <= d'[q'[b]]
    {
      if b < |q| {
        assert q'[a] == q[a] && q'[b] == q[b];
      } else if a < |q| {
        assert q'[a] == q[a];
      }
    }
    assert forall k :: 0 <= k < |q| ==> q[k] in Elems(q);
    assert NoDup(q');
  }

  /** The walk to v followed by the edge to u witnesses u's new distance. */
  lemma RelaxWitnessed(g: Graph, m: Mask, d: seq<nat>, maxDist: nat, root: nat, paths: map<nat, seq<nat>>,
                       v: nat, u: nat)
    requires WellFormed(g, m) && Witnessed(g, m, d, maxDist, root, paths)
    requires v < |d| && d[v] != Infinite && d[v] + 1 <= maxDist && u < |d| && Step(g, m, v, u)
    ensures Witnessed(g, m, d[u := d[v] + 1], maxDist, root, paths[u := paths[v] + [u]])
  {
    PathExtend(g, m, paths[v], u);
  }

  /** Lowering u's distance and adding u to the pending set keeps every expanded vertex closed. */
  lemma RelaxClosed(g: Graph, m: Mask, d: seq<nat>, maxDist: nat, pending: set<nat>, u: nat, x: nat)
    requires Closed(g, m, d, maxDist, pending) && u < |d| && x <= d[u]
    ensures Closed(g, m, d[u := x], maxDist, pending + {u})
  {
  }

  /** Lowering an infinite distance removes exactly that vertex from the unreached set. */
  lemma UnreachedLower(d: seq<nat>, u: nat, x: nat)
    requires u < |d| && d[u] == Infinite && x != Infinite
    ensures Unreached(d[u := x]) == Unreached(d) - {u}
  {
  }

  /** The first n usable out-edges of v lead to vertices at most one step farther than v. */
  ghost predicate EdgesWithin(g: Graph, m: Mask, d: seq<nat>, v: nat, n: nat)
    requires v < |g.adj| && v < |d| && n <= |g.adj[v]|
  {
    forall j :: 0 <= j < n && Flagged(m, g.adj[v][j].index) ==>
      g.adj[v][j].target < |d| && d[g.adj[v][j].target] <= d[v] + 1
  }

  /** The state of `Expand` at vertex v: the search invariants, with v itself still to be expanded. */
  ghost predicate Expanding(g: Graph, m: Mask, d: seq<nat>, maxDist: nat, root: nat, paths: map<nat, seq<nat>>,
                            q: seq<nat>, level: nat, v: nat)
  {
    Witnessed(g, m, d, maxDist, root, paths) && Layered(d, q, level) && v !in Elems(q)
    && Closed(g, m, d, maxDist, Elems(q) + {v}) && root < |d| && d[root] == 0 && v < |d| && d[v] == level
  }

  /** The invariant of the main loop of `bfs`, with queue q. */
  ghost predicate Searching(g: Graph, m: Mask, d: seq<nat>, maxDist: nat, root: nat, paths: map<nat, seq<nat>>,
                            q: seq<nat>, level: nat)
  {
    Witnessed(g, m, d, maxDist, root, paths) && Layered(d, q, level)
    && Closed(g, m, d, maxDist, Elems(q)) && root < |d| && d[root] == 0
  }

  /** Once all of v's usable edges satisfy the bound (or the bound cannot apply), v counts as expanded. */
  lemma ExpandDone(g: Graph, m: Mask, d: seq<nat>, maxDist: nat, root: nat, paths: map<nat, seq<nat>>,
                   q: seq<nat>, level: nat, v: nat)
    requires v < |g.adj| && |d| == |g.adj|
    requires Expanding(g, m, d, maxDist, root, paths, q, level, v)
    requires d[v] + 1 <= maxDist ==> EdgesWithin(g, m, d, v, |g.adj[v]|)
    ensures Searching(g, m, d, maxDist, root, paths, q, level)
  {
    assert Elems(q) + {v} - {v} == Elems(q);
  }

  /** Lowering the distance of a vertex other than v keeps v's checked edges within bound. */
  lemma EdgesWithinLower(g: Graph, m: Mask, d: seq<nat>, v: nat, n: nat, u: nat, x: nat)
    requires v < |g.adj| && v < |d| && n <= |g.adj[v]| && u < |d| && u != v && x <= d[u]
    requires EdgesWithin(g, m, d, v, n)
    ensures EdgesWithin(g, m, d[u := x], v, n)
  {
  }

  /** Checking out-edge n of v extends the checked prefix by one. */
  lemma EdgesWithinNext(g: Graph, m: Mask, d: seq<nat>, v: nat, n: nat)
    requires v < |g.adj| && v < |d| && n < |g.adj[v]| && EdgesWithin(g, m, d, v, n)
    requires Flagged(m, g.adj[v][n].index) ==> g.adj[v][n].target < |d| && d[g.adj[v][n].target] <= d[v] + 1
    ensures EdgesWithin(g, m, d, v, n + 1)
  {
  }

  /**
   * One iteration of the edge loop of `bfs`: the out-edge i of v, when it
   * is sampled and lowers its target's distance, sets that distance to
   * d(v) + 1 and pushes the target.  `added` is what was pushed.
   */
  method Relax(g: Graph, smpl: seq<bool>, dist: array<nat>, queue: FixedCapacityQueue<nat>, v: nat, i: nat,
               maxDist: nat, ghost root: nat, ghost paths: map<nat, seq<nat>>, ghost level: nat)
    returns (ok: bool, ghost paths': map<nat, seq<nat>>, ghost added: seq<nat>)
    requires WellFormed(g, Sample(smpl)) && dist.Length == |g.adj| && v < |g.adj| && i < |g.adj[v]|
    requires queue.Valid() && queue.capacity > 0 && queue.storage != dist
    requires Expanding(g, Sample(smpl), dist[..], maxDist, root, paths, queue.Contents(), level, v)
    requires level + 1 <= maxDist && EdgesWithin(g, Sample(smpl), dist[..], v, i)
    modifies dist, queue, queue.storage
    ensures queue.Valid()
    ensures queue.capacity >= |g.adj| ==> ok
    ensures ok ==> Expanding(g, Sample(smpl), dist[..], maxDist, root, paths', queue.Contents(), level, v)
    ensures ok ==> EdgesWithin(g, Sample(smpl), dist[..], v, i + 1)
    ensures ok ==> queue.Contents() == old(queue.Contents()) + added
    ensures ok ==> Unreached(dist[..]) == Unreached(old(dist[..])) - Elems(added)
    ensures ok ==> Elems(added) <= Unreached(old(dist[..]))
    ensures ok ==> (added == [] || added == [g.adj[v][i].target])
    ensures ok ==> (added != [] <==>
                      smpl[g.adj[v][i].index] && old(dist[v]) + 1 < old(dist[g.adj[v][i].target]))
    ensures ok ==> dist[..] == if added == [] then old(dist[..])
                               else old(dist[..])[g.adj[v][i].target := old(dist[v]) + 1]
  {
    paths', added := paths, [];
    ok := true;
    var edge := g.adj[v][i];
    var newDist: nat := dist[v] + 1;
    if smpl[edge.index] {
      var u := edge.target;
      if newDist < dist[u] {
        ok, paths' := Lower(g, smpl, dist, queue, v, i, maxDist, root, paths, level);
        added := [u];
        return;
      }
    }
    EdgesWithinNext(g, Sample(smpl), dist[..], v, i);
  }

  /** The branch of the edge loop that lowers the target's distance to d(v) + 1 and pushes it. */
  method Lower(g: Graph, smpl: seq<bool>, dist: array<nat>, queue: FixedCapacityQueue<nat>, v: nat, i: nat,
               maxDist: nat, ghost root: nat, ghost paths: map<nat, seq<nat>>, ghost level: nat)
    returns (ok: bool, ghost paths': map<nat, seq<nat>>)
    requires WellFormed(g, Sample(smpl)) && dist.Length == |g.adj| && v < |g.adj| && i < |g.adj[v]|
    requires queue.Valid() && queue.capacity > 0 && queue.storage != dist
    requires Expanding(g, Sample(smpl), dist[..], maxDist, root, paths, queue.Contents(), level, v)
    requires level + 1 <= maxDist && EdgesWithin(g, Sample(smpl), dist[..], v, i)
    requires smpl[g.adj[v][i].index] && dist[v] + 1 < dist[g.adj[v][i].target]
    modifies dist, queue, queue.storage
    ensures queue.Valid()
    ensures queue.capacity >= |g.adj| ==> ok
    ensures dist[..] == old(dist[..])[g.adj[v][i].target := old(dist[v]) + 1]
    ensures ok ==> Expanding(g, Sample(smpl), dist[..], maxDist, root, paths', queue.Contents(), level, v)
    ensures ok ==> EdgesWithin(g, Sample(smpl), dist[..], v, i + 1)
    ensures ok ==> queue.Contents() == old(queue.Contents()) + [g.adj[v][i].target]
    ensures ok ==> Unreached(dist[..]) == Unreached(old(dist[..])) - {g.adj[v][i].target}
    ensures g.adj[v][i].target in Unreached(old(dist[..]))
  {
    ghost var m := Sample(smpl);
    ghost var d := dist[..];
    ghost var q := queue.Contents();
    var u := g.adj[v][i].target;
    var newDist: nat := dist[v] + 1;
    RelaxStep(g, m, d, maxDist, root, paths, q, level, v, i);
    QueueRoom(q, |g.adj|, u, v);
    EdgesWithinLower(g, m, d, v, i, u, newDist);
    dist[u] := newDist;
    assert dist[..] == d[u := newDist];
    paths' := paths[u := paths[v] + [u]];
    EdgesWithinNext(g, m, dist[..], v, i);
    ok := queue.Push(u);
    assert ok ==> queue.Contents() == q + [u];
  }

  /**
   * The body of the main loop after `pop`: for each sampled out-edge of v,
   * a neighbour whose distance can be lowered to d(v) + 1 <= maxDist is
   * given that distance and queued.
   */
  method Expand(g: Graph, smpl: seq<bool>, dist: array<nat>, queue: FixedCapacityQueue<nat>, v: nat, maxDist: nat,
                ghost root: nat, ghost paths: map<nat, seq<nat>>, ghost level: nat)
    returns (ok: bool, ghost paths': map<nat, seq<nat>>)
    requires WellFormed(g, Sample(smpl)) && dist.Length == |g.adj| && v < |g.adj|
    requires queue.Valid() && queue.capacity > 0 && queue.storage != dist
    requires Expanding(g, Sample(smpl), dist[..], maxDist, root, paths, queue.Contents(), level, v)
    modifies dist, queue, queue.storage
    ensures queue.Valid()
    ensures queue.capacity >= |g.adj| ==> ok
    ensures ok ==> Searching(g, Sample(smpl), dist[..], maxDist, root, paths', queue.Contents(), level)
    ensures ok ==> Unreached(dist[..]) <= Unreached(old(dist[..]))
    ensures ok && Unreached(dist[..]) == Unreached(old(dist[..])) ==> |queue.Contents()| == |old(queue.Contents())|
    ensures old(dist[v]) + 1 > maxDist ==> ok && dist[..] == old(dist[..]) && queue.Contents() == old(queue.Contents())
  {
    ghost var m := Sample(smpl);
    ghost var d0 := dist[..];
    ghost var pushed: seq<nat> := [];
    paths' := paths;
    ok := true;
    if dist[v] + 1 <= maxDist {
      ok, paths', pushed := RelaxEdges(g, smpl, dist, queue, v, maxDist, root, paths, level);
      if !ok {
        return;
      }
    }
    ExpandDone(g, m, dist[..], maxDist, root, paths', queue.Contents(), level, v);
    if pushed != [] {
      assert pushed[0] in Unreached(d0) - Unreached(dist[..]);
    }
  }

  /** The edge loop of `bfs`: every out-edge of v relaxed in turn; `pushed` is what joined the queue. */
  method RelaxEdges(g: Graph, smpl: seq<bool>, dist: array<nat>, queue: FixedCapacityQueue<nat>, v: nat, maxDist: nat,
                    ghost root: nat, ghost paths: map<nat, seq<nat>>, ghost level: nat)
    returns (ok: bool, ghost paths': map<nat, seq<nat>>, ghost pushed: seq<nat>)
    requires WellFormed(g, Sample(smpl)) && dist.Length == |g.adj| && v < |g.adj|
    requires queue.Valid() && queue.capacity > 0 && queue.storage != dist
    requires Expanding(g, Sample(smpl), dist[..], maxDist, root, paths, queue.Contents(), level, v)
    requires level + 1 <= maxDist
    modifies dist, queue, queue.storage
    ensures queue.Valid()
    ensures queue.capacity >= |g.adj| ==> ok
    ensures ok ==> Expanding(g, Sample(smpl), dist[..], maxDist, root, paths', queue.Contents(), level, v)
    ensures ok ==> EdgesWithin(g, Sample(smpl), dist[..], v, |g.adj[v]|)
    ensures ok ==> queue.Contents() == old(queue.Contents()) + pushed
    ensures ok ==> Unreached(dist[..]) == Unreached(old(dist[..])) - Elems(pushed)
    ensures ok ==> Elems(pushed) <= Unreached(old(dist[..]))
    ensures ok ==> forall w :: 0 <= w < dist.Length && w !in Elems(pushed) ==> dist[w] == old(dist[w])
    ensures ok ==> forall w :: w in Elems(pushed) ==> w < dist.Length && dist[w] == old(dist[v]) + 1
  {
    ghost var m := Sample(smpl);
    ghost var q0 := queue.Contents();
    ghost var d0 := dist[..];
    paths', pushed := paths, [];
    ok := true;
    for i := 0 to |g.adj[v]|
      invariant ok && queue.Valid()
      invariant Expanding(g, m, dist[..], maxDist, root, paths', queue.Contents(), level, v)
      invariant EdgesWithin(g, m, dist[..], v, i)
      invariant queue.Contents() == q0 + pushed
      invariant Unreached(dist[..]) == Unreached(d0) - Elems(pushed)
      invariant Elems(pushed) <= Unreached(d0)
      invariant PushedAt(d0, dist[..], v, pushed)
    {
      ghost var added;
      ghost var before, queued := dist[..], queue.Contents();
      ok, paths', added := Relax(g, smpl, dist, queue, v, i, maxDist, root, paths', level);
      if !ok {
        return;
      }
      AppendQueued(q0, pushed, added);
      PushedStep(Unreached(d0), Unreached(before), Unreached(dist[..]), pushed, added);
      PushedAtStep(d0, before, dist[..], v, pushed, added);
      pushed := pushed + added;
    }
    assert PushedAt(d0, dist[..], v, pushed);
  }

  /** The queue grows by what each relaxation pushed. */
  lemma AppendQueued(q0: seq<nat>, pushed: seq<nat>, added: seq<nat>)
    ensures (q0 + pushed) + added == q0 + (pushed + added)
  {
  }

  /**
   * Relative to the distances d0 before the edge loop of v, d lowered
   * exactly the vertices of `pushed`, each to d0(v) + 1.
   */
  ghost predicate PushedAt(d0: seq<nat>, d: seq<nat>, v: nat, pushed: seq<nat>)
  {
    |d| == |d0| && v < |d0|
    && (forall w :: 0 <= w < |d| && w !in Elems(pushed) ==> d[w] == d0[w])
    && (forall w :: w in Elems(pushed) ==> w < |d| && d[w] == d0[v] + 1)
  }

  /** One relaxation keeps PushedAt: a vertex it queues is new and gets d(v) + 1, and nothing else moves. */
  lemma PushedAtStep(d0: seq<nat>, d1: seq<nat>, d2: seq<nat>, v: nat, pushed: seq<nat>, added: seq<nat>)
    requires PushedAt(d0, d1, v, pushed) && d1[v] == d0[v]
    requires added == [] ==> d2 == d1
    requires added != [] ==> added == [added[0]] && added[0] < |d1| && added[0] !in Elems(pushed)
                             && d2 == d1[added[0] := d1[v] + 1]
    ensures PushedAt(d0, d2, v, pushed + added)
  {
    assert Elems(pushed + added) == Elems(pushed) + Elems(added);
  }

  /** The vertices pushed so far are exactly those that left the unreached set. */
  lemma PushedStep(u0: set<nat>, u1: set<nat>, u2: set<nat>, pushed: seq<nat>, added: seq<nat>)
    requires u1 == u0 - Elems(pushed) && Elems(pushed) <= u0
    requires u2 == u1 - Elems(added) && Elems(added) <= u1
    ensures u2 == u0 - Elems(pushed + added) && Elems(pushed + added) <= u0
  {
    assert Elems(pushed + added) == Elems(pushed) + Elems(added);
  }

  /** Only the root reached, at distance 0, and the root alone in the queue. */
  lemma SearchStart(g: Graph, m: Mask, d: seq<nat>, maxDist: nat, root: nat)
    requires WellFormed(g, m) && |d| == |g.adj| && root < |d| && d[root] == 0
    requires forall j :: 0 <= j < |d| && j != root ==> d[j] == Infinite
    ensures Searching(g, m, d, maxDist, root, map[root := [root]], [root], 0)
  {
    assert Elems([root]) == {root};
  }

  /**
   * With the queue empty, every finite distance is the length of a walk
   * from the root, and every walk of at most maxDist edges from the root is
   * at least as long as the distance of its end.
   */
  lemma SearchDone(g: Graph, m: Mask, d: seq<nat>, maxDist: nat, root: nat, paths: map<nat, seq<nat>>,
                   q: seq<nat>, level: nat)
    requires WellFormed(g, m) && |d| == |g.adj| && maxDist <= Infinite
    requires Searching(g, m, d, maxDist, root, paths, q, level) && q == []
    ensures Sound(g, m, d, maxDist, root) && Complete(g, m, d, maxDist, root)
  {
    assert Elems(q) == {};
    forall v | 0 <= v < |d| && d[v] != Infinite
      ensures d[v] <= maxDist && ReachesIn(g, m, root, v, d[v])
    {
      assert IsPath(g, m, paths[v]);
    }
    forall p | IsPath(g, m, p) && p[0] == root && |p| - 1 <= maxDist
      ensures p[|p| - 1] < |d| && d[p[|p| - 1]] <= |p| - 1
    {
      ClosedBounds(g, m, d, maxDist, root, p);
    }
  }

  /** The set-up of `bfs`: the root alone in the queue, at distance 0, every other vertex at infinity. */
  method Start(g: Graph, smpl: seq<bool>, dist: array<nat>, queue: FixedCapacityQueue<nat>, root: nat, maxDist: nat)
    returns (ok: bool)
    requires WellFormed(g, Sample(smpl))
    requires root < |g.adj| && dist.Length == |g.adj|
    requires queue.Valid() && queue.capacity > 0 && queue.storage != dist
    modifies dist, queue, queue.storage
    ensures queue.Valid()
    ensures ok <==> queue.capacity >= 2
    ensures ok ==> Searching(g, Sample(smpl), dist[..], maxDist, root, map[root := [root]], queue.Contents(), 0)
  {
    queue.Clear();
    ok := queue.Push(root);
    if !ok {
      return;
    }
    ResetDistances(dist, root);
    SearchStart(g, Sample(smpl), dist[..], maxDist, root);
  }

  /** One iteration of the main loop of `bfs`: pop the front vertex and expand it. */
  method Visit(g: Graph, smpl: seq<bool>, dist: array<nat>, queue: FixedCapacityQueue<nat>, maxDist: nat,
               ghost root: nat, ghost paths: map<nat, seq<nat>>, ghost level: nat)
    returns (ok: bool, ghost paths': map<nat, seq<nat>>, ghost level': nat)
    requires WellFormed(g, Sample(smpl)) && dist.Length == |g.adj|
    requires queue.Valid() && queue.capacity > 0 && queue.storage != dist && !queue.Empty()
    requires Searching(g, Sample(smpl), dist[..], maxDist, root, paths, queue.Contents(), level)
    modifies dist, queue, queue.storage
    ensures queue.Valid()
    ensures queue.capacity >= |g.adj| ==> ok
    ensures ok ==> Searching(g, Sample(smpl), dist[..], maxDist, root, paths', queue.Contents(), level')
    ensures ok ==> Unreached(dist[..]) <= Unreached(old(dist[..]))
    ensures ok && Unreached(dist[..]) == Unreached(old(dist[..])) ==> |queue.Contents()| < |old(queue.Contents())|
  {
    ghost var q := queue.Contents();
    var v := queue.Pop();
    PopStep(dist[..], q, level);
    level' := dist[v];
    ok, paths' := Expand(g, smpl, dist, queue, v, maxDist, root, paths, level');
  }

  /** Every distance set to `g_infinite_distance` except the root's, which is 0. */
  method ResetDistances(dist: array<nat>, root: nat)
    requires root < dist.Length
    modifies dist
    ensures dist[root] == 0
    ensures forall j :: 0 <= j < dist.Length && j != root ==> dist[j] == Infinite
  {
    for k := 0 to dist.Length
      invariant forall j :: 0 <= j < k ==> dist[j] == Infinite
    {
      dist[k] := Infinite;
    }
    dist[root] := 0;
  }

  /**
   * `bfs`.  The search fails (the source throws `logic_error`) when a push
   * finds the queue full; the queue of a sampler's thread state has one
   * slot per vertex.
   */
  method Bfs(g: Graph, smpl: seq<bool>, dist: array<nat>, queue: FixedCapacityQueue<nat>, root: nat, maxDist: nat)
    returns (ok: bool)
    requires WellFormed(g, Sample(smpl))
    requires root < |g.adj| && dist.Length == |g.adj| && maxDist <= Infinite
    requires queue.Valid() && queue.capacity > 0 && queue.storage != dist
    modifies dist, queue, queue.storage
    ensures queue.Valid()
    ensures queue.capacity == 1 ==> !ok
    ensures queue.capacity >= 2 && queue.capacity >= |g.adj| ==> ok
    ensures ok ==> dist[root] == 0
    ensures ok ==> Sound(g, Sample(smpl), dist[..], maxDist, root)
    ensures ok ==> Complete(g, Sample(smpl), dist[..], maxDist, root)
  {
    ok := Start(g, smpl, dist, queue, root, maxDist);
    if !ok {
      return;
    }
    ghost var paths, level;
    ok, paths, level := Drain(g, smpl, dist, queue, maxDist, root, map[root := [root]], 0);
    if ok {
      SearchDone(g, Sample(smpl), dist[..], maxDist, root, paths, queue.Contents(), level);
    }
  }

  /** The main loop of `bfs`: visit the front vertex until the queue is empty. */
  method Drain(g: Graph, smpl: seq<bool>, dist: array<nat>, queue: FixedCapacityQueue<nat>, maxDist: nat,
               ghost root: nat, ghost paths: map<nat, seq<nat>>, ghost level: nat)
    returns (ok: bool, ghost paths': map<nat, seq<nat>>, ghost level': nat)
    requires WellFormed(g, Sample(smpl)) && dist.Length == |g.adj|
    requires queue.Valid() && queue.capacity > 0 && queue.storage != dist
    requires Searching(g, Sample(smpl), dist[..], maxDist, root, paths, queue.Contents(), level)
    modifies dist, queue, queue.storage
    ensures queue.Valid()
    ensures queue.capacity >= |g.adj| ==> ok
    ensures ok ==> queue.Contents() == []
    ensures ok ==> Searching(g, Sample(smpl), dist[..], maxDist, root, paths', queue.Contents(), level')
  {
    ok, paths', level' := true, paths, level;
    while !queue.Empty()
      invariant ok && queue.Valid() && queue.storage != dist
      invariant Searching(g, Sample(smpl), dist[..], maxDist, root, paths', queue.Contents(), level')
      decreases Unreached(dist[..]), |queue.Contents()|
    {
      ok, paths', level' := Visit(g, smpl, dist, queue, maxDist, root, paths', level');
      if !ok {
        return;
      }
    }
  }

  // ---------------------------------------------------------------------------
  // The queue a sampler's thread state gives `bfs`.

  /**
   * `bfs` with the queue of `BfsSamplerThreadState`, whose capacity is the
   * number of vertices.  One slot of the ring buffer always stays free, so
   * on a graph with a single vertex the push of the root already fails.
   */
  method ThreadStateBfs(g: Graph, smpl: seq<bool>, root: nat, maxDist: nat) returns (ok: bool, dist: array<nat>)
    requires WellFormed(g, Sample(smpl)) && root < |g.adj| && maxDist <= Infinite
    ensures dist.Length == |g.adj|
    ensures ok <==> |g.adj| >= 2
    ensures ok ==> Sound(g, Sample(smpl), dist[..], maxDist, root) && Complete(g, Sample(smpl), dist[..], maxDist, root)
  {
    var queue := new FixedCapacityQueue<nat>(|g.adj|);
    dist := new nat[|g.adj|];
    ok := Bfs(g, smpl, dist, queue, root, maxDist);
  }

  /**
   * `bfs` with a queue of one slot more than there are vertices: the search
   * never runs out of room, on every graph.
   */
  method RoomyBfs(g: Graph, smpl: seq<bool>, root: nat, maxDist: nat) returns (dist: array<nat>)
    requires WellFormed(g, Sample(smpl)) && root < |g.adj| && maxDist <= Infinite
    ensures dist.Length == |g.adj|
    ensures dist[root] == 0
    ensures Sound(g, Sample(smpl), dist[..], maxDist, root) && Complete(g, Sample(smpl), dist[..], maxDist, root)
  {
    var queue := new FixedCapacityQueue<nat>(|g.adj| + 1);
    dist := new nat[|g.adj|];
    var ok := Bfs(g, smpl, dist, queue, root, maxDist);
    assert ok;
  }
}
