/**
 * `build_pairs` (scripts/confusion.py and scripts/result2pairs.py, identical
 * apart from a log line): a clustering, given either as a list of clusters
 * or as a document of per-vertex records, becomes the set of unordered
 * same-cluster pairs, each stored as `tuple(sorted([u, v]))`.
 */
module PairCodec {
  import opened Common

  /** A record of the `clustering` table: a vertex label and the label of its centre (JSON null is None). */
  datatype Record = Record(vertex: string, center: Option<string>)

  /** The `tables` entry of a result document: it may lack a `clustering` table. */
  datatype Tables = Tables(clustering: Option<seq<Record>>)

  /** The argument of `build_pairs`: a list of clusters, or a dict that may hold the table. */
  datatype Clustering =
    | ClusterList(clusters: seq<seq<string>>)
    | Document(clustering: Option<seq<Record>>, tables: Option<Tables>)

  datatype PairsError = TypeError

  // ---------------------------------------------------------------------------
  // From clusters to pairs.

  /** The sorted pairs of all position pairs of all clusters. */
  function ClusterPairs(cs: seq<seq<string>>): set<(string, string)>
  {
    set k, p | 0 <= k < |cs| && p in Combinations(cs[k]) :: Canon(p.0, p.1)
  }

  /** `build_pairs` on a list. */
  method PairsOfClusters(clusters: seq<seq<string>>) returns (pairs: set<(string, string)>)
    ensures pairs == ClusterPairs(clusters)
  {
    pairs := {};
    for k := 0 to |clusters|
      invariant pairs == ClusterPairs(clusters[..k])
    {
      var c := clusters[k];
      var combos := Combinations(c);
      ghost var before := pairs;
      for m := 0 to |combos|
        invariant pairs == before + CanonSet(combos[..m])
      {
        var (u, v) := combos[m];
        pairs := pairs + {Canon(u, v)};
        assert combos[..m + 1] == combos[..m] + [combos[m]];
      }
      assert combos[..|combos|] == combos;
      assert clusters[..k + 1][..k] == clusters[..k];
      assert clusters[..k + 1][k] == c;
    }
    assert clusters[..|clusters|] == clusters;
  }

  /**
   * A pair is produced exactly when two distinct positions of one cluster
   * hold its two labels; it is then stored with its smaller label first.
   */
  lemma ClusterPairsMembers(cs: seq<seq<string>>, x: string, y: string)
    ensures (x, y) in ClusterPairs(cs) <==>
              !Less(y, x) && exists k, a, b :: 0 <= k < |cs| && 0 <= a < b < |cs[k]|
                                 && {cs[k][a], cs[k][b]} == {x, y}
  {
    if (x, y) in ClusterPairs(cs) {
      var k, p :| 0 <= k < |cs| && p in Combinations(cs[k]) && Canon(p.0, p.1) == (x, y);
      CombinationsMembers(cs[k], p);
      CanonProperties(p.0, p.1);
    }
    if !Less(y, x) && exists k, a, b :: 0 <= k < |cs| && 0 <= a < b < |cs[k]| && {cs[k][a], cs[k][b]} == {x, y} {
      var k, a, b :| 0 <= k < |cs| && 0 <= a < b < |cs[k]| && {cs[k][a], cs[k][b]} == {x, y};
      var p := (cs[k][a], cs[k][b]);
      CombinationsMembers(cs[k], p);
      CanonProperties(p.0, p.1);
      LessTrichotomy(x, y);
      assert Canon(p.0, p.1) == (x, y);
    }
  }

  /** A cluster with fewer than two positions contributes no pair. */
  lemma SingletonsContributeNothing(cs: seq<seq<string>>, c: seq<string>)
    requires |c| <= 1
    ensures ClusterPairs(cs + [c]) == ClusterPairs(cs)
  {
    var cs' := cs + [c];
    forall q | q in ClusterPairs(cs')
      ensures q in ClusterPairs(cs)
    {
      var k, p :| 0 <= k < |cs'| && p in Combinations(cs'[k]) && Canon(p.0, p.1) == q;
      CombinationsLength(cs'[k]);
      assert k < |cs|;
    }
    forall q | q in ClusterPairs(cs)
      ensures q in ClusterPairs(cs')
    {
      var k, p :| 0 <= k < |cs| && p in Combinations(cs[k]) && Canon(p.0, p.1) == q;
      assert cs'[k] == cs[k];
    }
  }

  /** For clusters without repeated labels, the pairs are all 2-subsets of each cluster. */
  lemma DistinctClusterPairs(cs: seq<seq<string>>)
    requires forall k :: 0 <= k < |cs| ==> NoDup(cs[k])
    ensures forall k :: 0 <= k < |cs| ==> SetPairs(Elems(cs[k])) <= ClusterPairs(cs)
    ensures forall q :: q in ClusterPairs(cs) ==> exists k :: 0 <= k < |cs| && q in SetPairs(Elems(cs[k]))
  {
    forall k | 0 <= k < |cs|
      ensures SetPairs(Elems(cs[k])) <= ClusterPairs(cs)
    {
      CombinationPairsOfDistinct(cs[k]);
    }
    forall q | q in ClusterPairs(cs)
      ensures exists k :: 0 <= k < |cs| && q in SetPairs(Elems(cs[k]))
    {
      var k, p :| 0 <= k < |cs| && p in Combinations(cs[k]) && Canon(p.0, p.1) == q;
      CombinationPairsOfDistinct(cs[k]);
      assert q in CanonSet(Combinations(cs[k]));
    }
  }

  // ---------------------------------------------------------------------------
  // From records to clusters.

  /** The centres in order of first appearance: the key order of `cluster_map`. */
  function Centers(t: seq<Record>): seq<Option<string>>
  {
    if t == [] then []
    else
      var rest := Centers(t[..|t| - 1]);
      var c := t[|t| - 1].center;
      if c in rest then rest else rest + [c]
  }

  /** The labels of the records with centre c, in record order: `cluster_map[c]`. */
  function Members(t: seq<Record>, c: Option<string>): seq<string>
  {
    if t == [] then []
    else Members(t[..|t| - 1], c) + (if t[|t| - 1].center == c then [t[|t| - 1].vertex] else [])
  }

  /** The clusters `list(cluster_map.values())`. */
  function Groups(t: seq<Record>): seq<seq<string>>
  {
    var cs := Centers(t);
    seq(|cs|, k requires 0 <= k < |cs| => Members(t, cs[k]))
  }

  /** The centres listed are exactly the centres of the records, each once. */
  lemma {:induction false} CentersExact(t: seq<Record>)
    ensures NoDup(Centers(t))
    ensures forall c :: c in Centers(t) <==> exists i :: 0 <= i < |t| && t[i].center == c
  {
    if t != [] {
      var t' := t[..|t| - 1];
      CentersExact(t');
      forall c ensures c in Centers(t) <==> exists i :: 0 <= i < |t| && t[i].center == c {
        if c in Centers(t) && c != t[|t| - 1].center {
          var i :| 0 <= i < |t'| && t'[i].center == c;
          assert t[i].center == c;
        }
        if exists i :: 0 <= i < |t| && t[i].center == c {
          var i :| 0 <= i < |t| && t[i].center == c;
          if i < |t| - 1 {
            assert t'[i].center == c;
          }
        }
      }
    }
  }

  /** Grouping a record list whose centres were all seen before only lengthens groups. */
  lemma {:induction false} MembersPrefix(t: seq<Record>, c: Option<string>, j: nat)
    requires j <= |t|
    ensures |Members(t[..j], c)| <= |Members(t, c)|
    ensures Members(t, c)[..|Members(t[..j], c)|] == Members(t[..j], c)
    decreases |t| - j
  {
    if j < |t| {
      MembersPrefix(t, c, j + 1);
      assert t[..j + 1][..j] == t[..j];
    } else {
      assert t[..j] == t;
    }
  }

  /** The position, within its group, of the label of record i. */
  function Rank(t: seq<Record>, c: Option<string>, i: nat): nat
    requires i <= |t|
  {
    |Members(t[..i], c)|
  }

  lemma RankLabel(t: seq<Record>, i: nat)
    requires i < |t|
    ensures Rank(t, t[i].center, i) < |Members(t, t[i].center)|
    ensures Members(t, t[i].center)[Rank(t, t[i].center, i)] == t[i].vertex
  {
    var c := t[i].center;
    MembersPrefix(t, c, i + 1);
    assert t[..i + 1][..i] == t[..i];
    assert Members(t[..i + 1], c) == Members(t[..i], c) + [t[i].vertex];
  }

  lemma RankMonotone(t: seq<Record>, c: Option<string>, i: nat, j: nat)
    requires i < j <= |t| && t[i].center == c
    ensures Rank(t, c, i) < Rank(t, c, j)
  {
    MembersPrefix(t[..j], c, i + 1);
    assert t[..j][..i + 1] == t[..i + 1];
    assert t[..i + 1][..i] == t[..i];
    assert Members(t[..i + 1], c) == Members(t[..i], c) + [t[i].vertex];
  }

  /** The record whose label sits at position a of group c. */
  function Position(t: seq<Record>, c: Option<string>, a: nat): (i: nat)
    requires a < |Members(t, c)|
    ensures i < |t| && t[i].center == c && Rank(t, c, i) == a
  {
    var t' := t[..|t| - 1];
    assert forall i :: 0 <= i <= |t'| ==> t[..i] == t'[..i];
    if t[|t| - 1].center == c && a == |Members(t', c)| then |t| - 1
    else Position(t', c, a)
  }

  /** The pairs of same-centre records. */
  function RecordPairs(t: seq<Record>): set<(string, string)>
  {
    set i, j | 0 <= i < j < |t| && t[i].center == t[j].center :: Canon(t[i].vertex, t[j].vertex)
  }

  /**
   * Grouping by centre loses nothing and adds nothing: the pairs built from
   * the groups are exactly the pairs of records that share a centre.
   */
  lemma GroupPairs(t: seq<Record>)
    ensures ClusterPairs(Groups(t)) == RecordPairs(t)
  {
    var gs := Groups(t);
    CentersExact(t);
    forall q | q in ClusterPairs(gs)
      ensures q in RecordPairs(t)
    {
      var k, p :| 0 <= k < |gs| && p in Combinations(gs[k]) && Canon(p.0, p.1) == q;
      var c := Centers(t)[k];
      CombinationsMembers(gs[k], p);
      var a, b :| 0 <= a < b < |gs[k]| && p == (gs[k][a], gs[k][b]);
      var i, j := Position(t, c, a), Position(t, c, b);
      RankLabel(t, i);
      RankLabel(t, j);
      if j < i {
        RankMonotone(t, c, j, i);
      }
      assert i < j;
      assert q in RecordPairs(t);
    }
    forall q | q in RecordPairs(t)
      ensures q in ClusterPairs(gs)
    {
      var i, j :| 0 <= i < j < |t| && t[i].center == t[j].center && Canon(t[i].vertex, t[j].vertex) == q;
      var c := t[i].center;
      assert c in Centers(t);
      var k :| 0 <= k < |Centers(t)| && Centers(t)[k] == c;
      RankLabel(t, i);
      RankLabel(t, j);
      RankMonotone(t, c, i, j);
      var m := Members(t, c);
      var p := (m[Rank(t, c, i)], m[Rank(t, c, j)]);
      CombinationsMembers(m, p);
      assert gs[k] == m;
    }
  }

  /** The grouping loop of `build_pairs`: `cluster_map` in insertion order. */
  method GroupByCenter(table: seq<Record>) returns (groups: seq<seq<string>>)
    ensures groups == Groups(table)
  {
    var keys: seq<Option<string>> := [];
    var clusterMap: map<Option<string>, seq<string>> := map[];
    for i := 0 to |table|
      invariant keys == Centers(table[..i])
      invariant clusterMap.Keys == Elems(keys)
      invariant forall c :: c in clusterMap ==> clusterMap[c] == Members(table[..i], c)
    {
      var center := table[i].center;
      var vertex := table[i].vertex;
      assert table[..i + 1][..i] == table[..i];
      assert table[..i + 1][i] == table[i];
      CentersExact(table[..i]);
      if center !in clusterMap {
        assert center !in keys;
        assert Members(table[..i], center) == [] by {
          MembersEmpty(table[..i], center);
        }
        clusterMap := clusterMap[center := [vertex]];
        keys := keys + [center];
      } else {
        clusterMap := clusterMap[center := clusterMap[center] + [vertex]];
      }
    }
    assert table[..|table|] == table;
    groups := seq(|keys|, k requires 0 <= k < |keys| => clusterMap[keys[k]]);
  }

  lemma {:induction false} MembersEmpty(t: seq<Record>, c: Option<string>)
    requires forall i :: 0 <= i < |t| ==> t[i].center != c
    ensures Members(t, c) == []
  {
    if t != [] {
      MembersEmpty(t[..|t| - 1], c);
    }
  }

  // ---------------------------------------------------------------------------
  // The entry point.

  /** The table `build_pairs` reads from a document, if any. */
  function Table(data: Clustering): Option<seq<Record>>
    requires data.Document?
  {
    if data.clustering.Some? then data.clustering
    else if data.tables.Some? && data.tables.value.clustering.Some? then data.tables.value.clustering
    else None
  }

  /** `build_pairs` */
  method BuildPairs(data: Clustering) returns (r: Result<set<(string, string)>, PairsError>)
    ensures data.ClusterList? ==> r == Ok(ClusterPairs(data.clusters))
    ensures data.Document? && Table(data).Some? ==> r == Ok(RecordPairs(Table(data).value))
    ensures data.Document? && Table(data).None? ==> r == Err(TypeError)
  {
    if data.ClusterList? {
      var pairs := PairsOfClusters(data.clusters);
      return Ok(pairs);
    }
    var table: seq<Record>;
    if data.clustering.Some? {
      table := data.clustering.value;
    } else if data.tables.Some? && data.tables.value.clustering.Some? {
      table := data.tables.value.clustering.value;
    } else {
      return Err(TypeError);
    }
    var groups := GroupByCenter(table);
    var pairs := PairsOfClusters(groups);
    GroupPairs(table);
    r := Ok(pairs);
  }

  /** Three records, two sharing centre P1: the only pair is (P1, P2). */
  lemma ThreeRecordsExample()
    ensures RecordPairs([Record("P1", Some("P1")), Record("P2", Some("P1")), Record("P3", Some("P3"))])
            == {("P1", "P2")}
  {
    var t := [Record("P1", Some("P1")), Record("P2", Some("P1")), Record("P3", Some("P3"))];
    assert Less("P1", "P2");
    assert Canon("P1", "P2") == ("P1", "P2");
    assert ("P1", "P2") in RecordPairs(t) by {
      assert t[0].center == t[1].center;
    }
    forall q | q in RecordPairs(t)
      ensures q == ("P1", "P2")
    {
      var i, j :| 0 <= i < j < |t| && t[i].center == t[j].center && Canon(t[i].vertex, t[j].vertex) == q;
      assert i == 0 && j == 1;
    }
  }
}
