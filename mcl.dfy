/**
 * The MCL wrapper (scripts/mcl.py): the clusters and the attractors
 * (centres) read from the text that `mcxdump` prints, and the result
 * document with one `{label, center label}` record per clustered vertex.
 * The external programs are not modelled: their output is a given string.
 */
module Mcl {
  import opened Common
  import opened Text
  import PairCodec

  // ---------------------------------------------------------------------------
  // Reading the clusters.

  /** The token sets of the lines, without the empty ones, in line order. */
  function NonEmptySets(lines: seq<string>): (cs: seq<set<string>>)
    ensures |cs| <= |lines|
    ensures forall k :: 0 <= k < |cs| ==> cs[k] != {}
  {
    if lines == [] then []
    else
      var c := Elems(Words(lines[|lines| - 1]));
      NonEmptySets(lines[..|lines| - 1]) + (if |c| > 0 then [c] else [])
  }

  /** Some line holds exactly the tokens c. */
  predicate ReadsAs(lines: seq<string>, c: set<string>)
  {
    exists i :: 0 <= i < |lines| && Elems(Words(lines[i])) == c
  }

  lemma ReadsAsStep(lines: seq<string>, c: set<string>)
    requires lines != []
    ensures ReadsAs(lines, c) <==> ReadsAs(lines[..|lines| - 1], c) || Elems(Words(lines[|lines| - 1])) == c
  {
    var init := lines[..|lines| - 1];
    if ReadsAs(lines, c) {
      var i :| 0 <= i < |lines| && Elems(Words(lines[i])) == c;
      if i < |init| {
        assert init[i] == lines[i];
      }
    }
    if ReadsAs(init, c) {
      var i :| 0 <= i < |init| && Elems(Words(init[i])) == c;
      assert lines[i] == init[i];
    }
  }

  /** A cluster is read exactly when some line holds exactly its tokens, at least one. */
  lemma {:induction false} NonEmptySetsMembers(lines: seq<string>, c: set<string>)
    ensures c in NonEmptySets(lines) <==> c != {} && exists i :: 0 <= i < |lines| && Elems(Words(lines[i])) == c
  {
    if lines != [] {
      NonEmptySetsMembers(lines[..|lines| - 1], c);
      ReadsAsStep(lines, c);
    }
  }

  /** `build_clusters` on the printed clusters. */
  method BuildClusters(outs: string) returns (clusters: seq<set<string>>)
    ensures clusters == NonEmptySets(Split(outs, {'\n'}))
  {
    var lines := Split(outs, {'\n'});
    clusters := [];
    for i := 0 to |lines|
      invariant clusters == NonEmptySets(lines[..i])
    {
      var c := Elems(Words(lines[i]));
      if |c| > 0 {
        clusters := clusters + [c];
      }
      assert lines[..i + 1][..i] == lines[..i];
    }
    assert lines[..|lines|] == lines;
  }

  // ---------------------------------------------------------------------------
  // Reading the centres.

  /** The first tokens of the three-token lines `u v score` with u == v. */
  function CentersOf(lines: seq<string>): set<string>
  {
    set l | l in lines && |Words(l)| == 3 && Words(l)[0] == Words(l)[1] :: Words(l)[0]
  }

  /** `get_centers` on the printed pairs. */
  method GetCenters(outs: string) returns (centers: set<string>)
    ensures centers == CentersOf(Split(outs, {'\n'}))
  {
    var lines := Split(outs, {'\n'});
    centers := {};
    for i := 0 to |lines|
      invariant centers == CentersOf(lines[..i])
    {
      var tokens := Words(lines[i]);
      assert lines[..i + 1] == lines[..i] + [lines[i]];
      if |tokens| == 3 {
        var u, v := tokens[0], tokens[1];
        if u == v {
          centers := centers + {u};
        }
      }
    }
    assert lines[..|lines|] == lines;
  }

  /** A pair line `u v score` names the centre u exactly when u == v; a two-token line names none. */
  lemma PairLineCenter(u: string, v: string, score: string)
    requires |u| > 0 && NoSpace(u) && |v| > 0 && NoSpace(v) && |score| > 0 && NoSpace(score)
    ensures CentersOf([u + " " + v + " " + score]) == if u == v then {u} else {}
    ensures CentersOf([u + " " + v]) == {}
  {
    SpacedWords(u, v, score);
  }

  // ---------------------------------------------------------------------------
  // The result document.

  datatype Tags = Tags(algorithm: string, inflation: real, graph: string)

  /** The JSON object `build_result` returns: its date, tags, `num clusters` statistic and clustering table. */
  datatype Document = Document(date: string, tags: Tags, numClusters: nat, clustering: seq<PairCodec.Record>)

  /** The centre of a cluster: the first centre, in iteration order, that belongs to it. */
  function FirstIn(order: seq<string>, cluster: set<string>): (r: Option<string>)
    ensures r.None? <==> forall i :: 0 <= i < |order| ==> order[i] !in cluster
    ensures r.Some? ==> r.value in cluster && r.value in order
  {
    if order == [] then None
    else if order[0] in cluster then Some(order[0])
    else
      var r := FirstIn(order[1..], cluster);
      assert forall i :: 1 <= i < |order| ==> order[i] == order[1..][i - 1];
      r
  }

  /** The centre is the centre at the first position m that belongs to the cluster. */
  lemma {:induction false} FirstInAt(order: seq<string>, cluster: set<string>, m: nat)
    requires m < |order| && order[m] in cluster
    requires forall j :: 0 <= j < m ==> order[j] !in cluster
    ensures FirstIn(order, cluster) == Some(order[m])
  {
    if m > 0 {
      FirstInAt(order[1..], cluster, m - 1);
    }
  }

  /** The records of one cluster, in its iteration order, all with the same centre. */
  function ClusterRecords(vs: seq<string>, center: Option<string>): seq<PairCodec.Record>
  {
    seq(|vs|, i requires 0 <= i < |vs| => PairCodec.Record(vs[i], center))
  }

  /** The clustering table for clusters visited in the orders ms, with centres taken in order `order`. */
  function AllRecords(ms: seq<seq<string>>, order: seq<string>): seq<PairCodec.Record>
  {
    if ms == [] then []
    else
      var last := ms[|ms| - 1];
      AllRecords(ms[..|ms| - 1], order) + ClusterRecords(last, FirstIn(order, Elems(last)))
  }

  lemma ClusterRecordsMembers(vs: seq<string>, center: Option<string>, r: PairCodec.Record)
    ensures r in ClusterRecords(vs, center) <==> r.vertex in vs && r.center == center
  {
    if r.vertex in vs && r.center == center {
      var i :| 0 <= i < |vs| && vs[i] == r.vertex;
      assert ClusterRecords(vs, center)[i] == r;
    }
  }

  /** Some cluster holds r's vertex and has r's centre. */
  predicate Centred(ms: seq<seq<string>>, order: seq<string>, r: PairCodec.Record)
  {
    exists k :: 0 <= k < |ms| && r.vertex in ms[k] && r.center == FirstIn(order, Elems(ms[k]))
  }

  lemma CentredStep(ms: seq<seq<string>>, order: seq<string>, r: PairCodec.Record)
    requires ms != []
    ensures Centred(ms, order, r) <==>
              Centred(ms[..|ms| - 1], order, r) ||
              (r.vertex in ms[|ms| - 1] && r.center == FirstIn(order, Elems(ms[|ms| - 1])))
  {
    var init := ms[..|ms| - 1];
    if Centred(ms, order, r) {
      var k :| 0 <= k < |ms| && r.vertex in ms[k] && r.center == FirstIn(order, Elems(ms[k]));
      if k < |init| {
        assert init[k] == ms[k];
      }
    }
    if Centred(init, order, r) {
      var k :| 0 <= k < |init| && r.vertex in init[k] && r.center == FirstIn(order, Elems(init[k]));
      assert ms[k] == init[k];
    }
  }

  /**
   * The table holds one record per vertex occurrence; a record (v, c) is in
   * it exactly when v is in some cluster whose centre is c.
   */
  lemma {:induction false} AllRecordsMembers(ms: seq<seq<string>>, order: seq<string>, r: PairCodec.Record)
    ensures |AllRecords(ms, order)| == TotalSize(ms)
    ensures r in AllRecords(ms, order) <==>
              exists k :: 0 <= k < |ms| && r.vertex in ms[k] && r.center == FirstIn(order, Elems(ms[k]))
  {
    if ms != [] {
      var last := ms[|ms| - 1];
      AllRecordsMembers(ms[..|ms| - 1], order, r);
      ClusterRecordsMembers(last, FirstIn(order, Elems(last)), r);
      CentredStep(ms, order, r);
    }
  }

  /**
   * `build_result`.  The date is the clock reading, given as a parameter;
   * `order` is the iteration order of `centers` and `members[k]` that of
   * `clusters[k]`.
   */
  method BuildResult(clusters: seq<set<string>>, centers: set<string>, abcPath: string, inflation: real, date: string)
    returns (doc: Document, ghost order: seq<string>, ghost members: seq<seq<string>>)
    ensures Elems(order) == centers && NoDup(order)
    ensures |members| == |clusters|
    ensures forall k :: 0 <= k < |clusters| ==> Elems(members[k]) == clusters[k] && NoDup(members[k])
    ensures doc.date == date && doc.tags == Tags("mcl", inflation, abcPath)
    ensures doc.numClusters == |clusters|
    ensures doc.clustering == AllRecords(members, order)
  {
    var tags := Tags("mcl", inflation, abcPath);
    var clustering: seq<PairCodec.Record> := [];
    var centerOrder := Enumerate(centers);
    order := centerOrder;
    members := [];
    for k := 0 to |clusters|
      invariant |members| == k
      invariant forall q :: 0 <= q < k ==> Elems(members[q]) == clusters[q] && NoDup(members[q])
      invariant clustering == AllRecords(members, order)
    {
      var cluster := clusters[k];
      var center: Option<string> := None;
      var m := 0;
      while m < |centerOrder|
        invariant 0 <= m <= |centerOrder|
        invariant center.None? ==> forall j :: 0 <= j < m ==> centerOrder[j] !in cluster
        invariant center.Some? ==> center == FirstIn(order, cluster)
        decreases |centerOrder| - m, center.None?
      {
        if centerOrder[m] in cluster {
          FirstInAt(order, cluster, m);
          center := Some(centerOrder[m]);
          break;
        }
        m := m + 1;
      }
      assert center == FirstIn(order, cluster);
      var vs := Enumerate(cluster);
      ghost var before := clustering;
      for i := 0 to |vs|
        invariant clustering == before + ClusterRecords(vs[..i], center)
      {
        clustering := clustering + [PairCodec.Record(vs[i], center)];
      }
      assert vs[..|vs|] == vs;
      members := members + [vs];
      assert members[..k] == members[..|members| - 1];
    }
    doc := Document(date, tags, |clusters|, clustering);
  }

  /**
   * Clusters without a centre all get the centre None, so `build_pairs`
   * reads two such single-vertex clusters {a} and {b} as one cluster.
   */
  lemma CentrelessClustersMerge()
    ensures AllRecords([["a"], ["b"]], []) == [PairCodec.Record("a", None), PairCodec.Record("b", None)]
    ensures PairCodec.RecordPairs(AllRecords([["a"], ["b"]], [])) == {("a", "b")}
  {
    var ms := [["a"], ["b"]];
    assert ms[..1] == [["a"]];
    assert ms[..1][..0] == [];
    var t := [PairCodec.Record("a", None), PairCodec.Record("b", None)];
    assert AllRecords(ms, []) == t;
    assert Less("a", "b");
    assert Canon("a", "b") == ("a", "b");
    assert Canon(t[0].vertex, t[1].vertex) == ("a", "b");
    forall q | q in PairCodec.RecordPairs(t)
      ensures q == ("a", "b")
    {
      var i, j :| 0 <= i < j < |t| && t[i].center == t[j].center && Canon(t[i].vertex, t[j].vertex) == q;
      assert i == 0 && j == 1;
    }
  }
}
