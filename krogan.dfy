/**
 * Krogan et al. ground-truth reconstruction (scripts/krogan_ground_truth.py):
 * every ORF joins the cluster of each MIPS complex id on its row; the
 * clusters are output largest first, one per line.
 */
module Krogan {
  import opened Common
  import opened Text

  /** A CSV row: its `ORF` and `MIPS complex annotation` columns. */
  datatype Row = Row(orf: string, annotation: string)

  const Novel := "NOVEL"

  /** The (complex id, ORF) entries of the pieces of one annotation, stripped, without `NOVEL`. */
  function Tagged(pieces: seq<string>, orf: string): seq<(string, string)>
  {
    if pieces == [] then []
    else
      var cid := Strip(pieces[|pieces| - 1]);
      Tagged(pieces[..|pieces| - 1], orf) + (if cid != Novel then [(cid, orf)] else [])
  }

  /** The entries of all rows, in the order `build_clusters` adds them. */
  function Contributions(rows: seq<Row>): seq<(string, string)>
  {
    if rows == [] then []
    else
      var row := rows[|rows| - 1];
      Contributions(rows[..|rows| - 1]) + Tagged(Split(row.annotation, {','}), row.orf)
  }

  /** `list(clusters_map.values())`, in the dict's insertion order. */
  function Values(es: seq<(string, string)>): seq<set<string>>
  {
    var keys := KeyOrder(es);
    KeyOrderExact(es);
    seq(|keys|, k requires 0 <= k < |keys| => SetMap(es)[keys[k]])
  }

  function Card(c: set<string>): nat
  {
    |c|
  }

  /** `build_clusters` */
  method BuildClusters(rows: seq<Row>) returns (clusters: seq<set<string>>)
    ensures clusters == SortDesc(Values(Contributions(rows)), Card)
    ensures SortedDesc(clusters, Card)
    ensures multiset(clusters) == multiset(Values(Contributions(rows)))
    ensures forall n :: OfSize(clusters, Card, n) == OfSize(Values(Contributions(rows)), Card, n)
  {
    var keys: seq<string> := [];
    var clustersMap: map<string, set<string>> := map[];
    for i := 0 to |rows|
      invariant keys == KeyOrder(Contributions(rows[..i]))
      invariant clustersMap == SetMap(Contributions(rows[..i]))
    {
      ghost var done := Contributions(rows[..i]);
      keys, clustersMap := AddIds(keys, clustersMap, Split(rows[i].annotation, {','}), rows[i].orf, done);
      assert rows[..i + 1][..i] == rows[..i];
    }
    assert rows[..|rows|] == rows;
    KeyOrderExact(Contributions(rows));
    var values := seq(|keys|, k requires 0 <= k < |keys| => clustersMap[keys[k]]);
    clusters := SortDesc(values, Card);
    SortDescCorrect(values, Card);
    SortDescStableAll(values, Card);
  }

  /** The inner loop of `build_clusters`: one row's ids added to the dict. */
  method AddIds(keys: seq<string>, clustersMap: map<string, set<string>>, cids: seq<string>, orf: string,
                ghost done: seq<(string, string)>)
    returns (keys': seq<string>, clustersMap': map<string, set<string>>)
    requires keys == KeyOrder(done) && clustersMap == SetMap(done)
    ensures keys' == KeyOrder(done + Tagged(cids, orf))
    ensures clustersMap' == SetMap(done + Tagged(cids, orf))
  {
    keys', clustersMap' := keys, clustersMap;
    assert Tagged(cids[..0], orf) == [];
    assert done + [] == done;
    for j := 0 to |cids|
      invariant keys' == KeyOrder(done + Tagged(cids[..j], orf))
      invariant clustersMap' == SetMap(done + Tagged(cids[..j], orf))
    {
      var cid := Strip(cids[j]);
      TaggedStep(cids, orf, j);
      ghost var es := done + Tagged(cids[..j], orf);
      if cid != Novel {
        assert done + Tagged(cids[..j + 1], orf) == es + [(cid, orf)];
        SetMapAppend(es, (cid, orf));
        if cid !in clustersMap' {
          clustersMap' := clustersMap'[cid := {orf}];
          keys' := keys' + [cid];
        } else {
          clustersMap' := clustersMap'[cid := clustersMap'[cid] + {orf}];
        }
      } else {
        assert done + Tagged(cids[..j + 1], orf) == es;
      }
    }
    assert cids[..|cids|] == cids;
  }

  lemma TaggedStep(pieces: seq<string>, orf: string, j: nat)
    requires j < |pieces|
    ensures Tagged(pieces[..j + 1], orf) ==
              Tagged(pieces[..j], orf) + (if Strip(pieces[j]) != Novel then [(Strip(pieces[j]), orf)] else [])
  {
    assert pieces[..j + 1][..j] == pieces[..j];
  }

  /** The complex ids of an annotation: its comma-separated pieces, stripped, except `NOVEL`. */
  function Ids(annotation: string): set<string>
  {
    set p | p in Split(annotation, {','}) && Strip(p) != Novel :: Strip(p)
  }

  /** Some piece strips to c. */
  predicate Names(pieces: seq<string>, c: string)
  {
    exists p :: p in pieces && Strip(p) == c
  }

  lemma NamesStep(pieces: seq<string>, c: string)
    requires pieces != []
    ensures Names(pieces, c) <==> Names(pieces[..|pieces| - 1], c) || Strip(pieces[|pieces| - 1]) == c
  {
    var init := pieces[..|pieces| - 1];
    var last := pieces[|pieces| - 1];
    assert pieces == init + [last];
    if Names(pieces, c) {
      var p :| p in pieces && Strip(p) == c;
      assert p in init || p == last;
    }
    if Names(init, c) {
      var p :| p in init && Strip(p) == c;
      assert p in pieces;
    }
    if Strip(last) == c {
      assert last in pieces;
    }
  }

  lemma {:induction false} TaggedMembers(pieces: seq<string>, orf: string, c: string, x: string)
    ensures (c, x) in Tagged(pieces, orf) <==> x == orf && c != Novel && exists p :: p in pieces && Strip(p) == c
  {
    if pieces != [] {
      TaggedMembers(pieces[..|pieces| - 1], orf, c, x);
      NamesStep(pieces, c);
    }
  }

  lemma IdsMembers(annotation: string, c: string)
    ensures c in Ids(annotation) <==> c != Novel && exists p :: p in Split(annotation, {','}) && Strip(p) == c
  {
  }

  /**
   * What a complex id looks like: never the `NOVEL` marker, no surrounding
   * whitespace, and no comma, since it comes from one stripped piece.
   */
  lemma IdsShape(annotation: string, c: string)
    requires c in Ids(annotation)
    ensures c != Novel
    ensures c == [] || (!IsSpace(c[0]) && !IsSpace(c[|c| - 1]))
    ensures ',' !in c
  {
    var pieces := Split(annotation, {','});
    var p :| p in pieces && Strip(p) != Novel && Strip(p) == c;
    var k :| 0 <= k < |pieces| && pieces[k] == p;
    SplitPiecesHaveNoSeparator(annotation, {','});
    assert forall m :: 0 <= m < |p| ==> p[m] != ',' by {
      assert forall m :: 0 <= m < |p| ==> pieces[k][m] !in {','};
    }
    StripInfix(p);
    InfixKeepsOut(p, |p| - |StripLeft(p)|, c, ',');
  }

  /** A character absent from a string is absent from each of its infixes. */
  lemma InfixKeepsOut(p: string, i: nat, c: string, x: char)
    requires i + |c| <= |p| && c == p[i..i + |c|]
    requires forall m :: 0 <= m < |p| ==> p[m] != x
    ensures x !in c
  {
    forall m | 0 <= m < |c|
      ensures c[m] != x
    {
      assert c[m] == p[i + m];
    }
  }

  lemma ContributionsStep(rows: seq<Row>, e: (string, string))
    requires rows != []
    ensures e in Contributions(rows) <==>
              e in Contributions(rows[..|rows| - 1]) || e in Tagged(Split(rows[|rows| - 1].annotation, {','}), rows[|rows| - 1].orf)
  {
  }

  lemma TaggedIds(row: Row, c: string, x: string)
    ensures (c, x) in Tagged(Split(row.annotation, {','}), row.orf) <==> x == row.orf && c in Ids(row.annotation)
  {
    TaggedMembers(Split(row.annotation, {','}), row.orf, c, x);
    IdsMembers(row.annotation, c);
  }

  /** Some row lists ORF x under complex id c. */
  predicate Lists(rows: seq<Row>, c: string, x: string)
  {
    exists r :: r in rows && r.orf == x && c in Ids(r.annotation)
  }

  lemma ListsStep(rows: seq<Row>, c: string, x: string)
    requires rows != []
    ensures Lists(rows, c, x) <==>
              Lists(rows[..|rows| - 1], c, x) || (rows[|rows| - 1].orf == x && c in Ids(rows[|rows| - 1].annotation))
  {
    var init := rows[..|rows| - 1];
    var last := rows[|rows| - 1];
    assert rows == init + [last];
    if Lists(rows, c, x) {
      var r :| r in rows && r.orf == x && c in Ids(r.annotation);
      assert r in init || r == last;
    }
    if Lists(init, c, x) {
      var r :| r in init && r.orf == x && c in Ids(r.annotation);
      assert r in rows;
    }
    if last.orf == x && c in Ids(last.annotation) {
      assert last in rows;
    }
  }

  lemma {:induction false} ContributionsMembers(rows: seq<Row>, c: string, x: string)
    ensures (c, x) in Contributions(rows) <==> exists r :: r in rows && r.orf == x && c in Ids(r.annotation)
  {
    if rows != [] {
      var init := rows[..|rows| - 1];
      ContributionsMembers(init, c, x);
      TaggedIds(rows[|rows| - 1], c, x);
      ContributionsStep(rows, (c, x));
      ListsStep(rows, c, x);
    }
  }

  /**
   * The cluster of complex id c holds exactly the ORFs of the rows one of
   * whose comma-separated, stripped ids is c; `NOVEL` has no cluster.
   */
  lemma ClusterMembers(rows: seq<Row>, c: string, x: string)
    ensures Novel !in SetMap(Contributions(rows))
    ensures c in SetMap(Contributions(rows)) && x in SetMap(Contributions(rows))[c] <==>
              exists r :: r in rows && r.orf == x && c in Ids(r.annotation)
  {
    var es := Contributions(rows);
    SetMapMembers(es);
    ContributionsMembers(rows, c, x);
    if Novel in SetMap(es) {
      var y :| (Novel, y) in es;
      ContributionsMembers(rows, Novel, y);
    }
  }

  /** An empty annotation yields the single id "", which is kept. */
  lemma EmptyAnnotationId()
    ensures Ids("") == {""}
  {
    assert Split("", {','}) == [""];
    assert Strip("") == "";
  }

  // ---------------------------------------------------------------------------
  // Output.

  /** A cluster's line: every protein followed by a space, then a newline. */
  function ClusterLine(ps: seq<string>): string
  {
    if ps == [] then "\n" else ps[0] + " " + ClusterLine(ps[1..])
  }

  function Lines(orders: seq<seq<string>>): string
  {
    if orders == [] then "" else Lines(orders[..|orders| - 1]) + ClusterLine(orders[|orders| - 1])
  }

  /** The output loop: each cluster's proteins in set order, one cluster per line. */
  method WriteClusters(clusters: seq<set<string>>) returns (out: string, ghost orders: seq<seq<string>>)
    ensures |orders| == |clusters|
    ensures forall i :: 0 <= i < |clusters| ==> NoDup(orders[i]) && Elems(orders[i]) == clusters[i]
    ensures out == Lines(orders)
  {
    out := "";
    orders := [];
    for i := 0 to |clusters|
      invariant |orders| == i
      invariant forall k :: 0 <= k < i ==> NoDup(orders[k]) && Elems(orders[k]) == clusters[k]
      invariant out == Lines(orders)
    {
      var ps := Enumerate(clusters[i]);
      ghost var before := out;
      for m := 0 to |ps|
        invariant out == before + PrefixText(ps[..m])
      {
        out := out + ps[m];
        out := out + " ";
        PrefixTextAppend(ps[..m], ps[m]);
        assert ps[..m + 1] == ps[..m] + [ps[m]];
      }
      out := out + "\n";
      assert ps[..|ps|] == ps;
      PrefixTextLine(ps);
      assert (orders + [ps])[..i] == orders;
      orders := orders + [ps];
    }
  }

  /** The text written for the proteins so far, before the newline. */
  function PrefixText(ps: seq<string>): string
  {
    if ps == [] then "" else ps[0] + " " + PrefixText(ps[1..])
  }

  lemma {:induction false} PrefixTextAppend(ps: seq<string>, p: string)
    ensures PrefixText(ps + [p]) == PrefixText(ps) + p + " "
  {
    if ps != [] {
      assert (ps + [p])[1..] == ps[1..] + [p];
      PrefixTextAppend(ps[1..], p);
    }
  }

  lemma {:induction false} PrefixTextLine(ps: seq<string>)
    ensures ClusterLine(ps) == PrefixText(ps) + "\n"
  {
    if ps != [] {
      PrefixTextLine(ps[1..]);
    }
  }

  /** Reading a cluster line back with `split()` gives its proteins, when each is one non-empty word. */
  lemma {:induction false} ClusterLineReadsBack(ps: seq<string>)
    requires forall i :: 0 <= i < |ps| ==> |ps[i]| > 0 && NoSpace(ps[i])
    ensures Words(ClusterLine(ps)) == ps
  {
    if ps == [] {
      assert Words("\n") == Words("");
    } else {
      ClusterLineReadsBack(ps[1..]);
      WordsCons(ps[0], ' ', ClusterLine(ps[1..]));
      assert ClusterLine(ps) == ps[0] + [' '] + ClusterLine(ps[1..]);
    }
  }
}
