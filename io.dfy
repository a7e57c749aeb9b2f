/**
 * Reading an uncertain graph from an edge list (core/io.cpp): each line
 * names two endpoints and optionally a probability; vertices are created
 * on first mention, and an edge is added only the first time its
 * unordered pair of endpoints is seen.
 */
module EdgeListIo {
  import opened Common
  import opened Text
  import opened Types
  import opened ConnectionMap

  /** An edge of `ugraph_t`: its endpoints and its data. */
  datatype Edge = Edge(src: nat, dst: nat, data: EdgeData)

  /**
   * What `read_edge_list` throws: the `std::runtime_error` of a file that
   * cannot be opened, or the exception of `std::stof`
   * (`std::invalid_argument` or `std::out_of_range`) on a probability
   * token it cannot convert.
   */
  datatype ReadError = RuntimeError(message: string) | StofError(token: string)

  const FileNotFound := "File not found!"

  /** The separators of `is_any_of("\t ")`. */
  const Separators: set<char> := {'\t', ' '}

  /**
   * `ugraph_t`, as the reader uses it: vertices are numbered in the order
   * they are added (boost's `vecS`), each with its data, and edges are
   * kept in the order they are added.
   */
  class UGraph {
    var labels: seq<VertexData>
    var edges: seq<Edge>

    constructor ()
      ensures labels == [] && edges == []
    {
      labels := [];
      edges := [];
    }

    /** `add_vertex(data, g)`: the new vertex gets the next number. */
    method AddVertex(data: VertexData) returns (id: nat)
      modifies this
      ensures id == |old(labels)| && labels == old(labels) + [data] && edges == old(edges)
    {
      id := |labels|;
      labels := labels + [data];
    }

    /** `add_edge(u, v, data, g)` */
    method AddEdge(u: nat, v: nat, data: EdgeData)
      modifies this
      ensures edges == old(edges) + [Edge(u, v, data)] && labels == old(labels)
    {
      edges := edges + [Edge(u, v, data)];
    }
  }

  // ---------------------------------------------------------------------------
  // The reading, as values

  /** The reader's state: the graph, the name map, the `dedup` set of pair keys and the factory's next index. */
  datatype Reading = Reading(
    labels: seq<VertexData>,
    edges: seq<Edge>,
    names: map<string, nat>,
    dedup: set<(nat, nat)>,
    added: nat)

  /**
   * Where a reading stands: still going, or stopped because `stof`
   * rejected `token`, with the graph as the throw left it.
   */
  datatype Progress = Going(st: Reading) | Stopped(st: Reading, token: string)

  /** A reading of a graph that starts with an empty map, an empty set and a fresh factory. */
  function Start(labels: seq<VertexData>, edges: seq<Edge>): Reading
  {
    Reading(labels, edges, map[], {}, 0)
  }

  /** `get_or_add`: the id of a name, adding a vertex labelled with it the first time. */
  function Intern(labels: seq<VertexData>, names: map<string, nat>, name: string): (r: (nat, seq<VertexData>, map<string, nat>))
  {
    if name in names then (names[name], labels, names)
    else (|labels|, labels + [VertexData(name)], names[name := |labels|])
  }

  /** Every name in the map stands for a vertex with that label. */
  predicate NamesConsistent(labels: seq<VertexData>, names: map<string, nat>)
  {
    forall n :: n in names ==> names[n] < |labels| && labels[names[n]].name == n
  }

  /**
   * Interning keeps the map consistent, returns a vertex labelled with
   * the name, only ever appends a vertex, and appends one exactly when
   * the name is new.
   */
  lemma InternMeaning(labels: seq<VertexData>, names: map<string, nat>, name: string)
    requires NamesConsistent(labels, names)
    ensures var (id, labels', names') := Intern(labels, names, name);
            NamesConsistent(labels', names') && id < |labels'| && labels'[id].name == name &&
            name in names' && names'[name] == id && names.Keys <= names'.Keys &&
            labels <= labels' &&
            (|labels'| == |labels| <==> name in names)
  {
  }

  /** A line the reader skips: empty, or a comment. */
  predicate Skipped(line: string)
  {
    |line| == 0 || line[0] == '#'
  }

  /** A line the reader can take: skipped, or with at least two tokens (`tokens[1]` is read unchecked). */
  predicate Readable(line: string)
  {
    Skipped(line) || |Split(line, Separators)| >= 2
  }

  /** The probability of a line: its third token, parsed (None where `stof` throws), else 1.0. */
  function Probability(tokens: seq<string>, parse: string -> Option<real>): Option<real>
  {
    if |tokens| > 2 then parse(tokens[2]) else Some(1.0)
  }

  /**
   * The body of the loop for a line's tokens: intern both endpoints, parse
   * the probability, which may throw, then add the edge if its key is new.
   */
  function ReadTokens(st: Reading, tokens: seq<string>, parse: string -> Option<real>): Progress
    requires |tokens| >= 2
  {
    var (src, labels1, names1) := Intern(st.labels, st.names, tokens[0]);
    var (dst, labels2, names2) := Intern(labels1, names1, tokens[1]);
    var key := Key(src, dst);
    var probability := Probability(tokens, parse);
    if probability.None? then Stopped(st.(labels := labels2, names := names2), tokens[2])
    else if key in st.dedup then Going(st.(labels := labels2, names := names2))
    else
      Going(Reading(labels2, st.edges + [Edge(src, dst, EdgeData(probability.value, st.added))],
                    names2, st.dedup + {key}, st.added + 1))
  }

  function ReadLine(st: Reading, line: string, parse: string -> Option<real>): Progress
    requires Readable(line)
  {
    if Skipped(line) then Going(st) else ReadTokens(st, Split(line, Separators), parse)
  }

  /** The lines read in order, up to the first throw. */
  function ReadLines(st: Reading, lines: seq<string>, parse: string -> Option<real>): Progress
    requires forall i :: 0 <= i < |lines| ==> Readable(lines[i])
  {
    if |lines| == 0 then Going(st)
    else
      var front := ReadLines(st, lines[..|lines| - 1], parse);
      if front.Stopped? then front else ReadLine(front.st, lines[|lines| - 1], parse)
  }

  // ---------------------------------------------------------------------------
  // What the reading keeps

  /** The keys of the edges from position base on. */
  function KeysFrom(edges: seq<Edge>, base: nat): set<(nat, nat)>
  {
    set k | base <= k < |edges| :: Key(edges[k].src, edges[k].dst)
  }

  /**
   * What holds of a reading that started on a graph with `base` edges:
   * the map is consistent; the added edges join existing vertices, are
   * numbered 0, 1, 2, ... by the factory, have pairwise different keys,
   * and their keys are exactly the dedup set.
   */
  predicate Invariant(st: Reading, base: nat)
  {
    NamesConsistent(st.labels, st.names) &&
    |st.edges| == base + st.added &&
    (forall k :: base <= k < |st.edges| ==>
       st.edges[k].src < |st.labels| && st.edges[k].dst < |st.labels| && st.edges[k].data.index == k - base) &&
    DistinctFrom(st.edges, base) &&
    st.dedup == KeysFrom(st.edges, base)
  }

  /** The edges from position base on have pairwise different keys. */
  predicate DistinctFrom(edges: seq<Edge>, base: nat)
  {
    forall k, l :: base <= k < l < |edges| ==>
      Key(edges[k].src, edges[k].dst) != Key(edges[l].src, edges[l].dst)
  }

  /** Appending an edge whose key is new keeps the keys distinct and adds its key to them. */
  lemma AppendNewKey(edges: seq<Edge>, base: nat, e: Edge)
    requires base <= |edges| && DistinctFrom(edges, base) && Key(e.src, e.dst) !in KeysFrom(edges, base)
    ensures DistinctFrom(edges + [e], base)
    ensures KeysFrom(edges + [e], base) == KeysFrom(edges, base) + {Key(e.src, e.dst)}
  {
    var r := edges + [e];
    forall x | x in KeysFrom(r, base)
      ensures x in KeysFrom(edges, base) + {Key(e.src, e.dst)}
    {
      var k :| base <= k < |r| && x == Key(r[k].src, r[k].dst);
      if k < |edges| {
        assert r[k] == edges[k];
      }
    }
    forall x | x in KeysFrom(edges, base) + {Key(e.src, e.dst)}
      ensures x in KeysFrom(r, base)
    {
      var k := |edges|;
      if x != Key(e.src, e.dst) {
        k :| base <= k < |edges| && x == Key(edges[k].src, edges[k].dst);
      }
      assert r[k] == if k < |edges| then edges[k] else e;
      assert x == Key(r[k].src, r[k].dst);
    }
    forall k, l | base <= k < l < |r|
      ensures Key(r[k].src, r[k].dst) != Key(r[l].src, r[l].dst)
    {
      if l == |edges| {
        assert r[k] == edges[k];
        assert Key(edges[k].src, edges[k].dst) in KeysFrom(edges, base);
      } else {
        assert r[k] == edges[k] && r[l] == edges[l];
      }
    }
  }

  /** One line's tokens keep the invariant, and only ever append vertices and edges. */
  lemma ReadTokensKeeps(st: Reading, tokens: seq<string>, parse: string -> Option<real>, base: nat)
    requires |tokens| >= 2 && Invariant(st, base)
    ensures var r := ReadTokens(st, tokens, parse).st;
            Invariant(r, base) && st.labels <= r.labels && st.edges <= r.edges
  {
    InternMeaning(st.labels, st.names, tokens[0]);
    var (src, labels1, names1) := Intern(st.labels, st.names, tokens[0]);
    InternMeaning(labels1, names1, tokens[1]);
    var (dst, labels2, names2) := Intern(labels1, names1, tokens[1]);
    var grown := st.(labels := labels2, names := names2);
    GrowKeeps(st, labels2, names2, base);
    var probability := Probability(tokens, parse);
    if probability.Some? && Key(src, dst) !in st.dedup {
      PushKeeps(grown, Edge(src, dst, EdgeData(probability.value, st.added)), base);
    }
  }

  /** New vertices keep the invariant: the edges still name existing vertices. */
  lemma GrowKeeps(st: Reading, labels: seq<VertexData>, names: map<string, nat>, base: nat)
    requires Invariant(st, base) && NamesConsistent(labels, names) && st.labels <= labels
    ensures Invariant(st.(labels := labels, names := names), base)
  {
  }

  /** An edge between existing vertices, with a new key and the next index, keeps the invariant. */
  lemma PushKeeps(st: Reading, e: Edge, base: nat)
    requires Invariant(st, base)
    requires e.src < |st.labels| && e.dst < |st.labels| && e.data.index == st.added
    requires Key(e.src, e.dst) !in st.dedup
    ensures Invariant(Reading(st.labels, st.edges + [e], st.names, st.dedup + {Key(e.src, e.dst)}, st.added + 1), base)
  {
    AppendNewKey(st.edges, base, e);
  }

  /** Reading any lines from the start keeps the invariant and only appends to the graph. */
  lemma {:induction false} ReadLinesKeeps(st: Reading, lines: seq<string>, parse: string -> Option<real>, base: nat)
    requires forall i :: 0 <= i < |lines| ==> Readable(lines[i])
    requires Invariant(st, base)
    ensures var r := ReadLines(st, lines, parse).st;
            Invariant(r, base) && st.labels <= r.labels && st.edges <= r.edges
  {
    if |lines| > 0 {
      var front := lines[..|lines| - 1];
      ReadLinesKeeps(st, front, parse, base);
      var mid := ReadLines(st, front, parse);
      var line := lines[|lines| - 1];
      if mid.Going? && !Skipped(line) {
        ReadTokensKeeps(mid.st, Split(line, Separators), parse, base);
      }
    }
  }

  /** A fresh reading of any graph satisfies the invariant. */
  lemma StartInvariant(labels: seq<VertexData>, edges: seq<Edge>)
    ensures Invariant(Start(labels, edges), |edges|)
  {
    assert KeysFrom(edges, |edges|) == {};
  }

  /**
   * What one line's tokens add when `stof` accepts the probability: the
   * edge, when there is one, joins the vertices named by the first two
   * tokens, carries the line's probability and the factory's next index;
   * there is none exactly when the pair, in either order, was seen
   * before: the first edge wins.
   */
  lemma ReadTokensMeaning(st: Reading, tokens: seq<string>, parse: string -> Option<real>)
    requires |tokens| >= 2 && NamesConsistent(st.labels, st.names)
    ensures var r := ReadTokens(st, tokens, parse);
            (r.Going? <==> Probability(tokens, parse).Some?) &&
            (r.Going? ==>
               (|r.st.edges| == |st.edges| + 1 || r.st.edges == st.edges) &&
               (|r.st.edges| == |st.edges| + 1 ==>
                  var e := r.st.edges[|st.edges|];
                  r.st.labels[e.src].name == tokens[0] && r.st.labels[e.dst].name == tokens[1] &&
                  e.data == EdgeData(Probability(tokens, parse).value, st.added) &&
                  Key(e.src, e.dst) !in st.dedup) &&
               (r.st.edges == st.edges <==> Key(r.st.names[tokens[0]], r.st.names[tokens[1]]) in st.dedup))
  {
    InternMeaning(st.labels, st.names, tokens[0]);
    var (src, labels1, names1) := Intern(st.labels, st.names, tokens[0]);
    InternMeaning(labels1, names1, tokens[1]);
  }

  /**
   * A third token that `stof` rejects throws after both endpoints were
   * interned: their vertices stay in the graph, but no edge, dedup key
   * or factory index is added.
   */
  lemma RejectedProbability(st: Reading, tokens: seq<string>, parse: string -> Option<real>)
    requires |tokens| > 2 && parse(tokens[2]).None? && NamesConsistent(st.labels, st.names)
    ensures var r := ReadTokens(st, tokens, parse);
            r.Stopped? && r.token == tokens[2] &&
            r.st.edges == st.edges && r.st.dedup == st.dedup && r.st.added == st.added &&
            st.labels <= r.st.labels && NamesConsistent(r.st.labels, r.st.names) &&
            tokens[0] in r.st.names && tokens[1] in r.st.names
  {
    InternMeaning(st.labels, st.names, tokens[0]);
    var (src, labels1, names1) := Intern(st.labels, st.names, tokens[0]);
    InternMeaning(labels1, names1, tokens[1]);
  }

  /**
   * Two adjacent separators make an empty token: the line "u  v" interns
   * "u" and the empty name, then throws when `stof` rejects "v".
   */
  lemma DoubledSeparatorThrows(parse: string -> Option<real>)
    requires parse("v").None?
    ensures ReadLine(Start([], []), "u  v", parse)
            == Stopped(Reading([VertexData("u"), VertexData("")], [], map["u" := 0, "" := 1], {}, 0), "v")
  {
    assert 'u' !in Separators && 'v' !in Separators;
    assert "v"[1..] == [] && ['v'] + "" == "v";
    assert Split("v", Separators) == ["v"];
    assert " v"[1..] == "v";
    assert Split(" v", Separators) == ["", "v"];
    assert "  v"[1..] == " v";
    assert Split("  v", Separators) == ["", "", "v"];
    assert "u  v"[1..] == "  v";
    assert ['u'] + "" == "u" && ["", "", "v"][1..] == ["", "v"];
    assert Split("u  v", Separators) == ["u", "", "v"];
  }

  /**
   * A line after which the same pair, in the other order, changes nothing:
   * no vertex and no edge, whether or not its probability token throws.
   */
  lemma SwappedLineIgnored(st: Reading, x: string, y: string, rest1: seq<string>, rest2: seq<string>,
                           parse: string -> Option<real>)
    requires NamesConsistent(st.labels, st.names)
    ensures var r1 := ReadTokens(st, [x, y] + rest1, parse);
            r1.Going? ==> ReadTokens(r1.st, [y, x] + rest2, parse).st == r1.st
  {
    var t1 := [x, y] + rest1;
    assert t1[0] == x && t1[1] == y;
    ReadPairSeen(st, t1, parse);
    var r1 := ReadTokens(st, t1, parse);
    if r1.Going? {
      var t2 := [y, x] + rest2;
      assert t2[0] == y && t2[1] == x;
      SeenPairUnchanged(r1.st, t2, parse);
    }
  }

  /** After a line is read without a throw, both its names are known and their pair is in the dedup set. */
  lemma ReadPairSeen(st: Reading, tokens: seq<string>, parse: string -> Option<real>)
    requires |tokens| >= 2 && NamesConsistent(st.labels, st.names)
    ensures var r := ReadTokens(st, tokens, parse);
            r.Going? ==> tokens[0] in r.st.names && tokens[1] in r.st.names &&
                         Key(r.st.names[tokens[0]], r.st.names[tokens[1]]) in r.st.dedup
  {
    InternMeaning(st.labels, st.names, tokens[0]);
    var (src, labels1, names1) := Intern(st.labels, st.names, tokens[0]);
    InternMeaning(labels1, names1, tokens[1]);
  }

  /** A line naming two known vertices whose pair is already in the dedup set changes nothing. */
  lemma SeenPairUnchanged(st: Reading, tokens: seq<string>, parse: string -> Option<real>)
    requires |tokens| >= 2 && tokens[0] in st.names && tokens[1] in st.names
    requires Key(st.names[tokens[1]], st.names[tokens[0]]) in st.dedup
    ensures ReadTokens(st, tokens, parse).st == st
  {
    assert Key(st.names[tokens[0]], st.names[tokens[1]]) == Key(st.names[tokens[1]], st.names[tokens[0]]);
  }

  /** The lines the reader does not skip, in order. */
  function Kept(lines: seq<string>): (r: seq<string>)
    requires forall i :: 0 <= i < |lines| ==> Readable(lines[i])
    ensures |r| <= |lines|
    ensures forall i :: 0 <= i < |r| ==> Readable(r[i]) && !Skipped(r[i])
  {
    if |lines| == 0 then []
    else
      var last := lines[|lines| - 1];
      Kept(lines[..|lines| - 1]) + (if Skipped(last) then [] else [last])
  }

  /** Empty and comment lines, wherever they are, make no difference to the result. */
  lemma {:induction false} SkippedLinesIgnored(st: Reading, lines: seq<string>, parse: string -> Option<real>)
    requires forall i :: 0 <= i < |lines| ==> Readable(lines[i])
    ensures ReadLines(st, Kept(lines), parse) == ReadLines(st, lines, parse)
  {
    if |lines| > 0 {
      var front := lines[..|lines| - 1];
      var last := lines[|lines| - 1];
      SkippedLinesIgnored(st, front, parse);
      var mid := ReadLines(st, front, parse);
      if Skipped(last) {
        assert Kept(lines) == Kept(front) + [];
        assert Kept(front) + [] == Kept(front);
      } else {
        var k := Kept(front) + [last];
        assert Kept(lines) == k;
        assert k[..|k| - 1] == Kept(front);
      }
    }
  }

  /** Once `stof` has thrown, no later line is read: the result is that of the throw. */
  lemma {:induction false} StoppedStays(st: Reading, lines: seq<string>, i: nat, parse: string -> Option<real>)
    requires i <= |lines| && forall k :: 0 <= k < |lines| ==> Readable(lines[k])
    requires ReadLines(st, lines[..i], parse).Stopped?
    ensures ReadLines(st, lines, parse) == ReadLines(st, lines[..i], parse)
  {
    if i < |lines| {
      var front := lines[..|lines| - 1];
      assert front[..i] == lines[..i];
      StoppedStays(st, front, i, parse);
    } else {
      assert lines[..i] == lines;
    }
  }

  // ---------------------------------------------------------------------------
  // The reader

  /** `get_or_add(g, name_map, name)`; the map is passed in and handed back. */
  method GetOrAdd(g: UGraph, names: map<string, nat>, name: string) returns (id: nat, names': map<string, nat>)
    modifies g
    ensures (id, g.labels, names') == Intern(old(g.labels), names, name)
    ensures g.edges == old(g.edges)
  {
    if name !in names {
      id := g.AddVertex(VertexData(name));
      names' := names[name := id];
    } else {
      id := names[name];
      names' := names;
    }
  }

  /**
   * `read_edge_list(g, path)`: the file is given as its lines, or None
   * when it cannot be opened; the parse of a probability token (`stof`)
   * is a parameter, None where `stof` throws.
   */
  method ReadEdgeList(g: UGraph, file: Option<seq<string>>, parse: string -> Option<real>)
    returns (outcome: Result<(), ReadError>)
    requires file.Some? ==> forall i :: 0 <= i < |file.value| ==> Readable(file.value[i])
    modifies g
    ensures file.None? ==> outcome == Err(RuntimeError(FileNotFound)) && g.labels == old(g.labels) && g.edges == old(g.edges)
    ensures file.Some? ==>
              var r := ReadLines(Start(old(g.labels), old(g.edges)), file.value, parse);
              g.labels == r.st.labels && g.edges == r.st.edges &&
              outcome == if r.Stopped? then Err(StofError(r.token)) else Ok(())
  {
    if file.None? {
      return Err(RuntimeError(FileNotFound));
    }
    var lines := file.value;
    var dedup: set<(nat, nat)> := {};
    var names: map<string, nat> := map[];
    var edgef := new EdgeDataFactory();
    ghost var start := Start(g.labels, g.edges);
    for i := 0 to |lines|
      invariant Going(Reading(g.labels, g.edges, names, dedup, edgef.idx)) == ReadLines(start, lines[..i], parse)
      invariant edgef.Valid()
    {
      assert lines[..i + 1][..i] == lines[..i];
      var thrown;
      names, dedup, thrown := ReadInto(g, edgef, names, dedup, lines[i], parse);
      if thrown.Some? {
        StoppedStays(start, lines, i + 1, parse);
        return Err(StofError(thrown.value));
      }
    }
    assert lines[..|lines|] == lines;
    return Ok(());
  }

  /** The body of the reading loop for one line; `thrown` is the token `stof` rejected, if any. */
  method ReadInto(g: UGraph, edgef: EdgeDataFactory, names: map<string, nat>, dedup: set<(nat, nat)>,
                  line: string, parse: string -> Option<real>)
    returns (names': map<string, nat>, dedup': set<(nat, nat)>, thrown: Option<string>)
    requires Readable(line) && edgef.Valid()
    modifies g, edgef
    ensures edgef.Valid()
    ensures var r := ReadLine(Reading(old(g.labels), old(g.edges), names, dedup, old(edgef.idx)), line, parse);
            Reading(g.labels, g.edges, names', dedup', edgef.idx) == r.st &&
            thrown == if r.Stopped? then Some(r.token) else None
  {
    names', dedup', thrown := names, dedup, None;
    if |line| > 0 && line[0] != '#' {
      var tokens := Split(line, Separators);
      var src;
      src, names' := GetOrAdd(g, names', tokens[0]);
      var dst;
      dst, names' := GetOrAdd(g, names', tokens[1]);
      var probability := if |tokens| > 2 then parse(tokens[2]) else Some(1.0);
      if probability.None? {
        thrown := Some(tokens[2]);
        return;
      }
      var key := if src <= dst then (src, dst) else (dst, src);
      if key !in dedup' {
        dedup' := dedup' + {key};
        var data := edgef.Build(probability.value);
        g.AddEdge(src, dst, data);
      }
    }
  }

  /**
   * What reading a file leaves in the graph, whether or not `stof` threw:
   * the vertices and edges it had come first, unchanged; the added edges
   * join vertices, carry indices 0, 1, 2, ... and have pairwise different
   * unordered endpoints.
   */
  lemma ReadEdgeListResult(labels: seq<VertexData>, edges: seq<Edge>, lines: seq<string>, parse: string -> Option<real>)
    requires forall i :: 0 <= i < |lines| ==> Readable(lines[i])
    ensures var r := ReadLines(Start(labels, edges), lines, parse).st;
            labels <= r.labels && edges <= r.edges &&
            (forall k :: |edges| <= k < |r.edges| ==>
               r.edges[k].src < |r.labels| && r.edges[k].dst < |r.labels| && r.edges[k].data.index == k - |edges|) &&
            (forall k, l :: |edges| <= k < l < |r.edges| ==>
               Key(r.edges[k].src, r.edges[k].dst) != Key(r.edges[l].src, r.edges[l].dst))
  {
    StartInvariant(labels, edges);
    ReadLinesKeeps(Start(labels, edges), lines, parse, |edges|);
  }
}
