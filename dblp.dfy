/**
 * The DBLP co-authorship graph builder (Reproducibility/Data/dblp/dblp.py).
 * Articles arrive one at a time; every valid article adds one unit of
 * weight to the edge of each pair of author positions; the edges are then
 * written as text lines.
 */
module Dblp {
  import opened Common
  import opened Text

  /** An author entry: a plain string, or an XML node whose `#text` is the name. */
  datatype Author = Plain(name: string) | Node(text: string)

  /** The `author` field: a list when the article has several authors, one entry otherwise. */
  datatype AuthorField = AuthorList(entries: seq<Author>) | SingleAuthor(entry: Author)

  /**
   * A decoded article record.  `year` is the value of `int(article['year'])`;
   * `key` and `publtype` are the `@key` and `@publtype` entries, which
   * `process_article` fills in from the XML attributes before validation.
   */
  datatype Article = Article(author: Option<AuthorField>, year: Option<int>,
                             publtype: Option<string>, key: string)

  const YearLimit := 2012
  const Informal := "informal publication"

  /** The category of an article: its key up to the first '/'. */
  function ArticleType(key: string): string
  {
    Split(key, {'/'})[0]
  }

  /** `GraphBuilder.valid_article` */
  function ValidArticle(types: Option<set<string>>, a: Article): (ok: bool)
    ensures a.author.None? || a.year.None? ==> !ok
    ensures a.author.Some? && a.author.value.SingleAuthor? ==> !ok
    ensures a.year.Some? && a.year.value > YearLimit ==> !ok
    ensures a.publtype == Some(Informal) ==> !ok
    ensures ok <==> a.author.Some? && a.author.value.AuthorList? && a.year.Some?
                    && a.year.value <= YearLimit && a.publtype != Some(Informal)
                    && (types.None? || ArticleType(a.key) in types.value)
  {
    if a.author.None? || a.year.None? then false
    else if !a.author.value.AuthorList? then false
    else if a.year.value > YearLimit then false
    else if a.publtype == Some(Informal) then false
    else if types.None? then true
    else if ArticleType(a.key) !in types.value then false
    else true
  }

  /** `GraphBuilder.get_author_name` */
  function AuthorName(a: Author): (name: string)
    ensures a.Plain? ==> name == a.name
    ensures a.Node? ==> name == a.text
  {
    match a
    case Plain(n) => n
    case Node(t) => t
  }

  // ---------------------------------------------------------------------------
  // Edge weights.

  /** The weight stored for a key, 0 when the key is absent. */
  function Weight(edges: map<(string, string), nat>, k: (string, string)): nat
  {
    if k in edges then edges[k] else 0
  }

  /** One `add_edge` on the weights: 1 for a new key, one more for a known one. */
  function Bump(edges: map<(string, string), nat>, k: (string, string)): map<(string, string), nat>
  {
    edges[k := Weight(edges, k) + 1]
  }

  /** Bumping every key of ks in turn. */
  function BumpAll(edges: map<(string, string), nat>, ks: seq<(string, string)>): map<(string, string), nat>
  {
    if ks == [] then edges else Bump(BumpAll(edges, ks[..|ks| - 1]), ks[|ks| - 1])
  }

  /**
   * After bumping ks, each key's weight has grown by the number of times it
   * occurs in ks and by nothing else; the key set grows by the keys of ks.
   */
  lemma {:induction false} BumpAllWeights(edges: map<(string, string), nat>, ks: seq<(string, string)>)
    ensures BumpAll(edges, ks).Keys == edges.Keys + Elems(ks)
    ensures forall k :: Weight(BumpAll(edges, ks), k) == Weight(edges, k) + multiset(ks)[k]
  {
    if ks != [] {
      var init := ks[..|ks| - 1];
      BumpAllWeights(edges, init);
      assert ks == init + [ks[|ks| - 1]];
      assert Elems(ks) == Elems(init) + {ks[|ks| - 1]};
    }
  }

  /** `add_edge(a, b)` and `add_edge(b, a)` bump the same key. */
  lemma BumpSymmetric(edges: map<(string, string), nat>, a: string, b: string)
    ensures Bump(edges, Canon(a, b)) == Bump(edges, Canon(b, a))
    ensures Canon(a, b) in Bump(edges, Canon(a, b))
    ensures Weight(Bump(edges, Canon(b, a)), Canon(a, b)) == Weight(edges, Canon(a, b)) + 1
  {
    CanonProperties(a, b);
  }

  /** The keys an article bumps: one per pair of author positions, in `combinations` order. */
  function ArticleKeys(entries: seq<Author>): (ks: seq<(string, string)>)
  {
    var cs := Combinations(entries);
    seq(|cs|, k requires 0 <= k < |cs| => Canon(AuthorName(cs[k].0), AuthorName(cs[k].1)))
  }

  /** An article with k author entries bumps k(k-1)/2 keys, each an ordered pair of two of its author names. */
  lemma ArticleKeysShape(entries: seq<Author>)
    ensures |ArticleKeys(entries)| == |entries| * (|entries| - 1) / 2
    ensures forall k :: 0 <= k < |ArticleKeys(entries)| ==>
              IsCanonical(ArticleKeys(entries)[k])
              && exists a, b :: 0 <= a < b < |entries|
                   && {ArticleKeys(entries)[k].0, ArticleKeys(entries)[k].1}
                      == {AuthorName(entries[a]), AuthorName(entries[b])}
  {
    CombinationsLength(entries);
    var cs := Combinations(entries);
    forall k | 0 <= k < |cs|
      ensures IsCanonical(ArticleKeys(entries)[k])
      ensures exists a, b :: 0 <= a < b < |entries|
                && {ArticleKeys(entries)[k].0, ArticleKeys(entries)[k].1}
                   == {AuthorName(entries[a]), AuthorName(entries[b])}
    {
      CombinationsMembers(entries, cs[k]);
      CanonProperties(AuthorName(cs[k].0), AuthorName(cs[k].1));
    }
  }

  /** The names appearing in a sequence of keys. */
  function Endpoints(ks: seq<(string, string)>): set<string>
  {
    (set p | p in ks :: p.0) + (set p | p in ks :: p.1)
  }

  lemma KeysStep(e0: map<(string, string), nat>, ks: seq<(string, string)>, t: nat)
    requires t < |ks|
    ensures BumpAll(e0, ks[..t + 1]) == Bump(BumpAll(e0, ks[..t]), ks[t])
    ensures Endpoints(ks[..t + 1]) == Endpoints(ks[..t]) + {ks[t].0, ks[t].1}
  {
    assert ks[..t + 1] == ks[..t] + [ks[t]];
    assert ks[..t + 1][..t] == ks[..t];
  }

  /** `Counter`: counts the articles seen (the periodic timing log is not modelled). */
  class Counter {
    var count: nat

    constructor ()
      ensures count == 0
    {
      count := 0;
    }

    /** `Counter.inc` */
    method Inc() returns (r: bool)
      modifies this
      ensures count == old(count) + 1
      ensures r
    {
      count := count + 1;
      r := true;
    }
  }

  class GraphBuilder {
    var edges: map<(string, string), nat>
    var authors: set<string>
    const counter: Counter
    const types: Option<set<string>>

    /** Every stored key is ordered and its names are known authors. */
    ghost predicate Valid()
      reads this
    {
      forall k | k in edges :: IsCanonical(k) && k.0 in authors && k.1 in authors && edges[k] >= 1
    }

    constructor (types: Option<set<string>>)
      ensures Valid()
      ensures edges == map[] && authors == {} && this.types == types
      ensures fresh(counter) && counter.count == 0
    {
      edges := map[];
      authors := {};
      counter := new Counter();
      this.types := types;
    }

    /** `GraphBuilder.add_edge` */
    method AddEdge(a: string, b: string)
      requires Valid()
      modifies this
      ensures Valid()
      ensures authors == old(authors) + {a, b}
      ensures edges == Bump(old(edges), Canon(a, b))
    {
      authors := authors + {a, b};
      var key := if Less(a, b) then (a, b) else (b, a);
      if key !in edges {
        edges := edges[key := 1];
      } else {
        edges := edges[key := edges[key] + 1];
      }
      CanonProperties(a, b);
    }

    /**
     * `GraphBuilder.process_article`: counts the article, and when it is
     * valid bumps the key of every pair of author positions.  Returns true
     * whatever the article.
     */
    method ProcessArticle(key: string, publtype: Option<string>, article: Article) returns (r: bool)
      requires Valid()
      modifies this, counter
      ensures Valid()
      ensures r
      ensures counter.count == old(counter.count) + 1
      ensures var a := article.(key := key, publtype := publtype);
              if ValidArticle(types, a) then
                edges == BumpAll(old(edges), ArticleKeys(a.author.value.entries))
                && authors == old(authors) + Endpoints(ArticleKeys(a.author.value.entries))
              else
                edges == old(edges) && authors == old(authors)
    {
      var a := article.(key := key, publtype := publtype);
      var _ := counter.Inc();
      if ValidArticle(types, a) {
        var entries := a.author.value.entries;
        var cs := Combinations(entries);
        ghost var ks := ArticleKeys(entries);
        ghost var e0, au0 := edges, authors;
        for t := 0 to |cs|
          invariant Valid()
          invariant counter.count == old(counter.count) + 1
          invariant edges == BumpAll(e0, ks[..t])
          invariant authors == au0 + Endpoints(ks[..t])
        {
          var nameA := AuthorName(cs[t].0);
          var nameB := AuthorName(cs[t].1);
          assert Canon(nameA, nameB) == ks[t];
          KeysStep(e0, ks, t);
          AddEdge(nameA, nameB);
          CanonProperties(nameA, nameB);
        }
        assert ks[..|cs|] == ks;
      }
      r := true;
    }

    /** `GraphBuilder.edges_stream`: one (a, b, weight) triple per stored key. */
    function EdgesStream(): (triples: set<(string, string, nat)>)
      reads this
      ensures forall t :: t in triples <==> (t.0, t.1) in edges && edges[(t.0, t.1)] == t.2
    {
      set k | k in edges :: (k.0, k.1, edges[k])
    }
  }

  // ---------------------------------------------------------------------------
  // Edge-list output.

  /** `process_name`: every space becomes '_'. */
  function ProcessName(name: string): (r: string)
    ensures |r| == |name|
    ensures ' ' !in r
    ensures forall i :: 0 <= i < |name| && name[i] != ' ' ==> r[i] == name[i]
    ensures forall i :: 0 <= i < |name| && name[i] == ' ' ==> r[i] == '_'
  {
    seq(|name|, i requires 0 <= i < |name| => if name[i] == ' ' then '_' else name[i])
  }

  /** A tuple of the stream: two names, or two names and a weight. */
  datatype EdgeTuple = Pair(a: string, b: string) | Triple(a: string, b: string, weight: nat)

  /**
   * One line of `write_stream`.  For a triple the third field is
   * `str(compute_probability(weight))`, given here as `probText`.
   */
  function EdgeLine(t: EdgeTuple, probText: nat -> string): string
  {
    ProcessName(t.a) + " " + ProcessName(t.b)
    + (if t.Triple? then " " + probText(t.weight) else "") + "\n"
  }

  function Lines(stream: seq<EdgeTuple>, probText: nat -> string): string
  {
    if stream == [] then "" else Lines(stream[..|stream| - 1], probText) + EdgeLine(stream[|stream| - 1], probText)
  }

  /** `write_stream`: the text written to `fp`. */
  method WriteStream(stream: seq<EdgeTuple>, probText: nat -> string) returns (out: string)
    ensures out == Lines(stream, probText)
  {
    out := "";
    for i := 0 to |stream|
      invariant out == Lines(stream[..i], probText)
    {
      out := WriteLine(out, stream[i], probText);
      assert stream[..i + 1][..i] == stream[..i];
    }
    assert stream[..|stream|] == stream;
  }

  /** The `fp.write` calls for one tuple of the stream. */
  method WriteLine(out: string, t: EdgeTuple, probText: nat -> string) returns (out': string)
    ensures out' == out + EdgeLine(t, probText)
  {
    out' := out + ProcessName(t.a);
    out' := out' + " ";
    out' := out' + ProcessName(t.b);
    if t.Triple? {
      out' := out' + " ";
      out' := out' + probText(t.weight);
    }
    out' := out' + "\n";
  }

  /** A name whose only whitespace is ' ' becomes a single whitespace-free field. */
  predicate PrintableName(name: string)
  {
    |name| > 0 && forall i :: 0 <= i < |name| ==> name[i] == ' ' || !IsSpace(name[i])
  }

  /** A printable name, once processed, is one non-empty word. */
  lemma ProcessedNameIsWord(name: string)
    requires PrintableName(name)
    ensures |ProcessName(name)| > 0 && NoSpace(ProcessName(name))
  {
    var r := ProcessName(name);
    forall k | 0 <= k < |r|
      ensures !IsSpace(r[k])
    {
      if name[k] == ' ' {
        assert r[k] == '_';
      }
    }
  }

  /**
   * Reading a written line back with `split()` gives the two processed names
   * and, for a triple, the probability text: the line format is unambiguous.
   */
  lemma EdgeLineReadsBack(t: EdgeTuple, probText: nat -> string)
    requires PrintableName(t.a) && PrintableName(t.b)
    requires t.Triple? ==> |probText(t.weight)| > 0 && NoSpace(probText(t.weight))
    ensures Words(EdgeLine(t, probText)) ==
              [ProcessName(t.a), ProcessName(t.b)] + (if t.Triple? then [probText(t.weight)] else [])
  {
    ProcessedNameIsWord(t.a);
    ProcessedNameIsWord(t.b);
    var na, nb := ProcessName(t.a), ProcessName(t.b);
    if t.Triple? {
      ThreeWords(na, nb, probText(t.weight));
      assert EdgeLine(t, probText) == na + " " + nb + " " + probText(t.weight) + "\n";
    } else {
      TwoWords(na, nb);
      assert EdgeLine(t, probText) == na + " " + nb + "\n";
    }
  }
}
