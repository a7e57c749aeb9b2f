/**
 * The MIPS ground-truth builder (scripts/mips.py): the proteins of a PPI
 * edge list, the protein complexes of a MIPS `|`-separated file, the
 * complexes restricted to the known proteins, and their same-complex pairs.
 */
module Mips {
  import opened Common
  import opened Text

  /** `str.upper()` on one character, for the ASCII letters. */
  function UpperChar(c: char): (u: char)
    ensures 'a' <= c <= 'z' ==> u as int == c as int - 32
    ensures !('a' <= c <= 'z') ==> u == c
  {
    if 'a' <= c <= 'z' then (c as int - 32) as char else c
  }

  /** `remap_protein`: the name upper-cased. */
  function RemapProtein(p: string): (r: string)
    ensures |r| == |p|
    ensures forall i :: 0 <= i < |p| ==> r[i] == UpperChar(p[i])
  {
    seq(|p|, i requires 0 <= i < |p| => UpperChar(p[i]))
  }

  /** An upper-cased name has no lower-case letter left, and upper-casing it again changes nothing. */
  lemma RemapProteinIdempotent(p: string)
    ensures forall i :: 0 <= i < |RemapProtein(p)| ==> !('a' <= RemapProtein(p)[i] <= 'z')
    ensures RemapProtein(RemapProtein(p)) == RemapProtein(p)
  {
    var r := RemapProtein(p);
    forall i | 0 <= i < |r|
      ensures !('a' <= r[i] <= 'z')
    {
      assert r[i] == UpperChar(p[i]);
    }
  }

  datatype LoadError = ValueError | IndexError

  // ---------------------------------------------------------------------------

  /** The upper-cased endpoints of the edge lines. */
  function Endpoints(lines: seq<string>): set<string>
    requires forall i :: 0 <= i < |lines| ==> |Words(lines[i])| == 3
  {
    if lines == [] then {}
    else
      var tokens := Words(lines[|lines| - 1]);
      Endpoints(lines[..|lines| - 1]) + {RemapProtein(tokens[0]), RemapProtein(tokens[1])}
  }

  /** Some line has x, upper-cased, as one of its first two tokens. */
  predicate Names(lines: seq<string>, x: string)
    requires forall i :: 0 <= i < |lines| ==> |Words(lines[i])| == 3
  {
    exists i, k :: 0 <= i < |lines| && 0 <= k < 2 && x == RemapProtein(Words(lines[i])[k])
  }

  lemma NamesStep(lines: seq<string>, x: string)
    requires lines != []
    requires forall i :: 0 <= i < |lines| ==> |Words(lines[i])| == 3
    ensures Names(lines, x) <==>
              Names(lines[..|lines| - 1], x) ||
              x == RemapProtein(Words(lines[|lines| - 1])[0]) || x == RemapProtein(Words(lines[|lines| - 1])[1])
  {
    var init := lines[..|lines| - 1];
    if Names(lines, x) {
      var i, k :| 0 <= i < |lines| && 0 <= k < 2 && x == RemapProtein(Words(lines[i])[k]);
      if i < |init| {
        assert init[i] == lines[i];
      } else {
        assert k == 0 || k == 1;
      }
    }
    if Names(init, x) {
      var i, k :| 0 <= i < |init| && 0 <= k < 2 && x == RemapProtein(Words(init[i])[k]);
      assert init[i] == lines[i];
    }
    var last := |lines| - 1;
    if x == RemapProtein(Words(lines[last])[0]) {
      assert 0 <= last < |lines| && 0 <= 0 < 2;
    }
    if x == RemapProtein(Words(lines[last])[1]) {
      assert 0 <= last < |lines| && 0 <= 1 < 2;
    }
  }

  /** The proteins are exactly the upper-cased first two tokens of the lines. */
  lemma {:induction false} EndpointsMembers(lines: seq<string>, x: string)
    requires forall i :: 0 <= i < |lines| ==> |Words(lines[i])| == 3
    ensures x in Endpoints(lines) <==>
              exists i, k :: 0 <= i < |lines| && 0 <= k < 2 && x == RemapProtein(Words(lines[i])[k])
  {
    if lines != [] {
      EndpointsMembers(lines[..|lines| - 1], x);
      NamesStep(lines, x);
    }
  }

  /** `load_proteins`: every line must split into exactly three tokens (u, v, probability). */
  method LoadProteins(lines: seq<string>) returns (r: Result<set<string>, LoadError>)
    ensures r.Err? <==> exists i :: 0 <= i < |lines| && |Words(lines[i])| != 3
    ensures r.Ok? ==> r.value == Endpoints(lines)
    ensures r.Err? ==> r.error == ValueError
  {
    var proteins: set<string> := {};
    for i := 0 to |lines|
      invariant forall j :: 0 <= j < i ==> |Words(lines[j])| == 3
      invariant proteins == Endpoints(lines[..i])
    {
      var tokens := Words(lines[i]);
      if |tokens| != 3 {
        return Err(ValueError);
      }
      proteins := proteins + {RemapProtein(tokens[0])};
      proteins := proteins + {RemapProtein(tokens[1])};
      assert lines[..i + 1][..i] == lines[..i];
    }
    assert lines[..|lines|] == lines;
    r := Ok(proteins);
  }

  // ---------------------------------------------------------------------------

  /** One line of the MIPS file as (complex, upper-cased protein): tokens 1 and 0 of `line.split("|")`. */
  function Entry(line: string): (string, string)
    requires |Split(line, {'|'})| >= 2
  {
    var tokens := Split(line, {'|'});
    (tokens[1], RemapProtein(tokens[0]))
  }

  function Entries(lines: seq<string>): (es: seq<(string, string)>)
    requires forall i :: 0 <= i < |lines| ==> |Split(lines[i], {'|'})| >= 2
    ensures |es| == |lines|
    ensures forall i :: 0 <= i < |lines| ==> es[i] == Entry(lines[i])
  {
    seq(|lines|, i requires 0 <= i < |lines| => Entry(lines[i]))
  }

  lemma LoadMipsStep(lines: seq<string>, i: nat)
    requires i < |lines|
    requires forall j :: 0 <= j <= i ==> |Split(lines[j], {'|'})| >= 2
    ensures var m := SetMap(Entries(lines[..i]));
            var e := Entry(lines[i]);
            SetMap(Entries(lines[..i + 1])) == m[e.0 := (if e.0 in m then m[e.0] else {}) + {e.1}]
  {
    var es := Entries(lines[..i + 1]);
    assert es[..i] == Entries(lines[..i]);
    assert es[i] == Entry(lines[i]);
  }

  /**
   * `load_mips`: every line needs a second `|`-separated token (the complex
   * name, which keeps the line's newline when there is no third token).
   */
  method LoadMips(lines: seq<string>) returns (r: Result<map<string, set<string>>, LoadError>)
    ensures r.Err? <==> exists i :: 0 <= i < |lines| && |Split(lines[i], {'|'})| < 2
    ensures r.Err? ==> r.error == IndexError
    ensures r.Ok? ==> r.value == SetMap(Entries(lines))
  {
    var complexes: map<string, set<string>> := map[];
    for i := 0 to |lines|
      invariant forall j :: 0 <= j < i ==> |Split(lines[j], {'|'})| >= 2
      invariant complexes == SetMap(Entries(lines[..i]))
    {
      var tokens := Split(lines[i], {'|'});
      if |tokens| < 2 {
        return Err(IndexError);
      }
      var protein := tokens[0];
      var cmplx := tokens[1];
      LoadMipsStep(lines, i);
      if cmplx !in complexes {
        complexes := complexes[cmplx := {}];
      }
      complexes := complexes[cmplx := complexes[cmplx] + {RemapProtein(protein)}];
    }
    assert lines[..|lines|] == lines;
    r := Ok(complexes);
  }

  // ---------------------------------------------------------------------------

  /** The complexes named in ks, restricted to the known proteins, without those left empty. */
  function FilteredOn(data: map<string, set<string>>, proteins: set<string>, ks: set<string>): map<string, set<string>>
  {
    map c | c in ks && c in data && data[c] * proteins != {} :: data[c] * proteins
  }

  function Filtered(data: map<string, set<string>>, proteins: set<string>): map<string, set<string>>
  {
    FilteredOn(data, proteins, data.Keys)
  }

  /** `filter_complexes` */
  method FilterComplexes(data: map<string, set<string>>, proteins: set<string>) returns (newData: map<string, set<string>>)
    ensures newData == Filtered(data, proteins)
    ensures forall c :: c in newData ==> c in data && newData[c] <= data[c] && newData[c] <= proteins && newData[c] != {}
    ensures forall c :: c in data && c !in newData ==> data[c] * proteins == {}
  {
    newData := map[];
    var keys := Enumerate(data.Keys);
    for i := 0 to |keys|
      invariant newData == FilteredOn(data, proteins, Elems(keys[..i]))
    {
      var cmplx := keys[i];
      var newComplex := data[cmplx] * proteins;
      assert Elems(keys[..i + 1]) == Elems(keys[..i]) + {cmplx} by {
        assert keys[..i + 1] == keys[..i] + [cmplx];
      }
      if |newComplex| > 0 {
        newData := newData[cmplx := newComplex];
      }
    }
    assert keys[..|keys|] == keys;
  }

  // ---------------------------------------------------------------------------

  /** The sorted pairs of distinct proteins sharing one of the complexes named in ks. */
  function ComplexPairsOn(data: map<string, set<string>>, ks: set<string>): set<(string, string)>
  {
    set c, p | c in ks && c in data && p in SetPairs(data[c]) :: p
  }

  function ComplexPairs(data: map<string, set<string>>): set<(string, string)>
  {
    ComplexPairsOn(data, data.Keys)
  }

  /** `build_pairs`: combinations of each complex, in set order, each sorted. */
  method BuildPairs(data: map<string, set<string>>) returns (pairs: set<(string, string)>)
    ensures pairs == ComplexPairs(data)
  {
    pairs := {};
    var keys := Enumerate(data.Keys);
    for i := 0 to |keys|
      invariant pairs == ComplexPairsOn(data, Elems(keys[..i]))
    {
      var members := Enumerate(data[keys[i]]);
      var combos := Combinations(members);
      ghost var before := pairs;
      for m := 0 to |combos|
        invariant pairs == before + CanonSet(combos[..m])
      {
        pairs := pairs + {Canon(combos[m].0, combos[m].1)};
        assert combos[..m + 1] == combos[..m] + [combos[m]];
      }
      assert combos[..|combos|] == combos;
      CombinationPairsOfDistinct(members);
      assert Elems(keys[..i + 1]) == Elems(keys[..i]) + {keys[i]} by {
        assert keys[..i + 1] == keys[..i] + [keys[i]];
      }
      ComplexPairsAdd(data, Elems(keys[..i]), keys[i]);
    }
    assert keys[..|keys|] == keys;
  }

  lemma ComplexPairsAdd(data: map<string, set<string>>, ks: set<string>, c: string)
    requires c in data
    ensures ComplexPairsOn(data, ks + {c}) == ComplexPairsOn(data, ks) + SetPairs(data[c])
  {
  }

  /** Filtering only removes pairs, and leaves only pairs of known proteins. */
  lemma FilteredPairsShrink(data: map<string, set<string>>, proteins: set<string>)
    ensures ComplexPairs(Filtered(data, proteins)) <= ComplexPairs(data)
    ensures ComplexPairs(Filtered(data, proteins)) <= SetPairs(proteins)
  {
    var f := Filtered(data, proteins);
    forall p | p in ComplexPairs(f)
      ensures p in ComplexPairs(data) && p in SetPairs(proteins)
    {
      var c, q :| c in f && q in SetPairs(f[c]) && p == q;
      var u, v :| u in f[c] && v in f[c] && u != v && q == Canon(u, v);
      assert u in data[c] && v in data[c];
      assert q in SetPairs(data[c]);
      assert u in proteins && v in proteins;
      assert q in SetPairs(proteins);
    }
  }
}
