/**
 * The confusion-matrix evaluator (scripts/confusion.py): a predicted
 * clustering and a ground truth, both read as same-cluster pairs, are
 * compared over the universe of ground-truth proteins.
 */
module Confusion {
  import opened Common
  import opened Text
  import PairCodec

  /** `_num_distinct_proteins`: the number of distinct labels over all clusters. */
  method NumDistinctProteins(clusters: seq<seq<string>>) returns (n: nat)
    ensures n == |AllLabels(clusters)|
    ensures n <= TotalSize(clusters)
  {
    var proteins: set<string> := {};
    for k := 0 to |clusters|
      invariant proteins == AllLabels(clusters[..k])
      invariant |proteins| <= TotalSize(clusters[..k])
    {
      ghost var before := proteins;
      proteins := AddLabels(proteins, clusters[k]);
      LabelsStep(clusters, k);
      ElemsCard(clusters[k]);
      assert |before + Elems(clusters[k])| <= |before| + |Elems(clusters[k])|;
    }
    assert clusters[..|clusters|] == clusters;
    n := |proteins|;
  }

  /** An inner loop adding every name of one line or cluster to a set. */
  method AddLabels(proteins: set<string>, c: seq<string>) returns (proteins': set<string>)
    ensures proteins' == proteins + Elems(c)
  {
    proteins' := proteins;
    for m := 0 to |c|
      invariant proteins' == proteins + Elems(c[..m])
    {
      proteins' := proteins' + {c[m]};
      assert c[..m + 1] == c[..m] + [c[m]];
    }
    assert c[..|c|] == c;
  }

  lemma LabelsStep(clusters: seq<seq<string>>, k: nat)
    requires k < |clusters|
    ensures AllLabels(clusters[..k + 1]) == AllLabels(clusters[..k]) + Elems(clusters[k])
    ensures TotalSize(clusters[..k + 1]) == TotalSize(clusters[..k]) + |clusters[k]|
  {
    assert clusters[..k + 1][..k] == clusters[..k];
  }

  function AllLabels(cs: seq<seq<string>>): set<string>
  {
    if cs == [] then {} else AllLabels(cs[..|cs| - 1]) + Elems(cs[|cs| - 1])
  }

  // ---------------------------------------------------------------------------
  // Loaded pair collections.

  /**
   * The ground truth as `load_ground` returns it: a set of sorted tuples
   * (cluster format), or the raw token lists of the lines (pairs format).
   * A tuple never equals a list, so no tuple is ever found among token lists.
   */
  datatype Ground = PairSet(pairs: set<(string, string)>) | LineTokens(lines: seq<seq<string>>)

  /** The predicted pairs as `load_clustering` returns them: a set of sorted tuples, or one token set per line. */
  datatype Actual = Built(pairs: set<(string, string)>) | TokenSets(lines: seq<set<string>>)

  datatype EvalError = AssertionError | ZeroDivisionError | UnpackError

  /** `pair in ground_pairs` for a tuple `pair`. */
  predicate InGround(ground: Ground, p: (string, string))
  {
    ground.PairSet? && p in ground.pairs
  }

  /** `len(ground_pairs)` */
  function Positives(ground: Ground): nat
  {
    match ground
    case PairSet(ps) => |ps|
    case LineTokens(ls) => |ls|
  }

  /**
   * `for u, v in actual_pairs`: the tuples in iteration order.  A set of
   * tuples is visited in some order; a two-member token set unpacks in some
   * order; any other token set cannot be unpacked into two names.
   */
  method Unpack(actual: Actual) returns (r: Result<seq<(string, string)>, EvalError>)
    ensures actual.Built? ==> r.Ok? && Elems(r.value) == actual.pairs && NoDup(r.value)
    ensures actual.TokenSets? ==>
              if exists i :: 0 <= i < |actual.lines| && |actual.lines[i]| != 2 then r == Err(UnpackError)
              else r.Ok? && |r.value| == |actual.lines|
                   && forall i :: 0 <= i < |r.value| ==>
                        r.value[i].0 != r.value[i].1 && {r.value[i].0, r.value[i].1} == actual.lines[i]
  {
    if actual.Built? {
      var ps := Enumerate(actual.pairs);
      return Ok(ps);
    }
    var ps: seq<(string, string)> := [];
    for i := 0 to |actual.lines|
      invariant |ps| == i
      invariant forall k :: 0 <= k < i ==> |actual.lines[k]| == 2
      invariant forall k :: 0 <= k < i ==> ps[k].0 != ps[k].1 && {ps[k].0, ps[k].1} == actual.lines[k]
    {
      var s := actual.lines[i];
      if |s| != 2 {
        return Err(UnpackError);
      }
      var u :| u in s;
      assert |s - {u}| == 1;
      var v :| v in s - {u};
      assert |s - {u, v}| == 0;
      assert s == {u, v};
      ps := ps + [(u, v)];
    }
    r := Ok(ps);
  }

  // ---------------------------------------------------------------------------
  // The confusion matrix.

  /** The actual pairs with both endpoints in the universe, in order. */
  function Kept(actual: seq<(string, string)>, proteins: set<string>): (kept: seq<(string, string)>)
    ensures forall p :: p in kept <==> p in actual && p.0 in proteins && p.1 in proteins
    ensures |kept| <= |actual|
  {
    if actual == [] then []
    else
      var rest := Kept(actual[..|actual| - 1], proteins);
      var p := actual[|actual| - 1];
      assert forall q :: q in actual <==> q in actual[..|actual| - 1] || q == p;
      if p.0 in proteins && p.1 in proteins then rest + [p] else rest
  }

  /** The number of positions of xs found in the ground truth. */
  function TruePositives(xs: seq<(string, string)>, ground: Ground): (n: nat)
    ensures n <= |xs|
  {
    if xs == [] then 0
    else TruePositives(xs[..|xs| - 1], ground) + (if InGround(ground, xs[|xs| - 1]) then 1 else 0)
  }

  /** The ground entries not among the kept pairs; a token list is never among tuples. */
  function FalseNegatives(kept: seq<(string, string)>, ground: Ground): nat
  {
    match ground
    case PairSet(ps) => |ps - Elems(kept)|
    case LineTokens(ls) => |ls|
  }

  /** `len(proteins)*(len(proteins)-1)/2`, a true division. */
  function PossiblePairs(n: nat): real
  {
    (n * (n - 1)) as real / 2.0
  }

  datatype Matrix = Matrix(tpr: real, fpr: real, fnr: real, tnr: real,
                           tp: nat, fp: nat, fn: nat, tn: real)

  /** The three counts `confusion_matrix` takes: true positives, false positives, false negatives. */
  datatype Tally = Tally(tp: nat, fp: nat, fn: nat)

  /** The counts over the kept pairs: every kept pair is a true or a false positive. */
  function TallyOf(kept: seq<(string, string)>, ground: Ground): Tally
  {
    var tp := TruePositives(kept, ground);
    Tally(tp, |kept| - tp, FalseNegatives(kept, ground))
  }

  /** What `confusion_matrix` returns or raises, from the counts it computes. */
  function Outcome(t: Tally, positives: nat, nProteins: nat): Result<Matrix, EvalError>
  {
    var Tally(tp, fp, fn) := t;
    var negatives := PossiblePairs(nProteins) - positives as real;
    var tn := negatives - fp as real;
    if tn < 0.0 || positives != tp + fn then Err(AssertionError)
    else if positives == 0 || negatives == 0.0 then Err(ZeroDivisionError)
    else Ok(Matrix(tp as real / positives as real, fp as real / negatives,
                   fn as real / positives as real, tn / negatives, tp, fp, fn, tn))
  }

  /** The filtering loop of `confusion_matrix`. */
  method FilterPairs(actual: seq<(string, string)>, proteins: set<string>) returns (kept: seq<(string, string)>)
    ensures kept == Kept(actual, proteins)
  {
    kept := [];
    for i := 0 to |actual|
      invariant kept == Kept(actual[..i], proteins)
    {
      var (u, v) := actual[i];
      if u in proteins && v in proteins {
        kept := kept + [(u, v)];
      }
      assert actual[..i + 1][..i] == actual[..i];
    }
    assert actual[..|actual|] == actual;
  }

  /** The first counting loop: each kept pair is a true or a false positive. */
  method CountPositives(kept: seq<(string, string)>, ground: Ground) returns (tp: nat, fp: nat)
    ensures tp == TruePositives(kept, ground)
    ensures tp + fp == |kept|
  {
    tp, fp := 0, 0;
    for i := 0 to |kept|
      invariant tp == TruePositives(kept[..i], ground)
      invariant tp + fp == i
    {
      if InGround(ground, kept[i]) {
        tp := tp + 1;
      } else {
        fp := fp + 1;
      }
      assert kept[..i + 1][..i] == kept[..i];
    }
    assert kept[..|kept|] == kept;
  }

  /** The second counting loop: the ground entries missing from the kept pairs. */
  method CountMissed(kept: seq<(string, string)>, ground: Ground) returns (fn: nat)
    ensures fn == FalseNegatives(kept, ground)
  {
    fn := 0;
    match ground {
      case PairSet(ps) =>
        var gs := Enumerate(ps);
        for i := 0 to |gs|
          invariant fn == |Elems(gs[..i]) - Elems(kept)|
        {
          MissedStep(gs, kept, i);
          if gs[i] !in kept {
            fn := fn + 1;
          }
        }
        assert gs[..|gs|] == gs;
      case LineTokens(ls) =>
        for i := 0 to |ls|
          invariant fn == i
        {
          fn := fn + 1;
        }
    }
  }

  lemma MissedStep(gs: seq<(string, string)>, kept: seq<(string, string)>, i: nat)
    requires NoDup(gs) && i < |gs|
    ensures |Elems(gs[..i + 1]) - Elems(kept)| ==
              |Elems(gs[..i]) - Elems(kept)| + (if gs[i] in kept then 0 else 1)
  {
    assert gs[..i + 1] == gs[..i] + [gs[i]];
    assert Elems(gs[..i + 1]) == Elems(gs[..i]) + {gs[i]};
    assert gs[i] !in Elems(gs[..i]);
    if gs[i] !in kept {
      assert Elems(gs[..i + 1]) - Elems(kept) == (Elems(gs[..i]) - Elems(kept)) + {gs[i]};
    } else {
      assert Elems(gs[..i + 1]) - Elems(kept) == Elems(gs[..i]) - Elems(kept);
    }
  }

  /** `confusion_matrix`; `actual` lists the predicted pairs in iteration order. */
  method ConfusionMatrix(actual: seq<(string, string)>, ground: Ground, proteins: set<string>)
    returns (r: Result<Matrix, EvalError>)
    ensures r == Outcome(TallyOf(Kept(actual, proteins), ground), Positives(ground), |proteins|)
  {
    var kept := FilterPairs(actual, proteins);
    var tp, fp := CountPositives(kept, ground);
    var fn := CountMissed(kept, ground);
    assert Tally(tp, fp, fn) == TallyOf(kept, ground);
    r := Rates(tp, fp, fn, Positives(ground), |proteins|);
  }

  /** The asserts and the four rates at the end of `confusion_matrix`. */
  method Rates(tp: nat, fp: nat, fn: nat, positives: nat, nProteins: nat) returns (r: Result<Matrix, EvalError>)
    ensures r == Outcome(Tally(tp, fp, fn), positives, nProteins)
    ensures var negatives := PossiblePairs(nProteins) - positives as real;
            (r == Err(AssertionError) <==> fp as real > negatives || positives != tp + fn)
            && (r == Err(ZeroDivisionError) <==>
                  fp as real <= negatives && positives == tp + fn && (positives == 0 || negatives == 0.0))
    ensures r.Ok? ==> r.value.tpr + r.value.fnr == 1.0 && r.value.fpr + r.value.tnr == 1.0
                      && 0.0 <= r.value.tpr <= 1.0 && 0.0 <= r.value.fpr <= 1.0
                      && fp as real + r.value.tn == PossiblePairs(nProteins) - positives as real
  {
    OutcomeMeaning(Tally(tp, fp, fn), positives, nProteins);
    var possible := (nProteins * (nProteins - 1)) as real / 2.0;
    var negatives := possible - positives as real;
    var tn := negatives - fp as real;
    if !(tn >= 0.0) || positives != tp + fn {
      return Err(AssertionError);
    }
    if positives == 0 || negatives == 0.0 {
      return Err(ZeroDivisionError);
    }
    r := Ok(Matrix(tp as real / positives as real, fp as real / negatives,
                   fn as real / positives as real, tn / negatives, tp, fp, fn, tn));
  }

  /**
   * What `confusion_matrix`'s ending means.  It raises the `AssertionError`
   * exactly when tn would be negative or positives != tp + fn, and the
   * division error exactly when the asserts pass but positives or negatives
   * is 0.  A returned matrix carries the counts, fp + tn is the negatives,
   * the true positive and false negative rates split the positives and the
   * false positive and true negative rates split the negatives, each rate
   * between 0 and 1.
   */
  lemma OutcomeMeaning(t: Tally, positives: nat, nProteins: nat)
    ensures var negatives := PossiblePairs(nProteins) - positives as real;
            var r := Outcome(t, positives, nProteins);
            (r == Err(AssertionError) <==> t.fp as real > negatives || positives != t.tp + t.fn)
            && (r == Err(ZeroDivisionError) <==>
                  t.fp as real <= negatives && positives == t.tp + t.fn && (positives == 0 || negatives == 0.0))
            && (r.Ok? ==>
                  r.value.tp == t.tp && r.value.fp == t.fp && r.value.fn == t.fn
                  && t.fp as real + r.value.tn == negatives
                  && r.value.tpr + r.value.fnr == 1.0 && r.value.fpr + r.value.tnr == 1.0
                  && 0.0 <= r.value.tpr <= 1.0 && 0.0 <= r.value.fnr <= 1.0
                  && 0.0 <= r.value.fpr <= 1.0 && 0.0 <= r.value.tnr <= 1.0)
  {
    var negatives := PossiblePairs(nProteins) - positives as real;
    var r := Outcome(t, positives, nProteins);
    if r.Ok? {
      var tn := negatives - t.fp as real;
      Shares(t.tp as real, t.fn as real, positives as real);
      Shares(t.fp as real, tn, negatives);
    }
  }

  /** Two non-negative parts of a positive whole, as fractions of it, add up to 1 and lie in [0, 1]. */
  lemma Shares(a: real, b: real, whole: real)
    requires 0.0 <= a && 0.0 <= b && a + b == whole && whole > 0.0
    ensures a / whole + b / whole == 1.0
    ensures 0.0 <= a / whole <= 1.0 && 0.0 <= b / whole <= 1.0
  {
    var x, y := a / whole, b / whole;
    assert x * whole == a && y * whole == b;
    assert (x + y - 1.0) * whole == 0.0 by {
      assert (x + y - 1.0) * whole == x * whole + y * whole - whole;
    }
    assert 0.0 <= x && 0.0 <= y;
  }

  // ---------------------------------------------------------------------------
  // When the asserts hold.

  /** The number of positions of xs whose value is in s. */
  lemma {:induction false} TruePositivesDistinct(xs: seq<(string, string)>, ps: set<(string, string)>)
    requires NoDup(xs)
    ensures TruePositives(xs, PairSet(ps)) == |Elems(xs) * ps|
  {
    if xs != [] {
      var init, x := xs[..|xs| - 1], xs[|xs| - 1];
      assert NoDup(init);
      TruePositivesDistinct(init, ps);
      assert xs == init + [x];
      assert Elems(xs) == Elems(init) + {x};
      assert x !in Elems(init);
      AddOneMeet(Elems(init), x, ps);
    }
  }

  lemma AddOneMeet(a: set<(string, string)>, x: (string, string), ps: set<(string, string)>)
    requires x !in a
    ensures |(a + {x}) * ps| == |a * ps| + (if x in ps then 1 else 0)
  {
    if x in ps {
      assert (a + {x}) * ps == (a * ps) + {x};
    } else {
      assert (a + {x}) * ps == a * ps;
    }
  }

  lemma KeptDistinct(actual: seq<(string, string)>, proteins: set<string>)
    requires NoDup(actual)
    ensures NoDup(Kept(actual, proteins))
  {
    if actual != [] {
      var init := actual[..|actual| - 1];
      KeptDistinct(init, proteins);
    }
  }

  /**
   * With a pair-set ground truth and predicted pairs without repeats, every
   * ground pair is either found or missed: positives == tp + fn always holds.
   */
  lemma PositivesSplit(actual: seq<(string, string)>, ps: set<(string, string)>, proteins: set<string>)
    requires NoDup(actual)
    ensures var kept := Kept(actual, proteins);
            TruePositives(kept, PairSet(ps)) + FalseNegatives(kept, PairSet(ps)) == |ps|
  {
    var kept := Kept(actual, proteins);
    KeptDistinct(actual, proteins);
    TruePositivesDistinct(kept, ps);
    assert ps == (Elems(kept) * ps) + (ps - Elems(kept));
    assert (Elems(kept) * ps) !! (ps - Elems(kept));
  }

  /**
   * The other assert, tn >= 0, holds when the ground pairs and the kept
   * predicted pairs are all sorted pairs of distinct proteins of the
   * universe: the false positives are then among the negatives.
   */
  lemma NegativesCoverFalsePositives(actual: seq<(string, string)>, ps: set<(string, string)>, proteins: set<string>)
    requires NoDup(actual)
    requires ps <= SetPairs(proteins)
    requires forall p :: p in Kept(actual, proteins) ==> p in SetPairs(proteins)
    ensures var kept := Kept(actual, proteins);
            (|kept| - TruePositives(kept, PairSet(ps))) as real <= PossiblePairs(|proteins|) - |ps| as real
  {
    var kept := Kept(actual, proteins);
    KeptDistinct(actual, proteins);
    TruePositivesDistinct(kept, ps);
    ElemsCard(kept);
    var outside := Elems(kept) - ps;
    SplitCard(Elems(kept), ps);
    assert |kept| - TruePositives(kept, PairSet(ps)) == |outside|;
    assert outside <= SetPairs(proteins) - ps;
    assert |outside| <= |SetPairs(proteins) - ps| by {
      SubsetCard(outside, SetPairs(proteins) - ps);
    }
    NegativesCount(ps, proteins);
  }

  lemma SplitCard(a: set<(string, string)>, ps: set<(string, string)>)
    ensures |a| == |a * ps| + |a - ps|
  {
    assert a == (a * ps) + (a - ps);
    assert (a * ps) !! (a - ps);
  }

  /** The negatives are the sorted pairs of distinct proteins outside the ground truth. */
  lemma NegativesCount(ps: set<(string, string)>, proteins: set<string>)
    requires ps <= SetPairs(proteins)
    ensures |SetPairs(proteins) - ps| as real == PossiblePairs(|proteins|) - |ps| as real
  {
    SetPairsCard(proteins);
    var n := |proteins|;
    SplitCard(SetPairs(proteins), ps);
    assert SetPairs(proteins) * ps == ps;
    EvenProduct(n);
    assert (n * (n - 1)) as real / 2.0 == (n * (n - 1) / 2) as real;
  }

  lemma {:induction false} EvenProduct(n: nat)
    ensures (n * (n - 1)) % 2 == 0
  {
    if n >= 2 {
      EvenProduct(n - 2);
      assert n * (n - 1) == (n - 2) * (n - 3) + 4 * n - 6;
    }
  }

  /** With a pairs-format ground truth, nothing is a true positive and every ground line is missed. */
  lemma LineGroundFindsNothing(xs: seq<(string, string)>, ls: seq<seq<string>>)
    ensures TruePositives(xs, LineTokens(ls)) == 0
    ensures FalseNegatives(xs, LineTokens(ls)) == Positives(LineTokens(ls))
  {
    if xs != [] {
      LineGroundFindsNothing(xs[..|xs| - 1], ls);
    }
  }

  /** Ground {(A,B), (B,C)}, universe {A,B,C,D}, prediction {(A,B)}. */
  lemma FourProteinExample()
    ensures Outcome(Tally(1, 0, 1), 2, 4) == Ok(Matrix(0.5, 0.0, 0.5, 1.0, 1, 0, 1, 4.0))
    ensures var kept := Kept([("A", "B")], {"A", "B", "C", "D"});
            var ground := PairSet({("A", "B"), ("B", "C")});
            TruePositives(kept, ground) == 1 && |kept| == 1 && FalseNegatives(kept, ground) == 1
            && Positives(ground) == 2 && |{"A", "B", "C", "D"}| == 4
  {
    ExampleOutcome();
    ExampleKept();
    ExampleCounts();
    ExampleUniverse();
    var kept := Kept([("A", "B")], {"A", "B", "C", "D"});
    assert kept == [("A", "B")];
  }

  /** One of two positives found, no false positive among four proteins' six pairs. */
  lemma ExampleOutcome()
    ensures Outcome(Tally(1, 0, 1), 2, 4) == Ok(Matrix(0.5, 0.0, 0.5, 1.0, 1, 0, 1, 4.0))
  {
    assert PossiblePairs(4) == 6.0;
  }

  /** The one predicted pair lies inside the universe and is kept. */
  lemma ExampleKept()
    ensures Kept([("A", "B")], {"A", "B", "C", "D"}) == [("A", "B")]
  {
    assert [("A", "B")][..0] == [];
  }

  /** Counts of the example against its ground truth. */
  lemma ExampleCounts()
    ensures var ground := PairSet({("A", "B"), ("B", "C")});
            TruePositives([("A", "B")], ground) == 1 && FalseNegatives([("A", "B")], ground) == 1
            && Positives(ground) == 2
  {
    assert [("A", "B")][..0] == [];
    assert Elems([("A", "B")]) == {("A", "B")};
    assert ("A", "B") != ("B", "C");
    assert {("A", "B"), ("B", "C")} - {("A", "B")} == {("B", "C")};
  }

  lemma ExampleUniverse()
    ensures |{"A", "B", "C", "D"}| == 4
  {
    assert "A" != "B" && "A" != "C" && "A" != "D" && "B" != "C" && "B" != "D" && "C" != "D";
  }

  // ---------------------------------------------------------------------------
  // Loading.

  /** All tokens of all lines. */
  function Tokens(lines: seq<seq<string>>): set<string>
  {
    set k, t | 0 <= k < |lines| && t in lines[k] :: t
  }

  lemma TokensStep(lines: seq<seq<string>>, k: nat)
    requires k < |lines|
    ensures Tokens(lines[..k + 1]) == Tokens(lines[..k]) + Elems(lines[k])
  {
    assert lines[..k + 1] == lines[..k] + [lines[k]];
    var a, b := Tokens(lines[..k + 1]), Tokens(lines[..k]) + Elems(lines[k]);
    forall t | t in a ensures t in b {
      var j :| 0 <= j < k + 1 && t in lines[..k + 1][j];
      if j < k {
        assert t in lines[..k][j];
      }
    }
    forall t | t in b ensures t in a {
      if t in Elems(lines[k]) {
        assert t in lines[..k + 1][k];
      } else {
        var j :| 0 <= j < k && t in lines[..k][j];
        assert t in lines[..k + 1][j];
      }
    }
  }

  /**
   * `load_ground` on the lines of the file: pairs format exactly when every
   * line has two tokens; the proteins are all tokens in either format.
   */
  method LoadGround(fileLines: seq<string>) returns (ground: Ground, proteins: set<string>)
    ensures proteins == Tokens(seq(|fileLines|, i requires 0 <= i < |fileLines| => Words(fileLines[i])))
    ensures var lineTokens := seq(|fileLines|, i requires 0 <= i < |fileLines| => Words(fileLines[i]));
            if forall i :: 0 <= i < |lineTokens| ==> |lineTokens[i]| == 2 then ground == LineTokens(lineTokens)
            else ground == PairSet(PairCodec.ClusterPairs(lineTokens))
  {
    var lineTokens := seq(|fileLines|, i requires 0 <= i < |fileLines| => Words(fileLines[i]));
    var isPairs := true;
    proteins := {};
    for k := 0 to |lineTokens|
      invariant isPairs <==> forall i :: 0 <= i < k ==> |lineTokens[i]| == 2
      invariant proteins == Tokens(lineTokens[..k])
    {
      var tokens := lineTokens[k];
      if |tokens| != 2 {
        isPairs := false;
      }
      proteins := AddLabels(proteins, tokens);
      TokensStep(lineTokens, k);
    }
    assert lineTokens[..|lineTokens|] == lineTokens;
    if isPairs {
      ground := LineTokens(lineTokens);
    } else {
      var pairs := PairCodec.PairsOfClusters(lineTokens);
      ground := PairSet(pairs);
    }
  }

  /** The token set of each line of `raw.split("\n")`. */
  function LineSets(raw: string): seq<set<string>>
  {
    var lines := Split(raw, {'\n'});
    seq(|lines|, i requires 0 <= i < |lines| => Elems(Words(lines[i])))
  }

  /**
   * `load_clustering` on the text read.  A text starting with '{' is JSON,
   * whose decoded value is given as `decoded`; otherwise one pair per line
   * when every line has two distinct tokens, else one cluster per line.
   */
  method LoadClustering(raw: string, decoded: PairCodec.Clustering) returns (r: Result<Actual, PairCodec.PairsError>)
    ensures |raw| > 0 && raw[0] == '{' && decoded.ClusterList? ==>
              r == Ok(Built(PairCodec.ClusterPairs(decoded.clusters)))
    ensures |raw| > 0 && raw[0] == '{' && decoded.Document? && PairCodec.Table(decoded).Some? ==>
              r == Ok(Built(PairCodec.RecordPairs(PairCodec.Table(decoded).value)))
    ensures |raw| > 0 && raw[0] == '{' && decoded.Document? && PairCodec.Table(decoded).None? ==>
              r == Err(PairCodec.TypeError)
    ensures !(|raw| > 0 && raw[0] == '{') ==>
              var sets := LineSets(raw);
              if forall i :: 0 <= i < |sets| ==> |sets[i]| == 2 then r == Ok(TokenSets(sets))
              else r.Ok? && r.value.Built?
                   && r.value.pairs == SetsPairs(sets)
  {
    if |raw| > 0 && raw[0] == '{' {
      var built := PairCodec.BuildPairs(decoded);
      if built.Err? {
        return Err(built.error);
      }
      return Ok(Built(built.value));
    }
    var lineTokens := LineSets(raw);
    var isPairs := true;
    var k := 0;
    while k < |lineTokens|
      invariant 0 <= k <= |lineTokens|
      invariant isPairs && forall i :: 0 <= i < k ==> |lineTokens[i]| == 2
    {
      if |lineTokens[k]| != 2 {
        isPairs := false;
        break;
      }
      k := k + 1;
    }
    if isPairs {
      return Ok(TokenSets(lineTokens));
    }
    var clusters: seq<seq<string>> := [];
    for i := 0 to |lineTokens|
      invariant |clusters| == i
      invariant forall j :: 0 <= j < i ==> NoDup(clusters[j]) && Elems(clusters[j]) == lineTokens[j]
    {
      var c := Enumerate(lineTokens[i]);
      clusters := clusters + [c];
    }
    var pairs := PairCodec.PairsOfClusters(clusters);
    SetClusterPairs(clusters, lineTokens);
    r := Ok(Built(pairs));
  }

  /** The pairs of distinct members of each set. */
  function SetsPairs(sets: seq<set<string>>): set<(string, string)>
  {
    set k, p | 0 <= k < |sets| && p in SetPairs(sets[k]) :: p
  }

  /** Clusters taken from sets, in any order, give the pairs of distinct members of each set. */
  lemma SetClusterPairs(clusters: seq<seq<string>>, sets: seq<set<string>>)
    requires |clusters| == |sets|
    requires forall j :: 0 <= j < |clusters| ==> NoDup(clusters[j]) && Elems(clusters[j]) == sets[j]
    ensures PairCodec.ClusterPairs(clusters) == SetsPairs(sets)
  {
    PairCodec.DistinctClusterPairs(clusters);
  }
}
