/**
 * Shared vocabulary of the pipeline scripts: failure wrappers, Python's
 * string order and its canonical pairs, `itertools.combinations(xs, 2)`,
 * the three ways the scripts split text, the arbitrary iteration order of
 * a Python set, and `sorted(..., key=len, reverse=True)`.
 */
module Common {

  datatype Option<T> = None | Some(value: T)

  datatype Result<T, E> = Ok(value: T) | Err(error: E)

  // ---------------------------------------------------------------------------
  // Python's `<` on str: lexicographic by code point.  Dafny's own `<` on
  // sequences means "proper prefix", so it is never used on strings here.

  predicate Less(a: string, b: string)
  {
    if |a| == 0 then |b| > 0
    else if |b| == 0 then false
    else if a[0] != b[0] then a[0] < b[0]
    else Less(a[1..], b[1..])
  }

  lemma {:induction false} LessIrreflexive(a: string)
    ensures !Less(a, a)
  {
    if |a| > 0 {
      LessIrreflexive(a[1..]);
    }
  }

  /** Exactly one of a < b, a == b, b < a holds. */
  lemma {:induction false} LessTrichotomy(a: string, b: string)
    ensures Less(a, b) || a == b || Less(b, a)
    ensures !(Less(a, b) && Less(b, a))
  {
    if |a| > 0 && |b| > 0 && a[0] == b[0] {
      LessTrichotomy(a[1..], b[1..]);
      if a[1..] == b[1..] {
        assert a == [a[0]] + a[1..] && b == [b[0]] + b[1..];
      }
    }
  }

  lemma {:induction false} LessTransitive(a: string, b: string, c: string)
    requires Less(a, b) && Less(b, c)
    ensures Less(a, c)
  {
    if |a| > 0 && |b| > 0 && |c| > 0 && a[0] == b[0] && b[0] == c[0] {
      LessTransitive(a[1..], b[1..], c[1..]);
    }
  }

  /** `tuple(sorted([u, v]))`, equally `(u, v) if u < v else (v, u)`. */
  function Canon(u: string, v: string): (r: (string, string))
  {
    if Less(u, v) then (u, v) else (v, u)
  }

  /** The canonical pair is ordered, holds exactly u and v, and forgets their order. */
  lemma CanonProperties(u: string, v: string)
    ensures !Less(Canon(u, v).1, Canon(u, v).0)
    ensures {Canon(u, v).0, Canon(u, v).1} == {u, v}
    ensures Canon(u, v) == Canon(v, u)
  {
    LessTrichotomy(u, v);
  }

  predicate IsCanonical(p: (string, string))
  {
    !Less(p.1, p.0)
  }

  // ---------------------------------------------------------------------------
  // itertools.combinations(xs, 2): all position pairs i < j, in the order
  // (0,1), (0,2), ..., (0,n-1), (1,2), ...

  /** The pairs whose first position is i. */
  function Row<T>(s: seq<T>, i: nat): (r: seq<(T, T)>)
    requires i < |s|
    ensures |r| == |s| - i - 1
    ensures forall k :: 0 <= k < |r| ==> r[k] == (s[i], s[i + 1 + k])
  {
    seq(|s| - i - 1, k requires 0 <= k < |s| - i - 1 => (s[i], s[i + 1 + k]))
  }

  /** The pairs whose first position is below i. */
  function Rows<T>(s: seq<T>, i: nat): seq<(T, T)>
    requires i <= |s|
  {
    if i == 0 then [] else Rows(s, i - 1) + Row(s, i - 1)
  }

  function Combinations<T>(s: seq<T>): seq<(T, T)>
  {
    Rows(s, |s|)
  }

  lemma {:induction false} RowsLength<T>(s: seq<T>, i: nat)
    requires i <= |s|
    ensures 2 * |Rows(s, i)| == i * (2 * |s| - i - 1)
  {
    if i > 0 {
      RowsLength(s, i - 1);
      assert |Rows(s, i)| == |Rows(s, i - 1)| + (|s| - i);
      RowsLengthStep(i, |s|);
    }
  }

  lemma RowsLengthStep(i: int, n: int)
    ensures (i - 1) * (2 * n - i) + 2 * (n - i) == i * (2 * n - i - 1)
  {
    assert (i - 1) * (2 * n - i) == i * (2 * n - i) - (2 * n - i);
  }

  /** A list of k items has k(k-1)/2 two-combinations. */
  lemma CombinationsLength<T>(s: seq<T>)
    ensures |Combinations(s)| == |s| * (|s| - 1) / 2
  {
    RowsLength(s, |s|);
  }

  /** Every pair of Rows(s, i) is (s[a], s[b]) for positions a < b with a < i, and every such pair occurs. */
  lemma {:induction false} RowsMembers<T>(s: seq<T>, i: nat, p: (T, T))
    requires i <= |s|
    ensures p in Rows(s, i) <==> exists a, b :: 0 <= a < i && a < b < |s| && p == (s[a], s[b])
  {
    if i > 0 {
      RowsMembers(s, i - 1, p);
      var row := Row(s, i - 1);
      if p in row {
        var k :| 0 <= k < |row| && row[k] == p;
        assert p == (s[i - 1], s[i - 1 + 1 + k]);
      }
      if exists a, b :: 0 <= a < i && a < b < |s| && p == (s[a], s[b]) {
        var a, b :| 0 <= a < i && a < b < |s| && p == (s[a], s[b]);
        if a == i - 1 {
          assert row[b - i] == p;
        }
      }
    }
  }

  lemma CombinationsMembers<T>(s: seq<T>, p: (T, T))
    ensures p in Combinations(s) <==> exists a, b :: 0 <= a < b < |s| && p == (s[a], s[b])
  {
    RowsMembers(s, |s|, p);
  }

  // ---------------------------------------------------------------------------
  // Same-cluster pairs.

  /** `{tuple(sorted(p)) for p in ps}` */
  function CanonSet(ps: seq<(string, string)>): set<(string, string)>
  {
    set p | p in ps :: Canon(p.0, p.1)
  }

  /** The canonical pairs of two distinct members of a set. */
  function SetPairs(c: set<string>): set<(string, string)>
  {
    set u, v | u in c && v in c && u != v :: Canon(u, v)
  }

  predicate NoDup<T(==)>(s: seq<T>)
  {
    forall i, j :: 0 <= i < j < |s| ==> s[i] != s[j]
  }

  function Elems<T>(s: seq<T>): set<T>
  {
    set x | x in s
  }

  /** The total number of entries of a list of lists. */
  function TotalSize(cs: seq<seq<string>>): nat
  {
    if cs == [] then 0 else TotalSize(cs[..|cs| - 1]) + |cs[|cs| - 1]|
  }

  /** A subset is no larger than its superset. */
  lemma SubsetCard<T>(a: set<T>, b: set<T>)
    requires a <= b
    ensures |a| <= |b|
  {
    assert b == a + (b - a);
  }

  /** A list has at most as many distinct members as positions, exactly as many without repeats. */
  lemma {:induction false} ElemsCard<T>(s: seq<T>)
    ensures |Elems(s)| <= |s|
    ensures NoDup(s) ==> |Elems(s)| == |s|
  {
    if s != [] {
      var init := s[..|s| - 1];
      ElemsCard(init);
      assert s == init + [s[|s| - 1]];
      assert Elems(s) == Elems(init) + {s[|s| - 1]};
      if NoDup(s) {
        assert NoDup(init);
        assert s[|s| - 1] !in Elems(init);
      }
    }
  }

  /**
   * For a list without repeats, the canonical pairs of its two-combinations
   * are exactly the pairs of distinct members of its set, whatever the order
   * of the list.
   */
  lemma CombinationPairsOfDistinct(s: seq<string>)
    requires NoDup(s)
    ensures CanonSet(Combinations(s)) == SetPairs(Elems(s))
  {
    forall p | p in CanonSet(Combinations(s))
      ensures p in SetPairs(Elems(s))
    {
      var q :| q in Combinations(s) && p == Canon(q.0, q.1);
      CombinationsMembers(s, q);
      var a, b :| 0 <= a < b < |s| && q == (s[a], s[b]);
      assert s[a] in Elems(s) && s[b] in Elems(s);
    }
    forall p | p in SetPairs(Elems(s))
      ensures p in CanonSet(Combinations(s))
    {
      var u, v :| u in Elems(s) && v in Elems(s) && u != v && p == Canon(u, v);
      var a :| 0 <= a < |s| && s[a] == u;
      var b :| 0 <= b < |s| && s[b] == v;
      if a < b {
        CombinationsMembers(s, (u, v));
      } else {
        CombinationsMembers(s, (v, u));
        CanonProperties(u, v);
      }
    }
  }

  /** The pairs x forms with the members of c. */
  function StarPairs(x: string, c: set<string>): set<(string, string)>
  {
    set y | y in c :: Canon(x, y)
  }

  lemma {:induction false} StarPairsCard(x: string, c: set<string>)
    ensures |StarPairs(x, c)| == |c|
    decreases |c|
  {
    if c != {} {
      var y :| y in c;
      var rest := c - {y};
      StarPairsCard(x, rest);
      assert StarPairs(x, c) == StarPairs(x, rest) + {Canon(x, y)};
      if Canon(x, y) in StarPairs(x, rest) {
        var z :| z in rest && Canon(x, z) == Canon(x, y);
        CanonProperties(x, y);
        CanonProperties(x, z);
        assert false;
      }
    }
  }

  /** A set of k members has k(k-1)/2 pairs of distinct members. */
  lemma {:induction false} SetPairsCard(c: set<string>)
    ensures |SetPairs(c)| == |c| * (|c| - 1) / 2
    decreases |c|
  {
    if c != {} {
      var x :| x in c;
      var rest := c - {x};
      SetPairsCard(rest);
      StarPairsCard(x, rest);
      assert SetPairs(c) == SetPairs(rest) + StarPairs(x, rest) by {
        forall p | p in SetPairs(c) ensures p in SetPairs(rest) + StarPairs(x, rest) {
          var u, v :| u in c && v in c && u != v && p == Canon(u, v);
          if u == x {
            assert p in StarPairs(x, rest);
          } else if v == x {
            CanonProperties(u, v);
            assert p in StarPairs(x, rest);
          }
        }
      }
      forall p | p in SetPairs(rest) ensures p !in StarPairs(x, rest) {
        var u, v :| u in rest && v in rest && u != v && p == Canon(u, v);
        CanonProperties(u, v);
        if p in StarPairs(x, rest) {
          var y :| y in rest && p == Canon(x, y);
          CanonProperties(x, y);
          assert false;
        }
      }
      assert SetPairs(rest) !! StarPairs(x, rest);
      var k := |rest|;
      assert |c| == k + 1;
      assert k * (k - 1) / 2 + k == (k + 1) * k / 2 by {
        assert (k + 1) * k == k * (k - 1) + 2 * k;
      }
    }
  }

  // ---------------------------------------------------------------------------
  // A dict of sets filled entry by entry: `if k not in d: d[k] = set()`,
  // then `d[k].add(v)`.

  function SetMap<K, V>(es: seq<(K, V)>): map<K, set<V>>
  {
    if es == [] then map[]
    else
      var m := SetMap(es[..|es| - 1]);
      var e := es[|es| - 1];
      m[e.0 := (if e.0 in m then m[e.0] else {}) + {e.1}]
  }

  /** A key is present exactly when some entry names it, and holds exactly the values of its entries. */
  lemma {:induction false} SetMapMembers<K, V>(es: seq<(K, V)>)
    ensures forall k :: k in SetMap(es) <==> exists v :: (k, v) in es
    ensures forall k, v :: k in SetMap(es) ==> (v in SetMap(es)[k] <==> (k, v) in es)
  {
    if es != [] {
      var init := es[..|es| - 1];
      SetMapMembers(init);
      assert es == init + [es[|es| - 1]];
      assert forall e :: e in es <==> e in init || e == es[|es| - 1];
    }
  }

  /** The keys of the entries in order of first appearance: the dict's key order. */
  function KeyOrder<K(==), V>(es: seq<(K, V)>): seq<K>
  {
    if es == [] then []
    else
      var rest := KeyOrder(es[..|es| - 1]);
      var k := es[|es| - 1].0;
      if k in rest then rest else rest + [k]
  }

  lemma {:induction false} KeyOrderExact<K, V>(es: seq<(K, V)>)
    ensures NoDup(KeyOrder(es))
    ensures Elems(KeyOrder(es)) == SetMap(es).Keys
  {
    if es != [] {
      KeyOrderExact(es[..|es| - 1]);
    }
  }

  /** One more entry: the dict update and the key order update it causes. */
  lemma SetMapAppend<K, V>(es: seq<(K, V)>, e: (K, V))
    ensures var m := SetMap(es);
            SetMap(es + [e]) == if e.0 in m then m[e.0 := m[e.0] + {e.1}] else m[e.0 := {e.1}]
    ensures KeyOrder(es + [e]) == if e.0 in SetMap(es) then KeyOrder(es) else KeyOrder(es) + [e.0]
  {
    assert (es + [e])[..|es|] == es;
    var m := SetMap(es);
    if e.0 !in m {
      var none: set<V> := {};
      assert none + {e.1} == {e.1};
    }
    KeyOrderExact(es);
  }

  // ---------------------------------------------------------------------------
  // Iterating over a Python set visits its members once each, in an order
  // the program cannot rely on.

  method Enumerate<T(==)>(s: set<T>) returns (xs: seq<T>)
    ensures Elems(xs) == s
    ensures NoDup(xs)
    ensures |xs| == |s|
  {
    xs := [];
    var rest := s;
    while rest != {}
      invariant Elems(xs) + rest == s
      invariant Elems(xs) !! rest
      invariant NoDup(xs)
      invariant |xs| + |rest| == |s|
      decreases |rest|
    {
      var x :| x in rest;
      EnumerateStep(xs, rest, x);
      xs := xs + [x];
      rest := rest - {x};
    }
  }

  /** Moving one member of the rest to the end of the list keeps the split. */
  lemma EnumerateStep<T>(xs: seq<T>, rest: set<T>, x: T)
    requires Elems(xs) !! rest && NoDup(xs) && x in rest
    ensures Elems(xs + [x]) + (rest - {x}) == Elems(xs) + rest
    ensures Elems(xs + [x]) !! rest - {x}
    ensures NoDup(xs + [x])
    ensures |rest - {x}| == |rest| - 1
  {
    assert x !in Elems(xs);
    assert Elems(xs + [x]) == Elems(xs) + {x};
    assert forall i :: 0 <= i < |xs| ==> xs[i] in Elems(xs);
  }

  lemma {:induction false} SubsetOfRange(s: set<int>, n: nat)
    requires forall x | x in s :: 0 <= x < n
    ensures |s| <= n
  {
    if n > 0 {
      SubsetOfRange(s - {n - 1}, n - 1);
    } else {
      assert forall x :: x !in s;
      assert s == {};
    }
  }

  // ---------------------------------------------------------------------------
  // sorted(xs, key=size, reverse=True): a stable sort by non-increasing size.

  predicate SortedDesc<T>(xs: seq<T>, size: T -> nat)
  {
    forall i, j :: 0 <= i < j < |xs| ==> size(xs[i]) >= size(xs[j])
  }

  function InsertDesc<T>(x: T, ys: seq<T>, size: T -> nat): seq<T>
  {
    if ys == [] || size(x) >= size(ys[0]) then [x] + ys
    else [ys[0]] + InsertDesc(x, ys[1..], size)
  }

  function SortDesc<T>(xs: seq<T>, size: T -> nat): seq<T>
  {
    if xs == [] then [] else InsertDesc(xs[0], SortDesc(xs[1..], size), size)
  }

  lemma {:induction false} InsertDescPermutes<T>(x: T, ys: seq<T>, size: T -> nat)
    ensures multiset(InsertDesc(x, ys, size)) == multiset(ys) + multiset{x}
  {
    if ys != [] && size(x) < size(ys[0]) {
      var tail := ys[1..];
      InsertDescPermutes(x, tail, size);
      assert ys == [ys[0]] + tail;
    }
  }

  lemma {:induction false} InsertDescSorted<T>(x: T, ys: seq<T>, size: T -> nat)
    requires SortedDesc(ys, size)
    ensures SortedDesc(InsertDesc(x, ys, size), size)
  {
    if ys != [] && size(x) < size(ys[0]) {
      var tail := ys[1..];
      InsertDescSorted(x, tail, size);
      InsertDescPermutes(x, tail, size);
      var r := InsertDesc(x, tail, size);
      forall k | 0 <= k < |r| ensures size(ys[0]) >= size(r[k]) {
        assert r[k] in multiset(r);
        if r[k] != x {
          assert r[k] in multiset(tail);
          var m :| 0 <= m < |tail| && tail[m] == r[k];
          assert ys[m + 1] == r[k];
        }
      }
    }
  }

  /** The elements of xs whose size is n, in their order in xs. */
  function OfSize<T>(xs: seq<T>, size: T -> nat, n: nat): seq<T>
  {
    if xs == [] then [] else (if size(xs[0]) == n then [xs[0]] else []) + OfSize(xs[1..], size, n)
  }

  /** Inserting x adds it in front of the elements of its size and leaves the other sizes' orders alone. */
  lemma {:induction false} InsertDescOfSize<T>(x: T, ys: seq<T>, size: T -> nat, n: nat)
    ensures OfSize(InsertDesc(x, ys, size), size, n) == (if size(x) == n then [x] else []) + OfSize(ys, size, n)
  {
    var r := InsertDesc(x, ys, size);
    var hx: seq<T> := if size(x) == n then [x] else [];
    if ys == [] || size(x) >= size(ys[0]) {
      assert r[0] == x && r[1..] == ys;
    } else {
      var rest := InsertDesc(x, ys[1..], size);
      InsertDescOfSize(x, ys[1..], size, n);
      var hy: seq<T> := if size(ys[0]) == n then [ys[0]] else [];
      assert r[0] == ys[0] && r[1..] == rest;
      assert OfSize(r, size, n) == hy + (hx + OfSize(ys[1..], size, n));
      assert OfSize(ys, size, n) == hy + OfSize(ys[1..], size, n);
      assert hx == [] || hy == [];
    }
  }

  /** The sort is stable: elements of equal size keep their input order. */
  lemma {:induction false} SortDescStable<T>(xs: seq<T>, size: T -> nat, n: nat)
    ensures OfSize(SortDesc(xs, size), size, n) == OfSize(xs, size, n)
  {
    if xs != [] {
      SortDescStable(xs[1..], size, n);
      InsertDescOfSize(xs[0], SortDesc(xs[1..], size), size, n);
    }
  }

  /** Stability for every size at once. */
  lemma SortDescStableAll<T>(xs: seq<T>, size: T -> nat)
    ensures forall n :: OfSize(SortDesc(xs, size), size, n) == OfSize(xs, size, n)
  {
    forall n {
      SortDescStable(xs, size, n);
    }
  }

  /** The output is ordered by non-increasing size and is a permutation of the input. */
  lemma {:induction false} SortDescCorrect<T>(xs: seq<T>, size: T -> nat)
    ensures SortedDesc(SortDesc(xs, size), size)
    ensures multiset(SortDesc(xs, size)) == multiset(xs)
  {
    if xs != [] {
      SortDescCorrect(xs[1..], size);
      InsertDescSorted(xs[0], SortDesc(xs[1..], size), size);
      InsertDescPermutes(xs[0], SortDesc(xs[1..], size), size);
      assert xs == [xs[0]] + xs[1..];
    }
  }
}
