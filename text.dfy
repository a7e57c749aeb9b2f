/**
 * The text splitting the pipeline relies on: Python's `str.split()` (runs of
 * whitespace), `str.split(sep)` and boost's `split(..., is_any_of(...))`
 * (every separator character cuts, empty pieces kept), and `str.strip()`.
 */
module Text {

  /** Python's `str.isspace()` for one character. */
  predicate IsSpace(c: char)
  {
    c == ' ' || c == '\t' || c == '\n' || c == '\r' || c == '\U{000B}' || c == '\U{000C}'
    || ('\U{001C}' <= c <= '\U{001F}') || c == '\U{0085}' || c == '\U{00A0}' || c == '\U{1680}'
    || ('\U{2000}' <= c <= '\U{200A}') || c == '\U{2028}' || c == '\U{2029}'
    || c == '\U{202F}' || c == '\U{205F}' || c == '\U{3000}'
  }

  predicate NoSpace(s: string)
  {
    forall k :: 0 <= k < |s| ==> !IsSpace(s[k])
  }

  /** The end of the run of non-space characters starting at i. */
  function WordEnd(s: string, i: nat): (n: nat)
    requires i <= |s|
    ensures i <= n <= |s|
    ensures n == |s| || IsSpace(s[n])
    ensures forall k :: i <= k < n ==> !IsSpace(s[k])
    decreases |s| - i
  {
    if i == |s| || IsSpace(s[i]) then i else WordEnd(s, i + 1)
  }

  /** `s.split()`: the maximal runs of non-space characters, in order. */
  function Words(s: string): (r: seq<string>)
    ensures forall k :: 0 <= k < |r| ==> |r[k]| > 0 && NoSpace(r[k])
    decreases |s|
  {
    if s == [] then []
    else if IsSpace(s[0]) then Words(s[1..])
    else
      var n := WordEnd(s, 0);
      [s[..n]] + Words(s[n..])
  }

  lemma {:induction false} WordEndAt(w: string, rest: string, i: nat)
    requires NoSpace(w) && i <= |w|
    requires rest != [] && IsSpace(rest[0])
    ensures WordEnd(w + rest, i) == |w|
    decreases |w| - i
  {
    if i < |w| {
      WordEndAt(w, rest, i + 1);
    }
  }

  /** A word followed by a space reads back as that word, then whatever follows. */
  lemma WordsCons(w: string, c: char, rest: string)
    requires |w| > 0 && NoSpace(w) && IsSpace(c)
    ensures Words(w + [c] + rest) == [w] + Words(rest)
  {
    var s := w + [c] + rest;
    WordEndAt(w, [c] + rest, 0);
    assert s == w + ([c] + rest);
    assert s[..|w|] == w;
    assert s[|w|..] == [c] + rest;
    assert ([c] + rest)[1..] == rest;
  }

  lemma {:induction false} WordEndWhole(w: string, i: nat)
    requires NoSpace(w) && i <= |w|
    ensures WordEnd(w, i) == |w|
    decreases |w| - i
  {
    if i < |w| {
      WordEndWhole(w, i + 1);
    }
  }

  /** A word without spaces reads back as itself. */
  lemma OneWord(w: string)
    requires |w| > 0 && NoSpace(w)
    ensures Words(w) == [w]
  {
    WordEndWhole(w, 0);
    assert w[..|w|] == w;
    assert w[|w|..] == [];
  }

  /** Three words separated by single spaces read back as those words. */
  lemma SpacedWords(x: string, y: string, z: string)
    requires |x| > 0 && NoSpace(x) && |y| > 0 && NoSpace(y) && |z| > 0 && NoSpace(z)
    ensures Words(x + " " + y) == [x, y]
    ensures Words(x + " " + y + " " + z) == [x, y, z]
  {
    OneWord(y);
    OneWord(z);
    WordsCons(x, ' ', y);
    assert x + " " + y == x + [' '] + y;
    WordsCons(y, ' ', z);
    assert y + " " + z == y + [' '] + z;
    WordsCons(x, ' ', y + " " + z);
    assert x + " " + y + " " + z == x + [' '] + (y + " " + z);
  }

  lemma TwoWords(x: string, y: string)
    requires |x| > 0 && NoSpace(x) && |y| > 0 && NoSpace(y)
    ensures Words(x + " " + y + "\n") == [x, y]
  {
    assert Words("") == [];
    WordsCons(y, '\n', "");
    assert y + "\n" == y + ['\n'] + "";
    WordsCons(x, ' ', y + "\n");
    assert x + " " + y + "\n" == x + [' '] + (y + "\n");
  }

  lemma ThreeWords(x: string, y: string, z: string)
    requires |x| > 0 && NoSpace(x) && |y| > 0 && NoSpace(y) && |z| > 0 && NoSpace(z)
    ensures Words(x + " " + y + " " + z + "\n") == [x, y, z]
  {
    TwoWords(y, z);
    WordsCons(x, ' ', y + " " + z + "\n");
    assert x + " " + y + " " + z + "\n" == x + [' '] + (y + " " + z + "\n");
  }

  // ---------------------------------------------------------------------------

  /**
   * `s.split(sep)`, and boost's `split(tokens, s, is_any_of(seps))`: every
   * separator character ends a piece, so n separators give n + 1 pieces,
   * possibly empty.
   */
  function Split(s: string, seps: set<char>): (r: seq<string>)
    ensures |r| >= 1
  {
    if s == [] then [""]
    else
      var rest := Split(s[1..], seps);
      if s[0] in seps then [""] + rest else [[s[0]] + rest[0]] + rest[1..]
  }

  /** `sep.join(pieces)` */
  function Join(pieces: seq<string>, sep: char): string
  {
    if |pieces| == 0 then ""
    else if |pieces| == 1 then pieces[0]
    else pieces[0] + [sep] + Join(pieces[1..], sep)
  }

  /** No piece holds a separator. */
  lemma {:induction false} SplitPiecesHaveNoSeparator(s: string, seps: set<char>)
    ensures forall k, m :: 0 <= k < |Split(s, seps)| && 0 <= m < |Split(s, seps)[k]| ==>
              Split(s, seps)[k][m] !in seps
  {
    if s != [] {
      SplitPiecesHaveNoSeparator(s[1..], seps);
    }
  }

  /** Joining the pieces back with the separator gives the original text. */
  lemma {:induction false} JoinSplit(s: string, sep: char)
    ensures Join(Split(s, {sep}), sep) == s
  {
    if s != [] {
      var rest := Split(s[1..], {sep});
      JoinSplit(s[1..], sep);
      if s[0] == sep {
        assert Split(s, {sep}) == [""] + rest;
        assert ([""] + rest)[1..] == rest;
      } else {
        var r := Split(s, {sep});
        assert r == [[s[0]] + rest[0]] + rest[1..];
        if |rest| == 1 {
          assert s == [s[0]] + rest[0];
        } else {
          assert r[1..] == rest[1..];
          assert Join(rest, sep) == rest[0] + [sep] + Join(rest[1..], sep);
          assert s == [s[0]] + s[1..];
        }
      }
    }
  }

  /** The number of separator characters in s. */
  function CountIn(s: string, seps: set<char>): nat
  {
    if s == [] then 0 else (if s[0] in seps then 1 else 0) + CountIn(s[1..], seps)
  }

  lemma {:induction false} SplitCount(s: string, seps: set<char>)
    ensures |Split(s, seps)| == CountIn(s, seps) + 1
  {
    if s != [] {
      SplitCount(s[1..], seps);
    }
  }

  // ---------------------------------------------------------------------------

  function StripLeft(s: string): (r: string)
    ensures r == [] || !IsSpace(r[0])
    ensures |r| <= |s|
  {
    if s != [] && IsSpace(s[0]) then StripLeft(s[1..]) else s
  }

  function StripRight(s: string): (r: string)
    ensures r == [] || !IsSpace(r[|r| - 1])
    ensures |r| <= |s|
  {
    if s != [] && IsSpace(s[|s| - 1]) then StripRight(s[..|s| - 1]) else s
  }

  /** `lstrip` drops a prefix of whitespace. */
  lemma {:induction false} StripLeftSuffix(s: string)
    ensures StripLeft(s) == s[|s| - |StripLeft(s)|..]
    ensures forall k :: 0 <= k < |s| - |StripLeft(s)| ==> IsSpace(s[k])
  {
    if s != [] && IsSpace(s[0]) {
      StripLeftSuffix(s[1..]);
      assert s[1..][|s| - 1 - |StripLeft(s)|..] == s[|s| - |StripLeft(s)|..];
      forall k | 1 <= k < |s| - |StripLeft(s)|
        ensures IsSpace(s[k])
      {
        assert s[k] == s[1..][k - 1];
      }
    }
  }

  /** `rstrip` drops a suffix of whitespace. */
  lemma {:induction false} StripRightPrefix(s: string)
    ensures StripRight(s) == s[..|StripRight(s)|]
    ensures forall k :: |StripRight(s)| <= k < |s| ==> IsSpace(s[k])
  {
    if s != [] && IsSpace(s[|s| - 1]) {
      var init := s[..|s| - 1];
      StripRightPrefix(init);
      assert init[..|StripRight(s)|] == s[..|StripRight(s)|];
      forall k | |StripRight(s)| <= k < |s| - 1
        ensures IsSpace(s[k])
      {
        assert s[k] == init[k];
      }
    }
  }

  /** `s.strip()`: leading and trailing whitespace dropped. */
  function Strip(s: string): (r: string)
    ensures r == [] || (!IsSpace(r[0]) && !IsSpace(r[|r| - 1]))
    ensures |r| <= |s|
  {
    var l := StripLeft(s);
    var r := StripRight(l);
    assert r != [] ==> r[0] == l[0] by {
      if r != [] {
        StripRightPrefix(l);
      }
    }
    r
  }

  /** What `strip` drops is whitespace at either end: the result is an infix of s. */
  lemma StripInfix(s: string)
    ensures var i := |s| - |StripLeft(s)|;
            i + |Strip(s)| <= |s| && Strip(s) == s[i..i + |Strip(s)|] &&
            (forall k :: 0 <= k < i ==> IsSpace(s[k])) &&
            (forall k :: i + |Strip(s)| <= k < |s| ==> IsSpace(s[k]))
  {
    var l := StripLeft(s);
    var i := |s| - |l|;
    var r := StripRight(l);
    assert r == Strip(s);
    StripLeftSuffix(s);
    StripRightPrefix(l);
    assert s[i..i + |r|] == r by {
      assert s[i..i + |r|] == s[i..][..|r|];
    }
    assert forall k :: i + |r| <= k < |s| ==> IsSpace(s[k]) by {
      forall k | i + |r| <= k < |s|
        ensures IsSpace(s[k])
      {
        assert s[k] == l[k - i];
      }
    }
  }

  lemma StripLeftKeeps(s: string)
    requires s == [] || !IsSpace(s[0])
    ensures StripLeft(s) == s
  {
  }

  lemma StripRightKeeps(s: string)
    requires s == [] || !IsSpace(s[|s| - 1])
    ensures StripRight(s) == s
  {
  }

  /** Stripping twice changes nothing more. */
  lemma StripIdempotent(s: string)
    ensures Strip(Strip(s)) == Strip(s)
  {
    var r := Strip(s);
    StripLeftKeeps(r);
    StripRightKeeps(r);
  }
}
