/**
 * The pseudo-random generators of core/rand.hpp, on 64-bit words:
 * Splitmix64, which seeds, and Xorshift1024*, a 16-word xor-shift state
 * with a rotating position `p` and a jump that advances it 2^512 steps.
 */
module Rand {

  /** `uint64_t`: the arithmetic wraps modulo 2^64. */
  const Modulus: int := 0x1_0000_0000_0000_0000

  type Word = x: int | 0 <= x < 0x1_0000_0000_0000_0000

  function Add(a: Word, b: Word): Word
  {
    (a + b) % Modulus
  }

  function Mul(a: Word, b: Word): Word
  {
    (a * b) % Modulus
  }

  type Positive = x: nat | x > 0 witness 1

  /** 2^0 to 2^63 (written in hex, one bit each), the factors of the shifts of a 64-bit word. */
  const Powers: seq<Positive> := [
    0x1, 0x2, 0x4, 0x8,
    0x10, 0x20, 0x40, 0x80,
    0x100, 0x200, 0x400, 0x800,
    0x1000, 0x2000, 0x4000, 0x8000,
    0x10000, 0x20000, 0x40000, 0x80000,
    0x100000, 0x200000, 0x400000, 0x800000,
    0x1000000, 0x2000000, 0x4000000, 0x8000000,
    0x10000000, 0x20000000, 0x40000000, 0x80000000,
    0x100000000, 0x200000000, 0x400000000, 0x800000000,
    0x1000000000, 0x2000000000, 0x4000000000, 0x8000000000,
    0x10000000000, 0x20000000000, 0x40000000000, 0x80000000000,
    0x100000000000, 0x200000000000, 0x400000000000, 0x800000000000,
    0x1000000000000, 0x2000000000000, 0x4000000000000, 0x8000000000000,
    0x10000000000000, 0x20000000000000, 0x40000000000000, 0x80000000000000,
    0x100000000000000, 0x200000000000000, 0x400000000000000, 0x800000000000000,
    0x1000000000000000, 0x2000000000000000, 0x4000000000000000, 0x8000000000000000
  ]

  function Pow2(n: nat): (r: Positive)
    requires n < 64
  {
    Powers[n]
  }

  /** The low n bits of a xor b, bit by bit from the least significant. */
  function XorBits(a: nat, b: nat, n: nat): nat
  {
    if n == 0 then 0
    else (if a % 2 == b % 2 then 0 else 1) + 2 * XorBits(a / 2, b / 2, n - 1)
  }

  /** `a ^ b`: the low 64 bits of the bitwise xor (which has no others). */
  function Xor(a: Word, b: Word): Word
  {
    XorBits(a, b, 64) % Modulus
  }

  /** `a << n`: the bits shifted out at the top are lost. */
  function Shl(a: Word, n: nat): Word
    requires n < 64
  {
    (a * Pow2(n)) % Modulus
  }

  /** Dividing by a positive number does not make a natural number larger. */
  lemma DivShrinks(a: nat, d: nat)
    requires d > 0
    ensures a / d <= a
  {
    var q := a / d;
    assert a == q * d + a % d;
    MulGrows(q, d);
  }

  lemma MulGrows(q: nat, d: nat)
    requires d > 0
    ensures q <= q * d
  {
    if d > 1 {
      MulGrows(q, d - 1);
      assert q * d == q * (d - 1) + q;
    }
  }

  /** `a >> n` */
  function Shr(a: Word, n: nat): (r: Word)
    requires n < 64
    ensures r <= a
  {
    DivShrinks(a, Pow2(n));
    a / Pow2(n)
  }

  // ---------------------------------------------------------------------------
  // Splitmix64

  /** The Splitmix64 increment. */
  const Golden: Word := 0x9E3779B97F4A7C15

  /** The Xorshift1024* output multiplier. */
  const Multiplier: Word := 1181783497276652981

  /** The Splitmix64 output mix of the advanced state. */
  function Mix(x: Word): Word
  {
    var z1 := Mul(Xor(x, Shr(x, 30)), 0xBF58476D1CE4E5B9);
    var z2 := Mul(Xor(z1, Shr(z1, 27)), 0x94D049BB133111EB);
    Xor(z2, Shr(z2, 31))
  }

  /** The Splitmix64 state after k calls to `next`, one wrapping increment at a time. */
  function StateAfter(seed: Word, k: nat): Word
  {
    if k == 0 then seed else Add(StateAfter(seed, k - 1), Golden)
  }

  lemma ModAdd(x: int, g: int)
    ensures (x % Modulus + g) % Modulus == (x + g) % Modulus
  {
    var q := x / Modulus;
    assert x == q * Modulus + x % Modulus;
    assert x + g == (x % Modulus + g) + q * Modulus;
  }

  /** After k calls the state is the seed plus k increments, modulo 2^64. */
  lemma {:induction false} StateAfterClosedForm(seed: Word, k: nat)
    ensures StateAfter(seed, k) == (seed + k * Golden) % Modulus
  {
    if k > 0 {
      StateAfterClosedForm(seed, k - 1);
      ModAdd(seed + (k - 1) * Golden, Golden);
    }
  }

  class Splitmix64 {
    var x: Word

    constructor (seed: Word)
      ensures x == seed
    {
      x := seed;
    }

    /** `next()`: advances the state by the increment, wrapping, and returns its mix. */
    method Next() returns (r: Word)
      modifies this
      ensures x == Add(old(x), Golden) && r == Mix(x)
    {
      x := Add(x, Golden);
      var z := x;
      z := Mul(Xor(z, Shr(z, 30)), 0xBF58476D1CE4E5B9);
      z := Mul(Xor(z, Shr(z, 27)), 0x94D049BB133111EB);
      r := Xor(z, Shr(z, 31));
    }
  }

  // ---------------------------------------------------------------------------
  // Xorshift1024*

  /** A generator state: the 16 words and the position of the current one. */
  datatype Gen = Gen(words: seq<Word>, p: nat)

  predicate ValidGen(g: Gen)
  {
    |g.words| == 16 && g.p < 16
  }

  /**
   * `x & 15` for x below 32, the only values the generator masks: the
   * position sum wraps once past 15.
   */
  function Wrap(x: nat): (r: nat)
    requires x < 32
    ensures r < 16
  {
    if x < 16 then x else x - 16
  }

  /** The mask keeps the remainder modulo 16. */
  lemma WrapIsRemainder(x: nat)
    requires x < 32
    ensures Wrap(x) == x % 16
  {
    if x >= 16 {
      assert x == 16 + (x - 16);
    }
  }

  /** The word that replaces s1 when s0 is the current word. */
  function NextWord(s0: Word, s1: Word): Word
  {
    var a := Xor(s1, Shl(s1, 31));
    Xor(Xor(Xor(a, s0), Shr(a, 11)), Shr(s0, 30))
  }

  /** `(p + 1) & 15` */
  function NextPosition(p: nat): (q: nat)
    requires p < 16
    ensures q < 16
  {
    Wrap(p + 1)
  }

  /**
   * One `next()`: the position moves on by one, modulo 16, and only the
   * word there changes, to the update of the old current word and itself.
   * The update is a parameter so that what does not depend on it is proved
   * once for any update; the generator's is NextWord.
   */
  function Step(g: Gen, update: (Word, Word) -> Word): (r: Gen)
    requires ValidGen(g)
    ensures ValidGen(r) && r.p == NextPosition(g.p)
    ensures r.words[r.p] == update(g.words[g.p], g.words[r.p])
    ensures forall i :: 0 <= i < 16 && i != r.p ==> r.words[i] == g.words[i]
  {
    var q := NextPosition(g.p);
    Gen(g.words[q := update(g.words[g.p], g.words[q])], q)
  }

  /** The output of the `next()` that produced g. */
  function Output(g: Gen): Word
    requires ValidGen(g)
  {
    Mul(g.words[g.p], Multiplier)
  }

  /** The polynomial `jump` applies, 16 words of 64 bits. */
  const JumpWords: seq<Word> := [
    0x84242f96eca9c41d, 0xa3c65b8776f96855, 0x5b34a39f070b5837, 0x4489affce4f31a1e,
    0x2ffeeb0a48316f40, 0xdc2d9891fe68c022, 0x3659132bb12fea70, 0xaac17d8efa43cab8,
    0xc4cb815590989b13, 0x5ee975283d71c93b, 0x691548c86c1bd540, 0x7910c41d10a1e6a5,
    0x0b5fc64563b3e2a8, 0x047f7684e9fc949d, 0xb99181f2d8f685ca, 0x284600e3f30e38c3
  ]

  /** `JUMP[i] & 1ULL << b`: whether bit b of word i of the polynomial is set. */
  predicate JumpBit(i: nat, b: nat)
    requires i < 16 && b < 64
  {
    Bit(JumpWords[i], b)
  }

  /** Bit b of a word, counting from the least significant. */
  predicate Bit(w: nat, b: nat)
  {
    if b == 0 then w % 2 == 1 else Bit(w / 2, b - 1)
  }

  /** The 1024 bits of the polynomial in the order `jump` visits them: word by word, low bit first. */
  function JumpBits(): (r: seq<bool>)
    ensures |r| == 16 * 64
  {
    seq(16 * 64, (k: nat) requires k < 16 * 64 => JumpBit(k / 64, k % 64))
  }

  /** Bit b of word i comes at place 64 i + b. */
  lemma JumpBitAt(i: nat, b: nat)
    requires i < 16 && b < 64
    ensures JumpBits()[64 * i + b] == JumpBit(i, b)
  {
    var k := 64 * i + b;
    assert k / 64 == i && k % 64 == b;
  }

  /** The accumulator xored with the words read from the current position on. */
  function XorIn(t: seq<Word>, g: Gen): (r: seq<Word>)
    requires |t| == 16 && ValidGen(g)
    ensures |r| == 16
    ensures forall j :: 0 <= j < 16 ==> r[j] == Xor(t[j], g.words[Wrap(j + g.p)])
  {
    seq(16, j requires 0 <= j < 16 => Xor(t[j], g.words[Wrap(j + g.p)]))
  }

  /**
   * The state and the accumulator after a prefix of the bits of the
   * polynomial: each set bit xors the state into the accumulator, and
   * every bit takes one step.
   */
  function Accumulate(g: Gen, bits: seq<bool>, update: (Word, Word) -> Word): (r: (Gen, seq<Word>))
    requires ValidGen(g)
    ensures ValidGen(r.0) && |r.1| == 16
  {
    if |bits| == 0 then (g, seq(16, j => 0))
    else
      var (h, t) := Accumulate(g, bits[..|bits| - 1], update);
      (Step(h, update), if bits[|bits| - 1] then XorIn(t, h) else t)
  }

  /** One more bit: the state steps, and the accumulator takes the state in if the bit is set. */
  lemma AccumulateOneMore(g: Gen, bits: seq<bool>, n: nat, update: (Word, Word) -> Word)
    requires ValidGen(g) && n < |bits|
    ensures var (h, t) := Accumulate(g, bits[..n], update);
            Accumulate(g, bits[..n + 1], update) == (Step(h, update), if bits[n] then XorIn(t, h) else t)
  {
    assert bits[..n + 1][..n] == bits[..n];
  }

  /** The state and accumulator after one more bit, from those before it. */
  lemma OneMoreBit(g: Gen, bits: seq<bool>, n: nat, h: Gen, t0: seq<Word>, t1: seq<Word>, h1: Gen)
    requires ValidGen(g) && n < |bits| && ValidGen(h) && |t0| == 16
    requires Accumulate(g, bits[..n], NextWord) == (h, t0)
    requires t1 == (if bits[n] then XorIn(t0, h) else t0)
    requires h1 == Step(h, NextWord)
    ensures Accumulate(g, bits[..n + 1], NextWord) == (h1, t1)
  {
    AccumulateOneMore(g, bits, n, NextWord);
  }

  /** Each bit is one step, so the position moves on by the number of bits, modulo 16. */
  lemma {:induction false} AccumulatePosition(g: Gen, bits: seq<bool>, update: (Word, Word) -> Word)
    requires ValidGen(g)
    ensures Accumulate(g, bits, update).0.p == (g.p + |bits|) % 16
  {
    if |bits| > 0 {
      var front := bits[..|bits| - 1];
      AccumulatePosition(g, front, update);
      var q := Accumulate(g, front, update).0.p;
      WrapIsRemainder(q + 1);
      Rotation(g.p + |front|, q);
    }
  }

  /** Moving on by one from the remainder of x is the remainder of x + 1. */
  lemma Rotation(x: nat, q: nat)
    requires q == x % 16
    ensures (q + 1) % 16 == (x + 1) % 16
  {
    var k := x / 16;
    assert x == 16 * k + q;
    if q < 15 {
      assert x + 1 == 16 * k + (q + 1);
    } else {
      assert x + 1 == 16 * (k + 1);
    }
  }

  /** A position below 16 is where it was after a whole number of rounds. */
  lemma Rounds(x: nat, k: nat)
    requires x < 16
    ensures (x + 16 * k) % 16 == x
  {
  }

  /** The words after the accumulator is written back from the current position on. */
  function Place(g: Gen, t: seq<Word>): (r: seq<Word>)
    requires ValidGen(g) && |t| == 16
    ensures |r| == 16
  {
    seq(16, i requires 0 <= i < 16 => t[Wrap(i + 16 - g.p)])
  }

  /** Word j of the accumulator lands at position (j + p) & 15. */
  lemma PlaceLands(g: Gen, t: seq<Word>, j: nat)
    requires ValidGen(g) && |t| == 16 && j < 16
    ensures Place(g, t)[Wrap(j + g.p)] == t[j]
  {
    assert Wrap(Wrap(j + g.p) + 16 - g.p) == j;
  }

  /** The state after `jump()`. */
  function Jumped(g: Gen): Gen
    requires ValidGen(g)
  {
    var (h, t) := Accumulate(g, JumpBits(), NextWord);
    Gen(Place(h, t), h.p)
  }

  /** `jump` takes a multiple of 16 steps, so the position ends where it started. */
  lemma JumpPosition(g: Gen)
    requires ValidGen(g)
    ensures ValidGen(Jumped(g)) && Jumped(g).p == g.p
  {
    AccumulatePosition(g, JumpBits(), NextWord);
    Rounds(g.p, 64);
  }

  class Xorshift1024star {
    const s: array<Word>
    var p: nat

    ghost predicate Valid()
      reads this
    {
      s.Length == 16 && p < 16
    }

    /** The words and the position, as a value. */
    ghost function Current(): (g: Gen)
      requires Valid()
      reads this, s
      ensures ValidGen(g)
    {
      Gen(s[..], p)
    }

    /** Seeds the 16 words with the first 16 outputs of a Splitmix64 on the seed. */
    constructor (seed: Word)
      ensures Valid() && fresh(s)
      ensures p == 0 && forall j :: 0 <= j < 16 ==> s[j] == Mix(StateAfter(seed, j + 1))
    {
      p := 0;
      var seeder := new Splitmix64(seed);
      var words := new Word[16];
      for i := 0 to 16
        invariant seeder.x == StateAfter(seed, i)
        invariant forall j :: 0 <= j < i ==> words[j] == Mix(StateAfter(seed, j + 1))
      {
        assert StateAfter(seed, i + 1) == Add(StateAfter(seed, i), Golden);
        words[i] := seeder.Next();
      }
      s := words;
    }

    /** `state()`: a copy of the 16 words. */
    method State() returns (st: seq<Word>)
      requires Valid()
      ensures st == s[..]
    {
      st := [];
      for i := 0 to 16
        invariant st == s[..i]
      {
        st := st + [s[i]];
      }
    }

    /** `next()`: one step, returning the new current word times the multiplier. */
    method Next() returns (r: Word)
      requires Valid()
      modifies this, s
      ensures Valid() && Current() == Step(old(Current()), NextWord)
      ensures r == Output(Current())
    {
      var s0 := s[p];
      p := NextPosition(p);
      var s1 := s[p];
      s1 := Xor(s1, Shl(s1, 31));
      s[p] := Xor(Xor(Xor(s1, s0), Shr(s1, 11)), Shr(s0, 30));
      r := Mul(s[p], Multiplier);
    }

    /** Xors the words, from the current position on, into the accumulator. */
    method XorInto(t: array<Word>)
      requires Valid() && t.Length == 16 && t != s
      modifies t
      ensures t[..] == XorIn(old(t[..]), Current())
    {
      ghost var t0 := t[..];
      ghost var words := s[..];
      for j := 0 to 16
        invariant forall k :: 0 <= k < j ==> t[k] == Xor(t0[k], words[Wrap(k + p)])
        invariant forall k :: j <= k < 16 ==> t[k] == t0[k]
      {
        t[j] := Xor(t[j], s[Wrap(j + p)]);
      }
    }

    /**
     * One bit of `jump`: xor the state into the accumulator if the bit is
     * set, then step; the bit is the next one of the sequence.
     */
    method JumpBitStep(t: array<Word>, bit: bool, ghost g0: Gen, ghost bits: seq<bool>, ghost n: nat)
      requires Valid() && t.Length == 16 && t != s && ValidGen(g0)
      requires n < |bits| && bits[n] == bit
      requires (Current(), t[..]) == Accumulate(g0, bits[..n], NextWord)
      modifies this, s, t
      ensures Valid() && (Current(), t[..]) == Accumulate(g0, bits[..n + 1], NextWord)
    {
      ghost var h, t0 := Current(), t[..];
      if bit {
        XorInto(t);
      }
      ghost var t1 := t[..];
      var _ := Next();
      OneMoreBit(g0, bits, n, h, t0, t1, Current());
    }

    /** The 64 bits of word i of the polynomial, low bit first. */
    method JumpWord(t: array<Word>, i: nat, ghost g0: Gen)
      requires Valid() && t.Length == 16 && t != s && i < 16 && ValidGen(g0)
      requires (Current(), t[..]) == Accumulate(g0, JumpBits()[..64 * i], NextWord)
      modifies this, s, t
      ensures Valid() && (Current(), t[..]) == Accumulate(g0, JumpBits()[..64 * (i + 1)], NextWord)
    {
      for b := 0 to 64
        invariant Valid() && (Current(), t[..]) == Accumulate(g0, JumpBits()[..64 * i + b], NextWord)
      {
        JumpBitAt(i, b);
        JumpBitStep(t, JumpBit(i, b), g0, JumpBits(), 64 * i + b);
      }
    }

    /** Writes the accumulator back, word j at position (j + p) & 15. */
    method WriteBack(t: array<Word>)
      requires Valid() && t.Length == 16 && t != s
      modifies s
      ensures Valid() && s[..] == Place(old(Current()), t[..])
    {
      ghost var h := Current();
      for j := 0 to 16
        invariant forall m :: 0 <= m < 16 ==> s[m] == if Wrap(m + 16 - p) < j then t[Wrap(m + 16 - p)] else h.words[m]
      {
        s[Wrap(j + p)] := t[j];
      }
    }

    /**
     * `jump()`: 1024 steps, accumulating the state at every set bit of the
     * polynomial, then the accumulator replaces the words.
     */
    method Jump()
      requires Valid()
      modifies this, s
      ensures Valid() && Current() == Jumped(old(Current()))
      ensures p == old(p)
    {
      ghost var g0 := Current();
      var t := new Word[16](_ => 0);
      assert JumpBits()[..0] == [];
      assert t[..] == seq(16, j => 0);
      for i := 0 to 16
        invariant Valid() && (Current(), t[..]) == Accumulate(g0, JumpBits()[..64 * i], NextWord)
      {
        JumpWord(t, i, g0);
      }
      assert JumpBits()[..64 * 16] == JumpBits();
      WriteBack(t);
      JumpPosition(g0);
    }
  }
}
