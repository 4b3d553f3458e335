/** Identities of 32-bit words. */
module WordIdentities {
  lemma Choice(x: bv32, y: bv32, z: bv32)
    ensures z ^ (x & (y ^ z)) == (x & y) | (!x & z)
  {
  }

  lemma Parity(x: bv32, y: bv32, z: bv32)
    ensures x ^ (y ^ z) == x ^ y ^ z
  {
  }

  lemma ChoiceByLast(x: bv32, y: bv32, z: bv32)
    ensures y ^ (z & (x ^ y)) == (x & z) | (y & !z)
  {
  }

  lemma Associates(a: bv32, b: bv32, c: bv32)
    ensures a + b + c == a + (b + c)
  {
  }

  lemma FullMask(a: bv32)
    ensures a & 0xffffffff == a
  {
  }

  lemma Commutes(a: bv32, b: bv32)
    ensures a + b == b + a
  {
  }
}

/** The unrolled block function of hw4/src/md5.c equals the table-driven one of RFC 1321. */
module Md5Block {
  import opened Md5Spec
  import opened WordIdentities
  import opened Md5Unrolled

  // The rewritten round functions.
  function FMacro(x: Word, y: Word, z: Word): Word { z ^ (x & (y ^ z)) }
  function GMacro(x: Word, y: Word, z: Word): Word { y ^ (z & (x ^ y)) }
  function HMacro(x: Word, y: Word, z: Word): Word { (x ^ y) ^ z }
  function H2Macro(x: Word, y: Word, z: Word): Word { x ^ (y ^ z) }
  function IMacro(x: Word, y: Word, z: Word): Word { y ^ (x | !z) }

  lemma FIsChoice(x: Word, y: Word, z: Word)
    ensures FMacro(x, y, z) == F(x, y, z)
  {
    Choice(x, y, z);
  }

  lemma GIsChoice(x: Word, y: Word, z: Word)
    ensures GMacro(x, y, z) == G(x, y, z)
  {
    ChoiceByLast(x, y, z);
  }

  lemma HIsParity(x: Word, y: Word, z: Word)
    ensures H2Macro(x, y, z) == H(x, y, z)
  {
    Parity(x, y, z);
  }

  function RotateMacro(a: Word, s: Amount): Word {
    if 0 < s < 32 then (a << s) | ((a & 0xffffffff) >> (32 - s)) else a
  }

  lemma RotateIsRotate(a: Word, s: Amount)
    ensures RotateMacro(a, s) == Rotate(a, s)
  {
    FullMask(a);
  }

  /** The round functions by round; the third round alternates two spellings of its function. */
  function Round(i: nat, x: Word, y: Word, z: Word): Word {
    if i < 16 then FMacro(x, y, z)
    else if i < 32 then GMacro(x, y, z)
    else if i < 48 then if i % 2 == 0 then HMacro(x, y, z) else H2Macro(x, y, z)
    else IMacro(x, y, z)
  }

  lemma RoundIsMix(i: nat, x: Word, y: Word, z: Word)
    ensures Round(i, x, y, z) == Mix(i, x, y, z)
  {
    if i < 16 { FIsChoice(x, y, z); }
    else if i < 32 { GIsChoice(x, y, z); }
    else if i < 48 { HIsParity(x, y, z); }
  }

  /** The rest of the STEP macro, `f` being the round function's value. */
  function TurnMacro(f: Word, a: Word, b: Word, x: Word, t: Word, s: Amount): Word {
    MacroBy(Plus, RotateMacro, f, a, b, x, t, s)
  }

  lemma TurnIsTurn(f: Word, a: Word, b: Word, x: Word, t: Word, s: Amount)
    ensures TurnMacro(f, a, b, x, t, s) == Turn(f, a, b, x, t, s)
  {
    var sum := Plus(Plus(Plus(a, f), x), t);
    SumOrder(a, f, x, t);
    RotateIsRotate(sum, s);
    PlusCommutes(Rotate(sum, s), b);
    SameValue(Plus, Rotate, RotateMacro, f, a, b, x, t, s);
  }

  lemma PlusCommutes(x: Word, y: Word)
    ensures Plus(x, y) == Plus(y, x)
  {
    Commutes(x, y);
  }

  lemma PlusAssociates(x: Word, y: Word, z: Word)
    ensures Plus(Plus(x, y), z) == Plus(x, Plus(y, z))
  {
    PlusIs(x, y);
    PlusIs(y, z);
    PlusTwice(x, y, z);
    BothWays(Plus, x, y, z, x + y, y + z);
  }

  lemma PlusIs(x: Word, y: Word)
    ensures Plus(x, y) == x + y
  {
  }

  lemma PlusTwice(x: Word, y: Word, z: Word)
    ensures Plus(x + y, z) == Plus(x, y + z)
  {
    Associates(x, y, z);
  }

  lemma SumOrder(a: Word, f: Word, x: Word, t: Word)
    ensures Plus(a, Plus(Plus(f, x), t)) == Plus(Plus(Plus(a, f), x), t)
  {
    PlusAssociates(a, Plus(f, x), t);
    PlusAssociates(a, f, x);
  }

  lemma SameRounds(w: Words, x: seq<Word>)
    requires |x| == 16
    ensures Operations(StepBy(Round, TurnMacro), T, w, x, 64) == Operations(StepBy(Mix, TurnMacro), T, w, x, 64)
  {
    forall i, x, y, z ensures Round(i, x, y, z) == Mix(i, x, y, z) { RoundIsMix(i, x, y, z); }
    SameMix(Round, Mix, TurnMacro, T, w, x, 64);
  }

  lemma SameTurns(w: Words, x: seq<Word>)
    requires |x| == 16
    ensures Operations(StepBy(Mix, TurnMacro), T, w, x, 64) == Operations(StepBy(Mix, Turn), T, w, x, 64)
  {
    forall f, a, b, x, t, s ensures TurnMacro(f, a, b, x, t, s) == Turn(f, a, b, x, t, s) { TurnIsTurn(f, a, b, x, t, s); }
    SameTurn(Mix, TurnMacro, Turn, T, w, x, 64);
  }

  /** One iteration of the block loop: it computes the block function of RFC 1321. */
  method ProcessBlock(w: Words, block: Block) returns (r: Words)
    ensures r == Compress(w, block)
  {
    var x := BlockWords(block);
    var v := Rounds(StepBy(Round, TurnMacro), w, x);
    SameRounds(w, x);
    SameTurns(w, x);
    r := Sum(v, w);
  }
}

/** The order of words, message words, constants and rotations in the unrolled code, for any step. */
module Md5Unrolled {
  import opened Md5Spec

  /** Four STEPs, one on each word, from operation `i` on. */
  method Four(step: Step<Word>, sine: nat -> Word, w: Words, x: seq<Word>, i: nat,
              k0: nat, t0: Word, s0: Amount, k1: nat, t1: Word, s1: Amount,
              k2: nat, t2: Word, s2: Amount, k3: nat, t3: Word, s3: Amount, ghost w0: Words) returns (r: Words)
    requires |x| == 16 && i + 4 <= 64 && i % 4 == 0 && w == Operations(step, sine, w0, x, i)
    requires k0 == Index(i) && k1 == Index(i + 1) && k2 == Index(i + 2) && k3 == Index(i + 3)
    requires t0 == sine(i) && t1 == sine(i + 1) && t2 == sine(i + 2) && t3 == sine(i + 3)
    requires s0 == Shift(i) && s1 == Shift(i + 1) && s2 == Shift(i + 2) && s3 == Shift(i + 3)
    ensures r == Operations(step, sine, w0, x, i + 4)
  {
    var Quad(a, b, c, d) := w;
    a := step(i, Quad(a, b, c, d), x[k0], t0, s0);
    assert Quad(d, a, b, c) == Operations(step, sine, w0, x, i + 1);
    d := step(i + 1, Quad(d, a, b, c), x[k1], t1, s1);
    assert Quad(c, d, a, b) == Operations(step, sine, w0, x, i + 2);
    c := step(i + 2, Quad(c, d, a, b), x[k2], t2, s2);
    assert Quad(b, c, d, a) == Operations(step, sine, w0, x, i + 3);
    b := step(i + 3, Quad(b, c, d, a), x[k3], t3, s3);
    r := Quad(a, b, c, d);
  }

  method Round1First(step: Step<Word>, w: Words, x: seq<Word>, n: nat, ghost w0: Words) returns (r: Words)
    requires |x| == 16 && n == 0 && w == Operations(step, T, w0, x, n)
    ensures r == Operations(step, T, w0, x, n + 8)
  {
    r := Four(step, T, w, x, n, 0, 0xd76aa478, 7,  1, 0xe8c7b756, 12,  2, 0x242070db, 17,  3, 0xc1bdceee, 22, w0);
    r := Four(step, T, r, x, n + 4, 4, 0xf57c0faf, 7,  5, 0x4787c62a, 12,  6, 0xa8304613, 17,  7, 0xfd469501, 22, w0);
  }

  method Round1Second(step: Step<Word>, w: Words, x: seq<Word>, n: nat, ghost w0: Words) returns (r: Words)
    requires |x| == 16 && n == 8 && w == Operations(step, T, w0, x, n)
    ensures r == Operations(step, T, w0, x, n + 8)
  {
    r := Four(step, T, w, x, n, 8, 0x698098d8, 7,  9, 0x8b44f7af, 12,  10, 0xffff5bb1, 17,  11, 0x895cd7be, 22, w0);
    r := Four(step, T, r, x, n + 4, 12, 0x6b901122, 7,  13, 0xfd987193, 12,  14, 0xa679438e, 17,  15, 0x49b40821, 22, w0);
  }

  method Round2First(step: Step<Word>, w: Words, x: seq<Word>, n: nat, ghost w0: Words) returns (r: Words)
    requires |x| == 16 && n == 16 && w == Operations(step, T, w0, x, n)
    ensures r == Operations(step, T, w0, x, n + 8)
  {
    r := Four(step, T, w, x, n, 1, 0xf61e2562, 5,  6, 0xc040b340, 9,  11, 0x265e5a51, 14,  0, 0xe9b6c7aa, 20, w0);
    r := Four(step, T, r, x, n + 4, 5, 0xd62f105d, 5,  10, 0x02441453, 9,  15, 0xd8a1e681, 14,  4, 0xe7d3fbc8, 20, w0);
  }

  method Round2Second(step: Step<Word>, w: Words, x: seq<Word>, n: nat, ghost w0: Words) returns (r: Words)
    requires |x| == 16 && n == 24 && w == Operations(step, T, w0, x, n)
    ensures r == Operations(step, T, w0, x, n + 8)
  {
    r := Four(step, T, w, x, n, 9, 0x21e1cde6, 5,  14, 0xc33707d6, 9,  3, 0xf4d50d87, 14,  8, 0x455a14ed, 20, w0);
    r := Four(step, T, r, x, n + 4, 13, 0xa9e3e905, 5,  2, 0xfcefa3f8, 9,  7, 0x676f02d9, 14,  12, 0x8d2a4c8a, 20, w0);
  }

  method Round3First(step: Step<Word>, w: Words, x: seq<Word>, n: nat, ghost w0: Words) returns (r: Words)
    requires |x| == 16 && n == 32 && w == Operations(step, T, w0, x, n)
    ensures r == Operations(step, T, w0, x, n + 8)
  {
    r := Four(step, T, w, x, n, 5, 0xfffa3942, 4,  8, 0x8771f681, 11,  11, 0x6d9d6122, 16,  14, 0xfde5380c, 23, w0);
    r := Four(step, T, r, x, n + 4, 1, 0xa4beea44, 4,  4, 0x4bdecfa9, 11,  7, 0xf6bb4b60, 16,  10, 0xbebfbc70, 23, w0);
  }

  method Round3Second(step: Step<Word>, w: Words, x: seq<Word>, n: nat, ghost w0: Words) returns (r: Words)
    requires |x| == 16 && n == 40 && w == Operations(step, T, w0, x, n)
    ensures r == Operations(step, T, w0, x, n + 8)
  {
    r := Four(step, T, w, x, n, 13, 0x289b7ec6, 4,  0, 0xeaa127fa, 11,  3, 0xd4ef3085, 16,  6, 0x04881d05, 23, w0);
    r := Four(step, T, r, x, n + 4, 9, 0xd9d4d039, 4,  12, 0xe6db99e5, 11,  15, 0x1fa27cf8, 16,  2, 0xc4ac5665, 23, w0);
  }

  method Round4First(step: Step<Word>, w: Words, x: seq<Word>, n: nat, ghost w0: Words) returns (r: Words)
    requires |x| == 16 && n == 48 && w == Operations(step, T, w0, x, n)
    ensures r == Operations(step, T, w0, x, n + 8)
  {
    r := Four(step, T, w, x, n, 0, 0xf4292244, 6,  7, 0x432aff97, 10,  14, 0xab9423a7, 15,  5, 0xfc93a039, 21, w0);
    r := Four(step, T, r, x, n + 4, 12, 0x655b59c3, 6,  3, 0x8f0ccc92, 10,  10, 0xffeff47d, 15,  1, 0x85845dd1, 21, w0);
  }

  method Round4Second(step: Step<Word>, w: Words, x: seq<Word>, n: nat, ghost w0: Words) returns (r: Words)
    requires |x| == 16 && n == 56 && w == Operations(step, T, w0, x, n)
    ensures r == Operations(step, T, w0, x, n + 8)
  {
    r := Four(step, T, w, x, n, 8, 0x6fa87e4f, 6,  15, 0xfe2ce6e0, 10,  6, 0xa3014314, 15,  13, 0x4e0811a1, 21, w0);
    r := Four(step, T, r, x, n + 4, 4, 0xf7537e82, 6,  11, 0xbd3af235, 10,  2, 0x2ad7d2bb, 15,  9, 0xeb86d391, 21, w0);
  }

  /** All four rounds. */
  method Rounds(step: Step<Word>, w: Words, x: seq<Word>) returns (r: Words)
    requires |x| == 16
    ensures r == Operations(step, T, w, x, 64)
  {
    var n := 0;
    r := Round1First(step, w, x, n, w);
    r := Round1Second(step, r, x, n + 8, w);
    r := Round2First(step, r, x, n + 16, w);
    r := Round2Second(step, r, x, n + 24, w);
    r := Round3First(step, r, x, n + 32, w);
    r := Round3Second(step, r, x, n + 40, w);
    r := Round4First(step, r, x, n + 48, w);
    r := Round4Second(step, r, x, n + 56, w);
  }

  lemma {:induction false} SameMix<W(!new)>(mix: (nat, W, W, W) -> W, other: (nat, W, W, W) -> W,
                                            turn: (W, W, W, W, W, Amount) -> W, sine: nat -> W, w: Quad<W>, x: seq<W>, n: nat)
    requires n <= 64 && |x| == 16
    requires forall i, x, y, z :: mix(i, x, y, z) == other(i, x, y, z)
    ensures Operations(StepBy(mix, turn), sine, w, x, n) == Operations(StepBy(other, turn), sine, w, x, n)
  {
    if n > 0 { SameMix(mix, other, turn, sine, w, x, n - 1); }
  }

  lemma {:induction false} SameTurn<W(!new)>(mix: (nat, W, W, W) -> W, turn: (W, W, W, W, W, Amount) -> W,
                                             other: (W, W, W, W, W, Amount) -> W, sine: nat -> W, w: Quad<W>, x: seq<W>, n: nat)
    requires n <= 64 && |x| == 16
    requires forall f, a, b, x, t, s :: turn(f, a, b, x, t, s) == other(f, a, b, x, t, s)
    ensures Operations(StepBy(mix, turn), sine, w, x, n) == Operations(StepBy(mix, other), sine, w, x, n)
  {
    if n > 0 { SameTurn(mix, turn, other, sine, w, x, n - 1); }
  }

  /** The STEP macro's sum and rotation. */
  function MacroBy<W>(plus: (W, W) -> W, rotate: (W, Amount) -> W, f: W, a: W, b: W, x: W, t: W, s: Amount): W {
    plus(rotate(plus(a, plus(plus(f, x), t)), s), b)
  }

  /** Where sums can be reordered, they come to the operation's. */
  lemma SameValue<W(!new)>(plus: (W, W) -> W, rotate: (W, Amount) -> W, other: (W, Amount) -> W, f: W, a: W, b: W, x: W, t: W, s: Amount)
    requires var sum := plus(plus(plus(a, f), x), t);
      && plus(a, plus(plus(f, x), t)) == sum && other(sum, s) == rotate(sum, s)
      && plus(rotate(sum, s), b) == plus(b, rotate(sum, s))
    ensures MacroBy(plus, other, f, a, b, x, t, s) == TurnBy(plus, rotate, f, a, b, x, t, s)
  {
  }

  lemma BothWays<W(!new)>(plus: (W, W) -> W, x: W, y: W, z: W, xy: W, yz: W)
    requires plus(x, y) == xy && plus(y, z) == yz && plus(xy, z) == plus(x, yz)
    ensures plus(plus(x, y), z) == plus(x, plus(y, z))
  {
  }
}
