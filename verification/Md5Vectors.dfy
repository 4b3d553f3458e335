/** The digests of two messages, computed step by step: the empty one, and the one of 62 bytes from section A.5 of
    RFC 1321, which takes two blocks. */
module Md5Vectors {
  import opened BlockStream
  import opened Md5Spec

  // ---------- four operations ----------

  /** The message words, constants and rotations of the four operations from `n` on. */
  ghost predicate Uses<W>(sine: nat -> W, x: seq<W>, n: nat, m: Quad<W>, t: Quad<W>, s: Quad<Amount>) {
    && |x| == 16 && n + 4 <= 64
    && x[Index(n)] == m.a && x[Index(n + 1)] == m.b && x[Index(n + 2)] == m.c && x[Index(n + 3)] == m.d
    && sine(n) == t.a && sine(n + 1) == t.b && sine(n + 2) == t.c && sine(n + 3) == t.d
    && Shift(n) == s.a && Shift(n + 1) == s.b && Shift(n + 2) == s.c && Shift(n + 3) == s.d
  }

  /** Four operations, for any functions: `f` holds the values of the round function, `r` the new words. */
  lemma Chained<W>(mix: (nat, W, W, W) -> W, turn: (W, W, W, W, W, Amount) -> W, sine: nat -> W, w: Quad<W>, x: seq<W>, n: nat,
                   v: Quad<W>, m: Quad<W>, t: Quad<W>, s: Quad<Amount>, f: Quad<W>, r: Quad<W>)
    requires Uses(sine, x, n, m, t, s) && v == Operations(StepBy(mix, turn), sine, w, x, n)
    requires f.a == mix(n, v.b, v.c, v.d) && r.a == turn(f.a, v.a, v.b, m.a, t.a, s.a)
    requires f.b == mix(n + 1, r.a, v.b, v.c) && r.b == turn(f.b, v.d, r.a, m.b, t.b, s.b)
    requires f.c == mix(n + 2, r.b, r.a, v.b) && r.c == turn(f.c, v.c, r.b, m.c, t.c, s.c)
    requires f.d == mix(n + 3, r.c, r.b, r.a) && r.d == turn(f.d, v.b, r.c, m.d, t.d, s.d)
    ensures Operations(StepBy(mix, turn), sine, w, x, n + 4) == Quad(r.a, r.d, r.c, r.b)
  {
    assert Operations(StepBy(mix, turn), sine, w, x, n + 1) == Quad(v.d, r.a, v.b, v.c);
    assert Operations(StepBy(mix, turn), sine, w, x, n + 2) == Quad(v.c, r.b, r.a, v.b);
    assert Operations(StepBy(mix, turn), sine, w, x, n + 3) == Quad(v.b, r.c, r.b, r.a);
  }

  /** After `n` operations on the message words `x`, the words `w` have become `v`. */
  ghost predicate Reached(w: Words, x: seq<Word>, n: nat, v: Words) {
    |x| == 16 && n <= 64 && v == Operations(StepBy(Mix, Turn), T, w, x, n)
  }

  lemma MixF(n: nat, x: Word, y: Word, z: Word)
    requires n < 16
    ensures Mix(n, x, y, z) == F(x, y, z)
  {
  }

  lemma FourF(w: Words, x: seq<Word>, n: nat, a: Word, b: Word, c: Word, d: Word, m0: Word, m1: Word, m2: Word, m3: Word,
              t0: Word, t1: Word, t2: Word, t3: Word, r0: Word, r1: Word, r2: Word, r3: Word)
    requires Reached(w, x, n, Quad(a, b, c, d)) && n <= 12
    requires Uses(T, x, n, Quad(m0, m1, m2, m3), Quad(t0, t1, t2, t3), Quad(7, 12, 17, 22))
    requires r0 == Turn(F(b, c, d), a, b, m0, t0, 7) && r1 == Turn(F(r0, b, c), d, r0, m1, t1, 12)
    requires r2 == Turn(F(r1, r0, b), c, r1, m2, t2, 17) && r3 == Turn(F(r2, r1, r0), b, r2, m3, t3, 22)
    ensures Reached(w, x, n + 4, Quad(r0, r3, r2, r1))
  {
    MixF(n, b, c, d);
    MixF(n + 1, r0, b, c);
    MixF(n + 2, r1, r0, b);
    MixF(n + 3, r2, r1, r0);
    Chained(Mix, Turn, T, w, x, n, Quad(a, b, c, d), Quad(m0, m1, m2, m3), Quad(t0, t1, t2, t3), Quad(7, 12, 17, 22),
            Quad(F(b, c, d), F(r0, b, c), F(r1, r0, b), F(r2, r1, r0)), Quad(r0, r1, r2, r3));
  }

  lemma MixG(n: nat, x: Word, y: Word, z: Word)
    requires 16 <= n < 32
    ensures Mix(n, x, y, z) == G(x, y, z)
  {
  }

  lemma FourG(w: Words, x: seq<Word>, n: nat, a: Word, b: Word, c: Word, d: Word, m0: Word, m1: Word, m2: Word, m3: Word,
              t0: Word, t1: Word, t2: Word, t3: Word, r0: Word, r1: Word, r2: Word, r3: Word)
    requires Reached(w, x, n, Quad(a, b, c, d)) && 16 <= n <= 28
    requires Uses(T, x, n, Quad(m0, m1, m2, m3), Quad(t0, t1, t2, t3), Quad(5, 9, 14, 20))
    requires r0 == Turn(G(b, c, d), a, b, m0, t0, 5) && r1 == Turn(G(r0, b, c), d, r0, m1, t1, 9)
    requires r2 == Turn(G(r1, r0, b), c, r1, m2, t2, 14) && r3 == Turn(G(r2, r1, r0), b, r2, m3, t3, 20)
    ensures Reached(w, x, n + 4, Quad(r0, r3, r2, r1))
  {
    MixG(n, b, c, d);
    MixG(n + 1, r0, b, c);
    MixG(n + 2, r1, r0, b);
    MixG(n + 3, r2, r1, r0);
    Chained(Mix, Turn, T, w, x, n, Quad(a, b, c, d), Quad(m0, m1, m2, m3), Quad(t0, t1, t2, t3), Quad(5, 9, 14, 20),
            Quad(G(b, c, d), G(r0, b, c), G(r1, r0, b), G(r2, r1, r0)), Quad(r0, r1, r2, r3));
  }

  lemma MixH(n: nat, x: Word, y: Word, z: Word)
    requires 32 <= n < 48
    ensures Mix(n, x, y, z) == H(x, y, z)
  {
  }

  lemma FourH(w: Words, x: seq<Word>, n: nat, a: Word, b: Word, c: Word, d: Word, m0: Word, m1: Word, m2: Word, m3: Word,
              t0: Word, t1: Word, t2: Word, t3: Word, r0: Word, r1: Word, r2: Word, r3: Word)
    requires Reached(w, x, n, Quad(a, b, c, d)) && 32 <= n <= 44
    requires Uses(T, x, n, Quad(m0, m1, m2, m3), Quad(t0, t1, t2, t3), Quad(4, 11, 16, 23))
    requires r0 == Turn(H(b, c, d), a, b, m0, t0, 4) && r1 == Turn(H(r0, b, c), d, r0, m1, t1, 11)
    requires r2 == Turn(H(r1, r0, b), c, r1, m2, t2, 16) && r3 == Turn(H(r2, r1, r0), b, r2, m3, t3, 23)
    ensures Reached(w, x, n + 4, Quad(r0, r3, r2, r1))
  {
    MixH(n, b, c, d);
    MixH(n + 1, r0, b, c);
    MixH(n + 2, r1, r0, b);
    MixH(n + 3, r2, r1, r0);
    Chained(Mix, Turn, T, w, x, n, Quad(a, b, c, d), Quad(m0, m1, m2, m3), Quad(t0, t1, t2, t3), Quad(4, 11, 16, 23),
            Quad(H(b, c, d), H(r0, b, c), H(r1, r0, b), H(r2, r1, r0)), Quad(r0, r1, r2, r3));
  }

  lemma MixI(n: nat, x: Word, y: Word, z: Word)
    requires 48 <= n < 64
    ensures Mix(n, x, y, z) == I(x, y, z)
  {
  }

  lemma FourI(w: Words, x: seq<Word>, n: nat, a: Word, b: Word, c: Word, d: Word, m0: Word, m1: Word, m2: Word, m3: Word,
              t0: Word, t1: Word, t2: Word, t3: Word, r0: Word, r1: Word, r2: Word, r3: Word)
    requires Reached(w, x, n, Quad(a, b, c, d)) && 48 <= n <= 60
    requires Uses(T, x, n, Quad(m0, m1, m2, m3), Quad(t0, t1, t2, t3), Quad(6, 10, 15, 21))
    requires r0 == Turn(I(b, c, d), a, b, m0, t0, 6) && r1 == Turn(I(r0, b, c), d, r0, m1, t1, 10)
    requires r2 == Turn(I(r1, r0, b), c, r1, m2, t2, 15) && r3 == Turn(I(r2, r1, r0), b, r2, m3, t3, 21)
    ensures Reached(w, x, n + 4, Quad(r0, r3, r2, r1))
  {
    MixI(n, b, c, d);
    MixI(n + 1, r0, b, c);
    MixI(n + 2, r1, r0, b);
    MixI(n + 3, r2, r1, r0);
    Chained(Mix, Turn, T, w, x, n, Quad(a, b, c, d), Quad(m0, m1, m2, m3), Quad(t0, t1, t2, t3), Quad(6, 10, 15, 21),
            Quad(I(b, c, d), I(r0, b, c), I(r1, r0, b), I(r2, r1, r0)), Quad(r0, r1, r2, r3));
  }

  // ---------- the tables, row by row ----------

  lemma Row0(x: seq<Word>, n: nat)
    requires |x| == 16 && n == 0
    ensures Uses(T, x, n, Quad(x[0], x[1], x[2], x[3]), Quad(0xd76aa478, 0xe8c7b756, 0x242070db, 0xc1bdceee),
                 Quad(7, 12, 17, 22))
  {
    assert T(0) == 0xd76aa478 && T(1) == 0xe8c7b756 && T(2) == 0x242070db && T(3) == 0xc1bdceee;
  }

  lemma Row1(x: seq<Word>, n: nat)
    requires |x| == 16 && n == 4
    ensures Uses(T, x, n, Quad(x[4], x[5], x[6], x[7]), Quad(0xf57c0faf, 0x4787c62a, 0xa8304613, 0xfd469501),
                 Quad(7, 12, 17, 22))
  {
    assert T(4) == 0xf57c0faf && T(5) == 0x4787c62a && T(6) == 0xa8304613 && T(7) == 0xfd469501;
  }

  lemma Row2(x: seq<Word>, n: nat)
    requires |x| == 16 && n == 8
    ensures Uses(T, x, n, Quad(x[8], x[9], x[10], x[11]), Quad(0x698098d8, 0x8b44f7af, 0xffff5bb1, 0x895cd7be),
                 Quad(7, 12, 17, 22))
  {
    assert T(8) == 0x698098d8 && T(9) == 0x8b44f7af && T(10) == 0xffff5bb1 && T(11) == 0x895cd7be;
  }

  lemma Row3(x: seq<Word>, n: nat)
    requires |x| == 16 && n == 12
    ensures Uses(T, x, n, Quad(x[12], x[13], x[14], x[15]), Quad(0x6b901122, 0xfd987193, 0xa679438e, 0x49b40821),
                 Quad(7, 12, 17, 22))
  {
    assert T(12) == 0x6b901122 && T(13) == 0xfd987193 && T(14) == 0xa679438e && T(15) == 0x49b40821;
  }

  lemma Row4(x: seq<Word>, n: nat)
    requires |x| == 16 && n == 16
    ensures Uses(T, x, n, Quad(x[1], x[6], x[11], x[0]), Quad(0xf61e2562, 0xc040b340, 0x265e5a51, 0xe9b6c7aa),
                 Quad(5, 9, 14, 20))
  {
    assert T(16) == 0xf61e2562 && T(17) == 0xc040b340 && T(18) == 0x265e5a51 && T(19) == 0xe9b6c7aa;
  }

  lemma Row5(x: seq<Word>, n: nat)
    requires |x| == 16 && n == 20
    ensures Uses(T, x, n, Quad(x[5], x[10], x[15], x[4]), Quad(0xd62f105d, 0x02441453, 0xd8a1e681, 0xe7d3fbc8),
                 Quad(5, 9, 14, 20))
  {
    assert T(20) == 0xd62f105d && T(21) == 0x02441453 && T(22) == 0xd8a1e681 && T(23) == 0xe7d3fbc8;
  }

  lemma Row6(x: seq<Word>, n: nat)
    requires |x| == 16 && n == 24
    ensures Uses(T, x, n, Quad(x[9], x[14], x[3], x[8]), Quad(0x21e1cde6, 0xc33707d6, 0xf4d50d87, 0x455a14ed),
                 Quad(5, 9, 14, 20))
  {
    assert T(24) == 0x21e1cde6 && T(25) == 0xc33707d6 && T(26) == 0xf4d50d87 && T(27) == 0x455a14ed;
  }

  lemma Row7(x: seq<Word>, n: nat)
    requires |x| == 16 && n == 28
    ensures Uses(T, x, n, Quad(x[13], x[2], x[7], x[12]), Quad(0xa9e3e905, 0xfcefa3f8, 0x676f02d9, 0x8d2a4c8a),
                 Quad(5, 9, 14, 20))
  {
    assert T(28) == 0xa9e3e905 && T(29) == 0xfcefa3f8 && T(30) == 0x676f02d9 && T(31) == 0x8d2a4c8a;
  }

  lemma Row8(x: seq<Word>, n: nat)
    requires |x| == 16 && n == 32
    ensures Uses(T, x, n, Quad(x[5], x[8], x[11], x[14]), Quad(0xfffa3942, 0x8771f681, 0x6d9d6122, 0xfde5380c),
                 Quad(4, 11, 16, 23))
  {
    assert T(32) == 0xfffa3942 && T(33) == 0x8771f681 && T(34) == 0x6d9d6122 && T(35) == 0xfde5380c;
  }

  lemma Row9(x: seq<Word>, n: nat)
    requires |x| == 16 && n == 36
    ensures Uses(T, x, n, Quad(x[1], x[4], x[7], x[10]), Quad(0xa4beea44, 0x4bdecfa9, 0xf6bb4b60, 0xbebfbc70),
                 Quad(4, 11, 16, 23))
  {
    assert T(36) == 0xa4beea44 && T(37) == 0x4bdecfa9 && T(38) == 0xf6bb4b60 && T(39) == 0xbebfbc70;
  }

  lemma Row10(x: seq<Word>, n: nat)
    requires |x| == 16 && n == 40
    ensures Uses(T, x, n, Quad(x[13], x[0], x[3], x[6]), Quad(0x289b7ec6, 0xeaa127fa, 0xd4ef3085, 0x04881d05),
                 Quad(4, 11, 16, 23))
  {
    assert T(40) == 0x289b7ec6 && T(41) == 0xeaa127fa && T(42) == 0xd4ef3085 && T(43) == 0x04881d05;
  }

  lemma Row11(x: seq<Word>, n: nat)
    requires |x| == 16 && n == 44
    ensures Uses(T, x, n, Quad(x[9], x[12], x[15], x[2]), Quad(0xd9d4d039, 0xe6db99e5, 0x1fa27cf8, 0xc4ac5665),
                 Quad(4, 11, 16, 23))
  {
    assert T(44) == 0xd9d4d039 && T(45) == 0xe6db99e5 && T(46) == 0x1fa27cf8 && T(47) == 0xc4ac5665;
  }

  lemma Row12(x: seq<Word>, n: nat)
    requires |x| == 16 && n == 48
    ensures Uses(T, x, n, Quad(x[0], x[7], x[14], x[5]), Quad(0xf4292244, 0x432aff97, 0xab9423a7, 0xfc93a039),
                 Quad(6, 10, 15, 21))
  {
    assert T(48) == 0xf4292244 && T(49) == 0x432aff97 && T(50) == 0xab9423a7 && T(51) == 0xfc93a039;
  }

  lemma Row13(x: seq<Word>, n: nat)
    requires |x| == 16 && n == 52
    ensures Uses(T, x, n, Quad(x[12], x[3], x[10], x[1]), Quad(0x655b59c3, 0x8f0ccc92, 0xffeff47d, 0x85845dd1),
                 Quad(6, 10, 15, 21))
  {
    assert T(52) == 0x655b59c3 && T(53) == 0x8f0ccc92 && T(54) == 0xffeff47d && T(55) == 0x85845dd1;
  }

  lemma Row14(x: seq<Word>, n: nat)
    requires |x| == 16 && n == 56
    ensures Uses(T, x, n, Quad(x[8], x[15], x[6], x[13]), Quad(0x6fa87e4f, 0xfe2ce6e0, 0xa3014314, 0x4e0811a1),
                 Quad(6, 10, 15, 21))
  {
    assert T(56) == 0x6fa87e4f && T(57) == 0xfe2ce6e0 && T(58) == 0xa3014314 && T(59) == 0x4e0811a1;
  }

  lemma Row15(x: seq<Word>, n: nat)
    requires |x| == 16 && n == 60
    ensures Uses(T, x, n, Quad(x[4], x[11], x[2], x[9]), Quad(0xf7537e82, 0xbd3af235, 0x2ad7d2bb, 0xeb86d391),
                 Quad(6, 10, 15, 21))
  {
    assert T(60) == 0xf7537e82 && T(61) == 0xbd3af235 && T(62) == 0x2ad7d2bb && T(63) == 0xeb86d391;
  }

  // ---------- the three blocks ----------

  lemma Compressed(w: Words, block: Block, x: seq<Word>, v: Words)
    requires WordsBy(WordOf, block) == x && Reached(w, x, 64, v)
    ensures Compress(w, block) == Sum(v, w)
  {
  }

  // The padded empty message.
  const EMPTY: seq<Word> := [
    0x00000080, 0x00000000, 0x00000000, 0x00000000, 0x00000000, 0x00000000, 0x00000000, 0x00000000,
    0x00000000, 0x00000000, 0x00000000, 0x00000000, 0x00000000, 0x00000000, 0x00000000, 0x00000000]

  lemma Empty0(w: Words, n: nat)
    requires n == 0 && Reached(w, EMPTY, n, Quad(0x67452301, 0xefcdab89, 0x98badcfe, 0x10325476))
    ensures Reached(w, EMPTY, n + 8, Quad(0x32033344, 0x9bc13ce9, 0xf5b158db, 0x2f35d494))
  {
    Row0(EMPTY, n);
    FourF(w, EMPTY, n, 0x67452301, 0xefcdab89, 0x98badcfe, 0x10325476, 0x00000080, 0x00000000, 0x00000000, 0x00000000,
          0xd76aa478, 0xe8c7b756, 0x242070db, 0xc1bdceee, 0xa5202774, 0xf59592dd, 0xe7f06b23, 0x1b163203);
    Row1(EMPTY, n + 4);
    FourF(w, EMPTY, n + 4, 0xa5202774, 0x1b163203, 0xe7f06b23, 0xf59592dd, 0x00000000, 0x00000000, 0x00000000, 0x00000000,
          0xf57c0faf, 0x4787c62a, 0xa8304613, 0xfd469501, 0x32033344, 0x2f35d494, 0xf5b158db, 0x9bc13ce9);
  }

  lemma Empty1(w: Words, n: nat)
    requires n == 8 && Reached(w, EMPTY, n, Quad(0x32033344, 0x9bc13ce9, 0xf5b158db, 0x2f35d494))
    ensures Reached(w, EMPTY, n + 8, Quad(0xf56c7cf1, 0xd6819c6a, 0x5aa53f75, 0x374943a7))
  {
    Row2(EMPTY, n);
    FourF(w, EMPTY, n, 0x32033344, 0x9bc13ce9, 0xf5b158db, 0x2f35d494, 0x00000000, 0x00000000, 0x00000000, 0x00000000,
          0x698098d8, 0x8b44f7af, 0xffff5bb1, 0x895cd7be, 0x3893b991, 0xfce4a312, 0xe1ef0576, 0x70768a29);
    Row3(EMPTY, n + 4);
    FourF(w, EMPTY, n + 4, 0x3893b991, 0x70768a29, 0xe1ef0576, 0xfce4a312, 0x00000000, 0x00000000, 0x00000000, 0x00000000,
          0x6b901122, 0xfd987193, 0xa679438e, 0x49b40821, 0xf56c7cf1, 0x374943a7, 0x5aa53f75, 0xd6819c6a);
  }

  lemma Empty2(w: Words, n: nat)
    requires n == 16 && Reached(w, EMPTY, n, Quad(0xf56c7cf1, 0xd6819c6a, 0x5aa53f75, 0x374943a7))
    ensures Reached(w, EMPTY, n + 8, Quad(0x3d1e3e6c, 0xe422531a, 0xeb41643e, 0x68b7b3e3))
  {
    Row4(EMPTY, n);
    FourG(w, EMPTY, n, 0xf56c7cf1, 0xd6819c6a, 0x5aa53f75, 0x374943a7, 0x00000000, 0x00000000, 0x00000000, 0x00000080,
          0xf61e2562, 0xc040b340, 0x265e5a51, 0xe9b6c7aa, 0x1c7d7513, 0x7bd57a3a, 0xc095f13a, 0xbd782e17);
    Row5(EMPTY, n + 4);
    FourG(w, EMPTY, n + 4, 0x1c7d7513, 0xbd782e17, 0xc095f13a, 0x7bd57a3a, 0x00000000, 0x00000000, 0x00000000, 0x00000000,
          0xd62f105d, 0x02441453, 0xd8a1e681, 0xe7d3fbc8, 0x3d1e3e6c, 0x68b7b3e3, 0xeb41643e, 0xe422531a);
  }

  lemma Empty3(w: Words, n: nat)
    requires n == 24 && Reached(w, EMPTY, n, Quad(0x3d1e3e6c, 0xe422531a, 0xeb41643e, 0x68b7b3e3))
    ensures Reached(w, EMPTY, n + 8, Quad(0x13707036, 0xa2205f1f, 0x1c31c384, 0xae7813db))
  {
    Row6(EMPTY, n);
    FourG(w, EMPTY, n, 0x3d1e3e6c, 0xe422531a, 0xeb41643e, 0x68b7b3e3, 0x00000000, 0x00000000, 0x00000000, 0x00000000,
          0x21e1cde6, 0xc33707d6, 0xf4d50d87, 0x455a14ed, 0x306ec122, 0xd28c77c2, 0xa3c663da, 0xa0572807);
    Row7(EMPTY, n + 4);
    FourG(w, EMPTY, n + 4, 0x306ec122, 0xa0572807, 0xa3c663da, 0xd28c77c2, 0x00000000, 0x00000000, 0x00000000, 0x00000000,
          0xa9e3e905, 0xfcefa3f8, 0x676f02d9, 0x8d2a4c8a, 0x13707036, 0xae7813db, 0x1c31c384, 0xa2205f1f);
  }

  lemma Empty4(w: Words, n: nat)
    requires n == 32 && Reached(w, EMPTY, n, Quad(0x13707036, 0xa2205f1f, 0x1c31c384, 0xae7813db))
    ensures Reached(w, EMPTY, n + 8, Quad(0x5f7a9b2e, 0xc5dc8c15, 0x91ca4cb7, 0xabc34e16))
  {
    Row8(EMPTY, n);
    FourH(w, EMPTY, n, 0x13707036, 0xa2205f1f, 0x1c31c384, 0xae7813db, 0x00000000, 0x00000000, 0x00000000, 0x00000000,
          0xfffa3942, 0x8771f681, 0x6d9d6122, 0xfde5380c, 0xdf63eaa1, 0xc3689f5b, 0x12f3e755, 0x004b6669);
    Row9(EMPTY, n + 4);
    FourH(w, EMPTY, n + 4, 0xdf63eaa1, 0x004b6669, 0x12f3e755, 0xc3689f5b, 0x00000000, 0x00000000, 0x00000000, 0x00000000,
          0xa4beea44, 0x4bdecfa9, 0xf6bb4b60, 0xbebfbc70, 0x5f7a9b2e, 0xabc34e16, 0x91ca4cb7, 0xc5dc8c15);
  }

  lemma Empty5(w: Words, n: nat)
    requires n == 40 && Reached(w, EMPTY, n, Quad(0x5f7a9b2e, 0xc5dc8c15, 0x91ca4cb7, 0xabc34e16))
    ensures Reached(w, EMPTY, n + 8, Quad(0x3f55edfd, 0xca7d2dbd, 0x68d84ea2, 0x22a31f54))
  {
    Row10(EMPTY, n);
    FourH(w, EMPTY, n, 0x5f7a9b2e, 0xc5dc8c15, 0x91ca4cb7, 0xabc34e16, 0x00000000, 0x00000080, 0x00000000, 0x00000000,
          0x289b7ec6, 0xeaa127fa, 0xd4ef3085, 0x04881d05, 0x4497169d, 0x76fd93d4, 0xfd95f243, 0x0fe32453);
    Row11(EMPTY, n + 4);
    FourH(w, EMPTY, n + 4, 0x4497169d, 0x0fe32453, 0xfd95f243, 0x76fd93d4, 0x00000000, 0x00000000, 0x00000000, 0x00000000,
          0xd9d4d039, 0xe6db99e5, 0x1fa27cf8, 0xc4ac5665, 0x3f55edfd, 0x22a31f54, 0x68d84ea2, 0xca7d2dbd);
  }

  lemma Empty6(w: Words, n: nat)
    requires n == 48 && Reached(w, EMPTY, n, Quad(0x3f55edfd, 0xca7d2dbd, 0x68d84ea2, 0x22a31f54))
    ensures Reached(w, EMPTY, n + 8, Quad(0x5625a114, 0x1e77fa61, 0x392ad0d0, 0x3450f42b))
  {
    Row12(EMPTY, n);
    FourI(w, EMPTY, n, 0x3f55edfd, 0xca7d2dbd, 0x68d84ea2, 0x22a31f54, 0x00000080, 0x00000000, 0x00000000, 0x00000000,
          0xf4292244, 0x432aff97, 0xab9423a7, 0xfc93a039, 0x93aa2577, 0x1688dc85, 0xcd85b8cb, 0x561e0689);
    Row13(EMPTY, n + 4);
    FourI(w, EMPTY, n + 4, 0x93aa2577, 0x561e0689, 0xcd85b8cb, 0x1688dc85, 0x00000000, 0x00000000, 0x00000000, 0x00000000,
          0x655b59c3, 0x8f0ccc92, 0xffeff47d, 0x85845dd1, 0x5625a114, 0x3450f42b, 0x392ad0d0, 0x1e77fa61);
  }

  lemma Empty7(w: Words, n: nat)
    requires n == 56 && Reached(w, EMPTY, n, Quad(0x5625a114, 0x1e77fa61, 0x392ad0d0, 0x3450f42b))
    ensures Reached(w, EMPTY, n + 8, Quad(0x7246fad3, 0x14e45506, 0xff4ea3eb, 0x6e10a476))
  {
    Row14(EMPTY, n);
    FourI(w, EMPTY, n, 0x5625a114, 0x1e77fa61, 0x392ad0d0, 0x3450f42b, 0x00000000, 0x00000000, 0x00000000, 0x00000000,
          0x6fa87e4f, 0xfe2ce6e0, 0xa3014314, 0x4e0811a1, 0x474a9c8c, 0xdfce00bc, 0x36594b14, 0x30130182);
    Row15(EMPTY, n + 4);
    FourI(w, EMPTY, n + 4, 0x474a9c8c, 0x30130182, 0x36594b14, 0xdfce00bc, 0x00000000, 0x00000000, 0x00000000, 0x00000000,
          0xf7537e82, 0xbd3af235, 0x2ad7d2bb, 0xeb86d391, 0x7246fad3, 0x6e10a476, 0xff4ea3eb, 0x14e45506);
  }

  lemma EmptyReached(w: Words, n: nat)
    requires n == 0 && w == Quad(0x67452301, 0xefcdab89, 0x98badcfe, 0x10325476)
    ensures Reached(w, EMPTY, n + 64, Quad(0x7246fad3, 0x14e45506, 0xff4ea3eb, 0x6e10a476))
  {
    Empty0(w, n);
    Empty1(w, n + 8);
    Empty2(w, n + 16);
    Empty3(w, n + 24);
    Empty4(w, n + 32);
    Empty5(w, n + 40);
    Empty6(w, n + 48);
    Empty7(w, n + 56);
  }

  lemma EmptyCompressed(block: Block)
    requires WordsBy(WordOf, block) == EMPTY
    ensures Compress(Quad(0x67452301, 0xefcdab89, 0x98badcfe, 0x10325476), block)
      == Quad(0xd98c1dd4, 0x04b2008f, 0x980980e9, 0x7e42f8ec)
  {
    EmptyReached(Quad(0x67452301, 0xefcdab89, 0x98badcfe, 0x10325476), 0);
    Compressed(Quad(0x67452301, 0xefcdab89, 0x98badcfe, 0x10325476), block, EMPTY,
               Quad(0x7246fad3, 0x14e45506, 0xff4ea3eb, 0x6e10a476));
  }

  // The 62 bytes, and two of padding.
  const FRONT: seq<Word> := [
    0x44434241, 0x48474645, 0x4c4b4a49, 0x504f4e4d, 0x54535251, 0x58575655, 0x62615a59, 0x66656463,
    0x6a696867, 0x6e6d6c6b, 0x7271706f, 0x76757473, 0x7a797877, 0x33323130, 0x37363534, 0x00803938]

  lemma Front0(w: Words, n: nat)
    requires n == 0 && Reached(w, FRONT, n, Quad(0x67452301, 0xefcdab89, 0x98badcfe, 0x10325476))
    ensures Reached(w, FRONT, n + 8, Quad(0xf22e6c4e, 0xa4799506, 0xa95a2fc0, 0xb4ac9218))
  {
    Row0(FRONT, n);
    FourF(w, FRONT, n, 0x67452301, 0xefcdab89, 0x98badcfe, 0x10325476, 0x44434241, 0x48474645, 0x4c4b4a49, 0x504f4e4d,
          0xd76aa478, 0xe8c7b756, 0x242070db, 0xc1bdceee, 0xc6c10796, 0x99a09999, 0x11067980, 0x27bce07a);
    Row1(FRONT, n + 4);
    FourF(w, FRONT, n + 4, 0xc6c10796, 0x27bce07a, 0x11067980, 0x99a09999, 0x54535251, 0x58575655, 0x62615a59, 0x66656463,
          0xf57c0faf, 0x4787c62a, 0xa8304613, 0xfd469501, 0xf22e6c4e, 0xb4ac9218, 0xa95a2fc0, 0xa4799506);
  }

  lemma Front1(w: Words, n: nat)
    requires n == 8 && Reached(w, FRONT, n, Quad(0xf22e6c4e, 0xa4799506, 0xa95a2fc0, 0xb4ac9218))
    ensures Reached(w, FRONT, n + 8, Quad(0x3cbdcd45, 0x5d38e690, 0xfa148c8a, 0xb8dec763))
  {
    Row2(FRONT, n);
    FourF(w, FRONT, n, 0xf22e6c4e, 0xa4799506, 0xa95a2fc0, 0xb4ac9218, 0x6a696867, 0x6e6d6c6b, 0x7271706f, 0x76757473,
          0x698098d8, 0x8b44f7af, 0xffff5bb1, 0x895cd7be, 0x1eb3e7c1, 0xa6e70cfe, 0xca27520b, 0x8a7612ec);
    Row3(FRONT, n + 4);
    FourF(w, FRONT, n + 4, 0x1eb3e7c1, 0x8a7612ec, 0xca27520b, 0xa6e70cfe, 0x7a797877, 0x33323130, 0x37363534, 0x00803938,
          0x6b901122, 0xfd987193, 0xa679438e, 0x49b40821, 0x3cbdcd45, 0xb8dec763, 0xfa148c8a, 0x5d38e690);
  }

  lemma Front2(w: Words, n: nat)
    requires n == 16 && Reached(w, FRONT, n, Quad(0x3cbdcd45, 0x5d38e690, 0xfa148c8a, 0xb8dec763))
    ensures Reached(w, FRONT, n + 8, Quad(0x2d7d8a3f, 0x75292030, 0x4b534dc3, 0xd1210823))
  {
    Row4(FRONT, n);
    FourG(w, FRONT, n, 0x3cbdcd45, 0x5d38e690, 0xfa148c8a, 0xb8dec763, 0x48474645, 0x62615a59, 0x76757473, 0x44434241,
          0xf61e2562, 0xc040b340, 0x265e5a51, 0xe9b6c7aa, 0x04b9d52a, 0x783002eb, 0xd3ee3ed1, 0x47ae7c81);
    Row5(FRONT, n + 4);
    FourG(w, FRONT, n + 4, 0x04b9d52a, 0x47ae7c81, 0xd3ee3ed1, 0x783002eb, 0x58575655, 0x7271706f, 0x00803938, 0x54535251,
          0xd62f105d, 0x02441453, 0xd8a1e681, 0xe7d3fbc8, 0x2d7d8a3f, 0xd1210823, 0x4b534dc3, 0x75292030);
  }

  lemma Front3(w: Words, n: nat)
    requires n == 24 && Reached(w, FRONT, n, Quad(0x2d7d8a3f, 0x75292030, 0x4b534dc3, 0xd1210823))
    ensures Reached(w, FRONT, n + 8, Quad(0x9b085fa9, 0xdd789ecc, 0x5993248f, 0x4400a9bd))
  {
    Row6(FRONT, n);
    FourG(w, FRONT, n, 0x2d7d8a3f, 0x75292030, 0x4b534dc3, 0xd1210823, 0x6e6d6c6b, 0x37363534, 0x504f4e4d, 0x6a696867,
          0x21e1cde6, 0xc33707d6, 0xf4d50d87, 0x455a14ed, 0x9d2a6e33, 0x0e8d2e44, 0xd473b564, 0xf2ff6ea0);
    Row7(FRONT, n + 4);
    FourG(w, FRONT, n + 4, 0x9d2a6e33, 0xf2ff6ea0, 0xd473b564, 0x0e8d2e44, 0x33323130, 0x4c4b4a49, 0x66656463, 0x7a797877,
          0xa9e3e905, 0xfcefa3f8, 0x676f02d9, 0x8d2a4c8a, 0x9b085fa9, 0x4400a9bd, 0x5993248f, 0xdd789ecc);
  }

  lemma Front4(w: Words, n: nat)
    requires n == 32 && Reached(w, FRONT, n, Quad(0x9b085fa9, 0xdd789ecc, 0x5993248f, 0x4400a9bd))
    ensures Reached(w, FRONT, n + 8, Quad(0x436b7fe9, 0xcf0341ed, 0xf404c2f6, 0x075800c1))
  {
    Row8(FRONT, n);
    FourH(w, FRONT, n, 0x9b085fa9, 0xdd789ecc, 0x5993248f, 0x4400a9bd, 0x58575655, 0x6a696867, 0x76757473, 0x37363534,
          0xfffa3942, 0x8771f681, 0x6d9d6122, 0xfde5380c, 0x21c8d2b7, 0x1d55a18e, 0x056ec119, 0x1b9504f8);
    Row9(FRONT, n + 4);
    FourH(w, FRONT, n + 4, 0x21c8d2b7, 0x1b9504f8, 0x056ec119, 0x1d55a18e, 0x48474645, 0x54535251, 0x66656463, 0x7271706f,
          0xa4beea44, 0x4bdecfa9, 0xf6bb4b60, 0xbebfbc70, 0x436b7fe9, 0x075800c1, 0xf404c2f6, 0xcf0341ed);
  }

  lemma Front5(w: Words, n: nat)
    requires n == 40 && Reached(w, FRONT, n, Quad(0x436b7fe9, 0xcf0341ed, 0xf404c2f6, 0x075800c1))
    ensures Reached(w, FRONT, n + 8, Quad(0x2dbee21d, 0xf166f514, 0xee46e961, 0xe95c3a43))
  {
    Row10(FRONT, n);
    FourH(w, FRONT, n, 0x436b7fe9, 0xcf0341ed, 0xf404c2f6, 0x075800c1, 0x33323130, 0x44434241, 0x504f4e4d, 0x62615a59,
          0x289b7ec6, 0xeaa127fa, 0xd4ef3085, 0x04881d05, 0x888e7d8a, 0xbbdaecd8, 0xce620273, 0x047b9419);
    Row11(FRONT, n + 4);
    FourH(w, FRONT, n + 4, 0x888e7d8a, 0x047b9419, 0xce620273, 0xbbdaecd8, 0x6e6d6c6b, 0x7a797877, 0x00803938, 0x4c4b4a49,
          0xd9d4d039, 0xe6db99e5, 0x1fa27cf8, 0xc4ac5665, 0x2dbee21d, 0xe95c3a43, 0xee46e961, 0xf166f514);
  }

  lemma Front6(w: Words, n: nat)
    requires n == 48 && Reached(w, FRONT, n, Quad(0x2dbee21d, 0xf166f514, 0xee46e961, 0xe95c3a43))
    ensures Reached(w, FRONT, n + 8, Quad(0xa691d430, 0xefb0e72f, 0x3fc23df6, 0x528452f2))
  {
    Row12(FRONT, n);
    FourI(w, FRONT, n, 0x2dbee21d, 0xf166f514, 0xee46e961, 0xe95c3a43, 0x44434241, 0x66656463, 0x37363534, 0x58575655,
          0xf4292244, 0x432aff97, 0xab9423a7, 0xfc93a039, 0xe47fd4f3, 0xfb887751, 0xf22aedcc, 0x7a13bc5c);
    Row13(FRONT, n + 4);
    FourI(w, FRONT, n + 4, 0xe47fd4f3, 0x7a13bc5c, 0xf22aedcc, 0xfb887751, 0x7a797877, 0x504f4e4d, 0x7271706f, 0x48474645,
          0x655b59c3, 0x8f0ccc92, 0xffeff47d, 0x85845dd1, 0xa691d430, 0x528452f2, 0x3fc23df6, 0xefb0e72f);
  }

  lemma Front7(w: Words, n: nat)
    requires n == 56 && Reached(w, FRONT, n, Quad(0xa691d430, 0xefb0e72f, 0x3fc23df6, 0x528452f2))
    ensures Reached(w, FRONT, n + 8, Quad(0x1cb80f0a, 0xef2e3a46, 0x10f68731, 0xea3d3eb4))
  {
    Row14(FRONT, n);
    FourI(w, FRONT, n, 0xa691d430, 0xefb0e72f, 0x3fc23df6, 0x528452f2, 0x6a696867, 0x00803938, 0x62615a59, 0x33323130,
          0x6fa87e4f, 0xfe2ce6e0, 0xa3014314, 0x4e0811a1, 0x27145703, 0x21a11069, 0x374fbe79, 0x49d9a5b4);
    Row15(FRONT, n + 4);
    FourI(w, FRONT, n + 4, 0x27145703, 0x49d9a5b4, 0x374fbe79, 0x21a11069, 0x54535251, 0x76757473, 0x4c4b4a49, 0x6e6d6c6b,
          0xf7537e82, 0xbd3af235, 0x2ad7d2bb, 0xeb86d391, 0x1cb80f0a, 0xea3d3eb4, 0x10f68731, 0xef2e3a46);
  }

  lemma FrontReached(w: Words, n: nat)
    requires n == 0 && w == Quad(0x67452301, 0xefcdab89, 0x98badcfe, 0x10325476)
    ensures Reached(w, FRONT, n + 64, Quad(0x1cb80f0a, 0xef2e3a46, 0x10f68731, 0xea3d3eb4))
  {
    Front0(w, n);
    Front1(w, n + 8);
    Front2(w, n + 16);
    Front3(w, n + 24);
    Front4(w, n + 32);
    Front5(w, n + 40);
    Front6(w, n + 48);
    Front7(w, n + 56);
  }

  lemma FrontCompressed(block: Block)
    requires WordsBy(WordOf, block) == FRONT
    ensures Compress(Quad(0x67452301, 0xefcdab89, 0x98badcfe, 0x10325476), block)
      == Quad(0x83fd320b, 0xdefbe5cf, 0xa9b1642f, 0xfa6f932a)
  {
    FrontReached(Quad(0x67452301, 0xefcdab89, 0x98badcfe, 0x10325476), 0);
    Compressed(Quad(0x67452301, 0xefcdab89, 0x98badcfe, 0x10325476), block, FRONT,
               Quad(0x1cb80f0a, 0xef2e3a46, 0x10f68731, 0xea3d3eb4));
  }

  // The rest of the padding.
  const BACK: seq<Word> := [
    0x00000000, 0x00000000, 0x00000000, 0x00000000, 0x00000000, 0x00000000, 0x00000000, 0x00000000,
    0x00000000, 0x00000000, 0x00000000, 0x00000000, 0x00000000, 0x00000000, 0x000001f0, 0x00000000]

  lemma Back0(w: Words, n: nat)
    requires n == 0 && Reached(w, BACK, n, Quad(0x83fd320b, 0xdefbe5cf, 0xa9b1642f, 0xfa6f932a))
    ensures Reached(w, BACK, n + 8, Quad(0x75144433, 0x99b6b699, 0xc783cb60, 0xc8875807))
  {
    Row0(BACK, n);
    FourF(w, BACK, n, 0x83fd320b, 0xdefbe5cf, 0xa9b1642f, 0xfa6f932a, 0x00000000, 0x00000000, 0x00000000, 0x00000000,
          0xd76aa478, 0xe8c7b756, 0x242070db, 0xc1bdceee, 0xeda23ed1, 0x989939cf, 0x3c307338, 0xddcf0634);
    Row1(BACK, n + 4);
    FourF(w, BACK, n + 4, 0xeda23ed1, 0xddcf0634, 0x3c307338, 0x989939cf, 0x00000000, 0x00000000, 0x00000000, 0x00000000,
          0xf57c0faf, 0x4787c62a, 0xa8304613, 0xfd469501, 0x75144433, 0xc8875807, 0xc783cb60, 0x99b6b699);
  }

  lemma Back1(w: Words, n: nat)
    requires n == 8 && Reached(w, BACK, n, Quad(0x75144433, 0x99b6b699, 0xc783cb60, 0xc8875807))
    ensures Reached(w, BACK, n + 8, Quad(0xa70737da, 0xa36f556f, 0x96f6586e, 0x5473f8a7))
  {
    Row2(BACK, n);
    FourF(w, BACK, n, 0x75144433, 0x99b6b699, 0xc783cb60, 0xc8875807, 0x00000000, 0x00000000, 0x00000000, 0x00000000,
          0x698098d8, 0x8b44f7af, 0xffff5bb1, 0x895cd7be, 0xa60a3f69, 0xaa6630be, 0x64db26e9, 0x64cc7c5a);
    Row3(BACK, n + 4);
    FourF(w, BACK, n + 4, 0xa60a3f69, 0x64cc7c5a, 0x64db26e9, 0xaa6630be, 0x00000000, 0x00000000, 0x000001f0, 0x00000000,
          0x6b901122, 0xfd987193, 0xa679438e, 0x49b40821, 0xa70737da, 0x5473f8a7, 0x96f6586e, 0xa36f556f);
  }

  lemma Back2(w: Words, n: nat)
    requires n == 16 && Reached(w, BACK, n, Quad(0xa70737da, 0xa36f556f, 0x96f6586e, 0x5473f8a7))
    ensures Reached(w, BACK, n + 8, Quad(0xe04f070c, 0xdf35cb56, 0xc0d22b61, 0x2f3cd2a2))
  {
    Row4(BACK, n);
    FourG(w, BACK, n, 0xa70737da, 0xa36f556f, 0x96f6586e, 0x5473f8a7, 0x00000000, 0x00000000, 0x00000000, 0x00000000,
          0xf61e2562, 0xc040b340, 0x265e5a51, 0xe9b6c7aa, 0xa5050ad3, 0x28776046, 0x27dcd8b4, 0x82b8827c);
    Row5(BACK, n + 4);
    FourG(w, BACK, n + 4, 0xa5050ad3, 0x82b8827c, 0x27dcd8b4, 0x28776046, 0x00000000, 0x00000000, 0x00000000, 0x00000000,
          0xd62f105d, 0x02441453, 0xd8a1e681, 0xe7d3fbc8, 0xe04f070c, 0x2f3cd2a2, 0xc0d22b61, 0xdf35cb56);
  }

  lemma Back3(w: Words, n: nat)
    requires n == 24 && Reached(w, BACK, n, Quad(0xe04f070c, 0xdf35cb56, 0xc0d22b61, 0x2f3cd2a2))
    ensures Reached(w, BACK, n + 8, Quad(0x24eba695, 0x9c03e2e8, 0x10c42a2f, 0x4bd0378b))
  {
    Row6(BACK, n);
    FourG(w, BACK, n, 0xe04f070c, 0xdf35cb56, 0xc0d22b61, 0x2f3cd2a2, 0x00000000, 0x000001f0, 0x00000000, 0x00000000,
          0x21e1cde6, 0xc33707d6, 0xf4d50d87, 0x455a14ed, 0x242dd210, 0x576ace33, 0x5c295967, 0x2291191a);
    Row7(BACK, n + 4);
    FourG(w, BACK, n + 4, 0x242dd210, 0x2291191a, 0x5c295967, 0x576ace33, 0x00000000, 0x00000000, 0x00000000, 0x00000000,
          0xa9e3e905, 0xfcefa3f8, 0x676f02d9, 0x8d2a4c8a, 0x24eba695, 0x4bd0378b, 0x10c42a2f, 0x9c03e2e8);
  }

  lemma Back4(w: Words, n: nat)
    requires n == 32 && Reached(w, BACK, n, Quad(0x24eba695, 0x9c03e2e8, 0x10c42a2f, 0x4bd0378b))
    ensures Reached(w, BACK, n + 8, Quad(0xe14e403d, 0xfe314121, 0x60cc183a, 0xe8cfd670))
  {
    Row8(BACK, n);
    FourH(w, BACK, n, 0x24eba695, 0x9c03e2e8, 0x10c42a2f, 0x4bd0378b, 0x00000000, 0x00000000, 0x00000000, 0x000001f0,
          0xfffa3942, 0x8771f681, 0x6d9d6122, 0xfde5380c, 0x5be1d526, 0x9e414279, 0x9f4a1a7e, 0xa2448453);
    Row9(BACK, n + 4);
    FourH(w, BACK, n + 4, 0x5be1d526, 0xa2448453, 0x9f4a1a7e, 0x9e414279, 0x00000000, 0x00000000, 0x00000000, 0x00000000,
          0xa4beea44, 0x4bdecfa9, 0xf6bb4b60, 0xbebfbc70, 0xe14e403d, 0xe8cfd670, 0x60cc183a, 0xfe314121);
  }

  lemma Back5(w: Words, n: nat)
    requires n == 40 && Reached(w, BACK, n, Quad(0xe14e403d, 0xfe314121, 0x60cc183a, 0xe8cfd670))
    ensures Reached(w, BACK, n + 8, Quad(0x54c9eb3a, 0x79c0710a, 0x2ec86f72, 0xd4d9c6ac))
  {
    Row10(BACK, n);
    FourH(w, BACK, n, 0xe14e403d, 0xfe314121, 0x60cc183a, 0xe8cfd670, 0x00000000, 0x00000000, 0x00000000, 0x00000000,
          0x289b7ec6, 0xeaa127fa, 0xd4ef3085, 0x04881d05, 0xfff62809, 0xe37209ac, 0x8cb5221c, 0x7c7e974c);
    Row11(BACK, n + 4);
    FourH(w, BACK, n + 4, 0xfff62809, 0x7c7e974c, 0x8cb5221c, 0xe37209ac, 0x00000000, 0x00000000, 0x00000000, 0x00000000,
          0xd9d4d039, 0xe6db99e5, 0x1fa27cf8, 0xc4ac5665, 0x54c9eb3a, 0xd4d9c6ac, 0x2ec86f72, 0x79c0710a);
  }

  lemma Back6(w: Words, n: nat)
    requires n == 48 && Reached(w, BACK, n, Quad(0x54c9eb3a, 0x79c0710a, 0x2ec86f72, 0xd4d9c6ac))
    ensures Reached(w, BACK, n + 8, Quad(0xe126c1aa, 0xfb7bcee0, 0x6f287ff5, 0x96b00fa7))
  {
    Row12(BACK, n);
    FourI(w, BACK, n, 0x54c9eb3a, 0x79c0710a, 0x2ec86f72, 0xd4d9c6ac, 0x00000000, 0x00000000, 0x000001f0, 0x00000000,
          0xf4292244, 0x432aff97, 0xab9423a7, 0xfc93a039, 0x02095af1, 0x13d245fd, 0xa8dcfe26, 0x2ba98e3f);
    Row13(BACK, n + 4);
    FourI(w, BACK, n + 4, 0x02095af1, 0x2ba98e3f, 0xa8dcfe26, 0x13d245fd, 0x00000000, 0x00000000, 0x00000000, 0x00000000,
          0x655b59c3, 0x8f0ccc92, 0xffeff47d, 0x85845dd1, 0xe126c1aa, 0x96b00fa7, 0x6f287ff5, 0xfb7bcee0);
  }

  lemma Back7(w: Words, n: nat)
    requires n == 56 && Reached(w, BACK, n, Quad(0xe126c1aa, 0xfb7bcee0, 0x6f287ff5, 0x96b00fa7))
    ensures Reached(w, BACK, n + 8, Quad(0x14ae42c6, 0x16dd9203, 0x826afd76, 0xa52dae75))
  {
    Row14(BACK, n);
    FourI(w, BACK, n, 0xe126c1aa, 0xfb7bcee0, 0x6f287ff5, 0x96b00fa7, 0x00000000, 0x00000000, 0x00000000, 0x00000000,
          0x6fa87e4f, 0xfe2ce6e0, 0xa3014314, 0x4e0811a1, 0x452c1099, 0xca801ba6, 0xc197ea8e, 0x5ac74608);
    Row15(BACK, n + 4);
    FourI(w, BACK, n + 4, 0x452c1099, 0x5ac74608, 0xc197ea8e, 0xca801ba6, 0x00000000, 0x00000000, 0x00000000, 0x00000000,
          0xf7537e82, 0xbd3af235, 0x2ad7d2bb, 0xeb86d391, 0x14ae42c6, 0xa52dae75, 0x826afd76, 0x16dd9203);
  }

  lemma BackReached(w: Words, n: nat)
    requires n == 0 && w == Quad(0x83fd320b, 0xdefbe5cf, 0xa9b1642f, 0xfa6f932a)
    ensures Reached(w, BACK, n + 64, Quad(0x14ae42c6, 0x16dd9203, 0x826afd76, 0xa52dae75))
  {
    Back0(w, n);
    Back1(w, n + 8);
    Back2(w, n + 16);
    Back3(w, n + 24);
    Back4(w, n + 32);
    Back5(w, n + 40);
    Back6(w, n + 48);
    Back7(w, n + 56);
  }

  lemma BackCompressed(block: Block)
    requires WordsBy(WordOf, block) == BACK
    ensures Compress(Quad(0x83fd320b, 0xdefbe5cf, 0xa9b1642f, 0xfa6f932a), block)
      == Quad(0x98ab74d1, 0xf5d977d2, 0x2c1c61a5, 0x9f9d419f)
  {
    BackReached(Quad(0x83fd320b, 0xdefbe5cf, 0xa9b1642f, 0xfa6f932a), 0);
    Compressed(Quad(0x83fd320b, 0xdefbe5cf, 0xa9b1642f, 0xfa6f932a), block, BACK,
               Quad(0x14ae42c6, 0x16dd9203, 0x826afd76, 0xa52dae75));
  }

  // ---------- padding ----------

  /** The length field of a message of fewer than 65536 bits. */
  lemma ShortLength<B>(byte: nat -> B, n: nat)
    requires n < 65536
    ensures LittleEndian(byte, n, 8) == [byte(n % 256), byte(n / 256), byte(0), byte(0), byte(0), byte(0), byte(0), byte(0)]
  {
    var hi := n / 256;
    assert hi % 256 == hi && hi / 256 == 0;
    NoLength(byte, 6);
    assert LittleEndian(byte, hi, 7) == [byte(hi)] + LittleEndian(byte, 0, 6);
  }

  lemma NoLength<B>(byte: nat -> B, k: nat)
    requires k == 6
    ensures LittleEndian(byte, 0, k) == [byte(0), byte(0), byte(0), byte(0), byte(0), byte(0)]
  {
    assert LittleEndian(byte, 0, k - 4) == [byte(0), byte(0)];
    assert LittleEndian(byte, 0, k - 2) == [byte(0), byte(0), byte(0), byte(0)];
  }

  /** The lengths in bits of the two messages. */
  lemma Lengths()
    ensures LittleEndian(ToByte, 0, 8) == Zeros(8)
    ensures LittleEndian(ToByte, 496, 8) == [0xf0, 0x01, 0, 0, 0, 0, 0, 0]
  {
    assert 240 % 256 == 240 && (240 as Byte) == 0xf0 && 1 % 256 == 1 && (1 as Byte) == 1 && 0 % 256 == 0 && (0 as Byte) == 0;
    ShortLength(ToByte, 0);
    ShortLength(ToByte, 496);
  }

  lemma PaddingWith(n: nat, used: nat, bits: nat, len: seq<Byte>)
    requires used == n % 64 && bits == (8 * n) % TWO64 && LittleEndian(ToByte, bits, 8) == len
    ensures Padding(n) == [0x80] + Zeros(if used < 56 then 55 - used else 119 - used) + len
  {
  }

  lemma EmptyPadding(n: nat)
    requires n == 0
    ensures Padding(n) == [0x80] + Zeros(55) + Zeros(8)
  {
    Lengths();
    PaddingWith(n, 0, 0, Zeros(8));
  }

  lemma LettersPadding(n: nat, len: seq<Byte>)
    requires n == 62 && len == [0xf0, 0x01, 0, 0, 0, 0, 0, 0]
    ensures Padding(n) == [0x80] + Zeros(57) + len
  {
    Lengths();
    PaddingWith(n, 62, 496, len);
  }

  /** The padded messages in rows of sixteen bytes. */
  lemma PaddedEmpty(z: seq<Byte>)
    requires z == Zeros(16)
    ensures [] + ([0x80] + Zeros(55) + Zeros(8)) == ([0x80] + Zeros(15)) + z + z + z
  {
  }

  lemma PaddedLetters(r0: seq<Byte>, r1: seq<Byte>, r2: seq<Byte>, r3: seq<Byte>, z: seq<Byte>, len: seq<Byte>)
    requires z == Zeros(16)
    ensures (r0 + r1 + r2 + r3) + ([0x80] + Zeros(57) + len) == (r0 + r1 + r2 + (r3 + [0x80, 0])) + (z + z + z + (Zeros(8) + len))
  {
    assert [0x80] + Zeros(57) == [0x80, 0] + (z + z + z + Zeros(8));
  }

  // ---------- bytes and words ----------

  // The 62 letters and digits of section A.5: A to Z, a to z, 0 to 9.
  const LETTERS0: seq<Byte> := [
    0x41, 0x42, 0x43, 0x44, 0x45, 0x46, 0x47, 0x48, 0x49, 0x4a, 0x4b, 0x4c, 0x4d, 0x4e, 0x4f, 0x50]

  const LETTERS1: seq<Byte> := [
    0x51, 0x52, 0x53, 0x54, 0x55, 0x56, 0x57, 0x58, 0x59, 0x5a, 0x61, 0x62, 0x63, 0x64, 0x65, 0x66]

  const LETTERS2: seq<Byte> := [
    0x67, 0x68, 0x69, 0x6a, 0x6b, 0x6c, 0x6d, 0x6e, 0x6f, 0x70, 0x71, 0x72, 0x73, 0x74, 0x75, 0x76]

  const LETTERS3: seq<Byte> := [
    0x77, 0x78, 0x79, 0x7a, 0x30, 0x31, 0x32, 0x33, 0x34, 0x35, 0x36, 0x37, 0x38, 0x39]

  const LETTERS: seq<Byte> := LETTERS0 + LETTERS1 + LETTERS2 + LETTERS3

  /** The words of sixteen bytes. */
  function RowWords<W>(word: (Byte, Byte, Byte, Byte) -> W, r: seq<Byte>): seq<W>
    requires |r| == 16
  {
    [word(r[0], r[1], r[2], r[3]), word(r[4], r[5], r[6], r[7]), word(r[8], r[9], r[10], r[11]), word(r[12], r[13], r[14], r[15])]
  }

  lemma RowInside<W>(word: (Byte, Byte, Byte, Byte) -> W, a: seq<Byte>, r: seq<Byte>, c: seq<Byte>, b: seq<Byte>, k: nat)
    requires |r| == 16 && |b| == 64 && b == a + r + c && |a| == 4 * k
    ensures forall i :: 0 <= i < 4 ==> WordsBy(word, b)[k + i] == RowWords(word, r)[i]
  {
    assert forall i :: 0 <= i < 16 ==> b[|a| + i] == r[i];
  }

  lemma RowsInside(r0: seq<Byte>, r1: seq<Byte>, r2: seq<Byte>, r3: seq<Byte>, b: seq<Byte>)
    requires b == r0 + r1 + r2 + r3
    ensures b == [] + r0 + (r1 + r2 + r3) && b == r0 + r1 + (r2 + r3) && b == (r0 + r1) + r2 + r3 && b == (r0 + r1 + r2) + r3 + []
  {
  }

  lemma FourRows<W>(x: seq<W>, a: seq<W>, b: seq<W>, c: seq<W>, d: seq<W>)
    requires |x| == 16 && |a| == |b| == |c| == |d| == 4
    requires forall i :: 0 <= i < 4 ==> x[0 + i] == a[i]
    requires forall i :: 0 <= i < 4 ==> x[4 + i] == b[i]
    requires forall i :: 0 <= i < 4 ==> x[8 + i] == c[i]
    requires forall i :: 0 <= i < 4 ==> x[12 + i] == d[i]
    ensures x == a + b + c + d
  {
    var r := a + b + c + d;
    forall i | 0 <= i < 16 ensures x[i] == r[i] {
      assert i >= 12 ==> x[12 + (i - 12)] == d[i - 12];
      assert 8 <= i < 12 ==> x[8 + (i - 8)] == c[i - 8];
      assert 4 <= i < 8 ==> x[4 + (i - 4)] == b[i - 4];
      assert i < 4 ==> x[0 + i] == a[i];
    }
  }

  /** The words of a block, row by row. */
  lemma WordsByRow<W>(word: (Byte, Byte, Byte, Byte) -> W, r0: seq<Byte>, r1: seq<Byte>, r2: seq<Byte>, r3: seq<Byte>,
                      x: seq<W>, x0: seq<W>, x1: seq<W>, x2: seq<W>, x3: seq<W>)
    requires |r0| == |r1| == |r2| == |r3| == 16
    requires RowWords(word, r0) == x0 && RowWords(word, r1) == x1 && RowWords(word, r2) == x2 && RowWords(word, r3) == x3
    requires x == x0 + x1 + x2 + x3
    ensures WordsBy(word, r0 + r1 + r2 + r3) == x
  {
    var b := r0 + r1 + r2 + r3;
    RowsInside(r0, r1, r2, r3, b);
    RowInside(word, [], r0, r1 + r2 + r3, b, 0);
    RowInside(word, r0, r1, r2 + r3, b, 4);
    RowInside(word, r0 + r1, r2, r3, b, 8);
    RowInside(word, r0 + r1 + r2, r3, [], b, 12);
    FourRows(WordsBy(word, b), x0, x1, x2, x3);
  }

  lemma MarkRow(r: seq<Byte>)
    requires r == [0x80] + Zeros(15)
    ensures |r| == 16 && RowWords(WordOf, r) == [0x00000080, 0x00000000, 0x00000000, 0x00000000]
  {
    assert WordOf(0x80, 0x00, 0x00, 0x00) == 0x00000080;
    assert WordOf(0x00, 0x00, 0x00, 0x00) == 0x00000000;
  }

  lemma ZeroRow(r: seq<Byte>)
    requires r == Zeros(16)
    ensures |r| == 16 && RowWords(WordOf, r) == [0x00000000, 0x00000000, 0x00000000, 0x00000000]
  {
    assert WordOf(0x00, 0x00, 0x00, 0x00) == 0x00000000;
  }

  lemma LettersRow0(r: seq<Byte>)
    requires r == LETTERS0
    ensures |r| == 16 && RowWords(WordOf, r) == [0x44434241, 0x48474645, 0x4c4b4a49, 0x504f4e4d]
  {
    assert WordOf(0x41, 0x42, 0x43, 0x44) == 0x44434241;
    assert WordOf(0x45, 0x46, 0x47, 0x48) == 0x48474645;
    assert WordOf(0x49, 0x4a, 0x4b, 0x4c) == 0x4c4b4a49;
    assert WordOf(0x4d, 0x4e, 0x4f, 0x50) == 0x504f4e4d;
  }

  lemma LettersRow1(r: seq<Byte>)
    requires r == LETTERS1
    ensures |r| == 16 && RowWords(WordOf, r) == [0x54535251, 0x58575655, 0x62615a59, 0x66656463]
  {
    assert WordOf(0x51, 0x52, 0x53, 0x54) == 0x54535251;
    assert WordOf(0x55, 0x56, 0x57, 0x58) == 0x58575655;
    assert WordOf(0x59, 0x5a, 0x61, 0x62) == 0x62615a59;
    assert WordOf(0x63, 0x64, 0x65, 0x66) == 0x66656463;
  }

  lemma LettersRow2(r: seq<Byte>)
    requires r == LETTERS2
    ensures |r| == 16 && RowWords(WordOf, r) == [0x6a696867, 0x6e6d6c6b, 0x7271706f, 0x76757473]
  {
    assert WordOf(0x67, 0x68, 0x69, 0x6a) == 0x6a696867;
    assert WordOf(0x6b, 0x6c, 0x6d, 0x6e) == 0x6e6d6c6b;
    assert WordOf(0x6f, 0x70, 0x71, 0x72) == 0x7271706f;
    assert WordOf(0x73, 0x74, 0x75, 0x76) == 0x76757473;
  }

  lemma LettersRow3(r: seq<Byte>)
    requires r == LETTERS3 + [0x80, 0]
    ensures |r| == 16 && RowWords(WordOf, r) == [0x7a797877, 0x33323130, 0x37363534, 0x00803938]
  {
    assert WordOf(0x77, 0x78, 0x79, 0x7a) == 0x7a797877;
    assert WordOf(0x30, 0x31, 0x32, 0x33) == 0x33323130;
    assert WordOf(0x34, 0x35, 0x36, 0x37) == 0x37363534;
    assert WordOf(0x38, 0x39, 0x80, 0x00) == 0x00803938;
  }

  lemma LengthRow(r: seq<Byte>)
    requires r == Zeros(8) + [0xf0, 0x01, 0, 0, 0, 0, 0, 0]
    ensures |r| == 16 && RowWords(WordOf, r) == [0x00000000, 0x00000000, 0x000001f0, 0x00000000]
  {
    assert WordOf(0x00, 0x00, 0x00, 0x00) == 0x00000000;
    assert WordOf(0xf0, 0x01, 0x00, 0x00) == 0x000001f0;
  }

  // ---------- the digests ----------

  lemma FoldOneTo<S>(step: (S, Block) -> S, w: S, a: Block, r: S)
    requires step(w, a) == r
    ensures Fold(step, w, a) == r
  {
    FoldOne(step, w, a);
  }

  lemma FoldTwoTo<S>(step: (S, Block) -> S, w: S, a: Block, b: Block, v: S, r: S)
    requires step(w, a) == v && step(v, b) == r
    ensures Fold(step, w, a + b) == r
  {
    FoldConcat(step, w, a, b);
    FoldOne(step, w, a);
    FoldOne(step, v, b);
  }

  lemma EmptyFolded(m: seq<Byte>, z: seq<Byte>)
    requires z == Zeros(16) && m == ([0x80] + Zeros(15)) + z + z + z
    ensures Fold(Compress, INITIAL, m) == Quad(0xd98c1dd4, 0x04b2008f, 0x980980e9, 0x7e42f8ec)
  {
    var mark := [0x80] + Zeros(15);
    MarkRow(mark);
    ZeroRow(z);
    WordsByRow(WordOf, mark, z, z, z, EMPTY, [0x00000080, 0x00000000, 0x00000000, 0x00000000], [0x00000000, 0x00000000, 0x00000000, 0x00000000], [0x00000000, 0x00000000, 0x00000000, 0x00000000], [0x00000000, 0x00000000, 0x00000000, 0x00000000]);
    EmptyCompressed(m);
    FoldOneTo(Compress, INITIAL, m, Quad(0xd98c1dd4, 0x04b2008f, 0x980980e9, 0x7e42f8ec));
  }

  lemma EmptyWritten()
    ensures Output(Quad(0xd98c1dd4, 0x04b2008f, 0x980980e9, 0x7e42f8ec)) ==
      [0xd4, 0x1d, 0x8c, 0xd9, 0x8f, 0x00, 0xb2, 0x04, 0xe9, 0x80, 0x09, 0x98, 0xec, 0xf8, 0x42, 0x7e]
  {
  }

  /** The digest of the empty message, d41d8cd98f00b204e9800998ecf8427e. */
  lemma EmptyDigest()
    ensures Digest([]) ==
      [0xd4, 0x1d, 0x8c, 0xd9, 0x8f, 0x00, 0xb2, 0x04, 0xe9, 0x80, 0x09, 0x98, 0xec, 0xf8, 0x42, 0x7e]
  {
    var m, z := [], Zeros(16);
    EmptyPadding(|m|);
    PaddedEmpty(z);
    EmptyFolded(m + Padding(|m|), z);
    EmptyWritten();
  }

  lemma FrontDone(r0: seq<Byte>, r1: seq<Byte>, r2: seq<Byte>, r3: seq<Byte>)
    requires r0 == LETTERS0 && r1 == LETTERS1 && r2 == LETTERS2 && r3 == LETTERS3 + [0x80, 0]
    ensures |r0 + r1 + r2 + r3| == 64 && Compress(INITIAL, r0 + r1 + r2 + r3) == Quad(0x83fd320b, 0xdefbe5cf, 0xa9b1642f, 0xfa6f932a)
  {
    LettersRow0(r0);
    LettersRow1(r1);
    LettersRow2(r2);
    LettersRow3(r3);
    WordsByRow(WordOf, r0, r1, r2, r3, FRONT,
               [0x44434241, 0x48474645, 0x4c4b4a49, 0x504f4e4d], [0x54535251, 0x58575655, 0x62615a59, 0x66656463],
               [0x6a696867, 0x6e6d6c6b, 0x7271706f, 0x76757473], [0x7a797877, 0x33323130, 0x37363534, 0x00803938]);
    FrontCompressed(r0 + r1 + r2 + r3);
  }

  lemma BackDone(z: seq<Byte>, len: seq<Byte>)
    requires z == Zeros(16) && len == Zeros(8) + [0xf0, 0x01, 0, 0, 0, 0, 0, 0]
    ensures |z + z + z + len| == 64
    ensures Compress(Quad(0x83fd320b, 0xdefbe5cf, 0xa9b1642f, 0xfa6f932a), z + z + z + len)
      == Quad(0x98ab74d1, 0xf5d977d2, 0x2c1c61a5, 0x9f9d419f)
  {
    ZeroRow(z);
    LengthRow(len);
    WordsByRow(WordOf, z, z, z, len, BACK, [0x00000000, 0x00000000, 0x00000000, 0x00000000], [0x00000000, 0x00000000, 0x00000000, 0x00000000], [0x00000000, 0x00000000, 0x00000000, 0x00000000], [0x00000000, 0x00000000, 0x000001f0, 0x00000000]);
    BackCompressed(z + z + z + len);
  }

  lemma LettersFolded(r0: seq<Byte>, r1: seq<Byte>, r2: seq<Byte>, r3: seq<Byte>, z: seq<Byte>, len: seq<Byte>)
    requires r0 == LETTERS0 && r1 == LETTERS1 && r2 == LETTERS2 && r3 == LETTERS3 + [0x80, 0]
    requires z == Zeros(16) && len == Zeros(8) + [0xf0, 0x01, 0, 0, 0, 0, 0, 0]
    ensures Fold(Compress, INITIAL, (r0 + r1 + r2 + r3) + (z + z + z + len)) == Quad(0x98ab74d1, 0xf5d977d2, 0x2c1c61a5, 0x9f9d419f)
  {
    FrontDone(r0, r1, r2, r3);
    BackDone(z, len);
    FoldTwoTo(Compress, INITIAL, r0 + r1 + r2 + r3, z + z + z + len,
              Quad(0x83fd320b, 0xdefbe5cf, 0xa9b1642f, 0xfa6f932a), Quad(0x98ab74d1, 0xf5d977d2, 0x2c1c61a5, 0x9f9d419f));
  }

  lemma LettersWritten()
    ensures Output(Quad(0x98ab74d1, 0xf5d977d2, 0x2c1c61a5, 0x9f9d419f)) ==
      [0xd1, 0x74, 0xab, 0x98, 0xd2, 0x77, 0xd9, 0xf5, 0xa5, 0x61, 0x1c, 0x2c, 0x9f, 0x41, 0x9d, 0x9f]
  {
  }

  lemma LettersPadded(m: seq<Byte>, r0: seq<Byte>, r1: seq<Byte>, r2: seq<Byte>, r3: seq<Byte>, z: seq<Byte>, len: seq<Byte>)
    requires |m| == 62 && m == r0 + r1 + r2 + r3 && z == Zeros(16) && len == [0xf0, 0x01, 0, 0, 0, 0, 0, 0]
    ensures m + Padding(|m|) == (r0 + r1 + r2 + (r3 + [0x80, 0])) + (z + z + z + (Zeros(8) + len))
  {
    LettersPadding(|m|, len);
    PaddedLetters(r0, r1, r2, r3, z, len);
  }

  /** The digest of the 62 letters and digits, d174ab98d277d9f5a5611d2c9f419d9f. */
  lemma LettersDigest()
    ensures Digest(LETTERS) ==
      [0xd1, 0x74, 0xab, 0x98, 0xd2, 0x77, 0xd9, 0xf5, 0xa5, 0x61, 0x1c, 0x2c, 0x9f, 0x41, 0x9d, 0x9f]
  {
    var z, len := Zeros(16), [0xf0, 0x01, 0, 0, 0, 0, 0, 0];
    LettersPadded(LETTERS, LETTERS0, LETTERS1, LETTERS2, LETTERS3, z, len);
    LettersFolded(LETTERS0, LETTERS1, LETTERS2, LETTERS3 + [0x80, 0], z, Zeros(8) + len);
    LettersWritten();
  }
}
