/** The MD5 digest as RFC 1321 defines it, on a whole message at once. */
module Md5Spec {

  type Byte = bv8
  type Block = b: seq<Byte> | |b| == 64 witness Zeros(64)
  type Word = bv32
  datatype Quad<W> = Quad(a: W, b: W, c: W, d: W)
  type Words = Quad<Word>
  /** An amount to rotate by. */
  type Amount = bv6

  // ---------- section 3.4 of RFC 1321: one 16-word block ----------

  function F(x: Word, y: Word, z: Word): Word { (x & y) | (!x & z) }
  function G(x: Word, y: Word, z: Word): Word { (x & z) | (y & !z) }
  function H(x: Word, y: Word, z: Word): Word { x ^ y ^ z }
  function I(x: Word, y: Word, z: Word): Word { y ^ (x | !z) }

  function Rotate(x: Word, s: Amount): Word {
    if 0 < s < 32 then (x << s) | (x >> (32 - s)) else x
  }

  /** The round function, message word, rotation and sine constant of operation `i`. */
  function Mix(i: nat, x: Word, y: Word, z: Word): Word {
    if i < 16 then F(x, y, z) else if i < 32 then G(x, y, z) else if i < 48 then H(x, y, z) else I(x, y, z)
  }

  function Index(i: nat): (k: nat)
    ensures k < 16
  {
    if i < 16 then i % 16 else if i < 32 then (5 * i + 1) % 16 else if i < 48 then (3 * i + 5) % 16 else (7 * i) % 16
  }

  function Shift(i: nat): (s: Amount)
    ensures 0 < s < 32
  {
    if i < 16 then [7, 12, 17, 22][i % 4]
    else if i < 32 then [5, 9, 14, 20][i % 4]
    else if i < 48 then [4, 11, 16, 23][i % 4]
    else [6, 10, 15, 21][i % 4]
  }

  /** The sine table, four constants to a row. */
  const SINES: seq<seq<Word>> := [
    [0xd76aa478, 0xe8c7b756, 0x242070db, 0xc1bdceee],
    [0xf57c0faf, 0x4787c62a, 0xa8304613, 0xfd469501],
    [0x698098d8, 0x8b44f7af, 0xffff5bb1, 0x895cd7be],
    [0x6b901122, 0xfd987193, 0xa679438e, 0x49b40821],
    [0xf61e2562, 0xc040b340, 0x265e5a51, 0xe9b6c7aa],
    [0xd62f105d, 0x02441453, 0xd8a1e681, 0xe7d3fbc8],
    [0x21e1cde6, 0xc33707d6, 0xf4d50d87, 0x455a14ed],
    [0xa9e3e905, 0xfcefa3f8, 0x676f02d9, 0x8d2a4c8a],
    [0xfffa3942, 0x8771f681, 0x6d9d6122, 0xfde5380c],
    [0xa4beea44, 0x4bdecfa9, 0xf6bb4b60, 0xbebfbc70],
    [0x289b7ec6, 0xeaa127fa, 0xd4ef3085, 0x04881d05],
    [0xd9d4d039, 0xe6db99e5, 0x1fa27cf8, 0xc4ac5665],
    [0xf4292244, 0x432aff97, 0xab9423a7, 0xfc93a039],
    [0x655b59c3, 0x8f0ccc92, 0xffeff47d, 0x85845dd1],
    [0x6fa87e4f, 0xfe2ce6e0, 0xa3014314, 0x4e0811a1],
    [0xf7537e82, 0xbd3af235, 0x2ad7d2bb, 0xeb86d391]]

  function T(i: nat): Word {
    if i < 64 then SINES[i / 4][i % 4] else 0
  }

  /** What an operation does to its first word, given the operation's number, the four words, the
      message word, the sine constant and the rotation. */
  type Step<!W> = (nat, Quad<W>, W, W, Amount) -> W

  /** The step made of a round function and of what is done with its value. */
  function StepBy<W>(mix: (nat, W, W, W) -> W, turn: (W, W, W, W, W, Amount) -> W): Step<W> {
    (i: nat, w: Quad<W>, x: W, t: W, s: Amount) => turn(mix(i, w.b, w.c, w.d), w.a, w.b, x, t, s)
  }

  function Plus(x: Word, y: Word): Word { x + y }

  function Turn(f: Word, a: Word, b: Word, x: Word, t: Word, s: Amount): Word {
    TurnBy(Plus, Rotate, f, a, b, x, t, s)
  }

  /** The operation's sum, rotated and added to the second word. */
  function TurnBy<W>(plus: (W, W) -> W, rotate: (W, Amount) -> W, f: W, a: W, b: W, x: W, t: W, s: Amount): W {
    plus(b, rotate(plus(plus(plus(a, f), x), t), s))
  }

  /** The first `n` operations on the message words `x`. After each, the four words are renamed so that
      the next one works on the next word. */
  function Operations<W>(step: Step<W>, sine: nat -> W, w: Quad<W>, x: seq<W>, n: nat): Quad<W>
    requires n <= 64 && |x| == 16
  {
    if n == 0 then w
    else
      var v := Operations(step, sine, w, x, n - 1);
      Quad(v.d, step(n - 1, v, x[Index(n - 1)], sine(n - 1), Shift(n - 1)), v.b, v.c)
  }

  /** Four bytes as a word, low-order byte first. */
  function WordOf(b0: Byte, b1: Byte, b2: Byte, b3: Byte): Word {
    (b0 as Word) | ((b1 as Word) << 8) | ((b2 as Word) << 16) | ((b3 as Word) << 24)
  }

  /** The sixteen words of a block, when `word` makes a word of four bytes. */
  function WordsBy<W>(word: (Byte, Byte, Byte, Byte) -> W, b: seq<Byte>): (x: seq<W>)
    requires |b| == 64
    ensures |x| == 16
  {
    seq(16, i requires 0 <= i < 16 => word(b[4 * i], b[4 * i + 1], b[4 * i + 2], b[4 * i + 3]))
  }

  function BlockWords(b: Block): (x: seq<Word>)
    ensures |x| == 16
  {
    WordsBy(WordOf, b)
  }

  function Sum(v: Words, saved: Words): Words {
    Quad(v.a + saved.a, v.b + saved.b, v.c + saved.c, v.d + saved.d)
  }

  function Compress(w: Words, block: Block): Words {
    Sum(Operations(StepBy(Mix, Turn), T, w, BlockWords(block), 64), w)
  }

  /** The blocks of `data` taken one after another. */
  function Fold<S>(step: (S, Block) -> S, w: S, data: seq<Byte>): S
    requires |data| % 64 == 0
    decreases |data|
  {
    if data == [] then w else Fold(step, step(w, data[..64]), data[64..])
  }

  // ---------- sections 3.1, 3.2, 3.3 and 3.5 ----------

  /** The low-order `k` bytes of `n`, lowest first. */
  function LittleEndian<B>(byte: nat -> B, n: nat, k: nat): (r: seq<B>)
    ensures |r| == k
  {
    if k == 0 then [] else [byte(n % 256)] + LittleEndian(byte, n / 256, k - 1)
  }

  function ToByte(n: nat): Byte { (n % 256) as Byte }

  function Zeros(n: nat): (r: seq<Byte>)
    ensures |r| == n && forall i :: 0 <= i < n ==> r[i] == 0
  {
    seq(n, _ => 0)
  }

  const TWO64: nat := 0x1_0000_0000_0000_0000

  /** A single 1 bit, zeros up to 8 bytes short of a block, and the length in bits modulo 2^64. */
  function Padding(n: nat): (p: seq<Byte>)
    ensures (n + |p|) % 64 == 0
  {
    var used := n % 64;
    var zeros := if used < 56 then 55 - used else 119 - used;
    assert n == 64 * (n / 64) + used;
    assert n + 1 + zeros + 8 == 64 * (n / 64 + if used < 56 then 1 else 2);
    [0x80] + Zeros(zeros) + LittleEndian(ToByte, (8 * n) % TWO64, 8)
  }

  const INITIAL: Words := Quad(0x67452301, 0xefcdab89, 0x98badcfe, 0x10325476)

  function WordBytes(w: Word): (r: seq<Byte>)
    ensures |r| == 4
  {
    [(w & 0xff) as Byte, ((w >> 8) & 0xff) as Byte, ((w >> 16) & 0xff) as Byte, ((w >> 24) & 0xff) as Byte]
  }

  function Output(w: Words): seq<Byte> {
    WordBytes(w.a) + WordBytes(w.b) + WordBytes(w.c) + WordBytes(w.d)
  }

  function Digest(message: seq<Byte>): seq<Byte> {
    Output(Fold(Compress, INITIAL, message + Padding(|message|)))
  }
}
