/** The streaming MD5 of hw4/src/md5.c: a 64-byte carry buffer and a length counter split
    into 29 low and 32 high bits. However a message is cut up, the digest is that of RFC 1321. */
module Md5 {
  import opened Md5Spec
  import opened BlockStream
  import Md5Block

  const TWO29: nat := 0x2000_0000
  const TWO32: nat := 0x1_0000_0000

  // ---------- the length counter ----------

  /** The counters after `n` bytes: `lo` counts them modulo 2^29, `hi` its overflows modulo 2^32. */
  ghost predicate Counts(lo: nat, hi: nat, n: nat) {
    lo == n % TWO29 && hi == (n / TWO29) % TWO32
  }

  /** The update of the counters for `size` more bytes, with its test for a carry out of the low part. */
  function Counted(lo: nat, hi: nat, size: nat): (nat, nat) {
    var lo' := (lo + size) % TWO29;
    var hi' := if lo' < lo then (hi + 1) % TWO32 else hi;
    (lo', (hi' + size / TWO29) % TWO32)
  }

  /** The carry test is right: the counters keep counting, across any overflow. */
  lemma CountedCounts(lo: nat, hi: nat, n: nat, size: nat)
    requires Counts(lo, hi, n)
    ensures Counts(Counted(lo, hi, size).0, Counted(lo, hi, size).1, n + size)
  {
    var carry := if lo + size % TWO29 >= TWO29 then 1 else 0;
    LowCounter(lo, n, size, carry);
    HighCounter(hi, n / TWO29, size / TWO29, carry);
  }

  lemma LowCounter(lo: nat, n: nat, size: nat, carry: nat)
    requires lo == n % TWO29 && carry == if lo + size % TWO29 >= TWO29 then 1 else 0
    ensures (lo + size) % TWO29 == (n + size) % TWO29 == lo + size % TWO29 - carry * TWO29
    ensures (n + size) / TWO29 == n / TWO29 + size / TWO29 + carry
    ensures (lo + size) % TWO29 < lo <==> carry == 1
  {
    assert n == TWO29 * (n / TWO29) + lo && size == TWO29 * (size / TWO29) + size % TWO29;
  }

  lemma HighCounter(hi: nat, q: nat, more: nat, carry: nat)
    requires hi == q % TWO32 && carry <= 1
    ensures ((if carry == 1 then (hi + 1) % TWO32 else hi) + more) % TWO32 == (q + more + carry) % TWO32
  {
  }

  /** The two counters hold the length in bits modulo 2^64, as section 3.2 of RFC 1321 asks for. */
  lemma CountsAreBits(lo: nat, hi: nat, n: nat)
    requires Counts(lo, hi, n)
    ensures hi * TWO32 + 8 * lo == (8 * n) % TWO64
  {
    var q := n / TWO29;
    assert n == q * TWO29 + lo;
    assert 8 * n == q * TWO32 + 8 * lo;
    assert q == (q / TWO32) * TWO32 + hi;
    assert 8 * n == (q / TWO32) * TWO64 + (hi * TWO32 + 8 * lo);
    assert hi * TWO32 + 8 * lo < TWO64;
  }

  /** The four bytes of a 32-bit counter, each cut from a shifted copy of it. */
  function CounterBytes<B>(byte: nat -> B, x: nat): (r: seq<B>)
    ensures |r| == 4
  {
    [byte(x % 256), byte(x / 0x100 % 256), byte(x / 0x1_0000 % 256), byte(x / 0x100_0000 % 256)]
  }

  lemma CounterBytesAreLittleEndian<B>(byte: nat -> B, x: nat)
    ensures CounterBytes(byte, x) == LittleEndian(byte, x, 4)
  {
    assert x / 0x1_0000 == x / 256 / 256 && x / 0x100_0000 == x / 256 / 256 / 256;
    assert LittleEndian(byte, x, 4) == [byte(x % 256)] + LittleEndian(byte, x / 256, 3);
    assert LittleEndian(byte, x / 256, 3) == [byte(x / 256 % 256)] + LittleEndian(byte, x / 256 / 256, 2);
  }

  lemma LowestByte<B>(byte: nat -> B, q: nat, r: nat, k: nat)
    requires r < 256
    ensures LittleEndian(byte, 256 * q + r, k + 1) == [byte(r)] + LittleEndian(byte, q, k)
  {
    assert (256 * q + r) % 256 == r && (256 * q + r) / 256 == q;
  }

  lemma LowestTwo<B>(byte: nat -> B, h: nat, l: nat, k: nat)
    requires l < 0x1_0000
    ensures LittleEndian(byte, 0x1_0000 * h + l, k + 2) == [byte(l % 256), byte(l / 256)] + LittleEndian(byte, h, k)
  {
    var q, r := l / 256, l % 256;
    assert 0x1_0000 * h + l == 256 * (256 * h + q) + r;
    LowestByte(byte, 256 * h + q, r, k + 1);
    LowestByte(byte, h, q, k);
    TwoThenRest(byte(r), byte(q), LittleEndian(byte, h, k));
  }

  lemma TwoThenRest<B>(a: B, b: B, s: seq<B>)
    ensures [a] + ([b] + s) == [a, b] + s
  {
  }

  lemma LittleEndianSplit<B>(byte: nat -> B, h: nat, l: nat)
    requires l < TWO32
    ensures LittleEndian(byte, TWO32 * h + l, 8) == CounterBytes(byte, l) + CounterBytes(byte, h)
  {
    var low, high := l % 0x1_0000, l / 0x1_0000;
    LowestFour(byte, h, l, 4);
    CounterBytesOf(byte, l);
    CounterBytesAreLittleEndian(byte, h);
    TwoTwoRest([byte(low % 256), byte(low / 256)], [byte(high % 256), byte(high / 256)], LittleEndian(byte, h, 4));
  }

  lemma LowestFour<B>(byte: nat -> B, h: nat, l: nat, k: nat)
    requires l < TWO32
    ensures var low, high := l % 0x1_0000, l / 0x1_0000;
      LittleEndian(byte, TWO32 * h + l, k + 4) == [byte(low % 256), byte(low / 256)] + ([byte(high % 256), byte(high / 256)] + LittleEndian(byte, h, k))
  {
    var low, high := l % 0x1_0000, l / 0x1_0000;
    Halves(h, l);
    LowestTwo(byte, 0x1_0000 * h + high, low, k + 2);
    LowestTwo(byte, h, high, k);
  }

  lemma Halves(h: nat, l: nat)
    requires l < TWO32
    ensures l / 0x1_0000 < 0x1_0000 && TWO32 * h + l == 0x1_0000 * (0x1_0000 * h + l / 0x1_0000) + l % 0x1_0000
  {
    assert l == 0x1_0000 * (l / 0x1_0000) + l % 0x1_0000;
  }

  lemma TwoTwoRest<B>(a: seq<B>, b: seq<B>, c: seq<B>)
    ensures a + (b + c) == a + b + c
  {
  }

  lemma CounterBytesOf<B>(byte: nat -> B, l: nat)
    requires l < TWO32
    ensures var low, high := l % 0x1_0000, l / 0x1_0000;
      CounterBytes(byte, l) == [byte(low % 256), byte(low / 256)] + [byte(high % 256), byte(high / 256)]
  {
    LowBytes(l);
    HighBytes(l);
  }

  lemma LowBytes(l: nat)
    ensures l % 0x1_0000 % 256 == l % 256 && l % 0x1_0000 / 256 == l / 0x100 % 256
  {
    var h := l / 256;
    var q, b, c := h / 256, h % 256, l % 256;
    assert l == 256 * h + c && h == 256 * q + b;
    assert l == 0x1_0000 * q + (256 * b + c);
    assert l % 0x1_0000 == 256 * b + c;
  }

  lemma HighBytes(l: nat)
    requires l < TWO32
    ensures l / 0x1_0000 / 256 == l / 0x100_0000 % 256
  {
  }

  // ---------- the context ----------

  /** Processes whole blocks, without touching the length counter. */
  method Body(w: Words, data: seq<Byte>) returns (r: Words)
    requires |data| % 64 == 0 && |data| > 0
    ensures r == Fold(Compress, w, data)
  {
    r := w;
    var rest := data;
    while rest != []
      invariant |rest| % 64 == 0 && Fold(Compress, r, rest) == Fold(Compress, w, data)
      decreases |rest|
    {
      FoldNext(Compress, r, rest);
      r := Md5Block.ProcessBlock(r, rest[..64]);
      rest := rest[64..];
    }
  }

  lemma FoldNext<S>(step: (S, Block) -> S, w: S, data: seq<Byte>)
    requires data != [] && |data| % 64 == 0
    ensures |data| >= 64 && |data[64..]| % 64 == 0
    ensures Fold(step, w, data) == Fold(step, step(w, data[..64]), data[64..])
  {
  }

  /** memcpy into the buffer. */
  method CopyIn(buffer: array<Byte>, at: nat, data: seq<Byte>)
    requires at + |data| <= buffer.Length
    modifies buffer
    ensures buffer[..] == old(buffer[..at]) + data + old(buffer[at + |data|..])
  {
    forall i | 0 <= i < |data| {
      buffer[at + i] := data[i];
    }
  }

  class Context {
    var lo: nat
    var hi: nat
    var w: Words
    const buffer: array<Byte>
    /** What has been absorbed so far. */
    ghost var msg: seq<Byte>

    ghost predicate Valid()
      reads this, buffer
    {
      && buffer.Length == 64
      && Counts(lo, hi, |msg|)
      && Absorbed(Compress, INITIAL, w, buffer[..], msg)
    }

    /** MD5_Init. */
    constructor ()
      ensures Valid() && msg == [] && fresh(buffer)
    {
      lo, hi, w := 0, 0, INITIAL;
      buffer := new Byte[64];
      msg := [];
    }

    /** MD5_Update. */
    method Update(data: seq<Byte>)
      requires Valid()
      modifies this, buffer
      ensures Valid() && msg == old(msg) + data
    {
      var used := lo % 64;
      UsedBytes(|msg|);
      Count(|data|, |msg|);
      TakeIn(used, data, |msg| + |data|);
    }

    /** Takes in `data`, which has been counted. */
    method TakeIn(used: nat, data: seq<Byte>, ghost n: nat)
      requires Absorbed(Compress, INITIAL, w, buffer[..], msg) && used == |msg| % 64 && n == |msg| + |data| && Counts(lo, hi, n)
      modifies this`w, this`msg, buffer
      ensures Valid() && msg == old(msg) + data
    {
      ghost var all := msg + data;
      Absorb(used, data, msg);
      msg := all;
    }

    /** Counts `size` more bytes. */
    method Count(size: nat, ghost n: nat)
      requires Counts(lo, hi, n)
      modifies this`lo, this`hi
      ensures Counts(lo, hi, n + size)
    {
      CountedCounts(lo, hi, n, size);
      var (lo', hi') := Counted(lo, hi, size);
      lo, hi := lo', hi';
    }

    /** Takes in `data` through the buffer. */
    method Absorb(used: nat, data: seq<Byte>, ghost before: seq<Byte>)
      requires Absorbed(Compress, INITIAL, w, buffer[..], before) && used == |before| % 64
      modifies this`w, buffer
      ensures Absorbed(Compress, INITIAL, w, buffer[..], before + data)
    {
      if used != 0 {
        if used + |data| < 64 {
          Append(used, data, before);
          return;
        }
        CompleteThenBlocks(used, data, before);
      } else {
        assert before[..|before|] == before;
        Blocks(data, before);
      }
    }

    /** Completes the block in the buffer and carries on with whole blocks. */
    method CompleteThenBlocks(used: nat, data: seq<Byte>, ghost before: seq<Byte>)
      requires Absorbed(Compress, INITIAL, w, buffer[..], before) && used == |before| % 64 && used + |data| >= 64
      modifies this`w, buffer
      ensures Absorbed(Compress, INITIAL, w, buffer[..], before + data)
    {
      var available := 64 - used;
      ghost var mid := before + data[..available];
      Rejoin(before, data, available);
      Complete(used, data[..available], before);
      Blocks(data[available..], mid);
    }

    /** Puts `data` after the `used` bytes in the buffer. */
    method Append(used: nat, data: seq<Byte>, ghost before: seq<Byte>)
      requires Absorbed(Compress, INITIAL, w, buffer[..], before) && used == |before| % 64 && used + |data| < 64
      modifies buffer
      ensures Absorbed(Compress, INITIAL, w, buffer[..], before + data)
    {
      ghost var was := buffer[..];
      CopyIn(buffer, used, data);
      assert buffer[..used + |data|] == was[..used] + data;
      AbsorbShort(Compress, INITIAL, w, was, before, data, buffer[..]);
    }

    /** Completes the block in the buffer and processes it. */
    method Complete(used: nat, data: seq<Byte>, ghost before: seq<Byte>)
      requires Absorbed(Compress, INITIAL, w, buffer[..], before) && used == |before| % 64 && used + |data| == 64
      modifies this`w, buffer
      ensures |before + data| % 64 == 0 && w == Fold(Compress, INITIAL, before + data)
    {
      AbsorbFill(Compress, INITIAL, w, buffer[..], before, data);
      ghost var block := buffer[..used] + data;
      CopyIn(buffer, used, data);
      assert buffer[..] == block;
      FoldOne(Compress, w, block);
      w := Body(w, buffer[..]);
    }

    /** Processes whole blocks straight from `data` and keeps the rest, the buffer being empty. */
    method Blocks(data: seq<Byte>, ghost before: seq<Byte>)
      requires buffer.Length == 64 && |before| % 64 == 0 && w == Fold(Compress, INITIAL, before)
      modifies this`w, buffer
      ensures Absorbed(Compress, INITIAL, w, buffer[..], before + data)
    {
      ghost var w0 := w;
      var rest;
      w, rest := WholeBlocks(w, data);
      CopyIn(buffer, 0, rest);
      assert buffer[..|rest|] == rest;
      AbsorbCut(Compress, INITIAL, w0, before, data, rest, buffer[..]);
    }

    /** MD5_Final. */
    method Final() returns (result: seq<Byte>)
      requires Valid()
      modifies this, buffer
      ensures result == Digest(old(msg))
    {
      UsedBytes(|msg|);
      LengthBytes(lo, hi, |msg|);
      Pad(lo % 64, CounterBytes(ToByte, 8 * lo) + CounterBytes(ToByte, hi), msg);
      result := Output(w);
    }

    /** Processes one more block, written over the buffer. */
    method Last(block: seq<Byte>, ghost before: seq<Byte>)
      requires buffer.Length == 64 && |before| % 64 == 0 && w == Fold(Compress, INITIAL, before) && |block| == 64
      modifies this`w, buffer
      ensures |before + block| % 64 == 0 && w == Fold(Compress, INITIAL, before + block)
    {
      FoldConcat(Compress, INITIAL, before, block);
      CopyIn(buffer, 0, block);
      assert buffer[..] == block;
      w := Body(w, buffer[..]);
    }

    /** Pads and processes the last one or two blocks. */
    method Pad(used: nat, length: seq<Byte>, ghost before: seq<Byte>)
      requires Absorbed(Compress, INITIAL, w, buffer[..], before) && used == |before| % 64
      requires length == LittleEndian(ToByte, (8 * |before|) % TWO64, 8)
      modifies this`w, buffer
      ensures w == Fold(Compress, INITIAL, before + Padding(|before|))
    {
      var available := 63 - used;
      if available < 8 {
        PaddingTwo(|before|, available);
        CompleteThenLast(used, [0x80] + Zeros(available), Zeros(56) + length, before, Padding(|before|));
      } else {
        PaddingOne(|before|, available);
        Complete(used, [0x80] + Zeros(available - 8) + length, before);
      }
    }

    method CompleteThenLast(used: nat, first: seq<Byte>, second: seq<Byte>, ghost before: seq<Byte>, ghost padding: seq<Byte>)
      requires Absorbed(Compress, INITIAL, w, buffer[..], before) && used == |before| % 64
      requires used + |first| == 64 && |second| == 64 && padding == first + second
      modifies this`w, buffer
      ensures |before + padding| % 64 == 0 && w == Fold(Compress, INITIAL, before + padding)
    {
      Complete(used, first, before);
      Last(second, before + first);
      Regroup(before, first, second);
    }
  }

  lemma Regroup(a: seq<Byte>, b: seq<Byte>, c: seq<Byte>)
    ensures a + b + c == a + (b + c)
  {
  }

  lemma Rejoin(before: seq<Byte>, data: seq<Byte>, k: nat)
    requires k <= |data|
    ensures before + data[..k] + data[k..] == before + data
  {
    Regroup(before, data[..k], data[k..]);
    assert data == data[..k] + data[k..];
  }

  lemma LengthBytes(lo: nat, hi: nat, n: nat)
    requires Counts(lo, hi, n)
    ensures CounterBytes(ToByte, 8 * lo) + CounterBytes(ToByte, hi) == LittleEndian(ToByte, (8 * n) % TWO64, 8)
  {
    CountsAreBits(lo, hi, n);
    LittleEndianSplit(ToByte, hi, 8 * lo);
  }

  /** Processes the whole blocks of `data`, and returns what is left. */
  method WholeBlocks(w: Words, data: seq<Byte>) returns (r: Words, rest: seq<Byte>)
    ensures |rest| < 64 && |rest| <= |data| && rest == data[|data| - |rest|..] && (|data| - |rest|) % 64 == 0
    ensures r == Fold(Compress, w, data[..|data| - |rest|])
  {
    r, rest := w, data;
    if |data| >= 64 {
      var whole := |data| - |data| % 64;
      r := Body(w, data[..whole]);
      rest := data[whole..];
    }
  }

  lemma UsedBytes(n: nat)
    ensures n % TWO29 % 64 == n % 64
  {
    assert n == TWO29 * (n / TWO29) + n % TWO29;
  }

  lemma PaddingOne(n: nat, available: nat)
    requires available == 63 - n % 64 && available >= 8
    ensures Padding(n) == [0x80] + Zeros(available - 8) + LittleEndian(ToByte, (8 * n) % TWO64, 8)
  {
  }

  lemma PaddingTwo(n: nat, available: nat)
    requires available == 63 - n % 64 && available < 8
    ensures Padding(n) == [0x80] + Zeros(available) + (Zeros(56) + LittleEndian(ToByte, (8 * n) % TWO64, 8))
  {
    assert Zeros(available + 56) == Zeros(available) + Zeros(56);
  }

  // ---------- any way of cutting a message ----------

  function Joined<T>(chunks: seq<seq<T>>): seq<T>
    decreases |chunks|
  {
    if chunks == [] then [] else Joined(chunks[..|chunks| - 1]) + chunks[|chunks| - 1]
  }

  lemma JoinedNext<T>(chunks: seq<seq<T>>, i: nat)
    requires i < |chunks|
    ensures Joined(chunks[..i + 1]) == Joined(chunks[..i]) + chunks[i]
  {
    assert chunks[..i + 1][..i] == chunks[..i];
  }

  lemma JoinedAll<T>(chunks: seq<seq<T>>)
    ensures Joined(chunks[..|chunks|]) == Joined(chunks)
  {
    assert chunks[..|chunks|] == chunks;
  }

  /** MD5_Init and any number of MD5_Updates. */
  method AbsorbChunks(chunks: seq<seq<Byte>>) returns (ctx: Context)
    ensures fresh(ctx) && fresh(ctx.buffer) && ctx.Valid() && ctx.msg == Joined(chunks)
  {
    ctx := new Context();
    for i := 0 to |chunks|
      invariant fresh(ctx) && fresh(ctx.buffer) && ctx.Valid() && ctx.msg == Joined(chunks[..i])
    {
      JoinedNext(chunks, i);
      ctx.Update(chunks[i]);
    }
    JoinedAll(chunks);
  }

  /** MD5_Init, any number of MD5_Updates, MD5_Final: the digest of the whole message. */
  method HashChunks(chunks: seq<seq<Byte>>) returns (digest: seq<Byte>)
    ensures digest == Digest(Joined(chunks))
  {
    var ctx := AbsorbChunks(chunks);
    digest := ctx.Final();
  }
}
