/** Streaming over blocks, for any block function: what a carry buffer has to hold. */
module BlockStream {
  import opened Md5Spec

  lemma {:induction false} FoldConcat<S>(step: (S, Block) -> S, w: S, x: seq<Byte>, y: seq<Byte>)
    requires |x| % 64 == 0 && |y| % 64 == 0
    ensures |x + y| % 64 == 0
    ensures Fold(step, w, x + y) == Fold(step, Fold(step, w, x), y)
    decreases |x|
  {
    if x == [] {
      assert x + y == y;
    } else {
      FoldConcat(step, step(w, x[..64]), x[64..], y);
      assert (x + y)[..64] == x[..64] && (x + y)[64..] == x[64..] + y;
    }
  }

  lemma FoldOne<S>(step: (S, Block) -> S, w: S, block: Block)
    ensures Fold(step, w, block) == step(w, block)
  {
    assert block[..64] == block && block[64..] == [];
  }

  /** The state has absorbed the whole blocks of `msg`; the rest of it is in the buffer. */
  ghost predicate Absorbed<S>(step: (S, Block) -> S, w0: S, w: S, buffer: seq<Byte>, msg: seq<Byte>) {
    var used := |msg| % 64;
    && |buffer| == 64
    && w == Fold(step, w0, msg[..|msg| - used])
    && buffer[..used] == msg[|msg| - used..]
  }

  /** `data` is too short to complete the block in the buffer. */
  lemma AbsorbShort<S>(step: (S, Block) -> S, w0: S, w: S, buffer: seq<Byte>, msg: seq<Byte>, data: seq<Byte>, buffer': seq<Byte>)
    requires Absorbed(step, w0, w, buffer, msg) && |msg| % 64 + |data| < 64 && |buffer'| == 64
    requires buffer'[..|msg| % 64 + |data|] == buffer[..|msg| % 64] + data
    ensures Absorbed(step, w0, w, buffer', msg + data)
  {
    var k := |msg| - |msg| % 64;
    assert |msg + data| % 64 == |msg| % 64 + |data|;
    assert (msg + data)[..k] == msg[..k];
    assert (msg + data)[k..] == msg[k..] + data;
  }

  /** `data` completes the block in the buffer. */
  lemma AbsorbFill<S>(step: (S, Block) -> S, w0: S, w: S, buffer: seq<Byte>, msg: seq<Byte>, data: seq<Byte>)
    requires Absorbed(step, w0, w, buffer, msg) && |msg| % 64 + |data| == 64
    ensures |msg + data| % 64 == 0
    ensures step(w, buffer[..|msg| % 64] + data) == Fold(step, w0, msg + data)
  {
    var k := |msg| - |msg| % 64;
    var block := msg[k..] + data;
    assert msg + data == msg[..k] + block;
    FoldConcat(step, w0, msg[..k], block);
    FoldOne(step, w, block);
  }

  /** Whole blocks follow whole blocks; what is left goes to the buffer. */
  lemma AbsorbBlocks<S>(step: (S, Block) -> S, w0: S, w: S, msg: seq<Byte>, data: seq<Byte>, rest: seq<Byte>, buffer: seq<Byte>)
    requires |msg| % 64 == 0 && w == Fold(step, w0, msg) && |buffer| == 64
    requires |data| % 64 == 0 && |rest| < 64 && buffer[..|rest|] == rest
    ensures Absorbed(step, w0, Fold(step, w, data), buffer, msg + data + rest)
  {
    FoldConcat(step, w0, msg, data);
    AbsorbRest(step, w0, msg + data, rest, buffer, msg + data + rest);
  }

  /** The same for one piece of data cut in two. */
  lemma AbsorbCut<S>(step: (S, Block) -> S, w0: S, w: S, msg: seq<Byte>, data: seq<Byte>, rest: seq<Byte>, buffer: seq<Byte>)
    requires |msg| % 64 == 0 && w == Fold(step, w0, msg) && |buffer| == 64
    requires |rest| < 64 && |rest| <= |data| && rest == data[|data| - |rest|..] && (|data| - |rest|) % 64 == 0
    requires buffer[..|rest|] == rest
    ensures Absorbed(step, w0, Fold(step, w, data[..|data| - |rest|]), buffer, msg + data)
  {
    var whole := data[..|data| - |rest|];
    assert msg + whole + rest == msg + data;
    AbsorbBlocks(step, w0, w, msg, whole, rest, buffer);
  }

  lemma AbsorbRest<S>(step: (S, Block) -> S, w0: S, msg: seq<Byte>, rest: seq<Byte>, buffer: seq<Byte>, all: seq<Byte>)
    requires |msg| % 64 == 0 && |buffer| == 64 && |rest| < 64 && buffer[..|rest|] == rest && all == msg + rest
    ensures Absorbed(step, w0, Fold(step, w0, msg), buffer, all)
  {
    AlignedSum(|msg|, |rest|);
    AbsorbedAs(step, w0, buffer, all, msg, rest);
  }

  lemma AbsorbedAs<S>(step: (S, Block) -> S, w0: S, buffer: seq<Byte>, all: seq<Byte>, whole: seq<Byte>, tail: seq<Byte>)
    requires all == whole + tail && |whole| % 64 == 0 && |all| % 64 == |tail|
    requires |buffer| == 64 && |tail| <= 64 && buffer[..|tail|] == tail
    ensures Absorbed(step, w0, Fold(step, w0, whole), buffer, all)
  {
    CutJoined(whole, tail);
  }

  lemma CutJoined<T>(a: seq<T>, b: seq<T>)
    ensures (a + b)[..|a + b| - |b|] == a && (a + b)[|a + b| - |b|..] == b
  {
  }

  lemma AlignedSum(a: nat, b: nat)
    requires a % 64 == 0
    ensures (a + b) % 64 == b % 64
    ensures b < 64 ==> (a + b) % 64 == b
  {
    assert a == 64 * (a / 64);
    assert a + b == 64 * (a / 64 + b / 64) + b % 64;
  }
}
