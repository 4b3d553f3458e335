/** What hw3/mm_alloc.c does to the list of blocks, and what that keeps. */
module HeapSpec {
  import opened HeapBlocks

  /** The smallest remainder worth a block of its own. */
  const SPLIT_MIN: nat := 4

  predicate Fits(b: Block, size: nat) { b.free && b.size >= size }

  predicate Splits(b: Block, size: nat) { b.size >= size + HEADER + SPLIT_MIN }

  /** The first block from `i` on that fits, or the number of blocks if none does. */
  function FirstFitFrom(bs: seq<Block>, size: nat, i: nat): (k: nat)
    requires i <= |bs|
    ensures i <= k <= |bs| && (k < |bs| ==> Fits(bs[k], size))
    decreases |bs| - i
  {
    if i == |bs| || Fits(bs[i], size) then i else FirstFitFrom(bs, size, i + 1)
  }

  function FirstFit(bs: seq<Block>, size: nat): (k: nat)
    ensures k <= |bs| && (k < |bs| ==> Fits(bs[k], size))
  {
    FirstFitFrom(bs, size, 0)
  }

  lemma {:induction false} NothingFitsBefore(bs: seq<Block>, size: nat, i: nat)
    requires i <= |bs|
    ensures forall j :: i <= j < FirstFitFrom(bs, size, i) ==> !Fits(bs[j], size)
    decreases |bs| - i
  {
    if i < |bs| && !Fits(bs[i], size) { NothingFitsBefore(bs, size, i + 1); }
  }

  /** The blocks that a request of `size` bytes makes of the free block `b`. */
  function Carved(b: Block, size: nat): (ns: seq<Block>)
    requires Fits(b, size)
  {
    if Splits(b, size)
    then [b.(size := size, free := false), Block(b.pos + HEADER + size, b.size - size - HEADER, true, b.pos)]
    else [b.(free := false)]
  }

  /** mm_malloc of `size` bytes, when `k` is the first fit and the break is at `brk`. */
  function Allocated(bs: seq<Block>, k: nat, size: nat, brk: nat): seq<Block>
    requires k <= |bs| && (k < |bs| ==> Fits(bs[k], size))
  {
    if k < |bs| then Replaced(bs, k, k + 1, Carved(bs[k], size))
    else bs + [Block(brk, size, false, if bs == [] then NULL else bs[|bs| - 1].pos)]
  }

  /** The first of the blocks that freeing block `k` merges: the free block before it, if its back-link leads
      there, or itself. */
  function MergeFrom(bs: seq<Block>, k: nat): nat
    requires k < |bs|
  {
    if k > 0 && bs[k].prev == bs[k - 1].pos && bs[k - 1].free then k - 1 else k
  }

  /** The block after the last of them. */
  function MergeTo(bs: seq<Block>, k: nat): nat
    requires k < |bs|
  {
    if k + 1 < |bs| && bs[k + 1].free then k + 2 else k + 1
  }

  /** One free block in place of the blocks from `lo` up to `hi`. */
  function Merged(bs: seq<Block>, lo: nat, hi: nat): Block
    requires lo < hi <= |bs|
  {
    var size := bs[hi - 1].End() - bs[lo].Payload();
    Block(bs[lo].pos, if size < 0 then 0 else size, true, bs[lo].prev)
  }

  /** mm_free of block `k`. */
  function Freed(bs: seq<Block>, k: nat): seq<Block>
    requires k < |bs|
  {
    var lo, hi := MergeFrom(bs, k), MergeTo(bs, k);
    Replaced(bs, lo, hi, [Merged(bs, lo, hi)])
  }

  // ---------- filling ----------

  lemma CarvedFills(bs: seq<Block>, k: nat, size: nat)
    requires k < |bs| && Fits(bs[k], size)
    ensures Fills(bs, k, k + 1, Carved(bs[k], size))
  {
  }

  lemma MergedFills(bs: seq<Block>, lo: nat, hi: nat)
    requires Adjacent(bs) && lo < hi <= |bs|
    ensures Fills(bs, lo, hi, [Merged(bs, lo, hi)]) && Merged(bs, lo, hi).End() == bs[hi - 1].End()
  {
    if lo < hi - 1 { Ordered(bs, lo, hi - 1); }
  }

  // ---------- what stays ----------

  /** The live blocks of `bs`, but for one at `gone`, are blocks of `bs'`, and their payloads are unchanged. */
  ghost predicate Kept(mem: seq<Cell>, bs: seq<Block>, mem': seq<Cell>, bs': seq<Block>, gone: nat) {
    forall i :: 0 <= i < |bs| && !bs[i].free && bs[i].pos != gone ==> bs[i] in bs' && SamePayload(mem, bs[i], mem')
  }

  ghost predicate SamePayload(mem: seq<Cell>, b: Block, mem': seq<Cell>) {
    b.End() <= |mem| && b.End() <= |mem'| && forall x :: b.Payload() <= x < b.End() ==> mem'[x] == mem[x]
  }

  lemma ReplacedKept(mem: seq<Cell>, base: nat, bs: seq<Block>, lo: nat, hi: nat, ns: seq<Block>, mem': seq<Cell>, gone: nat)
    requires Tiled(mem, base, bs) && Fills(bs, lo, hi, ns)
    requires SameOutside(mem, bs[lo].pos, bs[hi - 1].End(), mem')
    requires forall i :: lo <= i < hi ==> bs[i].free || bs[i].pos == gone
    ensures Kept(mem, bs, mem', Replaced(bs, lo, hi, ns), gone)
  {
    var r := Replaced(bs, lo, hi, ns);
    ReplacedAt(bs, lo, hi, ns);
    AllOrdered(bs);
    forall i | 0 <= i < |bs| && !bs[i].free && bs[i].pos != gone ensures bs[i] in r && SamePayload(mem, bs[i], mem') {
      assert i < lo || hi <= i;
      assert if i < lo then r[i] == bs[i] else r[i - hi + lo + |ns|] == bs[i];
      assert i < lo ==> bs[i].End() <= bs[lo].pos;
      assert hi <= i ==> bs[hi - 1].End() <= bs[i].pos;
      StillWithin(mem, base, bs, i);
    }
  }

  lemma StillWithin(mem: seq<Cell>, base: nat, bs: seq<Block>, i: nat)
    requires Tiled(mem, base, bs) && i < |bs|
    ensures bs[i].End() <= |mem| && bs[i].pos > NULL && ShownAt(mem, bs[i], PosAfter(bs, i))
  {
    if i > 0 { Ordered(bs, 0, i); }
    assert i + 1 < |bs| ==> ShownAt(mem, bs[i], bs[i + 1].pos);
  }

  /** Payloads of different blocks do not overlap, nor do payloads and headers. */
  lemma PayloadsDisjoint(mem: seq<Cell>, base: nat, bs: seq<Block>, i: nat, j: nat)
    requires Tiled(mem, base, bs) && i < |bs| && j < |bs| && i != j
    ensures bs[i].End() <= bs[j].pos || bs[j].End() <= bs[i].pos
  {
    if i < j { Ordered(bs, i, j); } else { Ordered(bs, j, i); }
  }

  // ---------- the back-links ----------

  /** A replacement that starts with the old back-link loses the mirror only at the block after it, and there
      exactly when it ends in a block elsewhere. */
  lemma ReplacedMirror(bs: seq<Block>, lo: nat, hi: nat, ns: seq<Block>, i: nat)
    requires Mirrored(bs) && Fills(bs, lo, hi, ns) && ns[0].prev == bs[lo].prev
    requires forall j :: 0 < j < |ns| ==> Mirror(ns, j)
    requires i < |Replaced(bs, lo, hi, ns)|
    ensures Mirror(Replaced(bs, lo, hi, ns), i) <==> (i == lo + |ns| ==> ns[|ns| - 1].pos == bs[hi - 1].pos)
  {
    var r, d := Replaced(bs, lo, hi, ns), hi - lo - |ns|;
    ReplacedAt(bs, lo, hi, ns);
    if i < lo {
      assert Mirror(bs, i);
    } else if i == lo {
      assert r[lo + 0] == ns[0];
      assert Mirror(bs, lo);
    } else if i < lo + |ns| {
      assert Mirror(ns, i - lo) && r[lo + (i - lo)] == ns[i - lo] && r[lo + (i - 1 - lo)] == ns[i - 1 - lo];
    } else {
      assert Mirror(bs, i + d) && r[(i + d) - hi + lo + |ns|] == bs[i + d];
      if i == lo + |ns| {
        assert r[lo + (|ns| - 1)] == ns[|ns| - 1];
      } else {
        assert r[(i + d - 1) - hi + lo + |ns|] == bs[i + d - 1];
      }
    }
  }

  /** mm_malloc loses the mirror exactly at the block that follows a split. */
  lemma AllocatedMirror(bs: seq<Block>, k: nat, size: nat, brk: nat, i: nat)
    requires Mirrored(bs) && k <= |bs| && (k < |bs| ==> Fits(bs[k], size)) && i < |Allocated(bs, k, size, brk)|
    ensures Mirror(Allocated(bs, k, size, brk), i) <==> !(k < |bs| && Splits(bs[k], size) && i == k + 2)
    ensures k < |bs| && Splits(bs[k], size) && i == k + 2 ==> Allocated(bs, k, size, brk)[i].prev == bs[k].pos
  {
    if k < |bs| {
      CarvedFills(bs, k, size);
      ReplacedMirror(bs, k, k + 1, Carved(bs[k], size), i);
      if i == k + 2 && Splits(bs[k], size) {
        assert Mirror(bs, k + 1);
      }
    } else if i < |bs| {
      assert Mirror(bs, i);
    }
  }

  /** mm_free loses the mirror exactly at the block that follows a merge. */
  lemma FreedMirror(bs: seq<Block>, k: nat, i: nat)
    requires Adjacent(bs) && Mirrored(bs) && k < |bs| && i < |Freed(bs, k)|
    ensures Mirror(Freed(bs, k), i) <==> !(MergeFrom(bs, k) + 1 < MergeTo(bs, k) && i == MergeFrom(bs, k) + 1)
  {
    var lo, hi := MergeFrom(bs, k), MergeTo(bs, k);
    MergedFills(bs, lo, hi);
    ReplacedMirror(bs, lo, hi, [Merged(bs, lo, hi)], i);
    if lo < hi - 1 { Ordered(bs, lo, hi - 1); }
  }

  // ---------- conservation ----------

  lemma ReplacedBytes(bs: seq<Block>, lo: nat, hi: nat, ns: seq<Block>)
    requires Adjacent(bs) && Fills(bs, lo, hi, ns)
    ensures Bytes(Replaced(bs, lo, hi, ns)) == Bytes(bs)
  {
    ReplacedAdjacent(bs, lo, hi, ns);
    TilingAccountsForAll(bs);
    TilingAccountsForAll(Replaced(bs, lo, hi, ns));
  }

  /** mm_malloc adds what the break moved by, and otherwise only rearranges bytes. */
  lemma AllocatedBytes(bs: seq<Block>, k: nat, size: nat, brk: nat)
    requires Adjacent(bs) && k <= |bs| && (k < |bs| ==> Fits(bs[k], size))
    ensures Bytes(Allocated(bs, k, size, brk)) == Bytes(bs) + if k < |bs| then 0 else HEADER + size
  {
    if k < |bs| {
      CarvedFills(bs, k, size);
      ReplacedBytes(bs, k, k + 1, Carved(bs[k], size));
    } else {
      BytesAppended(bs, Block(brk, size, false, if bs == [] then NULL else bs[|bs| - 1].pos));
    }
  }

  lemma {:induction false} BytesAppended(bs: seq<Block>, b: Block)
    ensures Bytes(bs + [b]) == Bytes(bs) + HEADER + b.size
  {
    if bs != [] {
      assert (bs + [b])[1..] == bs[1..] + [b];
      BytesAppended(bs[1..], b);
    }
  }

  /** mm_free only rearranges bytes. */
  lemma FreedBytes(bs: seq<Block>, k: nat)
    requires Adjacent(bs) && k < |bs|
    ensures Bytes(Freed(bs, k)) == Bytes(bs)
  {
    var lo, hi := MergeFrom(bs, k), MergeTo(bs, k);
    MergedFills(bs, lo, hi);
    ReplacedBytes(bs, lo, hi, [Merged(bs, lo, hi)]);
  }
}
