/** The lists of blocks that hw3/mm_alloc.c makes, in terms of the blocks alone: which block a request gets and what is
    left of it, and what a release gives back. */
module HeapEffects {
  import opened HeapBlocks
  import opened HeapSpec

  // ---------- mm_malloc ----------

  /** Block `k` is free and large enough, and no block before it is. */
  ghost predicate FirstThatFits(bs: seq<Block>, size: nat, k: int) {
    && 0 <= k < |bs| && bs[k].free && bs[k].size >= size
    && forall j :: 0 <= j < k ==> !(bs[j].free && bs[j].size >= size)
  }

  /** Block `b` of `size` bytes has been cut from block `k`, or is the whole of it if less than 36 bytes would be left;
      what is left, less a header of 32 bytes, is a free block; the other blocks are still there. */
  ghost predicate Cut(bs: seq<Block>, k: nat, size: nat, bs': seq<Block>, b: Block)
    requires k < |bs|
  {
    && b in bs' && b == Block(bs[k].pos, if bs[k].size >= size + 36 then size else bs[k].size, false, bs[k].prev)
    && (bs[k].size >= size + 36 ==> Block(b.End(), bs[k].size - size - 32, true, b.pos) in bs')
    && forall i :: 0 <= i < |bs| && i != k ==> bs[i] in bs'
  }

  /** `b` is a block for `size` bytes: cut from the first that fits, or new at the break `brk` if none does. */
  ghost predicate Provided(bs: seq<Block>, size: nat, brk: nat, bs': seq<Block>, b: Block) {
    || (exists k :: FirstThatFits(bs, size, k) && Cut(bs, k, size, bs', b))
    || ((forall k :: !FirstThatFits(bs, size, k)) && bs' == bs + [b]
        && b == Block(brk, size, false, if bs == [] then 0 else bs[|bs| - 1].pos))
  }

  lemma FirstFitIsFirst(bs: seq<Block>, size: nat)
    ensures forall k :: FirstThatFits(bs, size, k) <==> k == FirstFit(bs, size) < |bs|
    ensures FirstFit(bs, size) == |bs| <==> forall b :: b in bs ==> !(b.free && b.size >= size)
  {
    NothingFitsBefore(bs, size, 0);
  }

  /** mm_malloc's list provides the block it returns. */
  lemma AllocatedProvides(bs: seq<Block>, size: nat, brk: nat)
    ensures var k := FirstFit(bs, size); var bs' := Allocated(bs, k, size, brk);
      k < |bs'| && Provided(bs, size, brk, bs', bs'[k])
  {
    FirstFitIsFirst(bs, size);
    var k := FirstFit(bs, size);
    if k < |bs| { AllocatedCuts(bs, k, size, brk); }
  }

  lemma AllocatedCuts(bs: seq<Block>, k: nat, size: nat, brk: nat)
    requires k < |bs| && Fits(bs[k], size)
    ensures var bs' := Allocated(bs, k, size, brk); k < |bs'| && Cut(bs, k, size, bs', bs'[k])
  {
    var ns := Carved(bs[k], size);
    ReplacedHolds(bs, k, k + 1, ns);
    CarvedMeans(bs[k], size);
  }

  lemma CarvedMeans(b: Block, size: nat)
    requires Fits(b, size)
    ensures var ns := Carved(b, size);
      && ns[0] in ns && ns[0] == Block(b.pos, if b.size >= size + 36 then size else b.size, false, b.prev)
      && (b.size >= size + 36 ==> Block(ns[0].End(), b.size - size - 32, true, b.pos) in ns)
  {
    assert b.size >= size + 36 ==> Carved(b, size)[1] in Carved(b, size);
  }

  /** A replacement holds what it brings, and what it leaves alone. */
  lemma ReplacedHolds(bs: seq<Block>, lo: nat, hi: nat, ns: seq<Block>)
    requires lo < hi <= |bs| && ns != []
    ensures var r := Replaced(bs, lo, hi, ns);
      && lo < |r| && r[lo] == ns[0] && (forall b :: b in ns ==> b in r)
      && forall i :: 0 <= i < |bs| && (i < lo || hi <= i) ==> bs[i] in r
  {
    var r := Replaced(bs, lo, hi, ns);
    forall i | 0 <= i < |bs| && (i < lo || hi <= i) ensures bs[i] in r {
      if i < lo { assert bs[..lo][i] in r; } else { assert bs[hi..][i - hi] in r; }
    }
  }

  // ---------- mm_free ----------

  /** One free block `b` is where block `k` was, from the first byte of the block before it if that was free and the
      back-link leads there, to the last byte of the block behind it if that was free; the blocks around are still there. */
  ghost predicate Reclaimed(bs: seq<Block>, k: nat, bs': seq<Block>, b: Block)
    requires k < |bs|
  {
    && b in bs' && b.free
    && b.pos == (if k > 0 && bs[k - 1].free && bs[k].prev == bs[k - 1].pos then bs[k - 1].pos else bs[k].pos)
    && b.End() == (if k + 1 < |bs| && bs[k + 1].free then bs[k + 1].End() else bs[k].End())
    && forall i :: 0 <= i < |bs| && (bs[i].End() <= b.pos || b.End() <= bs[i].pos) ==> bs[i] in bs'
  }

  lemma FreedReclaims(bs: seq<Block>, k: nat) returns (b: Block)
    requires Adjacent(bs) && k < |bs|
    ensures Reclaimed(bs, k, Freed(bs, k), b) && b.pos <= bs[k].pos && bs[k].End() <= b.End()
  {
    var lo, hi := MergeFrom(bs, k), MergeTo(bs, k);
    b := Merged(bs, lo, hi);
    MergedFills(bs, lo, hi);
    ReplacedHolds(bs, lo, hi, [b]);
    BlocksApart(bs, lo, hi);
    assert b in [b];
    if lo < k { Ordered(bs, lo, k); }
    if k < hi - 1 { Ordered(bs, k, hi - 1); }
  }

  /** A block that ends before those from `lo` up to `hi`, or starts behind them, is none of them. */
  lemma BlocksApart(bs: seq<Block>, lo: nat, hi: nat)
    requires Adjacent(bs) && lo < hi <= |bs|
    ensures forall i :: 0 <= i < |bs| && (bs[i].End() <= bs[lo].pos || bs[hi - 1].End() <= bs[i].pos) ==> i < lo || hi <= i
  {
    AllOrdered(bs);
  }

  // ---------- coalescing ----------

  /** No two neighbours are both free. */
  ghost predicate Coalesced(bs: seq<Block>) {
    forall i :: 0 <= i < |bs| - 1 ==> !(bs[i].free && bs[i + 1].free)
  }

  /** A replacement keeps the list coalesced if it is itself, and no free block of it meets a free one. */
  lemma ReplacedCoalesced(bs: seq<Block>, lo: nat, hi: nat, ns: seq<Block>)
    requires Coalesced(bs) && lo < hi <= |bs| && ns != [] && Coalesced(ns)
    requires lo > 0 && ns[0].free ==> !bs[lo - 1].free
    requires hi < |bs| && ns[|ns| - 1].free ==> !bs[hi].free
    ensures Coalesced(Replaced(bs, lo, hi, ns))
  {
    var r, d := Replaced(bs, lo, hi, ns), hi - lo - |ns|;
    forall i | 0 <= i < |r| - 1 ensures !(r[i].free && r[i + 1].free) {
      if i + 1 < lo {
        assert r[i] == bs[i] && r[i + 1] == bs[i + 1];
      } else if lo <= i < lo + |ns| - 1 {
        assert r[i] == ns[i - lo] && r[i + 1] == ns[i - lo + 1];
      } else if i >= lo + |ns| {
        assert r[i] == bs[i + d] && r[i + 1] == bs[i + d + 1];
      }
    }
  }

  /** mm_malloc keeps the list coalesced. */
  lemma AllocatedCoalesced(bs: seq<Block>, k: nat, size: nat, brk: nat)
    requires Coalesced(bs) && k <= |bs| && (k < |bs| ==> Fits(bs[k], size))
    ensures Coalesced(Allocated(bs, k, size, brk))
  {
    if k < |bs| {
      assert k + 1 < |bs| ==> !bs[k + 1].free;
      ReplacedCoalesced(bs, k, k + 1, Carved(bs[k], size));
    } else {
      var r := Allocated(bs, k, size, brk);
      forall i | 0 <= i < |r| - 1 ensures !(r[i].free && r[i + 1].free) {
        if i + 1 < |bs| { assert r[i] == bs[i] && r[i + 1] == bs[i + 1]; }
      }
    }
  }

  /** mm_free keeps the list coalesced if and only if the back-link of the freed block leads to the block before it, or
      that block is in use. */
  lemma FreedCoalesced(bs: seq<Block>, k: nat)
    requires Coalesced(bs) && k < |bs|
    ensures Coalesced(Freed(bs, k)) <==> !(k > 0 && bs[k - 1].free && bs[k].prev != bs[k - 1].pos)
  {
    var lo, hi := MergeFrom(bs, k), MergeTo(bs, k);
    var ns := [Merged(bs, lo, hi)];
    if k > 0 && bs[k - 1].free && bs[k].prev != bs[k - 1].pos {
      var r := Replaced(bs, lo, hi, ns);
      assert r[k - 1] == bs[k - 1] && r[k - 1 + 1] == ns[0];
    } else {
      if 0 < lo < k { assert bs[lo - 1 + 1].free; }
      if k + 1 < hi < |bs| { assert bs[hi - 1].free; }
      ReplacedCoalesced(bs, lo, hi, ns);
    }
  }
}
