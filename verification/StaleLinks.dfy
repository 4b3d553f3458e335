/** When mm_free of hw3/mm_alloc.c is safe: the exact condition under which it keeps the tiling, the links that one call
    leaves, and a run of three calls after which the next mm_free is unsafe. */
module StaleLinks {
  import opened HeapBlocks
  import opened HeapSpec
  import opened Allocator
  import opened Release

  // ---------- a tiling is unique ----------

  /** The headers decide the blocks: two chains from the same place through the same headers agree as far as both go. */
  lemma {:induction false} ChainsAgree(m: seq<Cell>, a: seq<Block>, b: seq<Block>, end: nat, i: nat)
    requires Shown(m, a, end) && Shown(m, b, NULL) && i < |a| && i < |b| && a[0].pos == b[0].pos
    ensures a[i] == b[i]
  {
    if i > 0 {
      ChainsAgree(m, a, b, end, i - 1);
      assert ShownAt(m, a[i - 1], a[i - 1 + 1].pos) && ShownAt(m, b[i - 1], b[i - 1 + 1].pos);
    }
    assert i + 1 < |a| ==> ShownAt(m, a[i], a[i + 1].pos);
    assert i + 1 < |b| ==> ShownAt(m, b[i], b[i + 1].pos);
  }

  lemma {:induction false} LongEnough(m: seq<Cell>, base: nat, a: seq<Block>, end: nat, bs: seq<Block>, i: nat)
    requires Tiled(m, base, bs) && Shown(m, a, end) && i < |a| && a[0].pos == base
    requires forall i :: 0 <= i < |a| ==> a[i].pos != NULL
    ensures i < |bs|
  {
    if i > 0 {
      LongEnough(m, base, a, end, bs, i - 1);
      ChainsAgree(m, a, bs, end, i - 1);
      assert ShownAt(m, a[i - 1], a[i - 1 + 1].pos);
      StillWithin(m, base, bs, i - 1);
    }
  }

  /** If following the headers from `base` leads to a block that ends neither where its successor starts nor, having
      none, where the heap ends, then nothing tiles the heap. */
  lemma NotTiled(m: seq<Cell>, base: nat, a: seq<Block>, end: nat, bs: seq<Block>)
    requires a != [] && a[0].pos == base && Shown(m, a, end) && forall i :: 0 <= i < |a| ==> a[i].pos != NULL
    requires var last := a[|a| - 1].End(); end != last && (end == NULL ==> last != |m|)
    ensures !Tiled(m, base, bs)
  {
    if Tiled(m, base, bs) {
      var n := |a| - 1;
      LongEnough(m, base, a, end, bs, n);
      assert n + 1 < |bs| ==> bs[n + 1].pos == bs[n].End();
      StillWithin(m, base, bs, n);
      ChainsAgree(m, a, bs, end, n);
    }
  }

  // ---------- a stale back-link ----------

  /** What mm_free of block `k` makes of an earlier free block `j` that its back-link leads to. */
  function Swollen(bs: seq<Block>, j: nat, k: nat): Block
    requires j < |bs| && k < |bs|
  {
    bs[j].(free := true, size := bs[j].size + HEADER + Merged(bs, k, MergeTo(bs, k)).size)
  }

  lemma SwollenShown(mem: seq<Cell>, base: nat, bs: seq<Block>, k: nat, j: nat)
    requires Tiled(mem, base, bs) && j + 1 < k < |bs| && bs[k].prev == bs[j].pos && bs[j].free
    requires LinkReadable(mem, bs, k) && Releasable(mem, bs[k].pos)
    ensures TailRewritten(mem, bs[j].pos, SwollenHeader(bs, j, k), Released(mem, bs[k].pos))
  {
    StillWithin(mem, base, bs, j);
    Ordered(bs, j, k);
    var m := Joined(mem, bs[k].pos);
    JoinedShown(mem, base, bs, k);
    ReleasedSteps(mem, base, bs, k);
    assert BackHeader(m[bs[j].pos].h, m[bs[k].pos].h) == SwollenHeader(bs, j, k);
  }

  function SwollenHeader(bs: seq<Block>, j: nat, k: nat): Header
    requires j < |bs| && k < |bs|
  {
    Header(bs[j].prev, PosAfter(bs, MergeTo(bs, k) - 1), true, Swollen(bs, j, k).size)
  }

  /** A new header at `p`, and nothing before it changed. */
  ghost predicate TailRewritten(mem: seq<Cell>, p: nat, h: Header, mem': seq<Cell>) {
    |mem'| == |mem| && HeaderIs(mem', p, h) && forall x :: 0 <= x < p ==> mem'[x] == mem[x]
  }

  /** It covers too little to reach the block it leads to. */
  lemma SwollenShort(mem: seq<Cell>, base: nat, bs: seq<Block>, k: nat, j: nat)
    requires Tiled(mem, base, bs) && j + 1 < k < |bs|
    ensures var last, end := Swollen(bs, j, k).End(), PosAfter(bs, MergeTo(bs, k) - 1);
      last < |mem| && end != last && (end == NULL ==> last != |mem|)
  {
    var hi := MergeTo(bs, k);
    MergedFills(bs, k, hi);
    Ordered(bs, j, j + 1);
    if j + 1 < k { Ordered(bs, j + 1, k); }
    AfterMerge(mem, base, bs, hi - 1);
    StillWithin(mem, base, bs, hi - 1);
  }

  lemma AfterMerge(mem: seq<Cell>, base: nat, bs: seq<Block>, i: nat)
    requires Tiled(mem, base, bs) && i < |bs|
    ensures PosAfter(bs, i) == if i + 1 == |bs| then NULL else bs[i].End()
    ensures i + 1 == |bs| ==> bs[i].End() == |mem|
  {
    assert i + 1 < |bs| ==> bs[i + 1].pos == bs[i].End();
  }

  lemma EarlierShown(mem: seq<Cell>, base: nat, bs: seq<Block>, j: nat, m: seq<Cell>)
    requires Tiled(mem, base, bs) && j < |bs| && bs[j].pos <= |m| == |mem|
    requires forall x :: 0 <= x < bs[j].pos ==> m[x] == mem[x]
    ensures Shown(m, bs[..j], bs[j].pos)
  {
    AllOrdered(bs);
    forall i | 0 <= i < j ensures ShownAt(m, bs[i], bs[i + 1].pos) {
      StillWithin(mem, base, bs, i);
      assert bs[i].End() <= bs[j].pos;
    }
  }

  lemma StaleLinkBreaks(mem: seq<Cell>, base: nat, bs: seq<Block>, k: nat, j: nat, bs': seq<Block>)
    requires Tiled(mem, base, bs) && j + 1 < k < |bs| && bs[k].prev == bs[j].pos && bs[j].free
    requires LinkReadable(mem, bs, k) && Releasable(mem, bs[k].pos)
    ensures !Tiled(Released(mem, bs[k].pos), base, bs')
  {
    var m, swollen, end := Released(mem, bs[k].pos), Swollen(bs, j, k), PosAfter(bs, MergeTo(bs, k) - 1);
    StillWithin(mem, base, bs, j);
    SwollenShown(mem, base, bs, k, j);
    SwollenShort(mem, base, bs, k, j);
    EarlierShown(mem, base, bs, j, m);
    ShownTogether(m, bs[..j], [swollen], end);
    NoNulls(mem, base, bs, j, swollen);
    NotTiled(m, base, bs[..j] + [swollen], end, bs');
  }

  lemma NoNulls(mem: seq<Cell>, base: nat, bs: seq<Block>, j: nat, b: Block)
    requires Tiled(mem, base, bs) && j < |bs| && b.pos == bs[j].pos
    ensures var a := bs[..j] + [b]; a[0].pos == base && forall i :: 0 <= i < |a| ==> a[i].pos != NULL
  {
    var a := bs[..j] + [b];
    forall i | 0 <= i < |a| ensures a[i].pos != NULL { StillWithin(mem, base, bs, i); }
  }

  /** mm_free leaves a tiled heap exactly when the back-link is safe. */
  lemma FreeTilesIffSafe(mem: seq<Cell>, base: nat, bs: seq<Block>, k: nat)
    requires Tiled(mem, base, bs) && k < |bs| && LinkReadable(mem, bs, k)
    ensures Releasable(mem, bs[k].pos)
    ensures (exists bs' :: Tiled(Released(mem, bs[k].pos), base, bs')) <==> BackLinkSafe(bs, k)
  {
    MarkedCombinable(mem, base, bs, k);
    if BackLinkSafe(bs, k) {
      ReleasedTiled(mem, base, bs, k);
    } else {
      var j :| 0 <= j < k && j + 1 < k && bs[j].pos == bs[k].prev && bs[j].free;
      forall bs' ensures !Tiled(Released(mem, bs[k].pos), base, bs') {
        StaleLinkBreaks(mem, base, bs, k, j, bs');
      }
    }
  }

  // ---------- the links that one call leaves ----------

  /** A back-link that is right, or leads to a live block, is readable and safe. */
  lemma RightLink(mem: seq<Cell>, bs: seq<Block>, k: nat)
    requires Adjacent(bs) && k < |bs| && Mirror(bs, k)
    ensures LinkReadable(mem, bs, k) && BackLinkSafe(bs, k)
  {
    AllOrdered(bs);
    if k > 0 { assert LinkLeads(mem, bs, k, k - 1); }
  }

  lemma LinkToLive(mem: seq<Cell>, bs: seq<Block>, k: nat, j: nat)
    requires Adjacent(bs) && j < k < |bs| && bs[k].prev == bs[j].pos && !bs[j].free
    ensures LinkReadable(mem, bs, k) && BackLinkSafe(bs, k)
  {
    AllOrdered(bs);
    assert LinkLeads(mem, bs, k, j);
  }

  lemma LinkInside(mem: seq<Cell>, bs: seq<Block>, k: nat, j: nat)
    requires Adjacent(bs) && j < k < |bs| && Inside(mem, bs[j], bs[k].prev)
    ensures LinkReadable(mem, bs, k) && BackLinkSafe(bs, k)
  {
    InsideIsNoBlock(mem, bs, k, j);
    assert LinkLeads(mem, bs, k, j);
  }

  /** After mm_malloc on a heap whose back-links are right, every block can be freed safely. */
  lemma SafeAfterMalloc(mem: seq<Cell>, bs: seq<Block>, k: nat, size: nat, brk: nat, j: nat)
    requires Mirrored(bs) && k <= |bs| && (k < |bs| ==> Fits(bs[k], size)) && j < |Allocated(bs, k, size, brk)|
    requires Adjacent(Allocated(bs, k, size, brk))
    ensures LinkReadable(mem, Allocated(bs, k, size, brk), j) && BackLinkSafe(Allocated(bs, k, size, brk), j)
  {
    var bs' := Allocated(bs, k, size, brk);
    AllocatedMirror(bs, k, size, brk, j);
    if Mirror(bs', j) {
      RightLink(mem, bs', j);
    } else {
      AllocatedFirst(bs, k, size, brk);
      LinkToLive(mem, bs', j, k);
    }
  }

  /** After mm_free on such a heap, every block can be freed safely: the one behind a merge has a back-link into the
      merged block, which still holds the header it was right about. */
  lemma SafeAfterFree(mem: seq<Cell>, base: nat, bs: seq<Block>, k: nat, i: nat)
    requires Tiled(mem, base, bs) && Mirrored(bs) && k < |bs| && Releasable(mem, bs[k].pos) && i < |Freed(bs, k)|
    ensures LinkReadable(Released(mem, bs[k].pos), Freed(bs, k), i) && BackLinkSafe(Freed(bs, k), i)
  {
    FreedAdjacent(bs, k);
    SafeInFreed(mem, base, bs, k, i, Released(mem, bs[k].pos), Freed(bs, k));
  }

  lemma SafeInFreed(mem: seq<Cell>, base: nat, bs: seq<Block>, k: nat, i: nat, m: seq<Cell>, bs': seq<Block>)
    requires Tiled(mem, base, bs) && Mirrored(bs) && k < |bs| && Releasable(mem, bs[k].pos)
    requires m == Released(mem, bs[k].pos) && bs' == Freed(bs, k) && Adjacent(bs') && i < |bs'|
    requires MergeFrom(bs, k) + 1 < |bs'| ==> MergeTo(bs, k) < |bs|
    ensures LinkReadable(m, bs', i) && BackLinkSafe(bs', i)
  {
    FreedMirror(bs, k, i);
    if i == MergeFrom(bs, k) + 1 < MergeTo(bs, k) {
      SafeBehindMerge(mem, base, bs, k, i, m, bs');
    } else {
      RightLink(m, bs', i);
    }
  }

  lemma FreedAdjacent(bs: seq<Block>, k: nat)
    requires Adjacent(bs) && k < |bs|
    ensures Adjacent(Freed(bs, k))
    ensures MergeFrom(bs, k) + 1 < |Freed(bs, k)| ==> MergeTo(bs, k) < |bs|
  {
    var lo, hi := MergeFrom(bs, k), MergeTo(bs, k);
    MergedFills(bs, lo, hi);
    ReplacedAdjacent(bs, lo, hi, [Merged(bs, lo, hi)]);
  }

  lemma SafeBehindMerge(mem: seq<Cell>, base: nat, bs: seq<Block>, k: nat, i: nat, m: seq<Cell>, bs': seq<Block>)
    requires Tiled(mem, base, bs) && Mirrored(bs) && k < |bs| && Releasable(mem, bs[k].pos)
    requires i == MergeFrom(bs, k) + 1 < MergeTo(bs, k) < |bs| && i < |bs'|
    requires m == Released(mem, bs[k].pos) && bs' == Freed(bs, k) && Adjacent(bs')
    ensures LinkReadable(m, bs', i) && BackLinkSafe(bs', i)
  {
    LinkBehindMerge(mem, base, bs, k);
    LinkInside(m, bs', i, i - 1);
  }

  lemma LinkBehindMerge(mem: seq<Cell>, base: nat, bs: seq<Block>, k: nat)
    requires Tiled(mem, base, bs) && Mirrored(bs) && k < |bs| && Releasable(mem, bs[k].pos)
    requires MergeFrom(bs, k) + 1 < MergeTo(bs, k) < |bs|
    ensures var lo, bs' := MergeFrom(bs, k), Freed(bs, k);
      lo + 1 < |bs'| && Inside(Released(mem, bs[k].pos), bs'[lo], bs'[lo + 1].prev)
  {
    var lo, hi := MergeFrom(bs, k), MergeTo(bs, k);
    ReplacedAt(bs, lo, hi, [Merged(bs, lo, hi)]);
    assert Freed(bs, k)[hi - hi + lo + 1] == bs[hi] && Freed(bs, k)[lo + 0] == Merged(bs, lo, hi);
    assert Mirror(bs, hi);
    MergedFills(bs, lo, hi);
    Ordered(bs, lo, hi - 1);
    HeaderStays(mem, base, bs, k);
  }

  /** The header of the last of the merged blocks is still whole. */
  lemma HeaderStays(mem: seq<Cell>, base: nat, bs: seq<Block>, k: nat)
    requires Tiled(mem, base, bs) && Mirrored(bs) && k < |bs| && Releasable(mem, bs[k].pos)
    requires MergeFrom(bs, k) + 1 < MergeTo(bs, k)
    ensures Intact(Released(mem, bs[k].pos), bs[MergeTo(bs, k) - 1].pos)
  {
    var p := bs[MergeTo(bs, k) - 1].pos;
    assert Mirror(bs, k);
    RightLink(mem, bs, k);
    JoinedShown(mem, base, bs, k);
    JoinedIntact(mem, base, bs, k);
    if Flagged(mem, bs, k) {
      ReleasedAtLink(mem, base, bs, k);
      assert k > 0 && bs[k].prev == bs[k - 1].pos;
      Ordered(bs, k - 1, MergeTo(bs, k) - 1);
    } else {
      ReleasedSteps(mem, base, bs, k);
    }
  }

  lemma JoinedIntact(mem: seq<Cell>, base: nat, bs: seq<Block>, k: nat)
    requires Tiled(mem, base, bs) && k < |bs| && LinkReadable(mem, bs, k) && Releasable(mem, bs[k].pos)
    ensures Intact(Joined(mem, bs[k].pos), bs[MergeTo(bs, k) - 1].pos)
  {
    NeighboursShown(mem, base, bs, k);
    StillWithin(mem, base, bs, MergeTo(bs, k) - 1);
    if MergeTo(bs, k) == k + 1 {
      assert Joined(mem, bs[k].pos) == MarkedFree(mem, bs[k].pos);
    } else {
      JoinedShown(mem, base, bs, k);
    }
  }

  /** A run that gets there from a perfect heap: two requests fill a free block, and the first half is freed; then the
      block after them has an unsafe back-link. */
  lemma StaleLinkArises()
    ensures
      var start := [Block(32, 84, true, 0), Block(148, 8, false, 32)];
      var one := Allocated(start, 0, 20, 188);
      var two := Allocated(one, 1, 32, 188);
      && Adjacent(start) && Mirrored(start) && |two| == 3 && FirstFit(start, 20) == 0 && FirstFit(one, 32) == 1
      && !two[0].free && BackLinkSafe(two, 0) && |Freed(two, 0)| == 3 && !BackLinkSafe(Freed(two, 0), 2)
  {
    var start := [Block(32, 84, true, 0), Block(148, 8, false, 32)];
    var one := Allocated(start, 0, 20, 188);
    assert one == [Block(32, 20, false, 0), Block(84, 32, true, 32), Block(148, 8, false, 32)];
    var two := Allocated(one, 1, 32, 188);
    assert two == [Block(32, 20, false, 0), Block(84, 32, false, 32), Block(148, 8, false, 32)];
    assert !Fits(one[0], 32) && FirstFitFrom(one, 32, 1) == 1;
    assert Freed(two, 0)[0].pos == Freed(two, 0)[2].prev && Freed(two, 0)[0].free by {
      assert Freed(two, 0) == [Block(32, 20, true, 0), Block(84, 32, false, 32), Block(148, 8, false, 32)];
    }
    assert Freed(two, 0) == [Block(32, 20, true, 0), Block(84, 32, false, 32), Block(148, 8, false, 32)];
  }
}
