/** mm_free of hw3/mm_alloc.c on the bytes of the heap, whatever the block's back-link leads to. */
module Release {
  import opened HeapBlocks
  import opened HeapSpec
  import opened HeapEffects
  import opened Allocator

  // ---------- reading a header ----------

  predicate HeadAt(mem: seq<Cell>, p: nat) {
    p + HEADER <= |mem| && mem[p].Head?
  }

  /** A whole header is at `p`. */
  ghost predicate Intact(mem: seq<Cell>, p: nat) {
    HeadAt(mem, p) && forall x :: p < x < p + HEADER ==> mem[x] == Pad
  }

  /** Zeros are where a header might be read. */
  predicate Blank(mem: seq<Cell>, p: nat) {
    p + HEADER <= |mem| && forall x :: p <= x < p + HEADER ==> mem[x] == Data(0)
  }

  predicate Readable(mem: seq<Cell>, p: nat) { HeadAt(mem, p) || Blank(mem, p) }

  /** The header that is read at `p`; zeros read as a header in use. */
  function HeaderRead(mem: seq<Cell>, p: nat): Header
    requires p < |mem|
  {
    if mem[p].Head? then mem[p].h else Header(NULL, NULL, false, 0)
  }

  // ---------- combine_block ----------

  /** What combine_block reads is there. */
  predicate Combinable(mem: seq<Cell>, b: nat) {
    && HeadAt(mem, b)
    && (mem[b].h.next != NULL ==> HeadAt(mem, mem[b].h.next))
    && (var p := mem[b].h.prev; p != NULL ==> Readable(mem, p) && p + HEADER <= b)
  }

  /** The bytes after combine_block's first step. */
  function NextCombined(mem: seq<Cell>, b: nat): (r: seq<Cell>)
    requires Combinable(mem, b)
    ensures SameOutside(mem, b, b + HEADER, r) && r[b].Head? && r[b].h.prev == mem[b].h.prev
  {
    var h := mem[b].h;
    if h.next != NULL && mem[h.next].h.free
    then PutHeader(mem, b, Header(h.prev, mem[h.next].h.next, true, h.size + HEADER + mem[h.next].h.size))
    else mem
  }

  /** The header that combine_block writes at the back-link. */
  function BackHeader(p: Header, h: Header): Header {
    Header(p.prev, h.next, true, p.size + HEADER + h.size)
  }

  /** The bytes after combine_block, whatever the back-link. */
  function Combined(mem: seq<Cell>, b: nat): (r: seq<Cell>)
    requires Combinable(mem, b)
  {
    var m := NextCombined(mem, b);
    var h := m[b].h;
    if h.prev != NULL && HeaderRead(m, h.prev).free then PutHeader(m, h.prev, BackHeader(HeaderRead(m, h.prev), h)) else m
  }

  /** combine_block. */
  method CombineBlock(mem: seq<Cell>, b: nat) returns (r: nat, mem': seq<Cell>)
    requires Combinable(mem, b)
    ensures mem' == Combined(mem, b)
    ensures var p := mem[b].h.prev; r == if p != NULL && HeaderRead(mem, p).free then p else b
  {
    r, mem' := b, mem;
    var h := mem[b].h;
    if h.next != NULL {
      if mem[h.next].h.free {
        mem' := PutHeader(mem, b, Header(h.prev, mem[h.next].h.next, true, h.size + HEADER + mem[h.next].h.size));
      }
    }
    assert mem' == NextCombined(mem, b);
    h := mem'[b].h;
    if h.prev != NULL {
      var p := HeaderRead(mem', h.prev);
      if p.free {
        mem' := PutHeader(mem', h.prev, BackHeader(p, h));
        r := h.prev;
      }
    }
  }

  // ---------- back-links ----------

  /** `p` is inside the payload of `b`, where a header, or zeros, can be read. */
  ghost predicate Inside(mem: seq<Cell>, b: Block, p: nat) {
    b.Payload() <= p && p + HEADER <= b.End() && (Intact(mem, p) || Blank(mem, p))
  }

  /** The back-link of block `k` is null, or leads to an earlier block, or into the payload of one. */
  ghost predicate LinkReadable(mem: seq<Cell>, bs: seq<Block>, k: nat)
    requires k < |bs|
  {
    bs[k].prev == NULL || exists j :: LinkLeads(mem, bs, k, j)
  }

  ghost predicate LinkLeads(mem: seq<Cell>, bs: seq<Block>, k: nat, j: int)
    requires k < |bs|
  {
    0 <= j < k && (bs[j].pos == bs[k].prev || Inside(mem, bs[j], bs[k].prev))
  }

  /** The back-link of block `k` does not lead to an earlier free block other than its neighbour. */
  ghost predicate BackLinkSafe(bs: seq<Block>, k: nat)
    requires k < |bs|
  {
    forall j :: 0 <= j < k && j + 1 < k && bs[j].pos == bs[k].prev ==> !bs[j].free
  }

  /** What combine_block reads around block `k`. */
  lemma NeighboursShown(mem: seq<Cell>, base: nat, bs: seq<Block>, k: nat)
    requires Tiled(mem, base, bs) && k < |bs| && LinkReadable(mem, bs, k)
    ensures ShownAt(mem, bs[k], PosAfter(bs, k)) && bs[k].pos > NULL
    ensures k + 1 < |bs| ==> bs[k + 1].pos == bs[k].End() && ShownAt(mem, bs[k + 1], PosAfter(bs, k + 1)) && bs[k + 1].pos > NULL
    ensures k > 0 ==> bs[k].pos == bs[k - 1].End() && ShownAt(mem, bs[k - 1], bs[k].pos) && bs[k - 1].pos > NULL
    ensures bs[k].prev != NULL ==> Readable(mem, bs[k].prev) && bs[k].prev + HEADER <= bs[k].pos
  {
    StillWithin(mem, base, bs, k);
    if k + 1 < |bs| { StillWithin(mem, base, bs, k + 1); }
    if k > 0 {
      StillWithin(mem, base, bs, k - 1);
      assert bs[k - 1 + 1].pos == bs[k - 1].End();
    }
    if bs[k].prev != NULL {
      var j :| LinkLeads(mem, bs, k, j);
      StillWithin(mem, base, bs, j);
      Ordered(bs, j, k);
    }
  }

  // ---------- mm_free ----------

  function MarkedFree(mem: seq<Cell>, b: nat): seq<Cell>
    requires HeadAt(mem, b)
  {
    PutHeader(mem, b, mem[b].h.(free := true))
  }

  predicate Releasable(mem: seq<Cell>, b: nat) { HeadAt(mem, b) && Combinable(MarkedFree(mem, b), b) }

  /** The bytes when mm_free has marked the block at `b` free and joined it with a free block after it. */
  function Joined(mem: seq<Cell>, b: nat): seq<Cell>
    requires Releasable(mem, b)
  {
    NextCombined(MarkedFree(mem, b), b)
  }

  /** The bytes after mm_free of the block at `b`. */
  function Released(mem: seq<Cell>, b: nat): seq<Cell>
    requires Releasable(mem, b)
  {
    Combined(MarkedFree(mem, b), b)
  }

  /** The back-link of block `k` leads to a header that is marked free. */
  ghost predicate Flagged(mem: seq<Cell>, bs: seq<Block>, k: nat)
    requires k < |bs|
  {
    bs[k].prev != NULL && bs[k].prev < |mem| && HeaderRead(mem, bs[k].prev).free
  }

  /** Only the blocks from `lo` up to `hi` were rewritten, and they are one free block now. */
  ghost predicate Rewritten(mem: seq<Cell>, bs: seq<Block>, lo: nat, hi: nat, mem': seq<Cell>)
    requires lo < hi <= |bs|
  {
    SameOutside(mem, bs[lo].pos, bs[hi - 1].End(), mem') && ShownAt(mem', Merged(bs, lo, hi), PosAfter(bs, hi - 1))
  }

  lemma MarkedCombinable(mem: seq<Cell>, base: nat, bs: seq<Block>, k: nat)
    requires Tiled(mem, base, bs) && k < |bs| && LinkReadable(mem, bs, k)
    ensures Releasable(mem, bs[k].pos)
  {
    NeighboursShown(mem, base, bs, k);
  }

  /** The first step shows the block merged with what is free behind it, and touches only its header. */
  lemma JoinedShown(mem: seq<Cell>, base: nat, bs: seq<Block>, k: nat)
    requires Tiled(mem, base, bs) && k < |bs| && LinkReadable(mem, bs, k) && Releasable(mem, bs[k].pos)
    ensures var m, hi := Joined(mem, bs[k].pos), MergeTo(bs, k);
      SameOutside(mem, bs[k].pos, bs[k].Payload(), m) && ShownAt(m, Merged(bs, k, hi), PosAfter(bs, hi - 1))
  {
    NeighboursShown(mem, base, bs, k);
  }

  /** What the second step does. */
  lemma ReleasedSteps(mem: seq<Cell>, base: nat, bs: seq<Block>, k: nat)
    requires Tiled(mem, base, bs) && k < |bs| && LinkReadable(mem, bs, k) && Releasable(mem, bs[k].pos)
    ensures var m, b, p := Joined(mem, bs[k].pos), bs[k].pos, bs[k].prev;
      && (!Flagged(mem, bs, k) ==> Released(mem, b) == m)
      && (Flagged(mem, bs, k) ==>
            && p + HEADER <= b <= |m| == |mem| && m[p] == mem[p] && m[p].Head? && m[b].Head?
            && Released(mem, b) == PutHeader(m, p, BackHeader(m[p].h, m[b].h)))
  {
    NeighboursShown(mem, base, bs, k);
  }

  /** The second step touches only the header that the back-link leads to. */
  lemma ReleasedAtLink(mem: seq<Cell>, base: nat, bs: seq<Block>, k: nat)
    requires Tiled(mem, base, bs) && k < |bs| && LinkReadable(mem, bs, k) && Releasable(mem, bs[k].pos) && Flagged(mem, bs, k)
    ensures var m, m', p := Joined(mem, bs[k].pos), Released(mem, bs[k].pos), bs[k].prev;
      && SameOutside(m, p, p + HEADER, m') && p < |mem| && mem[p].Head?
      && m'[p].Head? && m'[p].h.size > mem[p].h.size
  {
    ReleasedSteps(mem, base, bs, k);
  }

  /** The neighbour before the block is merged exactly if the back-link leads there and finds it free. */
  lemma MergesBack(mem: seq<Cell>, base: nat, bs: seq<Block>, k: nat)
    requires Tiled(mem, base, bs) && k < |bs|
    ensures MergeFrom(bs, k) == k - 1 <==> k > 0 && bs[k].prev == bs[k - 1].pos && Flagged(mem, bs, k)
  {
    if k > 0 { StillWithin(mem, base, bs, k - 1); }
  }

  lemma MergeCovers(bs: seq<Block>, k: nat)
    requires Adjacent(bs) && k < |bs|
    ensures bs[MergeFrom(bs, k)].pos <= bs[k].pos && bs[k].End() <= bs[MergeTo(bs, k) - 1].End()
  {
    var lo, hi := MergeFrom(bs, k), MergeTo(bs, k);
    if lo < k { Ordered(bs, lo, k); }
    if k < hi - 1 { Ordered(bs, k, hi - 1); }
  }

  /** The first step alone. */
  lemma JoinedRewrites(mem: seq<Cell>, base: nat, bs: seq<Block>, k: nat)
    requires Tiled(mem, base, bs) && k < |bs| && LinkReadable(mem, bs, k) && Releasable(mem, bs[k].pos)
    ensures Rewritten(mem, bs, k, MergeTo(bs, k), Joined(mem, bs[k].pos))
  {
    JoinedShown(mem, base, bs, k);
    MergeCovers(bs, k);
  }

  /** Both steps, with the neighbour before merged too. */
  lemma BackRewrites(mem: seq<Cell>, base: nat, bs: seq<Block>, k: nat, m: seq<Cell>, m': seq<Cell>)
    requires Tiled(mem, base, bs) && 0 < k < |bs| && SameOutside(mem, bs[k].pos, bs[k].Payload(), m)
    requires ShownAt(m, Merged(bs, k, MergeTo(bs, k)), PosAfter(bs, MergeTo(bs, k) - 1))
    requires HeadAt(m, bs[k - 1].pos) && m' == PutHeader(m, bs[k - 1].pos, BackHeader(m[bs[k - 1].pos].h, m[bs[k].pos].h))
    ensures Rewritten(mem, bs, k - 1, MergeTo(bs, k), m')
  {
    var hi := MergeTo(bs, k);
    StillWithin(mem, base, bs, k - 1);
    assert bs[k - 1 + 1].pos == bs[k - 1].End();
    MergedFills(bs, k, hi);
    MergedFills(bs, k - 1, hi);
    MergeCovers(bs, k);
  }

  lemma FreedTiled(mem: seq<Cell>, base: nat, bs: seq<Block>, k: nat, mem': seq<Cell>)
    requires Tiled(mem, base, bs) && k < |bs| && Rewritten(mem, bs, MergeFrom(bs, k), MergeTo(bs, k), mem')
    ensures Tiled(mem', base, Freed(bs, k)) && Kept(mem, bs, mem', Freed(bs, k), bs[k].pos)
  {
    var lo, hi := MergeFrom(bs, k), MergeTo(bs, k);
    MergedFills(bs, lo, hi);
    ReplacedTiled(mem, base, bs, lo, hi, [Merged(bs, lo, hi)], mem');
    ReplacedKept(mem, base, bs, lo, hi, [Merged(bs, lo, hi)], mem', bs[k].pos);
  }

  /** Writing into the payload of a block disturbs nothing else. */
  lemma PayloadWritten(mem: seq<Cell>, base: nat, bs: seq<Block>, k: nat, mem': seq<Cell>)
    requires Tiled(mem, base, bs) && k < |bs| && SameOutside(mem, bs[k].Payload(), bs[k].End(), mem')
    ensures Tiled(mem', base, bs) && Kept(mem, bs, mem', bs, bs[k].pos)
  {
    AllOrdered(bs);
    forall i | 0 <= i < |bs| ensures ShownAt(mem', bs[i], PosAfter(bs, i)) && (i != k ==> SamePayload(mem, bs[i], mem')) {
      StillWithin(mem, base, bs, i);
      assert i < k ==> bs[i].End() <= bs[k].pos;
      assert k < i ==> bs[k].End() <= bs[i].pos;
    }
    assert forall i :: 0 <= i < |bs| - 1 ==> ShownAt(mem', bs[i], PosAfter(bs, i)) && PosAfter(bs, i) == bs[i + 1].pos;
  }

  // ---------- the three kinds of back-link ----------

  /** A back-link that finds no free header: the block is merged with what is free behind it. */
  lemma UnflaggedFree(mem: seq<Cell>, base: nat, bs: seq<Block>, k: nat)
    requires Tiled(mem, base, bs) && k < |bs| && LinkReadable(mem, bs, k) && Releasable(mem, bs[k].pos) && !Flagged(mem, bs, k)
    ensures var m := Released(mem, bs[k].pos); Tiled(m, base, Freed(bs, k)) && Kept(mem, bs, m, Freed(bs, k), bs[k].pos)
  {
    MergesBack(mem, base, bs, k);
    JoinedRewrites(mem, base, bs, k);
    ReleasedSteps(mem, base, bs, k);
    FreedTiled(mem, base, bs, k, Joined(mem, bs[k].pos));
  }

  /** A back-link to the neighbour, which is free: both are merged. */
  lemma NeighbourFree(mem: seq<Cell>, base: nat, bs: seq<Block>, k: nat)
    requires Tiled(mem, base, bs) && 0 < k < |bs| && LinkReadable(mem, bs, k) && Releasable(mem, bs[k].pos)
    requires Flagged(mem, bs, k) && bs[k].prev == bs[k - 1].pos
    ensures var m := Released(mem, bs[k].pos); Tiled(m, base, Freed(bs, k)) && Kept(mem, bs, m, Freed(bs, k), bs[k].pos)
  {
    MergesBack(mem, base, bs, k);
    JoinedShown(mem, base, bs, k);
    ReleasedSteps(mem, base, bs, k);
    BackRewrites(mem, base, bs, k, Joined(mem, bs[k].pos), Released(mem, bs[k].pos));
    FreedTiled(mem, base, bs, k, Released(mem, bs[k].pos));
  }

  /** A back-link into the payload of block `j`, at a header marked free: the block is merged with what is free behind
      it, and the header that is written lands in that payload. */
  lemma DanglingFree(mem: seq<Cell>, base: nat, bs: seq<Block>, k: nat, j: nat)
    requires Tiled(mem, base, bs) && j < k < |bs| && LinkReadable(mem, bs, k) && Releasable(mem, bs[k].pos)
    requires Flagged(mem, bs, k) && Inside(mem, bs[j], bs[k].prev)
    ensures var m := Released(mem, bs[k].pos);
      Tiled(m, base, Freed(bs, k)) && KeptBut(mem, bs, m, Freed(bs, k), bs[k].pos, bs[k].prev, bs[k].prev + HEADER)
  {
    var m, m', bs' := Joined(mem, bs[k].pos), Released(mem, bs[k].pos), Freed(bs, k);
    DanglingJoined(mem, base, bs, k, j);
    ReleasedAtLink(mem, base, bs, k);
    WrittenInside(m, base, bs', j, bs[k].prev, m');
    KeptThenBut(mem, bs, m, bs', bs[k].pos, m', bs[k].prev);
  }

  lemma WrittenInside(m: seq<Cell>, base: nat, bs: seq<Block>, j: nat, p: nat, m': seq<Cell>)
    requires Tiled(m, base, bs) && j < |bs| && bs[j].Payload() <= p && p + HEADER <= bs[j].End() && SameOutside(m, p, p + HEADER, m')
    ensures Tiled(m', base, bs)
  {
    PayloadWritten(m, base, bs, j, m');
  }

  lemma DanglingJoined(mem: seq<Cell>, base: nat, bs: seq<Block>, k: nat, j: nat)
    requires Tiled(mem, base, bs) && j < k < |bs| && LinkReadable(mem, bs, k) && Releasable(mem, bs[k].pos)
    requires Inside(mem, bs[j], bs[k].prev)
    ensures var m, bs' := Joined(mem, bs[k].pos), Freed(bs, k);
      Tiled(m, base, bs') && Kept(mem, bs, m, bs', bs[k].pos) && j < |bs'| && bs'[j] == bs[j]
  {
    InsideIsNoBlock(mem, bs, k, j);
    MergesBack(mem, base, bs, k);
    JoinedRewrites(mem, base, bs, k);
    FreedTiled(mem, base, bs, k, Joined(mem, bs[k].pos));
    ReplacedAt(bs, k, MergeTo(bs, k), [Merged(bs, k, MergeTo(bs, k))]);
  }

  lemma InsideIsNoBlock(mem: seq<Cell>, bs: seq<Block>, k: nat, j: nat)
    requires Adjacent(bs) && j < k < |bs| && Inside(mem, bs[j], bs[k].prev)
    ensures forall i :: 0 <= i < |bs| ==> bs[i].pos != bs[k].prev
  {
    AllOrdered(bs);
  }

  /** As `Kept`, but for the bytes from `lo` up to `hi`. */
  ghost predicate KeptBut(mem: seq<Cell>, bs: seq<Block>, mem': seq<Cell>, bs': seq<Block>, gone: nat, lo: nat, hi: nat) {
    forall i :: 0 <= i < |bs| && !bs[i].free && bs[i].pos != gone ==> bs[i] in bs' && SamePayloadBut(mem, bs[i], mem', lo, hi)
  }

  ghost predicate SamePayloadBut(mem: seq<Cell>, b: Block, mem': seq<Cell>, lo: nat, hi: nat) {
    b.End() <= |mem| && b.End() <= |mem'| && forall x :: b.Payload() <= x < b.End() && (x < lo || hi <= x) ==> mem'[x] == mem[x]
  }

  lemma KeptThenBut(mem: seq<Cell>, bs: seq<Block>, m: seq<Cell>, bs': seq<Block>, gone: nat, m': seq<Cell>, p: nat)
    requires Kept(mem, bs, m, bs', gone) && SameOutside(m, p, p + HEADER, m')
    ensures KeptBut(mem, bs, m', bs', gone, p, p + HEADER)
  {
    forall i | 0 <= i < |bs| && !bs[i].free && bs[i].pos != gone
      ensures bs[i] in bs' && SamePayloadBut(mem, bs[i], m', p, p + HEADER)
    {
      assert SamePayload(mem, bs[i], m);
    }
  }

  // ---------- every safe back-link ----------

  /** The back-link leads into the payload of a block, at a header marked free, which mm_free overwrites. */
  ghost predicate Overwrites(mem: seq<Cell>, bs: seq<Block>, k: nat)
    requires k < |bs|
  {
    Flagged(mem, bs, k) && exists j :: 0 <= j < k && Inside(mem, bs[j], bs[k].prev)
  }

  /** That block is live. */
  ghost predicate Clobbers(mem: seq<Cell>, bs: seq<Block>, k: nat)
    requires k < |bs|
  {
    Flagged(mem, bs, k) && exists j :: 0 <= j < k && Inside(mem, bs[j], bs[k].prev) && !bs[j].free
  }

  /** Where the bytes end that mm_free overwrites at the back-link. */
  ghost function HoleEnd(mem: seq<Cell>, bs: seq<Block>, k: nat): nat
    requires k < |bs|
  {
    bs[k].prev + if Overwrites(mem, bs, k) then HEADER else 0
  }

  /** The kinds of safe back-link. */
  lemma SafeCases(mem: seq<Cell>, base: nat, bs: seq<Block>, k: nat)
    requires Tiled(mem, base, bs) && k < |bs| && LinkReadable(mem, bs, k) && BackLinkSafe(bs, k) && Flagged(mem, bs, k)
    ensures Overwrites(mem, bs, k) || (k > 0 && bs[k].prev == bs[k - 1].pos)
  {
    var j :| LinkLeads(mem, bs, k, j);
    if bs[j].pos == bs[k].prev { LinkToBlock(mem, base, bs, k, j); }
  }

  /** With a safe back-link, mm_free keeps the tiling. */
  lemma ReleasedTiled(mem: seq<Cell>, base: nat, bs: seq<Block>, k: nat)
    requires Tiled(mem, base, bs) && k < |bs| && LinkReadable(mem, bs, k) && BackLinkSafe(bs, k) && Releasable(mem, bs[k].pos)
    ensures Tiled(Released(mem, bs[k].pos), base, Freed(bs, k))
  {
    if !Flagged(mem, bs, k) {
      UnflaggedFree(mem, base, bs, k);
    } else {
      SafeCases(mem, base, bs, k);
      if Overwrites(mem, bs, k) {
        var j :| 0 <= j < k && Inside(mem, bs[j], bs[k].prev);
        DanglingFree(mem, base, bs, k, j);
      } else {
        NeighbourFree(mem, base, bs, k);
      }
    }
  }

  /** It keeps every other live block, and its payload but for the bytes of a header it overwrites. */
  lemma ReleasedKept(mem: seq<Cell>, base: nat, bs: seq<Block>, k: nat)
    requires Tiled(mem, base, bs) && k < |bs| && LinkReadable(mem, bs, k) && BackLinkSafe(bs, k) && Releasable(mem, bs[k].pos)
    ensures KeptBut(mem, bs, Released(mem, bs[k].pos), Freed(bs, k), bs[k].pos, bs[k].prev, HoleEnd(mem, bs, k))
  {
    var m, p := Released(mem, bs[k].pos), bs[k].prev;
    if Overwrites(mem, bs, k) {
      var j :| 0 <= j < k && Inside(mem, bs[j], p);
      DanglingFree(mem, base, bs, k, j);
    } else {
      if Flagged(mem, bs, k) {
        SafeCases(mem, base, bs, k);
        NeighbourFree(mem, base, bs, k);
      } else {
        UnflaggedFree(mem, base, bs, k);
      }
      KeptWhole(mem, bs, m, Freed(bs, k), bs[k].pos, p, HoleEnd(mem, bs, k));
    }
  }

  lemma KeptWhole(mem: seq<Cell>, bs: seq<Block>, m: seq<Cell>, bs': seq<Block>, gone: nat, lo: nat, hi: nat)
    requires Kept(mem, bs, m, bs', gone)
    ensures KeptBut(mem, bs, m, bs', gone, lo, hi)
  {
    forall i | 0 <= i < |bs| && !bs[i].free && bs[i].pos != gone ensures bs[i] in bs' && SamePayloadBut(mem, bs[i], m, lo, hi) {
      assert SamePayload(mem, bs[i], m);
    }
  }

  /** A safe back-link to a free block leads to the neighbour. */
  lemma LinkToBlock(mem: seq<Cell>, base: nat, bs: seq<Block>, k: nat, j: nat)
    requires Tiled(mem, base, bs) && j < k < |bs| && bs[j].pos == bs[k].prev
    ensures Flagged(mem, bs, k) <==> bs[j].free
    ensures bs[j].free && BackLinkSafe(bs, k) ==> j + 1 == k
  {
    StillWithin(mem, base, bs, j);
  }

  /** Every other live payload is unchanged exactly if the back-link leads into none of them. */
  lemma KeptUnlessClobbered(mem: seq<Cell>, base: nat, bs: seq<Block>, k: nat)
    requires Tiled(mem, base, bs) && k < |bs| && LinkReadable(mem, bs, k) && BackLinkSafe(bs, k) && Releasable(mem, bs[k].pos)
    ensures Kept(mem, bs, Released(mem, bs[k].pos), Freed(bs, k), bs[k].pos) <==> !Clobbers(mem, bs, k)
  {
    var m, p := Released(mem, bs[k].pos), bs[k].prev;
    ReleasedKept(mem, base, bs, k);
    if Clobbers(mem, bs, k) {
      var j :| 0 <= j < k && Inside(mem, bs[j], p) && !bs[j].free;
      ReleasedAtLink(mem, base, bs, k);
      Ordered(bs, j, k);
      assert !SamePayload(mem, bs[j], m) by {
        assert bs[j].Payload() <= p < bs[j].End() && m[p] != mem[p];
      }
    } else {
      ButNothing(mem, base, bs, k, m, Freed(bs, k));
    }
  }

  lemma ButNothing(mem: seq<Cell>, base: nat, bs: seq<Block>, k: nat, m: seq<Cell>, bs': seq<Block>)
    requires Tiled(mem, base, bs) && k < |bs| && !Clobbers(mem, bs, k)
    requires KeptBut(mem, bs, m, bs', bs[k].pos, bs[k].prev, HoleEnd(mem, bs, k))
    ensures Kept(mem, bs, m, bs', bs[k].pos)
  {
    AllOrdered(bs);
    forall i | 0 <= i < |bs| && !bs[i].free && bs[i].pos != bs[k].pos ensures bs[i] in bs' && SamePayload(mem, bs[i], m) {
      assert SamePayloadBut(mem, bs[i], m, bs[k].prev, HoleEnd(mem, bs, k));
      if Overwrites(mem, bs, k) {
        var j :| 0 <= j < k && Inside(mem, bs[j], bs[k].prev);
        assert i < j ==> bs[i].End() <= bs[j].pos;
        assert j < i ==> bs[j].End() <= bs[i].pos;
      }
    }
  }

  /** Freeing block `k` keeps every other live block, and its payload but for the bytes of a header that is overwritten;
      every other live payload is unchanged exactly if that header is in none of them. */
  ghost predicate OthersKept(mem: seq<Cell>, bs: seq<Block>, k: nat, mem': seq<Cell>)
    requires k < |bs|
  {
    && KeptBut(mem, bs, mem', Freed(bs, k), bs[k].pos, bs[k].prev, HoleEnd(mem, bs, k))
    && (Kept(mem, bs, mem', Freed(bs, k), bs[k].pos) <==> !Clobbers(mem, bs, k))
  }

  lemma SafelyReleased(mem: seq<Cell>, base: nat, bs: seq<Block>, k: nat)
    requires Tiled(mem, base, bs) && k < |bs| && LinkReadable(mem, bs, k) && BackLinkSafe(bs, k) && Releasable(mem, bs[k].pos)
    ensures Sound(Released(mem, bs[k].pos), base, Freed(bs, k)) && OthersKept(mem, bs, k, Released(mem, bs[k].pos))
  {
    ReleasedTiled(mem, base, bs, k);
    ReleasedKept(mem, base, bs, k);
    KeptUnlessClobbered(mem, base, bs, k);
  }

  /** mm_free of live block `k`, whatever its back-link leads to. With a safe one, the block is merged with its free
      neighbours, the heap stays tiled, and every other live block and payload is as it was, but for the bytes of a
      header that the back-link leads to inside a payload. */
  method MmFree(mem: seq<Cell>, ptr: nat, ghost base: nat, ghost bs: seq<Block>, ghost k: nat) returns (mem': seq<Cell>)
    requires Sound(mem, base, bs)
    requires ptr != NULL ==> k < |bs| && ptr == bs[k].Payload() && !bs[k].free && LinkReadable(mem, bs, k)
    ensures ptr == NULL ==> mem' == mem
    ensures ptr != NULL ==> Releasable(mem, bs[k].pos) && mem' == Released(mem, bs[k].pos)
    ensures ptr != NULL && BackLinkSafe(bs, k) ==> Sound(mem', base, Freed(bs, k)) && OthersKept(mem, bs, k, mem')
    ensures ptr != NULL ==> exists b :: Reclaimed(bs, k, Freed(bs, k), b)
  {
    if ptr == NULL { return mem; }
    ghost var b := FreedReclaims(bs, k);
    MarkedCombinable(mem, base, bs, k);
    var block := ptr - HEADER;
    mem' := MarkedFree(mem, block);
    var r;
    r, mem' := CombineBlock(mem', block);
    if BackLinkSafe(bs, k) { SafelyReleased(mem, base, bs, k); }
  }
}
