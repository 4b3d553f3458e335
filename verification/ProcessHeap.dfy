/** mm_realloc of hw3/mm_alloc.c, and the process's heap. */
module ProcessHeap {
  import opened HeapBlocks
  import opened HeapSpec
  import opened HeapEffects
  import opened Allocator
  import opened Release
  import opened StaleLinks

  // ---------- mm_realloc ----------

  /** The block that mm_malloc returns was not in use. */
  lemma NewBlockWasFree(mem: seq<Cell>, base: nat, bs: seq<Block>, k: nat, size: nat)
    requires Sound(mem, base, bs) && k <= |bs| && (k < |bs| ==> Fits(bs[k], size))
    ensures var bs' := Allocated(bs, k, size, |mem|);
      k < |bs'| && !bs'[k].free && bs'[k].size >= size &&
      forall i :: 0 <= i < |bs| && !bs[i].free ==> bs[i].pos != bs'[k].pos && bs[i].pos != NULL
  {
    var bs' := Allocated(bs, k, size, |mem|);
    if k < |bs| {
      AllocatedFirst(bs, k, size, |mem|);
      AllOrdered(bs);
    }
    forall i | 0 <= i < |bs| && !bs[i].free ensures bs[i].pos != bs'[k].pos && bs[i].pos != NULL {
      StillWithin(mem, base, bs, i);
    }
  }

  function Min(a: nat, b: nat): nat { if a < b then a else b }

  /** At `to`, as many bytes of those at `from` as both sizes allow, then zeros up to `size`. */
  ghost predicate Carried(mem: seq<Cell>, from: nat, oldSize: nat, mem': seq<Cell>, to: nat, size: nat) {
    var n := Min(oldSize, size);
    && from + oldSize <= |mem| && to + size <= |mem'|
    && mem'[to..to + n] == mem[from..from + n] && Cleared(mem', to + n, to + size)
  }

  /** The contents of the live block `was` have moved to `b`. */
  ghost predicate Moved(mem: seq<Cell>, was: Block, size: nat, mem': seq<Cell>, b: Block) {
    && !b.free && b.size >= size && b.End() <= |mem'| && was.End() <= |mem|
    && Carried(mem, was.Payload(), was.size, mem', b.Payload(), size)
  }

  /** mm_realloc's copying. */
  method CopyPayload(mem: seq<Cell>, to: nat, from: nat, oldSize: nat, size: nat) returns (mem': seq<Cell>)
    requires to + size <= |mem| && from + oldSize <= |mem| && (to + size <= from || from + oldSize <= to)
    ensures SameOutside(mem, to, to + size, mem')
    ensures Carried(mem, from, oldSize, mem', to, size)
  {
    if oldSize < size {
      mem' := Zero(mem, to, size);
      mem' := Copy(mem', to, from, oldSize);
    } else {
      mem' := Copy(mem, to, from, size);
    }
  }

  /** Copies the payload of block `j` into block `i`. */
  method CopyBlock(mem: seq<Cell>, ptr: nat, newPtr: nat, size: nat, ghost base: nat, ghost bs: seq<Block>, ghost j: nat, ghost i: nat)
    returns (mem': seq<Cell>)
    requires Tiled(mem, base, bs) && j < |bs| && i < |bs| && j != i && !bs[i].free
    requires ptr == bs[j].Payload() && newPtr == bs[i].Payload() && bs[i].size >= size
    ensures Tiled(mem', base, bs) && |mem'| == |mem| && Kept(mem, bs, mem', bs, bs[i].pos) && Moved(mem, bs[j], size, mem', bs[i])
  {
    StillWithin(mem, base, bs, j);
    StillWithin(mem, base, bs, i);
    PayloadsDisjoint(mem, base, bs, i, j);
    mem' := CopyPayload(mem, newPtr, ptr, mem[ptr - HEADER].h.size, size);
    PayloadWritten(mem, base, bs, i, mem');
  }

  /** A back-link that is null or leads to a block overwrites nothing. */
  lemma NothingOverwritten(mem: seq<Cell>, bs: seq<Block>, k: nat)
    requires Adjacent(bs) && k < |bs| && (bs[k].prev == NULL || exists i :: 0 <= i < |bs| && bs[i].pos == bs[k].prev)
    ensures !Clobbers(mem, bs, k)
  {
    if j :| 0 <= j < k && Inside(mem, bs[j], bs[k].prev) {
      InsideIsNoBlock(mem, bs, k, j);
    }
  }

  /** Where the blocks are after one of them is replaced. */
  lemma ReplacedPlace(bs: seq<Block>, i: nat, ns: seq<Block>, k: nat)
    requires i < |bs| && k < |bs| && k != i && ns != []
    ensures var r := Replaced(bs, i, i + 1, ns);
      && |r| == |bs| + |ns| - 1 && r[if k < i then k else k + |ns| - 1] == bs[k]
      && forall x :: 0 <= x < |ns| ==> r[i + x] == ns[x]
  {
  }

  /** Where a live block is after mm_malloc. */
  lemma AllocatedPlace(bs: seq<Block>, i: nat, size: nat, brk: nat, k: nat)
    requires i <= |bs| && (i < |bs| ==> Fits(bs[i], size)) && k < |bs| && k != i
    ensures var bs' := Allocated(bs, i, size, brk); var j := if k < i then k else k + (|bs'| - |bs|);
      && 0 <= j < |bs'| && bs'[j] == bs[k] && i < |bs'| && j != i
      && (j == i + 2 && i < |bs| && Splits(bs[i], size) <==> k == i + 1 && Splits(bs[i], size))
      && (i < |bs| && Splits(bs[i], size) ==> i + 1 < |bs'| && bs'[i + 1].free && bs'[i + 1].pos != bs[i].pos)
  {
    if i < |bs| { ReplacedPlace(bs, i, Carved(bs[i], size), k); }
  }

  /** The heap after mm_realloc's mm_malloc: the old block is where it was, at some position `j` of the list, and may
      be freed. */
  lemma OldBlockStays(mem: seq<Cell>, base: nat, bs: seq<Block>, k: nat, i: nat, size: nat, mem': seq<Cell>) returns (j: nat)
    requires Sound(mem, base, bs) && Mirrored(bs) && k < |bs| && !bs[k].free
    requires i <= |bs| && (i < |bs| ==> Fits(bs[i], size)) && Kept(mem, bs, mem', Allocated(bs, i, size, |mem|), NULL)
    requires Adjacent(Allocated(bs, i, size, |mem|))
    ensures var bs' := Allocated(bs, i, size, |mem|);
      && j < |bs'| && i < |bs'| && j != i && bs'[j] == bs[k] && SamePayload(mem, bs[k], mem') && LinkOk(bs', j)
      && (Mirror(bs', j) <==> !(i < |bs| && Splits(bs[i], size) && k == i + 1))
      && (!Mirror(bs', j) ==> j > 0 && bs'[j - 1].free && bs'[j].prev != bs'[j - 1].pos)
  {
    var bs' := Allocated(bs, i, size, |mem|);
    StillWithin(mem, base, bs, k);
    NewBlockWasFree(mem, base, bs, i, size);
    j := if k < i then k else k + (|bs'| - |bs|);
    AllocatedPlace(bs, i, size, |mem|, k);
    AllocatedLink(bs, i, size, |mem|, j);
    AllocatedMirror(bs, i, size, |mem|, j);
  }

  /** The back-link of block `k` is right, or leads to an earlier live block. */
  ghost predicate LinkOk(bs: seq<Block>, k: nat)
    requires k < |bs|
  {
    Mirror(bs, k) || exists i :: 0 <= i < k && bs[k].prev == bs[i].pos && !bs[i].free
  }

  lemma AllocatedLink(bs: seq<Block>, k: nat, size: nat, brk: nat, j: nat)
    requires Mirrored(bs) && k <= |bs| && (k < |bs| ==> Fits(bs[k], size)) && j < |Allocated(bs, k, size, brk)|
    ensures LinkOk(Allocated(bs, k, size, brk), j)
  {
    AllocatedMirror(bs, k, size, brk, j);
    if !Mirror(Allocated(bs, k, size, brk), j) { AllocatedFirst(bs, k, size, brk); }
  }

  lemma LinkOkIsSafe(mem: seq<Cell>, bs: seq<Block>, k: nat)
    requires Adjacent(bs) && k < |bs| && LinkOk(bs, k)
    ensures LinkReadable(mem, bs, k) && BackLinkSafe(bs, k) && !Clobbers(mem, bs, k)
  {
    if Mirror(bs, k) {
      RightLink(mem, bs, k);
      assert k > 0 ==> bs[k - 1].pos == bs[k].prev;
    } else {
      var i :| 0 <= i < k && bs[k].prev == bs[i].pos && !bs[i].free;
      LinkToLive(mem, bs, k, i);
    }
    NothingOverwritten(mem, bs, k);
  }

  /** mm_realloc of live block `j`, when mm_malloc has returned block `i`. */
  method MoveBlock(mem: seq<Cell>, ptr: nat, newPtr: nat, size: nat, ghost base: nat, ghost bs: seq<Block>, ghost j: nat, ghost i: nat)
    returns (mem': seq<Cell>)
    requires Tiled(mem, base, bs) && j < |bs| && i < |bs| && j != i && !bs[j].free && !bs[i].free && LinkOk(bs, j)
    requires ptr == bs[j].Payload() && newPtr == bs[i].Payload() && bs[i].size >= size
    ensures Tiled(mem', base, Freed(bs, j)) && |mem'| > NULL
    ensures bs[i] in Freed(bs, j) && Moved(mem, bs[j], size, mem', bs[i])
    ensures forall x :: 0 <= x < |bs| && !bs[x].free && x != i && x != j ==> bs[x] in Freed(bs, j) && SamePayload(mem, bs[x], mem')
  {
    StillWithin(mem, base, bs, 0);
    var mid := CopyBlock(mem, ptr, newPtr, size, base, bs, j, i);
    LinkOkIsSafe(mid, bs, j);
    mem' := MmFree(mid, ptr, base, bs, j);
    KeptBoth(mem, bs, i, j, mid, mem', Freed(bs, j));
    MovedOn(mem, bs[j], size, mid, bs[i], mem');
  }

  lemma KeptBoth(mem: seq<Cell>, bs: seq<Block>, i: nat, j: nat, mid: seq<Cell>, mem': seq<Cell>, bs': seq<Block>)
    requires i < |bs| && j < |bs| && Adjacent(bs)
    requires Kept(mem, bs, mid, bs, bs[i].pos) && Kept(mid, bs, mem', bs', bs[j].pos)
    ensures !bs[i].free && i != j ==> bs[i] in bs' && SamePayload(mid, bs[i], mem')
    ensures forall x :: 0 <= x < |bs| && !bs[x].free && x != i && x != j ==> bs[x] in bs' && SamePayload(mem, bs[x], mem')
  {
    AllOrdered(bs);
    forall x | 0 <= x < |bs| && !bs[x].free && x != i && x != j ensures bs[x] in bs' && SamePayload(mem, bs[x], mem') {
      assert SamePayload(mid, bs[x], mem') && SamePayload(mem, bs[x], mid);
    }
  }

  lemma MovedOn(mem: seq<Cell>, was: Block, size: nat, mid: seq<Cell>, b: Block, mem': seq<Cell>)
    requires Moved(mem, was, size, mid, b) && SamePayload(mid, b, mem')
    ensures Moved(mem, was, size, mem', b)
  {
    var n := Min(was.size, size);
    assert mem'[b.Payload()..b.Payload() + n] == mid[b.Payload()..b.Payload() + n];
  }

  /** mm_realloc. */
  method MmRealloc(mem: seq<Cell>, base: nat, ptr: nat, size: nat, grant: bool, ghost bs: seq<Block>, ghost k: nat)
    returns (ptr': nat, mem': seq<Cell>, base': nat, ghost bs': seq<Block>)
    requires Sound(mem, base, bs) && Mirrored(bs)
    requires ptr != NULL ==> k < |bs| && ptr == bs[k].Payload() && !bs[k].free
    ensures Sound(mem', base', bs')
    ensures ptr' == NULL <==> Refused(bs, size, grant)
    ensures ptr' == NULL ==> mem' == mem && base' == base && bs' == bs
    ensures ptr' != NULL ==> exists b :: b in bs' && Obtained(mem, bs, ptr, k, size, mem', ptr', b)
    ensures Kept(mem, bs, mem', bs', if ptr == NULL || ptr' == NULL then NULL else ptr - HEADER)
    ensures ptr != NULL && ptr' != NULL ==> Returned(bs', bs[k])
    ensures ptr' != NULL && Coalesced(bs) ==> (Coalesced(bs') <==> !(ptr != NULL && CutBefore(bs, size, k)))
  {
    if ptr != NULL && size == 0 {
      KeptSelf(mem, base, bs);
      return NULL, mem, base, bs;
    }
    ghost var i := FirstFit(bs, size);
    ptr', mem', base', bs' := MmMalloc(mem, base, size, grant, bs);
    if ptr' == NULL { return; }
    NewBlockWasFree(mem, base, bs, i, size);
    AllocatedProvides(bs, size, |mem|);
    if Coalesced(bs) { AllocatedCoalesced(bs, i, size, |mem|); }
    ghost var b := bs'[i];
    if ptr != NULL {
      ghost var mid, bs1 := mem', bs';
      ghost var j := OldBlockStays(mem, base, bs, k, i, size, mid);
      BlockReturned(bs, k, i, size, bs1, j);
      mem' := MoveBlock(mem', ptr, ptr', size, base', bs', j, i);
      bs' := Freed(bs', j);
      KeptOn(mem, bs, mid, bs1, mem', bs', i, j);
      MovedFrom(mem, bs[k], mid, size, mem', b);
    }
    assert b in bs' && Obtained(mem, bs, ptr, k, size, mem', ptr', b);
  }

  /** The bytes of `b` are in a free block. */
  ghost predicate Returned(bs: seq<Block>, b: Block) {
    exists f :: f in bs && f.free && f.pos <= b.pos && b.End() <= f.End()
  }

  /** A request of `size` bytes is cut from the block before block `k`, and leaves some of it. */
  ghost predicate CutBefore(bs: seq<Block>, size: nat, k: nat)
    requires k < |bs|
  {
    k > 0 && FirstThatFits(bs, size, k - 1) && bs[k - 1].size >= size + 36
  }

  /** What freeing the old block, now number `j`, makes of the list. */
  lemma BlockReturned(bs: seq<Block>, k: nat, i: nat, size: nat, bs1: seq<Block>, j: nat)
    requires Adjacent(bs1) && j < |bs1| && k < |bs| && bs1[j] == bs[k] && i == FirstFit(bs, size)
    requires Mirror(bs1, j) <==> !(i < |bs| && Splits(bs[i], size) && k == i + 1)
    requires !Mirror(bs1, j) ==> j > 0 && bs1[j - 1].free && bs1[j].prev != bs1[j - 1].pos
    ensures Returned(Freed(bs1, j), bs[k])
    ensures Coalesced(bs1) ==> (Coalesced(Freed(bs1, j)) <==> !CutBefore(bs, size, k))
  {
    var f := FreedReclaims(bs1, j);
    FirstFitIsFirst(bs, size);
    if Coalesced(bs1) { FreedCoalesced(bs1, j); }
  }

  /** What a successful mm_realloc returns: a live block that held no live block before, with the old contents, or zeros
      if there were none. */
  ghost predicate Obtained(mem: seq<Cell>, bs: seq<Block>, ptr: nat, k: nat, size: nat, mem': seq<Cell>, ptr': nat, b: Block)
    requires ptr != NULL ==> k < |bs|
  {
    && ptr' == b.pos + 32 && !b.free && b.size >= size && (exists mid :: Provided(bs, size, |mem|, mid, b))
    && (forall i :: 0 <= i < |bs| && !bs[i].free ==> bs[i].pos != b.pos)
    && if ptr == NULL then Cleared(mem', b.Payload(), b.End()) else Moved(mem, bs[k], size, mem', b)
  }

  lemma KeptOn(mem: seq<Cell>, bs: seq<Block>, mid: seq<Cell>, bs1: seq<Block>, mem': seq<Cell>, bs': seq<Block>, i: nat, j: nat)
    requires Kept(mem, bs, mid, bs1, NULL) && i < |bs1| && j < |bs1|
    requires forall x :: 0 <= x < |bs1| && !bs1[x].free && x != i && x != j ==> bs1[x] in bs' && SamePayload(mid, bs1[x], mem')
    requires forall x :: 0 <= x < |bs| && !bs[x].free ==> bs[x].pos != bs1[i].pos && bs[x].pos != NULL
    ensures Kept(mem, bs, mem', bs', bs1[j].pos)
  {
    forall x | 0 <= x < |bs| && !bs[x].free && bs[x].pos != bs1[j].pos ensures bs[x] in bs' && SamePayload(mem, bs[x], mem') {
      var y :| 0 <= y < |bs1| && bs1[y] == bs[x];
      assert bs1[y] in bs' && SamePayload(mid, bs1[y], mem');
    }
  }

  lemma MovedFrom(mem: seq<Cell>, was: Block, mid: seq<Cell>, size: nat, mem': seq<Cell>, b: Block)
    requires SamePayload(mem, was, mid) && Moved(mid, was, size, mem', b)
    ensures Moved(mem, was, size, mem', b)
  {
    var n := Min(was.size, size);
    assert mid[was.Payload()..was.Payload() + n] == mem[was.Payload()..was.Payload() + n];
  }

  // ---------- the process's heap ----------

  /** The memory below the program break, and the allocator's one global. `grant` says whether sbrk moves the break. */
  class Heap {
    var mem: seq<Cell>
    var globalBase: nat
    ghost var blocks: seq<Block>

    ghost predicate Valid()
      reads this
    {
      Sound(mem, globalBase, blocks)
    }

    constructor (mem: seq<Cell>)
      requires |mem| > NULL
      ensures Valid() && this.mem == mem && globalBase == NULL && blocks == []
    {
      this.mem, globalBase, blocks := mem, NULL, [];
    }

    /** mm_malloc. */
    method Malloc(size: nat, grant: bool) returns (ptr: nat)
      requires Valid()
      modifies this
      ensures Valid() && Kept(old(mem), old(blocks), mem, blocks, NULL)
      ensures ptr == NULL <==> Refused(old(blocks), size, grant)
      ensures ptr == NULL ==> mem == old(mem) && blocks == old(blocks)
      ensures ptr != NULL ==>
        var k := FirstFit(old(blocks), size);
        && blocks == Allocated(old(blocks), k, size, |old(mem)|)
        && ptr == blocks[k].Payload() && Cleared(mem, ptr, blocks[k].End())
      ensures ptr != NULL ==> exists b :: Provided(old(blocks), size, |old(mem)|, blocks, b) && ptr == b.pos + 32
      ensures Coalesced(old(blocks)) ==> Coalesced(blocks)
    {
      AllocatedProvides(blocks, size, |mem|);
      if Coalesced(blocks) { AllocatedCoalesced(blocks, FirstFit(blocks, size), size, |mem|); }
      var m, base;
      ghost var bs;
      ptr, m, base, bs := MmMalloc(mem, globalBase, size, grant, blocks);
      mem, globalBase, blocks := m, base, bs;
    }

    /** mm_free. The heap is sound afterwards exactly if the back-link was safe. */
    method Free(ptr: nat, ghost k: nat)
      requires Valid()
      requires ptr != NULL ==> k < |blocks| && ptr == blocks[k].Payload() && !blocks[k].free && LinkReadable(mem, blocks, k)
      modifies this
      ensures ptr == NULL ==> Valid() && mem == old(mem) && blocks == old(blocks)
      ensures ptr != NULL && BackLinkSafe(old(blocks), k) ==>
        Valid() && blocks == Freed(old(blocks), k) && OthersKept(old(mem), old(blocks), k, mem)
      ensures ptr != NULL && BackLinkSafe(old(blocks), k) ==> exists b :: Reclaimed(old(blocks), k, blocks, b)
      ensures ptr != NULL && BackLinkSafe(old(blocks), k) && Coalesced(old(blocks)) ==>
        (Coalesced(blocks) <==> !(k > 0 && old(blocks)[k - 1].free && old(blocks)[k].prev != old(blocks)[k - 1].pos))
      ensures ptr != NULL && !BackLinkSafe(old(blocks), k) ==> forall bs :: !Sound(mem, globalBase, bs)
    {
      if ptr != NULL {
        ghost var b := FreedReclaims(blocks, k);
        if Coalesced(blocks) { FreedCoalesced(blocks, k); }
      }
      var m := FreeBytes(mem, ptr, globalBase, blocks, k);
      mem := m;
      if ptr != NULL { blocks := Freed(blocks, k); }
    }

    /** mm_realloc. */
    method Realloc(ptr: nat, size: nat, grant: bool, ghost k: nat) returns (ptr': nat)
      requires Valid() && Mirrored(blocks)
      requires ptr != NULL ==> k < |blocks| && ptr == blocks[k].Payload() && !blocks[k].free
      modifies this
      ensures Valid() && Kept(old(mem), old(blocks), mem, blocks, if ptr == NULL || ptr' == NULL then NULL else ptr - HEADER)
      ensures ptr' == NULL <==> Refused(old(blocks), size, grant)
      ensures ptr' == NULL ==> mem == old(mem) && blocks == old(blocks)
      ensures ptr' != NULL ==> exists b :: b in blocks && Obtained(old(mem), old(blocks), ptr, k, size, mem, ptr', b)
      ensures ptr != NULL && ptr' != NULL ==> Returned(blocks, old(blocks)[k])
      ensures ptr' != NULL && Coalesced(old(blocks)) ==>
        (Coalesced(blocks) <==> !(ptr != NULL && CutBefore(old(blocks), size, k)))
    {
      var m, base;
      ghost var bs;
      ptr', m, base, bs := MmRealloc(mem, globalBase, ptr, size, grant, blocks, k);
      mem, globalBase, blocks := m, base, bs;
    }
  }

  /** mm_free, and that nothing tiles the heap after an unsafe one. */
  method FreeBytes(mem: seq<Cell>, ptr: nat, ghost base: nat, ghost bs: seq<Block>, ghost k: nat) returns (mem': seq<Cell>)
    requires Sound(mem, base, bs)
    requires ptr != NULL ==> k < |bs| && ptr == bs[k].Payload() && !bs[k].free && LinkReadable(mem, bs, k)
    ensures ptr == NULL ==> mem' == mem
    ensures ptr != NULL && BackLinkSafe(bs, k) ==>
      Sound(mem', base, Freed(bs, k)) && OthersKept(mem, bs, k, mem')
    ensures ptr != NULL && !BackLinkSafe(bs, k) ==> forall bs' :: !Sound(mem', base, bs')
  {
    if ptr != NULL { FreeTilesIffSafe(mem, base, bs, k); }
    mem' := MmFree(mem, ptr, base, bs, k);
  }
}
