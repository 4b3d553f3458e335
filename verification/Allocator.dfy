/** The allocator of hw3/mm_alloc.c on the bytes of the heap: each call does to the list of blocks what the
    specification says, and leaves every other live payload alone. */
module Allocator {
  import opened HeapBlocks
  import opened HeapSpec
  import opened HeapEffects

  /** The heap: nothing allocated yet, or a tiled region above `base`. */
  ghost predicate Sound(mem: seq<Cell>, base: nat, bs: seq<Block>) {
    |mem| > NULL && if base == NULL then bs == [] else Tiled(mem, base, bs)
  }

  /** The bytes from `p` up to `q` are zero. */
  ghost predicate Cleared(mem: seq<Cell>, p: nat, q: nat) {
    q <= |mem| && forall x :: p <= x < q ==> mem[x] == Data(0)
  }

  // ---------- searching ----------

  /** free_block_or_nah: the first free block that is large enough, and the block before it. */
  method FreeBlockOrNah(mem: seq<Cell>, base: nat, size: nat, ghost bs: seq<Block>) returns (curr: nat, last: nat)
    requires Tiled(mem, base, bs)
    ensures var k := FirstFit(bs, size);
      if k < |bs| then curr == bs[k].pos && curr != NULL else curr == NULL && last == bs[|bs| - 1].pos
  {
    curr, last := base, base;
    ghost var k := 0;
    StillWithin(mem, base, bs, 0);
    while curr != NULL && (!mem[curr].h.free || mem[curr].h.size < size)
      invariant 0 <= k <= |bs| && FirstFit(bs, size) == FirstFitFrom(bs, size, k)
      invariant k < |bs| ==> curr == bs[k].pos && curr != NULL && ShownAt(mem, bs[k], PosAfter(bs, k))
      invariant k == |bs| ==> curr == NULL && last == bs[|bs| - 1].pos
      decreases |bs| - k
    {
      last := curr;
      curr := mem[curr].h.next;
      k := k + 1;
      if k < |bs| { StillWithin(mem, base, bs, k); }
    }
  }

  // ---------- splitting ----------

  /** split_block_safe: cuts `first` bytes off the block at `b`, and clears them. */
  method SplitBlockSafe(mem: seq<Cell>, b: nat, first: nat) returns (mem': seq<Cell>)
    requires b + HEADER <= |mem| && mem[b].Head?
    requires mem[b].h.size >= first + HEADER && b + HEADER + mem[b].h.size <= |mem|
    ensures SameOutside(mem, b, b + HEADER + mem[b].h.size, mem')
    ensures var second := b + HEADER + first;
      && HeaderIs(mem', b, Header(mem[b].h.prev, second, false, first))
      && HeaderIs(mem', second, Header(b, mem[b].h.next, true, mem[b].h.size - first - HEADER))
    ensures Cleared(mem', b + HEADER, b + HEADER + first)
  {
    var h := mem[b].h;
    var second := b + HEADER + first;
    mem' := PutHeader(mem, b, Header(h.prev, second, false, first));
    mem' := Zero(mem', b + HEADER, first);
    mem' := PutHeader(mem', second, Header(b, h.next, true, h.size - first - HEADER));
  }

  /** Takes a free block that is large enough, split if the rest is worth it, and clears it. */
  method TakeBlock(mem: seq<Cell>, block: nat, size: nat) returns (mem': seq<Cell>)
    requires block + HEADER <= |mem| && mem[block].Head?
    requires mem[block].h.size >= size && block + HEADER + mem[block].h.size <= |mem|
    ensures SameOutside(mem, block, block + HEADER + mem[block].h.size, mem')
    ensures Taken(mem, block, mem[block].h, size, mem')
  {
    if mem[block].h.size < size + HEADER + SPLIT_MIN {
      mem' := Zero(mem, block + HEADER, mem[block].h.size);
    } else {
      mem' := SplitBlockSafe(mem, block, size);
      mem' := Zero(mem', block + HEADER, mem'[block].h.size);
    }
    mem' := PutHeader(mem', block, mem'[block].h.(free := false));
  }

  /** mm_malloc from block `k`. */
  method Reserve(mem: seq<Cell>, block: nat, size: nat, ghost base: nat, ghost bs: seq<Block>, ghost k: nat)
    returns (mem': seq<Cell>, ghost bs': seq<Block>)
    requires Tiled(mem, base, bs) && k < |bs| && Fits(bs[k], size) && block == bs[k].pos
    ensures bs' == Allocated(bs, k, size, |mem|) && k < |bs'| && bs'[k].pos == block
    ensures Cleared(mem', bs'[k].Payload(), bs'[k].End())
    ensures Tiled(mem', base, bs') && Kept(mem, bs, mem', bs', NULL)
  {
    StillWithin(mem, base, bs, k);
    mem' := TakeBlock(mem, block, size);
    bs' := Allocated(bs, k, size, |mem|);
    AllocatedFirst(bs, k, size, |mem|);
    TakenShown(mem, bs[k], PosAfter(bs, k), size, mem');
    TakenTiled(mem, base, bs, k, size, mem');
  }

  lemma AllocatedFirst(bs: seq<Block>, k: nat, size: nat, brk: nat)
    requires k < |bs| && Fits(bs[k], size)
    ensures var bs' := Allocated(bs, k, size, brk); k < |bs'| && bs'[k] == Carved(bs[k], size)[0]
  {
    ReplacedAt(bs, k, k + 1, Carved(bs[k], size));
    assert Allocated(bs, k, size, brk)[k + 0] == Carved(bs[k], size)[0];
  }

  /** What taking the block `b` leaves in memory. */
  ghost predicate Taken(mem: seq<Cell>, block: nat, h: Header, size: nat, mem': seq<Cell>) {
    if h.size < size + HEADER + SPLIT_MIN then
      HeaderIs(mem', block, h.(free := false)) && Cleared(mem', block + HEADER, block + HEADER + h.size)
    else
      && HeaderIs(mem', block, Header(h.prev, block + HEADER + size, false, size))
      && HeaderIs(mem', block + HEADER + size, Header(block, h.next, true, h.size - size - HEADER))
      && Cleared(mem', block + HEADER, block + HEADER + size)
  }

  lemma TakenShown(mem: seq<Cell>, b: Block, next: nat, size: nat, mem': seq<Cell>)
    requires Fits(b, size) && b.End() <= |mem| == |mem'| && Taken(mem, b.pos, Header(b.prev, next, b.free, b.size), size, mem')
    ensures Shown(mem', Carved(b, size), next)
    ensures Cleared(mem', b.Payload(), Carved(b, size)[0].End())
  {
  }

  lemma TakenTiled(mem: seq<Cell>, base: nat, bs: seq<Block>, k: nat, size: nat, mem': seq<Cell>)
    requires Tiled(mem, base, bs) && k < |bs| && Fits(bs[k], size)
    requires SameOutside(mem, bs[k].pos, bs[k].End(), mem')
    requires Shown(mem', Carved(bs[k], size), PosAfter(bs, k))
    ensures Tiled(mem', base, Allocated(bs, k, size, |mem|))
    ensures Kept(mem, bs, mem', Allocated(bs, k, size, |mem|), NULL)
  {
    CarvedFills(bs, k, size);
    ReplacedTiled(mem, base, bs, k, k + 1, Carved(bs[k], size), mem');
    ReplacedKept(mem, base, bs, k, k + 1, Carved(bs[k], size), mem', NULL);
  }

  // ---------- growing ----------

  /** extend_heap: a new block at the break, linked after `prevEnd`. `grant` says whether sbrk moves the break. */
  method ExtendHeap(mem: seq<Cell>, prevEnd: nat, s: nat, grant: bool) returns (block: nat, mem': seq<Cell>)
    requires |mem| > NULL && (prevEnd != NULL ==> prevEnd + HEADER <= |mem| && mem[prevEnd].Head?)
    ensures !grant ==> block == NULL && mem' == mem
    ensures grant ==>
      && block == |mem| && |mem'| == |mem| + HEADER + s
      && HeaderIs(mem', block, Header(prevEnd, NULL, false, s)) && Cleared(mem', block + HEADER, |mem'|)
      && (prevEnd != NULL ==> HeaderIs(mem', prevEnd, mem[prevEnd].h.(next := block)))
      && (forall x :: 0 <= x < |mem| && (prevEnd == NULL || x < prevEnd || prevEnd + HEADER <= x) ==> mem'[x] == mem[x])
  {
    block := |mem|;
    if !grant { return NULL, mem; }
    mem' := mem + seq(HEADER + s, _ => Data(0));
    if prevEnd != NULL {
      mem' := PutHeader(mem', prevEnd, mem'[prevEnd].h.(next := block));
    }
    mem' := PutHeader(mem', block, Header(prevEnd, NULL, false, s));
    mem' := Zero(mem', block + HEADER, s);
  }

  /** `mem'` is `mem` grown by a block at its end that follows the block at `last`. */
  ghost predicate Grown(mem: seq<Cell>, last: nat, s: nat, mem': seq<Cell>) {
    && |mem'| == |mem| + HEADER + s && last < |mem|
    && HeaderIs(mem', |mem|, Header(last, NULL, false, s)) && mem[last].Head? && HeaderIs(mem', last, mem[last].h.(next := |mem|))
    && forall x :: 0 <= x < |mem| && (x < last || last + HEADER <= x) ==> mem'[x] == mem[x]
  }

  lemma ExtendedKept(mem: seq<Cell>, base: nat, bs: seq<Block>, s: nat, mem': seq<Cell>)
    requires Tiled(mem, base, bs) && Grown(mem, bs[|bs| - 1].pos, s, mem')
    ensures Kept(mem, bs, mem', Allocated(bs, |bs|, s, |mem|), NULL)
  {
    AllOrdered(bs);
    var bs' := Allocated(bs, |bs|, s, |mem|);
    forall i | 0 <= i < |bs| ensures SamePayload(mem, bs[i], mem') && bs[i] in bs' {
      StillWithin(mem, base, bs, i);
      assert bs'[i] == bs[i];
    }
  }

  lemma ExtendedTiled(mem: seq<Cell>, base: nat, bs: seq<Block>, s: nat, mem': seq<Cell>)
    requires Tiled(mem, base, bs) && Grown(mem, bs[|bs| - 1].pos, s, mem')
    ensures Tiled(mem', base, Allocated(bs, |bs|, s, |mem|))
  {
    AllOrdered(bs);
    forall i | 0 <= i < |bs| - 1 ensures ShownAt(mem', bs[i], bs[i + 1].pos) {
      StillWithin(mem, base, bs, i);
    }
    StillWithin(mem, base, bs, |bs| - 1);
    ShownTogether(mem', bs, [Block(|mem|, s, false, bs[|bs| - 1].pos)], NULL);
  }

  // ---------- mm_malloc ----------

  /** mm_malloc on a heap that has blocks. */
  method MallocMore(mem: seq<Cell>, base: nat, size: nat, grant: bool, ghost bs: seq<Block>)
    returns (block: nat, mem': seq<Cell>, ghost bs': seq<Block>)
    requires Tiled(mem, base, bs)
    ensures var k := FirstFit(bs, size);
      if k == |bs| && !grant then block == NULL && mem' == mem && bs' == bs
      else
        && bs' == Allocated(bs, k, size, |mem|) && block == bs'[k].pos && block != NULL
        && Cleared(mem', bs'[k].Payload(), bs'[k].End())
    ensures Tiled(mem', base, bs') && Kept(mem, bs, mem', bs', NULL)
  {
    var last;
    block, last := FreeBlockOrNah(mem, base, size, bs);
    if block == NULL {
      block, mem', bs' := AppendBlock(mem, last, size, grant, base, bs);
    } else {
      mem', bs' := Reserve(mem, block, size, base, bs, FirstFit(bs, size));
    }
  }

  /** mm_malloc when nothing fits. */
  method AppendBlock(mem: seq<Cell>, last: nat, size: nat, grant: bool, ghost base: nat, ghost bs: seq<Block>)
    returns (block: nat, mem': seq<Cell>, ghost bs': seq<Block>)
    requires Tiled(mem, base, bs) && last == bs[|bs| - 1].pos
    ensures if !grant then block == NULL && mem' == mem && bs' == bs
      else
        && bs' == Allocated(bs, |bs|, size, |mem|) && block == bs'[|bs|].pos && block != NULL
        && Cleared(mem', bs'[|bs|].Payload(), bs'[|bs|].End())
    ensures Tiled(mem', base, bs') && Kept(mem, bs, mem', bs', NULL)
  {
    StillWithin(mem, base, bs, |bs| - 1);
    block, mem' := ExtendHeap(mem, last, size, grant);
    if grant {
      bs' := Allocated(bs, |bs|, size, |mem|);
      ExtendedTiled(mem, base, bs, size, mem');
      ExtendedKept(mem, base, bs, size, mem');
    } else {
      bs' := bs;
      KeptSelf(mem, base, bs);
    }
  }

  lemma KeptSelf(mem: seq<Cell>, base: nat, bs: seq<Block>)
    requires Sound(mem, base, bs)
    ensures Kept(mem, bs, mem, bs, NULL)
  {
    forall i | 0 <= i < |bs| ensures SamePayload(mem, bs[i], mem) {
      StillWithin(mem, base, bs, i);
    }
  }

  /** A request is refused if it is for nothing, or if no block fits and the break cannot be moved. */
  ghost predicate Refused(bs: seq<Block>, size: nat, grant: bool) {
    size == 0 || (!grant && forall b :: b in bs ==> !(b.free && b.size >= size))
  }

  /** mm_malloc: unless the request is refused, the first free block that fits, or a new one, cleared, with every live
      block as it was. */
  method MmMalloc(mem: seq<Cell>, base: nat, size: nat, grant: bool, ghost bs: seq<Block>)
    returns (ptr: nat, mem': seq<Cell>, base': nat, ghost bs': seq<Block>)
    requires Sound(mem, base, bs)
    ensures ptr == NULL <==> Refused(bs, size, grant)
    ensures ptr == NULL ==> mem' == mem && base' == base && bs' == bs
    ensures ptr != NULL ==>
      var k := FirstFit(bs, size);
      && bs' == Allocated(bs, k, size, |mem|) && ptr == bs'[k].Payload()
      && Cleared(mem', bs'[k].Payload(), bs'[k].End())
    ensures Sound(mem', base', bs') && Kept(mem, bs, mem', bs', NULL)
  {
    ptr, mem', base', bs' := NULL, mem, base, bs;
    KeptSelf(mem, base, bs);
    FirstFitIsFirst(bs, size);
    if size == 0 { return; }
    var block;
    if base == NULL {
      block, mem' := ExtendHeap(mem, NULL, size, grant);
      if block == NULL { return; }
      base', bs' := block, Allocated(bs, 0, size, |mem|);
    } else {
      block, mem', bs' := MallocMore(mem, base, size, grant, bs);
      if block == NULL { return; }
    }
    ptr := block + HEADER;
  }
}
