/** The heap of hw3/mm_alloc.c: memory cells, and the list of blocks that tiles them. */
module HeapBlocks {

  /** sizeof(struct s_block). */
  const HEADER: nat := 32
  /** NULL; every block lies above it. */
  const NULL: nat := 0

  datatype Header = Header(prev: nat, next: nat, free: bool, size: nat)

  /** What is in one byte of memory: the start of a header, the rest of one, or a byte of data. */
  datatype Cell = Head(h: Header) | Pad | Data(value: nat)

  // ---------- memory ----------

  /** A header written over the cells from `p`. */
  function PutHeader(mem: seq<Cell>, p: nat, h: Header): (r: seq<Cell>)
    requires p + HEADER <= |mem|
    ensures |r| == |mem| && HeaderIs(r, p, h)
    ensures forall x :: 0 <= x < |mem| && (x < p || p + HEADER <= x) ==> r[x] == mem[x]
  {
    mem[..p] + [Head(h)] + seq(HEADER - 1, _ => Pad) + mem[p + HEADER..]
  }

  /** The whole header `h` is at `p`. */
  ghost predicate HeaderIs(mem: seq<Cell>, p: nat, h: Header) {
    p + HEADER <= |mem| && mem[p] == Head(h) && forall x :: p < x < p + HEADER ==> mem[x] == Pad
  }

  /** memset with zero. */
  function Zero(mem: seq<Cell>, p: nat, n: nat): (r: seq<Cell>)
    requires p + n <= |mem|
    ensures |r| == |mem|
    ensures forall x :: p <= x < p + n ==> r[x] == Data(0)
    ensures forall x :: 0 <= x < |mem| && (x < p || p + n <= x) ==> r[x] == mem[x]
  {
    mem[..p] + seq(n, _ => Data(0)) + mem[p + n..]
  }

  /** memcpy between places that do not overlap. */
  function Copy(mem: seq<Cell>, to: nat, from: nat, n: nat): (r: seq<Cell>)
    requires from + n <= |mem| && to + n <= |mem|
    ensures |r| == |mem|
    ensures forall x :: to <= x < to + n ==> r[x] == mem[from + (x - to)]
    ensures forall x :: 0 <= x < |mem| && (x < to || to + n <= x) ==> r[x] == mem[x]
  {
    mem[..to] + mem[from..from + n] + mem[to + n..]
  }

  // ---------- blocks ----------

  /** A block: where its header is, the size of its payload, and the back-link the header holds. */
  datatype Block = Block(pos: nat, size: nat, free: bool, prev: nat) {
    function Payload(): nat { pos + HEADER }
    function End(): nat { pos + HEADER + size }
  }

  ghost predicate Adjacent(bs: seq<Block>) {
    forall i :: 0 <= i < |bs| - 1 ==> bs[i + 1].pos == bs[i].End()
  }

  /** The header of `b` is in memory, and leads to `next`. */
  ghost predicate ShownAt(mem: seq<Cell>, b: Block, next: nat) {
    b.End() <= |mem| && HeaderIs(mem, b.pos, Header(b.prev, next, b.free, b.size))
  }

  /** The headers of `bs` are in memory, each leading to the next block and the last one to `end`. */
  ghost predicate Shown(mem: seq<Cell>, bs: seq<Block>, end: nat) {
    && (forall i :: 0 <= i < |bs| - 1 ==> ShownAt(mem, bs[i], bs[i + 1].pos))
    && (bs != [] ==> ShownAt(mem, bs[|bs| - 1], end))
  }

  /** The next-chain from `base` is `bs`, and tiles the memory above `base`. */
  ghost predicate Tiled(mem: seq<Cell>, base: nat, bs: seq<Block>) {
    && bs != [] && bs[0].pos == base && base > NULL
    && Adjacent(bs) && bs[|bs| - 1].End() == |mem|
    && Shown(mem, bs, NULL)
  }

  /** The back-link of block `i` leads to the block before it. */
  ghost predicate Mirror(bs: seq<Block>, i: nat)
    requires i < |bs|
  {
    bs[i].prev == PosBefore(bs, i)
  }

  function PosBefore(bs: seq<Block>, i: nat): nat
    requires i < |bs|
  {
    if i == 0 then NULL else bs[i - 1].pos
  }

  function PosAfter(bs: seq<Block>, i: nat): nat
    requires i < |bs|
  {
    if i + 1 == |bs| then NULL else bs[i + 1].pos
  }

  ghost predicate Mirrored(bs: seq<Block>) {
    forall i :: 0 <= i < |bs| ==> Mirror(bs, i)
  }

  /** Blocks follow one another without overlap. */
  lemma {:induction false} Ordered(bs: seq<Block>, i: nat, j: nat)
    requires Adjacent(bs) && i < j < |bs|
    ensures bs[i].End() <= bs[j].pos
    decreases j
  {
    if i + 1 < j {
      Ordered(bs, i, j - 1);
    }
    assert bs[j - 1 + 1].pos == bs[j - 1].End();
  }

  lemma AllOrdered(bs: seq<Block>)
    requires Adjacent(bs)
    ensures forall i, j :: 0 <= i < j < |bs| ==> bs[i].End() <= bs[j].pos
  {
    forall i, j | 0 <= i < j < |bs| ensures bs[i].End() <= bs[j].pos {
      Ordered(bs, i, j);
    }
  }

  /** Bytes of headers and payloads. */
  function Bytes(bs: seq<Block>): nat {
    if bs == [] then 0 else HEADER + bs[0].size + Bytes(bs[1..])
  }

  /** Conservation: the blocks account for every byte of the region. */
  lemma {:induction false} TilingAccountsForAll(bs: seq<Block>)
    requires Adjacent(bs) && bs != []
    ensures Bytes(bs) == bs[|bs| - 1].End() - bs[0].pos
    decreases |bs|
  {
    if |bs| > 1 {
      var rest := bs[1..];
      assert forall i :: 0 <= i < |rest| ==> rest[i] == bs[i + 1];
      TilingAccountsForAll(rest);
      assert bs[0 + 1].pos == bs[0].End();
    }
  }

  // ---------- replacing blocks ----------

  /** `bs` with the blocks from `lo` up to `hi` replaced. */
  function Replaced(bs: seq<Block>, lo: nat, hi: nat, ns: seq<Block>): seq<Block>
    requires lo <= hi <= |bs|
  {
    bs[..lo] + ns + bs[hi..]
  }

  /** `ns` fills the place of the blocks from `lo` up to `hi`. */
  ghost predicate Fills(bs: seq<Block>, lo: nat, hi: nat, ns: seq<Block>) {
    && lo < hi <= |bs| && ns != []
    && ns[0].pos == bs[lo].pos && ns[|ns| - 1].End() == bs[hi - 1].End() && Adjacent(ns)
  }

  lemma ReplacedAt(bs: seq<Block>, lo: nat, hi: nat, ns: seq<Block>)
    requires lo <= hi <= |bs|
    ensures var r := Replaced(bs, lo, hi, ns);
      && |r| == |bs| - (hi - lo) + |ns|
      && (forall i :: 0 <= i < lo ==> r[i] == bs[i])
      && (forall i :: 0 <= i < |ns| ==> r[lo + i] == ns[i])
      && (forall i :: hi <= i < |bs| ==> r[i - hi + lo + |ns|] == bs[i])
  {
  }

  lemma ReplacedAdjacent(bs: seq<Block>, lo: nat, hi: nat, ns: seq<Block>)
    requires Adjacent(bs) && Fills(bs, lo, hi, ns)
    ensures var r := Replaced(bs, lo, hi, ns);
      Adjacent(r) && r != [] && r[0].pos == bs[0].pos && r[|r| - 1].End() == bs[|bs| - 1].End()
  {
    var r, d := Replaced(bs, lo, hi, ns), hi - lo - |ns|;
    forall i | 0 <= i < |r| - 1 ensures r[i + 1].pos == r[i].End() {
      if lo <= i < lo + |ns| - 1 {
        assert r[i] == ns[i - lo] && r[i + 1] == ns[i - lo + 1];
      } else if i >= lo + |ns| - 1 {
        assert r[i + 1] == bs[i + 1 + d];
        assert bs[i + d + 1].pos == bs[i + d].End();
      }
    }
  }

  /** `mem'` is `mem` except from `lo` up to `hi`. */
  ghost predicate SameOutside(mem: seq<Cell>, lo: nat, hi: nat, mem': seq<Cell>) {
    |mem'| == |mem| && forall x :: 0 <= x < |mem| && (x < lo || hi <= x) ==> mem'[x] == mem[x]
  }

  /** Rewriting the bytes of some consecutive blocks, so that they show other blocks which fill the same
      place, keeps the tiling. */
  lemma ReplacedTiled(mem: seq<Cell>, base: nat, bs: seq<Block>, lo: nat, hi: nat, ns: seq<Block>, mem': seq<Cell>)
    requires Tiled(mem, base, bs) && Fills(bs, lo, hi, ns)
    requires SameOutside(mem, bs[lo].pos, bs[hi - 1].End(), mem')
    requires Shown(mem', ns, PosAfter(bs, hi - 1))
    ensures Tiled(mem', base, Replaced(bs, lo, hi, ns))
  {
    ReplacedAdjacent(bs, lo, hi, ns);
    ClearAround(bs, lo, hi);
    ReplacedShown(mem, bs, lo, hi, ns, mem');
  }

  lemma ReplacedShown(mem: seq<Cell>, bs: seq<Block>, lo: nat, hi: nat, ns: seq<Block>, mem': seq<Cell>)
    requires Shown(mem, bs, NULL) && Fills(bs, lo, hi, ns)
    requires Clear(bs[..lo], bs[lo].pos, bs[hi - 1].End()) && Clear(bs[hi..], bs[lo].pos, bs[hi - 1].End())
    requires SameOutside(mem, bs[lo].pos, bs[hi - 1].End(), mem')
    requires Shown(mem', ns, PosAfter(bs, hi - 1))
    ensures Shown(mem', Replaced(bs, lo, hi, ns), NULL)
  {
    CutTwice(bs, lo, hi, ns);
    ShownAround(mem, bs[..lo], bs[lo..hi], ns, bs[hi..], bs[lo].pos, bs[hi - 1].End(), mem');
  }

  lemma CutTwice(bs: seq<Block>, lo: nat, hi: nat, ns: seq<Block>)
    requires lo < hi <= |bs|
    ensures bs == bs[..lo] + (bs[lo..hi] + bs[hi..]) && Replaced(bs, lo, hi, ns) == bs[..lo] + (ns + bs[hi..])
    ensures bs[lo..hi] != [] && bs[lo..hi][0] == bs[lo] && PosOf(bs[hi..], NULL) == PosAfter(bs, hi - 1)
  {
  }

  /** No block of `bs` reaches into the bytes from `from` up to `to`. */
  ghost predicate Clear(bs: seq<Block>, from: nat, to: nat) {
    forall i :: 0 <= i < |bs| ==> bs[i].End() <= from || to <= bs[i].pos
  }

  lemma ClearAround(bs: seq<Block>, lo: nat, hi: nat)
    requires Adjacent(bs) && lo < hi <= |bs|
    ensures Clear(bs[..lo], bs[lo].pos, bs[hi - 1].End()) && Clear(bs[hi..], bs[lo].pos, bs[hi - 1].End())
  {
    AllOrdered(bs);
  }

  lemma ShownAround(mem: seq<Cell>, before: seq<Block>, mid: seq<Block>, ns: seq<Block>, after: seq<Block>,
                    from: nat, to: nat, mem': seq<Cell>)
    requires Shown(mem, before + (mid + after), NULL) && mid != [] && ns != [] && ns[0].pos == mid[0].pos
    requires Clear(before, from, to) && Clear(after, from, to) && SameOutside(mem, from, to, mem')
    requires Shown(mem', ns, PosOf(after, NULL))
    ensures Shown(mem', before + (ns + after), NULL)
  {
    ShownParts(mem, before, mid + after, NULL);
    ShownParts(mem, mid, after, NULL);
    StillShown(mem, before, mid[0].pos, from, to, mem');
    StillShown(mem, after, NULL, from, to, mem');
    ShownTogether(mem', ns, after, NULL);
    ShownTogether(mem', before, ns + after, NULL);
  }

  function PosOf(bs: seq<Block>, end: nat): nat { if bs == [] then end else bs[0].pos }

  lemma ShownTogether(mem: seq<Cell>, a: seq<Block>, b: seq<Block>, end: nat)
    requires Shown(mem, a, PosOf(b, end)) && Shown(mem, b, end)
    ensures Shown(mem, a + b, end)
  {
    var r := a + b;
    forall i | 0 <= i < |r| - 1 ensures ShownAt(mem, r[i], r[i + 1].pos) {
      if i >= |a| {
        assert r[i] == b[i - |a|] && r[i + 1] == b[i - |a| + 1];
      }
    }
  }

  lemma ShownParts(mem: seq<Cell>, a: seq<Block>, b: seq<Block>, end: nat)
    requires Shown(mem, a + b, end)
    ensures Shown(mem, a, PosOf(b, end)) && Shown(mem, b, end)
  {
    var r := a + b;
    assert forall i :: 0 <= i < |a| ==> r[i] == a[i];
    assert forall i :: 0 <= i < |b| ==> r[|a| + i] == b[i];
    forall i | 0 <= i < |b| - 1 ensures ShownAt(mem, b[i], b[i + 1].pos) {
      assert ShownAt(mem, r[|a| + i], r[|a| + i + 1].pos);
    }
    forall i | 0 <= i < |a| - 1 ensures ShownAt(mem, a[i], a[i + 1].pos) {
      assert ShownAt(mem, r[i], r[i + 1].pos);
    }
    assert a != [] && b != [] ==> ShownAt(mem, r[|a| - 1], r[|a| - 1 + 1].pos);
  }

  lemma StillShown(mem: seq<Cell>, bs: seq<Block>, end: nat, from: nat, to: nat, mem': seq<Cell>)
    requires Shown(mem, bs, end) && SameOutside(mem, from, to, mem')
    requires Clear(bs, from, to)
    ensures Shown(mem', bs, end)
  {
  }
}
