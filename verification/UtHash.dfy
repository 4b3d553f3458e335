/** The hash table of hw4/src/uthash.h: items threaded through two linked structures, the bucket
    chains and the application order, with buckets that double. */
module UtHash {
  import opened BucketMath
  import opened KvConstants

  class Item {
    const key: string
    const hashv: nat
    /** The application's data. */
    const tag: nat
    // application order
    var next: Item?
    var prev: Item?
    // bucket order
    var hhNext: Item?
    var hhPrev: Item?

    constructor (key: string, hash: string -> nat, tag: nat)
      ensures this.key == key && hashv == hash(key) && this.tag == tag
    {
      this.key, hashv, this.tag := key, hash(key), tag;
      next, prev, hhNext, hhPrev := null, null, null, null;
    }
  }

  datatype Bucket = Bucket(head: Item?, count: nat, expandMult: nat)

  function First(c: seq<Item>): Item? { if c == [] then null else c[0] }

  function Last(c: seq<Item>): Item? { if c == [] then null else c[|c| - 1] }

  ghost predicate Distinct(c: seq<Item>) {
    forall i, j :: 0 <= i < j < |c| ==> c[i] != c[j]
  }

  // ---------- bucket chains ----------

  /** `head` starts the chain `c`, linked both ways. */
  ghost predicate ChainLinks(head: Item?, c: seq<Item>)
    reads c`hhNext, c`hhPrev
  {
    && head == First(c)
    && (forall i :: 0 <= i < |c| - 1 ==> c[i].hhNext == c[i + 1])
    && (forall i :: 0 < i < |c| ==> c[i].hhPrev == c[i - 1])
    && (c != [] ==> c[0].hhPrev == null && c[|c| - 1].hhNext == null)
  }

  /** Every item is in the bucket its hash names, once. */
  ghost predicate Placed(chains: seq<seq<Item>>) {
    forall b :: 0 <= b < |chains| ==>
      Distinct(chains[b]) && forall i :: 0 <= i < |chains[b]| ==> chains[b][i].hashv % |chains| == b
  }

  /** The buckets hold `chains`, with the right heads and counts. */
  ghost predicate Linked(buckets: seq<Bucket>, chains: seq<seq<Item>>, nodes: set<Item>)
    reads nodes`hhNext, nodes`hhPrev
  {
    && |buckets| == |chains|
    && (forall b, i :: 0 <= b < |chains| && 0 <= i < |chains[b]| ==> chains[b][i] in nodes)
    && (forall b :: 0 <= b < |chains| ==> ChainLinks(buckets[b].head, chains[b]) && buckets[b].count == |chains[b]|)
  }

  /** Puts `e` in front of the chain `c`. */
  method PushHead(e: Item, head: Item?, ghost c: seq<Item>)
    requires ChainLinks(head, c) && Distinct(c) && e !in c
    modifies e`hhNext, e`hhPrev, c`hhPrev
    ensures ChainLinks(e, [e] + c)
  {
    e.hhNext := head;
    e.hhPrev := null;
    if head != null { head.hhPrev := e; }
  }

  /** Puts `e` into its bucket. */
  method AddToBucket(e: Item, b: nat, buckets: seq<Bucket>, ghost chains: seq<seq<Item>>, ghost nodes: set<Item>)
    returns (buckets': seq<Bucket>)
    requires Linked(buckets, chains, nodes) && Placed(chains) && e in nodes
    requires |buckets| > 0 && b == e.hashv % |buckets| && e !in chains[b]
    modifies e`hhNext, e`hhPrev, chains[b]`hhPrev
    ensures var chains' := chains[b := [e] + chains[b]];
      Linked(buckets', chains', nodes) && Placed(chains')
    ensures buckets' == buckets[b := buckets[b].(head := e, count := buckets[b].count + 1)]
  {
    PushHead(e, buckets[b].head, chains[b]);
    buckets' := buckets[b := buckets[b].(head := e, count := buckets[b].count + 1)];
  }

  // ---------- doubling the buckets ----------

  /** `head` starts the chain `c`, linked forward. */
  ghost predicate Forward(head: Item?, c: seq<Item>)
    reads c`hhNext
  {
    && head == First(c)
    && (forall i :: 0 <= i < |c| - 1 ==> c[i].hhNext == c[i + 1])
    && (c != [] ==> c[|c| - 1].hhNext == null)
  }

  ghost function Lengths(chains: seq<seq<Item>>): (r: seq<nat>)
    ensures |r| == |chains| && forall b :: 0 <= b < |r| ==> r[b] == |chains[b]|
  {
    seq(|chains|, b requires 0 <= b < |chains| => |chains[b]|)
  }

  /** Where `e` is, if it is anywhere. */
  ghost predicate Holds(chains: seq<seq<Item>>, e: Item) {
    |chains| > 0 && e in chains[e.hashv % |chains|]
  }

  lemma RetuneKeepsLinks(buckets: seq<Bucket>, chains: seq<seq<Item>>, nodes: set<Item>, b: nat, mult: nat)
    requires Linked(buckets, chains, nodes) && b < |buckets|
    ensures Linked(buckets[b := buckets[b].(expandMult := mult)], chains, nodes)
  {
  }

  lemma OneLonger(chains: seq<seq<Item>>, b: nat, e: Item, ideal: nat)
    requires b < |chains|
    ensures var chains' := chains[b := [e] + chains[b]];
      && Total(Lengths(chains')) == Total(Lengths(chains)) + 1
      && TotalExcess(Lengths(chains'), ideal) == TotalExcess(Lengths(chains), ideal) + if |chains[b]| + 1 > ideal then 1 else 0
  {
    OneMore(Lengths(chains), b, ideal);
    assert Lengths(chains[b := [e] + chains[b]]) == Lengths(chains)[b := |chains[b]| + 1];
  }

  /** Moves one item to the front of its new bucket. */
  method MoveItem(e: Item, buckets: seq<Bucket>, ideal: nat, nonideal: nat, ghost chains: seq<seq<Item>>, ghost nodes: set<Item>)
    returns (buckets': seq<Bucket>, nonideal': nat, ghost chains': seq<seq<Item>>)
    requires Linked(buckets, chains, nodes) && Placed(chains) && e in nodes && |chains| > 0 && !Holds(chains, e)
    requires ideal > 0 && nonideal == TotalExcess(Lengths(chains), ideal)
    modifies e`hhNext, nodes`hhPrev
    ensures Linked(buckets', chains', nodes) && Placed(chains') && |chains'| == |chains|
    ensures forall x :: Holds(chains', x) <==> Holds(chains, x) || x == e
    ensures nonideal' == TotalExcess(Lengths(chains'), ideal) && Total(Lengths(chains')) == Total(Lengths(chains)) + 1
    ensures var b := e.hashv % |buckets|;
      var n := buckets[b].count + 1;
      && nonideal' == nonideal + (if n > ideal then 1 else 0)
      && buckets' == buckets[b := Bucket(e, n, if n > ideal then n / ideal else buckets[b].expandMult)]
  {
    var b := e.hashv % |buckets|;
    nonideal' := nonideal;
    chains' := chains[b := [e] + chains[b]];
    OneLonger(chains, b, e, ideal);
    buckets' := AddToBucket(e, b, buckets, chains, nodes);
    HoldsAfterMove(chains, e, chains');
    if buckets'[b].count > ideal {
      nonideal' := nonideal + 1;
      RetuneKeepsLinks(buckets', chains', nodes, b, buckets'[b].count / ideal);
      buckets' := buckets'[b := buckets'[b].(expandMult := buckets'[b].count / ideal)];
    }
  }

  /** What is left to move: `rest`, linked forward from `head`, none of it moved yet. */
  ghost predicate Unmoved(head: Item?, rest: seq<Item>, chains: seq<seq<Item>>, nodes: set<Item>)
    reads rest`hhNext
  {
    && Forward(head, rest) && Distinct(rest)
    && forall i :: 0 <= i < |rest| ==> rest[i] in nodes && !Holds(chains, rest[i])
  }

  /** The new buckets, so far. */
  ghost predicate Filled(buckets: seq<Bucket>, chains: seq<seq<Item>>, nodes: set<Item>, ideal: nat, nonideal: nat)
    reads nodes`hhNext, nodes`hhPrev
  {
    && Linked(buckets, chains, nodes) && Placed(chains) && |chains| > 0
    && nonideal == TotalExcess(Lengths(chains), ideal)
  }

  /** Moves the first item that is left. */
  method MoveFirst(e: Item, buckets: seq<Bucket>, ideal: nat, nonideal: nat,
                   ghost rest: seq<Item>, ghost chains: seq<seq<Item>>, ghost nodes: set<Item>)
    returns (nxt: Item?, buckets': seq<Bucket>, nonideal': nat, ghost chains': seq<seq<Item>>)
    requires Filled(buckets, chains, nodes, ideal, nonideal) && ideal > 0
    requires rest != [] && e == rest[0] && Unmoved(e, rest, chains, nodes)
    modifies e`hhNext, nodes`hhPrev
    ensures Filled(buckets', chains', nodes, ideal, nonideal') && |chains'| == |chains|
    ensures Unmoved(nxt, rest[1..], chains', nodes)
    ensures forall x :: Holds(chains', x) <==> Holds(chains, x) || x == e
    ensures Total(Lengths(chains')) == Total(Lengths(chains)) + 1
  {
    nxt := e.hhNext;
    UnmovedTail(e, rest, chains, nodes);
    buckets', nonideal', chains' := MoveItem(e, buckets, ideal, nonideal, chains, nodes);
  }

  lemma UnmovedTail(e: Item, rest: seq<Item>, chains: seq<seq<Item>>, nodes: set<Item>)
    requires rest != [] && e == rest[0] && Unmoved(e, rest, chains, nodes)
    ensures e in nodes && !Holds(chains, e)
    ensures Unmoved(e.hhNext, rest[1..], chains, nodes)
    ensures e !in rest[1..] && forall i :: 0 <= i < |rest[1..]| ==> rest[1..][i] != e
  {
    assert forall i :: 0 <= i < |rest| - 1 ==> rest[1..][i] == rest[i + 1];
  }

  /** Moves the items of one old chain. */
  method MoveChain(head: Item?, buckets0: seq<Bucket>, ideal: nat, nonideal0: nat,
                   ghost c: seq<Item>, ghost chains0: seq<seq<Item>>, ghost nodes: set<Item>)
    returns (buckets: seq<Bucket>, nonideal: nat, ghost chains: seq<seq<Item>>)
    requires Filled(buckets0, chains0, nodes, ideal, nonideal0) && (c != [] ==> ideal > 0)
    requires Unmoved(head, c, chains0, nodes)
    modifies c`hhNext, nodes`hhPrev
    ensures Filled(buckets, chains, nodes, ideal, nonideal) && |chains| == |chains0|
    ensures forall x :: Holds(chains, x) <==> Holds(chains0, x) || x in c
    ensures Total(Lengths(chains)) == Total(Lengths(chains0)) + |c|
  {
    var thh := head;
    buckets, nonideal, chains := buckets0, nonideal0, chains0;
    ghost var rest := c;
    while thh != null
      invariant Filled(buckets, chains, nodes, ideal, nonideal) && |chains| == |chains0|
      invariant Unmoved(thh, rest, chains, nodes)
      invariant forall x :: x in rest ==> x in c
      invariant forall x :: Holds(chains, x) || x in rest <==> Holds(chains0, x) || x in c
      invariant Total(Lengths(chains)) + |rest| == Total(Lengths(chains0)) + |c|
      decreases |rest|
    {
      thh, buckets, nonideal, chains := MoveFirst(thh, buckets, ideal, nonideal, rest, chains, nodes);
      rest := rest[1..];
    }
  }

  lemma HoldsAfterMove(chains: seq<seq<Item>>, e: Item, chains': seq<seq<Item>>)
    requires |chains| > 0 && chains' == chains[e.hashv % |chains| := [e] + chains[e.hashv % |chains|]]
    ensures forall x :: Holds(chains', x) <==> Holds(chains, x) || x == e
  {
  }

  /** The old chains from position `i` on are still to be moved. */
  ghost predicate Pending(i: nat, buckets: seq<Bucket>, chains: seq<seq<Item>>, chains': seq<seq<Item>>, nodes: set<Item>)
    requires |buckets| == |chains|
    reads nodes`hhNext
  {
    forall j :: i <= j < |chains| ==>
      && (forall k :: 0 <= k < |chains[j]| ==> chains[j][k] in nodes)
      && Unmoved(buckets[j].head, chains[j], chains', nodes)
  }

  function EmptyBuckets(n: nat): (r: seq<Bucket>)
    ensures |r| == n && forall b :: 0 <= b < n ==> r[b] == Bucket(null, 0, 0)
  {
    seq(n, _ => Bucket(null, 0, 0))
  }

  ghost function EmptyChains(n: nat): (r: seq<seq<Item>>)
    ensures |r| == n && forall b :: 0 <= b < n ==> r[b] == []
  {
    seq(n, _ => [])
  }

  lemma EmptyIsFilled(n: nat, nodes: set<Item>, ideal: nat)
    requires n > 0
    ensures Filled(EmptyBuckets(n), EmptyChains(n), nodes, ideal, 0)
    ensures forall x :: !Holds(EmptyChains(n), x)
    ensures Total(Lengths(EmptyChains(n))) == 0
  {
    NoItems(Lengths(EmptyChains(n)), ideal);
  }

  lemma AllPending(buckets: seq<Bucket>, chains: seq<seq<Item>>, chains': seq<seq<Item>>, nodes: set<Item>)
    requires Linked(buckets, chains, nodes) && Placed(chains) && forall x :: !Holds(chains', x)
    ensures Pending(0, buckets, chains, chains', nodes)
  {
  }

  /** Moves every item into twice as many buckets. */
  method Rehash(buckets: seq<Bucket>, ideal: nat, ghost chains: seq<seq<Item>>, ghost nodes: set<Item>)
    returns (buckets': seq<Bucket>, nonideal: nat, ghost chains': seq<seq<Item>>)
    requires Linked(buckets, chains, nodes) && Placed(chains) && |chains| > 0
    requires forall b :: 0 <= b < |chains| && chains[b] != [] ==> ideal > 0
    modifies nodes`hhNext, nodes`hhPrev
    ensures Filled(buckets', chains', nodes, ideal, nonideal) && |chains'| == 2 * |chains|
    ensures forall x :: Holds(chains', x) <==> Holds(chains, x)
    ensures Total(Lengths(chains')) == Total(Lengths(chains))
  {
    buckets', nonideal, chains' := EmptyBuckets(2 * |buckets|), 0, EmptyChains(2 * |buckets|);
    EmptyIsFilled(2 * |buckets|, nodes, ideal);
    AllPending(buckets, chains, chains', nodes);
    var i := 0;
    while i < |buckets|
      invariant i <= |buckets| && Filled(buckets', chains', nodes, ideal, nonideal) && |chains'| == 2 * |chains|
      invariant Pending(i, buckets, chains, chains', nodes)
      invariant forall x :: Holds(chains', x) <==> x.hashv % |chains| < i && Holds(chains, x)
      invariant Total(Lengths(chains')) + Total(Lengths(chains)[i..]) == Total(Lengths(chains))
    {
      ChainsDisjoint(chains, i);
      assert Lengths(chains)[i..][1..] == Lengths(chains)[i + 1..];
      buckets', nonideal, chains' := MoveBucket(i, buckets, buckets', ideal, nonideal, chains, chains', nodes);
      i := i + 1;
    }
  }

  /** Moves the items of old bucket `i`. */
  method MoveBucket(i: nat, olds: seq<Bucket>, buckets: seq<Bucket>, ideal: nat, nonideal: nat,
                    ghost chains: seq<seq<Item>>, ghost chains': seq<seq<Item>>, ghost nodes: set<Item>)
    returns (buckets': seq<Bucket>, nonideal': nat, ghost chains'': seq<seq<Item>>)
    requires Filled(buckets, chains', nodes, ideal, nonideal) && Placed(chains) && i < |chains| == |olds|
    requires Pending(i, olds, chains, chains', nodes) && (chains[i] != [] ==> ideal > 0)
    modifies nodes`hhNext, nodes`hhPrev
    ensures Filled(buckets', chains'', nodes, ideal, nonideal') && |chains''| == |chains'|
    ensures Pending(i + 1, olds, chains, chains'', nodes)
    ensures forall x :: Holds(chains'', x) <==> Holds(chains', x) || x in chains[i]
    ensures Total(Lengths(chains'')) == Total(Lengths(chains')) + |chains[i]|
  {
    ChainsDisjoint(chains, i);
    buckets', nonideal', chains'' := MoveChain(olds[i].head, buckets, ideal, nonideal, chains[i], chains', nodes);
  }

  lemma ChainsDisjoint(chains: seq<seq<Item>>, i: nat)
    requires Placed(chains) && i < |chains|
    ensures forall j, k :: 0 <= j < |chains| && j != i && 0 <= k < |chains[j]| ==> chains[j][k] !in chains[i]
    ensures forall x: Item :: x in chains[i] <==> x.hashv % |chains| == i && Holds(chains, x)
  {
  }

  // ---------- removal from a chain ----------

  function Without<T>(s: seq<T>, k: nat): seq<T>
    requires k < |s|
  {
    s[..k] + s[k + 1..]
  }

  lemma WithoutAt<T>(s: seq<T>, k: nat)
    requires k < |s|
    ensures |Without(s, k)| == |s| - 1
    ensures forall i :: 0 <= i < |s| - 1 ==> Without(s, k)[i] == s[if i < k then i else i + 1]
  {
  }

  /** Unlinks `e`, position `k` of the chain `c`; returns the new head. */
  method UnlinkHh(e: Item, head: Item?, ghost c: seq<Item>, ghost k: nat) returns (head': Item?)
    requires k < |c| && e == c[k] && ChainLinks(head, c) && Distinct(c)
    modifies c`hhNext, c`hhPrev
    ensures ChainLinks(head', Without(c, k))
  {
    WithoutAt(c, k);
    assert (k > 0 ==> e.hhPrev == c[k - 1]) && (k == 0 ==> e.hhPrev == null);
    assert (k + 1 < |c| ==> e.hhNext == c[k + 1]) && (k + 1 == |c| ==> e.hhNext == null);
    head' := if head == e then e.hhNext else head;
    if e.hhPrev != null { e.hhPrev.hhNext := e.hhNext; }
    if e.hhNext != null { e.hhNext.hhPrev := e.hhPrev; }
  }

  /** Unlinks `e`, position `k` of its bucket `b`. */
  method UnlinkInBucket(e: Item, b: nat, buckets: seq<Bucket>, ghost k: nat, ghost chains: seq<seq<Item>>, ghost nodes: set<Item>)
    returns (buckets': seq<Bucket>)
    requires Linked(buckets, chains, nodes) && Placed(chains) && b < |chains| && k < |chains[b]| && e == chains[b][k]
    modifies nodes`hhNext, nodes`hhPrev
    ensures Linked(buckets', chains[b := Without(chains[b], k)], nodes)
  {
    WithoutAt(chains[b], k);
    ChainsDisjoint(chains, b);
    var head := UnlinkHh(e, buckets[b].head, chains[b], k);
    buckets' := buckets[b := buckets[b].(head := head, count := buckets[b].count - 1)];
  }

  /** Removes `e` from its bucket. */
  method DelInBucket(e: Item, buckets: seq<Bucket>, ghost chains: seq<seq<Item>>, ghost nodes: set<Item>)
    returns (buckets': seq<Bucket>, ghost chains': seq<seq<Item>>)
    requires Linked(buckets, chains, nodes) && Placed(chains) && Holds(chains, e)
    modifies nodes`hhNext, nodes`hhPrev
    ensures Linked(buckets', chains', nodes) && Placed(chains') && |chains'| == |chains|
    ensures forall x :: Holds(chains', x) <==> Holds(chains, x) && x != e
    ensures Total(Lengths(chains')) == Total(Lengths(chains)) - 1
  {
    var b := e.hashv % |buckets|;
    ghost var k :| 0 <= k < |chains[b]| && chains[b][k] == e;
    chains' := chains[b := Without(chains[b], k)];
    RemovedTotal(chains, b, k);
    RemovedFromChain(chains, b, k);
    buckets' := UnlinkInBucket(e, b, buckets, k, chains, nodes);
  }

  lemma RemovedFromChain(chains: seq<seq<Item>>, b: nat, k: nat)
    requires Placed(chains) && b < |chains| && k < |chains[b]|
    ensures var chains' := chains[b := Without(chains[b], k)];
      Placed(chains') && forall x :: Holds(chains', x) <==> Holds(chains, x) && x != chains[b][k]
  {
    var c := chains[b];
    WithoutAt(c, k);
    assert forall x :: x in Without(c, k) <==> x in c && x != c[k];
  }

  lemma RemovedTotal(chains: seq<seq<Item>>, b: nat, k: nat)
    requires b < |chains| && k < |chains[b]|
    ensures Total(Lengths(chains[b := Without(chains[b], k)])) == Total(Lengths(chains)) - 1
  {
    var chains' := chains[b := Without(chains[b], k)];
    OneMore(Lengths(chains'), b, 0);
    assert Lengths(chains) == Lengths(chains')[b := Lengths(chains')[b] + 1];
  }

  // ---------- application order ----------

  ghost predicate AppLinks(s: seq<Item>)
    reads s`next, s`prev
  {
    && (forall i :: 0 <= i < |s| - 1 ==> s[i].next == s[i + 1])
    && (forall i :: 0 < i < |s| ==> s[i].prev == s[i - 1])
    && (s != [] ==> s[0].prev == null && s[|s| - 1].next == null)
  }

  /** Links `e` after the tail of `s`. */
  method AppendApp(e: Item, tail: Item?, ghost s: seq<Item>)
    requires AppLinks(s) && Distinct(s) && e !in s && tail == Last(s)
    modifies e`next, e`prev, s`next
    ensures AppLinks(s + [e])
  {
    e.next := null;
    if tail != null { tail.next := e; }
    e.prev := tail;
  }

  /** Unlinks `e`, position `k` of `s`; returns the new head and tail. */
  method UnlinkApp(e: Item, head: Item?, tail: Item?, ghost s: seq<Item>, ghost k: nat) returns (head': Item?, tail': Item?)
    requires k < |s| && e == s[k] && AppLinks(s) && Distinct(s) && head == First(s) && tail == Last(s)
    modifies s`next, s`prev
    ensures AppLinks(Without(s, k)) && head' == First(Without(s, k)) && tail' == Last(Without(s, k))
  {
    WithoutAt(s, k);
    assert (k > 0 ==> e.prev == s[k - 1]) && (k == 0 ==> e.prev == null);
    assert (k + 1 < |s| ==> e.next == s[k + 1]) && (k + 1 == |s| ==> e.next == null);
    head', tail' := head, tail;
    if e == tail { tail' := e.prev; }
    if e.prev != null { e.prev.next := e.next; } else { head' := e.next; }
    if e.next != null { e.next.prev := e.prev; }
  }

  const INITIAL_NUM_BUCKETS: nat := 32
  const INITIAL_NUM_BUCKETS_LOG2: nat := 5
  const BKT_CAPACITY_THRESH: nat := 10

  /** The bucket array holds exactly the items of `nodes`. */
  ghost predicate BucketsOk(buckets: seq<Bucket>, chains: seq<seq<Item>>, log2: nat, items: nat, nodes: set<Item>)
    reads nodes`hhNext, nodes`hhPrev
  {
    && |buckets| == Pow2(log2)
    && Linked(buckets, chains, nodes) && Placed(chains)
    && (forall x :: x in nodes ==> Holds(chains, x))
    && Total(Lengths(chains)) == items
  }

  ghost function Nodes(s: seq<Item>): set<Item> { set x | x in s }

  /** UT_hash_table. */
  datatype Table = Table(buckets: seq<Bucket>, log2: nat, items: nat, tail: Item?, ideal: nat, nonideal: nat, ineffExpands: nat, noexpand: bool)

  const NEW_TABLE := Table(EmptyBuckets(INITIAL_NUM_BUCKETS), INITIAL_NUM_BUCKETS_LOG2, 0, null, 0, 0, 0, false)

  /** HASH_FSCK's verdict: HASH_OOPS on the first thing out of order. */
  datatype Verdict = Clean | Oops

  /** HASH_FSCK's first pass, and more: the bucket chains hold exactly `nodes`, each in the bucket of its hash,
      with all back-links, heads and counts right. */
  ghost function FsckBuckets(t: Table, chains: seq<seq<Item>>, nodes: set<Item>): Verdict
    reads nodes`hhNext, nodes`hhPrev
  {
    if BucketsOk(t.buckets, chains, t.log2, t.items, nodes) then Clean else Oops
  }

  /** HASH_EXPAND_BUCKETS: the same items in twice as many buckets. `nonideal` counts the items beyond the
      ideal chain length; two ineffective expansions in a row inhibit further ones. */
  method Expand(t: Table, ghost chains: seq<seq<Item>>, ghost nodes: set<Item>)
    returns (t': Table, ghost chains': seq<seq<Item>>)
    requires FsckBuckets(t, chains, nodes) == Clean
    modifies nodes`hhNext, nodes`hhPrev
    ensures FsckBuckets(t', chains', nodes) == Clean && |t'.buckets| == 2 * |t.buckets| && t'.log2 == t.log2 + 1
    ensures t'.items == t.items && t'.tail == t.tail
    ensures t'.ideal == IdealMaxLen(t.items, t.log2, |t.buckets|)
    ensures t'.nonideal == TotalExcess(Lengths(chains'), t'.ideal)
    ensures t'.ineffExpands == if t'.nonideal > t.items / 2 then t.ineffExpands + 1 else 0
    ensures t'.noexpand == (t.noexpand || t'.ineffExpands > 1)
  {
    assert Pow2(t.log2 + 1) == 2 * Pow2(t.log2);
    var ideal := IdealMaxLen(t.items, t.log2, |t.buckets|);
    IdealEnough(t.items, t.log2, |t.buckets|, chains);
    var buckets, nonideal;
    buckets, nonideal, chains' := Rehash(t.buckets, ideal, chains, nodes);
    var ineffExpands := if nonideal > t.items / 2 then t.ineffExpands + 1 else 0;
    t' := Table(buckets, t.log2 + 1, t.items, t.tail, ideal, nonideal, ineffExpands, t.noexpand || ineffExpands > 1);
  }

  lemma AddedToChain(chains: seq<seq<Item>>, b: nat, e: Item)
    requires |chains| > 0 && b == e.hashv % |chains|
    ensures var chains' := chains[b := [e] + chains[b]];
      && (forall x :: Holds(chains', x) <==> Holds(chains, x) || x == e)
      && Total(Lengths(chains')) == Total(Lengths(chains)) + 1
  {
    HoldsAfterMove(chains, e, chains[b := [e] + chains[b]]);
    OneLonger(chains, b, e, 0);
  }

  lemma WidenLinks(buckets: seq<Bucket>, chains: seq<seq<Item>>, nodes: set<Item>, e: Item)
    requires Linked(buckets, chains, nodes - {e})
    ensures Linked(buckets, chains, nodes)
  {
  }

  /** The table with `e` in its bucket. */
  method PutInBucket(e: Item, b: nat, t: Table, ghost chains: seq<seq<Item>>, ghost nodes: set<Item>)
    returns (t': Table, ghost chains': seq<seq<Item>>)
    requires e in nodes && FsckBuckets(t, chains, nodes - {e}) == Clean && !Holds(chains, e) && b == e.hashv % |t.buckets|
    modifies nodes`hhNext, nodes`hhPrev
    ensures FsckBuckets(t', chains', nodes) == Clean
    ensures t' == t.(items := t.items + 1, buckets := t.buckets[b := Bucket(e, t.buckets[b].count + 1, t.buckets[b].expandMult)])
  {
    chains' := chains[b := [e] + chains[b]];
    AddedToChain(chains, b, e);
    WidenLinks(t.buckets, chains, nodes, e);
    var buckets := AddToBucket(e, b, t.buckets, chains, nodes);
    t' := t.(buckets := buckets, items := t.items + 1);
  }

  /** HASH_ADD_TO_BKT: puts `e` into its bucket, and expands when the bucket has grown too long. */
  method InsertInBucket(e: Item, t: Table, ghost chains: seq<seq<Item>>, ghost nodes: set<Item>)
    returns (t': Table, ghost chains': seq<seq<Item>>)
    requires e in nodes && FsckBuckets(t, chains, nodes - {e}) == Clean && !Holds(chains, e)
    modifies nodes`hhNext, nodes`hhPrev
    ensures FsckBuckets(t', chains', nodes) == Clean && t'.items == t.items + 1 && t'.tail == t.tail
    ensures var b := e.hashv % |t.buckets|;
      |t'.buckets| == if t.buckets[b].count + 1 >= 10 * (t.buckets[b].expandMult + 1) && !t.noexpand
                      then 2 * |t.buckets| else |t.buckets|
  {
    var b := e.hashv % |t.buckets|;
    t', chains' := PutInBucket(e, b, t, chains, nodes);
    if t'.buckets[b].count >= (t'.buckets[b].expandMult + 1) * BKT_CAPACITY_THRESH && !t'.noexpand {
      t', chains' := Expand(t', chains', nodes);
    }
  }

  lemma IdealEnough(items: nat, log2: nat, buckets: nat, chains: seq<seq<Item>>)
    requires buckets == Pow2(log2) && Total(Lengths(chains)) == items
    ensures forall b :: 0 <= b < |chains| && chains[b] != [] ==> IdealMaxLen(items, log2, buckets) > 0
  {
    SomeItem(chains);
    if items > 0 { IdealPositive(items, log2, buckets); }
  }

  /** HASH_FSCK's second pass, and more: the application order is `order`, with all links, the head, the tail
      and the count right. */
  ghost function FsckOrder(head: Item?, tail: Item?, items: nat, order: seq<Item>): Verdict
    reads order`next, order`prev
  {
    if head == First(order) && Distinct(order) && (order != [] ==> tail == Last(order) && items == |order| && AppLinks(order))
    then Clean else Oops
  }

  /** HASH_FSCK: the bucket chains and the application order hold the same items. */
  ghost function Fsck(head: Item?, t: Table, order: seq<Item>, chains: seq<seq<Item>>): Verdict
    reads order
  {
    if FsckOrder(head, t.tail, t.items, order) == Clean && (order != [] ==> FsckBuckets(t, chains, Nodes(order)) == Clean)
    then Clean else Oops
  }

  /** The first half of HASH_ADD_KEYPTR: `e` becomes the last item in application order, and a first item gets
      a new table. */
  method AppendItem(e: Item, head: Item?, t: Table, ghost order: seq<Item>, ghost chains: seq<seq<Item>>)
    returns (head': Item, t': Table, ghost chains': seq<seq<Item>>)
    requires Fsck(head, t, order, chains) == Clean && e !in order
    modifies order`next, e`next, e`prev
    ensures FsckOrder(head', e, |order| + 1, order + [e]) == Clean && t'.tail == e
    ensures t'.items == |order| && FsckBuckets(t', chains', Nodes(order + [e]) - {e}) == Clean && !Holds(chains', e)
    ensures order == [] ==> |t'.buckets| == 32 && forall b :: 0 <= b < 32 ==> t'.buckets[b] == Bucket(null, 0, 0)
  {
    AppendApp(e, if head == null then null else t.tail, order);
    if head == null {
      NewTableOk();
      assert Nodes(order) == {};
      head', t', chains' := e, NEW_TABLE.(tail := e), EmptyChains(INITIAL_NUM_BUCKETS);
    } else {
      head', t', chains' := head, t.(tail := e), chains;
    }
    NodesAppended(order, e);
  }

  lemma NodesAppended(order: seq<Item>, e: Item)
    requires e !in order
    ensures Nodes(order + [e]) - {e} == Nodes(order)
  {
  }

  /** The second half of HASH_ADD_KEYPTR: the last item of `order` goes into its bucket. */
  method FinishAdd(e: Item, head: Item, t: Table, ghost order: seq<Item>, ghost chains: seq<seq<Item>>)
    returns (t': Table, ghost chains': seq<seq<Item>>)
    requires FsckOrder(head, t.tail, t.items + 1, order) == Clean && e in order
    requires FsckBuckets(t, chains, Nodes(order) - {e}) == Clean && !Holds(chains, e)
    modifies order`hhNext, order`hhPrev
    ensures Fsck(head, t', order, chains') == Clean
    ensures t.buckets[e.hashv % |t.buckets|].count == 0 ==> |t'.buckets| == |t.buckets|
  {
    t', chains' := InsertInBucket(e, t, chains, Nodes(order));
  }

  /** HASH_ADD_KEYPTR. */
  method AddItem(e: Item, head: Item?, t: Table, ghost order: seq<Item>, ghost chains: seq<seq<Item>>)
    returns (head': Item, t': Table, ghost chains': seq<seq<Item>>)
    requires Fsck(head, t, order, chains) == Clean && e !in order
    modifies order, e
    ensures Fsck(head', t', order + [e], chains') == Clean
    ensures order == [] ==> |t'.buckets| == 32
  {
    head', t', chains' := AppendItem(e, head, t, order, chains);
    t', chains' := FinishAdd(e, head', t', order + [e], chains');
  }

  /** The first half of HASH_DELETE: the item at position `k` leaves the application order. */
  method DetachItem(e: Item, head: Item?, t: Table, ghost order: seq<Item>, ghost k: nat, ghost chains: seq<seq<Item>>)
    returns (head': Item?, t': Table)
    requires Fsck(head, t, order, chains) == Clean && k < |order| && e == order[k]
    modifies order`next, order`prev
    ensures t'.items > 0 && FsckOrder(head', t'.tail, t'.items - 1, Without(order, k)) == Clean
    ensures FsckBuckets(t', chains, Nodes(order)) == Clean
  {
    WithoutAt(order, k);
    var tail;
    head', tail := UnlinkApp(e, head, t.tail, order, k);
    t' := t.(tail := tail);
  }

  /** The second half of HASH_DELETE: `e`, no longer in application order, leaves its bucket. */
  method FinishDelete(e: Item, head: Item?, t: Table, ghost order: seq<Item>, ghost nodes: set<Item>, ghost chains: seq<seq<Item>>)
    returns (t': Table, ghost chains': seq<seq<Item>>)
    requires t.items > 0 && FsckOrder(head, t.tail, t.items - 1, order) == Clean
    requires FsckBuckets(t, chains, nodes) == Clean && e in nodes && Nodes(order) == nodes - {e}
    modifies nodes`hhNext, nodes`hhPrev
    ensures Fsck(head, t', order, chains') == Clean
  {
    t', chains' := DropFromBuckets(e, t, chains, nodes);
  }

  method DropFromBuckets(e: Item, t: Table, ghost chains: seq<seq<Item>>, ghost nodes: set<Item>)
    returns (t': Table, ghost chains': seq<seq<Item>>)
    requires t.items > 0 && FsckBuckets(t, chains, nodes) == Clean && e in nodes
    modifies nodes`hhNext, nodes`hhPrev
    ensures FsckBuckets(t', chains', nodes - {e}) == Clean && t'.tail == t.tail && t'.items == t.items - 1
  {
    var buckets;
    buckets, chains' := DelInBucket(e, t.buckets, chains, nodes);
    NarrowLinks(buckets, chains', nodes, e);
    t' := t.(buckets := buckets, items := t.items - 1);
  }

  /** HASH_DELETE of the item at position `k`; deleting the only item frees the table. */
  method DeleteItem(e: Item, head: Item?, t: Table, ghost order: seq<Item>, ghost k: nat, ghost chains: seq<seq<Item>>)
    returns (head': Item?, t': Table, ghost chains': seq<seq<Item>>)
    requires Fsck(head, t, order, chains) == Clean && k < |order| && e == order[k]
    modifies order
    ensures Fsck(head', t', Without(order, k), chains') == Clean
  {
    assert (k > 0 ==> e.prev == order[k - 1]) && (k + 1 < |order| ==> e.next == order[k + 1]);
    if e.prev == null && e.next == null {
      assert Without(order, k) == [];
      head', t', chains' := null, t, chains;
    } else {
      WithoutNodes(order, k);
      head', t' := DetachItem(e, head, t, order, k, chains);
      t', chains' := FinishDelete(e, head', t', Without(order, k), Nodes(order), chains);
    }
  }

  lemma WithoutNodes(order: seq<Item>, k: nat)
    requires k < |order| && Distinct(order)
    ensures Distinct(Without(order, k))
    ensures forall x :: x in Without(order, k) <==> x in order && x != order[k]
    ensures Nodes(Without(order, k)) == Nodes(order) - {order[k]}
  {
    WithoutAt(order, k);
    assert forall x :: x in Without(order, k) <==> x in order && x != order[k];
  }

  lemma NarrowLinks(buckets: seq<Bucket>, chains: seq<seq<Item>>, nodes: set<Item>, e: Item)
    requires Linked(buckets, chains, nodes) && Placed(chains) && !Holds(chains, e)
    ensures Linked(buckets, chains, nodes - {e})
  {
  }

  /** The items in application order, the bucket chains, and the map they stand for. */
  datatype View = View(order: seq<Item>, chains: seq<seq<Item>>, model: map<string, Item>)

  class HashTable {
    const hash: string -> nat
    var head: Item?
    // the table, which exists while the head is not null
    var tbl: Table
    ghost var view: View

    /** The structure is sound, and keys are distinct: it stands for the map `view.model`. */
    ghost predicate Valid()
      reads this, view.order
    {
      Fsck(head, tbl, view.order, view.chains) == Clean && Represents(view.order, view.model, hash)
    }

    constructor (hash: string -> nat)
      ensures Valid() && view.order == [] && view.model == map[] && this.hash == hash
    {
      this.hash := hash;
      tbl := NEW_TABLE;
      head, view := null, View([], [], map[]);
    }

    /** HASH_FIND: agrees with a plain map. */
    method Find(key: string) returns (out: Item?)
      requires Valid()
      ensures out == if key in view.model then view.model[key] else null
    {
      out := null;
      if head != null {
        out := FindInBucket(key, hash(key), tbl, view.chains, Nodes(view.order));
        FoundIffModelled(view.order, view.model, hash, key);
      }
    }

    /** Takes over a sound table. */
    method Become(head: Item?, tbl: Table, ghost view: View)
      requires Fsck(head, tbl, view.order, view.chains) == Clean && Represents(view.order, view.model, hash)
      modifies this
      ensures Valid() && this.view == view
    {
      this.head, this.tbl, this.view := head, tbl, view;
    }

    /** HASH_ADD_KEYPTR of an item whose key is not in the table. */
    method Add(e: Item)
      requires Valid() && e.key !in view.model && e.hashv == hash(e.key)
      modifies this, view.order, e
      ensures Valid() && view.order == old(view.order) + [e] && view.model == old(view.model)[e.key := e]
    {
      AddedItem(view.order, view.model, hash, e);
      ghost var order, model := view.order + [e], view.model[e.key := e];
      var h, t;
      ghost var chains;
      h, t, chains := AddItem(e, head, tbl, view.order, view.chains);
      Become(h, t, View(order, chains, model));
    }

    /** HASH_DELETE of an item of the table. */
    method Delete(e: Item) returns (ghost k: nat)
      requires Valid() && e in view.order
      modifies this, view.order
      ensures Valid() && view.model == old(view.model) - {e.key}
      ensures k < |old(view.order)| && old(view.order)[k] == e && view.order == Without(old(view.order), k)
      ensures forall x: Item :: x in view.order ==> x in old(view.order)
    {
      k :| 0 <= k < |view.order| && view.order[k] == e;
      DeletedItem(view.order, view.model, hash, k);
      WithoutNodes(view.order, k);
      ghost var order, model := Without(view.order, k), view.model - {e.key};
      var h, t;
      ghost var chains;
      h, t, chains := DeleteItem(e, head, tbl, view.order, k, view.chains);
      Become(h, t, View(order, chains, model));
    }

    /** HASH_REPLACE: a plain map update, which returns the item that was there. */
    method Replace(e: Item) returns (replaced: Item?)
      requires Valid() && e !in view.order && e.hashv == hash(e.key)
      modifies this, view.order, e
      ensures Valid() && view.model == old(view.model)[e.key := e]
      ensures forall x: Item :: x in view.order ==> x in old(view.order) || x == e
      ensures replaced == if e.key in old(view.model) then old(view.model)[e.key] else null
    {
      ReplacedModel(view.model, e.key, e);
      replaced := Find(e.key);
      if replaced != null {
        ghost var k := Delete(replaced);
      }
      Add(e);
    }
  }

  lemma ReplacedModel(m: map<string, Item>, key: string, e: Item)
    ensures (m - {key})[key := e] == m[key := e] && key !in m - {key}
  {
  }

  lemma DeletedItem(order: seq<Item>, m: map<string, Item>, hash: string -> nat, k: nat)
    requires Represents(order, m, hash) && Distinct(order) && k < |order|
    ensures Represents(Without(order, k), m - {order[k].key}, hash)
  {
    WithoutAt(order, k);
    WithoutNodes(order, k);
  }

  lemma NewTableOk()
    ensures FsckBuckets(NEW_TABLE, EmptyChains(INITIAL_NUM_BUCKETS), {}) == Clean
    ensures forall x :: !Holds(EmptyChains(INITIAL_NUM_BUCKETS), x)
  {
    EmptyIsFilled(INITIAL_NUM_BUCKETS, {}, 0);
    assert Pow2(5) == 32;
  }

  lemma AddedItem(order: seq<Item>, m: map<string, Item>, hash: string -> nat, e: Item)
    requires Represents(order, m, hash) && e.key !in m && e.hashv == hash(e.key)
    ensures Represents(order + [e], m[e.key := e], hash)
  {
  }

  lemma FoundIffModelled(order: seq<Item>, m: map<string, Item>, hash: string -> nat, key: string)
    requires Represents(order, m, hash)
    ensures forall x :: x in order && x.key == key ==> key in m && m[key] == x
    ensures key in m ==> m[key] in order && m[key].key == key && m[key].hashv == hash(key)
  {
  }

  /** Walks the bucket of hash `h` for an item with the given key. */
  method FindInBucket(key: string, h: nat, t: Table, ghost chains: seq<seq<Item>>, ghost nodes: set<Item>)
    returns (out: Item?)
    requires FsckBuckets(t, chains, nodes) == Clean
    ensures out != null ==> out in nodes && out.key == key
    ensures out == null ==> forall x :: x in nodes && x.hashv == h ==> x.key != key
  {
    var b := h % |t.buckets|;
    ghost var c, k := chains[b], 0;
    out := t.buckets[b].head;
    while out != null
      invariant 0 <= k <= |c| && out == First(c[k..])
      invariant forall i :: 0 <= i < k ==> c[i].key != key
      decreases |c| - k
    {
      assert out == c[k];
      if out.key == key { return; }
      out := out.hhNext;
      k := k + 1;
    }
  }

  lemma SomeItem(chains: seq<seq<Item>>)
    ensures forall b :: 0 <= b < |chains| && chains[b] != [] ==> Total(Lengths(chains)) > 0
  {
    forall b | 0 <= b < |chains| && chains[b] != [] ensures Total(Lengths(chains)) > 0 {
      TotalAtLeast(Lengths(chains), b);
    }
  }

  /** The items of `order` are those of the map `m`, each under its key and with its hash. */
  ghost predicate Represents(order: seq<Item>, m: map<string, Item>, hash: string -> nat) {
    && (forall i :: 0 <= i < |order| ==> order[i].key in m && m[order[i].key] == order[i] && order[i].hashv == hash(order[i].key))
    && (forall k :: k in m ==> m[k] in order && m[k].key == k)
  }

  // ---------- sorting ----------

  /** What HASH_SRT needs of its sort: new links for the same items in another order, with the bucket links, heads and
      counts untouched, leave a sound table for the same map. */
  lemma SortedFsck(head: Item?, t: Table, order: seq<Item>, order': seq<Item>, chains: seq<seq<Item>>, m: map<string, Item>, hash: string -> nat)
    requires order != [] && FsckBuckets(t, chains, Nodes(order)) == Clean && t.items == |order| && Distinct(order) && Represents(order, m, hash)
    requires multiset(order') == multiset(order) && AppLinks(order') && head == First(order')
    ensures Fsck(head, t.(tail := Last(order')), order', chains) == Clean && Represents(order', m, hash)
  {
    PermutedItems(order, order');
    assert Nodes(order') == Nodes(order);
    forall i | 0 <= i < |order'| ensures order'[i].key in m && m[order'[i].key] == order'[i] && order'[i].hashv == hash(order'[i].key) {
      assert order'[i] in order;
    }
  }

  lemma PermutedItems(order: seq<Item>, order': seq<Item>)
    requires Distinct(order) && multiset(order') == multiset(order)
    ensures |order'| == |order| && Distinct(order') && forall x :: x in order' <==> x in order
  {
    assert |multiset(order')| == |multiset(order)|;
    forall x ensures x in order' <==> x in order {
      assert x in order' <==> x in multiset(order');
      assert x in order <==> x in multiset(order);
    }
    forall i, j | 0 <= i < j < |order'| ensures order'[i] != order'[j] {
      if order'[i] == order'[j] {
        TwiceCounted(order', i, j);
        OnceCounted(order, order'[i]);
      }
    }
  }

  lemma TwiceCounted(s: seq<Item>, i: nat, j: nat)
    requires i < j < |s| && s[i] == s[j]
    ensures multiset(s)[s[i]] >= 2
  {
    var a, b := s[..j], s[j..];
    assert s == a + b;
    assert a[i] in multiset(a) && b[0] in multiset(b);
    assert multiset(s) == multiset(a) + multiset(b);
  }

  lemma {:induction false} OnceCounted(s: seq<Item>, x: Item)
    requires Distinct(s)
    ensures multiset(s)[x] <= 1
  {
    if s != [] {
      var rest := s[1..];
      assert s == [s[0]] + rest;
      assert forall i :: 0 <= i < |rest| ==> rest[i] == s[i + 1];
      OnceCounted(rest, x);
      assert s[0] !in rest;
    }
  }

  // ---------- sequences of operations ----------

  /** One call on the table: add an item whose key is not there yet, replace, delete if there, or look up. */
  datatype Op = OpAdd(key: string) | OpReplace(key: string) | OpDelete(key: string) | OpFind(key: string)

  /** What operation number `n` does to a plain map from keys to the numbers of the operations that stored them. */
  function Effect(op: Op, n: nat, m: map<string, nat>): map<string, nat> {
    match op
    case OpAdd(key) => if key in m then m else m[key := n]
    case OpReplace(key) => m[key := n]
    case OpDelete(key) => m - {key}
    case OpFind(_) => m
  }

  /** Which operation stored the item that is there. */
  function Lookup(m: map<string, nat>, key: string): Option<nat> { if key in m then Some(m[key]) else None }

  /** What a plain map answers to the operations from number `n` on. */
  function Answers(ops: seq<Op>, n: nat, m: map<string, nat>): seq<Option<nat>>
    requires n <= |ops|
    decreases |ops| - n
  {
    if n == |ops| then [] else [Lookup(m, ops[n].key)] + Answers(ops, n + 1, Effect(ops[n], n, m))
  }

  /** The items of the table carry the tags of `m`. */
  ghost predicate Tagged(model: map<string, Item>, m: map<string, nat>) {
    && (forall k :: k in model <==> k in m)
    && (forall k :: k in model ==> model[k].tag == m[k])
  }

  lemma TaggedWith(model: map<string, Item>, m: map<string, nat>, e: Item)
    requires Tagged(model, m)
    ensures Tagged(model[e.key := e], m[e.key := e.tag])
  {
  }

  /** Adds or replaces `key`, with an item tagged `n`. */
  method Store(table: HashTable, key: string, n: nat, replace: bool, ghost m: map<string, nat>)
    requires table.Valid() && Tagged(table.view.model, m) && (replace || key !in table.view.model)
    modifies table, table.view.order
    ensures table.Valid() && Tagged(table.view.model, m[key := n])
    ensures forall x: Item :: x in table.view.order ==> x in old(table.view.order) || fresh(x)
  {
    var e := new Item(key, table.hash, n);
    TaggedWith(table.view.model, m, e);
    if replace {
      var replaced := table.Replace(e);
    } else {
      table.Add(e);
    }
  }

  /** Deletes `e`. */
  method Discard(table: HashTable, e: Item, ghost m: map<string, nat>)
    requires table.Valid() && Tagged(table.view.model, m) && e in table.view.order
    modifies table, table.view.order
    ensures table.Valid() && Tagged(table.view.model, m - {e.key})
    ensures forall x: Item :: x in table.view.order ==> x in old(table.view.order)
  {
    ghost var k := table.Delete(e);
  }

  /** Operation number `n`. */
  method Perform(table: HashTable, op: Op, n: nat, ghost m: map<string, nat>) returns (answer: Option<nat>)
    requires table.Valid() && Tagged(table.view.model, m)
    modifies table, table.view.order
    ensures table.Valid() && Tagged(table.view.model, Effect(op, n, m)) && answer == Lookup(m, op.key)
    ensures forall x: Item :: x in table.view.order ==> x in old(table.view.order) || fresh(x)
  {
    var out := table.Find(op.key);
    answer := if out == null then None else Some(out.tag);
    if op.OpReplace? || (op.OpAdd? && out == null) {
      Store(table, op.key, n, op.OpReplace?, m);
    } else if op.OpDelete? && out != null {
      Discard(table, out, m);
    }
  }

  lemma AnswersNext(answers: seq<Option<nat>>, ops: seq<Op>, n: nat, m: map<string, nat>)
    requires n < |ops|
    ensures answers + Answers(ops, n, m) == answers + [Lookup(m, ops[n].key)] + Answers(ops, n + 1, Effect(ops[n], n, m))
  {
  }

  /** Operation `j` changes what is stored under its key: a replacement or a deletion, or an addition that found nothing. */
  predicate Changes(op: Op, answer: Option<nat>) { op.OpReplace? || op.OpDelete? || (op.OpAdd? && answer == None) }

  /** Of the operations before number `n`, number `j` is the last that changed what is stored under `key`. */
  ghost predicate LastChange(ops: seq<Op>, answers: seq<Option<nat>>, n: nat, key: string, j: int)
    requires n <= |ops| == |answers|
  {
    && 0 <= j < n && ops[j].key == key && Changes(ops[j], answers[j])
    && forall i :: j < i < n ==> !(ops[i].key == key && Changes(ops[i], answers[i]))
  }

  /** Operation `n` finds the item that the last change of its key stored, and nothing after a deletion or without one. */
  ghost predicate FindsLast(ops: seq<Op>, answers: seq<Option<nat>>, n: nat)
    requires n < |ops| == |answers|
  {
    && (forall j :: LastChange(ops, answers, n, ops[n].key, j) ==> answers[n] == if ops[j].OpDelete? then None else Some(j))
    && ((forall j :: !LastChange(ops, answers, n, ops[n].key, j)) ==> answers[n] == None)
  }

  /** What a plain map holds before operation `n`. */
  function Before(ops: seq<Op>, n: nat): map<string, nat>
    requires n <= |ops|
  {
    if n == 0 then map[] else Effect(ops[n - 1], n - 1, Before(ops, n - 1))
  }

  lemma {:induction false} AnswersAt(ops: seq<Op>, n: nat, i: nat)
    requires n <= i < |ops|
    ensures |Answers(ops, n, Before(ops, n))| == |ops| - n
    ensures Answers(ops, n, Before(ops, n))[i - n] == Lookup(Before(ops, i), ops[i].key)
    decreases |ops| - n
  {
    AnswersLength(ops, n, Before(ops, n));
    if n < i { AnswersAt(ops, n + 1, i); }
  }

  lemma {:induction false} AnswersLength(ops: seq<Op>, n: nat, m: map<string, nat>)
    requires n <= |ops|
    ensures |Answers(ops, n, m)| == |ops| - n
    decreases |ops| - n
  {
    if n < |ops| { AnswersLength(ops, n + 1, Effect(ops[n], n, m)); }
  }

  /** The plain map holds under `key` what the last change before operation `n` stored. */
  ghost predicate HoldsLast(ops: seq<Op>, answers: seq<Option<nat>>, n: nat, key: string, found: Option<nat>)
    requires n <= |ops| == |answers|
  {
    && (forall j :: LastChange(ops, answers, n, key, j) ==> found == if ops[j].OpDelete? then None else Some(j))
    && ((forall j :: !LastChange(ops, answers, n, key, j)) ==> found == None)
  }

  lemma LastChangeNext(ops: seq<Op>, answers: seq<Option<nat>>, n: nat, next: nat, key: string)
    requires next == n + 1 <= |ops| == |answers|
    ensures ops[n].key == key && Changes(ops[n], answers[n]) ==> LastChange(ops, answers, next, key, n)
    ensures forall j :: LastChange(ops, answers, next, key, j) ==>
      if ops[n].key == key && Changes(ops[n], answers[n]) then j == n else LastChange(ops, answers, n, key, j)
    ensures forall j :: LastChange(ops, answers, n, key, j) && !(ops[n].key == key && Changes(ops[n], answers[n])) ==>
      LastChange(ops, answers, next, key, j)
  {
  }

  lemma HoldsLastNext(ops: seq<Op>, answers: seq<Option<nat>>, n: nat, next: nat, key: string, m: map<string, nat>)
    requires next == n + 1 <= |ops| == |answers| && answers[n] == Lookup(m, ops[n].key)
    requires HoldsLast(ops, answers, n, key, Lookup(m, key))
    ensures HoldsLast(ops, answers, next, key, Lookup(Effect(ops[n], n, m), key))
  {
    LastChangeNext(ops, answers, n, next, key);
  }

  ghost predicate AnsweredFrom(ops: seq<Op>, answers: seq<Option<nat>>, i: nat)
    requires i < |ops| == |answers|
  {
    answers[i] == Lookup(Before(ops, i), ops[i].key)
  }

  lemma BeforeNext(ops: seq<Op>, n: nat, m: map<string, nat>, next: map<string, nat>)
    requires n < |ops| && Before(ops, n) == m && next == Effect(ops[n], n, m)
    ensures Before(ops, n + 1) == next
  {
  }

  lemma {:induction false} MapHoldsLast(ops: seq<Op>, answers: seq<Option<nat>>, n: nat, key: string)
    requires n <= |ops| == |answers| && forall i :: 0 <= i < |ops| ==> AnsweredFrom(ops, answers, i)
    ensures HoldsLast(ops, answers, n, key, Lookup(Before(ops, n), key))
  {
    if n > 0 {
      MapHoldsLast(ops, answers, n - 1, key);
      var m := Before(ops, n - 1);
      assert AnsweredFrom(ops, answers, n - 1);
      BeforeNext(ops, n - 1, m, Effect(ops[n - 1], n - 1, m));
      HoldsLastNext(ops, answers, n - 1, n, key, m);
    }
  }

  /** A plain map's answers, in terms of the operations alone. */
  lemma AnswersFindLast(ops: seq<Op>)
    ensures var answers := Answers(ops, 0, map[]); |answers| == |ops| && forall n :: 0 <= n < |ops| ==> FindsLast(ops, answers, n)
  {
    var answers := Answers(ops, 0, map[]);
    AnswersLength(ops, 0, map[]);
    forall i | 0 <= i < |ops| ensures AnsweredFrom(ops, answers, i) { AnswersAt(ops, 0, i); }
    forall n | 0 <= n < |ops| ensures FindsLast(ops, answers, n) {
      MapHoldsLast(ops, answers, n, ops[n].key);
      assert AnsweredFrom(ops, answers, n);
    }
  }

  /** Every sequence of operations on a new table, through any number of expansions and for every hash function,
      finds the items that a plain map holds. */
  method Operate(hash: string -> nat, ops: seq<Op>) returns (answers: seq<Option<nat>>)
    ensures |answers| == |ops| && forall n :: 0 <= n < |ops| ==> FindsLast(ops, answers, n)
  {
    AnswersFindLast(ops);
    answers := PerformAll(hash, ops);
  }

  method PerformAll(hash: string -> nat, ops: seq<Op>) returns (answers: seq<Option<nat>>)
    ensures answers == Answers(ops, 0, map[])
  {
    var table := new HashTable(hash);
    answers := [];
    ghost var m: map<string, nat> := map[];
    for n := 0 to |ops|
      invariant table.Valid() && fresh(table) && Tagged(table.view.model, m)
      invariant forall x: Item :: x in table.view.order ==> fresh(x)
      invariant answers + Answers(ops, n, m) == Answers(ops, 0, map[])
    {
      AnswersNext(answers, ops, n, m);
      var answer := Perform(table, ops[n], n, m);
      answers := answers + [answer];
      m := Effect(ops[n], n, m);
    }
  }
}
