/** The in-place list sorts of hw4/src/utlist.h (LL_SORT2, DL_SORT2, CDL_SORT2) and
    hw4/src/uthash.h (HASH_SRT). They are one algorithm, Simon Tatham's bottom-up merge sort,
    and differ in the links they keep. */
module ListSort {
  import opened SortSpec

  class Node<T> {
    const data: T
    var next: Node?<T>
    var prev: Node?<T>

    constructor (data: T)
      ensures this.data == data && next == null && prev == null
    {
      this.data, next, prev := data, null, null;
    }
  }

  /** Which links a list keeps: `next` alone; a `prev` that leads from the head to the tail; the same in a
      ring; or a `prev` that is null at the head. */
  datatype Style = Singly | Doubly | Circular | Hashed

  function ByData<T>(cmp: (T, T) -> int): Order<Node<T>> {
    (a: Node<T>, b: Node<T>) => cmp(a.data, b.data) <= 0
  }

  // ---------- lists as sequences of nodes ----------

  function First<T>(s: seq<Node<T>>): Node?<T> { if s == [] then null else s[0] }

  function Last<T>(s: seq<Node<T>>): Node?<T> { if s == [] then null else s[|s| - 1] }

  ghost predicate Distinct<T>(s: seq<Node<T>>) {
    forall i, j :: 0 <= i < j < |s| ==> s[i] != s[j]
  }

  /** Each node of `s` leads to the following one, and the last one to `end`. */
  ghost predicate Chain<T>(s: seq<Node<T>>, end: Node?<T>)
    reads s`next
  {
    && (forall i :: 0 <= i < |s| - 1 ==> s[i].next == s[i + 1])
    && (s != [] ==> s[|s| - 1].next == end)
  }

  /** Each node of `s` but the last leads to the following one. */
  ghost predicate Links<T>(s: seq<Node<T>>)
    reads s`next
  {
    forall i :: 0 <= i < |s| - 1 ==> s[i].next == s[i + 1]
  }

  ghost predicate BackLinks<T>(style: Style, s: seq<Node<T>>)
    reads s`prev
  {
    style != Singly ==>
      && (s != [] ==> s[0].prev == null)
      && (forall i :: 0 < i < |s| ==> s[i].prev == s[i - 1])
  }

  lemma NotLast<T>(o: seq<Node<T>>, e: Node<T>)
    requires Distinct(o + [e])
    ensures e !in o && forall i :: 0 <= i < |o| ==> o[i] != e && (o + [e])[i] == o[i]
    ensures Distinct(o)
  {
    assert (o + [e])[|o|] == e;
    assert forall i :: 0 <= i < |o| ==> (o + [e])[i] == o[i];
  }

  /** Appends `e` to the output list `o`. */
  method Emit<T>(style: Style, e: Node<T>, list: Node?<T>, tail: Node?<T>, ghost o: seq<Node<T>>) returns (list': Node<T>)
    requires Links(o) && BackLinks(style, o) && list == First(o) && tail == Last(o) && Distinct(o + [e])
    modifies o`next, e`prev
    ensures Links(o + [e]) && BackLinks(style, o + [e]) && list' == First(o + [e])
  {
    NotLast(o, e);
    if tail != null {
      tail.next := e;
      list' := list;
    } else {
      list' := e;
    }
    if style != Singly {
      e.prev := tail;
    }
  }

  /** The node after `x`, where the chain ends at `stop`. */
  method Following<T>(x: Node<T>, stop: Node?<T>) returns (y: Node?<T>)
    ensures y == if x.next == stop then null else x.next
  {
    y := if x.next == stop then null else x.next;
  }

  /** The state of a merge: `o` has been output, `ps` is left of the first run, and `mo` is the rest of the
      input, of which the second run is a part. */
  ghost predicate Merging<T>(style: Style, o: seq<Node<T>>, ps: seq<Node<T>>, mo: seq<Node<T>>, stop: Node?<T>)
    reads o, ps, mo
  {
    && Links(o) && BackLinks(style, o) && Links(ps) && Chain(mo, stop)
    && Distinct(o + ps + mo)
    && (stop != null ==> stop !in Drop(ps, 1) && stop !in mo)
  }

  /** Moves the first node of `ps` to the output. */
  method TakeFirst<T>(style: Style, p: Node<T>, stop: Node?<T>, list: Node?<T>, tail: Node?<T>,
                      ghost o: seq<Node<T>>, ghost ps: seq<Node<T>>, ghost mo: seq<Node<T>>)
    returns (p': Node?<T>, list': Node<T>)
    requires Merging(style, o, ps, mo, stop) && ps != [] && p == ps[0] && list == First(o) && tail == Last(o)
    modifies o`next, p`prev
    ensures Merging(style, o + [p], ps[1..], mo, stop) && list' == First(o + [p])
    ensures |ps| > 1 ==> p' == ps[1]
  {
    p' := Following(p, stop);
    DistinctParts(o, ps, mo);
    assert |ps| > 1 ==> ps[1] in Drop(ps, 1);
    list' := Emit(style, p, list, tail, o);
    FirstMoved(o, ps, mo);
  }

  /** Moves the first node of `mo` to the output. */
  method TakeSecond<T>(style: Style, q: Node<T>, stop: Node?<T>, list: Node?<T>, tail: Node?<T>,
                       ghost o: seq<Node<T>>, ghost ps: seq<Node<T>>, ghost mo: seq<Node<T>>)
    returns (q': Node?<T>, list': Node<T>)
    requires Merging(style, o, ps, mo, stop) && mo != [] && q == mo[0] && list == First(o) && tail == Last(o)
    modifies o`next, q`prev
    ensures Merging(style, o + [q], ps, mo[1..], stop) && list' == First(o + [q])
    ensures q' == First(mo[1..])
  {
    q' := Following(q, stop);
    DistinctParts(o, ps, mo);
    assert |mo| > 1 ==> mo[1] in mo;
    list' := Emit(style, q, list, tail, o);
    DistinctMoved(o, ps, mo);
  }

  lemma DistinctParts<T>(o: seq<Node<T>>, ps: seq<Node<T>>, mo: seq<Node<T>>)
    requires Distinct(o + ps + mo)
    ensures Distinct(o) && Distinct(ps) && Distinct(mo)
    ensures forall x :: x in o ==> x !in ps && x !in mo
    ensures forall x :: x in ps ==> x !in mo
    ensures forall i :: 0 <= i < |ps| ==> ps[i] !in o
    ensures forall i :: 0 <= i < |mo| ==> mo[i] !in o
    ensures ps != [] ==> Distinct(o + [ps[0]]) && ps[0] !in ps[1..]
    ensures mo != [] ==> Distinct(o + [mo[0]]) && mo[0] !in mo[1..]
  {
    var all := o + ps + mo;
    assert forall i :: 0 <= i < |o| ==> all[i] == o[i];
    assert forall i :: 0 <= i < |ps| ==> all[|o| + i] == ps[i];
    assert forall i :: 0 <= i < |mo| ==> all[|o| + |ps| + i] == mo[i];
  }

  lemma FirstMoved<T>(o: seq<Node<T>>, ps: seq<Node<T>>, mo: seq<Node<T>>)
    requires ps != []
    ensures o + [ps[0]] + ps[1..] + mo == o + ps + mo
    ensures forall x :: x in Drop(ps[1..], 1) ==> x in Drop(ps, 1)
  {
  }

  lemma DistinctMoved<T>(o: seq<Node<T>>, ps: seq<Node<T>>, mo: seq<Node<T>>)
    requires Distinct(o + ps + mo) && mo != []
    ensures Distinct(o + [mo[0]] + ps + mo[1..])
  {
    DistinctParts(o, ps, mo);
    DistinctConcat(o + [mo[0]], ps);
    DistinctConcat(o + [mo[0]] + ps, mo[1..]);
  }

  lemma DistinctConcat<T>(a: seq<Node<T>>, b: seq<Node<T>>)
    requires Distinct(a) && Distinct(b) && forall x :: x in a ==> x !in b
    ensures Distinct(a + b)
  {
    forall i, j | 0 <= i < j < |a + b| ensures (a + b)[i] != (a + b)[j] {
      if i < |a| <= j {
        assert (a + b)[i] in a && (a + b)[j] in b;
      }
    }
  }

  lemma TakeCons<T>(s: seq<T>, k: nat)
    requires s != [] && k > 0
    ensures Take(s, k) == [s[0]] + Take(s[1..], k - 1) && Drop(s, k) == Drop(s[1..], k - 1)
  {
  }

  /** The next node a merge of `ps` and `qs` outputs, and what is left to merge. */
  lemma MergeNext<T>(leq: Order<T>, o: seq<T>, ps: seq<T>, qs: seq<T>)
    ensures ps != [] && (qs == [] || leq(ps[0], qs[0])) ==>
      o + Merge(leq, ps, qs) == o + [ps[0]] + Merge(leq, ps[1..], qs)
    ensures qs != [] && (ps == [] || !leq(ps[0], qs[0])) ==>
      o + Merge(leq, ps, qs) == o + [qs[0]] + Merge(leq, ps, qs[1..])
  {
    if ps != [] && (qs == [] || leq(ps[0], qs[0])) {
      MergeFirst(leq, ps, qs);
      Regroup(o, [ps[0]], Merge(leq, ps[1..], qs));
    } else if qs != [] {
      MergeSecond(leq, ps, qs);
      Regroup(o, [qs[0]], Merge(leq, ps, qs[1..]));
    }
  }

  lemma MergeFirst<T>(leq: Order<T>, ps: seq<T>, qs: seq<T>)
    requires ps != [] && (qs == [] || leq(ps[0], qs[0]))
    ensures Merge(leq, ps, qs) == [ps[0]] + Merge(leq, ps[1..], qs)
  {
    assert ps == [ps[0]] + ps[1..];
  }

  lemma MergeSecond<T>(leq: Order<T>, ps: seq<T>, qs: seq<T>)
    requires qs != [] && (ps == [] || !leq(ps[0], qs[0]))
    ensures Merge(leq, ps, qs) == [qs[0]] + Merge(leq, ps, qs[1..])
  {
    assert qs == [qs[0]] + qs[1..];
  }

  /** The merge's variables stand for its sequences. */
  ghost predicate Cursors<T>(p: Node?<T>, q: Node?<T>, psize: nat, list: Node?<T>, tail: Node?<T>,
                             o: seq<Node<T>>, ps: seq<Node<T>>, mo: seq<Node<T>>)
  {
    psize == |ps| && (ps != [] ==> p == ps[0]) && q == First(mo) && list == First(o) && tail == Last(o)
  }

  /** All nodes are in `all`. */
  ghost predicate Among<T>(all: set<Node<T>>, o: seq<Node<T>>, ps: seq<Node<T>>, mo: seq<Node<T>>) {
    (forall x :: x in o ==> x in all) && (forall x :: x in ps ==> x in all) && (forall x :: x in mo ==> x in all)
  }

  /** One iteration of the inner loop. */
  method MergeStep<T>(cmp: (T, T) -> int, style: Style, p: Node?<T>, q: Node?<T>, psize: nat, qsize: nat, stop: Node?<T>,
                      list: Node?<T>, tail: Node?<T>, ghost o: seq<Node<T>>, ghost ps: seq<Node<T>>, ghost mo: seq<Node<T>>)
    returns (p': Node?<T>, q': Node?<T>, psize': nat, qsize': nat, list': Node?<T>, tail': Node?<T>,
             ghost o': seq<Node<T>>, ghost ps': seq<Node<T>>, ghost mo': seq<Node<T>>)
    requires Merging(style, o, ps, mo, stop) && Cursors(p, q, psize, list, tail, o, ps, mo)
    requires psize > 0 || (qsize > 0 && q != null)
    modifies o, ps, mo
    ensures Merging(style, o', ps', mo', stop) && Cursors(p', q', psize', list', tail', o', ps', mo')
    ensures o' + Merge(ByData(cmp), ps', Take(mo', qsize')) == o + Merge(ByData(cmp), ps, Take(mo, qsize))
    ensures Drop(mo', qsize') == Drop(mo, qsize)
    ensures (ps' == ps && mo != [] && mo' == mo[1..] && o' == o + [mo[0]]) || (mo' == mo && ps != [] && ps' == ps[1..] && o' == o + [ps[0]])
    ensures ps != [] && mo != [] && qsize > 0 ==> (|mo'| == |mo| <==> cmp(ps[0].data, mo[0].data) <= 0)
  {
    MergeNext(ByData(cmp), o, ps, Take(mo, qsize));
    if psize == 0 || (qsize > 0 && q != null && cmp(p.data, q.data) > 0) {
      TakeCons(mo, qsize);
      q', list' := TakeSecond(style, q, stop, list, tail, o, ps, mo);
      p', psize', qsize', tail' := p, psize, qsize - 1, q;
      o', ps', mo' := o + [q], ps, mo[1..];
    } else {
      p', list' := TakeFirst(style, p, stop, list, tail, o, ps, mo);
      q', psize', qsize', tail' := q, psize - 1, qsize, p;
      o', ps', mo' := o + [p], ps[1..], mo;
    }
  }

  /** The inner loop: merges the first `psize` nodes from `p` with at most `qsize` from `q`. */
  method MergeRuns<T>(cmp: (T, T) -> int, style: Style, p0: Node<T>, q0: Node?<T>, psize0: nat, qsize0: nat, stop: Node?<T>,
                      list0: Node?<T>, tail0: Node?<T>, ghost o0: seq<Node<T>>, ghost ps0: seq<Node<T>>, ghost mo0: seq<Node<T>>,
                      ghost all: set<Node<T>>)
    returns (q: Node?<T>, list: Node?<T>, tail: Node?<T>, ghost o: seq<Node<T>>)
    requires Merging(style, o0, ps0, mo0, stop) && Cursors(p0, q0, psize0, list0, tail0, o0, ps0, mo0)
    requires Among(all, o0, ps0, mo0)
    modifies all
    ensures o == o0 + Merge(ByData(cmp), ps0, Take(mo0, qsize0))
    ensures Merging(style, o, [], Drop(mo0, qsize0), stop) && Among(all, o, [], Drop(mo0, qsize0))
    ensures q == First(Drop(mo0, qsize0)) && list == First(o) && tail == Last(o)
  {
    var p: Node?<T>, psize, qsize := p0, psize0, qsize0;
    q, list, tail, o := q0, list0, tail0, o0;
    ghost var ps, mo := ps0, mo0;
    while psize > 0 || (qsize > 0 && q != null)
      invariant Merging(style, o, ps, mo, stop) && Cursors(p, q, psize, list, tail, o, ps, mo) && Among(all, o, ps, mo)
      invariant o + Merge(ByData(cmp), ps, Take(mo, qsize)) == o0 + Merge(ByData(cmp), ps0, Take(mo0, qsize0))
      invariant Drop(mo, qsize) == Drop(mo0, qsize0)
      decreases |ps| + |mo|
    {
      p, q, psize, qsize, list, tail, o, ps, mo := MergeStep(cmp, style, p, q, psize, qsize, stop, list, tail, o, ps, mo);
    }
  }

  /** The state between two merges of a pass: `o` has been output, `mo` is the rest of the input. */
  ghost predicate Passing<T>(style: Style, o: seq<Node<T>>, mo: seq<Node<T>>, stop: Node?<T>)
    reads o, mo
  {
    && Links(o) && BackLinks(style, o) && Chain(mo, stop)
    && Distinct(o + mo)
    && (stop != null ==> stop !in Drop(mo, 1))
  }

  lemma PassingToMerging<T>(style: Style, o: seq<Node<T>>, mo: seq<Node<T>>, stop: Node?<T>, k: nat)
    requires Passing(style, o, mo, stop) && k > 0
    ensures Merging(style, o, Take(mo, k), Drop(mo, k), stop)
  {
    ChainCut(mo, stop, k);
    TailCut(mo, k);
    Cut(mo, k);
    Regroup(o, Take(mo, k), Drop(mo, k));
  }

  lemma ChainCut<T>(s: seq<Node<T>>, stop: Node?<T>, k: nat)
    requires Chain(s, stop)
    ensures Links(Take(s, k)) && Chain(Drop(s, k), stop)
  {
    var more := Drop(s, k);
    assert forall i :: 0 <= i < |more| ==> more[i] == s[k + i];
  }

  lemma TailCut<T>(s: seq<T>, k: nat)
    requires k > 0
    ensures forall x :: x in Drop(Take(s, k), 1) ==> x in Drop(s, 1)
    ensures forall x :: x in Drop(s, k) ==> x in Drop(s, 1)
  {
    if |s| > 1 {
      assert forall i :: 1 <= i < |s| ==> s[i] == Drop(s, 1)[i - 1];
    }
  }

  lemma MergingToPassing<T>(style: Style, o: seq<Node<T>>, mo: seq<Node<T>>, stop: Node?<T>)
    requires Merging(style, o, [], mo, stop)
    ensures Passing(style, o, mo, stop)
  {
    assert o + [] + mo == o + mo;
  }

  /** Steps over the first `insize` nodes from `p`, or as many as there are. */
  method SplitRun<T>(p: Node<T>, insize: nat, stop: Node?<T>, ghost s: seq<Node<T>>) returns (q: Node?<T>, psize: nat)
    requires insize > 0 && s != [] && p == s[0] && Chain(s, stop) && (stop != null ==> stop !in Drop(s, 1))
    ensures psize == |Take(s, insize)| && q == First(Drop(s, insize))
  {
    q, psize := p, 0;
    var i := 0;
    while i < insize
      invariant 0 <= i <= insize && psize == i < |s| && q == s[i]
    {
      psize := psize + 1;
      assert i + 1 < |s| ==> s[i + 1] in Drop(s, 1);
      q := Following(q, stop);
      if q == null || i + 1 == insize { return; }
      i := i + 1;
    }
  }

  /** One pass over the list. */
  method OnePass<T>(cmp: (T, T) -> int, style: Style, list0: Node<T>, insize: nat, stop: Node?<T>,
                    ghost s: seq<Node<T>>, ghost all: set<Node<T>>)
    returns (list: Node?<T>, tail: Node?<T>, nmerges: nat, ghost o: seq<Node<T>>)
    requires insize > 0 && s != [] && list0 == s[0] && Passing(style, [], s, stop) && Among(all, s, [], [])
    modifies all
    ensures o == Pass(ByData(cmp), s, insize) && Links(o) && BackLinks(style, o) && Distinct(o) && Among(all, o, [], [])
    ensures list == First(o) && tail == Last(o) && (nmerges <= 1 <==> |s| <= 2 * insize)
  {
    var p: Node?<T> := list0;
    list, tail, nmerges, o := null, null, 0, [];
    ghost var mo := s;
    while p != null
      invariant Passing(style, o, mo, stop) && Among(all, o, [], mo)
      invariant p == First(mo) && list == First(o) && tail == Last(o)
      invariant o + Pass(ByData(cmp), mo, insize) == Pass(ByData(cmp), s, insize)
      invariant nmerges == 0 ==> mo == s
      invariant nmerges == 1 ==> mo == Drop(Drop(s, insize), insize)
      invariant nmerges > 1 ==> |s| > 2 * insize
      decreases |mo|
    {
      nmerges := nmerges + 1;
      p, list, tail, o, mo := MergePair(cmp, style, p, insize, stop, list, tail, o, mo, all);
    }
    assert o + [] == o;
  }

  /** One iteration of the pass: two runs are split off the input and merged. */
  method MergePair<T>(cmp: (T, T) -> int, style: Style, p: Node<T>, insize: nat, stop: Node?<T>,
                      list: Node?<T>, tail: Node?<T>, ghost o: seq<Node<T>>, ghost mo: seq<Node<T>>, ghost all: set<Node<T>>)
    returns (q: Node?<T>, list': Node?<T>, tail': Node?<T>, ghost o': seq<Node<T>>, ghost mo': seq<Node<T>>)
    requires insize > 0 && Passing(style, o, mo, stop) && Among(all, o, [], mo)
    requires mo != [] && p == mo[0] && list == First(o) && tail == Last(o)
    modifies all
    ensures Passing(style, o', mo', stop) && Among(all, o', [], mo')
    ensures mo' == Drop(Drop(mo, insize), insize) && |mo'| < |mo|
    ensures q == First(mo') && list' == First(o') && tail' == Last(o')
    ensures o' + Pass(ByData(cmp), mo', insize) == o + Pass(ByData(cmp), mo, insize)
  {
    var psize;
    q, psize := SplitRun(p, insize, stop, mo);
    ghost var ps, rest := Take(mo, insize), Drop(mo, insize);
    PassingToMerging(style, o, mo, stop, insize);
    assert Among(all, o, ps, rest) by { assert mo == ps + rest; }
    q, list', tail', o' := MergeRuns(cmp, style, p, q, psize, insize, stop, list, tail, o, ps, rest, all);
    mo' := Drop(rest, insize);
    MergingToPassing(style, o', mo', stop);
    Regroup(o, Merge(ByData(cmp), ps, Take(rest, insize)), Pass(ByData(cmp), mo', insize));
  }

  /** `s` linked as a list of the given style. */
  ghost predicate ListLinks<T>(style: Style, s: seq<Node<T>>)
    reads s
  {
    && Chain(s, if style.Circular? then First(s) else null)
    && (style != Singly ==> forall i :: 0 < i < |s| ==> s[i].prev == s[i - 1])
    && (style != Singly && s != [] ==> s[0].prev == if style.Hashed? then null else Last(s))
  }

  /** Closes the list that a pass has output. */
  method CloseList<T>(style: Style, list: Node<T>, tail: Node<T>, ghost s: seq<Node<T>>)
    requires s != [] && Links(s) && BackLinks(style, s) && Distinct(s) && list == First(s) && tail == Last(s)
    modifies s
    ensures ListLinks(style, s)
  {
    if style.Doubly? || style.Circular? { list.prev := tail; }
    tail.next := if style.Circular? then list else null;
  }

  /** The sort: passes with runs of 1, 2, 4, ... nodes until a pass needs no more than one merge. Whatever
      the comparison, the nodes are those of the specification, in its order, with every link of the style
      in place. Only the `next` links of the given list matter. */
  method Sort<T>(cmp: (T, T) -> int, style: Style, list0: Node?<T>, ghost s: seq<Node<T>>)
    returns (list: Node?<T>, tail: Node?<T>, ghost r: seq<Node<T>>)
    requires list0 == First(s) && Distinct(s) && Chain(s, if style.Circular? then First(s) else null)
    modifies s
    ensures r == if s == [] then [] else BottomUp(ByData(cmp), s, 1)
    ensures list == First(r) && tail == Last(r) && (s != [] ==> ListLinks(style, r))
  {
    list, tail, r := list0, null, s;
    if list == null { return; }
    ghost var all := set x | x in s;
    var insize := 1;
    var looping := true;
    ghost var sorted := BottomUp(ByData(cmp), s, 1);
    while looping
      invariant insize > 0 && r != [] && list == First(r) && Distinct(r) && Among(all, r, [], []) && |r| == |s|
      invariant Chain(r, if style.Circular? then First(r) else null)
      invariant looping ==> BottomUp(ByData(cmp), r, insize) == sorted
      invariant !looping ==> r == sorted && tail == Last(r) && ListLinks(style, r)
      decreases looping, |s| - insize
    {
      BottomUpNext(ByData(cmp), r, insize);
      looping, list, tail, r := PassAndClose(cmp, style, list, insize, r, all);
      insize := 2 * insize;
    }
  }

  lemma BottomUpNext<T>(leq: Order<T>, s: seq<T>, k: nat)
    requires k > 0
    ensures BottomUp(leq, s, k) == if |s| <= 2 * k then Pass(leq, s, k) else BottomUp(leq, Pass(leq, s, k), 2 * k)
  {
  }

  /** One pass with runs of `insize` nodes, and whether another one is needed. */
  method PassAndClose<T>(cmp: (T, T) -> int, style: Style, list0: Node<T>, insize: nat, ghost s: seq<Node<T>>, ghost all: set<Node<T>>)
    returns (looping: bool, list: Node<T>, tail: Node<T>, ghost r: seq<Node<T>>)
    requires insize > 0 && s != [] && list0 == s[0] && Distinct(s) && Among(all, s, [], [])
    requires Chain(s, if style.Circular? then First(s) else null)
    modifies all
    ensures r == Pass(ByData(cmp), s, insize) && |r| == |s| && Distinct(r) && Among(all, r, [], [])
    ensures list == First(r) && tail == Last(r) && ListLinks(style, r)
    ensures looping <==> |s| > 2 * insize
  {
    var stop := if style.Circular? then list0 else null;
    assert [] + s == s;
    var l, t, nmerges;
    l, t, nmerges, r := OnePass(cmp, style, list0, insize, stop, s, all);
    PassLength(ByData(cmp), s, insize);
    list, tail := l, t;
    CloseList(style, list, tail, r);
    looping := nmerges > 1;
  }

  /** What a caller gets: the same nodes; and, if the comparison is a total preorder on them, sorted, with
      nodes that compare equal in their old order. */
  method SortList<T>(cmp: (T, T) -> int, style: Style, list0: Node?<T>, ghost s: seq<Node<T>>)
    returns (list: Node?<T>, tail: Node?<T>, ghost r: seq<Node<T>>)
    requires list0 == First(s) && Distinct(s) && Chain(s, if style.Circular? then First(s) else null)
    modifies s
    ensures list == First(r) && tail == Last(r) && (s != [] ==> ListLinks(style, r))
    ensures multiset(r) == multiset(s)
    ensures Comparable(cmp, s) ==> Ascends(cmp, r) && Stable(cmp, s, r)
  {
    list, tail, r := Sort(cmp, style, list0, s);
    SortIsCorrect(ByData(cmp), s);
    if Comparable(cmp, s) { SortedMeans(cmp, s, r); }
  }

  /** `cmp(a, b) <= 0` holds one way or the other, or both, for any two data of `s`, and is transitive on them. */
  ghost predicate Comparable<T>(cmp: (T, T) -> int, s: seq<Node<T>>) {
    && (forall x, y :: x in s && y in s ==> cmp(x.data, y.data) <= 0 || cmp(y.data, x.data) <= 0)
    && (forall x, y, z :: x in s && y in s && z in s && cmp(x.data, y.data) <= 0 && cmp(y.data, z.data) <= 0 ==>
          cmp(x.data, z.data) <= 0)
  }

  ghost predicate Ascends<T>(cmp: (T, T) -> int, r: seq<Node<T>>) {
    forall i, j :: 0 <= i < j < |r| ==> cmp(r[i].data, r[j].data) <= 0
  }

  /** Nodes that compare equal are in their old order. */
  ghost predicate Stable<T>(cmp: (T, T) -> int, s: seq<Node<T>>, r: seq<Node<T>>) {
    forall x, y :: x in s && y in s && cmp(x.data, y.data) <= 0 && cmp(y.data, x.data) <= 0 ==> (Before(r, x, y) <==> Before(s, x, y))
  }

  lemma SortedMeans<T>(cmp: (T, T) -> int, s: seq<Node<T>>, r: seq<Node<T>>)
    requires Comparable(cmp, s)
    requires TotalPreorder(ByData(cmp), set x | x in s) ==> Sorted(ByData(cmp), r)
    requires TotalPreorder(ByData(cmp), set x | x in s) ==>
      forall x :: x in s ==> Class(ByData(cmp), x, r) == Class(ByData(cmp), x, s)
    ensures Ascends(cmp, r) && Stable(cmp, s, r)
  {
    assert TotalPreorder(ByData(cmp), set x | x in s);
    forall x, y | x in s && y in s && cmp(x.data, y.data) <= 0 && cmp(y.data, x.data) <= 0
      ensures Before(r, x, y) <==> Before(s, x, y)
    {
      SameOrder(ByData(cmp), s, r, x, y);
    }
  }
}
