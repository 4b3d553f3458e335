/** Bottom-up merge sort on sequences, and why it sorts: the specification of the list sorts in
    hw4/src/utlist.h and hw4/src/uthash.h. */
module SortSpec {

  type Order<!T> = (T, T) -> bool

  function Merge<T>(leq: Order<T>, p: seq<T>, q: seq<T>): seq<T>
    decreases |p| + |q|
  {
    if p == [] then q
    else if q == [] then p
    else if leq(p[0], q[0]) then [p[0]] + Merge(leq, p[1..], q)
    else [q[0]] + Merge(leq, p, q[1..])
  }

  function Take<T>(s: seq<T>, k: nat): seq<T> { if k < |s| then s[..k] else s }

  function Drop<T>(s: seq<T>, k: nat): seq<T> { if k < |s| then s[k..] else [] }

  /** One pass: runs of length `k` merged two by two. */
  function Pass<T>(leq: Order<T>, s: seq<T>, k: nat): seq<T>
    requires k > 0
    decreases |s|
  {
    if s == [] then []
    else
      var rest := Drop(s, k);
      Merge(leq, Take(s, k), Take(rest, k)) + Pass(leq, Drop(rest, k), k)
  }

  /** Passes with run lengths `k`, `2k`, `4k`, ... until one merge covers everything. */
  function BottomUp<T>(leq: Order<T>, s: seq<T>, k: nat): seq<T>
    requires k > 0
    decreases |s| - k
  {
    var r := Pass(leq, s, k);
    if |s| <= 2 * k then r
    else
      PassLength(leq, s, k);
      BottomUp(leq, r, 2 * k)
  }

  lemma {:induction false} MergeLength<T>(leq: Order<T>, p: seq<T>, q: seq<T>)
    ensures |Merge(leq, p, q)| == |p| + |q|
    decreases |p| + |q|
  {
    if p != [] && q != [] {
      if leq(p[0], q[0]) { MergeLength(leq, p[1..], q); } else { MergeLength(leq, p, q[1..]); }
    }
  }

  lemma {:induction false} PassLength<T>(leq: Order<T>, s: seq<T>, k: nat)
    requires k > 0
    ensures |Pass(leq, s, k)| == |s|
    decreases |s|
  {
    if s != [] {
      var rest := Drop(s, k);
      MergeLength(leq, Take(s, k), Take(rest, k));
      PassLength(leq, Drop(rest, k), k);
    }
  }

  // ---------- permutation, for every comparison ----------

  lemma HeadOff<T>(s: seq<T>)
    requires s != []
    ensures multiset(s) == multiset{s[0]} + multiset(s[1..])
  {
    assert s == [s[0]] + s[1..];
  }

  lemma {:induction false} MergePermutes<T>(leq: Order<T>, p: seq<T>, q: seq<T>)
    ensures multiset(Merge(leq, p, q)) == multiset(p) + multiset(q)
    decreases |p| + |q|
  {
    if p != [] && q != [] {
      if leq(p[0], q[0]) {
        MergePermutes(leq, p[1..], q);
        HeadOff(p);
      } else {
        MergePermutes(leq, p, q[1..]);
        HeadOff(q);
      }
    }
  }

  lemma Cut<T>(s: seq<T>, k: nat)
    ensures Take(s, k) + Drop(s, k) == s
  {
  }

  lemma {:induction false} PassPermutes<T>(leq: Order<T>, s: seq<T>, k: nat)
    requires k > 0
    ensures multiset(Pass(leq, s, k)) == multiset(s)
    decreases |s|
  {
    if s != [] {
      var rest := Drop(s, k);
      Cut(s, k);
      Cut(rest, k);
      MergePermutes(leq, Take(s, k), Take(rest, k));
      PassPermutes(leq, Drop(rest, k), k);
    }
  }

  // ---------- order ----------

  /** On the elements of `u`, `leq` compares any two and is transitive. */
  ghost predicate TotalPreorder<T>(leq: Order<T>, u: set<T>) {
    && (forall a, b :: a in u && b in u ==> leq(a, b) || leq(b, a))
    && (forall a, b, c :: a in u && b in u && c in u && leq(a, b) && leq(b, c) ==> leq(a, c))
  }

  ghost predicate Within<T>(s: seq<T>, u: set<T>) {
    forall i :: 0 <= i < |s| ==> s[i] in u
  }

  ghost predicate Sorted<T>(leq: Order<T>, s: seq<T>) {
    forall i, j :: 0 <= i < j < |s| ==> leq(s[i], s[j])
  }

  lemma {:induction false} MergeSorts<T>(leq: Order<T>, p: seq<T>, q: seq<T>, u: set<T>)
    requires TotalPreorder(leq, u) && Within(p, u) && Within(q, u) && Sorted(leq, p) && Sorted(leq, q)
    ensures Sorted(leq, Merge(leq, p, q))
    decreases |p| + |q|
  {
    if p != [] && q != [] {
      if leq(p[0], q[0]) {
        MergeSorts(leq, p[1..], q, u);
        LeastFirst(leq, p[0], p[1..], q, u);
      } else {
        MergeSorts(leq, p, q[1..], u);
        LeastFirst(leq, q[0], p, q[1..], u);
      }
    }
  }

  /** Putting a least element before a sorted merge. */
  lemma LeastFirst<T>(leq: Order<T>, x: T, p: seq<T>, q: seq<T>, u: set<T>)
    requires TotalPreorder(leq, u) && Within(p, u) && Within(q, u) && x in u
    requires Sorted(leq, p) && Sorted(leq, q) && Sorted(leq, Merge(leq, p, q))
    requires (p != [] ==> leq(x, p[0])) && (q != [] ==> leq(x, q[0]))
    ensures Sorted(leq, [x] + Merge(leq, p, q))
  {
    var m := Merge(leq, p, q);
    MergePermutes(leq, p, q);
    forall i | 0 <= i < |m| ensures leq(x, m[i]) {
      assert m[i] in multiset(m);
      if m[i] in p {
        var j :| 0 <= j < |p| && p[j] == m[i];
        assert p[0] in u && p[j] in u && (j > 0 ==> leq(p[0], p[j]));
      } else {
        var j :| 0 <= j < |q| && q[j] == m[i];
        assert q[0] in u && q[j] in u && (j > 0 ==> leq(q[0], q[j]));
      }
    }
  }

  /** Every aligned run of length `k` is sorted. */
  ghost predicate RunsSorted<T>(leq: Order<T>, s: seq<T>, k: nat)
    requires k > 0
    decreases |s|
  {
    s == [] || (Sorted(leq, Take(s, k)) && RunsSorted(leq, Drop(s, k), k))
  }

  lemma {:induction false} SingleRuns<T>(leq: Order<T>, s: seq<T>)
    ensures RunsSorted(leq, s, 1)
    decreases |s|
  {
    if s != [] { SingleRuns(leq, Drop(s, 1)); }
  }

  /** A pass doubles the length of the sorted runs. */
  lemma {:induction false} PassDoublesRuns<T>(leq: Order<T>, s: seq<T>, k: nat, u: set<T>)
    requires k > 0 && TotalPreorder(leq, u) && Within(s, u) && RunsSorted(leq, s, k)
    ensures RunsSorted(leq, Pass(leq, s, k), 2 * k)
    decreases |s|
  {
    if s != [] {
      var rest := Drop(s, k);
      var p, q, more := Take(s, k), Take(rest, k), Drop(rest, k);
      var m := Merge(leq, p, q);
      MergeSorts(leq, p, q, u);
      MergeLength(leq, p, q);
      PassDoublesRuns(leq, more, k, u);
      if |m| < 2 * k {
        assert more == [];
        assert m + [] == m;
      } else {
        assert Take(m + Pass(leq, more, k), 2 * k) == m;
        assert Drop(m + Pass(leq, more, k), 2 * k) == Pass(leq, more, k);
      }
    }
  }

  // ---------- stability ----------

  predicate Equivalent<T>(leq: Order<T>, a: T, b: T) { leq(a, b) && leq(b, a) }

  /** The elements of `s` equivalent to `x`, in order. */
  function Class<T>(leq: Order<T>, x: T, s: seq<T>): seq<T> {
    if s == [] then []
    else (if Equivalent(leq, x, s[0]) then [s[0]] else []) + Class(leq, x, s[1..])
  }

  lemma {:induction false} ClassConcat<T>(leq: Order<T>, x: T, s: seq<T>, t: seq<T>)
    ensures Class(leq, x, s + t) == Class(leq, x, s) + Class(leq, x, t)
    decreases |s|
  {
    if s == [] {
      assert s + t == t;
    } else {
      ClassConcat(leq, x, s[1..], t);
      assert s == [s[0]] + s[1..] && s + t == [s[0]] + (s[1..] + t);
      ClassFirst(leq, x, s[0], s[1..]);
      ClassFirst(leq, x, s[0], s[1..] + t);
    }
  }

  lemma {:induction false} ClassEmpty<T>(leq: Order<T>, x: T, s: seq<T>)
    requires forall i :: 0 <= i < |s| ==> !Equivalent(leq, x, s[i])
    ensures Class(leq, x, s) == []
  {
    if s != [] { ClassEmpty(leq, x, s[1..]); }
  }

  /** `x` occurs before `y`. */
  ghost predicate Before<T>(s: seq<T>, x: T, y: T) {
    exists i, j :: 0 <= i < j < |s| && s[i] == x && s[j] == y
  }

  lemma BeforeFirst<T>(s: seq<T>, x: T, y: T)
    requires s != []
    ensures Before(s, x, y) <==> (s[0] == x && y in s[1..]) || Before(s[1..], x, y)
  {
    var t := s[1..];
    if i, j :| 0 <= i < j < |s| && s[i] == x && s[j] == y {
      assert t[j - 1] == y;
      assert i > 0 ==> t[i - 1] == x;
    }
    if i, j :| 0 <= i < j < |t| && t[i] == x && t[j] == y { assert s[i + 1] == x && s[j + 1] == y; }
    if s[0] == x && y in t {
      var j :| 0 <= j < |t| && t[j] == y;
      assert s[j + 1] == y;
    }
  }

  lemma {:induction false} ClassHolds<T>(leq: Order<T>, x: T, s: seq<T>, y: T)
    requires Equivalent(leq, x, y)
    ensures y in Class(leq, x, s) <==> y in s
  {
    if s != [] {
      assert s == [s[0]] + s[1..];
      ClassHolds(leq, x, s[1..], y);
    }
  }

  /** Equivalent elements have the order in `s` that they have among those equivalent to them. */
  lemma {:induction false} ClassOrder<T>(leq: Order<T>, w: T, s: seq<T>, x: T, y: T)
    requires Equivalent(leq, w, x) && Equivalent(leq, w, y)
    ensures Before(Class(leq, w, s), x, y) <==> Before(s, x, y)
  {
    if s != [] {
      BeforeFirst(s, x, y);
      ClassOrder(leq, w, s[1..], x, y);
      ClassHolds(leq, w, s[1..], y);
      if Equivalent(leq, w, s[0]) {
        BeforeFirst(Class(leq, w, s), x, y);
        assert Class(leq, w, s)[1..] == Class(leq, w, s[1..]);
      } else {
        assert Class(leq, w, s) == Class(leq, w, s[1..]);
      }
    }
  }

  /** So sequences with the same classes have equivalent elements in the same order. */
  lemma SameOrder<T>(leq: Order<T>, s: seq<T>, r: seq<T>, x: T, y: T)
    requires Equivalent(leq, x, x) && Equivalent(leq, x, y) && Class(leq, x, r) == Class(leq, x, s)
    ensures Before(r, x, y) <==> Before(s, x, y)
  {
    ClassOrder(leq, x, s, x, y);
    ClassOrder(leq, x, r, x, y);
  }

  /** Nothing in a sorted run that starts above `y` is equivalent to `y`. */
  lemma ClassAbove<T>(leq: Order<T>, x: T, p: seq<T>, y: T, u: set<T>)
    requires TotalPreorder(leq, u) && Within(p, u) && Sorted(leq, p) && x in u && y in u
    requires p != [] && !leq(p[0], y) && Equivalent(leq, x, y)
    ensures Class(leq, x, p) == []
  {
    forall i | 0 <= i < |p| ensures !Equivalent(leq, x, p[i]) {
      assert p[i] in u && p[0] in u && (i > 0 ==> leq(p[0], p[i]));
    }
    ClassEmpty(leq, x, p);
  }

  lemma {:induction false} MergeStable<T>(leq: Order<T>, x: T, p: seq<T>, q: seq<T>, u: set<T>)
    requires TotalPreorder(leq, u) && Within(p, u) && Within(q, u) && Sorted(leq, p) && x in u
    ensures Class(leq, x, Merge(leq, p, q)) == Class(leq, x, p) + Class(leq, x, q)
    decreases |p| + |q|
  {
    if p != [] && q != [] {
      if leq(p[0], q[0]) {
        MergeStable(leq, x, p[1..], q, u);
        ClassFirst(leq, x, p[0], Merge(leq, p[1..], q));
      } else {
        MergeStable(leq, x, p, q[1..], u);
        ClassFirst(leq, x, q[0], Merge(leq, p, q[1..]));
        if Equivalent(leq, x, q[0]) { ClassAbove(leq, x, p, q[0], u); }
      }
    }
  }

  lemma ClassFirst<T>(leq: Order<T>, x: T, a: T, s: seq<T>)
    ensures Class(leq, x, [a] + s) == (if Equivalent(leq, x, a) then [a] else []) + Class(leq, x, s)
  {
    assert ([a] + s)[1..] == s;
  }

  lemma {:induction false} PassStable<T>(leq: Order<T>, x: T, s: seq<T>, k: nat, u: set<T>)
    requires k > 0 && TotalPreorder(leq, u) && Within(s, u) && RunsSorted(leq, s, k) && x in u
    ensures Class(leq, x, Pass(leq, s, k)) == Class(leq, x, s)
    decreases |s|
  {
    if s != [] {
      var rest := Drop(s, k);
      var p, q, more := Take(s, k), Take(rest, k), Drop(rest, k);
      MergeStable(leq, x, p, q, u);
      PassStable(leq, x, more, k, u);
      Recombine(leq, x, p, q, more, Merge(leq, p, q), Pass(leq, more, k));
      Cut(s, k);
      Cut(rest, k);
    }
  }

  lemma Recombine<T>(leq: Order<T>, x: T, p: seq<T>, q: seq<T>, more: seq<T>, merged: seq<T>, passed: seq<T>)
    requires Class(leq, x, merged) == Class(leq, x, p) + Class(leq, x, q)
    requires Class(leq, x, passed) == Class(leq, x, more)
    ensures Class(leq, x, merged + passed) == Class(leq, x, p + (q + more))
  {
    ClassConcat(leq, x, merged, passed);
    ClassConcat(leq, x, p, q + more);
    ClassConcat(leq, x, q, more);
    Regroup(Class(leq, x, p), Class(leq, x, q), Class(leq, x, more));
  }

  lemma Regroup<T>(a: seq<T>, b: seq<T>, c: seq<T>)
    ensures a + b + c == a + (b + c)
  {
  }

  // ---------- the whole sort ----------

  lemma PassWithin<T>(leq: Order<T>, s: seq<T>, k: nat, u: set<T>)
    requires k > 0 && Within(s, u)
    ensures Within(Pass(leq, s, k), u)
  {
    var r := Pass(leq, s, k);
    PassPermutes(leq, s, k);
    forall i | 0 <= i < |r| ensures r[i] in u {
      assert r[i] in multiset(r);
    }
  }

  lemma {:induction false} BottomUpPermutes<T>(leq: Order<T>, s: seq<T>, k: nat)
    requires k > 0
    ensures multiset(BottomUp(leq, s, k)) == multiset(s)
    decreases |s| - k
  {
    PassPermutes(leq, s, k);
    PassLength(leq, s, k);
    if |s| > 2 * k { BottomUpPermutes(leq, Pass(leq, s, k), 2 * k); }
  }

  lemma {:induction false} BottomUpSorts<T>(leq: Order<T>, s: seq<T>, k: nat, u: set<T>)
    requires k > 0 && TotalPreorder(leq, u) && Within(s, u) && RunsSorted(leq, s, k)
    ensures Sorted(leq, BottomUp(leq, s, k))
    ensures forall x :: x in u ==> Class(leq, x, BottomUp(leq, s, k)) == Class(leq, x, s)
    decreases |s| - k
  {
    var r := Pass(leq, s, k);
    PassDoublesRuns(leq, s, k, u);
    PassLength(leq, s, k);
    PassWithin(leq, s, k, u);
    forall x | x in u ensures Class(leq, x, r) == Class(leq, x, s) { PassStable(leq, x, s, k, u); }
    if |s| > 2 * k {
      BottomUpSorts(leq, r, 2 * k, u);
    } else {
      assert Take(r, 2 * k) == r;
    }
  }

  /** For every comparison the sort permutes; for a total preorder it sorts, and elements that compare
      equal keep their order. */
  lemma SortIsCorrect<T>(leq: Order<T>, s: seq<T>)
    ensures multiset(BottomUp(leq, s, 1)) == multiset(s)
    ensures TotalPreorder(leq, set x | x in s) ==>
      && Sorted(leq, BottomUp(leq, s, 1))
      && forall x :: x in s ==> Class(leq, x, BottomUp(leq, s, 1)) == Class(leq, x, s)
  {
    BottomUpPermutes(leq, s, 1);
    if TotalPreorder(leq, set x | x in s) {
      SingleRuns(leq, s);
      BottomUpSorts(leq, s, 1, set x | x in s);
    }
  }
}
