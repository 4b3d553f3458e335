/** The consistent-hashing ring as a value: follower ids in ascending order, and
    which of them hold a key (hw4/src/tpcleader.c). */
module HashRing {

  ghost predicate Ascending(ids: seq<nat>) {
    forall i, j :: 0 <= i < j < |ids| ==> ids[i] < ids[j]
  }

  /** Position of the first id above `h`, scanning from position `i`; 0 when there is none. */
  function FirstAbove(ids: seq<nat>, h: nat, i: nat): (p: nat)
    requires i <= |ids|
    decreases |ids| - i
  {
    if i == |ids| then 0
    else if ids[i] > h then i
    else FirstAbove(ids, h, i + 1)
  }

  /** Position of the follower that holds the first copy of a key hashing to `h`. */
  function Primary(ids: seq<nat>, h: nat): nat {
    FirstAbove(ids, h, 0)
  }

  /** The position `j` places after `p` on a ring of `n`. */
  function Around(p: nat, j: nat, n: nat): (q: nat)
    requires j < n
    ensures p < n ==> q < n
  {
    if p + j < n then p + j else p + j - n
  }

  /** The `r` followers that hold a key hashing to `h`, first copy first. */
  function Replicas(ids: seq<nat>, r: nat, h: nat): (rs: seq<nat>)
    requires r <= |ids|
  {
    FirstAboveInRange(ids, h, 0);
    seq(r, j requires 0 <= j < r => ids[Around(Primary(ids, h), j, |ids|)])
  }

  lemma {:induction false} FirstAboveInRange(ids: seq<nat>, h: nat, i: nat)
    requires i <= |ids|
    ensures ids != [] ==> FirstAbove(ids, h, i) < |ids|
    decreases |ids| - i
  {
    if i < |ids| { FirstAboveInRange(ids, h, i + 1); }
  }

  lemma {:induction false} FirstAboveFinds(ids: seq<nat>, h: nat, i: nat)
    requires i < |ids|
    ensures FirstAbove(ids, h, i) < |ids|
    ensures (exists j :: i <= j < |ids| && ids[j] > h) ==>
      var p := FirstAbove(ids, h, i); i <= p && ids[p] > h && forall j :: i <= j < p ==> ids[j] <= h
    ensures (forall j :: i <= j < |ids| ==> ids[j] <= h) ==> FirstAbove(ids, h, i) == 0
    decreases |ids| - i
  {
    if ids[i] <= h && i + 1 < |ids| {
      FirstAboveFinds(ids, h, i + 1);
    }
  }

  /** The primary is the least id above the hash; when no id is above it, the least id of all. */
  lemma PrimaryIsLeastAbove(ids: seq<nat>, h: nat)
    requires Ascending(ids) && |ids| > 0
    ensures Primary(ids, h) < |ids|
    ensures var p := ids[Primary(ids, h)];
      if exists x :: x in ids && x > h
      then p > h && forall x :: x in ids && x > h ==> p <= x
      else forall x :: x in ids ==> p <= x
  {
    FirstAboveFinds(ids, h, 0);
    if x :| x in ids && x > h {
      var j :| 0 <= j < |ids| && ids[j] == x;
      assert ids[j] > h;
    } else {
      forall j | 0 <= j < |ids| ensures ids[j] <= h { assert ids[j] in ids; }
      assert Primary(ids, h) == 0;
    }
  }

  /** The replicas of a key are ring members and pairwise distinct. */
  lemma ReplicasDistinct(ids: seq<nat>, r: nat, h: nat)
    requires Ascending(ids) && r <= |ids|
    ensures |Replicas(ids, r, h)| == r
    ensures forall f :: f in Replicas(ids, r, h) ==> f in ids
    ensures forall i, j :: 0 <= i < j < r ==> Replicas(ids, r, h)[i] != Replicas(ids, r, h)[j]
  {
    if |ids| > 0 {
      PrimaryIsLeastAbove(ids, h);
      forall i, j | 0 <= i < j < r
        ensures Replicas(ids, r, h)[i] != Replicas(ids, r, h)[j]
      {
      }
    }
  }

  /** The first replica is the primary, and each other one is the least id above the one before; when that was the
      largest, the least id of all. */
  lemma ReplicasSucceed(ids: seq<nat>, r: nat, h: nat, j: nat)
    requires Ascending(ids) && r <= |ids| && j + 1 < r
    ensures Primary(ids, h) < |ids| && Replicas(ids, r, h)[0] == ids[Primary(ids, h)]
    ensures var x, y := Replicas(ids, r, h)[j], Replicas(ids, r, h)[j + 1];
      && y in ids
      && if exists z :: z in ids && z > x then y > x && forall z :: z in ids && z > x ==> y <= z
         else forall z :: z in ids ==> y <= z
  {
    FirstAboveInRange(ids, h, 0);
    var p := Around(Primary(ids, h), j, |ids|);
    assert p + 1 < |ids| ==> ids[p + 1] > ids[p];
    forall z | z in ids ensures z <= ids[p] || (p + 1 < |ids| && ids[p + 1] <= z) {
      var i :| 0 <= i < |ids| && ids[i] == z;
    }
  }

  // ---------- registration ----------

  /** The ring after follower `x` registers: `x` takes its place unless it is there already. */
  function Insert(ids: seq<nat>, x: nat): seq<nat> {
    if ids == [] then [x]
    else if x < ids[0] then [x] + ids
    else if x == ids[0] then ids
    else [ids[0]] + Insert(ids[1..], x)
  }

  lemma {:induction false} InsertElements(ids: seq<nat>, x: nat)
    ensures forall y :: y in Insert(ids, x) <==> y in ids || y == x
  {
    if ids != [] && x > ids[0] {
      assert ids == [ids[0]] + ids[1..];
      InsertElements(ids[1..], x);
    }
  }

  lemma {:induction false} InsertAscending(ids: seq<nat>, x: nat)
    requires Ascending(ids)
    ensures Ascending(Insert(ids, x))
    ensures |Insert(ids, x)| == if x in ids then |ids| else |ids| + 1
  {
    if ids != [] {
      AscendingRest(ids);
      if x < ids[0] {
        AscendingFirst(x, ids);
      } else if x > ids[0] {
        InsertElements(ids[1..], x);
        InsertAscending(ids[1..], x);
        AscendingFirst(ids[0], Insert(ids[1..], x));
      }
    }
  }

  lemma AscendingFirst(x: nat, s: seq<nat>)
    requires Ascending(s) && forall y :: y in s ==> x < y
    ensures Ascending([x] + s)
  {
    var r := [x] + s;
    forall i, j | 0 <= i < j < |r| ensures r[i] < r[j] {
      assert r[j] == s[j - 1] && s[j - 1] in s;
      assert i > 0 ==> r[i] == s[i - 1];
    }
  }

  lemma AscendingRest(s: seq<nat>)
    requires Ascending(s) && s != []
    ensures Ascending(s[1..]) && (forall y :: y in s[1..] ==> s[0] < y) && (forall y :: y in s <==> y == s[0] || y in s[1..])
  {
    assert s == [s[0]] + s[1..];
    forall y | y in s[1..] ensures s[0] < y {
      var i :| 0 <= i < |s| - 1 && s[1..][i] == y;
      assert s[i + 1] == y;
    }
  }

  lemma {:induction false} InsertAt(ids: seq<nat>, x: nat, k: nat)
    requires Ascending(ids) && k <= |ids|
    requires forall j :: 0 <= j < k ==> ids[j] < x
    requires k < |ids| ==> ids[k] >= x
    ensures Insert(ids, x) == if k < |ids| && ids[k] == x then ids else ids[..k] + [x] + ids[k..]
  {
    if k == 0 {
      assert ids[..0] + [x] + ids[0..] == [x] + ids;
    } else {
      InsertAt(ids[1..], x, k - 1);
      HeadFirst(ids, x, k);
    }
  }

  lemma HeadFirst(ids: seq<nat>, x: nat, k: nat)
    requires 0 < k <= |ids|
    ensures [ids[0]] + ids[1..] == ids
    ensures [ids[0]] + (ids[1..][..k - 1] + [x] + ids[1..][k - 1..]) == ids[..k] + [x] + ids[k..]
  {
    assert [ids[0]] + ids[1..][..k - 1] == ids[..k];
    assert ids[1..][k - 1..] == ids[k..];
  }

  /** An ascending sequence is determined by its elements. */
  lemma {:induction false} AscendingUnique(s: seq<nat>, t: seq<nat>)
    requires Ascending(s) && Ascending(t) && forall x :: x in s <==> x in t
    ensures s == t
  {
    if t != [] {
      assert t[0] in s;
    }
    if s != [] {
      assert s[0] in t;
      assert t[0] in s;
      assert s[0] == t[0];
      assert s == [s[0]] + s[1..] && t == [t[0]] + t[1..];
      assert s[0] !in s[1..] && s[0] !in t[1..];
      assert forall x :: x in s[1..] <==> x in s && x != s[0];
      assert forall x :: x in t[1..] <==> x in t && x != t[0];
      AscendingUnique(s[1..], t[1..]);
    }
  }

  /** One registration request at a leader for `capacity` followers. */
  function Registered(ids: seq<nat>, capacity: nat, x: nat): seq<nat> {
    if |ids| == capacity then ids else Insert(ids, x)
  }

  /** A run of registration requests, oldest first. */
  function RegisteredAll(capacity: nat, xs: seq<nat>): seq<nat>
    decreases |xs|
  {
    if xs == [] then [] else Registered(RegisteredAll(capacity, xs[..|xs| - 1]), capacity, xs[|xs| - 1])
  }

  /** Every run of registrations leaves an ascending ring within capacity, of ids that registered;
      a ring that is not full has accepted everyone. */
  lemma {:induction false} RegistrationRun(capacity: nat, xs: seq<nat>)
    ensures var ids := RegisteredAll(capacity, xs);
      && Ascending(ids) && |ids| <= capacity
      && (forall x :: x in ids ==> x in xs)
      && (|ids| < capacity ==> forall x :: x in xs ==> x in ids)
    decreases |xs|
  {
    if xs != [] {
      RegistrationRun(capacity, xs[..|xs| - 1]);
      InsertAscending(RegisteredAll(capacity, xs[..|xs| - 1]), xs[|xs| - 1]);
      InsertElements(RegisteredAll(capacity, xs[..|xs| - 1]), xs[|xs| - 1]);
      assert xs == xs[..|xs| - 1] + [xs[|xs| - 1]];
    }
  }

  /** The ring depends on who was accepted, not on the order of arrival. */
  lemma ArrivalOrderIrrelevant(capacity: nat, xs: seq<nat>, ys: seq<nat>)
    requires forall x :: x in RegisteredAll(capacity, xs) <==> x in RegisteredAll(capacity, ys)
    ensures RegisteredAll(capacity, xs) == RegisteredAll(capacity, ys)
  {
    RegistrationRun(capacity, xs);
    RegistrationRun(capacity, ys);
    AscendingUnique(RegisteredAll(capacity, xs), RegisteredAll(capacity, ys));
  }

  function Elements(s: seq<nat>): set<nat> { set x | x in s }

  lemma {:induction false} AscendingSize(s: seq<nat>)
    requires Ascending(s)
    ensures |Elements(s)| == |s|
    decreases |s|
  {
    if s != [] {
      var init, last := s[..|s| - 1], s[|s| - 1];
      AscendingSize(init);
      assert s == init + [last];
      assert last !in init;
      assert Elements(s) == Elements(init) + {last};
    }
  }

  lemma SubsetSize(a: set<nat>, b: set<nat>)
    requires a <= b && |b| <= |a|
    ensures a == b
  {
    assert b == a + (b - a);
  }

  /** In particular, when everyone fits, all are accepted and every order of arrival gives the same ring. */
  lemma PermutedArrivals(capacity: nat, xs: seq<nat>, ys: seq<nat>)
    requires Elements(xs) == Elements(ys) && |Elements(xs)| <= capacity
    ensures forall x :: x in RegisteredAll(capacity, xs) <==> x in xs
    ensures RegisteredAll(capacity, xs) == RegisteredAll(capacity, ys)
  {
    EveryoneFits(capacity, xs);
    EveryoneFits(capacity, ys);
    forall x ensures x in xs <==> x in ys {
      assert x in xs <==> x in Elements(xs);
      assert x in ys <==> x in Elements(ys);
    }
    ArrivalOrderIrrelevant(capacity, xs, ys);
  }

  lemma EveryoneFits(capacity: nat, xs: seq<nat>)
    requires |Elements(xs)| <= capacity
    ensures forall x :: x in RegisteredAll(capacity, xs) <==> x in xs
  {
    var ids := RegisteredAll(capacity, xs);
    RegistrationRun(capacity, xs);
    if |ids| == capacity {
      AscendingSize(ids);
      SubsetSize(Elements(ids), Elements(xs));
      assert forall x :: x in xs ==> x in Elements(xs);
    }
  }

  /** Once full, the ring never changes again. */
  lemma {:induction false} FullRingFrozen(capacity: nat, xs: seq<nat>, more: seq<nat>)
    requires |RegisteredAll(capacity, xs)| == capacity
    ensures RegisteredAll(capacity, xs + more) == RegisteredAll(capacity, xs)
    decreases |more|
  {
    if more == [] {
      assert xs + more == xs;
    } else {
      FullRingFrozen(capacity, xs, more[..|more| - 1]);
      assert (xs + more)[..|xs + more| - 1] == xs + more[..|more| - 1];
    }
  }
}
