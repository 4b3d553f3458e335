/** Arithmetic of uthash's bucket array: power-of-two masks, the ideal chain length, and the count
    of items beyond it. */
module BucketMath {

  function Pow2(k: nat): (p: nat)
    ensures p > 0
  {
    if k == 0 then 1 else 2 * Pow2(k - 1)
  }

  /** Bitwise AND and right shift, bit by bit. */
  function And(x: nat, y: nat): nat {
    if x == 0 || y == 0 then 0 else (x % 2) * (y % 2) + 2 * And(x / 2, y / 2)
  }

  function ShiftRight(x: nat, k: nat): nat {
    if k == 0 then x else ShiftRight(x / 2, k - 1)
  }

  /** Masking with one less than a power of two takes the remainder. */
  lemma {:induction false} MaskIsRemainder(x: nat, k: nat)
    ensures And(x, Pow2(k) - 1) == x % Pow2(k)
  {
    if k > 0 {
      var m := Pow2(k - 1);
      assert Pow2(k) == 2 * m;
      MaskIsRemainder(x / 2, k - 1);
      AndOdd(x, m);
      Halving(x, m);
    }
  }

  lemma AndOdd(x: nat, m: nat)
    requires m > 0
    ensures And(x, 2 * m - 1) == x % 2 + 2 * And(x / 2, m - 1)
  {
    assert (2 * m - 1) % 2 == 1 && (2 * m - 1) / 2 == m - 1;
  }

  /** Dividing by `2 * m` is dividing by 2 and then by `m`. */
  lemma Halving(x: nat, m: nat)
    requires m > 0
    ensures x % (2 * m) == x % 2 + 2 * (x / 2 % m) && x / (2 * m) == x / 2 / m
  {
    var q, r := x / 2 / m, x / 2 % m;
    assert x / 2 == q * m + r;
    assert x == q * (2 * m) + (x % 2 + 2 * r);
    RemainderUnique(x, q, 2 * m, x % 2 + 2 * r);
  }

  lemma RemainderUnique(x: nat, q: nat, n: nat, r: nat)
    requires n > 0 && x == q * n + r && r < n
    ensures x % n == r && x / n == q
  {
    var q', r' := x / n, x % n;
    assert q' * n + r' == q * n + r;
    if q' < q { Multiple(q - q', n); }
    if q' > q { Multiple(q' - q, n); }
  }

  lemma Multiple(d: nat, n: nat)
    requires d > 0
    ensures d * n >= n
  {
  }

  lemma {:induction false} ShiftIsQuotient(x: nat, k: nat)
    ensures ShiftRight(x, k) == x / Pow2(k)
  {
    if k > 0 {
      ShiftIsQuotient(x / 2, k - 1);
      Halving(x, Pow2(k - 1));
    }
  }

  /** The ideal chain length as the code computes it, for `2 ^ (log2 + 1)` buckets. */
  function IdealMaxLen(items: nat, log2: nat, buckets: nat): nat {
    ShiftRight(items, log2 + 1) + if And(items, if buckets > 0 then 2 * buckets - 1 else 0) != 0 then 1 else 0
  }

  /** It is the ceiling of items per bucket, and not zero when there are items. */
  lemma IdealIsCeiling(items: nat, log2: nat, buckets: nat)
    requires buckets == Pow2(log2)
    ensures var c := IdealMaxLen(items, log2, buckets);
      && items <= c * (2 * buckets)
      && (c > 0 ==> (c - 1) * (2 * buckets) < items)
      && (items > 0 ==> c > 0)
  {
    ShiftIsQuotient(items, log2 + 1);
    MaskIsRemainder(items, log2 + 1);
    Ceiling(items, 2 * buckets);
  }

  /** So the expansion never divides by zero. */
  lemma IdealPositive(items: nat, log2: nat, buckets: nat)
    requires buckets == Pow2(log2) && items > 0
    ensures IdealMaxLen(items, log2, buckets) > 0
  {
    IdealIsCeiling(items, log2, buckets);
  }

  lemma Ceiling(x: nat, n: nat)
    requires n > 0
    ensures var c := x / n + if x % n != 0 then 1 else 0;
      x <= c * n && (c > 0 ==> (c - 1) * n < x) && (x > 0 ==> c > 0)
  {
    var q, r := x / n, x % n;
    assert x == q * n + r;
    assert (q + 1) * n == q * n + n;
    if q > 0 { assert (q - 1) * n == q * n - n; }
  }

  // ---------- items beyond the ideal chain length ----------

  function Excess(count: nat, ideal: nat): nat { if count > ideal then count - ideal else 0 }

  /** Summed over all buckets. */
  function TotalExcess(counts: seq<nat>, ideal: nat): nat {
    if counts == [] then 0 else Excess(counts[0], ideal) + TotalExcess(counts[1..], ideal)
  }

  /** None is left over exactly if no bucket has more than the ideal number. */
  lemma {:induction false} NoExcess(counts: seq<nat>, ideal: nat)
    ensures TotalExcess(counts, ideal) == 0 <==> forall b :: 0 <= b < |counts| ==> counts[b] <= ideal
  {
    if counts != [] {
      NoExcess(counts[1..], ideal);
      assert counts == [counts[0]] + counts[1..];
    }
  }

  function Total(counts: seq<nat>): nat {
    if counts == [] then 0 else counts[0] + Total(counts[1..])
  }

  /** One more item in bucket `b`. */
  lemma {:induction false} OneMore(counts: seq<nat>, b: nat, ideal: nat)
    requires b < |counts|
    ensures var counts' := counts[b := counts[b] + 1];
      && Total(counts') == Total(counts) + 1
      && TotalExcess(counts', ideal) == TotalExcess(counts, ideal) + if counts[b] + 1 > ideal then 1 else 0
  {
    var counts' := counts[b := counts[b] + 1];
    if b == 0 {
      assert counts'[1..] == counts[1..];
    } else {
      OneMore(counts[1..], b - 1, ideal);
      assert counts'[1..] == counts[1..][b - 1 := counts[1..][b - 1] + 1];
    }
  }

  lemma {:induction false} TotalAtLeast(counts: seq<nat>, b: nat)
    requires b < |counts|
    ensures Total(counts) >= counts[b]
  {
    if b > 0 { TotalAtLeast(counts[1..], b - 1); }
  }

  lemma {:induction false} NoItems(counts: seq<nat>, ideal: nat)
    requires forall i :: 0 <= i < |counts| ==> counts[i] == 0
    ensures Total(counts) == 0 && TotalExcess(counts, ideal) == 0
  {
    if counts != [] { NoItems(counts[1..], ideal); }
  }

  /** Doubling the number of buckets leaves an item of bucket `b` in `b` or sends it to `b + n`. */
  lemma DoubledBucket(h: nat, n: nat)
    requires n > 0
    ensures h % (2 * n) == h % n || h % (2 * n) == h % n + n
  {
    var q, r := h / n, h % n;
    assert h == q * n + r;
    var k := q / 2;
    if q == 2 * k {
      EvenMultiple(k, n);
      RemainderUnique(h, k, 2 * n, r);
    } else {
      assert q == 2 * k + 1;
      OddMultiple(k, n);
      assert h == k * (2 * n) + (n + r);
      RemainderUnique(h, k, 2 * n, n + r);
    }
  }

  lemma EvenMultiple(k: nat, n: nat)
    ensures (2 * k) * n == k * (2 * n)
  {
  }

  lemma OddMultiple(k: nat, n: nat)
    ensures (2 * k + 1) * n == k * (2 * n) + n
  {
  }
}
