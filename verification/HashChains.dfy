/** Chains of colliding keys, as they are laid out over the store's numbered files. */
module HashChains {
  import opened KvConstants

  /** Position `pos` of the chain of keys that hash to `hash`. */
  datatype Place = Place(hash: nat, pos: nat)
  datatype Pair = Pair(key: CStr, value: CStr)
  type Table = map<Place, Pair>

  /** Every chain is complete from 0, every pair is in the chain of its key, and no key occurs twice. */
  ghost predicate Chained(t: Table, hash: CStr -> nat) {
    && (forall h: nat, i: nat, j: nat :: i <= j && Place(h, j) in t ==> Place(h, i) in t)
    && (forall p :: p in t ==> hash(t[p].key) == p.hash)
    && (forall p, q :: p in t && q in t && t[p].key == t[q].key ==> p == q)
  }

  /** `p` is the place of `k`. */
  ghost predicate Holds(t: Table, p: Place, k: CStr) {
    p in t && t[p].key == k
  }

  ghost predicate Absent(t: Table, k: CStr) {
    forall p :: !Holds(t, p, k)
  }

  /** The table stands for the key-value map `m`. */
  ghost predicate SamePairs(t: Table, m: map<CStr, CStr>) {
    && (forall p :: p in t ==> t[p].key in m && m[t[p].key] == t[p].value)
    && (forall k :: k in m ==> !Absent(t, k))
  }

  /** A table stands for one map only. */
  lemma SamePairsUnique(t: Table, m: map<CStr, CStr>, m': map<CStr, CStr>)
    requires SamePairs(t, m) && SamePairs(t, m')
    ensures m == m'
  {
    forall k
      ensures k in m <==> k in m'
      ensures k in m ==> m[k] == m'[k]
    {
      if k in m { var p :| Holds(t, p, k); assert t[p].key in m'; }
      if k in m' { var p :| Holds(t, p, k); assert t[p].key in m; }
    }
  }

  /** A key not met before the end of its chain is nowhere. */
  lemma SearchedChain(t: Table, hash: CStr -> nat, k: CStr, end: nat)
    requires Chained(t, hash) && Place(hash(k), end) !in t
    requires forall p :: 0 <= p < end ==> Place(hash(k), p) in t && t[Place(hash(k), p)].key != k
    ensures Absent(t, k)
  {
    forall p | p in t ensures !Holds(t, p, k) {
      assert p == Place(p.hash, p.pos);
    }
  }

  lemma WriteKeepsChains(t: Table, hash: CStr -> nat, p: nat, k: CStr, v: CStr)
    requires Chained(t, hash)
    requires var at := Place(hash(k), p);
      if at in t then t[at].key == k
      else (forall q :: q in t ==> t[q].key != k) && (p > 0 ==> Place(hash(k), p - 1) in t)
    ensures Chained(t[Place(hash(k), p) := Pair(k, v)], hash)
  {
  }

  lemma SwapKeepsChains(t: Table, hash: CStr -> nat, at: Place, last: Place)
    requires Chained(t, hash) && at in t && last in t && at.hash == last.hash && at.pos < last.pos
    requires Place(last.hash, last.pos + 1) !in t
    ensures Chained((t - {last})[at := t[last]], hash)
  {
    assert last == Place(last.hash, last.pos) && at == Place(at.hash, at.pos);
  }

  lemma TrimKeepsChains(t: Table, hash: CStr -> nat, at: Place)
    requires Chained(t, hash) && at in t && Place(at.hash, at.pos + 1) !in t
    ensures Chained(t - {at}, hash)
  {
    assert at == Place(at.hash, at.pos);
  }

  lemma WrittenPairs(t: Table, m: map<CStr, CStr>, at: Place, k: CStr, v: CStr)
    requires SamePairs(t, m)
    requires forall p :: p in t ==> (t[p].key == k <==> p == at)
    ensures SamePairs(t[at := Pair(k, v)], m[k := v])
  {
    var t' := t[at := Pair(k, v)];
    forall x | x in m[k := v] ensures !Absent(t', x) {
      if x == k { assert Holds(t', at, k); }
      else { var q :| Holds(t, q, x); assert Holds(t', q, x); }
    }
  }

  /** `t'` has the pairs of `t` but for the one at `at`, with the one at `last` moved there. */
  lemma RemovedPairs(t: Table, m: map<CStr, CStr>, at: Place, last: Place, t': Table)
    requires SamePairs(t, m) && at in t
    requires forall p :: p in t && p != at ==> t[p].key != t[at].key
    requires forall p :: p in t && p != at ==> var q := if p == last then at else p; q in t' && t'[q] == t[p]
    requires forall q :: q in t' ==> var p := if q == at then last else q; p in t && p != at && t'[q] == t[p]
    ensures SamePairs(t', m - {t[at].key})
  {
    forall x | x in m - {t[at].key} ensures !Absent(t', x) {
      var p :| Holds(t, p, x);
      assert Holds(t', if p == last then at else p, x);
    }
    forall q | q in t' ensures t'[q].key in m - {t[at].key} && (m - {t[at].key})[t'[q].key] == t'[q].value {
      var p := if q == at then last else q;
      assert t[p].key != t[at].key;
    }
  }

  /** Writing a pair over the old pair of its key, or at the end of its chain, updates the map. */
  lemma WriteUpdates(t: Table, hash: CStr -> nat, m: map<CStr, CStr>, p: nat, k: CStr, v: CStr)
    requires Chained(t, hash) && SamePairs(t, m)
    requires var at := Place(hash(k), p);
      if at in t then t[at].key == k else k !in m && (p > 0 ==> Place(hash(k), p - 1) in t)
    ensures var t' := t[Place(hash(k), p) := Pair(k, v)];
      Chained(t', hash) && SamePairs(t', m[k := v])
  {
    var at := Place(hash(k), p);
    WriteKeepsChains(t, hash, p, k, v);
    assert forall p :: p in t ==> (t[p].key == k <==> p == at);
    WrittenPairs(t, m, at, k, v);
  }

  /** Taking the last pair off a chain. */
  lemma TrimRemoves(t: Table, hash: CStr -> nat, m: map<CStr, CStr>, at: Place)
    requires Chained(t, hash) && SamePairs(t, m) && at in t && Place(at.hash, at.pos + 1) !in t
    ensures Chained(t - {at}, hash) && SamePairs(t - {at}, m - {t[at].key})
  {
    TrimKeepsChains(t, hash, at);
    RemovedPairs(t, m, at, at, t - {at});
  }

  /** Moving the last pair of a chain over another one removes the other one. */
  lemma SwapRemoves(t: Table, hash: CStr -> nat, m: map<CStr, CStr>, at: Place, last: Place)
    requires Chained(t, hash) && SamePairs(t, m) && at in t && last in t && at.hash == last.hash && at.pos < last.pos
    requires Place(last.hash, last.pos + 1) !in t
    ensures var t' := (t - {last})[at := t[last]];
      Chained(t', hash) && SamePairs(t', m - {t[at].key})
  {
    SwapKeepsChains(t, hash, at, last);
    RemovedPairs(t, m, at, last, (t - {last})[at := t[last]]);
  }
}
