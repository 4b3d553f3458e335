/** The file-backed store (hw4/src/kvstore.c): one file per entry, colliding keys
    chained through numbered files. It refines a map from keys to values. */
module KvStore {
  import opened KvConstants
  import opened CText
  import opened HashChains
  import opened Directory

  function Entry(k: CStr, v: CStr): EntryFile { EntryFile(|k| + |v| + 2, Packed(k, v)) }

  function KeyOf(f: EntryFile): CStr { TextAt(f.data, 0) }

  function ValueOf(f: EntryFile): CStr { TextAt(f.data, |KeyOf(f)| + 1) }

  lemma EntryReads(k: CStr, v: CStr)
    ensures KeyOf(Entry(k, v)) == k && ValueOf(Entry(k, v)) == v
  {
    PackedReads(k, v);
  }

  /** Every file is a complete dump of a pair. */
  ghost predicate WellFormed(entries: map<Place, EntryFile>) {
    forall p :: Complete(entries, p)
  }

  ghost predicate Complete(entries: map<Place, EntryFile>, p: Place) {
    p in entries ==> entries[p] == Entry(KeyOf(entries[p]), ValueOf(entries[p]))
  }

  ghost function TableOf(entries: map<Place, EntryFile>): Table {
    map p | p in entries :: Pair(KeyOf(entries[p]), ValueOf(entries[p]))
  }

  /** The files of a store directory stand for the map `m`. */
  ghost predicate Stores(entries: map<Place, EntryFile>, hash: CStr -> nat, m: map<CStr, CStr>) {
    && WellFormed(entries)
    && Chained(TableOf(entries), hash)
    && SamePairs(TableOf(entries), m)
  }

  /** Only the file at position `p` of chain `h` has changed: it was the file of `k`, or the first gap of the chain, and
      now holds the pair, key first, each string with its NUL. */
  ghost predicate Written(was: map<Place, EntryFile>, h: nat, p: nat, k: CStr, v: CStr, now: map<Place, EntryFile>) {
    && (forall q :: 0 <= q < p ==> Place(h, q) in was && KeyOf(was[Place(h, q)]) != k)
    && (Place(h, p) in was ==> KeyOf(was[Place(h, p)]) == k)
    && now == was[Place(h, p) := EntryFile(|k| + 1 + |v| + 1, k + "\0" + v + "\0")]
  }

  lemma TableWrite(entries: map<Place, EntryFile>, at: Place, k: CStr, v: CStr)
    requires WellFormed(entries)
    ensures WellFormed(entries[at := Entry(k, v)])
    ensures TableOf(entries[at := Entry(k, v)]) == TableOf(entries)[at := Pair(k, v)]
  {
    EntryReads(k, v);
    var e := entries[at := Entry(k, v)];
    forall p ensures Complete(e, p) { assert Complete(entries, p); }
  }

  lemma TableSwap(entries: map<Place, EntryFile>, at: Place, last: Place)
    requires WellFormed(entries) && last in entries
    ensures var e := (entries - {last})[at := entries[last]];
      WellFormed(e) && TableOf(e) == (TableOf(entries) - {last})[at := TableOf(entries)[last]]
  {
    var e := (entries - {last})[at := entries[last]];
    forall p ensures Complete(e, p) { assert Complete(entries, p) && Complete(entries, last); }
  }

  lemma TableTrim(entries: map<Place, EntryFile>, at: Place)
    requires WellFormed(entries)
    ensures WellFormed(entries - {at}) && TableOf(entries - {at}) == TableOf(entries) - {at}
  {
    forall p ensures Complete(entries - {at}, p) { assert Complete(entries, p); }
  }

  /** The files of the chain `h` before position `n`. */
  function Scanned(h: nat, n: nat): set<Place> { set p | 0 <= p < n :: Place(h, p) }

  /** Follows the chain `h` to the first file of `key`, or to its end. */
  method Scan(entries: map<Place, EntryFile>, h: nat, key: CStr) returns (pos: nat)
    ensures forall p :: 0 <= p < pos ==> Place(h, p) in entries && KeyOf(entries[Place(h, p)]) != key
    ensures Place(h, pos) in entries ==> KeyOf(entries[Place(h, pos)]) == key
  {
    pos := 0;
    while Place(h, pos) in entries
      invariant forall p :: 0 <= p < pos ==> Place(h, p) in entries && KeyOf(entries[Place(h, p)]) != key
      decreases entries.Keys - Scanned(h, pos)
    {
      if key == KeyOf(entries[Place(h, pos)]) { return; }
      assert Place(h, pos) in Scanned(h, pos + 1) && Place(h, pos) !in Scanned(h, pos);
      assert Scanned(h, pos) <= Scanned(h, pos + 1);
      pos := pos + 1;
    }
  }

  /** The first gap in the chain `h` from position `from` on. */
  method ChainEnd(entries: map<Place, EntryFile>, h: nat, from: nat) returns (end: nat)
    ensures end >= from && Place(h, end) !in entries
    ensures forall p :: from <= p < end ==> Place(h, p) in entries
  {
    end := from;
    while Place(h, end) in entries
      invariant end >= from && forall p :: from <= p < end ==> Place(h, p) in entries
      decreases entries.Keys - Scanned(h, end)
    {
      assert Place(h, end) in Scanned(h, end + 1) && Place(h, end) !in Scanned(h, end);
      assert Scanned(h, end) <= Scanned(h, end + 1);
      end := end + 1;
    }
  }

  class KvStore {
    const dir: Directory
    const hash: CStr -> nat
    /** The key-value map the files stand for. */
    ghost var model: map<CStr, CStr>

    ghost predicate Valid()
      reads this, dir
    {
      Stores(dir.entries, hash, model)
    }

    constructor (dir: Directory, hash: CStr -> nat, ghost model: map<CStr, CStr>)
      requires Stores(dir.entries, hash, model)
      modifies dir`present
      ensures Valid() && this.dir == dir && this.hash == hash && this.model == model && dir.present
    {
      this.dir, this.hash, this.model := dir, hash, model;
      new;
      dir.present := true;
    }

    /** The position of `key` in its chain and its value, or a negative error code. */
    method FindEntry(key: CStr) returns (pos: int, value: CStr)
      requires Valid()
      ensures pos >= 0 <==> |key| <= 1024 && dir.present && key in model
      ensures pos >= 0 ==> Holds(TableOf(dir.entries), Place(hash(key), pos), key) && value == model[key]
      ensures pos < 0 ==> pos == if |key| > 1024 then -11 else if !dir.present then -17 else -13
    {
      value := "";
      if |key| > MAX_KEYLEN { return ERRKEYLEN, value; }
      if !dir.present { return ERRFILACCESS, value; }
      ghost var t := TableOf(dir.entries);
      pos := Scan(dir.entries, hash(key), key);
      if Place(hash(key), pos) in dir.entries {
        assert Holds(t, Place(hash(key), pos), key);
        return pos, ValueOf(dir.entries[Place(hash(key), pos)]);
      }
      SearchedChain(t, hash, key, pos);
      return ERRNOKEY, value;
    }

    method HasKey(key: CStr) returns (found: bool)
      requires Valid()
      ensures found <==> |key| <= 1024 && dir.present && key in model
    {
      var pos, _ := FindEntry(key);
      found := pos >= 0;
    }

    method Get(key: CStr) returns (code: int, value: CStr)
      requires Valid()
      ensures code == 0 <==> |key| <= 1024 && dir.present && key in model
      ensures code == 0 ==> value == model[key]
      ensures code != 0 ==> code == if |key| > 1024 then -11 else if !dir.present then -17 else -13
    {
      code, value := FindEntry(key);
      if code >= 0 { code := 0; }
    }

    method PutCheck(key: CStr, value: CStr) returns (code: int)
      ensures code == if |key| > 1024 then -11 else if |value| > 1024 then -12 else if !dir.present then -17 else 0
    {
      if |key| > MAX_KEYLEN { return ERRKEYLEN; }
      if |value| > MAX_VALLEN { return ERRVALLEN; }
      if !dir.present { return ERRFILACCESS; }
      code := 0;
    }

    /** Adds or replaces the entry of `key`. */
    method Put(key: CStr, value: CStr) returns (code: int)
      requires Valid()
      modifies this`model, dir`entries
      ensures Valid()
      ensures code == if |key| > 1024 then -11 else if |value| > 1024 then -12 else if !dir.present then -17 else 0
      ensures code == 0 ==> exists p: nat :: Written(old(dir.entries), hash(key), p, key, value, dir.entries)
      ensures code != 0 ==> dir.entries == old(dir.entries)
      ensures model == if code == 0 then old(model)[key := value] else old(model)
    {
      code := PutCheck(key, value);
      if code == 0 { Write(key, value); }
    }

    /** Writes the pair over the old file of its key, or at the end of its chain. */
    method Write(key: CStr, value: CStr)
      requires Valid() && |key| <= 1024 && dir.present
      modifies this`model, dir`entries
      ensures Valid() && model == old(model)[key := value]
      ensures exists p: nat :: Written(old(dir.entries), hash(key), p, key, value, dir.entries)
    {
      var h := hash(key);
      var pos, _ := FindEntry(key);
      if pos < 0 {
        pos := ChainEnd(dir.entries, h, 0);
      }
      WriteUpdates(TableOf(dir.entries), hash, model, pos, key, value);
      TableWrite(dir.entries, Place(h, pos), key, value);
      dir.entries := dir.entries[Place(h, pos) := Entry(key, value)];
      model := model[key := value];
      assert Written(old(dir.entries), h, pos, key, value, dir.entries);
    }

    method DelCheck(key: CStr) returns (code: int)
      requires Valid()
      ensures code == 0 <==> |key| <= 1024 && dir.present && key in model
      ensures code != 0 ==> code == if |key| > 1024 then -11 else if !dir.present then -17 else -13
    {
      if |key| > MAX_KEYLEN { return ERRKEYLEN; }
      if !dir.present { return ERRFILACCESS; }
      var found := HasKey(key);
      code := if found then 0 else ERRNOKEY;
    }

    /** Removes the entry of `key`, filling its place with the last entry of the chain. */
    method Del(key: CStr) returns (code: int)
      requires Valid()
      modifies this`model, dir`entries
      ensures Valid()
      ensures code == 0 <==> |key| <= 1024 && dir.present && key in old(model)
      ensures code != 0 ==> code == if |key| > 1024 then -11 else if !dir.present then -17 else -13
      ensures model == if code == 0 then old(model) - {key} else old(model)
    {
      var pos, _ := FindEntry(key);
      if pos < 0 { return pos; }
      ghost var t := TableOf(dir.entries);
      var at := Place(hash(key), pos);
      var end := ChainEnd(dir.entries, at.hash, pos + 1);
      if end == pos + 1 {
        TrimRemoves(t, hash, model, at);
        TableTrim(dir.entries, at);
        dir.entries := dir.entries - {at};
      } else {
        var last := Place(at.hash, end - 1);
        SwapRemoves(t, hash, model, at, last);
        TableSwap(dir.entries, at, last);
        dir.entries := (dir.entries - {last})[at := dir.entries[last]];
      }
      model := model - {key};
      code := 0;
    }
  }
}
