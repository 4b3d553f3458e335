/** The two-phase commit leader (hw4/src/tpcleader.c): a circular doubly linked
    list of followers sorted by id, and the request handlers that walk it. */
module Leader {
  import opened KvConstants
  import opened HashRing
  import opened Follower
  import opened TwoPhaseCommit
  import opened Network

  class TpcFollower {
    const id: nat
    const host: CStr
    const port: CStr
    var next: TpcFollower
    var prev: TpcFollower

    constructor (id: nat, host: CStr, port: CStr)
      ensures this.id == id && this.host == host && this.port == port
      ensures next == this && prev == this
    {
      this.id, this.host, this.port := id, host, port;
      next, prev := this, this;
    }
  }

  /** The string a follower's id is the hash of. */
  function Address(host: CStr, port: CStr): CStr {
    port + ":" + host
  }

  /** `a` is the port, one colon, and the host, to its end. */
  predicate IsAddress(a: CStr, host: CStr, port: CStr) {
    && |a| == |port| + 1 + |host|
    && a[..|port|] == port && a[|port|] == ':' && a[|port| + 1..] == host
  }

  lemma AddressUnique(host: CStr, port: CStr)
    ensures IsAddress(Address(host, port), host, port)
    ensures forall a: CStr :: IsAddress(a, host, port) ==> a == Address(host, port)
  {
    forall a: CStr | IsAddress(a, host, port) ensures a == Address(host, port) {
      assert a == a[..|port|] + [a[|port|]] + a[|port| + 1..];
    }
  }

  ghost predicate IdsAscend(ms: seq<TpcFollower>) {
    forall i, j :: 0 <= i < j < |ms| ==> ms[i].id < ms[j].id
  }

  ghost predicate Linked(ms: seq<TpcFollower>)
    reads ms
  {
    forall i :: 0 <= i < |ms| ==>
      && ms[i].next == ms[if i + 1 == |ms| then 0 else i + 1]
      && ms[i].prev == ms[if i == 0 then |ms| - 1 else i - 1]
  }

  ghost function IdsOf(ms: seq<TpcFollower>): (ids: seq<nat>)
    ensures |ids| == |ms| && forall i :: 0 <= i < |ids| ==> ids[i] == ms[i].id
  {
    seq(|ms|, i requires 0 <= i < |ms| => ms[i].id)
  }

  lemma IdsAscendInserted(ms: seq<TpcFollower>, n: TpcFollower, k: nat)
    requires IdsAscend(ms) && k <= |ms|
    requires forall j :: 0 <= j < k ==> ms[j].id < n.id
    requires k < |ms| ==> ms[k].id > n.id
    ensures IdsAscend(ms[..k] + [n] + ms[k..])
  {
    var ns := ms[..k] + [n] + ms[k..];
    assert forall i :: 0 <= i < |ns| ==> ns[i] == if i < k then ms[i] else if i == k then n else ms[i - 1];
  }

  lemma IdsDistinct(ms: seq<TpcFollower>)
    requires IdsAscend(ms)
    ensures forall i, j :: 0 <= i < j < |ms| ==> ms[i] != ms[j]
  {
  }

  lemma IdsInserted(ms: seq<TpcFollower>, n: TpcFollower, k: nat)
    requires IdsAscend(ms) && k <= |ms|
    requires forall j :: 0 <= j < k ==> ms[j].id < n.id
    requires k < |ms| ==> ms[k].id > n.id
    ensures IdsOf(ms[..k] + [n] + ms[k..]) == Insert(IdsOf(ms), n.id)
  {
    InsertAt(IdsOf(ms), n.id, k);
    IdsOfSplice(ms, n, k);
  }

  lemma IdsOfSplice(ms: seq<TpcFollower>, n: TpcFollower, k: nat)
    requires k <= |ms|
    ensures IdsOf(ms[..k] + [n] + ms[k..]) == IdsOf(ms)[..k] + [n.id] + IdsOf(ms)[k..]
  {
    var a, b := IdsOf(ms[..k] + [n] + ms[k..]), IdsOf(ms)[..k] + [n.id] + IdsOf(ms)[k..];
    forall i | 0 <= i < |a| ensures a[i] == b[i] {
      if i > k { assert (ms[..k] + [n] + ms[k..])[i] == ms[i - 1] && b[i] == IdsOf(ms)[i - 1]; }
    }
  }

  /** The placement of copies on a ring of followers. */
  ghost function RingConfig(ids: seq<nat>, redundancy: nat, hash: CStr -> nat): Config
    requires redundancy <= |ids|
  {
    Config(Elements(ids), redundancy, k => Replicas(ids, redundancy, hash(k)))
  }

  lemma RingConfigValid(ids: seq<nat>, redundancy: nat, hash: CStr -> nat)
    requires redundancy <= |ids| && Ascending(ids)
    ensures RingConfig(ids, redundancy, hash).Valid()
  {
    var c := RingConfig(ids, redundancy, hash);
    forall k ensures c.ValidPlacement(c.replicas(k)) {
      ReplicasDistinct(ids, redundancy, hash(k));
    }
  }

  /** Before the first transaction, with any stores and any slots on the ring's followers, the protocol is in an
      initial state. */
  lemma FirstState(ids: seq<nat>, redundancy: nat, hash: CStr -> nat, s: State)
    requires redundancy <= |ids| && Ascending(ids)
    requires s.nodes.Keys == Elements(ids) && s.applied.Keys == s.nodes.Keys && forall f :: f in s.applied ==> s.applied[f] == []
    requires s.phase == Idle && s.committed == [] && !s.crashed
    ensures var c := RingConfig(ids, redundancy, hash); Initial(c, s) && Reachable(c, s)
  {
    var c := RingConfig(ids, redundancy, hash);
    RingConfigValid(ids, redundancy, hash);
    assert Initial(c, s) && Run(c, s, [], s);
  }

  /** What the network does to one transaction: the fate of each request for a vote, and for each replica the fates of
      the first attempts to tell it the decision. The attempt after those is answered. */
  datatype Fate = Fate(votes: seq<Delivery>, retries: seq<seq<Delivery>>)

  predicate FateFor(w: Fate, redundancy: nat) { |w.votes| == |w.retries| == redundancy }

  /** `s` is reached from `s0` by beginning `txn` and then taking `steps`. */
  ghost predicate Attempt(c: Config, s0: State, txn: Txn, steps: seq<Step>, s: State) {
    && Shaped(c, s)
    && Run(c, s0, [Begin(txn)] + steps, s)
    && forall i :: 0 <= i < |steps| ==> !steps[i].Begin?
  }

  lemma AttemptBegins(c: Config, s0: State, txn: Txn)
    requires Shaped(c, s0) && s0.phase.Idle?
    ensures Attempt(c, s0, txn, [], s0.(phase := Voting(txn, 0, 0)))
  {
    RunExtend(c, s0, [], s0, Begin(txn));
    assert [] + [Begin(txn)] == [Begin(txn)] + [];
  }

  lemma AttemptContinues(c: Config, s0: State, txn: Txn, steps: seq<Step>, s: State, step: Step)
    requires Attempt(c, s0, txn, steps, s) && Enabled(c, s, step) && !step.Begin?
    ensures Attempt(c, s0, txn, steps + [step], Next(c, s, step))
  {
    RunExtend(c, s0, [Begin(txn)] + steps, s, step);
    StepsRegroup([Begin(txn)], steps, [step]);
  }

  lemma StepsRegroup(a: seq<Step>, b: seq<Step>, c: seq<Step>)
    ensures a + b + c == a + (b + c)
  {
  }

  function Outcome(commit: bool): Response {
    if commit then Response(Success, None) else Response(Error, Some(GenericErrorText))
  }

  /** Between the idle states `s` and `s'`, either `t` was committed, and carried out exactly once by each
      replica of its key and by nobody else, or nothing changed in any store. */
  ghost predicate TxnEffect(c: Config, s: State, t: Txn, s': State) {
    && Shaped(c, s) && Shaped(c, s')
    && (s'.committed == s.committed || s'.committed == s.committed + [t])
    && forall f :: f in c.ids ==>
         if s'.committed == s.committed + [t] && f in c.replicas(t.key)
         then s'.applied[f] == s.applied[f] + [t] && s'.nodes[f].store == Apply(s.nodes[f].store, t)
         else s'.applied[f] == s.applied[f] && s'.nodes[f].store == s.nodes[f].store
  }

  lemma AttemptEnds(c: Config, s0: State, txn: Txn, steps: seq<Step>, s: State)
    requires Reachable(c, s0) && s0.phase.Idle? && Attempt(c, s0, txn, steps, s) && s.phase.Idle?
    ensures Reachable(c, s) && TxnEffect(c, s0, txn, s)
  {
    ReachableOn(c, s0, [Begin(txn)] + steps, s);
    Atomicity(c, s0, txn, steps, s);
  }

  /** The ring nodes that hold a key hashing to `h`, in the order the handlers visit them. */
  ghost function RingPath(ms: seq<TpcFollower>, redundancy: nat, h: nat): (path: seq<TpcFollower>)
    requires redundancy <= |ms|
    ensures |path| == redundancy
  {
    FirstAboveInRange(IdsOf(ms), h, 0);
    seq(redundancy, i requires 0 <= i < redundancy => ms[Around(Primary(IdsOf(ms), h), i, |ms|)])
  }

  lemma RingPathFollowsNext(ms: seq<TpcFollower>, redundancy: nat, h: nat)
    requires redundancy <= |ms| && Linked(ms)
    ensures Path(RingPath(ms, redundancy, h), Replicas(IdsOf(ms), redundancy, h))
  {
    FirstAboveInRange(IdsOf(ms), h, 0);
  }

  /** The transactions answered with SUCCESS. */
  function Succeeded(txns: seq<Txn>, results: seq<Response>): seq<Txn>
    requires |txns| == |results|
    decreases |txns|
  {
    if txns == [] then []
    else
      var last := |txns| - 1;
      Succeeded(txns[..last], results[..last]) + if results[last].kind == Success then [txns[last]] else []
  }

  lemma SucceededNext(txns: seq<Txn>, results: seq<Response>, t: Txn, r: Response)
    requires |txns| == |results|
    ensures Succeeded(txns + [t], results + [r]) ==
      Succeeded(txns, results) + if r.kind == Success then [t] else []
  {
    assert (txns + [t])[..|txns|] == txns && (results + [r])[..|txns|] == results;
  }

  lemma SucceededReplay(m: map<CStr, CStr>, txns: seq<Txn>, results: seq<Response>, t: Txn, r: Response)
    requires |txns| == |results|
    ensures Replay(m, Succeeded(txns + [t], results + [r])) ==
      var before := Replay(m, Succeeded(txns, results));
      if r.kind == Success then Apply(before, t) else before
  {
    SucceededNext(txns, results, t, r);
    ReplayDone(m, Succeeded(txns, results), if r.kind == Success then [t] else [], t);
  }

  /** Each answer is what the votes that arrived, and the map that the earlier successes left, call for. */
  ghost predicate Answered(m: map<CStr, CStr>, txns: seq<Txn>, ws: seq<Fate>, results: seq<Response>)
    decreases |txns|
  {
    && |txns| == |ws| == |results|
    && (txns != [] ==>
          var last := |txns| - 1;
          && Answered(m, txns[..last], ws[..last], results[..last])
          && results[last] == Outcome(Carried(Replay(m, Succeeded(txns[..last], results[..last])), txns[last], ws[last].votes)))
  }

  lemma {:induction false} AnsweredPrefix(m: map<CStr, CStr>, txns: seq<Txn>, ws: seq<Fate>, results: seq<Response>, n: nat)
    requires Answered(m, txns, ws, results) && n <= |txns|
    ensures Answered(m, txns[..n], ws[..n], results[..n])
    decreases |txns|
  {
    if n == |txns| {
      Whole(txns);
      Whole(ws);
      Whole(results);
    } else {
      var last := |txns| - 1;
      assert txns[..last][..n] == txns[..n] && ws[..last][..n] == ws[..n] && results[..last][..n] == results[..n];
      AnsweredPrefix(m, txns[..last], ws[..last], results[..last], n);
    }
  }

  /** Every vote arrives and, for a DELETE, is one for deleting a key that is there. */
  predicate Granted(t: Txn, votes: seq<Delivery>, present: bool) {
    forall j :: 0 <= j < |votes| ==> Consent(t, votes[j], present)
  }

  predicate Consent(t: Txn, d: Delivery, present: bool) { d.Replied? && (t.Del? ==> 1 <= |t.key| <= 1024 && present) }

  /** Transaction `n` succeeds exactly if every vote arrives and, for a DELETE, there is something to delete. */
  ghost predicate AnsweredRight(m: map<CStr, CStr>, txns: seq<Txn>, ws: seq<Fate>, results: seq<Response>, n: nat)
    requires n < |txns| == |ws| == |results|
  {
    results[n] ==
      if Granted(txns[n], ws[n].votes, Present(m, txns, results, n, txns[n].key)) then Response(Success, None)
      else Response(Error, Some(GenericErrorText))
  }

  lemma AnswersAreRight(m: map<CStr, CStr>, txns: seq<Txn>, ws: seq<Fate>, results: seq<Response>, n: nat)
    requires Answered(m, txns, ws, results) && n < |txns|
    ensures AnsweredRight(m, txns, ws, results, n)
  {
    AnsweredPrefix(m, txns, ws, results, n + 1);
    OneMore(txns, n);
    OneMore(ws, n);
    OneMore(results, n);
    var now := Replay(m, Succeeded(txns[..n], results[..n]));
    LastWriteDecides(m, txns, results, n, txns[n].key);
    TellsPresence(now, m, txns, results, n, txns[n].key);
    CarriedMeans(now, txns[n], ws[n].votes);
  }

  lemma CarriedMeans(m: map<CStr, CStr>, t: Txn, votes: seq<Delivery>)
    ensures Carried(m, t, votes) <==> Granted(t, votes, t.key in m)
  {
    assert forall j :: 0 <= j < |votes| ==> (Allowed(m, t, votes[j]) <==> Consent(t, votes[j], t.key in m));
  }

  /** What the answers say about each transaction, and what the replay of those that succeeded says about a key. */
  lemma SessionMeans(m: map<CStr, CStr>, txns: seq<Txn>, ws: seq<Fate>, results: seq<Response>, key: CStr)
    requires Answered(m, txns, ws, results)
    ensures forall n :: 0 <= n < |txns| ==> AnsweredRight(m, txns, ws, results, n)
    ensures Tells(Replay(m, Succeeded(txns, results)), m, txns, results, |txns|, key)
  {
    forall n | 0 <= n < |txns| ensures AnsweredRight(m, txns, ws, results, n) {
      AnswersAreRight(m, txns, ws, results, n);
    }
    Whole(txns);
    Whole(results);
    LastWriteDecides(m, txns, results, |txns|, key);
  }

  lemma AnsweredNext(m: map<CStr, CStr>, txns: seq<Txn>, ws: seq<Fate>, results: seq<Response>, t: Txn, w: Fate, r: Response)
    requires Answered(m, txns, ws, results)
    requires r == Outcome(Carried(Replay(m, Succeeded(txns, results)), t, w.votes))
    ensures Answered(m, txns + [t], ws + [w], results + [r])
  {
    var n := |txns|;
    assert (txns + [t])[..n] == txns && (ws + [w])[..n] == ws && (results + [r])[..n] == results;
  }

  lemma OneMore<T>(s: seq<T>, i: nat)
    requires i < |s|
    ensures s[..i + 1] == s[..i] + [s[i]]
  {
  }

  lemma Whole<T>(s: seq<T>)
    ensures s[..|s|] == s
  {
  }

  /** A key of 1 to 1024 characters and a value of at most 1024: the limits of a follower's store. */
  predicate Within(t: Txn) { 1 <= |t.key| <= 1024 && (t.Put? ==> |t.value| <= 1024) }

  /** A transaction on `key` within the limits that the client was told succeeded. */
  predicate Writes(t: Txn, r: Response, key: CStr) { r.kind == Success && t.key == key && Within(t) }

  /** Of the first `n` transactions, number `i` is the last that wrote `key`. */
  ghost predicate LastWrite(txns: seq<Txn>, results: seq<Response>, n: nat, key: CStr, i: int)
    requires n <= |txns| == |results|
  {
    0 <= i < n && Writes(txns[i], results[i], key) && forall j :: i < j < n ==> !Writes(txns[j], results[j], key)
  }

  /** After the first `n` transactions `key` is there: the last one that wrote it was a PUT, or none did and it was in `m`. */
  ghost predicate Present(m: map<CStr, CStr>, txns: seq<Txn>, results: seq<Response>, n: nat, key: CStr)
    requires n <= |txns| == |results|
  {
    || (exists i :: LastWrite(txns, results, n, key, i) && txns[i].Put?)
    || (key in m && forall i :: !LastWrite(txns, results, n, key, i))
  }

  /** A committed update outside the limits does nothing. */
  lemma ApplyMeans(m: map<CStr, CStr>, t: Txn)
    ensures Apply(m, t) == if Within(t) then if t.Put? then m[t.key := t.value] else m - {t.key} else m
  {
  }

  /** What one committed update does to the value of a key. */
  lemma ApplyWrites(m: map<CStr, CStr>, t: Txn, key: CStr)
    ensures t.key == key && Within(t) ==> (key in Apply(m, t) <==> t.Put?) && (t.Put? ==> Apply(m, t)[key] == t.value)
    ensures !(t.key == key && Within(t)) ==> (key in Apply(m, t) <==> key in m) && (key in m ==> Apply(m, t)[key] == m[key])
  {
  }

  lemma LastWriteNext(txns: seq<Txn>, results: seq<Response>, n: nat, next: nat, key: CStr)
    requires next == n + 1 <= |txns| == |results|
    ensures Writes(txns[n], results[n], key) ==> LastWrite(txns, results, next, key, n)
    ensures forall i :: LastWrite(txns, results, next, key, i) ==>
      if Writes(txns[n], results[n], key) then i == n else LastWrite(txns, results, n, key, i)
    ensures forall i :: LastWrite(txns, results, n, key, i) && !Writes(txns[n], results[n], key) ==> LastWrite(txns, results, next, key, i)
  {
  }

  /** `now` holds for `key` what the first `n` transactions made of `m`: the last one that wrote the key decides. */
  ghost predicate Tells(now: map<CStr, CStr>, m: map<CStr, CStr>, txns: seq<Txn>, results: seq<Response>, n: nat, key: CStr)
    requires n <= |txns| == |results|
  {
    && (forall i :: LastWrite(txns, results, n, key, i) ==>
          (key in now <==> txns[i].Put?) && (txns[i].Put? ==> now[key] == txns[i].value))
    && ((forall i :: !LastWrite(txns, results, n, key, i)) ==>
          (key in now <==> key in m) && (key in m ==> now[key] == m[key]))
  }

  lemma TellsNext(before: map<CStr, CStr>, now: map<CStr, CStr>, m: map<CStr, CStr>, txns: seq<Txn>, results: seq<Response>,
                  n: nat, next: nat, key: CStr)
    requires next == n + 1 <= |txns| == |results| && Tells(before, m, txns, results, n, key)
    requires now == if results[n].kind == Success then Apply(before, txns[n]) else before
    ensures Tells(now, m, txns, results, next, key)
  {
    LastWriteNext(txns, results, n, next, key);
    ApplyWrites(before, txns[n], key);
  }

  /** So does the replay of the transactions that succeeded. */
  lemma {:induction false} LastWriteDecides(m: map<CStr, CStr>, txns: seq<Txn>, results: seq<Response>, n: nat, key: CStr)
    requires n <= |txns| == |results|
    ensures Tells(Replay(m, Succeeded(txns[..n], results[..n])), m, txns, results, n, key)
    decreases n
  {
    if n == 0 {
      assert txns[..0] == [] && results[..0] == [];
    } else {
      LastWriteDecides(m, txns, results, n - 1, key);
      OneMore(txns, n - 1);
      OneMore(results, n - 1);
      SucceededReplay(m, txns[..n - 1], results[..n - 1], txns[n - 1], results[n - 1]);
      TellsNext(Replay(m, Succeeded(txns[..n - 1], results[..n - 1])), Replay(m, Succeeded(txns[..n], results[..n])),
                m, txns, results, n - 1, n, key);
    }
  }

  lemma TellsPresence(now: map<CStr, CStr>, m: map<CStr, CStr>, txns: seq<Txn>, results: seq<Response>, n: nat, key: CStr)
    requires n <= |txns| == |results| && Tells(now, m, txns, results, n, key)
    ensures key in now <==> Present(m, txns, results, n, key)
  {
  }

  /** What a GET returns when the followers agree on `m` and the replicas `up` can be reached. */
  function Read(m: map<CStr, CStr>, key: CStr, up: seq<bool>): Response {
    if (exists j :: 0 <= j < |up| && up[j]) && |key| <= MAX_KEYLEN && key in m then Response(GetResp, Some(Value(m[key])))
    else Response(Error, Some(NoKeyText))
  }

  lemma AgreeAfterTxn(c: Config, m: map<CStr, CStr>, s: State, t: Txn, s': State)
    requires TxnEffect(c, s, t, s') && Agree(c, m, s)
    ensures Agree(c, if s'.committed != s.committed then Apply(m, t) else m, s')
  {
    forall f | f in c.ids { ShareApply(c, m, t, f); }
  }

  class TpcLeader {
    const hash: CStr -> nat
    const capacity: nat
    const redundancy: nat
    var count: nat
    var head: TpcFollower?
    ghost var members: seq<TpcFollower>

    /** Following `next` from the head visits `members` and returns to the head; `prev` mirrors
        `next`; ids ascend from the head. */
    ghost predicate Valid()
      reads this, members
    {
      && count == |members| <= capacity && redundancy <= capacity
      && head == (if members == [] then null else members[0])
      && IdsAscend(members) && Linked(members)
    }

    ghost function Ids(): seq<nat>
      reads this
    {
      IdsOf(members)
    }

    constructor (capacity: nat, redundancy: nat, hash: CStr -> nat)
      ensures Valid() && members == []
      ensures this.capacity == capacity && this.hash == hash
      ensures this.redundancy == if redundancy > capacity then capacity else redundancy
    {
      this.hash, this.capacity := hash, capacity;
      this.redundancy := if redundancy > capacity then capacity else redundancy;
      count, head, members := 0, null, [];
    }

    /** Registers the follower at `host`:`port`. */
    method Register(host: CStr, port: CStr) returns (res: Response)
      requires Valid()
      modifies this`members, this`count, this`head, members
      ensures Valid()
      ensures old(|members|) == capacity ==> res == Response(Error, Some(FollowerCapacityText))
      ensures old(|members|) < capacity ==> res == Response(Success, None)
      ensures forall a: CStr, x :: IsAddress(a, host, port) ==>
        (x in Ids() <==> x in old(Ids()) || (old(|members|) < capacity && x == hash(a)))
      ensures exists a: CStr :: IsAddress(a, host, port) && Ids() == Registered(old(Ids()), capacity, hash(a))
      ensures members == old(members) || exists f :: f in members && fresh(f) && f.host == host && f.port == port
    {
      AddressUnique(host, port);
      InsertElements(Ids(), hash(Address(host, port)));
      if count == capacity {
        return Response(Error, Some(FollowerCapacityText));
      }
      var n := new TpcFollower(hash(Address(host, port)), host, port);
      res := Response(Success, None);
      Enter(n);
    }

    /** Puts a new follower in its place in the ring, unless its id is there already. */
    method Enter(n: TpcFollower)
      requires Valid() && n !in members && n.next == n.prev == n && count < capacity
      modifies this`members, this`count, this`head, n, members
      ensures Valid() && Ids() == Insert(old(Ids()), n.id)
      ensures members == old(members) || (n in members && forall f :: f in old(members) ==> f in members)
    {
      if head == null {
        head, count, members := n, count + 1, [n];
        assert Ids() == [n.id];
      } else {
        var at, there, wrapped, k := FindPlace(n.id);
        InsertAt(Ids(), n.id, k);
        if !there {
          Splice(n, at, !wrapped && at == head, k);
        }
      }
    }

    /** Walks from the head to the first follower with an id of at least `id`, or all the way round to the head;
        `there` says whether it has that very id. */
    method FindPlace(id: nat) returns (at: TpcFollower, there: bool, wrapped: bool, ghost k: nat)
      requires Valid() && head != null
      ensures k <= |members| && at == members[if k == |members| then 0 else k]
      ensures forall j :: 0 <= j < k ==> members[j].id < id
      ensures k < |members| ==> members[k].id >= id
      ensures (there <==> k < |members| && members[k].id == id) && (wrapped <==> k == |members|)
    {
      at, there, wrapped, k := head, false, false, 0;
      while true
        invariant 0 <= k < |members| && at == members[k] && !there && !wrapped
        invariant forall j :: 0 <= j < k ==> members[j].id < id
        decreases |members| - k
      {
        if at.id > id { return; }
        if at.id == id { there := true; return; }
        assert k + 1 < |members| ==> members[0].id < members[k + 1].id;
        at := at.next;
        k := k + 1;
        if at == head { wrapped := true; return; }
      }
    }

    /** The first follower that holds `key`; null while the ring is not full. */
    method GetPrimary(key: CStr) returns (f: TpcFollower?)
      requires Valid() && capacity > 0
      ensures count < capacity ==> f == null
      ensures count == capacity ==> Primary(Ids(), hash(key)) < |members| && f == members[Primary(Ids(), hash(key))]
    {
      if count < capacity { return null; }
      var h := hash(key);
      f := head;
      ghost var k := 0;
      while true
        invariant 0 <= k < |members| && f == members[k]
        invariant Primary(Ids(), h) == FirstAbove(Ids(), h, k)
        decreases |members| - k
      {
        if f.id > h { return; }
        f := f.next;
        k := k + 1;
        if f == head { break; }
      }
    }

    ghost function Cfg(): Config
      reads this, members
      requires Valid() && count == capacity
    {
      RingConfig(Ids(), redundancy, hash)
    }

    /** Runs a client's PUT or DELETE through both phases, under the network's `w`. */
    method HandleTpc(net: Network, txn: Txn, w: Fate) returns (res: Response)
      requires Valid() && capacity > 0
      requires count == capacity ==> FateFor(w, redundancy) && Reachable(Cfg(), net.View(Idle)) && Shaped(Cfg(), net.View(Idle))
      modifies net
      ensures count < capacity ==> unchanged(net) && res == Response(Error, Some(NotAtCapacityText))
      ensures count == capacity ==>
        && Reachable(Cfg(), net.View(Idle))
        && (var commit := Unanimous(Cfg(), old(net.View(Idle)), txn, w.votes, redundancy);
            res == Outcome(commit) && net.committed == old(net.committed) + if commit then [txn] else [])
        && TxnEffect(Cfg(), old(net.View(Idle)), txn, net.View(Idle))
    {
      if count != capacity {
        return Response(Error, Some(NotAtCapacityText));
      }
      ghost var path := RingPath(members, redundancy, hash(txn.key));
      RingPathFollowsNext(members, redundancy, hash(txn.key));
      var primary := GetPrimary(txn.key);
      res := RunTransaction(net, primary, redundancy, txn, w, Cfg(), path);
    }

    /** The ring is full, no transaction is under way, and the followers agree on `m`. */
    ghost predicate Ready(net: Network, m: map<CStr, CStr>)
      reads this, members, net
    {
      && Valid() && count == capacity > 0
      && Reachable(Cfg(), net.View(Idle)) && Shaped(Cfg(), net.View(Idle)) && Agree(Cfg(), m, net.View(Idle))
    }

    /** Answers a client's GET, when the replicas that can be reached are those `up`. With the followers agreeing on
        `m`, as they do after every run, the answer is the value of the key in `m` if any replica is up. */
    method HandleGet(net: Network, key: CStr, up: seq<bool>, ghost m: map<CStr, CStr>) returns (res: Response)
      requires Ready(net, m) && |up| == redundancy
      modifies net
      ensures Ready(net, m) && net.View(Idle) == old(net.View(Idle))
      ensures res ==
        if (exists j :: 0 <= j < |up| && up[j]) && |key| <= 1024 && key in m then Response(GetResp, Some(Value(m[key])))
        else Response(Error, Some(NoKeyText))
    {
      res := ReadKey(net, key, up, Cfg(), m);
    }

    method ReadKey(net: Network, key: CStr, up: seq<bool>, ghost c: Config, ghost m: map<CStr, CStr>) returns (res: Response)
      requires Valid() && count == capacity > 0 && c == Cfg() && |up| == redundancy
      requires Shaped(c, net.View(Idle)) && Agree(c, m, net.View(Idle))
      modifies net
      ensures net.View(Idle) == old(net.View(Idle)) && res == Read(m, key, up)
    {
      ghost var path := RingPath(members, redundancy, hash(key));
      RingPathFollowsNext(members, redundancy, hash(key));
      var primary := GetPrimary(key);
      res := ReadFromReplicas(net, primary, redundancy, key, up, c, path, m);
    }

    /** A transaction takes followers that agree on `m` to followers that agree on its result, and succeeds exactly
        if every vote arrives and `m` allows it. */
    method HandleTxn(net: Network, txn: Txn, w: Fate, ghost m: map<CStr, CStr>) returns (res: Response)
      requires Ready(net, m) && FateFor(w, redundancy)
      modifies net
      ensures res == if Granted(txn, w.votes, txn.key in m) then Response(Success, None) else Response(Error, Some(GenericErrorText))
      ensures Ready(net, if res.kind == Success && Within(txn) then if txn.Put? then m[txn.key := txn.value] else m - {txn.key} else m)
    {
      CarriedMeans(m, txn, w.votes);
      ApplyMeans(m, txn);
      res := Transact(net, txn, w, m);
    }

    method Transact(net: Network, txn: Txn, w: Fate, ghost m: map<CStr, CStr>) returns (res: Response)
      requires Ready(net, m) && FateFor(w, redundancy)
      modifies net
      ensures res == Outcome(Carried(m, txn, w.votes))
      ensures Ready(net, if res.kind == Success then Apply(m, txn) else m)
    {
      ghost var s := net.View(Idle);
      UnanimousAgreed(Cfg(), m, s, txn, w.votes);
      res := HandleTpc(net, txn, w);
      AgreeAfterTxn(Cfg(), m, s, txn, net.View(Idle));
    }

    /** A whole session: a sequence of PUTs and DELETEs, then a GET, over a network that loses what it
        likes. Each request succeeds exactly if its votes arrive and, for a DELETE, the key is there; the followers end
        up agreeing on the replay of exactly the transactions the client was told succeeded; and the last of those that
        wrote the key decides the GET: a PUT's value is returned if any replica is up, a deleted key is not found. */
    method Session(net: Network, txns: seq<Txn>, ws: seq<Fate>, key: CStr, up: seq<bool>, ghost m: map<CStr, CStr>)
      returns (results: seq<Response>, res: Response)
      requires Ready(net, m) && |up| == redundancy
      requires |ws| == |txns| && forall i :: 0 <= i < |ws| ==> FateFor(ws[i], redundancy)
      modifies net
      ensures |results| == |txns| && Ready(net, Replay(m, Succeeded(txns, results)))
      ensures forall n :: 0 <= n < |txns| ==> AnsweredRight(m, txns, ws, results, n)
      ensures forall i :: LastWrite(txns, results, |txns|, key, i) ==>
        res == if txns[i].Put? && (exists j :: 0 <= j < |up| && up[j]) then Response(GetResp, Some(Value(txns[i].value)))
               else Response(Error, Some(NoKeyText))
      ensures (forall i :: !LastWrite(txns, results, |txns|, key, i)) ==>
        res == if (exists j :: 0 <= j < |up| && up[j]) && |key| <= 1024 && key in m then Response(GetResp, Some(Value(m[key])))
               else Response(Error, Some(NoKeyText))
    {
      results, res := Converse(net, txns, ws, key, up, m);
      SessionMeans(m, txns, ws, results, key);
    }

    method Converse(net: Network, txns: seq<Txn>, ws: seq<Fate>, key: CStr, up: seq<bool>, ghost m: map<CStr, CStr>)
      returns (results: seq<Response>, res: Response)
      requires Ready(net, m) && |up| == redundancy
      requires |ws| == |txns| && forall i :: 0 <= i < |ws| ==> FateFor(ws[i], redundancy)
      modifies net
      ensures Answered(m, txns, ws, results) && Ready(net, Replay(m, Succeeded(txns, results)))
      ensures res == Read(Replay(m, Succeeded(txns, results)), key, up)
    {
      results := [];
      for i := 0 to |txns|
        invariant Answered(m, txns[..i], ws[..i], results) && Ready(net, Replay(m, Succeeded(txns[..i], results)))
      {
        var r := Transact(net, txns[i], ws[i], Replay(m, Succeeded(txns[..i], results)));
        SucceededReplay(m, txns[..i], results, txns[i], r);
        AnsweredNext(m, txns[..i], ws[..i], results, txns[i], ws[i], r);
        OneMore(txns, i);
        OneMore(ws, i);
        results := results + [r];
      }
      Whole(txns);
      Whole(ws);
      res := HandleGet(net, key, up, Replay(m, Succeeded(txns, results)));
    }

    /** Puts `n` before `at`, at position `k` of the ring. */
    method Splice(n: TpcFollower, at: TpcFollower, newHead: bool, ghost k: nat)
      requires Valid() && n !in members && members != []
      requires k <= |members| < capacity && newHead == (k == 0)
      requires at == members[if k == |members| then 0 else k]
      requires forall j :: 0 <= j < k ==> members[j].id < n.id
      requires k < |members| ==> members[k].id > n.id
      modifies this`members, this`count, this`head, n, members
      ensures Valid() && Ids() == Insert(old(Ids()), n.id) && members == old(members[..k]) + [n] + old(members[k..])
    {
      ghost var ns := members[..k] + [n] + members[k..];
      assert |ns| == |members| + 1 && ns[0] == if k == 0 then n else members[0];
      IdsAscendInserted(members, n, k);
      IdsInserted(members, n, k);
      IdsDistinct(members);
      Link(n, at, members, k, ns);
      Grow(if newHead then n else head, ns);
    }

    /** The ring now consists of `ns`, one follower more. */
    method Grow(first: TpcFollower, ghost ns: seq<TpcFollower>)
      requires ns != [] && first == ns[0] && |ns| == count + 1 <= capacity && redundancy <= capacity
      requires IdsAscend(ns) && Linked(ns)
      modifies this`members, this`count, this`head
      ensures Valid() && members == ns
    {
      head := first;
      count := count + 1;
      members := ns;
    }
  }

  // ---------- the request handlers' walks ----------

  /** Following `next` from `path[0]` meets the followers with the given ids. */
  ghost predicate Path(path: seq<TpcFollower>, ids: seq<nat>)
    reads path
  {
    && |path| == |ids|
    && (forall i :: 0 <= i < |path| ==> path[i].id == ids[i])
    && (forall i :: 0 <= i < |path| - 1 ==> path[i].next == path[i + 1])
  }

  /** The follower after `predecessor`, position `i` of a walk along the ring. */
  method GetSuccessor(predecessor: TpcFollower, ghost path: seq<TpcFollower>, ghost ids: seq<nat>, ghost i: nat) returns (f: TpcFollower)
    requires Path(path, ids) && i < |path| && predecessor == path[i]
    ensures i + 1 < |path| ==> f == path[i + 1] && f.id == ids[i + 1]
  {
    f := predecessor.next;
  }

  /** One phase 1 exchange with `f`, replica `i`. */
  method Ask(net: Network, f: TpcFollower, txn: Txn, aborts: nat, d: Delivery, ghost i: nat) returns (aborts': nat)
    requires f.id in net.nodes && f.id in net.applied
    modifies net
    ensures net.committed == old(net.committed)
    ensures net.View(Voting(txn, i + 1, aborts')) == AfterPoll(old(net.View(Voting(txn, i, aborts))), f.id, d)
  {
    var answer := net.Call(f.id, RequestOf(txn), d);
    aborts' := if IsCommitVote(answer) then aborts else aborts + 1;
  }

  /** `s` is reached by polling the first `i` replicas, with the fates `votes`, and has counted their votes right. */
  ghost predicate Polling(c: Config, s0: State, txn: Txn, votes: seq<Delivery>, i: nat, steps: seq<Step>, s: State) {
    && Shaped(c, s0) && s0.phase.Idle? && i <= |votes| == c.redundancy
    && Tallied(c, s0, txn, votes, i, s) && Attempt(c, s0, txn, steps, s)
  }

  lemma PollingContinues(c: Config, s0: State, txn: Txn, votes: seq<Delivery>, i: nat, steps: seq<Step>, s: State)
    requires i < |votes| && Polling(c, s0, txn, votes, i, steps, s)
    ensures Polling(c, s0, txn, votes, i + 1, steps + [Poll(votes[i])], Next(c, s, Poll(votes[i])))
  {
    TallyNext(c, s0, txn, votes, i, s);
    AttemptContinues(c, s0, txn, steps, s, Poll(votes[i]));
  }

  /** The walk is at the replica that the protocol talks to. */
  lemma WalkAtTarget(c: Config, path: seq<TpcFollower>, s: State)
    requires Shaped(c, s) && !s.phase.Idle? && s.phase.i < c.redundancy && Path(path, c.replicas(s.phase.txn.key))
    ensures s.phase.i < |path| && path[s.phase.i].id == Target(c, s)
  {
    assert c.ValidPlacement(c.replicas(s.phase.txn.key));
  }

  /** One turn of the phase 1 loop. */
  method CollectVote(net: Network, f: TpcFollower, txn: Txn, aborts: nat, votes: seq<Delivery>, i: nat,
                     ghost c: Config, ghost path: seq<TpcFollower>, ghost s0: State, ghost steps: seq<Step>)
    returns (aborts': nat, ghost steps': seq<Step>)
    requires i < |votes| && Polling(c, s0, txn, votes, i, steps, net.View(Voting(txn, i, aborts)))
    requires Path(path, c.replicas(txn.key)) && i < |path| && f == path[i]
    modifies net
    ensures net.committed == old(net.committed)
    ensures Polling(c, s0, txn, votes, i + 1, steps', net.View(Voting(txn, i + 1, aborts')))
  {
    WalkAtTarget(c, path, net.View(Voting(txn, i, aborts)));
    PollingContinues(c, s0, txn, votes, i, steps, net.View(Voting(txn, i, aborts)));
    steps' := steps + [Poll(votes[i])];
    aborts' := Ask(net, f, txn, aborts, votes[i], i);
  }

  /** Phase 1: asks each replica of the key for its vote. */
  method CollectVotes(net: Network, primary: TpcFollower, redundancy: nat, txn: Txn, votes: seq<Delivery>,
                      ghost c: Config, ghost path: seq<TpcFollower>)
    returns (aborts: nat, ghost steps: seq<Step>)
    requires c.redundancy == redundancy == |votes| && Path(path, c.replicas(txn.key)) && (path != [] ==> primary == path[0])
    requires Shaped(c, net.View(Idle))
    modifies net
    ensures net.committed == old(net.committed)
    ensures Polling(c, old(net.View(Idle)), txn, votes, redundancy, steps, net.View(Voting(txn, redundancy, aborts)))
  {
    ghost var s0 := net.View(Idle);
    var curr := primary;
    var r := redundancy;
    aborts, steps := 0, [];
    AttemptBegins(c, s0, txn);
    TallyNone(c, s0, txn, votes);
    assert c.ValidPlacement(c.replicas(txn.key));
    var i := 0;
    while r > 0
      invariant r + i == redundancy == |path| && net.committed == old(net.committed)
      invariant r > 0 ==> curr == path[i]
      invariant Polling(c, s0, txn, votes, i, steps, net.View(Voting(txn, i, aborts)))
    {
      aborts, steps := CollectVote(net, curr, txn, aborts, votes, i, c, path, s0, steps);
      curr := GetSuccessor(curr, path, c.replicas(txn.key), i);
      i := i + 1;
      r := r - 1;
    }
  }

  /** One phase 2 exchange with `f`, replica `i`. */
  method Tell(net: Network, f: TpcFollower, txn: Txn, commit: bool, d: Delivery, ghost i: nat) returns (acked: bool)
    requires f.id in net.nodes && f.id in net.applied
    modifies net
    ensures net.committed == old(net.committed)
    ensures net.View(Settling(txn, commit, i + if acked then 1 else 0)) == AfterNotify(old(net.View(Settling(txn, commit, i))), f.id, d)
  {
    var answer := net.Call(f.id, Decision(txn, commit), d);
    acked := IsAck(answer);
  }

  /** From a reachable state, an answered notification is an acknowledgement. */
  lemma AnsweredIsAcked(c: Config, s0: State, txn: Txn, steps: seq<Step>, s: State)
    requires Reachable(c, s0) && Attempt(c, s0, txn, steps, s) && s.phase.Settling? && s.phase.i < c.redundancy
    ensures Next(c, s, Notify(Replied)).phase.i == s.phase.i + 1
  {
    ReachableOn(c, s0, [Begin(txn)] + steps, s);
    var base := ReachableInv(c, s);
    NotifyAdvances(c, base, s);
  }

  /** Repeats the decision to `f`, replica `i`, until it is acknowledged: at the latest after the exchanges
      with the fates `retries`. */
  method TellUntilAcked(net: Network, f: TpcFollower, txn: Txn, commit: bool, retries: seq<Delivery>,
                        ghost c: Config, ghost path: seq<TpcFollower>, ghost i: nat, ghost s0: State, ghost steps: seq<Step>)
    returns (ghost steps': seq<Step>)
    requires Reachable(c, s0) && Attempt(c, s0, txn, steps, net.View(Settling(txn, commit, i))) && i < c.redundancy
    requires Path(path, c.replicas(txn.key)) && i < |path| && f == path[i]
    modifies net
    ensures net.committed == old(net.committed)
    ensures Attempt(c, s0, txn, steps', net.View(Settling(txn, commit, i + 1)))
  {
    steps' := steps;
    WalkAtTarget(c, path, net.View(Settling(txn, commit, i)));
    var acked, n := false, 0;
    while !acked
      invariant net.committed == old(net.committed) && n <= |retries| + 1 && (n == |retries| + 1 ==> acked)
      invariant Attempt(c, s0, txn, steps', net.View(Settling(txn, commit, i + if acked then 1 else 0)))
      decreases |retries| + 1 - n
    {
      var d := if n < |retries| then retries[n] else Replied;
      ghost var s := net.View(Settling(txn, commit, i));
      AnsweredIsAcked(c, s0, txn, steps', s);
      AttemptContinues(c, s0, txn, steps', s, Notify(d));
      acked := Tell(net, f, txn, commit, d, i);
      steps' := steps' + [Notify(d)];
      n := n + 1;
    }
  }

  /** Phase 2: repeats the decision to each replica until it is acknowledged. */
  method SpreadDecision(net: Network, primary: TpcFollower, redundancy: nat, txn: Txn, commit: bool, retries: seq<seq<Delivery>>,
                        ghost c: Config, ghost path: seq<TpcFollower>, ghost s0: State, ghost steps: seq<Step>)
    returns (ghost steps': seq<Step>)
    requires c.redundancy == redundancy == |retries| && Path(path, c.replicas(txn.key)) && (path != [] ==> primary == path[0])
    requires Reachable(c, s0) && Attempt(c, s0, txn, steps, net.View(Settling(txn, commit, 0)))
    modifies net
    ensures net.committed == old(net.committed)
    ensures Attempt(c, s0, txn, steps', net.View(Settling(txn, commit, redundancy)))
  {
    var curr := primary;
    var r := redundancy;
    steps' := steps;
    var i := 0;
    while r > 0
      invariant r + i == redundancy == |path| && net.committed == old(net.committed)
      invariant r > 0 ==> curr == path[i]
      invariant Attempt(c, s0, txn, steps', net.View(Settling(txn, commit, i)))
    {
      steps' := TellUntilAcked(net, curr, txn, commit, retries[i], c, path, i, s0, steps');
      curr := GetSuccessor(curr, path, c.replicas(txn.key), i);
      i := i + 1;
      r := r - 1;
    }
  }

  /** Both phases of one transaction. */
  method RunTransaction(net: Network, primary: TpcFollower, redundancy: nat, txn: Txn, w: Fate,
                        ghost c: Config, ghost path: seq<TpcFollower>) returns (res: Response)
    requires c.redundancy == redundancy && FateFor(w, redundancy)
    requires Path(path, c.replicas(txn.key)) && (path != [] ==> primary == path[0])
    requires Reachable(c, net.View(Idle)) && Shaped(c, net.View(Idle))
    modifies net
    ensures Reachable(c, net.View(Idle))
    ensures var commit := Unanimous(c, old(net.View(Idle)), txn, w.votes, redundancy);
      res == Outcome(commit) && net.committed == old(net.committed) + if commit then [txn] else []
    ensures TxnEffect(c, old(net.View(Idle)), txn, net.View(Idle))
  {
    ghost var s0 := net.View(Idle);
    var aborts, steps := CollectVotes(net, primary, redundancy, txn, w.votes, c, path);
    NoRefusals(c, s0, txn, w.votes, redundancy);
    Settle(net, primary, redundancy, txn, aborts, w.retries, c, path, s0, steps);
    res := Outcome(aborts == 0);
  }

  /** The decision, and phase 2. */
  method Settle(net: Network, primary: TpcFollower, redundancy: nat, txn: Txn, aborts: nat, retries: seq<seq<Delivery>>,
                ghost c: Config, ghost path: seq<TpcFollower>, ghost s0: State, ghost steps: seq<Step>)
    requires c.redundancy == redundancy == |retries| && Path(path, c.replicas(txn.key)) && (path != [] ==> primary == path[0])
    requires Reachable(c, s0) && s0.phase.Idle? && Attempt(c, s0, txn, steps, net.View(Voting(txn, redundancy, aborts)))
    modifies net
    ensures Reachable(c, net.View(Idle)) && TxnEffect(c, s0, txn, net.View(Idle))
    ensures net.committed == old(net.committed) + if aborts == 0 then [txn] else []
  {
    var commit := aborts == 0;
    AttemptContinues(c, s0, txn, steps, net.View(Voting(txn, redundancy, aborts)), Decide);
    if commit { net.committed := net.committed + [txn]; }
    ghost var steps' := SpreadDecision(net, primary, redundancy, txn, commit, retries, c, path, s0, steps + [Decide]);
    AttemptContinues(c, s0, txn, steps', net.View(Settling(txn, commit, redundancy)), Finish);
    AttemptEnds(c, s0, txn, steps' + [Finish], net.View(Idle));
  }

  /** A follower holding its share of `m` answers a GET of one of its keys from `m` and changes nothing. */
  lemma GetEffect(c: Config, m: map<CStr, CStr>, s: State, f: nat, key: CStr, d: Delivery)
    requires Shaped(c, s) && Agree(c, m, s) && f in c.replicas(key) && f in c.ids && !d.ReplyLost?
    ensures Send(s, f, Request(GetReq, Some(key), None), d) == s
    ensures Answer(s, f, Request(GetReq, Some(key), None), d) ==
      if d.Lost? then None
      else if |key| <= MAX_KEYLEN && key in m then Some(Response(GetResp, Some(Value(m[key]))))
      else Some(Response(Error, Some(NoKeyText)))
  {
    var s' := Send(s, f, Request(GetReq, Some(key), None), d);
    assert s.applied[f] + [] == s.applied[f];
    assert s'.nodes == s.nodes && s'.applied == s.applied;
  }

  /** Asks the replicas of `key` in turn until one has it, reaching those that are `up`; a replica that is reached
      answers. */
  method ReadFromReplicas(net: Network, primary: TpcFollower, redundancy: nat, key: CStr, up: seq<bool>,
                          ghost c: Config, ghost path: seq<TpcFollower>, ghost m: map<CStr, CStr>)
    returns (res: Response)
    requires c.redundancy == redundancy == |up| && Path(path, c.replicas(key)) && (path != [] ==> primary == path[0])
    requires Shaped(c, net.View(Idle)) && Agree(c, m, net.View(Idle))
    modifies net
    ensures net.View(Idle) == old(net.View(Idle))
    ensures res == Read(m, key, up)
  {
    var curr := primary;
    var r := redundancy;
    var i := 0;
    assert c.ValidPlacement(c.replicas(key));
    while r > 0
      invariant r + i == redundancy == |path| && net.View(Idle) == old(net.View(Idle))
      invariant r > 0 ==> curr == path[i]
      invariant (exists j :: 0 <= j < i && up[j]) ==> !(|key| <= MAX_KEYLEN && key in m)
    {
      var d := if up[i] then Replied else Lost;
      GetEffect(c, m, net.View(Idle), curr.id, key, d);
      var answer := net.Call(curr.id, Request(GetReq, Some(key), None), d);
      if answer.Some? && answer.value.kind == GetResp {
        return Response(GetResp, answer.value.body);
      }
      curr := curr.next;
      i := i + 1;
      r := r - 1;
    }
    res := Response(Error, Some(NoKeyText));
  }

  /** Links `n` in front of `at`, position `k` of the ring `ms`. */
  method Link(n: TpcFollower, at: TpcFollower, ghost ms: seq<TpcFollower>, ghost k: nat, ghost ns: seq<TpcFollower>)
    requires Linked(ms) && ms != [] && n !in ms && k <= |ms|
    requires forall i, j :: 0 <= i < j < |ms| ==> ms[i] != ms[j]
    requires at == ms[if k == |ms| then 0 else k]
    requires ns == ms[..k] + [n] + ms[k..]
    modifies n, ms
    ensures Linked(ns)
  {
    ghost var before := if k == 0 then |ms| - 1 else k - 1;
    assert at.prev == ms[before];
    n.next := at;
    n.prev := at.prev;
    at.prev := n;
    n.prev.next := n;
    forall i | 0 <= i < |ns|
      ensures ns[i].next == ns[if i + 1 == |ns| then 0 else i + 1]
      ensures ns[i].prev == ns[if i == 0 then |ns| - 1 else i - 1]
    {
      if i < k { assert ns[i] == ms[i]; }
      else if i > k { assert ns[i] == ms[i - 1]; }
    }
  }
}
