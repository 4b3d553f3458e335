/** The two-phase commit protocol as a state machine: the leader of
    hw4/src/tpcleader.c runs one transaction at a time against the followers of
    hw4/src/kvserver.c over a network that can lose every request and every reply.
    Every property is proved of every reachable state of every run. */
module TwoPhaseCommit {
  import opened KvConstants
  import opened Follower

  /** A full leader: the followers, the number of copies of each key, and where the copies go.
      Any placement on distinct followers will do; `Leader` uses the hash ring. */
  datatype Config = Config(ids: set<nat>, redundancy: nat, replicas: CStr -> seq<nat>) {
    ghost predicate Valid() {
      forall k :: ValidPlacement(replicas(k))
    }

    ghost predicate ValidPlacement(rs: seq<nat>) {
      && |rs| == redundancy
      && (forall f :: f in rs ==> f in ids)
      && (forall i, j :: 0 <= i < j < |rs| ==> rs[i] != rs[j])
    }
  }

  /** What the network does to one request. */
  datatype Delivery = Lost | ReplyLost | Replied

  /** Where the leader is: between transactions, asking for the vote of replica `i`
      with `aborts` failed votes so far, or repeating its decision to replica `i`. */
  datatype Phase =
    | Idle
    | Voting(txn: Txn, i: nat, aborts: nat)
    | Settling(txn: Txn, commit: bool, i: nat)

  /** `applied[f]` records the updates follower `f` has carried out, in order;
      `committed` the transactions the leader has decided to commit. */
  datatype State = State(
    nodes: map<nat, Node>,
    applied: map<nat, seq<Txn>>,
    phase: Phase,
    committed: seq<Txn>,
    crashed: bool)

  datatype Step = Begin(txn: Txn) | Poll(d: Delivery) | Decide | Notify(d: Delivery) | Finish

  /** The state after the leader sends `req` to follower `f`. */
  function Send(s: State, f: nat, req: Request, d: Delivery): State
    requires f in s.nodes && f in s.applied
  {
    var h := Handle(s.nodes[f], req);
    if d.Lost? then Changed(s, f, s.nodes[f], [])
    else if h.Crash? then s.(crashed := true)
    else
      Changed(s, f, h.node, if req.kind == Commit && Pending(s.nodes[f].slot).Some? then [Pending(s.nodes[f].slot).value] else [])
  }

  /** `s` after follower `f` became `n` and carried out `done`. */
  function Changed(s: State, f: nat, n: Node, done: seq<Txn>): State
    requires f in s.nodes && f in s.applied
  {
    s.(nodes := s.nodes[f := n], applied := s.applied[f := s.applied[f] + done])
  }

  /** The reply that reaches the leader, if any. */
  function Answer(s: State, f: nat, req: Request, d: Delivery): Option<Response>
    requires f in s.nodes
  {
    match Handle(s.nodes[f], req)
    case Crash => None
    case Reply(_, r) => if d.Replied? then Some(r) else None
  }

  predicate IsCommitVote(r: Option<Response>) {
    r.Some? && r.value.kind == Vote && r.value.body == Some(CommitText)
  }

  predicate IsAck(r: Option<Response>) {
    r.Some? && r.value.kind == Ack
  }

  function Decision(t: Txn, commit: bool): Request {
    RequestOf(t).(kind := if commit then Commit else Abort)
  }

  ghost predicate Shaped(c: Config, s: State) {
    c.Valid() && s.nodes.Keys == c.ids && s.applied.Keys == s.nodes.Keys
  }

  predicate Enabled(c: Config, s: State, step: Step) {
    match step
    case Begin(_) => s.phase.Idle?
    case Poll(_) => s.phase.Voting? && s.phase.i < c.redundancy
    case Decide => s.phase.Voting? && s.phase.i == c.redundancy
    case Notify(_) => s.phase.Settling? && s.phase.i < c.redundancy
    case Finish => s.phase.Settling? && s.phase.i == c.redundancy
  }

  /** The leader asks `f` for its vote, and counts anything but a vote to commit as a refusal. */
  function AfterPoll(s: State, f: nat, d: Delivery): State
    requires s.phase.Voting? && f in s.nodes && f in s.applied
  {
    var req := RequestOf(s.phase.txn);
    var refused := if IsCommitVote(Answer(s, f, req, d)) then 0 else 1;
    Send(s, f, req, d).(phase := Voting(s.phase.txn, s.phase.i + 1, s.phase.aborts + refused))
  }

  /** The leader tells `f` its decision, and moves on once it is acknowledged. */
  function AfterNotify(s: State, f: nat, d: Delivery): State
    requires s.phase.Settling? && f in s.nodes && f in s.applied
  {
    var req := Decision(s.phase.txn, s.phase.commit);
    var acked := if IsAck(Answer(s, f, req, d)) then 1 else 0;
    Send(s, f, req, d).(phase := Settling(s.phase.txn, s.phase.commit, s.phase.i + acked))
  }

  ghost function Next(c: Config, s: State, step: Step): (s': State)
    requires Shaped(c, s) && Enabled(c, s, step)
    ensures Shaped(c, s')
  {
    match step
    case Begin(t) => s.(phase := Voting(t, 0, 0))
    case Poll(d) => AfterPoll(s, Target(c, s), d)
    case Decide =>
      var commit := s.phase.aborts == 0;
      s.(phase := Settling(s.phase.txn, commit, 0),
         committed := if commit then s.committed + [s.phase.txn] else s.committed)
    case Notify(d) => AfterNotify(s, Target(c, s), d)
    case Finish => s.(phase := Idle)
  }

  /** The follower the leader is talking to. */
  ghost function Target(c: Config, s: State): (f: nat)
    requires Shaped(c, s) && !s.phase.Idle? && s.phase.i < c.redundancy
    ensures f in s.nodes && f in s.applied
  {
    assert c.ValidPlacement(c.replicas(s.phase.txn.key));
    c.replicas(s.phase.txn.key)[s.phase.i]
  }

  /** `s'` is reached from `s` by the given steps. */
  ghost predicate Run(c: Config, s: State, steps: seq<Step>, s': State)
    decreases |steps|
  {
    && Shaped(c, s)
    && if steps == [] then s' == s
       else
         var last := |steps| - 1;
         exists mid :: Run(c, s, steps[..last], mid) && Enabled(c, mid, steps[last]) && s' == Next(c, mid, steps[last])
  }

  /** The state the leader starts in: any stores and any pending slots. */
  ghost predicate Initial(c: Config, s: State) {
    && Shaped(c, s)
    && s.phase == Idle && s.committed == [] && !s.crashed
    && forall f :: f in s.applied ==> s.applied[f] == []
  }

  // ---------- replaying committed transactions ----------

  function Replay(base: map<CStr, CStr>, ts: seq<Txn>): map<CStr, CStr>
    decreases |ts|
  {
    if ts == [] then base else Apply(Replay(base, ts[..|ts| - 1]), ts[|ts| - 1])
  }

  /** The transactions of `ts` on keys that follower `f` holds. */
  function Project(c: Config, ts: seq<Txn>, f: nat): seq<Txn>
    decreases |ts|
  {
    if ts == [] then []
    else
      var t := ts[|ts| - 1];
      Project(c, ts[..|ts| - 1], f) + if f in c.replicas(t.key) then [t] else []
  }

  /** The part of a key-value map that follower `f` should hold. */
  function Share(c: Config, m: map<CStr, CStr>, f: nat): map<CStr, CStr>
  {
    map k | k in m && f in c.replicas(k) :: m[k]
  }

  /** Every follower holds its share of `m`. */
  ghost predicate Agree(c: Config, m: map<CStr, CStr>, s: State)
    requires Shaped(c, s)
  {
    forall f :: f in c.ids ==> s.nodes[f].store == Share(c, m, f)
  }

  // ---------- the invariant ----------

  /** Follower `f`, now `n` and having carried out `done`, is where it should be while the leader
      repeats COMMIT of `t` to replica `i` of `rs`. A follower still to be notified holds `t` in its
      slot; the one being notified may have applied it and lost its ACK. */
  ghost predicate CommitStatus(rs: seq<nat>, i: nat, f: nat, n: Node, done: seq<Txn>, t: Txn,
                               before: seq<Txn>, after: seq<Txn>)
    requires i <= |rs|
  {
    || (f in rs[i..] && n.slot == SlotFor(t) && done == before)
    || (f in rs[i..] && f == rs[i] && n.slot == EMPTY_SLOT && done == after)
    || (f !in rs[i..] && done == after)
  }

  ghost predicate InvVoting(c: Config, s: State)
    requires Shaped(c, s) && s.phase.Voting?
  {
    && s.phase.i <= c.redundancy
    && (forall f :: f in s.nodes ==> s.applied[f] == Project(c, s.committed, f))
    && (s.phase.aborts == 0 ==>
          forall f :: f in s.nodes && f in c.replicas(s.phase.txn.key)[..s.phase.i] ==>
            s.nodes[f].slot == SlotFor(s.phase.txn))
  }

  ghost predicate InvCommitting(c: Config, s: State)
    requires Shaped(c, s) && s.phase.Settling?
  {
    var t, i := s.phase.txn, s.phase.i;
    && i <= c.redundancy
    && |s.committed| > 0 && s.committed[|s.committed| - 1] == t
    && forall f :: f in s.nodes ==>
         CommitStatus(c.replicas(t.key), i, f, s.nodes[f], s.applied[f], t,
           Project(c, s.committed[..|s.committed| - 1], f), Project(c, s.committed, f))
  }

  /** Every store is what it was at first with the updates carried out since. */
  ghost predicate StoresReplayed(base: map<nat, map<CStr, CStr>>, nodes: map<nat, Node>, applied: map<nat, seq<Txn>>) {
    && base.Keys == nodes.Keys == applied.Keys
    && forall f :: f in nodes ==> nodes[f].store == Replay(base[f], applied[f])
  }

  lemma StoreReplayed(base: map<nat, map<CStr, CStr>>, nodes: map<nat, Node>, applied: map<nat, seq<Txn>>,
                      f: nat, n: Node, ts: seq<Txn>)
    requires StoresReplayed(base, nodes, applied) && f in nodes && n.store == Replay(base[f], ts)
    ensures StoresReplayed(base, nodes[f := n], applied[f := ts])
  {
  }

  ghost predicate Inv(c: Config, base: map<nat, map<CStr, CStr>>, s: State) {
    && Shaped(c, s) && !s.crashed
    && StoresReplayed(base, s.nodes, s.applied)
    && (s.phase.Voting? ==> InvVoting(c, s))
    && (s.phase.Settling? && s.phase.commit ==> InvCommitting(c, s))
    && (s.phase.Idle? || (s.phase.Settling? && !s.phase.commit) ==>
          forall f :: f in s.nodes ==> s.applied[f] == Project(c, s.committed, f))
    && (s.phase.Settling? ==> s.phase.i <= c.redundancy)
  }

  /** Whether a follower with this store votes for `t`. */
  predicate Accepts(store: map<CStr, CStr>, t: Txn) {
    t.Del? ==> DelOk(store, t.key)
  }

  /** Asking for a vote never touches the store, and a commit vote leaves the update in the slot. */
  lemma VoteEffect(n: Node, t: Txn)
    ensures var h := Handle(n, RequestOf(t));
      && h.Reply? && h.node.store == n.store
      && (IsCommitVote(Some(h.response)) ==> h.node.slot == SlotFor(t))
      && (IsCommitVote(Some(h.response)) <==> Accepts(n.store, t))
  {
  }

  /** COMMIT carries out the prepared update; repeated, it does nothing. Both are acknowledged. */
  lemma CommitEffect(n: Node, t: Txn, any: Txn)
    ensures n.slot == SlotFor(t) ==>
      Pending(n.slot) == Some(t) && Handle(n, Decision(any, true)) == Reply(Node(Apply(n.store, t), EMPTY_SLOT), ACK)
    ensures n.slot == EMPTY_SLOT ==>
      Pending(n.slot) == None && Handle(n, Decision(any, true)) == Reply(n, ACK)
  {
  }

  lemma AbortEffect(n: Node, any: Txn)
    ensures Handle(n, Decision(any, false)) == Reply(n.(slot := EMPTY_SLOT), ACK)
  {
  }

  lemma ReplayAppend(base: map<CStr, CStr>, ts: seq<Txn>, t: Txn)
    ensures Replay(base, ts + [t]) == Apply(Replay(base, ts), t)
  {
    assert (ts + [t])[..|ts|] == ts;
  }

  lemma ProjectLast(c: Config, ts: seq<Txn>, f: nat)
    requires |ts| > 0
    ensures var t := ts[|ts| - 1];
      Project(c, ts, f) == Project(c, ts[..|ts| - 1], f) + if f in c.replicas(t.key) then [t] else []
  {
  }

  /** What one exchange amounts to, once it is known how the follower handles the request. */
  lemma Exchange(s: State, f: nat, req: Request, d: Delivery, n: Node, r: Response)
    requires f in s.nodes && f in s.applied && Handle(s.nodes[f], req) == Reply(n, r)
    ensures Answer(s, f, req, d) == if d.Replied? then Some(r) else None
    ensures req.kind == Commit && !d.Lost? && Pending(s.nodes[f].slot).Some? ==>
      Send(s, f, req, d) == Changed(s, f, n, [Pending(s.nodes[f].slot).value])
    ensures req.kind != Commit || d.Lost? || Pending(s.nodes[f].slot).None? ==>
      Send(s, f, req, d) == Changed(s, f, if d.Lost? then s.nodes[f] else n, [])
  {
  }

  /** Asking for a vote leaves the store alone, whatever the network does; an accepted vote fills the slot. */
  lemma PollExchange(s: State, f: nat, t: Txn, d: Delivery) returns (n: Node)
    requires f in s.nodes && f in s.applied
    ensures Send(s, f, RequestOf(t), d) == Changed(s, f, n, []) && n.store == s.nodes[f].store
    ensures IsCommitVote(Answer(s, f, RequestOf(t), d)) <==> d.Replied? && Accepts(s.nodes[f].store, t)
    ensures IsCommitVote(Answer(s, f, RequestOf(t), d)) ==> n.slot == SlotFor(t)
  {
    VoteEffect(s.nodes[f], t);
    var h := Handle(s.nodes[f], RequestOf(t));
    Exchange(s, f, RequestOf(t), d, h.node, h.response);
    n := if d.Lost? then s.nodes[f] else h.node;
  }

  lemma PollShape(s: State, f: nat, d: Delivery) returns (n: Node, aborts: nat)
    requires s.phase.Voting? && f in s.nodes && f in s.applied
    ensures AfterPoll(s, f, d) == Changed(s, f, n, []).(phase := Voting(s.phase.txn, s.phase.i + 1, aborts))
    ensures n.store == s.nodes[f].store
    ensures aborts == 0 ==> s.phase.aborts == 0 && n.slot == SlotFor(s.phase.txn)
    ensures aborts == s.phase.aborts + if d.Replied? && Accepts(s.nodes[f].store, s.phase.txn) then 0 else 1
  {
    n := PollExchange(s, f, s.phase.txn, d);
    aborts := s.phase.aborts + if IsCommitVote(Answer(s, f, RequestOf(s.phase.txn), d)) then 0 else 1;
  }

  lemma PollKeepsInv(c: Config, base: map<nat, map<CStr, CStr>>, s: State, d: Delivery)
    requires Inv(c, base, s) && Enabled(c, s, Poll(d))
    ensures Inv(c, base, Next(c, s, Poll(d)))
  {
    var n, aborts := PollShape(s, Target(c, s), d);
    PolledInv(c, base, s, n, aborts);
  }

  lemma PolledInv(c: Config, base: map<nat, map<CStr, CStr>>, s: State, n: Node, aborts: nat)
    requires Inv(c, base, s) && s.phase.Voting? && s.phase.i < c.redundancy
    requires n.store == s.nodes[Target(c, s)].store
    requires aborts == 0 ==> s.phase.aborts == 0 && n.slot == SlotFor(s.phase.txn)
    ensures Inv(c, base, Changed(s, Target(c, s), n, []).(phase := Voting(s.phase.txn, s.phase.i + 1, aborts)))
  {
    PolledVoting(c, s, n, aborts);
    assert s.applied[Target(c, s)] + [] == s.applied[Target(c, s)];
  }

  lemma PolledVoting(c: Config, s: State, n: Node, aborts: nat)
    requires Shaped(c, s) && s.phase.Voting? && s.phase.i < c.redundancy && InvVoting(c, s)
    requires aborts == 0 ==> s.phase.aborts == 0 && n.slot == SlotFor(s.phase.txn)
    ensures var s' := Changed(s, Target(c, s), n, []).(phase := Voting(s.phase.txn, s.phase.i + 1, aborts));
      Shaped(c, s') && InvVoting(c, s')
  {
    var rs, i, f := c.replicas(s.phase.txn.key), s.phase.i, Target(c, s);
    assert rs[..i + 1] == rs[..i] + [f];
    assert s.applied[f] + [] == s.applied[f];
  }

  lemma DecideKeepsInv(c: Config, base: map<nat, map<CStr, CStr>>, s: State)
    requires Inv(c, base, s) && Enabled(c, s, Decide)
    ensures Inv(c, base, Next(c, s, Decide))
  {
    var t := s.phase.txn;
    var rs := c.replicas(t.key);
    var s' := Next(c, s, Decide);
    if s.phase.aborts == 0 {
      assert s'.committed[..|s'.committed| - 1] == s.committed;
      assert rs[..|rs|] == rs && rs[0..] == rs;
      forall f | f in s.nodes ensures s'.applied[f] == Project(c, s.committed, f) {
        ProjectLast(c, s'.committed, f);
      }
    }
  }

  /** ABORT empties the slot and touches nothing else. */
  lemma AbortExchange(s: State, f: nat, t: Txn, d: Delivery) returns (n: Node)
    requires f in s.nodes && f in s.applied
    ensures Send(s, f, Decision(t, false), d) == Changed(s, f, n, []) && n.store == s.nodes[f].store
    ensures IsAck(Answer(s, f, Decision(t, false), d)) <==> d.Replied?
  {
    AbortEffect(s.nodes[f], t);
    n := s.nodes[f].(slot := EMPTY_SLOT);
    Exchange(s, f, Decision(t, false), d, n, ACK);
    if d.Lost? { n := s.nodes[f]; }
  }

  lemma AbortShape(s: State, f: nat, d: Delivery) returns (n: Node, i: nat)
    requires s.phase.Settling? && !s.phase.commit && f in s.nodes && f in s.applied
    ensures AfterNotify(s, f, d) == Changed(s, f, n, []).(phase := Settling(s.phase.txn, false, i))
    ensures n.store == s.nodes[f].store && i == s.phase.i + if d.Replied? then 1 else 0
  {
    n := AbortExchange(s, f, s.phase.txn, d);
    i := s.phase.i + if d.Replied? then 1 else 0;
  }

  /** COMMIT reaches a follower that has prepared `t`, or one that has already applied it. */
  lemma CommitExchange(s: State, f: nat, t: Txn, d: Delivery) returns (n: Node, done: seq<Txn>)
    requires f in s.nodes && f in s.applied
    requires s.nodes[f].slot == SlotFor(t) || s.nodes[f].slot == EMPTY_SLOT
    ensures Send(s, f, Decision(t, true), d) == Changed(s, f, n, done)
    ensures IsAck(Answer(s, f, Decision(t, true), d)) <==> d.Replied?
    ensures if d.Lost? || s.nodes[f].slot == EMPTY_SLOT then n == s.nodes[f] && done == []
            else n == Node(Apply(s.nodes[f].store, t), EMPTY_SLOT) && done == [t]
  {
    var m := s.nodes[f];
    CommitEffect(m, t, t);
    n, done := m, [];
    if m.slot == SlotFor(t) {
      n := Node(Apply(m.store, t), EMPTY_SLOT);
      Exchange(s, f, Decision(t, true), d, n, ACK);
      if d.Lost? { n := m; } else { done := [t]; }
    } else {
      Exchange(s, f, Decision(t, true), d, m, ACK);
    }
  }

  lemma CommitShape(s: State, f: nat, d: Delivery) returns (n: Node, done: seq<Txn>, i: nat)
    requires s.phase.Settling? && s.phase.commit && f in s.nodes && f in s.applied
    requires s.nodes[f].slot == SlotFor(s.phase.txn) || s.nodes[f].slot == EMPTY_SLOT
    ensures AfterNotify(s, f, d) == Changed(s, f, n, done).(phase := Settling(s.phase.txn, true, i))
    ensures CommitMove(s.nodes[f], n, done, s.phase.txn, s.phase.i, i)
    ensures i == s.phase.i + if d.Replied? then 1 else 0
  {
    n, done := CommitExchange(s, f, s.phase.txn, d);
    i := s.phase.i + if d.Replied? then 1 else 0;
  }

  lemma NotifyKeepsInv(c: Config, base: map<nat, map<CStr, CStr>>, s: State, d: Delivery)
    requires Inv(c, base, s) && Enabled(c, s, Notify(d))
    ensures Inv(c, base, Next(c, s, Notify(d)))
  {
    var f := Target(c, s);
    if s.phase.commit {
      TargetStatus(c, s);
      var n, done, i := CommitShape(s, f, d);
      ReplayDone(base[f], s.applied[f], done, s.phase.txn);
      StatusesKept(c, s, n, done, i);
      CommittedInv(c, base, s, f, n, done, i, Next(c, s, Notify(d)));
    } else {
      var n, i := AbortShape(s, f, d);
      AbortedInv(c, base, s, n, i);
    }
  }

  lemma AbortedInv(c: Config, base: map<nat, map<CStr, CStr>>, s: State, n: Node, i: nat)
    requires Inv(c, base, s) && s.phase.Settling? && !s.phase.commit && s.phase.i < c.redundancy
    requires n.store == s.nodes[Target(c, s)].store && i <= s.phase.i + 1
    ensures Inv(c, base, Changed(s, Target(c, s), n, []).(phase := Settling(s.phase.txn, false, i)))
  {
    var f := Target(c, s);
    assert s.applied[f] + [] == s.applied[f];
    StoreReplayed(base, s.nodes, s.applied, f, n, s.applied[f] + []);
  }

  lemma TargetStatus(c: Config, s: State)
    requires Shaped(c, s) && s.phase.Settling? && s.phase.i < c.redundancy && InvCommitting(c, s)
    ensures var f := Target(c, s);
      && Project(c, s.committed, f) == Project(c, s.committed[..|s.committed| - 1], f) + [s.phase.txn]
      && ((s.nodes[f].slot == SlotFor(s.phase.txn) && s.applied[f] == Project(c, s.committed[..|s.committed| - 1], f))
          || (s.nodes[f].slot == EMPTY_SLOT && s.applied[f] == Project(c, s.committed, f)))
  {
    var rs, i, f := c.replicas(s.phase.txn.key), s.phase.i, Target(c, s);
    assert rs[i..] == [f] + rs[i + 1..];
    assert f in rs;
    ProjectLast(c, s.committed, f);
  }

  lemma ReplayDone(base: map<CStr, CStr>, ts: seq<Txn>, done: seq<Txn>, t: Txn)
    requires done == [] || done == [t]
    ensures Replay(base, ts + done) == if done == [] then Replay(base, ts) else Apply(Replay(base, ts), t)
  {
    if done == [] {
      assert ts + done == ts;
    } else {
      ReplayAppend(base, ts, t);
    }
  }

  /** How one delivery of COMMIT can move the leader and its follower `m`. */
  ghost predicate CommitMove(m: Node, n: Node, done: seq<Txn>, t: Txn, i: nat, i': nat) {
    || (n == m && done == [] && (i' == i || (i' == i + 1 && m.slot == EMPTY_SLOT)))
    || (m.slot == SlotFor(t) && n == Node(Apply(m.store, t), EMPTY_SLOT) && done == [t] && (i' == i || i' == i + 1))
  }

  lemma CommittedInv(c: Config, base: map<nat, map<CStr, CStr>>, s: State, f: nat, n: Node, done: seq<Txn>, i: nat, s': State)
    requires Inv(c, base, s) && s.phase.Settling? && s.phase.commit && f in s.nodes && i <= c.redundancy
    requires n.store == Replay(base[f], s.applied[f] + done)
    requires s' == Changed(s, f, n, done).(phase := Settling(s.phase.txn, true, i)) && Shaped(c, s') && InvCommitting(c, s')
    ensures Inv(c, base, s')
  {
    StoreReplayed(base, s.nodes, s.applied, f, n, s.applied[f] + done);
  }

  lemma StatusesKept(c: Config, s: State, n: Node, done: seq<Txn>, i: nat)
    requires Shaped(c, s) && s.phase.Settling? && s.phase.i < c.redundancy && InvCommitting(c, s)
    requires CommitMove(s.nodes[Target(c, s)], n, done, s.phase.txn, s.phase.i, i)
    ensures InvCommitting(c, Changed(s, Target(c, s), n, done).(phase := Settling(s.phase.txn, true, i)))
  {
    var s' := Changed(s, Target(c, s), n, done).(phase := Settling(s.phase.txn, true, i));
    forall f | f in s.nodes
      ensures CommitStatus(c.replicas(s.phase.txn.key), i, f, s'.nodes[f], s'.applied[f], s.phase.txn,
                Project(c, s.committed[..|s.committed| - 1], f), Project(c, s.committed, f))
    {
      StatusKept(c, s, n, done, i, f);
    }
  }

  lemma StatusKept(c: Config, s: State, n: Node, done: seq<Txn>, i: nat, f: nat)
    requires Shaped(c, s) && s.phase.Settling? && s.phase.i < c.redundancy && InvCommitting(c, s) && f in s.nodes
    requires CommitMove(s.nodes[Target(c, s)], n, done, s.phase.txn, s.phase.i, i)
    ensures var s' := Changed(s, Target(c, s), n, done).(phase := Settling(s.phase.txn, true, i));
      CommitStatus(c.replicas(s.phase.txn.key), i, f, s'.nodes[f], s'.applied[f], s.phase.txn,
        Project(c, s.committed[..|s.committed| - 1], f), Project(c, s.committed, f))
  {
    var t, f0 := s.phase.txn, Target(c, s);
    var rs := c.replicas(t.key);
    assert c.ValidPlacement(rs);
    var before, after := Project(c, s.committed[..|s.committed| - 1], f), Project(c, s.committed, f);
    if f == f0 {
      TargetStatus(c, s);
      CurrentKeepsStatus(rs, s.phase.i, i, s.nodes[f], s.applied[f], n, done, t, before, after);
    } else {
      OthersKeepStatus(rs, s.phase.i, i, f, s.nodes[f], s.applied[f], t, before, after);
    }
  }

  lemma CurrentKeepsStatus(rs: seq<nat>, i: nat, i': nat, m: Node, had: seq<Txn>, n: Node, done: seq<Txn>, t: Txn,
                           before: seq<Txn>, after: seq<Txn>)
    requires i < |rs| && i <= i' <= i + 1 && forall j :: i < j < |rs| ==> rs[i] != rs[j]
    requires (m.slot == SlotFor(t) && had == before) || (m.slot == EMPTY_SLOT && had == after)
    requires after == before + [t] && CommitMove(m, n, done, t, i, i')
    ensures CommitStatus(rs, i', rs[i], n, had + done, t, before, after)
  {
    assert rs[i..] == [rs[i]] + rs[i + 1..];
    assert had + [] == had;
  }

  lemma OthersKeepStatus(rs: seq<nat>, i: nat, i': nat, f: nat, n: Node, done: seq<Txn>, t: Txn,
                         before: seq<Txn>, after: seq<Txn>)
    requires i < |rs| && i <= i' <= i + 1 && f != rs[i]
    requires CommitStatus(rs, i, f, n, done, t, before, after)
    ensures CommitStatus(rs, i', f, n, done, t, before, after)
  {
    assert rs[i..] == [rs[i]] + rs[i + 1..];
  }

  lemma FinishKeepsInv(c: Config, base: map<nat, map<CStr, CStr>>, s: State)
    requires Inv(c, base, s) && Enabled(c, s, Finish)
    ensures Inv(c, base, Next(c, s, Finish))
  {
  }

  /** Every step of the protocol keeps the invariant. */
  lemma NextKeepsInv(c: Config, base: map<nat, map<CStr, CStr>>, s: State, step: Step)
    requires Inv(c, base, s) && Enabled(c, s, step)
    ensures Inv(c, base, Next(c, s, step))
  {
    match step
    case Begin(_) =>
    case Poll(d) => PollKeepsInv(c, base, s, d);
    case Decide => DecideKeepsInv(c, base, s);
    case Notify(d) => NotifyKeepsInv(c, base, s, d);
    case Finish => FinishKeepsInv(c, base, s);
  }

  // ---------- every run ----------

  lemma {:induction false} RunKeepsInv(c: Config, base: map<nat, map<CStr, CStr>>, s: State, steps: seq<Step>, s': State)
    requires Inv(c, base, s) && Run(c, s, steps, s')
    ensures Inv(c, base, s')
    decreases |steps|
  {
    if steps != [] {
      var last := |steps| - 1;
      var mid :| Run(c, s, steps[..last], mid) && Enabled(c, mid, steps[last]) && s' == Next(c, mid, steps[last]);
      RunKeepsInv(c, base, s, steps[..last], mid);
      NextKeepsInv(c, base, mid, steps[last]);
    }
  }

  lemma RunExtend(c: Config, s: State, steps: seq<Step>, mid: State, step: Step)
    requires Run(c, s, steps, mid) && Shaped(c, mid) && Enabled(c, mid, step)
    ensures Run(c, s, steps + [step], Next(c, mid, step))
  {
    assert (steps + [step])[..|steps|] == steps;
  }

  /** Some run leads to `s`. */
  ghost predicate Reachable(c: Config, s: State) {
    exists init, steps :: Initial(c, init) && Run(c, init, steps, s)
  }

  lemma {:induction false} RunsJoin(c: Config, s: State, steps: seq<Step>, mid: State, more: seq<Step>, s': State)
    requires Run(c, s, steps, mid) && Run(c, mid, more, s')
    ensures Run(c, s, steps + more, s')
    decreases |more|
  {
    if more == [] {
      assert steps + more == steps;
    } else {
      var init, step := more[..|more| - 1], more[|more| - 1];
      var m := LastStep(c, mid, more, s');
      RunsJoin(c, s, steps, mid, init, m);
      RunExtend(c, s, steps + init, m, step);
      StepsJoin(steps, more);
    }
  }

  /** The state before the last step of a run. */
  lemma LastStep(c: Config, s: State, steps: seq<Step>, s': State) returns (mid: State)
    requires Run(c, s, steps, s') && steps != []
    ensures var last := |steps| - 1;
      Run(c, s, steps[..last], mid) && Shaped(c, mid) && Enabled(c, mid, steps[last]) && s' == Next(c, mid, steps[last])
  {
    var last := |steps| - 1;
    mid :| Run(c, s, steps[..last], mid) && Enabled(c, mid, steps[last]) && s' == Next(c, mid, steps[last]);
    RunShaped(c, s, steps[..last], mid);
  }

  lemma RunShaped(c: Config, s: State, steps: seq<Step>, s': State)
    requires Run(c, s, steps, s')
    ensures Shaped(c, s')
  {
  }

  lemma StepsJoin(steps: seq<Step>, more: seq<Step>)
    requires more != []
    ensures steps + more[..|more| - 1] + [more[|more| - 1]] == steps + more
  {
  }

  lemma ReachableOn(c: Config, s: State, steps: seq<Step>, s': State)
    requires Reachable(c, s) && Run(c, s, steps, s')
    ensures Reachable(c, s')
  {
    var init, past :| Initial(c, init) && Run(c, init, past, s);
    RunsJoin(c, init, past, s, steps, s');
  }

  lemma InitialInv(c: Config, s: State)
    requires Initial(c, s)
    ensures Inv(c, Stores(s), s)
  {
    forall f | f in s.nodes ensures Project(c, [], f) == [] {}
  }

  lemma ReachableInv(c: Config, s: State) returns (base: map<nat, map<CStr, CStr>>)
    requires Reachable(c, s)
    ensures Inv(c, base, s)
  {
    var init, past :| Initial(c, init) && Run(c, init, past, s);
    base := Stores(init);
    InitialInv(c, init);
    RunKeepsInv(c, base, init, past, s);
  }

  ghost function Stores(s: State): map<nat, map<CStr, CStr>> {
    map f | f in s.nodes :: s.nodes[f].store
  }

  /** Exactly once, in order: at every moment between transactions of every run, each follower has
      carried out precisely the committed transactions on its keys, whatever was lost or repeated,
      whatever its pending slot held at first; and no follower ever reads a null slot. */
  lemma ExactlyOnce(c: Config, s: State, steps: seq<Step>, s': State)
    requires Initial(c, s) && Run(c, s, steps, s')
    ensures !s'.crashed
    ensures s'.phase.Idle? ==> forall f :: f in c.ids ==> s'.applied[f] == Project(c, s'.committed, f)
    ensures forall f :: f in c.ids ==> s'.nodes[f].store == Replay(s.nodes[f].store, s'.applied[f])
  {
    InitialInv(c, s);
    RunKeepsInv(c, Stores(s), s, steps, s');
  }

  /** A follower's share of an updated map is its share of the map, updated if the key is its own. */
  lemma ShareApply(c: Config, m: map<CStr, CStr>, t: Txn, f: nat)
    ensures Share(c, Apply(m, t), f) ==
      if f in c.replicas(t.key) then Apply(Share(c, m, f), t) else Share(c, m, f)
  {
  }

  /** Replaying only its own transactions on its own share, a follower arrives at its share of the full replay. */
  lemma {:induction false} ShareReplay(c: Config, m: map<CStr, CStr>, ts: seq<Txn>, f: nat)
    ensures Replay(Share(c, m, f), Project(c, ts, f)) == Share(c, Replay(m, ts), f)
    decreases |ts|
  {
    if ts != [] {
      var before, t := ts[..|ts| - 1], ts[|ts| - 1];
      ShareReplay(c, m, before, f);
      ShareApply(c, Replay(m, before), t, f);
      if f in c.replicas(t.key) {
        ReplayAppend(Share(c, m, f), Project(c, before, f), t);
      } else {
        assert Project(c, ts, f) == Project(c, before, f);
      }
    }
  }

  /** Agreement: between transactions, every follower holds exactly its share of one map,
      the replay of the committed transactions. */
  lemma Agreement(c: Config, m: map<CStr, CStr>, s: State, steps: seq<Step>, s': State)
    requires Initial(c, s) && Run(c, s, steps, s') && s'.phase.Idle?
    requires Agree(c, m, s)
    ensures Agree(c, Replay(m, s'.committed), s')
  {
    ExactlyOnce(c, s, steps, s');
    forall f | f in c.ids ensures s'.nodes[f].store == Share(c, Replay(m, s'.committed), f) {
      ShareReplay(c, m, s'.committed, f);
    }
  }

  /** Agreement, key by key: replicas of a key cannot be told apart, and no other follower has it. */
  lemma ReplicasAgree(c: Config, m: map<CStr, CStr>, s: State, steps: seq<Step>, s': State, k: CStr, f: nat)
    requires Initial(c, s) && Run(c, s, steps, s') && s'.phase.Idle? && f in c.ids
    requires Agree(c, m, s)
    ensures k in s'.nodes[f].store <==> f in c.replicas(k) && k in Replay(m, s'.committed)
    ensures k in s'.nodes[f].store ==> s'.nodes[f].store[k] == Replay(m, s'.committed)[k]
  {
    Agreement(c, m, s, steps, s');
  }

  // ---------- one transaction ----------

  /** The leader begins `t` and polls the first `n` replicas, with the given deliveries. */
  ghost predicate ArePolls(steps: seq<Step>, t: Txn, ds: seq<Delivery>, n: nat) {
    && |steps| == n + 1 <= |ds| + 1 && steps[0] == Begin(t)
    && forall j :: 0 < j <= n ==> steps[j] == Poll(ds[j - 1])
  }

  /** Replica `j` of the key of `t`. */
  ghost function ReplicaOf(c: Config, s: State, t: Txn, j: nat): (f: nat)
    requires Shaped(c, s) && j < c.redundancy
    ensures f in s.nodes && f in s.applied && f in c.ids && f in c.replicas(t.key)
  {
    assert c.ValidPlacement(c.replicas(t.key));
    c.replicas(t.key)[j]
  }

  /** With delivery `d`, replica `j` hears of `t`, accepts it, and is heard. */
  ghost predicate Consents(c: Config, s: State, t: Txn, j: nat, d: Delivery)
    requires Shaped(c, s) && j < c.redundancy
  {
    d.Replied? && Accepts(s.nodes[ReplicaOf(c, s, t, j)].store, t)
  }

  /** With the deliveries `ds`, so do the first `n` replicas. */
  ghost predicate Unanimous(c: Config, s: State, t: Txn, ds: seq<Delivery>, n: nat)
    requires Shaped(c, s) && n <= |ds| && n <= c.redundancy
  {
    forall j :: 0 <= j < n ==> Consents(c, s, t, j, ds[j])
  }

  /** The stores are the same. */
  ghost predicate SameStores(s: State, s': State) {
    s'.nodes.Keys == s.nodes.Keys && forall f :: f in s.nodes ==> s'.nodes[f].store == s.nodes[f].store
  }

  /** How many of the first `n` replicas do not. */
  ghost function Refusals(c: Config, s: State, t: Txn, ds: seq<Delivery>, n: nat): nat
    requires Shaped(c, s) && n <= |ds| && n <= c.redundancy
  {
    if n == 0 then 0 else Refusals(c, s, t, ds, n - 1) + if Consents(c, s, t, n - 1, ds[n - 1]) then 0 else 1
  }

  lemma {:induction false} NoRefusals(c: Config, s: State, t: Txn, ds: seq<Delivery>, n: nat)
    requires Shaped(c, s) && n <= |ds| && n <= c.redundancy
    ensures Refusals(c, s, t, ds, n) == 0 <==> Unanimous(c, s, t, ds, n)
  {
    if n > 0 { NoRefusals(c, s, t, ds, n - 1); }
  }

  /** After `n` polls nothing has changed but slots, and the refusals have been counted. */
  ghost predicate Tallied(c: Config, s: State, t: Txn, ds: seq<Delivery>, n: nat, s': State)
    requires Shaped(c, s) && n <= |ds| && n <= c.redundancy
  {
    s'.phase == Voting(t, n, Refusals(c, s, t, ds, n)) && SameStores(s, s') && s'.committed == s.committed
  }

  lemma TallyNext(c: Config, s: State, t: Txn, ds: seq<Delivery>, n: nat, s': State)
    requires Shaped(c, s) && n < |ds| && n < c.redundancy && Shaped(c, s') && Tallied(c, s, t, ds, n, s')
    ensures Tallied(c, s, t, ds, n + 1, Next(c, s', Poll(ds[n])))
  {
    var node, aborts := PollShape(s', Target(c, s'), ds[n]);
    assert Target(c, s') == ReplicaOf(c, s, t, n);
  }

  /** What the polls of a transaction come to. */
  lemma {:induction false} PolledVotes(c: Config, s: State, t: Txn, ds: seq<Delivery>, n: nat, steps: seq<Step>, s': State)
    requires Shaped(c, s) && ArePolls(steps, t, ds, n) && n <= c.redundancy && Run(c, s, steps, s')
    ensures Tallied(c, s, t, ds, n, s')
    decreases n
  {
    if n == 0 {
      JustBegun(c, s, t, ds, steps, s');
    } else {
      var mid := LastStep(c, s, steps, s');
      PolledVotes(c, s, t, ds, n - 1, steps[..n], mid);
      TallyNext(c, s, t, ds, n - 1, mid);
    }
  }

  lemma JustBegun(c: Config, s: State, t: Txn, ds: seq<Delivery>, steps: seq<Step>, s': State)
    requires Shaped(c, s) && ArePolls(steps, t, ds, 0) && Run(c, s, steps, s')
    ensures Tallied(c, s, t, ds, 0, s')
  {
    var mid := LastStep(c, s, steps, s');
    TallyNone(c, s, t, ds);
  }

  lemma TallyNone(c: Config, s: State, t: Txn, ds: seq<Delivery>)
    requires Shaped(c, s) && s.phase.Idle?
    ensures Tallied(c, s, t, ds, 0, Next(c, s, Begin(t)))
  {
  }

  /** The decision, from any state: COMMIT exactly when every vote arrives and every replica accepts. */
  lemma DecisionIsUnanimous(c: Config, s: State, t: Txn, ds: seq<Delivery>, steps: seq<Step>, s': State)
    requires Shaped(c, s) && |ds| == c.redundancy && ArePolls(steps, t, ds, |ds|) && Run(c, s, steps, s')
    ensures Enabled(c, s', Decide) && Shaped(c, s')
    ensures var decided := Next(c, s', Decide);
      && decided.phase == Settling(t, Unanimous(c, s, t, ds, |ds|), 0)
      && decided.committed == s.committed + if Unanimous(c, s, t, ds, |ds|) then [t] else []
  {
    PolledVotes(c, s, t, ds, |ds|, steps, s');
    DecidedTally(c, s, t, ds, s');
  }

  lemma DecidedTally(c: Config, s: State, t: Txn, ds: seq<Delivery>, s': State)
    requires Shaped(c, s) && |ds| == c.redundancy && Shaped(c, s') && Tallied(c, s, t, ds, |ds|, s')
    ensures var decided := Next(c, s', Decide);
      && decided.phase == Settling(t, Unanimous(c, s, t, ds, |ds|), 0)
      && decided.committed == s.committed + if Unanimous(c, s, t, ds, |ds|) then [t] else []
  {
    NoRefusals(c, s, t, ds, |ds|);
  }

  /** Every vote arrives and, for a DELETE, the key can be deleted from `m`. */
  predicate Carried(m: map<CStr, CStr>, t: Txn, ds: seq<Delivery>) {
    forall j :: 0 <= j < |ds| ==> Allowed(m, t, ds[j])
  }

  predicate Allowed(m: map<CStr, CStr>, t: Txn, d: Delivery) { d.Replied? && Accepts(m, t) }

  /** Followers that agree on `m` consent to what `m` allows. */
  lemma UnanimousAgreed(c: Config, m: map<CStr, CStr>, s: State, t: Txn, ds: seq<Delivery>)
    requires Shaped(c, s) && |ds| == c.redundancy && Agree(c, m, s)
    ensures Unanimous(c, s, t, ds, |ds|) <==> Carried(m, t, ds)
  {
    if Carried(m, t, ds) {
      forall j | 0 <= j < |ds| ensures Consents(c, s, t, j, ds[j]) {
        assert Allowed(m, t, ds[j]);
        ReplicaAccepts(c, m, s, t, j);
      }
    }
    if Unanimous(c, s, t, ds, |ds|) {
      forall j | 0 <= j < |ds| ensures Allowed(m, t, ds[j]) {
        assert Consents(c, s, t, j, ds[j]);
        ReplicaAccepts(c, m, s, t, j);
      }
    }
  }

  lemma ReplicaAccepts(c: Config, m: map<CStr, CStr>, s: State, t: Txn, j: nat)
    requires Shaped(c, s) && j < c.redundancy && Agree(c, m, s)
    ensures Accepts(s.nodes[ReplicaOf(c, s, t, j)].store, t) <==> Accepts(m, t)
  {
    var f := ReplicaOf(c, s, t, j);
    assert s.nodes[f].store == Share(c, m, f);
  }

  /** Atomicity: over a run from one idle state to a later one in which only `t` is attempted, either
      `t` is committed and carried out once by each replica and by nobody else, or nothing changes. */
  lemma Atomicity(c: Config, s: State, t: Txn, steps: seq<Step>, s': State)
    requires Reachable(c, s) && s.phase.Idle? && Run(c, s, [Begin(t)] + steps, s') && s'.phase.Idle?
    requires forall i :: 0 <= i < |steps| ==> !steps[i].Begin?
    ensures s'.committed == s.committed || s'.committed == s.committed + [t]
    ensures Shaped(c, s) && Shaped(c, s') && forall f :: f in c.ids ==>
      if s'.committed == s.committed + [t] && f in c.replicas(t.key)
      then s'.applied[f] == s.applied[f] + [t] && s'.nodes[f].store == Apply(s.nodes[f].store, t)
      else s'.applied[f] == s.applied[f] && s'.nodes[f].store == s.nodes[f].store
  {
    var base := ReachableInv(c, s);
    OnlyTxn(c, s, t, [Begin(t)] + steps, s');
    RunKeepsInv(c, base, s, [Begin(t)] + steps, s');
    IdleDifference(c, base, s, t, s');
  }

  lemma IdleDifference(c: Config, base: map<nat, map<CStr, CStr>>, s: State, t: Txn, s': State)
    requires Inv(c, base, s) && s.phase.Idle? && Inv(c, base, s') && s'.phase.Idle?
    requires s'.committed == s.committed || s'.committed == s.committed + [t]
    ensures forall f :: f in c.ids ==>
      if s'.committed == s.committed + [t] && f in c.replicas(t.key)
      then s'.applied[f] == s.applied[f] + [t] && s'.nodes[f].store == Apply(s.nodes[f].store, t)
      else s'.applied[f] == s.applied[f] && s'.nodes[f].store == s.nodes[f].store
  {
    forall f | f in c.ids
      ensures if s'.committed == s.committed + [t] && f in c.replicas(t.key)
              then s'.applied[f] == s.applied[f] + [t] && s'.nodes[f].store == Apply(s.nodes[f].store, t)
              else s'.applied[f] == s.applied[f] && s'.nodes[f].store == s.nodes[f].store
    {
      ProjectedDifference(c, s.committed, t, f);
      ReplayAppend(base[f], s.applied[f], t);
    }
  }

  lemma ProjectedDifference(c: Config, ts: seq<Txn>, t: Txn, f: nat)
    ensures Project(c, ts + [t], f) == Project(c, ts, f) + if f in c.replicas(t.key) then [t] else []
  {
    ProjectLast(c, ts + [t], f);
    assert (ts + [t])[..|ts|] == ts;
  }

  lemma {:induction false} OnlyTxn(c: Config, s: State, t: Txn, steps: seq<Step>, s': State)
    requires Run(c, s, steps, s') && s.phase.Idle?
    requires forall i :: 0 <= i < |steps| ==> (steps[i].Begin? <==> i == 0)
    requires steps != [] ==> steps[0] == Begin(t)
    ensures s'.committed == s.committed || s'.committed == s.committed + [t]
    ensures s'.phase.Voting? ==> s'.phase.txn == t && s'.committed == s.committed
    ensures s'.phase.Settling? ==> s'.phase.txn == t
    decreases |steps|
  {
    if steps != [] {
      var last := |steps| - 1;
      var mid :| Run(c, s, steps[..last], mid) && Enabled(c, mid, steps[last]) && s' == Next(c, mid, steps[last]);
      OnlyTxn(c, s, t, steps[..last], mid);
      NextTxn(c, mid, steps[last]);
    }
  }

  /** A step other than Begin keeps the transaction, and only a decision extends the committed ones. */
  lemma NextTxn(c: Config, s: State, step: Step)
    requires Shaped(c, s) && Enabled(c, s, step)
    ensures var s' := Next(c, s, step);
      && (step.Begin? ==> s'.phase == Voting(step.txn, 0, 0))
      && (step.Poll? ==> s'.phase.Voting?)
      && (step.Notify? || step.Decide? ==> s'.phase.Settling?)
      && (!step.Begin? && !step.Finish? ==> s'.phase.txn == s.phase.txn)
      && (!step.Decide? ==> s'.committed == s.committed)
      && (step.Decide? ==> s'.committed == s.committed || s'.committed == s.committed + [s.phase.txn])
      && (step.Finish? ==> s'.phase.Idle?)
  {
  }

  // ---------- progress ----------

  /** An answered notification always moves the leader to the next replica. */
  lemma NotifyAdvances(c: Config, base: map<nat, map<CStr, CStr>>, s: State)
    requires Inv(c, base, s) && Enabled(c, s, Notify(Replied))
    ensures Next(c, s, Notify(Replied)).phase == Settling(s.phase.txn, s.phase.commit, s.phase.i + 1)
  {
    if s.phase.commit {
      TargetStatus(c, s);
      var _, _, _ := CommitShape(s, Target(c, s), Replied);
    } else {
      var _, _ := AbortShape(s, Target(c, s), Replied);
    }
  }

  /** Steps left before the leader is idle again, if every reply arrives. */
  function Remaining(c: Config, s: State): nat {
    match s.phase
    case Idle => 0
    case Voting(_, i, _) => 2 * c.redundancy + 2 - Min(i, c.redundancy)
    case Settling(_, _, i) => c.redundancy + 1 - Min(i, c.redundancy)
  }

  function Min(a: nat, b: nat): nat { if a < b then a else b }

  /** No run blocks: from every state a run can reach, the leader finishes as soon as replies arrive. */
  lemma CanFinish(c: Config, s: State) returns (steps: seq<Step>, s': State)
    requires Reachable(c, s)
    ensures Run(c, s, steps, s') && s'.phase.Idle? && |steps| == Remaining(c, s)
  {
    var base := ReachableInv(c, s);
    steps, s' := FinishFrom(c, base, s);
  }

  lemma FinishFrom(c: Config, base: map<nat, map<CStr, CStr>>, s: State) returns (steps: seq<Step>, s': State)
    requires Inv(c, base, s)
    ensures Run(c, s, steps, s') && s'.phase.Idle? && |steps| == Remaining(c, s)
  {
    steps, s' := [], s;
    while !s'.phase.Idle?
      invariant Run(c, s, steps, s') && Inv(c, base, s')
      invariant |steps| + Remaining(c, s') == Remaining(c, s)
      decreases Remaining(c, s')
    {
      var step := Unhindered(c, s');
      UnhinderedStep(c, base, s');
      RunExtend(c, s, steps, s', step);
      steps, s' := steps + [step], Next(c, s', step);
    }
  }

  /** The leader's next step when nothing is lost. */
  function Unhindered(c: Config, s: State): Step
    requires !s.phase.Idle?
  {
    if s.phase.Voting? then if s.phase.i < c.redundancy then Poll(Replied) else Decide
    else if s.phase.i < c.redundancy then Notify(Replied) else Finish
  }

  lemma UnhinderedStep(c: Config, base: map<nat, map<CStr, CStr>>, s: State)
    requires Inv(c, base, s) && !s.phase.Idle?
    ensures Enabled(c, s, Unhindered(c, s))
    ensures var s' := Next(c, s, Unhindered(c, s)); Inv(c, base, s') && Remaining(c, s') == Remaining(c, s) - 1
  {
    var step := Unhindered(c, s);
    NextKeepsInv(c, base, s, step);
    if step.Notify? { NotifyAdvances(c, base, s); }
  }
}
