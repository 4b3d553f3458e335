/** A follower (hw4/src/kvserver.c): a store and a log in one directory, and one pending slot.
    It implements `Follower.Handle`, and rebuilds its slot from the log when restarted. */
module KvServer {
  import opened KvConstants
  import opened CText
  import opened Directory
  import opened Follower
  import S = KvStore
  import L = TpcLog

  /** The message a request is logged as. */
  function LoggedAs(req: Request): Option<L.Message> {
    if req.kind == PutReq && req.key.Some? && req.val.Some? then Some(L.PutMsg(req.key.value, req.val.value))
    else if req.kind == DelReq && req.key.Some? then Some(L.DelMsg(req.key.value))
    else if req.kind == Commit then Some(L.CommitMsg)
    else if req.kind == Abort then Some(L.AbortMsg)
    else None
  }

  /** The log files after a request arrives: the server logs through a copy of its log structure, so every
      request of one process goes to the same file, which only a superuser can open twice. */
  function LogsAfter(logs: map<nat, LogFile>, nextid: nat, superuser: bool, req: Request): map<nat, LogFile> {
    match LoggedAs(req)
    case None => logs
    case Some(m) => if nextid in logs && !superuser then logs else L.Appended(logs, nextid, m)
  }

  /** What a request leaves in a log whose next file is new; a GET is not logged. */
  lemma RequestLogged(logs: map<nat, LogFile>, n: nat, superuser: bool, k: CStr, v: CStr)
    requires n !in logs
    ensures LogsAfter(logs, n, superuser, Request(PutReq, Some(k), Some(v))) ==
      logs[n := LogFile(PutReq, |k| + 1 + |v| + 1, k + "\0" + v + "\0")]
    ensures LogsAfter(logs, n, superuser, Request(DelReq, Some(k), None)) == logs[n := LogFile(DelReq, |k| + 1, k + "\0")]
    ensures LogsAfter(logs, n, superuser, Request(Commit, None, None)) == logs[n := LogFile(Commit, 0, "")]
    ensures LogsAfter(logs, n, superuser, Request(Abort, None, None)) == logs[n := LogFile(Abort, 0, "")]
    ensures LogsAfter(logs, n, superuser, Request(GetReq, Some(k), None)) == logs
  {
  }

  /** The number of entries an iteration finds. */
  ghost predicate LogLength(logs: map<nat, LogFile>, n: nat) {
    n !in logs && forall i :: 0 <= i < n ==> i in logs
  }

  /** What rebuilding does to a node, given the last log entry found; none if it reads a null pointer. */
  function Recover(n: Node, last: Option<LogFile>): Option<Node> {
    if last.None? then Some(n)
    else if last.value.kind == PutReq then
      var k := TextAt(last.value.data, 0);
      Some(n.(slot := Slot(PutReq, Some(k), Some(TextAt(last.value.data, |k| + 1)))))
    else if last.value.kind == DelReq then
      if n.slot.key.None? then None else Some(n.(slot := Slot(DelReq, Some(TextAt(last.value.data, 0)), None)))
    else if last.value.kind == Commit then
      var h := HandleCommit(n);
      if h.Crash? then None else Some(h.node)
    else if last.value.kind == Abort then Some(n.(slot := EMPTY_SLOT))
    else Some(n)
  }

  /** Rebuilding from a log whose last file loads. */
  ghost function Rebuilt(n: Node, logs: map<nat, LogFile>, length: nat): Option<Node>
    requires LogLength(logs, length)
  {
    if length == 0 then Recover(n, None)
    else
      var last := L.Load(logs[length - 1]);
      if last.None? then None else Recover(n, last)
  }

  /** Iterates over a copy of `log`, keeping the last entry. */
  method LastEntry(log: L.TpcLog, ghost n: nat) returns (last: Option<LogFile>)
    requires LogLength(log.dir.logs, n)
    ensures last == if n == 0 then None else L.Load(log.dir.logs[n - 1])
  {
    var copy := new L.TpcLog.Copy(log);
    copy.IterateBegin();
    last := None;
    while copy.HasNext()
      invariant 0 <= copy.iterpos <= n
      invariant last == if copy.iterpos == 0 then None else L.Load(copy.dir.logs[copy.iterpos - 1])
      decreases n - copy.iterpos
    {
      last := copy.Next();
    }
  }

  lemma RefusedDelChangesNothing(m: map<CStr, CStr>, k: CStr)
    requires !DelOk(m, k)
    ensures Apply(m, Txn.Del(k)) == m
  {
  }

  class KvServer {
    const dir: Directory
    const store: S.KvStore
    const log: L.TpcLog
    var slot: Slot

    ghost predicate Valid()
      reads this, store, dir, log
    {
      store.dir == dir && log.dir == dir && dir.present && store.Valid()
    }

    ghost function View(): Node
      reads this, store
    {
      Node(store.model, slot)
    }

    /** Starts a server on `dir` and rebuilds its state. The slot's memory is not initialised: `slot` is
        whatever was there. */
    constructor (dir: Directory, hash: CStr -> nat, slot: Slot, ghost model: map<CStr, CStr>)
      requires S.Stores(dir.entries, hash, model)
      requires forall n :: LogLength(dir.logs, n) ==> Rebuilt(Node(model, slot), dir.logs, n).Some?
      modifies dir`present, dir`entries
      ensures Valid() && this.dir == dir && store.hash == hash && fresh(log) && fresh(store)
      ensures LogLength(dir.logs, log.nextid)
      ensures Some(View()) == Rebuilt(Node(model, slot), dir.logs, log.nextid)
    {
      this.dir := dir;
      store := new S.KvStore(dir, hash, model);
      log := new L.TpcLog(dir);
      this.slot := slot;
      new;
      Rebuild();
    }

    /** Restores the state of the most recent transaction from the last log entry. */
    method Rebuild()
      requires Valid() && LogLength(dir.logs, log.nextid)
      requires Rebuilt(View(), dir.logs, log.nextid).Some?
      modifies this`slot, dir`entries, store`model
      ensures Valid()
      ensures Some(View()) == old(Rebuilt(View(), dir.logs, log.nextid))
    {
      var last := LastEntry(log, log.nextid);
      if last.Some? {
        Restore(last.value);
      }
    }

    method Restore(entry: LogFile)
      requires Valid() && Recover(View(), Some(entry)).Some?
      modifies this`slot, dir`entries, store`model
      ensures Valid()
      ensures Some(View()) == Recover(old(View()), Some(entry))
    {
      if entry.kind == PutReq {
        var key := TextAt(entry.data, 0);
        var value := TextAt(entry.data, |key| + 1);
        var _ := PutCheck(key, value);
        slot := Slot(PutReq, Some(key), Some(value));
      } else if entry.kind == DelReq {
        var _ := DelCheck(TextAt(entry.data, 0));
        slot := Slot(DelReq, Some(TextAt(entry.data, 0)), None);
      } else if entry.kind == Commit {
        CommitPending();
      } else if entry.kind == Abort {
        slot := EMPTY_SLOT;
      }
    }

    method PutCheck(key: CStr, value: CStr) returns (code: int)
      requires Valid()
      ensures code == if |key| == 0 || |key| > 1024 then -11 else if |value| > 1024 then -12 else 0
    {
      if |key| > MAX_KEYLEN || |key| == 0 { return ERRKEYLEN; }
      if |value| > MAX_VALLEN { return ERRVALLEN; }
      code := store.PutCheck(key, value);
    }

    method Put(key: CStr, value: CStr) returns (code: int)
      requires Valid()
      modifies dir`entries, store`model
      ensures Valid() && View() == old(View()).(store := Apply(old(store.model), Txn.Put(key, value)))
      ensures code == 0 <==> 1 <= |key| <= 1024 && |value| <= 1024
      ensures store.model == if code == 0 then old(store.model)[key := value] else old(store.model)
    {
      code := PutCheck(key, value);
      if code < 0 { return; }
      code := store.Put(key, value);
    }

    method DelCheck(key: CStr) returns (code: int)
      requires Valid()
      ensures code == if |key| == 0 || |key| > 1024 then -11 else if key !in store.model then -13 else 0
    {
      if |key| > MAX_KEYLEN || |key| == 0 { return ERRKEYLEN; }
      code := store.DelCheck(key);
    }

    method Del(key: CStr) returns (code: int)
      requires Valid()
      modifies dir`entries, store`model
      ensures Valid() && View() == old(View()).(store := Apply(old(store.model), Txn.Del(key)))
      ensures code == 0 <==> 1 <= |key| <= 1024 && key in old(store.model)
      ensures store.model == if code == 0 then old(store.model) - {key} else old(store.model)
    {
      code := DelCheck(key);
      if code < 0 {
        RefusedDelChangesNothing(store.model, key);
        return;
      }
      code := store.Del(key);
    }

    method Get(key: CStr) returns (code: int, value: CStr)
      requires Valid()
      ensures code == if |key| > 1024 then -11 else if key !in store.model then -13 else 0
      ensures code == 0 ==> value == store.model[key]
    {
      if |key| > MAX_KEYLEN { return ERRKEYLEN, ""; }
      code, value := store.Get(key);
    }

    /** Carries out the pending update and empties the slot. */
    method CommitPending()
      requires Valid() && HandleCommit(View()).Reply?
      modifies this`slot, dir`entries, store`model
      ensures Valid()
      ensures Reply(View(), ACK) == HandleCommit(old(View()))
    {
      if slot.msg == PutReq {
        var _ := Put(slot.key.value, slot.value.value);
        slot := EMPTY_SLOT;
      } else if slot.msg == DelReq {
        var _ := Del(slot.key.value);
        slot := EMPTY_SLOT;
      }
    }

    /** Logs and answers one request. */
    method HandleTpc(req: Request) returns (res: Response)
      requires Valid() && Handle(View(), req).Reply?
      modifies this`slot, dir`entries, store`model, dir`logs
      ensures Valid() && Reply(View(), res) == Handle(old(View()), req)
      ensures dir.logs == LogsAfter(old(dir.logs), log.nextid, dir.superuser, req)
    {
      if LoggedAs(req).Some? {
        var copy := new L.TpcLog.Copy(log);
        var _ := copy.Log(LoggedAs(req).value);
      }
      res := Answer(req);
    }

    method Answer(req: Request) returns (res: Response)
      requires Valid() && Handle(View(), req).Reply?
      modifies this`slot, dir`entries, store`model
      ensures Valid() && Reply(View(), res) == Handle(old(View()), req)
    {
      if req.kind == PutReq {
        var _ := PutCheck(req.key.value, req.val.value);
        slot := Slot(PutReq, req.key, req.val);
        res := VOTE_COMMIT;
      } else if req.kind == DelReq {
        var code := DelCheck(req.key.value);
        if code == 0 {
          slot := Slot(DelReq, req.key, None);
          res := VOTE_COMMIT;
        } else {
          res := Response(Error, Some(InvalidRequestText));
        }
      } else if req.kind == Commit {
        CommitPending();
        res := ACK;
      } else if req.kind == Abort {
        slot := EMPTY_SLOT;
        res := ACK;
      } else if req.kind == GetReq {
        var code, value := Get(req.key.value);
        res := if code == 0 then Response(GetResp, Some(Value(value))) else Response(Error, Some(NoKeyText));
      } else {
        res := Response(Error, Some(EndOfHandleText));
      }
    }
  }

  // ---------- restarts ----------

  /** What a restart does when the last message in the log is `m`, whatever is in the store and in the slot memory: a PUT
      or a DELETE is pending again (copying a deleted key over a null pointer is fatal), an ABORT has emptied the slot,
      and a COMMIT is handled like one that arrives. */
  lemma LastMessageDecides(logs: map<nat, LogFile>, n: nat, m: L.Message, store: map<CStr, CStr>, slot: Slot)
    requires LogLength(logs, n + 1) && logs[n] == L.Dump(m)
    ensures m.PutMsg? ==> Rebuilt(Node(store, slot), logs, n + 1) == Some(Node(store, Slot(PutReq, Some(m.key), Some(m.value))))
    ensures m.DelMsg? ==>
      Rebuilt(Node(store, slot), logs, n + 1) == if slot.key.None? then None else Some(Node(store, Slot(DelReq, Some(m.key), None)))
    ensures m.AbortMsg? ==> Rebuilt(Node(store, slot), logs, n + 1) == Some(Node(store, Slot(Empty, None, None)))
    ensures m.CommitMsg? ==>
      match Handle(Node(store, slot), Request(Commit, None, None))
      case Crash => Rebuilt(Node(store, slot), logs, n + 1) == None
      case Reply(node, _) => Rebuilt(Node(store, slot), logs, n + 1) == Some(node)
  {
    L.LoadedDump(m);
    if m.PutMsg? { PackedReads(m.key, m.value); }
    if m.DelMsg? { TextAtStops(m.key + "\0", 0, m.key); }
  }

  /** The log files once a process whose next free id is `n` has received a PUT, and once it has then
      received the COMMIT. */
  function LogsAfterPut(logs: map<nat, LogFile>, n: nat, superuser: bool, k: CStr, v: CStr): map<nat, LogFile> {
    LogsAfter(logs, n, superuser, RequestOf(Txn.Put(k, v)))
  }

  function LogsAfterCommit(logs: map<nat, LogFile>, n: nat, superuser: bool, k: CStr, v: CStr): map<nat, LogFile> {
    LogsAfter(LogsAfterPut(logs, n, superuser, k, v), n, superuser, Request(Commit, None, None))
  }

  /** A PUT that is the first request of a process survives a restart: whatever is in the new process's
      slot memory, rebuilding puts the same update back into the slot. */
  lemma PutSurvivesRestart(logs: map<nat, LogFile>, n: nat, superuser: bool, k: CStr, v: CStr, store: map<CStr, CStr>, slot: Slot)
    requires LogLength(logs, n) && n + 1 !in logs
    ensures var logs' := LogsAfterPut(logs, n, superuser, k, v);
      && LogLength(logs', n + 1)
      && Rebuilt(Node(store, slot), logs', n + 1) == Some(Node(store, Slot(PutReq, Some(k), Some(v))))
  {
    PutIsLogged(logs, n, superuser, k, v);
    PutSurvives(LogsAfterPut(logs, n, superuser, k, v), n, k, v, store, slot);
  }

  /** What a restart after PUT and COMMIT leads to, whatever is in the new process's slot memory. An ordinary user
      could not log the COMMIT and is back at the prepared PUT. A superuser has written it over the PUT, which is
      lost: the COMMIT is carried out on whatever the slot memory holds. */
  lemma RestartAfterCommit(logs: map<nat, LogFile>, n: nat, superuser: bool, k: CStr, v: CStr, store: map<CStr, CStr>, slot: Slot)
    requires LogLength(logs, n) && n + 1 !in logs
    ensures var logs' := LogsAfterCommit(logs, n, superuser, k, v);
      && LogLength(logs', n + 1)
      && Rebuilt(Node(store, slot), logs', n + 1) == AfterCommit(store, slot, superuser, k, v)
  {
    var logs' := LogsAfterPut(logs, n, superuser, k, v);
    PutIsLogged(logs, n, superuser, k, v);
    if superuser {
      CommitIsLogged(logs', n, k, v);
      CommitIsReplayed(LogsAfterCommit(logs, n, superuser, k, v), n, k, v, store, slot);
    } else {
      CommitIsNotLogged(logs', n, k, v);
      PutSurvives(logs', n, k, v, store, slot);
    }
  }

  /** An ordinary user's COMMIT cannot be logged. */
  lemma CommitIsNotLogged(logs: map<nat, LogFile>, n: nat, k: CStr, v: CStr)
    requires EndsWithPut(logs, n, k, v)
    ensures LogsAfter(logs, n, false, Request(Commit, None, None)) == logs
  {
  }

  lemma CommitIsReplayed(logs: map<nat, LogFile>, n: nat, k: CStr, v: CStr, store: map<CStr, CStr>, slot: Slot)
    requires LogLength(logs, n + 1) && L.Load(logs[n]) == Some(L.Dump(L.CommitMsg))
    ensures Rebuilt(Node(store, slot), logs, n + 1) == AfterCommit(store, slot, true, k, v)
  {
  }

  /** A superuser's COMMIT takes the place of the PUT in the log. */
  lemma CommitIsLogged(logs: map<nat, LogFile>, n: nat, k: CStr, v: CStr)
    requires EndsWithPut(logs, n, k, v)
    ensures var logs' := LogsAfter(logs, n, true, Request(Commit, None, None));
      LogLength(logs', n + 1) && L.Load(logs'[n]) == Some(L.Dump(L.CommitMsg))
  {
  }

  function AfterCommit(store: map<CStr, CStr>, slot: Slot, superuser: bool, k: CStr, v: CStr): Option<Node> {
    if !superuser then Some(Node(store, SlotFor(Txn.Put(k, v))))
    else if HandleCommit(Node(store, slot)).Crash? then None
    else Some(HandleCommit(Node(store, slot)).node)
  }

  /** The update is already in the store, or outside the limits. */
  predicate Done(store: map<CStr, CStr>, k: CStr, v: CStr) { !PutOk(k, v) || (k in store && store[k] == v) }

  /** A COMMIT that was logged is not redone after a restart, though it was meant to be. For an ordinary user, and for a
      superuser whose slot memory names no update, it has taken effect exactly if it already had; for a superuser
      whose slot memory names one, exactly if that update happens to do what the logged one would. */
  lemma CommitRedoneIff(store: map<CStr, CStr>, slot: Slot, superuser: bool, k: CStr, v: CStr)
    requires AfterCommit(store, slot, superuser, k, v).Some?
    ensures var after := AfterCommit(store, slot, superuser, k, v).value.store;
      after == Apply(store, Txn.Put(k, v)) <==>
        if superuser && Pending(slot).Some? then Apply(store, Pending(slot).value) == Apply(store, Txn.Put(k, v))
        else Done(store, k, v)
  {
    DoneIffApplied(store, k, v);
  }

  lemma DoneIffApplied(store: map<CStr, CStr>, k: CStr, v: CStr)
    ensures Apply(store, Txn.Put(k, v)) == store <==> Done(store, k, v)
  {
  }

  /** A concrete loss: an empty store, a key and a value within the limits, and no update after the restart. */
  lemma CommitLost(superuser: bool)
    ensures AfterCommit(map[], EMPTY_SLOT, superuser, "k", "v").Some?
    ensures AfterCommit(map[], EMPTY_SLOT, superuser, "k", "v").value.store != Apply(map[], Txn.Put("k", "v"))
  {
    CommitRedoneIff(map[], EMPTY_SLOT, superuser, "k", "v");
  }

  /** The same with real processes: prepare a PUT, stop, start again on the same directory. */
  method RestartAfterPut(dir: Directory, hash: CStr -> nat, k: CStr, v: CStr, junk: Slot, junk': Slot,
                         ghost model: map<CStr, CStr>, ghost n: nat)
    returns (before: KvServer, after: KvServer)
    requires S.Stores(dir.entries, hash, model)
    requires LogLength(dir.logs, n) && forall i: nat :: i in dir.logs ==> i < n
    requires Rebuilt(Node(model, junk), dir.logs, n).Some?
    modifies dir
    ensures before.slot == after.slot == Slot(PutReq, Some(k), Some(v)) && after.Valid() && after.View() == before.View()
  {
    before := PreparePut(dir, hash, k, v, junk, model, n);
    PutSurvives(dir.logs, n, k, v, before.store.model, junk');
    LogLengthUnique(dir.logs, n + 1);
    after := new KvServer(dir, hash, junk', before.store.model);
  }

  /** The log ends with the PUT, and its file is whole. */
  ghost predicate EndsWithPut(logs: map<nat, LogFile>, n: nat, k: CStr, v: CStr) {
    LogLength(logs, n + 1) && logs[n] == L.Dump(L.PutMsg(k, v))
  }

  lemma PutSurvives(logs: map<nat, LogFile>, n: nat, k: CStr, v: CStr, store: map<CStr, CStr>, slot: Slot)
    requires EndsWithPut(logs, n, k, v)
    ensures Rebuilt(Node(store, slot), logs, n + 1) == Some(Node(store, SlotFor(Txn.Put(k, v))))
  {
    PackedReads(k, v);
    L.LoadedDump(L.PutMsg(k, v));
  }

  lemma PutIsLogged(logs: map<nat, LogFile>, n: nat, superuser: bool, k: CStr, v: CStr)
    requires LogLength(logs, n) && n + 1 !in logs
    ensures EndsWithPut(LogsAfterPut(logs, n, superuser, k, v), n, k, v)
  {
  }

  /** The process that prepares the PUT. */
  method PreparePut(dir: Directory, hash: CStr -> nat, k: CStr, v: CStr, junk: Slot, ghost model: map<CStr, CStr>, ghost n: nat)
    returns (server: KvServer)
    requires S.Stores(dir.entries, hash, model)
    requires LogLength(dir.logs, n) && forall i: nat :: i in dir.logs ==> i < n
    requires Rebuilt(Node(model, junk), dir.logs, n).Some?
    modifies dir
    ensures server.Valid() && server.dir == dir && server.store.hash == hash && server.slot == SlotFor(Txn.Put(k, v))
    ensures EndsWithPut(dir.logs, n, k, v) && fresh(server) && fresh(server.store) && fresh(server.log)
  {
    LogLengthUnique(dir.logs, n);
    PutIsLogged(dir.logs, n, dir.superuser, k, v);
    server := new KvServer(dir, hash, junk, model);
    var _ := server.HandleTpc(RequestOf(Txn.Put(k, v)));
  }

  lemma LogLengthUnique(logs: map<nat, LogFile>, n: nat)
    requires LogLength(logs, n)
    ensures forall m :: LogLength(logs, m) ==> m == n
  {
  }
}
