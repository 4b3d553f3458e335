/** The follower's log (hw4/src/tpclog.c): one file per message, numbered from 0.
    It refines a sequence of messages. */
module TpcLog {
  import opened KvConstants
  import opened CText
  import opened Directory

  /** A logged message. COMMIT and ABORT carry nothing. */
  datatype Message = PutMsg(key: CStr, value: CStr) | DelMsg(key: CStr) | CommitMsg | AbortMsg

  /** What is written to the file of a message. */
  function Dump(m: Message): LogFile {
    match m
    case PutMsg(k, v) => LogFile(PutReq, |k| + |v| + 2, Packed(k, v))
    case DelMsg(k) => LogFile(DelReq, |k| + 1, k + "\0")
    case CommitMsg => LogFile(Commit, 0, "")
    case AbortMsg => LogFile(Abort, 0, "")
  }

  /** The message a loaded entry stands for. */
  function Decode(f: LogFile): Option<Message> {
    match f.kind
    case PutReq => Some(PutMsg(TextAt(f.data, 0), TextAt(f.data, |TextAt(f.data, 0)| + 1)))
    case DelReq => Some(DelMsg(TextAt(f.data, 0)))
    case Commit => Some(CommitMsg)
    case Abort => Some(AbortMsg)
    case _ => None
  }

  lemma DumpDecodes(m: Message)
    ensures Decode(Dump(m)) == Some(m)
  {
    match m
    case PutMsg(k, v) => PackedReads(k, v);
    case DelMsg(k) =>
      assert (k + "\0")[0..|k|] == k;
      TextAtStops(k + "\0", 0, k);
    case _ =>
  }

  /** Writing over the start of an old file, which is not truncated. */
  function Overwritten(was: LogFile, now: LogFile): LogFile {
    now.(data := now.data + if |now.data| < |was.data| then was.data[|now.data|..] else "")
  }

  function Appended(logs: map<nat, LogFile>, id: nat, m: Message): map<nat, LogFile> {
    logs[id := if id in logs then Overwritten(logs[id], Dump(m)) else Dump(m)]
  }

  /** The log files are exactly the dumps of `ms`, numbered from 0. */
  ghost predicate Logged(logs: map<nat, LogFile>, ms: seq<Message>) {
    && (forall i: nat :: i in logs <==> i < |ms|)
    && forall i :: 0 <= i < |ms| ==> logs[i] == Dump(ms[i])
  }

  function Range(a: nat, b: nat): (r: set<nat>)
    ensures forall i :: i in r <==> a <= i < b
  {
    if a >= b then {} else Range(a, b - 1) + {b - 1}
  }

  /** The first id at or after `from` that has no file. */
  method FirstFree(logs: map<nat, LogFile>, from: nat) returns (id: nat)
    ensures id >= from && id !in logs
    ensures forall i :: from <= i < id ==> i in logs
  {
    id := from;
    while id in logs
      invariant id >= from && forall i :: from <= i < id ==> i in logs
      decreases logs.Keys - Range(from, id)
    {
      assert Range(from, id) <= Range(from, id + 1) && id in logs.Keys - Range(from, id);
      id := id + 1;
    }
  }

  class TpcLog {
    const dir: Directory
    var nextid: nat
    var iterpos: nat

    /** The log holds `ms` and the next message goes to the end. */
    ghost predicate Holds(ms: seq<Message>)
      reads this, dir
    {
      nextid == |ms| && Logged(dir.logs, ms)
    }

    /** Opens the log kept in `dir`. */
    constructor (dir: Directory)
      modifies dir`present
      ensures this.dir == dir && dir.present
      ensures nextid !in dir.logs && forall i :: 0 <= i < nextid ==> i in dir.logs
      ensures forall ms :: Logged(dir.logs, ms) ==> Holds(ms)
    {
      var id := FirstFree(dir.logs, 0);
      assert forall ms :: Logged(dir.logs, ms) ==> id == |ms| by {
        forall ms | Logged(dir.logs, ms) ensures id == |ms| {
          assert |ms| !in dir.logs;
        }
      }
      this.dir, nextid, iterpos := dir, id, 0;
      new;
      dir.present := true;
    }

    /** A copy of the structure, as C makes when one is assigned. */
    constructor Copy(log: TpcLog)
      ensures dir == log.dir && nextid == log.nextid && iterpos == log.iterpos
    {
      dir, nextid, iterpos := log.dir, log.nextid, log.iterpos;
    }

    /** Appends a message. A file that is already there was created read-only, so only a superuser
        can open it again; the write then leaves the rest of the old contents in place. */
    method Log(m: Message) returns (code: int)
      modifies this`nextid, dir`logs
      ensures code == if old(nextid) in old(dir.logs) && !dir.superuser then ERRFILACCESS else 0
      ensures code != 0 ==> nextid == old(nextid) && dir.logs == old(dir.logs)
      ensures code == 0 ==> nextid == old(nextid) + 1 && dir.logs == Appended(old(dir.logs), old(nextid), m)
      ensures code == 0 && old(nextid) !in old(dir.logs) && m.PutMsg? ==>
        dir.logs[old(nextid)] == LogFile(PutReq, |m.key| + 1 + |m.value| + 1, m.key + "\0" + m.value + "\0")
      ensures code == 0 && old(nextid) !in old(dir.logs) && m.DelMsg? ==>
        dir.logs[old(nextid)] == LogFile(DelReq, |m.key| + 1, m.key + "\0")
      ensures code == 0 && old(nextid) !in old(dir.logs) && (m.CommitMsg? || m.AbortMsg?) ==>
        dir.logs[old(nextid)] == LogFile(if m.CommitMsg? then Commit else Abort, 0, "")
      ensures forall ms :: old(Holds(ms)) ==> code == 0 && Holds(ms + [m])
    {
      if nextid in dir.logs {
        if !dir.superuser { return ERRFILACCESS; }
      }
      dir.logs := Appended(dir.logs, nextid, m);
      nextid := nextid + 1;
      code := 0;
    }

    method IterateBegin()
      modifies this`iterpos
      ensures iterpos == 0
    {
      iterpos := 0;
    }

    predicate HasNext()
      reads this, dir
    {
      iterpos in dir.logs
    }

    /** The next entry, or none at the end or if the file is shorter than it says. */
    method Next() returns (entry: Option<LogFile>)
      modifies this`iterpos
      ensures old(!HasNext()) ==> entry == None && iterpos == old(iterpos)
      ensures old(HasNext()) ==> iterpos == old(iterpos) + 1 && entry == Load(dir.logs[old(iterpos)])
    {
      if !HasNext() { return None; }
      entry := Load(dir.logs[iterpos]);
      iterpos := iterpos + 1;
    }

    /** Deletes every entry. */
    method Clear()
      modifies this`nextid, dir`logs
      ensures nextid == 0
      ensures exists n: nat :: n !in old(dir.logs) && (forall i :: 0 <= i < n ==> i in old(dir.logs)) && dir.logs == old(dir.logs) - Range(0, n)
      ensures forall ms :: old(Holds(ms)) ==> Holds([])
    {
      var count := 0;
      ghost var n := FirstFree(dir.logs, 0);
      while count in dir.logs
        invariant 0 <= count <= n
        invariant dir.logs == old(dir.logs) - Range(0, count)
        decreases n - count
      {
        dir.logs := dir.logs - {count};
        count := count + 1;
      }
      nextid := 0;
    }
  }

  /** A loaded entry: as many bytes as its length field says. */
  function Load(f: LogFile): Option<LogFile> {
    if 0 <= f.length <= |f.data| then Some(f.(data := f.data[..f.length])) else None
  }

  // ---------- runs of the log ----------

  /** Iterates over the whole log, oldest entry first. */
  method ReadAll(log: TpcLog) returns (entries: seq<Option<LogFile>>)
    modifies log`iterpos
    ensures forall i :: 0 <= i < |entries| ==> i in log.dir.logs && entries[i] == Load(log.dir.logs[i])
    ensures |entries| !in log.dir.logs
  {
    log.IterateBegin();
    entries := [];
    while log.HasNext()
      invariant log.iterpos == |entries|
      invariant forall i :: 0 <= i < |entries| ==> i in log.dir.logs && entries[i] == Load(log.dir.logs[i])
      decreases log.dir.logs.Keys - Range(0, log.iterpos)
    {
      assert Range(0, log.iterpos) <= Range(0, log.iterpos + 1) && log.iterpos in log.dir.logs.Keys - Range(0, log.iterpos);
      var e := log.Next();
      entries := entries + [e];
    }
  }

  datatype LogOp = Append(m: Message) | ClearAll | Reopen

  /** The messages still in the log after `ops`: those logged since the last clear. */
  function Surviving(ms: seq<Message>, ops: seq<LogOp>): seq<Message>
    decreases |ops|
  {
    if ops == [] then ms
    else
      var before := Surviving(ms, ops[..|ops| - 1]);
      match ops[|ops| - 1]
      case Append(m) => before + [m]
      case ClearAll => []
      case Reopen => before
  }

  /** Any sequence of appends, clears and restarts, then a full iteration: it yields exactly the messages
      logged since the last clear, each decoded as it was logged, oldest first. */
  method LogSession(dir: Directory, ops: seq<LogOp>, ghost ms: seq<Message>) returns (log: TpcLog, read: seq<Option<Message>>)
    requires Logged(dir.logs, ms)
    modifies dir`logs, dir`present
    ensures fresh(log) && log.dir == dir && log.Holds(Surviving(ms, ops))
    ensures read == Decoded(Surviving(ms, ops))
  {
    log := new TpcLog(dir);
    for i := 0 to |ops|
      invariant fresh(log) && log.dir == dir && log.Holds(Surviving(ms, ops[..i]))
    {
      assert ops[..i + 1][..i] == ops[..i];
      match ops[i] {
        case Append(m) =>
          var _ := log.Log(m);
        case ClearAll =>
          log.Clear();
        case Reopen =>
          log := new TpcLog(dir);
      }
    }
    assert ops[..|ops|] == ops;
    ghost var all := Surviving(ms, ops);
    var entries := ReadAll(log);
    assert |entries| == |all| by { assert |all| !in dir.logs; }
    read := seq(|entries|, i requires 0 <= i < |entries| => if entries[i].Some? then Decode(entries[i].value) else None);
    forall i | 0 <= i < |all| ensures read[i] == Some(all[i]) {
      LoadedDump(all[i]);
    }
  }

  ghost function Decoded(ms: seq<Message>): seq<Option<Message>> {
    seq(|ms|, i requires 0 <= i < |ms| => Some(ms[i]))
  }

  lemma LoadedDump(m: Message)
    ensures Load(Dump(m)) == Some(Dump(m)) && Decode(Dump(m)) == Some(m)
  {
    DumpDecodes(m);
    assert Dump(m).data[..|Dump(m).data|] == Dump(m).data;
  }
}
