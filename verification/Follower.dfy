/** One follower as the leader sees it: a key-value map and a single pending
    slot, changed only by handled requests (hw4/src/kvserver.c). `KvServer`
    implements `Handle` over files; `TwoPhaseCommit` runs it under a lossy network. */
module Follower {
  import opened KvConstants

  /** The slot is never initialised by the server, so any message type and any
      (possibly null) key and value can be found in it. */
  datatype Slot = Slot(msg: MsgType, key: Option<CStr>, value: Option<CStr>)

  const EMPTY_SLOT := Slot(Empty, None, None)

  datatype Node = Node(store: map<CStr, CStr>, slot: Slot)

  /** A client's update. */
  datatype Txn = Put(key: CStr, value: CStr) | Del(key: CStr)

  function RequestOf(t: Txn): Request {
    match t
    case Put(k, v) => Request(PutReq, Some(k), Some(v))
    case Del(k) => Request(DelReq, Some(k), None)
  }

  predicate KeyOk(k: CStr) { 0 < |k| <= MAX_KEYLEN }

  predicate PutOk(k: CStr, v: CStr) { KeyOk(k) && |v| <= MAX_VALLEN }

  predicate DelOk(store: map<CStr, CStr>, k: CStr) { KeyOk(k) && k in store }

  /** What a committed update does to a map: an update outside the limits is a no-op. */
  function Apply(store: map<CStr, CStr>, t: Txn): map<CStr, CStr> {
    match t
    case Put(k, v) => if PutOk(k, v) then store[k := v] else store
    case Del(k) => if KeyOk(k) then store - {k} else store
  }

  /** The update waiting in a slot, if its message type names one. */
  function Pending(s: Slot): Option<Txn> {
    if s.msg == PutReq && s.key.Some? && s.value.Some? then Some(Put(s.key.value, s.value.value))
    else if s.msg == DelReq && s.key.Some? then Some(Del(s.key.value))
    else None
  }

  /** The slot a follower holds after voting for `t`. */
  function SlotFor(t: Txn): Slot {
    match t
    case Put(k, v) => Slot(PutReq, Some(k), Some(v))
    case Del(k) => Slot(DelReq, Some(k), None)
  }

  /** A handled request either answers, or dereferences a null pointer. */
  datatype Handled = Crash | Reply(node: Node, response: Response)

  const VOTE_COMMIT := Response(Vote, Some(CommitText))
  const ACK := Response(Ack, None)

  function Handle(n: Node, req: Request): Handled {
    if req.kind == PutReq then
      if req.key.None? || req.val.None? then Crash
      else Reply(n.(slot := Slot(PutReq, req.key, req.val)), VOTE_COMMIT)
    else if req.kind == DelReq then
      if req.key.None? then Crash
      else if DelOk(n.store, req.key.value) then Reply(n.(slot := Slot(DelReq, req.key, None)), VOTE_COMMIT)
      else Reply(n, Response(Error, Some(InvalidRequestText)))
    else if req.kind == Commit then HandleCommit(n)
    else if req.kind == Abort then Reply(n.(slot := EMPTY_SLOT), ACK)
    else if req.kind == GetReq then
      if req.key.None? then Crash
      else if |req.key.value| <= MAX_KEYLEN && req.key.value in n.store then
        Reply(n, Response(GetResp, Some(Value(n.store[req.key.value]))))
      else Reply(n, Response(Error, Some(NoKeyText)))
    else Reply(n, Response(Error, Some(EndOfHandleText)))
  }

  function HandleCommit(n: Node): Handled {
    if n.slot.msg != PutReq && n.slot.msg != DelReq then Reply(n, ACK)
    else if Pending(n.slot).None? then Crash
    else Reply(Node(Apply(n.store, Pending(n.slot).value), EMPTY_SLOT), ACK)
  }

  /** How a follower answers, request by request, with its limits in numbers. */
  lemma Answers(n: Node, k: CStr, v: CStr, req: Request)
    ensures Handle(n, Request(PutReq, Some(k), Some(v))) ==
      Reply(Node(n.store, Slot(PutReq, Some(k), Some(v))), Response(Vote, Some(CommitText)))
    ensures Handle(n, Request(DelReq, Some(k), None)) ==
      if 1 <= |k| <= 1024 && k in n.store then Reply(Node(n.store, Slot(DelReq, Some(k), None)), Response(Vote, Some(CommitText)))
      else Reply(n, Response(Error, Some(InvalidRequestText)))
    ensures Handle(n, Request(GetReq, Some(k), None)) ==
      if |k| <= 1024 && k in n.store then Reply(n, Response(GetResp, Some(Value(n.store[k]))))
      else Reply(n, Response(Error, Some(NoKeyText)))
    ensures req.kind == Abort ==> Handle(n, req) == Reply(Node(n.store, Slot(Empty, None, None)), Response(Ack, None))
    ensures req.kind == Commit && n.slot == Slot(PutReq, Some(k), Some(v)) ==>
      Handle(n, req) == Reply(Node(if 1 <= |k| <= 1024 && |v| <= 1024 then n.store[k := v] else n.store, Slot(Empty, None, None)),
                              Response(Ack, None))
    ensures req.kind == Commit && n.slot == Slot(DelReq, Some(k), None) ==>
      Handle(n, req) == Reply(Node(if 1 <= |k| <= 1024 then n.store - {k} else n.store, Slot(Empty, None, None)), Response(Ack, None))
    ensures req.kind == Commit && n.slot.msg != PutReq && n.slot.msg != DelReq ==> Handle(n, req) == Reply(n, Response(Ack, None))
    ensures req.kind !in {PutReq, DelReq, Commit, Abort, GetReq} ==> Handle(n, req) == Reply(n, Response(Error, Some(EndOfHandleText)))
  {
  }
}
