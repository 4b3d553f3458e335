/** Limits, error codes and message types shared by the leader and the followers
    (hw4/src/kvconstants.h), and the C strings they exchange. */
module KvConstants {

  datatype Option<+T> = None | Some(value: T)

  const MAX_KEYLEN: nat := 1024
  const MAX_VALLEN: nat := 1024

  const ERRKEYLEN: int := -11
  const ERRVALLEN: int := -12
  const ERRNOKEY: int := -13
  const ERRFILACCESS: int := -17

  datatype MsgType =
    // requests
    | Index | GetReq | PutReq | DelReq | Register | Commit | Abort
    // responses
    | GetResp | Success | Error | Vote | Ack
    // internal error, and the mark of an unused pending slot
    | Empty

  predicate NulFree(s: string) {
    forall i :: 0 <= i < |s| ==> s[i] != '\0'
  }

  /** The text of a NUL-terminated string, without its terminator. */
  type CStr = s: string | NulFree(s)

  datatype Request = Request(kind: MsgType, key: Option<CStr>, val: Option<CStr>)

  /** The body of a response: a stored value, or one of the fixed texts. */
  datatype Body =
    | Value(value: CStr)
    | CommitText        // "commit", the body of a vote
    | NoKeyText
    | InvalidRequestText
    | NotAtCapacityText
    | FollowerCapacityText
    | GenericErrorText
    | EndOfHandleText

  datatype Response = Response(kind: MsgType, body: Option<Body>)
}
