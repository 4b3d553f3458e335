/** The directory a server keeps its files in: store entries, named "HASH-POS.entry", and
    log entries, named "ID.log", side by side. */
module Directory {
  import opened KvConstants
  import opened HashChains

  /** Binary dumps of kventry_t and logentry_t. */
  datatype EntryFile = EntryFile(length: int, data: string)
  datatype LogFile = LogFile(kind: MsgType, length: int, data: string)

  class Directory {
    var present: bool
    var entries: map<Place, EntryFile>
    var logs: map<nat, LogFile>
    /** Whether the server runs as a user that file modes do not bind. */
    const superuser: bool

    constructor (superuser: bool)
      ensures !present && entries == map[] && logs == map[] && this.superuser == superuser
    {
      present, entries, logs := false, map[], map[];
      this.superuser := superuser;
    }
  }
}
