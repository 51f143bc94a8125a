/** Types shared by the stores and the sync jobs: an option type for the
    source's nullable values and the sync-status enumeration with its
    textual form, as it is written into the status columns. */
module Common {

  /** A nullable value (`Long?`, `String?` in the source). */
  datatype Option<+T> = None | Some(value: T) {
    function GetOr(default: T): T {
      match this
      case Some(v) => v
      case None => default
    }
  }

  /** The sync status of a word or an AI response. */
  datatype SyncStatus = Pending | InProgress | Synced | Failed | Deleted

  /** The name the enum constant has in the source (`status.name`). */
  function StatusName(s: SyncStatus): string {
    match s
    case Pending => "PENDING"
    case InProgress => "IN_PROGRESS"
    case Synced => "SYNCED"
    case Failed => "FAILED"
    case Deleted => "DELETED"
  }

  /** `SyncStatus.valueOf(name)`: the constant with that exact name, or
      `None` where the source throws IllegalArgumentException. */
  function ParseStatus(name: string): (r: Option<SyncStatus>)
    ensures r.Some? ==> StatusName(r.value) == name
    ensures forall s :: StatusName(s) == name ==> r == Some(s)
  {
    if name == "PENDING" then Some(Pending)
    else if name == "IN_PROGRESS" then Some(InProgress)
    else if name == "SYNCED" then Some(Synced)
    else if name == "FAILED" then Some(Failed)
    else if name == "DELETED" then Some(Deleted)
    else None
  }
}
