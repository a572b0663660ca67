/** The remote file system, as the work items see it. */
module Remote {
  import opened Common

  /** A remote file: its stat, and for the text files the engine writes
      itself (backup sidecars) the text. Byte contents are not modelled. */
  datatype File = File(stat: Stat, text: Option<string>)

  /** What a retrying stat reports for a path on the recheck attempt whose
      remaining retry count is `n`; `None` means "not found". It stands for the
      remote's propagation lag, which the engine cannot see directly. */
  type Probe = (Path, nat) -> Option<Stat>

  /** The remote tree: a map from path to file, which copies, deletes and
      backups change in place. */
  class RemoteFs {
    var files: map<Path, File>

    constructor (initial: map<Path, File>)
      ensures files == initial
    {
      files := initial;
    }
  }
}
