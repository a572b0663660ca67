/** The value side of a work item: its kind, its statuses, the faults a run
    raises, the attribute values `update` writes through the item's `__dict__`,
    the record the job store keeps and the identity derived from it. */
module Records {
  import opened Common

  datatype WorkerType = Delete | Copy

  /** Every status a work item is given. The copy sub-steps also write
      `Downloaded` and `Uploaded`, which the declared status literal leaves out;
      here they are states like the others. */
  datatype WorkerStatus =
    | Init | Deleted | BackingUp | BackedUp | Downloading | Uploading | Copied | Done | Failed
    | Downloaded | Uploaded
  {
    predicate Terminal() { this == Done || this == Failed }

    /** Position in the state machine; every status a run writes ranks
        above the one before it. */
    function Rank(): nat
    {
      match this
      case Init => 0
      case BackingUp => 1
      case BackedUp => 2
      case Downloading => 3
      case Downloaded => 4
      case Uploading => 5
      case Uploaded => 6
      case Copied => 7
      case Deleted => 7
      case Done => 8
      case Failed => 8
    }
  }

  /** The exceptions a work item can raise, which its run stores as `error_info`. */
  datatype Fault =
    | KeyError                  // `update` named something that is not an attribute
    | NoBackupDir               // a backup is wanted but no backup directory is set
    | BackupConflict            // the `.history` file or its `.json` sidecar already exists
    | NotFound(path: Path)      // a stat of a path that does not exist
    | NoSourcePath              // a copy item without a source path
    | UploadRejected(code: int) // the upload answered a code other than 200
    | SizeMismatch              // the uploaded target's size differs from the source's
    | RecheckFailed             // the post-condition check came back false

  /** A value written to or read from one attribute. `Reference` stands for
      the private object references, whose contents are not modelled. */
  datatype Value =
    | Null
    | Text(text: string)
    | Number(number: int)
    | Flag(flag: bool)
    | PathValue(path: Path)
    | KindValue(kind: WorkerType)
    | StatusValue(status: WorkerStatus)
    | FaultValue(fault: Fault)
    | Reference

  /** The data attributes of a work item: what its dump holds besides the id. */
  datatype WorkerRecord = WorkerRecord(
    owner: string,
    createdAt: Time,
    doneAt: Option<Time>,
    kind: WorkerType,
    needBackup: bool,
    backupDir: Option<Path>,
    sourcePath: Option<Path>,
    targetPath: Path,
    status: WorkerStatus,
    errorInfo: Option<Fault>)

  const DataNames: set<string> :=
    {"owner", "created_at", "done_at", "type", "need_backup", "backup_dir",
     "source_path", "target_path", "status", "error_info"}

  /** The two private attributes, excluded from every dump. */
  const PrivateNames: set<string> := {"workers", "collection"}

  /** The keys of a work item's `__dict__`; the computed `id` is not one of them. */
  const AttributeNames: set<string> := DataNames + PrivateNames

  function OptTime(t: Option<Time>): Value
  {
    match t
    case None => Null
    case Some(n) => Number(n)
  }

  function OptPath(p: Option<Path>): Value
  {
    match p
    case None => Null
    case Some(q) => PathValue(q)
  }

  function OptFault(f: Option<Fault>): Value
  {
    match f
    case None => Null
    case Some(e) => FaultValue(e)
  }

  /** The value of data attribute `name` (`Null` for any other name). */
  function Get(r: WorkerRecord, name: string): Value
  {
    if name == "owner" then Text(r.owner)
    else if name == "created_at" then Number(r.createdAt)
    else if name == "done_at" then OptTime(r.doneAt)
    else if name == "type" then KindValue(r.kind)
    else if name == "need_backup" then Flag(r.needBackup)
    else if name == "backup_dir" then OptPath(r.backupDir)
    else if name == "source_path" then OptPath(r.sourcePath)
    else if name == "target_path" then PathValue(r.targetPath)
    else if name == "status" then StatusValue(r.status)
    else if name == "error_info" then OptFault(r.errorInfo)
    else Null
  }

  /** Whether `v` has the declared type of attribute `name`. The private
      attributes and names that are not attributes take any value. */
  predicate Fits(name: string, v: Value)
  {
    if name == "owner" then v.Text?
    else if name == "created_at" then v.Number?
    else if name == "done_at" then v.Null? || v.Number?
    else if name == "type" then v.KindValue?
    else if name == "need_backup" then v.Flag?
    else if name == "backup_dir" || name == "source_path" then v.Null? || v.PathValue?
    else if name == "target_path" then v.PathValue?
    else if name == "status" then v.StatusValue?
    else if name == "error_info" then v.Null? || v.FaultValue?
    else true
  }

  /** The record after `__dict__.update(fields)`: each data attribute named in
      `fields` takes the given value, every other keeps its own. */
  function Overwrite(r: WorkerRecord, fields: map<string, Value>): WorkerRecord
  {
    WorkerRecord(
      owner := if "owner" in fields then TextOf(fields["owner"]) else r.owner,
      createdAt := if "created_at" in fields then NumberOf(fields["created_at"]) else r.createdAt,
      doneAt := if "done_at" in fields then OptTimeOf(fields["done_at"]) else r.doneAt,
      kind := if "type" in fields then KindOf(fields["type"]) else r.kind,
      needBackup := if "need_backup" in fields then FlagOf(fields["need_backup"]) else r.needBackup,
      backupDir := if "backup_dir" in fields then OptPathOf(fields["backup_dir"]) else r.backupDir,
      sourcePath := if "source_path" in fields then OptPathOf(fields["source_path"]) else r.sourcePath,
      targetPath := if "target_path" in fields then PathOf(fields["target_path"]) else r.targetPath,
      status := if "status" in fields then StatusOf(fields["status"]) else r.status,
      errorInfo := if "error_info" in fields then OptFaultOf(fields["error_info"]) else r.errorInfo)
  }

  /** After `Overwrite`, every data attribute named in `fields` reads back the
      value written, and every other one reads as before. */
  lemma OverwriteReadsBack(r: WorkerRecord, fields: map<string, Value>)
    requires forall k :: k in fields ==> Fits(k, fields[k])
    ensures forall k :: k in DataNames ==>
      Get(Overwrite(r, fields), k) == if k in fields then fields[k] else Get(r, k)
  {
    var u := Overwrite(r, fields);
    forall k | k in DataNames
      ensures Get(u, k) == if k in fields then fields[k] else Get(r, k)
    {
      if k in fields {
        assert Fits(k, fields[k]);
      }
    }
  }

  // Readers of one value as one attribute type; `Fits` says which one applies.

  function TextOf(v: Value): string { if v.Text? then v.text else "" }
  function NumberOf(v: Value): int { if v.Number? then v.number else 0 }
  function FlagOf(v: Value): bool { v.Flag? && v.flag }
  function KindOf(v: Value): WorkerType { if v.KindValue? then v.kind else Copy }
  function PathOf(v: Value): Path { if v.PathValue? then v.path else [] }
  function StatusOf(v: Value): WorkerStatus { if v.StatusValue? then v.status else Init }
  function OptTimeOf(v: Value): Option<Time> { if v.Number? then Some(v.number) else None }
  function OptPathOf(v: Value): Option<Path> { if v.PathValue? then Some(v.path) else None }
  function OptFaultOf(v: Value): Option<Fault> { if v.FaultValue? then Some(v.fault) else None }

  function KindName(k: WorkerType): string
  {
    match k
    case Delete => "delete"
    case Copy => "copy"
  }

  /** `str()` of an optional path. */
  function PathText(p: Option<Path>): string
  {
    match p
    case None => "None"
    case Some(q) => Posix(q)
  }

  /** The work item's id: the hash of its type, source path and creation time. */
  function Fingerprint(sha1: string -> string, r: WorkerRecord): string
  {
    sha1(KindName(r.kind) + PathText(r.sourcePath) + Decimal(r.createdAt))
  }

  /** The id survives every update that leaves `type`, `source_path` and
      `created_at` alone, so the job store keeps one key per item. */
  lemma FingerprintStable(sha1: string -> string, r: WorkerRecord, fields: map<string, Value>)
    requires forall k :: k in fields ==> Fits(k, fields[k])
    requires "type" !in fields && "source_path" !in fields && "created_at" !in fields
    ensures Fingerprint(sha1, Overwrite(r, fields)) == Fingerprint(sha1, r)
  {
    var u := Overwrite(r, fields);
    assert Get(u, "type") == Get(r, "type");
    assert Get(u, "source_path") == Get(r, "source_path");
    assert Get(u, "created_at") == Get(r, "created_at");
  }

  /** The keys of the JSON dump: the data attributes and the computed id. */
  const DumpNames: set<string> := DataNames + {"id"}

  /** The JSON dump (`model_dump`): the computed id and every data attribute,
      without the private ones. */
  function Dump(id: string, r: WorkerRecord): map<string, Value>
  {
    map k | k in DumpNames :: if k == "id" then Text(id) else Get(r, k)
  }

  /** `__dict__.get(name)`: the private `workers` attribute holds a reference once
      a scheduler has accepted the item, `collection` is never set, and a name
      that is not an attribute (the computed id among them) gives `None`. */
  function DictGet(r: WorkerRecord, attached: bool, name: string): Value
  {
    if name == "workers" then (if attached then Reference else Null)
    else Get(r, name)
  }

  /** The status reached after writing `steps` in order from `s0`. */
  function Last(s0: WorkerStatus, steps: seq<WorkerStatus>): WorkerStatus
  {
    if steps == [] then s0 else steps[|steps| - 1]
  }

  /** Each status in `steps` ranks above the one before it, starting from `s0`. */
  ghost predicate Rises(s0: WorkerStatus, steps: seq<WorkerStatus>)
  {
    forall i :: 0 <= i < |steps| ==> Before(s0, steps, i).Rank() < steps[i].Rank()
  }

  /** The status in force just before `steps[i]` is written. */
  function Before(s0: WorkerStatus, steps: seq<WorkerStatus>, i: nat): WorkerStatus
    requires i < |steps|
  {
    if i == 0 then s0 else steps[i - 1]
  }

  /** Two rising runs of writes, one after the other, form one rising run. */
  lemma RisesJoin(s0: WorkerStatus, a: seq<WorkerStatus>, b: seq<WorkerStatus>)
    requires Rises(s0, a) && Rises(Last(s0, a), b)
    ensures Rises(s0, a + b)
    ensures Last(s0, a + b) == Last(Last(s0, a), b)
  {
    var ab := a + b;
    forall i | 0 <= i < |ab|
      ensures Before(s0, ab, i).Rank() < ab[i].Rank()
    {
      if i < |a| {
        assert Before(s0, a, i).Rank() < a[i].Rank();
        assert ab[i] == a[i];
        if i > 0 { assert ab[i - 1] == a[i - 1]; }
      } else {
        var j := i - |a|;
        assert Before(Last(s0, a), b, j).Rank() < b[j].Rank();
        assert ab[i] == b[j];
        if j > 0 {
          assert ab[i - 1] == b[j - 1];
        } else if i > 0 {
          assert ab[i - 1] == a[|a| - 1];
        }
      }
    }
  }
}
