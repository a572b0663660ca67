/** The job store: work-item records keyed by id, file-listing entries keyed
    by path, and the completion log. `ShelveHandle` is the keyed store the
    work items write to; of the document-database handle only the way
    `update_worker` selects what to send is modelled. */
module JobStore {
  import opened Common
  import opened Records

  /** One entry of a remote listing, as the scanner stores it. */
  datatype FileItem = FileItem(name: string, size: nat, modified: Time, isDir: bool)

  /** What the store keeps for a listed path. */
  datatype FileEntry = FileEntry(id: Path, updateTime: Time, item: FileItem)

  /** The paths a stored record names: its target, and its source when it has one. */
  function RecordPaths(r: WorkerRecord): set<Path>
  {
    {r.targetPath} + (if r.sourcePath.Some? then {r.sourcePath.value} else {})
  }

  class ShelveHandle {
    /** Live work-item records by id. */
    var workers: map<string, WorkerRecord>
    /** Listing entries by path (the source keys them by the path's URI). */
    var items: map<Path, FileEntry>
    /** Completion log, oldest first. */
    var logs: seq<WorkerRecord>

    constructor ()
      ensures workers == map[] && items == map[] && logs == []
    {
      workers := map[];
      items := map[];
      logs := [];
    }

    /** No live record is in a terminal state. */
    ghost predicate NoTerminal()
      reads this
    {
      forall id :: id in workers ==> !workers[id].status.Terminal()
    }

    method CreateLog(w: WorkerRecord)
      modifies this
      ensures logs == old(logs) + [w]
      ensures workers == old(workers) && items == old(items)
    {
      logs := logs + [w];
    }

    /** Stores the full record under `id`, replacing any earlier one; the
        names of the changed fields are accepted and ignored. */
    method UpdateWorker(id: string, w: WorkerRecord, fields: set<string>)
      modifies this
      ensures workers == old(workers)[id := w]
      ensures items == old(items) && logs == old(logs)
    {
      workers := workers[id := w];
    }

    /** Removes the record under `id`; an absent id is not an error. */
    method DeleteWorker(id: string)
      modifies this
      ensures workers == old(workers) - {id}
      ensures id !in workers
      ensures forall other :: other != id ==> GetWorker(other) == old(GetWorker(other))
      ensures items == old(items) && logs == old(logs)
    {
      if id in workers {
        workers := workers - {id};
      }
    }

    /** A record written under `id` reads back as written, and deleting it
        again leaves every other id reading as it did before the write. */
    method StoreRoundTrip(id: string, w: WorkerRecord) returns (seen: Option<WorkerRecord>)
      modifies this
      ensures seen == Some(w)
      ensures workers == old(workers) - {id} && GetWorker(id) == None
      ensures forall other :: other != id ==> GetWorker(other) == old(GetWorker(other))
      ensures items == old(items) && logs == old(logs)
    {
      UpdateWorker(id, w, {});
      seen := GetWorker(id);
      DeleteWorker(id);
    }

    function GetWorker(id: string): (r: Option<WorkerRecord>)
      reads this
      ensures r.Some? <==> id in workers
      ensures r.Some? ==> r.value == workers[id]
    {
      if id in workers then Some(workers[id]) else None
    }

    /** Every source and target path named by a live record. */
    function LoadLocker(): (locks: set<Path>)
      reads this
      ensures forall p :: p in locks <==>
        exists id :: id in workers && (workers[id].targetPath == p || workers[id].sourcePath == Some(p))
    {
      var locks := set id, p | id in workers && p in RecordPaths(workers[id]) :: p;
      assert forall p :: p in locks <==>
        exists id :: id in workers && (workers[id].targetPath == p || workers[id].sourcePath == Some(p)) by {
        forall p ensures p in locks <==>
          exists id :: id in workers && (workers[id].targetPath == p || workers[id].sourcePath == Some(p)) {
          if exists id :: id in workers && (workers[id].targetPath == p || workers[id].sourcePath == Some(p)) {
            var id :| id in workers && (workers[id].targetPath == p || workers[id].sourcePath == Some(p));
            assert p in RecordPaths(workers[id]);
          }
        }
      }
      locks
    }

    predicate PathInWorkers(p: Path)
      reads this
    {
      p in LoadLocker()
    }

    /** A path is locked exactly when some live record names it. */
    predicate GetLocker(p: Path)
      reads this
      ensures GetLocker(p) <==>
        exists id :: id in workers && (workers[id].targetPath == p || workers[id].sourcePath == Some(p))
    {
      PathInWorkers(p)
    }

    method UpdateFileItem(path: Path, item: FileItem, now: Time)
      modifies this
      ensures items == old(items)[path := FileEntry(path, now, item)]
      ensures GetFileItem(path) == Some(item)
      ensures forall q :: q != path ==> GetFileItem(q) == old(GetFileItem(q))
      ensures workers == old(workers) && logs == old(logs)
    {
      items := items[path := FileEntry(path, now, item)];
    }

    function GetFileItem(path: Path): (r: Option<FileItem>)
      reads this
      ensures r.Some? <==> path in items
      ensures r.Some? ==> r.value == items[path].item
    {
      if path in items then Some(items[path].item) else None
    }
  }

  /** The single `update_one` call the document store makes for `update_worker`. */
  datatype MongoUpdateOne = MongoUpdateOne(filterId: string, document: map<string, Value>, upsert: bool)

  /** With no field names the whole dump is sent and the record is created if
      missing; with field names only those `__dict__` entries are sent and
      nothing is created. Of the document store, only this field selection
      and the upsert flag are modelled. */
  function MongoUpdateWorker(id: string, r: WorkerRecord, attached: bool, fields: seq<string>): (op: MongoUpdateOne)
    ensures op.filterId == id
    ensures op.upsert <==> fields == []
    ensures fields == [] ==> op.document == Dump(id, r)
    ensures fields == [] ==> op.document.Keys == DumpNames && op.document["id"] == Text(id)
    ensures fields != [] ==> op.document.Keys == (set k | k in fields)
    ensures fields != [] ==> forall k :: k in op.document ==> op.document[k] == DictGet(r, attached, k)
  {
    if fields == [] then MongoUpdateOne(id, Dump(id, r), true)
    else MongoUpdateOne(id, map k | k in fields :: DictGet(r, attached, k), false)
  }
}
