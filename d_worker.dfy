/** The work item and the scheduler, as objects whose fields their methods
    update in place: `Worker` carries out the steps that `WorkerSteps`
    specifies, writing each status through `Update` to the job store, and
    `Workers` keeps the path-lock set and the intake loop. */
module DWorker {
  import opened Common
  import opened Records
  import opened Remote
  import opened JobStore
  import opened WorkerSteps

  /** After `update` the completion time is stamped when the status is terminal. */
  function Stamp(r: WorkerRecord, now: Time): WorkerRecord
  {
    if r.status.Terminal() then r.(doneAt := Some(now)) else r
  }

  /** Writing only the status, through `__dict__`, changes only the status. */
  lemma OverwriteStatus(r: WorkerRecord, s: WorkerStatus)
    ensures Overwrite(r, map["status" := StatusValue(s)]) == r.(status := s)
    ensures Overwrite(r, map[]) == r
  {
  }

  /** Storing twice under one key keeps only the second value. */
  lemma UpsertTwice<K, V>(m: map<K, V>, k: K, a: V, b: V)
    ensures m[k := a][k := b] == m[k := b]
  {
  }

  /** Storing under a key and then removing it leaves the rest as it was. */
  lemma UpsertThenRemove<K, V>(m: map<K, V>, k: K, v: V)
    ensures m[k := v] - {k} == m - {k}
  {
  }

  class Worker {
    /** The hash the id is taken with. */
    const sha1: string -> string
    var owner: string
    var createdAt: Time
    var doneAt: Option<Time>
    var kind: WorkerType
    var needBackup: bool
    var backupDir: Option<Path>
    var sourcePath: Option<Path>
    var targetPath: Path
    var status: WorkerStatus
    var errorInfo: Option<Fault>
    /** The scheduler that accepted the item; private and never dumped. */
    var workers: Workers?
    /** Every status written through `Update`, oldest first. */
    ghost var trail: seq<WorkerStatus>

    constructor (sha1: string -> string, r: WorkerRecord)
      ensures this.sha1 == sha1 && Record() == r && workers == null && trail == []
    {
      this.sha1 := sha1;
      owner := r.owner;
      createdAt := r.createdAt;
      doneAt := r.doneAt;
      kind := r.kind;
      needBackup := r.needBackup;
      backupDir := r.backupDir;
      sourcePath := r.sourcePath;
      targetPath := r.targetPath;
      status := r.status;
      errorInfo := r.errorInfo;
      workers := null;
      trail := [];
    }

    /** The data attributes as one value. */
    function Record(): WorkerRecord
      reads this
    {
      WorkerRecord(owner, createdAt, doneAt, kind, needBackup, backupDir, sourcePath, targetPath, status, errorInfo)
    }

    /** The computed id, the job store's key. */
    function Id(): string
      reads this
    {
      Fingerprint(sha1, Record())
    }

    /** The first eight characters of the id, for log lines. */
    function ShortId(): (s: string)
      reads this
      ensures s <= Id() && |s| == if |Id()| < 8 then |Id()| else 8
    {
      if |Id()| < 8 then Id() else Id()[..8]
    }

    /** The paths the item claims in the scheduler's lock set. */
    function Claims(): Claim
      reads this
    {
      Claim(sourcePath, targetPath)
    }

    method Assign(r: WorkerRecord)
      modifies this
      ensures Record() == r && workers == old(workers) && trail == old(trail)
    {
      owner, createdAt, doneAt, kind, needBackup := r.owner, r.createdAt, r.doneAt, r.kind, r.needBackup;
      backupDir, sourcePath, targetPath, status, errorInfo := r.backupDir, r.sourcePath, r.targetPath, r.status, r.errorInfo;
    }

    /** `update(**fields)`: a name that is not an attribute raises `KeyError`
        and changes nothing; otherwise the fields are written, and then a
        terminal item is stamped, logged and removed from the store while
        any other is stored again under its id. */
    method Update(fields: map<string, Value>, now: Time, store: ShelveHandle) returns (out: Outcome<Fault>)
      requires forall k :: k in fields ==> Fits(k, fields[k])
      modifies this, store
      ensures out == Pass <==> fields.Keys <= AttributeNames
      ensures out.Fail? ==> out == Fail(KeyError) && Record() == old(Record()) && trail == old(trail)
      ensures out.Fail? ==> store.workers == old(store.workers) && store.logs == old(store.logs)
      ensures out == Pass ==> Record() == Stamp(Overwrite(old(Record()), fields), now)
      ensures out == Pass ==> trail == old(trail) + if "status" in fields then [status] else []
      ensures out == Pass && status.Terminal() ==>
        store.logs == old(store.logs) + [Record()] && store.workers == old(store.workers) - {Id()}
      ensures out == Pass && !status.Terminal() ==>
        store.workers == old(store.workers)[Id() := Record()] && store.logs == old(store.logs)
      ensures old(store.NoTerminal()) ==> store.NoTerminal()
      ensures store.items == old(store.items) && workers == old(workers)
    {
      if fields != map[] && !(fields.Keys <= AttributeNames) {
        return Fail(KeyError);
      }
      var written := Overwrite(Record(), fields);
      if "status" in fields {
        trail := trail + [written.status];
      }
      Assign(Stamp(written, now));
      if status.Terminal() {
        store.CreateLog(Record());
        store.DeleteWorker(Id());
      } else {
        store.UpdateWorker(Id(), Record(), fields.Keys);
      }
      out := Pass;
    }

    /** `update(status=s)`. */
    method WriteStatus(s: WorkerStatus, now: Time, store: ShelveHandle)
      modifies this, store
      ensures !s.Terminal() ==> Record() == old(Record()).(status := s)
      ensures s.Terminal() ==> Record() == old(Record()).(status := s, doneAt := Some(now))
      ensures trail == old(trail) + [s]
      ensures Id() == old(Id())
      ensures s.Terminal() ==>
        store.logs == old(store.logs) + [Record()] && store.workers == old(store.workers) - {Id()}
      ensures !s.Terminal() ==>
        store.workers == old(store.workers)[Id() := Record()] && store.logs == old(store.logs)
      ensures store.items == old(store.items) && workers == old(workers)
    {
      OverwriteStatus(Record(), s);
      var out := Update(map["status" := StatusValue(s)], now, store);
    }

    /** `update()` with no fields: the record is stored again, or, once
        terminal, stamped, logged and removed. */
    method Touch(now: Time, store: ShelveHandle)
      modifies this, store
      ensures Record() == Stamp(old(Record()), now) && trail == old(trail) && Id() == old(Id())
      ensures status.Terminal() ==>
        store.logs == old(store.logs) + [Record()] && store.workers == old(store.workers) - {Id()}
      ensures !status.Terminal() ==>
        store.workers == old(store.workers)[Id() := Record()] && store.logs == old(store.logs)
      ensures store.items == old(store.items) && workers == old(workers)
    {
      OverwriteStatus(Record(), Init);
      var ignored := Update(map[], now, store);
    }

    /** A status write in the middle of a run: the store keeps holding the
        item's current record under its id, next to the records `rest`. */
    method Note(s: WorkerStatus, now: Time, store: ShelveHandle, ghost rest: map<string, WorkerRecord>)
      requires !s.Terminal() && store.workers == rest[Id() := Record()]
      modifies this, store
      ensures Record() == old(Record()).(status := s) && trail == old(trail) + [s]
      ensures Id() == old(Id()) && store.workers == rest[Id() := Record()]
      ensures store.logs == old(store.logs) && store.items == old(store.items) && workers == old(workers)
    {
      ghost var prior := Record();
      WriteStatus(s, now, store);
      UpsertTwice(rest, Id(), prior, Record());
    }

    /** `backup()`, with the effect `BackupStep` gives. */
    method Backup(now: Time, store: ShelveHandle, fs: RemoteFs, ghost rest: map<string, WorkerRecord>) returns (out: Outcome<Fault>)
      requires !status.Terminal()
      requires store.workers == rest[Id() := Record()]
      modifies this, store, fs
      ensures var st := BackupStep(sha1, old(Record()), old(fs.files), now);
        && out == st.outcome && fs.files == st.files
        && Record() == Advance(old(Record()), st.writes) && trail == old(trail) + st.writes
        && store.workers == rest[Id() := Record()]
      ensures Id() == old(Id()) && store.logs == old(store.logs)
      ensures store.items == old(store.items) && workers == old(workers)
    {
      if backupDir.None? {
        out := Fail(NoBackupDir);
      } else if targetPath !in fs.files {
        out := Fail(NotFound(targetPath));
      } else {
        out := MoveToHistory(now, store, fs, rest);
      }
    }

    /** The backup of a present target into a set backup directory. */
    method MoveToHistory(now: Time, store: ShelveHandle, fs: RemoteFs, ghost rest: map<string, WorkerRecord>) returns (out: Outcome<Fault>)
      requires !status.Terminal() && backupDir.Some? && targetPath in fs.files
      requires store.workers == rest[Id() := Record()]
      modifies this, store, fs
      ensures var st := BackupStep(sha1, old(Record()), old(fs.files), now);
        && out == st.outcome && fs.files == st.files
        && Record() == Advance(old(Record()), st.writes) && trail == old(trail) + st.writes
        && store.workers == rest[Id() := Record()]
      ensures Id() == old(Id()) && store.logs == old(store.logs)
      ensures store.items == old(store.items) && workers == old(workers)
    {
      ghost var st := BackupStep(sha1, Record(), fs.files, now);
      var moved := fs.files[targetPath];
      var hist := HistoryPath(sha1, backupDir.value, targetPath, moved.stat.modified);
      var side := SidecarPath(sha1, backupDir.value, targetPath, moved.stat.modified);
      var info := StatJson(moved.stat);
      Note(BackingUp, now, store, rest);
      if hist in fs.files || side in fs.files {
        assert st == Step(fs.files, [BackingUp], Fail(BackupConflict));
        return Fail(BackupConflict);
      }
      // rename the target to the history file, then write the sidecar
      fs.files := (fs.files - {targetPath})[hist := moved];
      fs.files := fs.files[side := File(Stat(|info|, now), Some(info))];
      assert st == Step(fs.files, [BackingUp, BackedUp], Pass);
      Note(BackedUp, now, store, rest);
      out := Pass;
    }

    /** `copy_single_stream()`, with the effect `StreamStep` gives. */
    method CopySingleStream(env: RunEnv, store: ShelveHandle, fs: RemoteFs, ghost rest: map<string, WorkerRecord>) returns (out: Outcome<Fault>)
      requires !status.Terminal()
      requires store.workers == rest[Id() := Record()]
      modifies this, store, fs
      ensures var st := StreamStep(old(Record()), old(fs.files), env);
        && out == st.outcome && fs.files == st.files
        && Record() == Advance(old(Record()), st.writes) && trail == old(trail) + st.writes
        && store.workers == rest[Id() := Record()]
      ensures Id() == old(Id()) && store.logs == old(store.logs)
      ensures store.items == old(store.items) && workers == old(workers)
    {
      if sourcePath.None? {
        out := Fail(NoSourcePath);
      } else if sourcePath.value !in fs.files {
        out := Fail(NotFound(sourcePath.value));
      } else {
        out := Transfer(env, store, fs, rest);
      }
    }

    /** The download of a present source and the upload to the target. */
    method Transfer(env: RunEnv, store: ShelveHandle, fs: RemoteFs, ghost rest: map<string, WorkerRecord>) returns (out: Outcome<Fault>)
      requires !status.Terminal() && sourcePath.Some? && sourcePath.value in fs.files
      requires store.workers == rest[Id() := Record()]
      modifies this, store, fs
      ensures var st := StreamStep(old(Record()), old(fs.files), env);
        && out == st.outcome && fs.files == st.files
        && Record() == Advance(old(Record()), st.writes) && trail == old(trail) + st.writes
        && store.workers == rest[Id() := Record()]
      ensures Id() == old(Id()) && store.logs == old(store.logs)
      ensures store.items == old(store.items) && workers == old(workers)
    {
      var source := sourcePath.value;
      // the download into the local scratch file
      Note(Downloaded, env.now, store, rest);
      if env.uploadCode != 200 {
        return Fail(UploadRejected(env.uploadCode));
      }
      fs.files := fs.files[targetPath := fs.files[source]];
      Note(Uploaded, env.now, store, rest);
      out := Pass;
    }

    /** `copy_type()`, with the effect `CopyStep` gives. */
    method CopyType(env: RunEnv, store: ShelveHandle, fs: RemoteFs, ghost rest: map<string, WorkerRecord>) returns (out: Outcome<Fault>)
      requires !status.Terminal()
      requires store.workers == rest[Id() := Record()]
      modifies this, store, fs
      ensures var st := CopyStep(old(Record()), old(fs.files), env);
        && out == st.outcome && fs.files == st.files
        && Record() == Advance(old(Record()), st.writes) && trail == old(trail) + st.writes
        && store.workers == rest[Id() := Record()]
      ensures Id() == old(Id()) && store.logs == old(store.logs)
      ensures store.items == old(store.items) && workers == old(workers)
    {
      // the target is unlinked first; its parent directory is not modelled
      fs.files := fs.files - {targetPath};
      out := CopySingleStream(env, store, fs, rest);
      if out.Fail? {
        return;
      }
      var size := fs.files[sourcePath.value].stat.size;
      var seen := env.probe(targetPath, 5);
      if seen.None? {
        return Fail(NotFound(targetPath));
      }
      if seen.value.size != size {
        return Fail(SizeMismatch);
      }
      Note(Copied, env.now, store, rest);
      out := Pass;
    }

    /** `delete_type()`, with the effect `DeleteStep` gives. */
    method DeleteType(now: Time, store: ShelveHandle, fs: RemoteFs, ghost rest: map<string, WorkerRecord>) returns (out: Outcome<Fault>)
      requires !status.Terminal()
      requires store.workers == rest[Id() := Record()]
      modifies this, store, fs
      ensures var st := DeleteStep(old(Record()), old(fs.files));
        && out == st.outcome && fs.files == st.files
        && Record() == Advance(old(Record()), st.writes) && trail == old(trail) + st.writes
        && store.workers == rest[Id() := Record()]
      ensures Id() == old(Id()) && store.logs == old(store.logs)
      ensures store.items == old(store.items) && workers == old(workers)
    {
      fs.files := fs.files - {targetPath};
      Note(Deleted, now, store, rest);
      out := Pass;
    }

    /** The backup as `run()` gates it: only when asked for and still `init`. */
    method BackupIfDue(now: Time, store: ShelveHandle, fs: RemoteFs, ghost rest: map<string, WorkerRecord>) returns (out: Outcome<Fault>)
      requires !status.Terminal()
      requires store.workers == rest[Id() := Record()]
      modifies this, store, fs
      ensures var st := BackupPhase(sha1, old(Record()), old(fs.files), now);
        && out == st.outcome && fs.files == st.files
        && Record() == Advance(old(Record()), st.writes) && trail == old(trail) + st.writes
        && store.workers == rest[Id() := Record()]
      ensures !status.Terminal()
      ensures Id() == old(Id()) && store.logs == old(store.logs)
      ensures store.items == old(store.items) && workers == old(workers)
    {
      out := Pass;
      if needBackup && status == Init {
        out := Backup(now, store, fs, rest);
      }
    }

    /** The type-specific action as `run()` gates it: skipped once `prior`
        (the backup) has raised, and otherwise only run when `init` or
        `back-upped`. */
    method ActIfDue(prior: Outcome<Fault>, env: RunEnv, store: ShelveHandle, fs: RemoteFs, ghost rest: map<string, WorkerRecord>) returns (out: Outcome<Fault>)
      requires !status.Terminal()
      requires store.workers == rest[Id() := Record()]
      modifies this, store, fs
      ensures var st := Gated(prior, old(Record()), old(fs.files), env);
        && out == st.outcome && fs.files == st.files
        && Record() == Advance(old(Record()), st.writes) && trail == old(trail) + st.writes
        && store.workers == rest[Id() := Record()]
      ensures !status.Terminal()
      ensures Id() == old(Id()) && store.logs == old(store.logs)
      ensures store.items == old(store.items) && workers == old(workers)
    {
      out := prior;
      if prior.Pass? && (status == Init || status == BackedUp) {
        if kind == Copy {
          out := CopyType(env, store, fs, rest);
        } else {
          out := DeleteType(env.now, store, fs, rest);
        }
      }
    }

    /** The end of `run()`: the recheck when the try block `c` passed, then
        the final status, with the fault stored when there is one. */
    method Settle(ghost c: Step, out0: Outcome<Fault>, env: RunEnv, store: ShelveHandle, fs: RemoteFs,
                  ghost rest: map<string, WorkerRecord>)
      requires !status.Terminal() && c.outcome == out0 && c.files == fs.files
      requires store.workers == rest[Id() := Record()]
      modifies this, store
      ensures var rr := Finish(old(Record()), Step(c.files, [], Conclude(old(Record()), c, env)), env.now);
        Record() == rr.record && trail == old(trail) + [rr.record.status]
      ensures Id() == old(Id())
      ensures store.logs == old(store.logs) + [Record()]
      ensures store.workers == rest - {Id()}
      ensures store.items == old(store.items) && workers == old(workers)
    {
      var out := out0;
      if out.Pass? {
        out := Verdict(Recheck(Record(), env.probe, fs.files));
      }
      if out.Fail? {
        errorInfo := Some(out.error);
        WriteStatus(Failed, env.now, store);
      } else {
        WriteStatus(Done, env.now, store);
      }
      UpsertThenRemove(rest, Id(), old(Record()));
    }

    /** The try block of `run()` up to the recheck: the backup when due, then
        the action when due, skipped once the backup has failed. */
    method Attempt(env: RunEnv, store: ShelveHandle, fs: RemoteFs, ghost rest: map<string, WorkerRecord>) returns (out: Outcome<Fault>)
      requires !status.Terminal()
      requires store.workers == rest[Id() := Record()]
      modifies this, store, fs
      ensures var b := BackupPhase(sha1, old(Record()), old(fs.files), env.now);
        var c := ActPhase(old(Record()), b, env);
        && out == c.outcome && fs.files == c.files
        && Record() == Advance(Advance(old(Record()), b.writes), c.writes)
        && trail == old(trail) + (b.writes + c.writes)
        && store.workers == rest[Id() := Record()]
      ensures !status.Terminal()
      ensures Id() == old(Id()) && store.logs == old(store.logs)
      ensures store.items == old(store.items) && workers == old(workers)
    {
      ghost var r0 := Record();
      ghost var b := BackupPhase(sha1, r0, fs.files, env.now);
      out := BackupIfDue(env.now, store, fs, rest);
      assert ActPhase(r0, b, env) == Gated(out, Record(), fs.files, env);
      out := ActIfDue(out, env, store, fs, rest);
    }

    /** `run()` on an item that is not finished: the try block, the
        recheck and the final status, as `RunSpec` gives them. */
    method Resume(env: RunEnv, store: ShelveHandle, fs: RemoteFs, ghost rest: map<string, WorkerRecord>)
      requires !status.Terminal()
      requires store.workers == rest[Id() := Record()]
      modifies this, store, fs
      ensures var rs := RunSpec(sha1, old(Record()), old(fs.files), env);
        Record() == rs.record && fs.files == rs.files && trail == old(trail) + rs.writes
      ensures Id() == old(Id())
      ensures store.logs == old(store.logs) + [Record()]
      ensures store.workers == rest - {Id()}
      ensures store.items == old(store.items) && workers == old(workers)
    {
      ghost var r0 := Record();
      ghost var b := BackupPhase(sha1, r0, fs.files, env.now);
      ghost var c := ActPhase(r0, b, env);
      var out := Attempt(env, store, fs, rest);
      ghost var r2 := Record();
      Settle(c, out, env, store, fs, rest);
      assert RunSpec(sha1, r0, old(fs.files), env)
        == Finish(r2, Step(c.files, b.writes + c.writes, Conclude(r2, c, env)), env.now);
    }

    /** `run()`: its effect on the item, the tree and the statuses written is
        `RunSpec`'s; in the store the item ends logged once more and removed. */
    method Run(env: RunEnv, store: ShelveHandle, fs: RemoteFs)
      modifies this, store, fs
      ensures var rs := RunSpec(sha1, old(Record()), old(fs.files), env);
        Record() == rs.record && fs.files == rs.files && trail == old(trail) + rs.writes
      ensures Id() == old(Id())
      ensures store.logs == old(store.logs) + [Record()]
      ensures store.workers == old(store.workers) - {Id()}
      ensures old(store.NoTerminal()) ==> store.NoTerminal()
      ensures store.items == old(store.items) && workers == old(workers)
    {
      Touch(env.now, store);
      if !status.Terminal() {
        Resume(env, store, fs, old(store.workers));
      }
    }
  }

  // ------------------------------------------------------------ path locks

  /** The paths an item claims: its source, which is `None` for a delete and
      is claimed all the same, and its target. */
  datatype Claim = Claim(source: Option<Path>, target: Path)
  {
    function Paths(): set<Option<Path>> { {source, Some(target)} }
  }

  /** `add_worker` admits an item when neither of its paths is locked. */
  predicate Admits(locks: set<Option<Path>>, c: Claim)
  {
    c.source !in locks && Some(c.target) !in locks
  }

  /** `release_lock(*items)`: removes each item in turn and raises `KeyError`
      at the first that is not locked, keeping the removals before it. */
  function Released(locks: set<Option<Path>>, items: seq<Option<Path>>): (res: (set<Option<Path>>, Outcome<Fault>))
    ensures res.0 <= locks
  {
    if items == [] then (locks, Pass)
    else if items[0] !in locks then (locks, Fail(KeyError))
    else Released(locks - {items[0]}, items[1..])
  }

  /** A release succeeds exactly when the items are distinct and all locked,
      and then removes exactly them. */
  lemma {:induction false} ReleaseSucceedsIff(locks: set<Option<Path>>, items: seq<Option<Path>>)
    ensures Released(locks, items).1 == Pass <==>
      (forall i :: 0 <= i < |items| ==> items[i] in locks) && (forall i, j :: 0 <= i < j < |items| ==> items[i] != items[j])
    ensures Released(locks, items).1 == Pass ==> Released(locks, items).0 == locks - set i | 0 <= i < |items| :: items[i]
  {
    if items != [] {
      var rest := items[1..];
      ReleaseSucceedsIff(locks - {items[0]}, rest);
      assert forall i :: 1 <= i < |items| ==> items[i] == rest[i - 1];
      if items[0] in locks && Released(locks, items).1 == Pass {
        assert (set i | 0 <= i < |items| :: items[i]) == {items[0]} + set i | 0 <= i < |rest| :: rest[i];
      }
    }
  }

  /** Releasing what an admitted item locked gives back the lock set as it
      was before, when its two paths differ. */
  lemma AdmitThenRelease(locks: set<Option<Path>>, c: Claim)
    requires Admits(locks, c) && c.source != Some(c.target)
    ensures Released(locks + c.Paths(), [c.source, Some(c.target)]) == (locks, Pass)
  {
    var held := locks + c.Paths();
    assert [c.source, Some(c.target)][1..] == [Some(c.target)];
    assert Released(held, [c.source, Some(c.target)]) == Released(held - {c.source}, [Some(c.target)]);
    assert [Some(c.target)][1..] == [];
    assert Released(held - {c.source}, [Some(c.target)]) == Released(held - {c.source} - {Some(c.target)}, []);
    assert held - {c.source} - {Some(c.target)} == locks;
  }

  /** Once an item holds its paths no other item sharing either path is
      admitted, and a delete item (whose source is `None`) keeps out every
      other delete item. */
  lemma LockExcludes(locks: set<Option<Path>>, held: Claim, c: Claim)
    requires Admits(locks + held.Paths(), c)
    ensures c.Paths() !! held.Paths()
    ensures held.source.None? ==> c.source.Some?
  {
  }

  /** What the intake does with a sequence of claims: the lock set after it,
      and the claims admitted, in order. */
  function Intake(locks: set<Option<Path>>, cs: seq<Claim>): (res: (set<Option<Path>>, seq<Claim>))
    ensures locks <= res.0 && |res.1| <= |cs|
  {
    if cs == [] then (locks, [])
    else
      var before := Intake(locks, cs[..|cs| - 1]);
      var c := cs[|cs| - 1];
      if Admits(before.0, c) then (before.0 + c.Paths(), before.1 + [c]) else before
  }

  /** The admitted claims are disjoint from the paths locked before, held
      afterwards, and pairwise disjoint. */
  ghost predicate Exclusive(locks: set<Option<Path>>, after: set<Option<Path>>, admitted: seq<Claim>)
  {
    && (forall i :: 0 <= i < |admitted| ==> admitted[i].Paths() !! locks && admitted[i].Paths() <= after)
    && (forall i, j :: 0 <= i < j < |admitted| ==> admitted[i].Paths() !! admitted[j].Paths())
  }

  /** At most one admitted item per path: the claims the intake admits are
      pairwise disjoint, disjoint from what was locked before, and locked
      afterwards. */
  lemma {:induction false} IntakeExcludes(locks: set<Option<Path>>, cs: seq<Claim>)
    ensures Exclusive(locks, Intake(locks, cs).0, Intake(locks, cs).1)
  {
    if cs != [] {
      var before := Intake(locks, cs[..|cs| - 1]);
      IntakeExcludes(locks, cs[..|cs| - 1]);
      var c := cs[|cs| - 1];
      if Admits(before.0, c) {
        var after := before.0 + c.Paths();
        var admitted := before.1 + [c];
        assert Intake(locks, cs) == (after, admitted);
        forall i | 0 <= i < |admitted|
          ensures admitted[i].Paths() !! locks && admitted[i].Paths() <= after
        {
          if i < |before.1| {
            assert admitted[i] == before.1[i];
          } else {
            assert admitted[i] == c;
          }
        }
        forall i, j | 0 <= i < j < |admitted|
          ensures admitted[i].Paths() !! admitted[j].Paths()
        {
          assert admitted[i] == before.1[i];
          if j < |before.1| {
            assert admitted[j] == before.1[j];
          } else {
            assert admitted[j] == c;
            assert before.1[i].Paths() <= before.0;
          }
        }
      }
    }
  }

  /** The intake loop stops only when the queue is empty, the engine is not
      a daemon, no scanner thread is alive, and more than the idle timeout
      has passed since start. */
  predicate ShouldExit(queueEmpty: bool, daemon: bool, checkerAlive: bool, now: Time, start: Time, timeout: int)
  {
    queueEmpty && !daemon && !checkerAlive && now - start > timeout
  }

  /** The intake settings. */
  datatype IntakeConfig = IntakeConfig(daemon: bool, startTime: Time, timeout: int)

  /** What one pass of the intake loop observes: the clock and whether a
      scanner thread is still alive. */
  datatype Tick = Tick(now: Time, checkerAlive: bool)

  function ClaimsOf(q: seq<Worker>): (cs: seq<Claim>)
    reads set w | w in q
    ensures |cs| == |q| && forall i :: 0 <= i < |q| ==> cs[i] == q[i].Claims()
  {
    if q == [] then [] else ClaimsOf(q[..|q| - 1]) + [q[|q| - 1].Claims()]
  }

  /** How many queued items are taken in the first `n` passes: one per pass. */
  function Taken(n: nat, queued: nat): nat
  {
    if n < queued then n else queued
  }

  class Workers {
    const config: IntakeConfig
    /** Paths held by accepted items (`None` for delete items' sources). */
    var lockers: set<Option<Path>>
    /** The items handed to the thread pool, in order. */
    var pool: seq<Worker>
    /** The claims of the items in `pool`, as they were when accepted. */
    ghost var held: seq<Claim>
    var shutDown: bool

    constructor (config: IntakeConfig)
      ensures this.config == config && lockers == {} && pool == [] && held == [] && !shutDown
    {
      this.config := config;
      lockers := {};
      pool := [];
      held := [];
      shutDown := false;
    }

    /** `release_lock(*items)`. */
    method ReleaseLock(items: seq<Option<Path>>) returns (out: Outcome<Fault>)
      modifies this
      ensures (lockers, out) == Released(old(lockers), items)
      ensures pool == old(pool) && held == old(held) && shutDown == old(shutDown)
    {
      var i := 0;
      while i < |items|
        invariant 0 <= i <= |items|
        invariant Released(lockers, items[i..]) == Released(old(lockers), items)
        invariant pool == old(pool) && held == old(held) && shutDown == old(shutDown)
      {
        assert items[i..][1..] == items[i + 1..];
        if items[i] !in lockers {
          return Fail(KeyError);
        }
        lockers := lockers - {items[i]};
        i := i + 1;
      }
      out := Pass;
    }

    /** `add_worker(worker, is_loader)`: unless loading, an item with a
        locked path is dropped; otherwise both its paths are locked, it is
        attached to this scheduler and handed to the pool. */
    method AddWorker(w: Worker, isLoader: bool) returns (accepted: bool)
      modifies this, w
      ensures accepted <==> isLoader || Admits(old(lockers), w.Claims())
      ensures accepted ==> lockers == old(lockers) + w.Claims().Paths() && w.workers == this
      ensures accepted ==> pool == old(pool) + [w] && held == old(held) + [w.Claims()]
      ensures !accepted ==> lockers == old(lockers) && pool == old(pool) && held == old(held) && w.workers == old(w.workers)
      ensures w.Record() == old(w.Record()) && w.Claims() == old(w.Claims()) && w.trail == old(w.trail)
      ensures shutDown == old(shutDown)
    {
      if !isLoader && (w.sourcePath in lockers || Some(w.targetPath) in lockers) {
        return false;
      }
      lockers := lockers + {w.sourcePath};
      lockers := lockers + {Some(w.targetPath)};
      w.workers := this;
      pool := pool + [w];
      held := held + [w.Claims()];
      accepted := true;
    }

    /** One pass's intake: the next queued item is offered to `AddWorker`,
        which extends the locks and the admitted claims as `Intake` does. */
    method TakeNext(queue: seq<Worker>, taken: nat, ghost cs: seq<Claim>, ghost lockers0: set<Option<Path>>, ghost held0: seq<Claim>)
      requires taken < |queue| == |cs|
      requires forall k :: 0 <= k < |queue| ==> queue[k].Claims() == cs[k]
      requires lockers == Intake(lockers0, cs[..taken]).0 && held == held0 + Intake(lockers0, cs[..taken]).1
      modifies this, queue[taken]
      ensures forall k :: 0 <= k < |queue| ==> queue[k].Claims() == cs[k]
      ensures lockers == Intake(lockers0, cs[..taken + 1]).0 && held == held0 + Intake(lockers0, cs[..taken + 1]).1
      ensures |old(pool)| <= |pool| && |pool| - |old(pool)| == |held| - |old(held)| && pool[..|old(pool)|] == old(pool)
      ensures shutDown == old(shutDown)
    {
      ghost var before := Intake(lockers0, cs[..taken]);
      var accepted := AddWorker(queue[taken], false);
      assert cs[..taken + 1][..taken] == cs[..taken];
      assert Intake(lockers0, cs[..taken + 1]) == if accepted then (before.0 + cs[taken].Paths(), before.1 + [cs[taken]]) else before;
    }

    /** `run(queue)`, over the passes `ticks` observes: each pass first tests
        the exit condition, then takes one queued item if there is one and
        offers it to `AddWorker`. */
    method Run(queue: seq<Worker>, ticks: seq<Tick>) returns (exited: bool, exitAt: nat, taken: nat)
      modifies this, set w | w in queue
      ensures taken <= |queue|
      ensures exited ==> exitAt < |ticks| && taken == |queue| && shutDown
      ensures exited ==> ShouldExit(true, config.daemon, ticks[exitAt].checkerAlive, ticks[exitAt].now, config.startTime, config.timeout)
      ensures forall j :: 0 <= j < (if exited then exitAt else |ticks|) ==>
        !ShouldExit(Taken(j, |queue|) == |queue|, config.daemon, ticks[j].checkerAlive, ticks[j].now, config.startTime, config.timeout)
      ensures config.daemon ==> !exited
      ensures !exited ==> taken == Taken(|ticks|, |queue|) && shutDown == old(shutDown)
      ensures var (locks, admitted) := Intake(old(lockers), old(ClaimsOf(queue))[..taken]);
        lockers == locks && held == old(held) + admitted
      ensures |pool| - |old(pool)| == |held| - |old(held)| && pool[..|old(pool)|] == old(pool)
    {
      ghost var cs := ClaimsOf(queue);
      ghost var held0 := held;
      ghost var lockers0 := lockers;
      exited, exitAt, taken := false, 0, 0;
      var i := 0;
      while i < |ticks|
        invariant 0 <= i <= |ticks| && taken == Taken(i, |queue|)
        invariant forall k :: 0 <= k < |queue| ==> queue[k].Claims() == cs[k]
        invariant forall j :: 0 <= j < i ==>
          !ShouldExit(Taken(j, |queue|) == |queue|, config.daemon, ticks[j].checkerAlive, ticks[j].now, config.startTime, config.timeout)
        invariant shutDown == old(shutDown)
        invariant lockers == Intake(lockers0, cs[..taken]).0 && held == held0 + Intake(lockers0, cs[..taken]).1
        invariant |pool| - |old(pool)| == |held| - |held0| && pool[..|old(pool)|] == old(pool)
      {
        if ShouldExit(taken == |queue|, config.daemon, ticks[i].checkerAlive, ticks[i].now, config.startTime, config.timeout) {
          shutDown := true;
          exited, exitAt := true, i;
          return;
        }
        if taken < |queue| {
          TakeNext(queue, taken, cs, lockers0, held0);
          taken := taken + 1;
        }
        i := i + 1;
      }
    }
  }
}
