/** What each step of a work item does to the remote tree and which statuses
    it writes, as pure functions of the item's record and the tree before it:
    the backup, the copy and delete actions, the post-condition recheck, and
    `RunSpec`, the whole `run()`. The `Worker` class performs these steps in
    place and is proved to have exactly these effects; the properties of a
    run are proved here, about the functions. */
module WorkerSteps {
  import opened Common
  import opened Records
  import opened Remote

  type Files = map<Path, File>

  /** The effect of one step: the tree after it, the statuses it wrote in
      order, and whether it completed or raised. */
  datatype Step = Step(files: Files, writes: seq<WorkerStatus>, outcome: Outcome<Fault>)

  /** What a run observes from outside: the clock, the code the upload
      answers, and what each retrying stat reports. */
  datatype RunEnv = RunEnv(now: Time, uploadCode: int, probe: Probe)

  /** The remote tree is left as it was everywhere except possibly at `p`. */
  ghost predicate OnlyTouches(before: Files, after: Files, p: Path)
  {
    forall q :: q != p ==> (q in after <==> q in before) && (q in before ==> after[q] == before[q])
  }

  // ---------------------------------------------------------------- backup

  /** The backup file's name: the hash of the target's text, an underscore,
      the target's modification time in whole seconds, and `.history`. */
  function BackupName(sha1: string -> string, target: Path, modified: Time): string
  {
    sha1(Posix(target)) + "_" + Decimal(modified) + ".history"
  }

  /** The JSON text of a stat, written to the sidecar. */
  function StatJson(s: Stat): string
  {
    "{\"size\":" + Decimal(s.size) + ",\"modified\":" + Decimal(s.modified) + "}"
  }

  function HistoryPath(sha1: string -> string, dir: Path, target: Path, modified: Time): Path
  {
    dir + [BackupName(sha1, target, modified)]
  }

  function SidecarPath(sha1: string -> string, dir: Path, target: Path, modified: Time): Path
  {
    dir + [BackupName(sha1, target, modified) + ".json"]
  }

  /** The sidecar: the JSON of the old stat, stamped with the time it is written. */
  function Sidecar(prior: Stat, now: Time): File
  {
    File(Stat(|StatJson(prior)|, now), Some(StatJson(prior)))
  }

  /** A backup can go ahead: there is a backup directory, the target exists,
      and neither the history file nor its sidecar does. */
  ghost predicate BackupFree(sha1: string -> string, r: WorkerRecord, files: Files)
  {
    && r.backupDir.Some?
    && r.targetPath in files
    && var m := files[r.targetPath].stat.modified;
       HistoryPath(sha1, r.backupDir.value, r.targetPath, m) !in files
       && SidecarPath(sha1, r.backupDir.value, r.targetPath, m) !in files
  }

  /** `backup()`: raises without a backup directory or without a target;
      writes `back-upping`, then raises on a name collision; otherwise moves
      the target to the history file, writes the sidecar and `back-upped`. */
  function BackupStep(sha1: string -> string, r: WorkerRecord, files: Files, now: Time): (st: Step)
    ensures st.outcome == Pass <==> BackupFree(sha1, r, files)
    ensures r.backupDir.None? ==> st.outcome == Fail(NoBackupDir) && st.writes == []
    ensures r.backupDir.Some? && r.targetPath !in files ==> st.outcome == Fail(NotFound(r.targetPath)) && st.writes == []
    ensures st.outcome.Fail? ==> st.files == files
    ensures st.outcome == Pass ==> st.writes == [BackingUp, BackedUp]
    ensures st.outcome.Fail? ==> st.writes == [] || st.writes == [BackingUp]
    ensures st.outcome == Pass ==>
      var moved := files[r.targetPath];
      var m := moved.stat.modified;
      var hist := HistoryPath(sha1, r.backupDir.value, r.targetPath, m);
      var side := SidecarPath(sha1, r.backupDir.value, r.targetPath, m);
      && r.targetPath !in st.files
      && hist in st.files && st.files[hist] == moved
      && side in st.files && st.files[side] == Sidecar(moved.stat, now)
      && forall q :: q != r.targetPath && q != hist && q != side ==>
           (q in st.files <==> q in files) && (q in files ==> st.files[q] == files[q])
    // an existing file other than the target is never overwritten or removed
    ensures forall q :: q in files && q != r.targetPath ==> q in st.files && st.files[q] == files[q]
  {
    if r.backupDir.None? then Step(files, [], Fail(NoBackupDir))
    else if r.targetPath !in files then Step(files, [], Fail(NotFound(r.targetPath)))
    else
      var moved := files[r.targetPath];
      var hist := HistoryPath(sha1, r.backupDir.value, r.targetPath, moved.stat.modified);
      var side := SidecarPath(sha1, r.backupDir.value, r.targetPath, moved.stat.modified);
      if hist in files || side in files then Step(files, [BackingUp], Fail(BackupConflict))
      else
        assert hist != side by { assert |hist[|hist| - 1]| < |side[|side| - 1]|; }
        Step((files - {r.targetPath})[hist := moved][side := Sidecar(moved.stat, now)], [BackingUp, BackedUp], Pass)
  }

  // ----------------------------------------------------------- copy, delete

  /** `copy_single_stream()`: downloads the source (raising without a
      source path or when the source is gone) and writes `downloaded`; the
      upload must answer 200, after which the target holds the source's file
      and `uploaded` is written. */
  function StreamStep(r: WorkerRecord, files: Files, env: RunEnv): (st: Step)
    ensures OnlyTouches(files, st.files, r.targetPath)
    ensures st.outcome == Pass <==> r.sourcePath.Some? && r.sourcePath.value in files && env.uploadCode == 200
    ensures r.sourcePath.Some? && r.sourcePath.value in files && env.uploadCode != 200 ==>
      st.writes == [Downloaded] && st.outcome == Fail(UploadRejected(env.uploadCode))
    ensures st.outcome == Pass ==>
      && st.writes == [Downloaded, Uploaded]
      && r.sourcePath.Some? && r.sourcePath.value in files
      && r.targetPath in st.files && st.files[r.targetPath] == files[r.sourcePath.value]
    ensures st.outcome.Fail? ==> st.files == files && (st.writes == [] || st.writes == [Downloaded])
  {
    if r.sourcePath.None? then Step(files, [], Fail(NoSourcePath))
    else
      var source := r.sourcePath.value;
      if source !in files then Step(files, [], Fail(NotFound(source)))
      else if env.uploadCode != 200 then Step(files, [Downloaded], Fail(UploadRejected(env.uploadCode)))
      else Step(files[r.targetPath := files[source]], [Downloaded, Uploaded], Pass)
  }

  /** `copy_type()`: removes the target, streams the source to it, then a
      retrying stat of the target must find it with the source's size, and
      `copied` is written. */
  function CopyStep(r: WorkerRecord, files: Files, env: RunEnv): (st: Step)
    ensures OnlyTouches(files, st.files, r.targetPath)
    ensures st.outcome == Pass ==> st.writes == [Downloaded, Uploaded, Copied]
    ensures st.outcome == Pass ==>
      && r.sourcePath.Some? && r.sourcePath.value in files && r.sourcePath.value != r.targetPath
      && r.targetPath in st.files && st.files[r.targetPath] == files[r.sourcePath.value]
    ensures r.sourcePath.None? ==> st == Step(files - {r.targetPath}, [], Fail(NoSourcePath))
    ensures env.uploadCode != 200 ==> st.outcome.Fail? && r.targetPath !in st.files
    ensures st.outcome.Fail? ==> st.writes in {[], [Downloaded], [Downloaded, Uploaded]}
  {
    var cleared := files - {r.targetPath};
    var streamed := StreamStep(r, cleared, env);
    if streamed.outcome.Fail? then streamed
    else
      var size := files[r.sourcePath.value].stat.size;
      match env.probe(r.targetPath, 5)
      case None => Step(streamed.files, streamed.writes, Fail(NotFound(r.targetPath)))
      case Some(seen) =>
        if seen.size != size then Step(streamed.files, streamed.writes, Fail(SizeMismatch))
        else Step(streamed.files, streamed.writes + [Copied], Pass)
  }

  /** `delete_type()`: removes the target if present, which always succeeds. */
  function DeleteStep(r: WorkerRecord, files: Files): (st: Step)
    ensures r.targetPath !in st.files && OnlyTouches(files, st.files, r.targetPath)
    ensures st.outcome == Pass && st.writes == [Deleted]
  {
    Step(files - {r.targetPath}, [Deleted], Pass)
  }

  // ---------------------------------------------------------------- recheck

  /** `recheck_copy(retry)`: a retrying stat of the target (`probe(target,
      retry)`), then a stat of the source; when either is not found, try again
      with one retry fewer, and give `false` when none are left. Reading the
      source's size on an item without a source path raises. */
  function RecheckCopy(probe: Probe, files: Files, target: Path, source: Option<Path>, retry: nat): Result<bool, Fault>
    decreases retry
  {
    if probe(target, retry).None? || (source.Some? && source.value !in files) then
      if retry > 0 then RecheckCopy(probe, files, target, source, retry - 1) else Ok(false)
    else if source.None? then Err(NoSourcePath)
    else Ok(probe(target, retry).value.size == files[source.value].stat.size)
  }

  /** The attempt with remaining retry count `k` is the first one, counting
      down from `retry`, to find the target. */
  ghost predicate FirstSighting(probe: Probe, target: Path, retry: nat, k: nat)
  {
    k <= retry && probe(target, k).Some? && forall j :: k < j <= retry ==> probe(target, j).None?
  }

  /** The recheck of a copy passes exactly when the source exists and the
      first attempt that finds the target sees the source's size. */
  lemma {:induction false} RecheckCopyPasses(probe: Probe, files: Files, target: Path, source: Option<Path>, retry: nat)
    ensures RecheckCopy(probe, files, target, source, retry) == Ok(true) <==>
      && source.Some? && source.value in files
      && exists k :: FirstSighting(probe, target, retry, k) && probe(target, k).value.size == files[source.value].stat.size
  {
    var res := RecheckCopy(probe, files, target, source, retry);
    if source.Some? && source.value in files {
      var want := files[source.value].stat.size;
      if probe(target, retry).Some? {
        assert FirstSighting(probe, target, retry, retry);
        if res == Ok(true) {
        } else {
          forall k | FirstSighting(probe, target, retry, k) ensures probe(target, k).value.size != want {
            assert k == retry;
          }
        }
      } else if retry > 0 {
        RecheckCopyPasses(probe, files, target, source, retry - 1);
        if res == Ok(true) {
          var k :| FirstSighting(probe, target, retry - 1, k) && probe(target, k).value.size == want;
          assert FirstSighting(probe, target, retry, k);
        } else {
          forall k | FirstSighting(probe, target, retry, k) ensures probe(target, k).value.size != want {
            assert FirstSighting(probe, target, retry - 1, k);
          }
        }
      } else {
        forall k | FirstSighting(probe, target, retry, k) ensures false {
        }
      }
    } else {
      RecheckCopyNeverWithoutSource(probe, files, target, source, retry);
    }
  }

  /** Without a source, or with a source that is gone, the recheck of a copy
      never passes. */
  lemma {:induction false} RecheckCopyNeverWithoutSource(probe: Probe, files: Files, target: Path, source: Option<Path>, retry: nat)
    requires source.None? || source.value !in files
    ensures RecheckCopy(probe, files, target, source, retry) != Ok(true)
    ensures source.Some? ==> RecheckCopy(probe, files, target, source, retry) == Ok(false)
  {
    if probe(target, retry).None? || source.Some? {
      if retry > 0 {
        RecheckCopyNeverWithoutSource(probe, files, target, source, retry - 1);
      }
    }
  }

  /** When no attempt finds the target the recheck gives `false`, after
      counting `retry` down to zero. */
  lemma {:induction false} RecheckCopyGivesUp(probe: Probe, files: Files, target: Path, source: Option<Path>, retry: nat)
    requires forall k :: 0 <= k <= retry ==> probe(target, k).None?
    ensures RecheckCopy(probe, files, target, source, retry) == Ok(false)
  {
    if retry > 0 {
      RecheckCopyGivesUp(probe, files, target, source, retry - 1);
    }
  }

  /** `recheck()` as written: for a copy, `recheck_copy` with three
      retries; for a delete, a retrying stat of the target (five retries),
      whose "not found" nothing catches, then whether the target is gone.
      The delete's check passes only when the stat still sees a target that
      the tree no longer holds. */
  function RecheckAsWritten(r: WorkerRecord, probe: Probe, files: Files): (res: Result<bool, Fault>)
    ensures r.kind == Copy ==> res == RecheckCopy(probe, files, r.targetPath, r.sourcePath, 3)
    ensures r.kind == Delete ==> (res == Ok(true) <==> probe(r.targetPath, 5).Some? && r.targetPath !in files)
    ensures r.kind == Delete && probe(r.targetPath, 5).None? ==> res == Err(NotFound(r.targetPath))
  {
    match r.kind
    case Copy => RecheckCopy(probe, files, r.targetPath, r.sourcePath, 3)
    case Delete =>
      if probe(r.targetPath, 5).None? then Err(NotFound(r.targetPath))
      else Ok(r.targetPath !in files)
  }

  /** As written, a delete's own recheck raises right after the delete has
      removed the target, whenever the retrying stat reports the removed
      target as not found: the run then ends `failed`. */
  lemma DeleteRecheckAsWrittenFails(sha1: string -> string, r: WorkerRecord, files: Files, env: RunEnv)
    requires r.kind == Delete && env.probe(r.targetPath, 5).None?
    ensures var st := DeleteStep(r, files);
      var rr := Finish(Advance(r, st.writes), Step(st.files, st.writes, Verdict(RecheckAsWritten(r, env.probe, st.files))), env.now);
      && r.targetPath !in st.files
      && rr.record.status == Failed && rr.record.errorInfo == Some(NotFound(r.targetPath))
  {
  }

  /** `recheck()` as intended: for a copy, `recheck_copy` with three
      retries; for a delete, whether the target is gone, a retrying stat
      that no longer finds the target being no fault. */
  function Recheck(r: WorkerRecord, probe: Probe, files: Files): (res: Result<bool, Fault>)
    ensures r.kind == Delete ==> (res == Ok(true) <==> r.targetPath !in files) && res.Ok?
  {
    match r.kind
    case Copy => RecheckCopy(probe, files, r.targetPath, r.sourcePath, 3)
    case Delete => Ok(r.targetPath !in files)
  }

  /** `assert self.recheck()`: a `false` recheck raises too. */
  function Verdict(res: Result<bool, Fault>): (out: Outcome<Fault>)
    ensures out == Pass <==> res == Ok(true)
  {
    match res
    case Ok(b) => if b then Pass else Fail(RecheckFailed)
    case Err(e) => Fail(e)
  }

  // -------------------------------------------------------------------- run

  datatype RunResult = RunResult(record: WorkerRecord, files: Files, writes: seq<WorkerStatus>)

  /** The record with the statuses `writes` applied. */
  function Advance(r: WorkerRecord, writes: seq<WorkerStatus>): WorkerRecord
  {
    r.(status := Last(r.status, writes))
  }

  /** The type-specific action, which runs only from `init` or `back-upped`. */
  function Act(r: WorkerRecord, files: Files, env: RunEnv): (st: Step)
    ensures r.kind == Copy ==> forall s :: s in st.writes ==> s in {Downloaded, Uploaded, Copied}
    ensures r.kind == Delete ==> forall s :: s in st.writes ==> s == Deleted
    ensures st.writes != [] ==> r.status == Init || r.status == BackedUp
    ensures Rises(r.status, st.writes)
  {
    if r.status == Init || r.status == BackedUp then
      match r.kind
      case Copy =>
        var st := CopyStep(r, files, env);
        CopyWritesRise(r.status, st.writes);
        st
      case Delete =>
        var st := DeleteStep(r, files);
        assert Before(r.status, st.writes, 0) == r.status;
        st
    else Step(files, [], Pass)
  }

  /** Every run of writes a copy can make rises from `init` or `back-upped`. */
  lemma CopyWritesRise(s0: WorkerStatus, w: seq<WorkerStatus>)
    requires s0 == Init || s0 == BackedUp
    requires w in {[], [Downloaded], [Downloaded, Uploaded], [Downloaded, Uploaded, Copied]}
    ensures Rises(s0, w) && forall s :: s in w ==> s in {Downloaded, Uploaded, Copied}
  {
    if w != [] {
      assert Before(s0, w, 0) == s0;
      if |w| > 1 { assert Before(s0, w, 1) == Downloaded; }
      if |w| > 2 { assert Before(s0, w, 2) == Uploaded; }
    }
  }

  /** The backup, which runs only when asked for and still `init`. */
  function BackupPhase(sha1: string -> string, r: WorkerRecord, files: Files, now: Time): (st: Step)
    ensures st.writes == [] || (r.needBackup && r.status == Init && st.writes[0] == BackingUp)
    ensures forall s :: s in st.writes ==> s in {BackingUp, BackedUp}
    ensures Rises(r.status, st.writes)
  {
    if r.needBackup && r.status == Init then
      var st := BackupStep(sha1, r, files, now);
      assert Rises(r.status, st.writes) by {
        if st.writes != [] {
          assert Before(r.status, st.writes, 0) == Init;
          if |st.writes| == 2 { assert Before(r.status, st.writes, 1) == BackingUp; }
        }
      }
      st
    else Step(files, [], Pass)
  }

  /** The action behind an earlier outcome: skipped when that raised. */
  function Gated(prior: Outcome<Fault>, r: WorkerRecord, files: Files, env: RunEnv): Step
  {
    if prior.Fail? then Step(files, [], prior) else Act(r, files, env)
  }

  /** The action as it follows the backup: skipped when the backup raised. */
  function ActPhase(r: WorkerRecord, b: Step, env: RunEnv): (st: Step)
    ensures b.outcome.Fail? ==> st == Step(b.files, [], b.outcome)
    ensures b.outcome.Pass? ==> st == Act(Advance(r, b.writes), b.files, env)
  {
    Gated(b.outcome, Advance(r, b.writes), b.files, env)
  }

  /** The end of a run: `done` when everything before passed, otherwise the
      fault is stored and `failed` written; either way the completion time
      is stamped. */
  function Finish(r: WorkerRecord, st: Step, now: Time): (rr: RunResult)
    ensures rr.files == st.files && rr.writes == st.writes + [rr.record.status]
    ensures rr.record.status == Done <==> st.outcome == Pass
    ensures rr.record == r.(status := rr.record.status, errorInfo := rr.record.errorInfo, doneAt := Some(now))
    ensures rr.record.status.Terminal()
    ensures rr.record.status == Done ==> rr.record.errorInfo == r.errorInfo
    ensures rr.record.status == Failed ==> rr.record.errorInfo == Some(st.outcome.error)
  {
    match st.outcome
    case Pass => RunResult(r.(status := Done, doneAt := Some(now)), st.files, st.writes + [Done])
    case Fail(e) => RunResult(r.(status := Failed, errorInfo := Some(e), doneAt := Some(now)), st.files, st.writes + [Failed])
  }

  /** The outcome of the whole try block: the first fault raised, else the
      recheck's verdict. */
  function Conclude(r: WorkerRecord, c: Step, env: RunEnv): Outcome<Fault>
  {
    if c.outcome.Fail? then c.outcome else Verdict(Recheck(r, env.probe, c.files))
  }

  /** `run()` as a whole: a terminal item is only stamped again; any other
      backs up when asked and still `init`, acts when `init` or `back-upped`,
      rechecks, and ends `done` or `failed`. */
  function RunSpec(sha1: string -> string, r: WorkerRecord, files: Files, env: RunEnv): (rs: RunResult)
    ensures rs.record.doneAt == Some(env.now) && rs.record.status.Terminal()
    ensures rs.record == r.(status := rs.record.status, errorInfo := rs.record.errorInfo, doneAt := rs.record.doneAt)
    ensures r.status.Terminal() ==> rs.writes == [] && rs.files == files && rs.record.status == r.status
    ensures !r.status.Terminal() && rs.record.status == Failed ==> rs.record.errorInfo.Some?
    ensures rs.record.status == Done ==> rs.record.errorInfo == r.errorInfo
  {
    if r.status.Terminal() then RunResult(r.(doneAt := Some(env.now)), files, [])
    else
      var b := BackupPhase(sha1, r, files, env.now);
      var c := ActPhase(r, b, env);
      var r2 := Advance(Advance(r, b.writes), c.writes);
      Finish(r2, Step(c.files, b.writes + c.writes, Conclude(r2, c, env)), env.now)
  }

  /** No status above `Copied` is written before the end of a run. */
  lemma NonTerminalRank(s: WorkerStatus)
    requires !s.Terminal()
    ensures s.Rank() < Done.Rank() && Done.Rank() == Failed.Rank()
  {
  }

  /** Ending a rising, non-terminal run of writes with `done` or `failed`
      keeps it rising, and the last write is the status ended in. */
  lemma FinishRises(r: WorkerRecord, w: seq<WorkerStatus>, st: Step, now: Time)
    requires Rises(r.status, w) && st.writes == w && !Last(r.status, w).Terminal()
    ensures var rr := Finish(r.(status := Last(r.status, w)), st, now);
      Rises(r.status, rr.writes) && Last(r.status, rr.writes) == rr.record.status
  {
    var s := Last(r.status, w);
    var rr := Finish(r.(status := s), st, now);
    NonTerminalRank(s);
    assert Rises(s, [rr.record.status]) by { assert Before(s, [rr.record.status], 0) == s; }
    RisesJoin(r.status, w, [rr.record.status]);
  }

  /** The statuses a run writes rise through the state machine, one after
      another, and the last is the status the run ends in. */
  lemma {:induction false} RunWritesRise(sha1: string -> string, r: WorkerRecord, files: Files, env: RunEnv)
    ensures var rs := RunSpec(sha1, r, files, env);
      Rises(r.status, rs.writes) && Last(r.status, rs.writes) == rs.record.status
  {
    if !r.status.Terminal() {
      var b := BackupPhase(sha1, r, files, env.now);
      var c := ActPhase(r, b, env);
      PhasesRise(sha1, r, files, env);
      var r2 := Advance(Advance(r, b.writes), c.writes);
      FinishRises(r, b.writes + c.writes, Step(c.files, b.writes + c.writes, Conclude(r2, c, env)), env.now);
    }
  }

  /** The backup's and the action's writes together rise and stop short of
      a terminal status. */
  lemma PhasesRise(sha1: string -> string, r: WorkerRecord, files: Files, env: RunEnv)
    requires !r.status.Terminal()
    ensures var b := BackupPhase(sha1, r, files, env.now); var c := ActPhase(r, b, env);
      && Rises(r.status, b.writes + c.writes)
      && !Last(r.status, b.writes + c.writes).Terminal()
      && Advance(Advance(r, b.writes), c.writes) == r.(status := Last(r.status, b.writes + c.writes))
  {
    var b := BackupPhase(sha1, r, files, env.now);
    var c := ActPhase(r, b, env);
    assert forall s :: s in c.writes ==> !s.Terminal();
    JoinWrites(r, b.writes, c.writes);
  }

  /** Two rising, non-terminal runs of writes, one after the other. */
  lemma JoinWrites(r: WorkerRecord, a: seq<WorkerStatus>, b: seq<WorkerStatus>)
    requires !r.status.Terminal() && Rises(r.status, a) && Rises(Last(r.status, a), b)
    requires forall s :: s in a ==> !s.Terminal()
    requires forall s :: s in b ==> !s.Terminal()
    ensures Rises(r.status, a + b) && !Last(r.status, a + b).Terminal()
    ensures Advance(Advance(r, a), b) == r.(status := Last(r.status, a + b))
  {
    RisesJoin(r.status, a, b);
    if b != [] {
      assert Last(r.status, a + b) == b[|b| - 1] && b[|b| - 1] in b;
    } else if a != [] {
      assert a + b == a && a[|a| - 1] in a;
    }
  }

  /** A run that ends `done` has passed its recheck on the tree it leaves
      and kept its earlier error information. */
  lemma RunDoneMeansRechecked(sha1: string -> string, r: WorkerRecord, files: Files, env: RunEnv)
    requires !r.status.Terminal()
    ensures var rs := RunSpec(sha1, r, files, env);
      rs.record.status == Done ==>
        Recheck(rs.record, env.probe, rs.files) == Ok(true) && rs.record.errorInfo == r.errorInfo
  {
  }

  /** A run writes at least one status, and the last one it writes is the
      status it ends with. */
  lemma RunLastWriteIsStatus(sha1: string -> string, r: WorkerRecord, files: Files, env: RunEnv)
    requires !r.status.Terminal()
    ensures var rs := RunSpec(sha1, r, files, env);
      |rs.writes| > 0 && rs.writes[|rs.writes| - 1] == rs.record.status
  {
  }

  /** Over a whole run, no file other than the target is changed or removed:
      the source is only read, and an existing backup is never overwritten.
      The tree changes at all only when the run starts from `init` or
      `back-upped`. */
  lemma RunSparesOtherFiles(sha1: string -> string, r: WorkerRecord, files: Files, env: RunEnv)
    ensures var rs := RunSpec(sha1, r, files, env);
      forall q :: q in files && q != r.targetPath ==> q in rs.files && rs.files[q] == files[q]
    ensures RunSpec(sha1, r, files, env).files != files ==> r.status == Init || r.status == BackedUp
  {
    if !r.status.Terminal() {
      PhasesSpare(sha1, r, files, env);
    }
  }

  /** The backup and the action together change no file but the target, and
      change the tree only from `init` or `back-upped`. */
  lemma PhasesSpare(sha1: string -> string, r: WorkerRecord, files: Files, env: RunEnv)
    requires !r.status.Terminal()
    ensures var c := ActPhase(r, BackupPhase(sha1, r, files, env.now), env);
      && (forall q :: q in files && q != r.targetPath ==> q in c.files && c.files[q] == files[q])
      && (c.files != files ==> r.status == Init || r.status == BackedUp)
  {
    var b := BackupPhase(sha1, r, files, env.now);
    var r1 := Advance(r, b.writes);
    assert b.files != files ==> r.status == Init && r.needBackup;
    assert r1.status == r.status || r.status == Init;
    if b.outcome.Pass? {
      ActSpares(r1, b.files, env);
    }
  }

  /** The action changes no file but the target, and changes the tree only
      from `init` or `back-upped`. */
  lemma ActSpares(r: WorkerRecord, files: Files, env: RunEnv)
    ensures var st := Act(r, files, env);
      && (forall q :: q in files && q != r.targetPath ==> q in st.files && st.files[q] == files[q])
      && (st.files != files ==> r.status == Init || r.status == BackedUp)
  {
  }

  /** A delete never writes a copy status and a copy never writes `deleted`;
      `back-upping` is written only when a backup was asked for. */
  lemma RunWritesFollowKind(sha1: string -> string, r: WorkerRecord, files: Files, env: RunEnv)
    ensures var w := RunSpec(sha1, r, files, env).writes;
      && (r.kind == Delete ==> forall s :: s in w ==> s in {BackingUp, BackedUp, Deleted, Done, Failed})
      && (r.kind == Copy ==> Deleted !in w)
      && (!r.needBackup ==> BackingUp !in w && BackedUp !in w)
  {
    var rs := RunSpec(sha1, r, files, env);
    if !r.status.Terminal() {
      var b := BackupPhase(sha1, r, files, env.now);
      var c := ActPhase(r, b, env);
      var last := rs.record.status;
      assert rs.writes == b.writes + c.writes + [last];
      assert last == Done || last == Failed;
      assert r.kind == Advance(r, b.writes).kind;
      forall s | s in rs.writes
        ensures r.kind == Delete ==> s in {BackingUp, BackedUp, Deleted, Done, Failed}
        ensures r.kind == Copy ==> s != Deleted
        ensures !r.needBackup ==> s != BackingUp && s != BackedUp
      {
        if s in b.writes {
        } else if s in c.writes {
        } else {
          assert s == last;
        }
      }
    }
  }

  /** A run whose backup raised ends `failed` with the backup's fault, after
      the backup's writes, and with the tree the backup left; the action
      and the recheck are skipped. */
  lemma BackupFailureFailsRun(sha1: string -> string, r: WorkerRecord, files: Files, env: RunEnv)
    requires r.status == Init && r.needBackup
    requires BackupStep(sha1, r, files, env.now).outcome.Fail?
    ensures var b := BackupStep(sha1, r, files, env.now);
      var rs := RunSpec(sha1, r, files, env);
      && rs.record.status == Failed && rs.record.errorInfo == Some(b.outcome.error)
      && rs.files == b.files && rs.files == files
      && rs.writes == b.writes + [Failed]
  {
    var b := BackupPhase(sha1, r, files, env.now);
    var c := ActPhase(r, b, env);
    assert c == Step(b.files, [], b.outcome);
    assert b.writes + c.writes == b.writes;
  }

  /** Deleting from `init` without a backup always ends `done`, whether or
      not the target existed, and leaves the target absent. */
  lemma DeleteAlwaysDone(sha1: string -> string, r: WorkerRecord, files: Files, env: RunEnv)
    requires r.kind == Delete && r.status == Init && !r.needBackup
    ensures var rs := RunSpec(sha1, r, files, env);
      rs.writes == [Deleted, Done] && rs.files == files - {r.targetPath} && rs.record.status == Done
  {
  }

  /** A copy from `init` whose upload is accepted and whose target is seen
      with the source's size goes `downloaded`, `uploaded`, `copied`, `done`,
      and the target then holds the source's file. */
  lemma CopyHappyPath(sha1: string -> string, r: WorkerRecord, files: Files, env: RunEnv)
    requires r.kind == Copy && r.status == Init && !r.needBackup
    requires r.sourcePath.Some? && r.sourcePath.value in files && r.sourcePath.value != r.targetPath
    requires env.uploadCode == 200
    requires var size := files[r.sourcePath.value].stat.size;
      env.probe(r.targetPath, 5).Some? && env.probe(r.targetPath, 5).value.size == size
      && env.probe(r.targetPath, 3).Some? && env.probe(r.targetPath, 3).value.size == size
    ensures var rs := RunSpec(sha1, r, files, env);
      && rs.writes == [Downloaded, Uploaded, Copied, Done]
      && rs.record.status == Done
      && rs.files == files[r.targetPath := files[r.sourcePath.value]]
  {
  }

  /** With a backup asked for and free names, the target is moved away first
      and the writes begin `back-upping`, `back-upped`. */
  lemma BackupComesFirst(sha1: string -> string, r: WorkerRecord, files: Files, env: RunEnv)
    requires r.status == Init && r.needBackup && BackupFree(sha1, r, files)
    ensures var rs := RunSpec(sha1, r, files, env);
      |rs.writes| >= 3 && rs.writes[..2] == [BackingUp, BackedUp]
  {
  }

  /** An item resumed in the middle of its state machine neither backs up
      nor acts again: it only rechecks, and ends `done` or `failed` by that
      alone. */
  lemma RunResumes(sha1: string -> string, r: WorkerRecord, files: Files, env: RunEnv)
    requires !r.status.Terminal() && r.status != Init && r.status != BackedUp
    ensures var rs := RunSpec(sha1, r, files, env);
      && rs.files == files
      && rs.writes == [rs.record.status]
      && (rs.record.status == Done <==> Recheck(r, env.probe, files) == Ok(true))
  {
  }
}
