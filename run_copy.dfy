/** The copy-task reconciler: copy tasks planned from the difference between
    a scanned source directory and each scanned target directory, kept in an
    insertion-ordered table keyed by task name; the submission loop that asks
    the remote to copy each `init` task; and the polling loop that maps the
    remote task queue's statuses onto the local ones. */
module RunCopy {
  import opened Common

  datatype CopyStatus = Init | Created | Waiting | GettingSrc | Success | Failed

  /** One file to copy from a source directory into a target directory. */
  datatype CopyTask = CopyTask(
    name: string,
    status: CopyStatus,
    id: Option<string>,
    copyName: string,
    copySource: Path,
    copyTarget: Path)

  /** A scanned directory: its base path and the full paths of its items. */
  datatype SyncDir = SyncDir(basePath: Path, items: seq<Path>)

  /** One entry of the remote task queue. */
  datatype RemoteTask = RemoteTask(name: string, id: string, status: string)

  /** What one poll of the remote task queue reads: the finished entries,
      the time of the last refresh (`0` while the queue has not reported yet)
      and the unfinished entries. */
  datatype Snapshot = Snapshot(done: seq<RemoteTask>, lastTime: Time, undone: seq<RemoteTask>)

  datatype CopyFault =
    | NotUnderBase(item: Path)  // an item's path does not lie below its directory's base
    | MissingSyncDir(path: Path) // no scanned directory for a configured path
    | NoTargets                 // no target paths are configured

  // ------------------------------------------------------------ task table

  /** The task dictionary: its entries, and its keys in insertion order. */
  datatype Table = Table(tasks: map<string, CopyTask>, order: seq<string>)

  /** The key order lists each key exactly once. */
  ghost predicate Ordered(t: Table)
  {
    && (forall n :: n in t.tasks <==> n in t.order)
    && (forall i, j :: 0 <= i < j < |t.order| ==> t.order[i] != t.order[j])
  }

  /** Every task is stored under its own name. */
  ghost predicate Keyed(t: Table)
  {
    forall n :: n in t.tasks ==> t.tasks[n].name == n
  }

  ghost predicate ValidTable(t: Table)
  {
    Ordered(t) && Keyed(t)
  }

  /** A second write under the same key replaces the first. */
  lemma SetTwice(tasks: map<string, CopyTask>, name: string, a: CopyTask, b: CopyTask)
    ensures tasks[name := a][name := b] == tasks[name := b]
  {
  }

  /** Replacing a task by one of the same name keeps the table well formed. */
  lemma SetKeepsValid(t: Table, name: string, v: CopyTask)
    requires ValidTable(t) && name in t.tasks && v.name == name
    ensures ValidTable(t.(tasks := t.tasks[name := v]))
  {
  }

  /** `copy_tasks[task.name] = task`: a new key goes to the end of the order,
      an existing key keeps its place and takes the new task. */
  function Put(t: Table, v: CopyTask): (r: Table)
    ensures v.name in r.tasks && r.tasks[v.name] == v
    ensures forall n :: n != v.name ==> (n in r.tasks <==> n in t.tasks) && (n in t.tasks ==> r.tasks[n] == t.tasks[n])
    ensures |t.order| <= |r.order| && r.order[..|t.order|] == t.order
    ensures ValidTable(t) ==> ValidTable(r)
  {
    if v.name in t.tasks then Table(t.tasks[v.name := v], t.order)
    else
      var r := Table(t.tasks[v.name := v], t.order + [v.name]);
      assert r.order[..|t.order|] == t.order;
      r
  }

  /** The table after storing `vs` in order. */
  function PutAll(t: Table, vs: seq<CopyTask>): (r: Table)
  {
    if vs == [] then t else Put(PutAll(t, vs[..|vs| - 1]), vs[|vs| - 1])
  }

  /** Storing tasks keeps the table well formed; afterwards every stored
      task's name is a key, every key was a key before or is the name of a
      stored task, a key no stored task names keeps its task, and the keys
      there before keep their places. */
  lemma {:induction false} PutAllStores(t: Table, vs: seq<CopyTask>)
    ensures ValidTable(t) ==> ValidTable(PutAll(t, vs))
    ensures forall v :: v in vs ==> v.name in PutAll(t, vs).tasks
    ensures forall n :: n in PutAll(t, vs).tasks <==> n in t.tasks || exists v :: v in vs && v.name == n
    ensures forall n :: n in t.tasks && (forall v :: v in vs ==> v.name != n) ==> PutAll(t, vs).tasks[n] == t.tasks[n]
    ensures |t.order| <= |PutAll(t, vs).order| && PutAll(t, vs).order[..|t.order|] == t.order
  {
    if vs != [] {
      var init := vs[..|vs| - 1];
      var last := vs[|vs| - 1];
      PutAllStores(t, init);
      var mid := PutAll(t, init);
      assert PutAll(t, vs) == Put(mid, last);
      forall v | v in vs ensures v.name in PutAll(t, vs).tasks {
        if v != last {
          assert v in init;
        }
      }
      forall n ensures n in PutAll(t, vs).tasks <==> n in t.tasks || exists v :: v in vs && v.name == n {
        if n in PutAll(t, vs).tasks && n != last.name {
          assert n in mid.tasks;
          if n !in t.tasks {
            var v :| v in init && v.name == n;
            assert v in vs;
          }
        }
        if exists v :: v in vs && v.name == n {
          var v :| v in vs && v.name == n;
          if v != last { assert v in init; }
        }
      }
      forall n | n in t.tasks && (forall v :: v in vs ==> v.name != n)
        ensures PutAll(t, vs).tasks[n] == t.tasks[n]
      {
        assert last in vs;
        forall v | v in init ensures v.name != n { assert v in vs; }
      }
      assert mid.order[..|t.order|] == t.order;
    }
  }

  /** Storing `a` and then `b` is storing `a + b`. */
  lemma {:induction false} PutAllConcat(t: Table, a: seq<CopyTask>, b: seq<CopyTask>)
    ensures PutAll(PutAll(t, a), b) == PutAll(t, a + b)
  {
    if b != [] {
      PutAllConcat(t, a, b[..|b| - 1]);
      assert (a + b)[..|a + b| - 1] == a + b[..|b| - 1];
      assert (a + b)[|a + b| - 1] == b[|b| - 1];
    } else {
      assert a + b == a;
    }
  }

  // -------------------------------------------------------------- planning

  /** `full.relative_to(base)`: the segments below `base`, or nothing when
      `full` does not lie below it. */
  function Relative(base: Path, full: Path): (r: Option<Path>)
    ensures r.Some? <==> base <= full
    ensures r.Some? ==> base + r.value == full
  {
    if base <= full then Some(full[|base|..]) else None
  }

  /** The last segment of a path (`""` for the empty path). */
  function Name(p: Path): string
  {
    if p == [] then "" else p[|p| - 1]
  }

  /** A path without its last segment (the empty path is its own parent). */
  function Parent(p: Path): (r: Path)
    ensures p != [] ==> r + [Name(p)] == p
  {
    if p == [] then [] else p[..|p| - 1]
  }

  /** The directory holds an item at `rel` below its base. */
  predicate InItems(d: SyncDir, rel: Path)
  {
    exists i :: 0 <= i < |d.items| && Relative(d.basePath, d.items[i]) == Some(rel)
  }

  /** The task that copies the item at `rel`, named by `nameOf` from its file
      name and its source and target directories. */
  function MakeTask(nameOf: (string, Path, Path) -> string, source: SyncDir, target: SyncDir, rel: Path): (t: CopyTask)
    ensures t.status == Init && t.id.None? && t.copyName == Name(rel)
    ensures t.copySource + [t.copyName] == source.basePath + rel || rel == []
    ensures t.copyTarget == target.basePath + Parent(rel)
  {
    var src := source.basePath + Parent(rel);
    var dst := target.basePath + Parent(rel);
    CopyTask(nameOf(Name(rel), src, dst), Init, None, Name(rel), src, dst)
  }

  /** The task an item calls for: none when the target already holds its
      relative path. */
  function TaskFor(nameOf: (string, Path, Path) -> string, source: SyncDir, target: SyncDir, item: Path): Option<CopyTask>
    requires source.basePath <= item
  {
    var rel := item[|source.basePath|..];
    if InItems(target, rel) then None else Some(MakeTask(nameOf, source, target, rel))
  }

  /** The item lies below the source base and calls for the task `t`. */
  ghost predicate Yields(nameOf: (string, Path, Path) -> string, source: SyncDir, target: SyncDir, item: Path, t: CopyTask)
  {
    source.basePath <= item && TaskFor(nameOf, source, target, item) == Some(t)
  }

  /** `create_copy_task` over `items`: the tasks it stores in order, and
      whether it got through them or raised at an item outside the base. */
  function Planned(nameOf: (string, Path, Path) -> string, source: SyncDir, target: SyncDir, items: seq<Path>)
    : (res: (seq<CopyTask>, Outcome<CopyFault>))
  {
    if items == [] then ([], Pass)
    else
      var before := Planned(nameOf, source, target, items[..|items| - 1]);
      var item := items[|items| - 1];
      if before.1.Fail? then before
      else if !(source.basePath <= item) then (before.0, Fail(NotUnderBase(item)))
      else match TaskFor(nameOf, source, target, item)
        case None => before
        case Some(t) => (before.0 + [t], Pass)
  }

  /** Planning passes exactly when every item lies below the source base;
      when it raises, it names an item outside the base. */
  lemma {:induction false} PlannedPasses(nameOf: (string, Path, Path) -> string, source: SyncDir, target: SyncDir, items: seq<Path>)
    ensures Planned(nameOf, source, target, items).1 == Pass <==>
      forall i :: 0 <= i < |items| ==> source.basePath <= items[i]
    ensures Planned(nameOf, source, target, items).1.Fail? ==>
      exists p :: p in items && !(source.basePath <= p) && Planned(nameOf, source, target, items).1 == Fail(NotUnderBase(p))
  {
    if items != [] {
      var init := items[..|items| - 1];
      PlannedPasses(nameOf, source, target, init);
      var before := Planned(nameOf, source, target, init);
      assert forall i :: 0 <= i < |init| ==> init[i] == items[i];
      if before.1.Fail? {
        var p :| p in init && !(source.basePath <= p) && before.1 == Fail(NotUnderBase(p));
        var i :| 0 <= i < |init| && init[i] == p;
        assert items[i] == p;
      }
    }
  }

  /** When planning passes, its tasks are exactly those of the items whose
      relative path the target does not hold. */
  lemma {:induction false} PlannedTasks(nameOf: (string, Path, Path) -> string, source: SyncDir, target: SyncDir, items: seq<Path>)
    requires Planned(nameOf, source, target, items).1 == Pass
    ensures forall t :: t in Planned(nameOf, source, target, items).0 <==>
      exists i :: 0 <= i < |items| && Yields(nameOf, source, target, items[i], t)
  {
    if items != [] {
      var init := items[..|items| - 1];
      var before := Planned(nameOf, source, target, init);
      var res := Planned(nameOf, source, target, items);
      assert before.1 == Pass;
      PlannedTasks(nameOf, source, target, init);
      forall t | t in res.0
        ensures exists i :: 0 <= i < |items| && Yields(nameOf, source, target, items[i], t)
      {
        if t in before.0 {
          var i :| 0 <= i < |init| && Yields(nameOf, source, target, init[i], t);
          assert items[i] == init[i];
        } else {
          assert Yields(nameOf, source, target, items[|items| - 1], t);
        }
      }
      forall t, i | 0 <= i < |items| && Yields(nameOf, source, target, items[i], t)
        ensures t in res.0
      {
        if i < |init| {
          assert init[i] == items[i];
          assert t in before.0;
        }
      }
    }
  }

  /** What planning against a target with no scanned directory raises: the
      first source item is made relative before the missing target is used,
      so a first item outside the base is reported instead. */
  function MissingTarget(source: SyncDir, t: Path): (f: Outcome<CopyFault>)
    ensures f.Fail?
    ensures f == Fail(MissingSyncDir(t)) <==> source.items == [] || source.basePath <= source.items[0]
  {
    if source.items != [] && !(source.basePath <= source.items[0]) then Fail(NotUnderBase(source.items[0]))
    else Fail(MissingSyncDir(t))
  }

  /** After planning passes, every source item whose relative path the
      target lacks has its task's name among the table's keys, and every new
      key names the task of such an item. */
  lemma PlannedStored(nameOf: (string, Path, Path) -> string, source: SyncDir, target: SyncDir, t: Table)
    requires Planned(nameOf, source, target, source.items).1 == Pass
    ensures forall i ::
      (0 <= i < |source.items| && source.basePath <= source.items[i]
       && !InItems(target, source.items[i][|source.basePath|..])) ==>
        MakeTask(nameOf, source, target, source.items[i][|source.basePath|..]).name
          in PutAll(t, Planned(nameOf, source, target, source.items).0).tasks
    ensures forall n :: n in PutAll(t, Planned(nameOf, source, target, source.items).0).tasks && n !in t.tasks ==>
      exists i ::
        && 0 <= i < |source.items| && source.basePath <= source.items[i]
        && !InItems(target, source.items[i][|source.basePath|..])
        && MakeTask(nameOf, source, target, source.items[i][|source.basePath|..]).name == n
  {
    var planned := Planned(nameOf, source, target, source.items).0;
    PlannedTasks(nameOf, source, target, source.items);
    PutAllStores(t, planned);
    forall i | 0 <= i < |source.items| && source.basePath <= source.items[i]
      && !InItems(target, source.items[i][|source.basePath|..])
      ensures MakeTask(nameOf, source, target, source.items[i][|source.basePath|..]).name in PutAll(t, planned).tasks
    {
      var task := MakeTask(nameOf, source, target, source.items[i][|source.basePath|..]);
      assert Yields(nameOf, source, target, source.items[i], task);
      assert task in planned;
    }
    forall n | n in PutAll(t, planned).tasks && n !in t.tasks
      ensures exists i ::
        && 0 <= i < |source.items| && source.basePath <= source.items[i]
        && !InItems(target, source.items[i][|source.basePath|..])
        && MakeTask(nameOf, source, target, source.items[i][|source.basePath|..]).name == n
    {
      var v :| v in planned && v.name == n;
      var i :| 0 <= i < |source.items| && Yields(nameOf, source, target, source.items[i], v);
      assert !InItems(target, source.items[i][|source.basePath|..]);
    }
  }

  /** `create_copy_list` over the targets `targets`: the tasks stored, in
      order, and whether it got through them. */
  function ListPlan(nameOf: (string, Path, Path) -> string, dirs: map<Path, SyncDir>, sourcePath: Path, targets: seq<Path>)
    : (res: (seq<CopyTask>, Outcome<CopyFault>))
  {
    if targets == [] then ([], Pass)
    else
      var before := ListPlan(nameOf, dirs, sourcePath, targets[..|targets| - 1]);
      var t := targets[|targets| - 1];
      if before.1.Fail? then before
      else if sourcePath !in dirs then (before.0, Fail(MissingSyncDir(sourcePath)))
      else if t !in dirs then (before.0, MissingTarget(dirs[sourcePath], t))
      else
        var step := Planned(nameOf, dirs[sourcePath], dirs[t], dirs[sourcePath].items);
        (before.0 + step.0, step.1)
  }

  /** With at least one target, planning the list passes exactly when the
      source and every target have a scanned directory and every source item
      lies below the source base. */
  lemma {:induction false} ListPlanPasses(nameOf: (string, Path, Path) -> string, dirs: map<Path, SyncDir>, sourcePath: Path, targets: seq<Path>)
    requires targets != []
    ensures ListPlan(nameOf, dirs, sourcePath, targets).1 == Pass <==>
      && sourcePath in dirs
      && (forall i :: 0 <= i < |targets| ==> targets[i] in dirs)
      && (forall j :: 0 <= j < |dirs[sourcePath].items| ==> dirs[sourcePath].basePath <= dirs[sourcePath].items[j])
  {
    var init := targets[..|targets| - 1];
    var t := targets[|targets| - 1];
    if init != [] {
      ListPlanPasses(nameOf, dirs, sourcePath, init);
    }
    assert forall i :: 0 <= i < |init| ==> init[i] == targets[i];
    if sourcePath in dirs && t in dirs {
      PlannedPasses(nameOf, dirs[sourcePath], dirs[t], dirs[sourcePath].items);
    }
  }

  // ------------------------------------------------------------ submission

  /** The names of the tasks still `init`, in table order. */
  function Pending(t: Table): (r: seq<string>)
    ensures forall n :: n in r <==> n in t.order && n in t.tasks && t.tasks[n].status == Init
    ensures Ordered(t) ==> forall i, j :: 0 <= i < j < |r| ==> r[i] != r[j]
    ensures forall i, j :: 0 <= i < j < |r| ==> Precedes(t.order, r[i], r[j])
  {
    PendingIn(t.tasks, t.order)
  }

  /** `a` occurs in `order` at some place before some place of `b`. */
  ghost predicate Precedes(order: seq<string>, a: string, b: string)
  {
    exists x, y :: 0 <= x < y < |order| && order[x] == a && order[y] == b
  }

  function PendingIn(tasks: map<string, CopyTask>, order: seq<string>): (r: seq<string>)
    ensures forall n :: n in r <==> n in order && n in tasks && tasks[n].status == Init
    ensures |r| <= |order|
    ensures (forall i, j :: 0 <= i < j < |order| ==> order[i] != order[j]) ==>
      forall i, j :: 0 <= i < j < |r| ==> r[i] != r[j]
    ensures forall i, j :: 0 <= i < j < |r| ==> Precedes(order, r[i], r[j])
  {
    if order == [] then []
    else
      var n := order[|order| - 1];
      var init := order[..|order| - 1];
      var before := PendingIn(tasks, init);
      assert forall m :: m in order <==> m in init || m == n;
      var r := if n in tasks && tasks[n].status == Init then before + [n] else before;
      assert forall i, j :: 0 <= i < j < |r| ==> Precedes(order, r[i], r[j]) by {
        forall i, j | 0 <= i < j < |r| ensures Precedes(order, r[i], r[j]) {
          if j < |before| {
            assert r[i] == before[i] && r[j] == before[j];
            assert Precedes(init, before[i], before[j]);
            var x, y :| 0 <= x < y < |init| && init[x] == r[i] && init[y] == r[j];
            assert order[x] == r[i] && order[y] == r[j];
          } else {
            assert r[i] in init;
            var x :| 0 <= x < |init| && init[x] == r[i];
            assert order[x] == r[i] && order[|order| - 1] == r[j];
          }
        }
      }
      assert (forall i, j :: 0 <= i < j < |order| ==> order[i] != order[j]) ==>
        forall i, j :: 0 <= i < j < |r| ==> r[i] != r[j] by {
        if forall i, j :: 0 <= i < j < |order| ==> order[i] != order[j] {
          assert n !in init by {
            forall x | 0 <= x < |init| ensures init[x] != n { assert init[x] == order[x]; }
          }
        }
      }
      r
  }

  /** One pass of the submission loop: the task names it sends. */
  datatype Round = Round(running: set<string>, codes: map<string, int>)

  /** The longest prefix of `pending` naming no running request: a scan sends
      these and stops at the first name whose request is still running. */
  function Cut(pending: seq<string>, running: set<string>): (r: seq<string>)
    ensures r <= pending && forall n :: n in r ==> n in pending && n !in running
    ensures |r| < |pending| ==> pending[|r|] in running
  {
    if pending == [] || pending[0] in running then []
    else
      var rest := Cut(pending[1..], running);
      assert forall n :: n in rest ==> n in pending[1..];
      [pending[0]] + rest
  }

  /** `Cut` is the only prefix that sends no running name and stops only at
      a running one. */
  lemma {:induction false} CutUnique(pending: seq<string>, running: set<string>, s: seq<string>)
    requires s <= pending && forall n :: n in s ==> n !in running
    requires |s| < |pending| ==> pending[|s|] in running
    ensures s == Cut(pending, running)
  {
    if s != [] {
      assert s[0] in s && s[0] == pending[0];
      CutUnique(pending[1..], running, s[1..]);
      assert s == [s[0]] + s[1..];
    }
  }

  /** The remote status strings the polling loop knows. */
  const WaitStatus := ""
  const GettingSrcStatus := "getting src object"
  const FailedStatus := "failed"
  const SuccessStatus := "success"

  /** The fixed table from a remote status to the local transition: a queued
      remote task moves only a `created` task to `waiting`; a transfer moves
      only a `created` or `waiting` task to `getting_src`; failure and success
      are taken whatever the local status; any other string changes nothing. */
  function Transition(s: CopyStatus, remote: string): (r: CopyStatus)
    ensures remote == WaitStatus ==> (s == Created ==> r == Waiting) && (s != Created ==> r == s)
    ensures remote == GettingSrcStatus ==>
      (s in {Created, Waiting} ==> r == GettingSrc) && (s !in {Created, Waiting} ==> r == s)
    ensures remote == FailedStatus ==> r == Failed
    ensures remote == SuccessStatus ==> r == Success
    ensures remote !in {WaitStatus, GettingSrcStatus, FailedStatus, SuccessStatus} ==> r == s
  {
    if remote == WaitStatus then (if s == Created then Waiting else s)
    else if remote == GettingSrcStatus then (if s == Created || s == Waiting then GettingSrc else s)
    else if remote == FailedStatus then Failed
    else if remote == SuccessStatus then Success
    else s
  }

  /** Applying the same remote status twice has the effect of applying it once. */
  lemma TransitionIdempotent(s: CopyStatus, remote: string)
    ensures Transition(Transition(s, remote), remote) == Transition(s, remote)
  {
  }

  /** The remote entries for one task name, in the order read. */
  function Matching(rs: seq<RemoteTask>, name: string): (r: seq<RemoteTask>)
    ensures forall m :: m in r <==> m in rs && m.name == name
    ensures |r| <= |rs|
  {
    if rs == [] then []
    else
      var before := Matching(rs[..|rs| - 1], name);
      var m := rs[|rs| - 1];
      assert forall x :: x in rs <==> x in rs[..|rs| - 1] || x == m;
      if m.name == name then before + [m] else before
  }

  /** `Matching` keeps the order read: the entries kept from any prefix of
      the listing are a prefix of those kept from the whole, and a last
      entry with the name is the last one kept. */
  lemma {:induction false} MatchingKeepsOrder(rs: seq<RemoteTask>, name: string)
    ensures forall k :: 0 <= k <= |rs| ==> Matching(rs[..k], name) <= Matching(rs, name)
    ensures rs != [] && rs[|rs| - 1].name == name ==>
      var r := Matching(rs, name); r != [] && r[|r| - 1] == rs[|rs| - 1]
  {
    if rs != [] {
      var init := rs[..|rs| - 1];
      MatchingKeepsOrder(init, name);
      forall k | 0 <= k <= |rs|
        ensures Matching(rs[..k], name) <= Matching(rs, name)
      {
        if k == |rs| {
          assert rs[..k] == rs;
        } else {
          assert rs[..k] == init[..k];
        }
      }
    }
  }

  /** One remote entry seen for a task: its id is recorded unless one is
      already, and its status goes through the transition table. */
  function Observe(t: CopyTask, m: RemoteTask): (r: CopyTask)
    ensures r == t.(status := r.status, id := r.id)
    ensures r.id == if t.id.Some? then t.id else Some(m.id)
    ensures r.status == Transition(t.status, m.status)
  {
    var withId := if t.id.None? then t.(id := Some(m.id)) else t;
    withId.(status := Transition(withId.status, m.status))
  }

  /** A task after seeing the remote entries `ms` in order. */
  function ObserveAll(t: CopyTask, ms: seq<RemoteTask>): (r: CopyTask)
    ensures r == t.(status := r.status, id := r.id)
  {
    if ms == [] then t else Observe(ObserveAll(t, ms[..|ms| - 1]), ms[|ms| - 1])
  }

  /** The first id seen sticks: a task with an id keeps it, and one without
      takes the id of the first entry seen. */
  lemma {:induction false} FirstIdSticks(t: CopyTask, ms: seq<RemoteTask>)
    ensures ObserveAll(t, ms).id == if t.id.Some? || ms == [] then t.id else Some(ms[0].id)
  {
    if ms != [] {
      FirstIdSticks(t, ms[..|ms| - 1]);
      if |ms| > 1 {
        assert ms[..|ms| - 1][0] == ms[0];
      }
    }
  }

  /** The status after a run of entries is the last entry's when that entry
      is a failure or a success, whatever came before. */
  lemma LastVerdictWins(t: CopyTask, ms: seq<RemoteTask>)
    requires ms != [] && ms[|ms| - 1].status in {FailedStatus, SuccessStatus}
    ensures ObserveAll(t, ms).status == if ms[|ms| - 1].status == FailedStatus then Failed else Success
  {
  }

  // ------------------------------------------------------------- polling

  /** What one pass of the polling loop decides, in the order it tests:
      every task succeeded (clear the remote's finished entries and return);
      the remote has not reported yet (keep waiting); nothing is left
      unfinished remotely (return); otherwise reconcile the tasks. */
  datatype Decision = AllSucceeded | NotReporting | Drained | Reconciled
  {
    predicate Returns() { this == AllSucceeded || this == Drained }
  }

  ghost predicate AllSuccess(t: Table)
  {
    forall n :: n in t.tasks ==> t.tasks[n].status == Success
  }

  datatype Poll = Poll(decision: Decision, table: Table)

  /** Every task not yet `success` sees the remote entries `seen` with its
      name; the others are left alone. */
  function ReconcileAll(tasks: map<string, CopyTask>, seen: seq<RemoteTask>): (r: map<string, CopyTask>)
    ensures r.Keys == tasks.Keys
    ensures forall n :: n in tasks ==> r[n].name == tasks[n].name
    ensures forall n :: n in tasks && tasks[n].status == Success ==> r[n] == tasks[n]
  {
    map n | n in tasks :: if tasks[n].status != Success then ObserveAll(tasks[n], Matching(seen, n)) else tasks[n]
  }

  /** One pass of `check_status`, which tests in this order: every task
      succeeded; the remote has not reported; nothing unfinished remotely;
      otherwise the tasks are reconciled with the finished entries first. */
  function PollOnce(t: Table, snap: Snapshot): (p: Poll)
    ensures p.decision == AllSucceeded <==> AllSuccess(t)
    ensures p.decision == NotReporting <==> !AllSuccess(t) && snap.lastTime == 0
    ensures p.decision == Drained <==> !AllSuccess(t) && snap.lastTime != 0 && snap.undone == []
    ensures p.decision != Reconciled ==> p.table == t
  {
    if forall n :: n in t.tasks ==> t.tasks[n].status == Success then Poll(AllSucceeded, t)
    else if snap.lastTime == 0 then Poll(NotReporting, t)
    else if snap.undone == [] then Poll(Drained, t)
    else Poll(Reconciled, Table(ReconcileAll(t.tasks, snap.done + snap.undone), t.order))
  }

  /** A pass keeps the table's keys, their order and the tasks' names. */
  lemma PollKeepsTable(t: Table, snap: Snapshot)
    requires ValidTable(t)
    ensures var p := PollOnce(t, snap);
      p.table.order == t.order && p.table.tasks.Keys == t.tasks.Keys && ValidTable(p.table)
  {
  }

  datatype PollRun = PollRun(table: Table, returned: bool, cleared: bool, passes: nat)

  /** `check_status` over the snapshots `snaps`, one per pass, until it
      returns or the snapshots run out. */
  function Polls(t: Table, snaps: seq<Snapshot>): (r: PollRun)
    ensures r.passes <= |snaps|
    ensures r.cleared ==> r.returned && AllSuccess(r.table)
    ensures r.returned ==> r.passes >= 1
    ensures !r.returned ==> r.passes == |snaps|
    decreases |snaps|
  {
    if snaps == [] then PollRun(t, false, false, 0)
    else
      var p := PollOnce(t, snaps[0]);
      if p.decision.Returns() then PollRun(t, true, p.decision == AllSucceeded, 1)
      else
        var rest := Polls(p.table, snaps[1..]);
        rest.(passes := rest.passes + 1)
  }

  /** While the remote has not reported, the loop returns only once every
      task has succeeded, and then it clears. */
  lemma {:induction false} NoEarlyReturn(t: Table, snaps: seq<Snapshot>)
    requires forall i :: 0 <= i < |snaps| ==> snaps[i].lastTime == 0
    ensures Polls(t, snaps).returned ==> Polls(t, snaps).cleared
    ensures Polls(t, snaps).table == t
  {
    if snaps != [] {
      assert snaps[0].lastTime == 0;
      NoEarlyReturn(t, snaps[1..]);
    }
  }

  /** With every task succeeded, the first pass clears and returns, and
      changes no task. */
  lemma AllSuccessReturnsAtOnce(t: Table, snaps: seq<Snapshot>)
    requires AllSuccess(t) && snaps != []
    ensures Polls(t, snaps) == PollRun(t, true, true, 1)
  {
  }

  /** A pass that returns clears exactly when every task has succeeded; an
      empty unfinished list with a task still unfinished returns without
      clearing. */
  lemma {:induction false} ClearedIffAllSucceeded(t: Table, snaps: seq<Snapshot>)
    ensures Polls(t, snaps).returned ==> (Polls(t, snaps).cleared <==> AllSuccess(Polls(t, snaps).table))
    decreases |snaps|
  {
    if snaps != [] {
      var p := PollOnce(t, snaps[0]);
      if !p.decision.Returns() {
        ClearedIffAllSucceeded(p.table, snaps[1..]);
      }
    }
  }

  /** The submission step's only effect: some `init` tasks became `created`,
      and nothing else changed. */
  ghost predicate OnlyCreated(before: map<string, CopyTask>, after: map<string, CopyTask>)
  {
    && after.Keys == before.Keys
    && forall n :: n in after ==>
         after[n] == before[n] || (before[n].status == Init && after[n] == before[n].(status := Created))
  }

  lemma OnlyCreatedTrans(a: map<string, CopyTask>, b: map<string, CopyTask>, c: map<string, CopyTask>)
    requires OnlyCreated(a, b) && OnlyCreated(b, c)
    ensures OnlyCreated(a, c)
  {
  }

  /** The tasks after the replies to `submitted`: each submitted task whose
      reply code is 200 is `created`, every other task is as it was. */
  ghost function Replied(tasks: map<string, CopyTask>, submitted: seq<string>, codes: map<string, int>): map<string, CopyTask>
  {
    map n | n in tasks :: if n in submitted && n in codes && codes[n] == 200 then tasks[n].(status := Created) else tasks[n]
  }

  /** One more reply changes at most the replied task. */
  lemma RepliedStep(tasks: map<string, CopyTask>, submitted: seq<string>, j: nat, codes: map<string, int>)
    requires j < |submitted| && submitted[j] in tasks
    ensures var r := Replied(tasks, submitted[..j], codes); var n := submitted[j];
      Replied(tasks, submitted[..j + 1], codes) == r[n := if n in codes && codes[n] == 200 then r[n].(status := Created) else r[n]]
  {
    assert submitted[..j + 1] == submitted[..j] + [submitted[j]];
  }

  /** Replies to `init` tasks only turn them into `created` ones. */
  lemma RepliedOnlyCreates(tasks: map<string, CopyTask>, submitted: seq<string>, codes: map<string, int>)
    requires forall n :: n in submitted ==> n in tasks && tasks[n].status == Init
    ensures OnlyCreated(tasks, Replied(tasks, submitted, codes))
  {
  }

  /** The submission loop from pass `i` of `rounds` on, as a function: a
      scan that finds no `init` task ends the loop; any other pass sends the
      `Cut` of the pending names and takes the replies in its `codes`. The
      result is the tasks left, whether the loop ended, and the number of
      passes used in all. */
  ghost function Submissions(tasks: map<string, CopyTask>, order: seq<string>, rounds: seq<Round>, i: nat)
    : (map<string, CopyTask>, bool, nat)
    decreases |rounds| - i
  {
    if i >= |rounds| then (tasks, false, i)
    else
      var once := SubmitOnce(tasks, order, rounds[i]);
      if once.1 then (tasks, true, i + 1)
      else Submissions(once.0, order, rounds, i + 1)
  }

  /** One pass of the submission loop: the tasks after it, and whether its
      scan found no `init` task. */
  ghost function SubmitOnce(tasks: map<string, CopyTask>, order: seq<string>, round: Round): (map<string, CopyTask>, bool)
  {
    var pending := PendingIn(tasks, order);
    if pending == [] then (tasks, true)
    else (Replied(tasks, Cut(pending, round.running), round.codes), false)
  }

  /** The submission loop only turns `init` tasks into `created` ones. */
  lemma {:induction false} SubmissionsOnlyCreate(tasks: map<string, CopyTask>, order: seq<string>, rounds: seq<Round>, i: nat)
    ensures OnlyCreated(tasks, Submissions(tasks, order, rounds, i).0)
    decreases |rounds| - i
  {
    if i < |rounds| {
      var pending := PendingIn(tasks, order);
      if pending != [] {
        var sent := Cut(pending, rounds[i].running);
        var mid := Replied(tasks, sent, rounds[i].codes);
        RepliedOnlyCreates(tasks, sent, rounds[i].codes);
        SubmissionsOnlyCreate(mid, order, rounds, i + 1);
        assert Submissions(tasks, order, rounds, i) == Submissions(mid, order, rounds, i + 1);
        OnlyCreatedTrans(tasks, mid, Submissions(mid, order, rounds, i + 1).0);
      }
    }
  }

  /** The submission loop ends only once no task is `init`, after at least
      one more pass; otherwise it uses every pass. */
  lemma {:induction false} SubmissionsEnd(tasks: map<string, CopyTask>, order: seq<string>, rounds: seq<Round>, i: nat)
    requires i <= |rounds| && forall n :: n in tasks ==> n in order
    ensures var res := Submissions(tasks, order, rounds, i);
      && i <= res.2 <= |rounds| && (!res.1 ==> res.2 == |rounds|) && (res.1 ==> i < res.2)
      && (res.1 ==> forall n :: n in res.0 ==> res.0[n].status != Init)
    decreases |rounds| - i
  {
    if i < |rounds| {
      var pending := PendingIn(tasks, order);
      if pending == [] {
        forall n | n in tasks
          ensures tasks[n].status != Init
        {
          assert n !in pending;
        }
      } else {
        var sent := Cut(pending, rounds[i].running);
        var mid := Replied(tasks, sent, rounds[i].codes);
        RepliedOnlyCreates(tasks, sent, rounds[i].codes);
        SubmissionsEnd(mid, order, rounds, i + 1);
        assert Submissions(tasks, order, rounds, i) == Submissions(mid, order, rounds, i + 1);
      }
    }
  }

  /** The loop ends at its first pass exactly when no task is `init` to
      begin with, and then nothing changes. */
  lemma SubmissionsStopAtOnce(tasks: map<string, CopyTask>, order: seq<string>, rounds: seq<Round>)
    requires rounds != [] && forall n :: n in tasks ==> n in order
    ensures var res := Submissions(tasks, order, rounds, 0);
      (res.1 && res.2 == 1) <==> forall n :: n in tasks ==> tasks[n].status != Init
    ensures var res := Submissions(tasks, order, rounds, 0);
      res.2 == 1 && res.1 ==> res.0 == tasks
  {
    var pending := PendingIn(tasks, order);
    if pending != [] {
      assert pending[0] in pending && tasks[pending[0]].status == Init;
      var sent := Cut(pending, rounds[0].running);
      var mid := Replied(tasks, sent, rounds[0].codes);
      RepliedOnlyCreates(tasks, sent, rounds[0].codes);
      SubmissionsEnd(mid, order, rounds, 1);
      assert Submissions(tasks, order, rounds, 0) == Submissions(mid, order, rounds, 1);
    } else {
      forall n | n in tasks
        ensures tasks[n].status != Init
      {
        assert n !in pending;
      }
    }
  }

  /** The tasks with the names in `done` reconciled against `seen`. */
  ghost function PartReconciled(tasks: map<string, CopyTask>, seen: seq<RemoteTask>, done: seq<string>): map<string, CopyTask>
  {
    map n | n in tasks :: if n in done && tasks[n].status != Success then ObserveAll(tasks[n], Matching(seen, n)) else tasks[n]
  }

  /** Nothing reconciled yet: the tasks as they were. */
  lemma PartReconciledNone(tasks: map<string, CopyTask>, seen: seq<RemoteTask>)
    ensures PartReconciled(tasks, seen, []) == tasks
  {
  }

  /** Reconciling one more name changes only that name's task. */
  lemma PartReconciledStep(tasks: map<string, CopyTask>, seen: seq<RemoteTask>, done: seq<string>, n: string)
    requires n in tasks && n !in done
    ensures PartReconciled(tasks, seen, done)[n] == tasks[n]
    ensures PartReconciled(tasks, seen, done + [n]) == PartReconciled(tasks, seen, done)[n :=
      if tasks[n].status != Success then ObserveAll(tasks[n], Matching(seen, n)) else tasks[n]]
  {
  }

  /** Every name reconciled: the whole of `ReconcileAll`. */
  lemma PartReconciledAll(tasks: map<string, CopyTask>, seen: seq<RemoteTask>, done: seq<string>)
    requires forall n :: n in tasks ==> n in done
    ensures PartReconciled(tasks, seen, done) == ReconcileAll(tasks, seen)
  {
  }

  // ------------------------------------------------------------ the engine

  class CopyToTarget {
    /** How a task's name is derived from its file name and directories. */
    const nameOf: (string, Path, Path) -> string
    const sourcePath: Path
    const targetsPath: seq<Path>
    /** `sync_job.copy_tasks`. */
    var table: Table

    ghost predicate Valid()
      reads this
    {
      ValidTable(table)
    }

    constructor (nameOf: (string, Path, Path) -> string, sourcePath: Path, targetsPath: seq<Path>)
      ensures this.nameOf == nameOf && this.sourcePath == sourcePath && this.targetsPath == targetsPath
      ensures table == Table(map[], []) && Valid()
    {
      this.nameOf := nameOf;
      this.sourcePath := sourcePath;
      this.targetsPath := targetsPath;
      table := Table(map[], []);
    }

    /** `create_copy_task(source, target)`: for each source item, in order,
        stores a task unless the target holds the item's relative path. */
    method CreateCopyTask(source: SyncDir, target: SyncDir) returns (out: Outcome<CopyFault>)
      requires Valid()
      modifies this
      ensures Valid()
      ensures table == PutAll(old(table), Planned(nameOf, source, target, source.items).0)
      ensures out == Planned(nameOf, source, target, source.items).1
    {
      var i := 0;
      while i < |source.items|
        invariant 0 <= i <= |source.items| && Valid()
        invariant Planned(nameOf, source, target, source.items[..i]).1 == Pass
        invariant table == PutAll(old(table), Planned(nameOf, source, target, source.items[..i]).0)
      {
        var item := source.items[i];
        assert source.items[..i + 1][..i] == source.items[..i];
        assert source.items[..i + 1][i] == item;
        var rel := Relative(source.basePath, item);
        if rel.None? {
          PlannedStops(nameOf, source, target, source.items, i + 1);
          return Fail(NotUnderBase(item));
        }
        if !InItems(target, rel.value) {
          var task := MakeTask(nameOf, source, target, rel.value);
          ghost var planned := Planned(nameOf, source, target, source.items[..i]).0;
          assert (planned + [task])[..|planned|] == planned;
          table := Put(table, task);
        }
        i := i + 1;
      }
      assert source.items[..i] == source.items;
      out := Pass;
    }

    /** `create_copy_list()`: raises without targets; otherwise plans each
        target from the source, stopping at the first that raises. */
    method CreateCopyList(dirs: map<Path, SyncDir>) returns (out: Outcome<CopyFault>)
      requires Valid()
      modifies this
      ensures Valid()
      ensures targetsPath == [] ==> out == Fail(NoTargets) && table == old(table)
      ensures targetsPath != [] ==>
        && table == PutAll(old(table), ListPlan(nameOf, dirs, sourcePath, targetsPath).0)
        && out == ListPlan(nameOf, dirs, sourcePath, targetsPath).1
    {
      if targetsPath == [] {
        return Fail(NoTargets);
      }
      var i := 0;
      while i < |targetsPath|
        invariant 0 <= i <= |targetsPath| && Valid()
        invariant ListPlan(nameOf, dirs, sourcePath, targetsPath[..i]).1 == Pass
        invariant table == PutAll(old(table), ListPlan(nameOf, dirs, sourcePath, targetsPath[..i]).0)
      {
        out := ListTarget(dirs, i, old(table));
        if out.Fail? {
          return;
        }
        i := i + 1;
      }
      assert targetsPath[..i] == targetsPath;
      out := Pass;
    }

    /** The body of `create_copy_list` for the `i`-th target, after the
        targets before it were planned and stored without a raise: either
        the plan of the first `i + 1` targets passes and is stored, or the
        whole listing raises here, as `ListPlan` says. */
    method ListTarget(dirs: map<Path, SyncDir>, i: nat, ghost start: Table) returns (out: Outcome<CopyFault>)
      requires Valid() && i < |targetsPath|
      requires ListPlan(nameOf, dirs, sourcePath, targetsPath[..i]).1 == Pass
      requires table == PutAll(start, ListPlan(nameOf, dirs, sourcePath, targetsPath[..i]).0)
      modifies this
      ensures Valid()
      ensures out.Pass? ==>
        && ListPlan(nameOf, dirs, sourcePath, targetsPath[..i + 1]).1 == Pass
        && table == PutAll(start, ListPlan(nameOf, dirs, sourcePath, targetsPath[..i + 1]).0)
      ensures out.Fail? ==>
        && table == PutAll(start, ListPlan(nameOf, dirs, sourcePath, targetsPath).0)
        && out == ListPlan(nameOf, dirs, sourcePath, targetsPath).1
    {
      var t := targetsPath[i];
      assert targetsPath[..i + 1][..i] == targetsPath[..i];
      assert targetsPath[..i + 1][i] == t;
      if sourcePath !in dirs {
        ListPlanStops(nameOf, dirs, sourcePath, targetsPath, i + 1);
        return Fail(MissingSyncDir(sourcePath));
      }
      if t !in dirs {
        ListPlanStops(nameOf, dirs, sourcePath, targetsPath, i + 1);
        var source := dirs[sourcePath];
        if source.items != [] && Relative(source.basePath, source.items[0]).None? {
          return Fail(NotUnderBase(source.items[0]));
        }
        return Fail(MissingSyncDir(t));
      }
      ghost var done := ListPlan(nameOf, dirs, sourcePath, targetsPath[..i]).0;
      ghost var step := Planned(nameOf, dirs[sourcePath], dirs[t], dirs[sourcePath].items).0;
      out := CreateCopyTask(dirs[sourcePath], dirs[t]);
      PutAllConcat(start, done, step);
      if out.Fail? {
        ListPlanStops(nameOf, dirs, sourcePath, targetsPath, i + 1);
      }
    }

    /** One scan of the submission loop: when no task is `init` the loop
        ends; otherwise the `init` tasks are sent in table order, stopping
        at the first whose request is still running. Nothing changes until
        the replies come back. */
    method SubmitPass(running: set<string>) returns (finished: bool, submitted: seq<string>)
      requires Valid()
      ensures finished <==> forall n :: n in table.tasks ==> table.tasks[n].status != Init
      ensures finished ==> submitted == []
      ensures submitted <= Pending(table)
      ensures forall n :: n in submitted ==> n !in running
      ensures !finished && |submitted| < |Pending(table)| ==> Pending(table)[|submitted|] in running
      ensures finished <==> Pending(table) == []
      ensures submitted == Cut(Pending(table), running)
    {
      var pending := Pending(table);
      if pending == [] {
        forall n | n in table.tasks ensures table.tasks[n].status != Init {
          assert n in table.order;
          assert n !in pending;
        }
        return true, [];
      }
      assert pending[0] in pending;
      finished := false;
      submitted := [];
      var k := 0;
      while k < |pending| && pending[k] !in running
        invariant 0 <= k <= |pending| && submitted == pending[..k]
        invariant forall n :: n in submitted ==> n !in running
      {
        submitted := submitted + [pending[k]];
        k := k + 1;
      }
      CutUnique(pending, running, submitted);
    }

    /** The reply to a copy request: code 200 marks the task `created`; any
        other code leaves it as it is. */
    method OnCopyResult(name: string, code: int)
      requires Valid() && name in table.tasks
      modifies this
      ensures Valid() && table.order == old(table.order)
      ensures table.tasks == old(table.tasks)[name := if code == 200 then old(table.tasks[name]).(status := Created) else old(table.tasks[name])]
    {
      if code == 200 {
        table := table.(tasks := table.tasks[name := table.tasks[name].(status := Created)]);
      }
    }

    /** The reply to the `j`-th submitted request, after those before it. */
    method ApplyReply(submitted: seq<string>, j: nat, codes: map<string, int>, ghost base: map<string, CopyTask>)
      requires Valid() && j < |submitted| && submitted[j] in base
      requires table.tasks == Replied(base, submitted[..j], codes)
      modifies this
      ensures Valid() && table.order == old(table.order)
      ensures table.tasks == Replied(base, submitted[..j + 1], codes)
    {
      RepliedStep(base, submitted, j, codes);
      var n := submitted[j];
      if n in codes {
        OnCopyResult(n, codes[n]);
      }
    }

    /** The replies of one pass: each submitted task with a code in
        `codes` takes its reply. */
    method ApplyReplies(submitted: seq<string>, codes: map<string, int>)
      requires Valid()
      requires forall n :: n in submitted ==> n in table.tasks && table.tasks[n].status == Init
      modifies this
      ensures Valid() && table.order == old(table.order)
      ensures table.tasks == Replied(old(table.tasks), submitted, codes)
      ensures OnlyCreated(old(table.tasks), table.tasks)
    {
      ghost var base := table.tasks;
      var j := 0;
      while j < |submitted|
        invariant 0 <= j <= |submitted| && Valid() && table.order == old(table.order)
        invariant table.tasks == Replied(base, submitted[..j], codes)
      {
        assert submitted[j] in submitted;
        ApplyReply(submitted, j, codes, base);
        j := j + 1;
      }
      assert submitted[..j] == submitted;
      RepliedOnlyCreates(base, submitted, codes);
    }

    /** The submission loop over the passes `rounds`: each pass scans, and
        the replies in its `codes` come back before the next scan. */
    method CreateCopy(rounds: seq<Round>) returns (finished: bool, passes: nat)
      requires Valid()
      modifies this
      ensures Valid() && table.order == old(table.order)
      ensures (table.tasks, finished, passes) == Submissions(old(table.tasks), table.order, rounds, 0)
      ensures passes <= |rounds| && (!finished ==> passes == |rounds|)
      ensures finished ==> forall n :: n in table.tasks ==> table.tasks[n].status != Init
      ensures OnlyCreated(old(table.tasks), table.tasks)
    {
      ghost var t0 := table.tasks;
      passes := 0;
      finished := false;
      while passes < |rounds|
        invariant passes <= |rounds| && Valid() && table.order == old(table.order) && !finished
        invariant Submissions(t0, table.order, rounds, 0) == Submissions(table.tasks, table.order, rounds, passes)
      {
        finished := SubmitRound(rounds, passes);
        passes := passes + 1;
        if finished {
          break;
        }
      }
      SubmissionsOnlyCreate(t0, table.order, rounds, 0);
      SubmissionsEnd(t0, table.order, rounds, 0);
    }

    /** Pass `i` of the submission loop: the scan, then the replies. The loop
        from pass `i` on is this pass followed, unless its scan ended the
        loop, by the loop from pass `i + 1`. */
    method SubmitRound(rounds: seq<Round>, i: nat) returns (finished: bool)
      requires Valid() && i < |rounds|
      modifies this
      ensures Valid() && table.order == old(table.order)
      ensures (table.tasks, finished) == SubmitOnce(old(table.tasks), table.order, rounds[i])
      ensures finished ==> Submissions(old(table.tasks), table.order, rounds, i) == (table.tasks, true, i + 1)
      ensures !finished ==> Submissions(old(table.tasks), table.order, rounds, i) == Submissions(table.tasks, table.order, rounds, i + 1)
    {
      var submitted;
      finished, submitted := SubmitPass(rounds[i].running);
      if !finished {
        ApplyReplies(submitted, rounds[i].codes);
      }
    }

    /** `status_wait`: a `created` task becomes `waiting`. */
    method StatusWait(name: string)
      requires Valid() && name in table.tasks
      modifies this
      ensures table == old(table).(tasks := old(table.tasks)[name := old(table.tasks[name]).(status := Transition(old(table.tasks[name]).status, WaitStatus))])
    {
      if table.tasks[name].status == Created {
        table := table.(tasks := table.tasks[name := table.tasks[name].(status := Waiting)]);
      }
    }

    /** `status_getting_src`: a `created` or `waiting` task becomes `getting_src`. */
    method StatusGettingSrc(name: string)
      requires Valid() && name in table.tasks
      modifies this
      ensures table == old(table).(tasks := old(table.tasks)[name := old(table.tasks[name]).(status := Transition(old(table.tasks[name]).status, GettingSrcStatus))])
    {
      if table.tasks[name].status in {Created, Waiting} {
        table := table.(tasks := table.tasks[name := table.tasks[name].(status := GettingSrc)]);
      }
    }

    /** `status_failed`. */
    method StatusFailed(name: string)
      requires Valid() && name in table.tasks
      modifies this
      ensures table == old(table).(tasks := old(table.tasks)[name := old(table.tasks[name]).(status := Failed)])
    {
      table := table.(tasks := table.tasks[name := table.tasks[name].(status := Failed)]);
    }

    /** `status_success`. */
    method StatusSuccess(name: string)
      requires Valid() && name in table.tasks
      modifies this
      ensures table == old(table).(tasks := old(table.tasks)[name := old(table.tasks[name]).(status := Success)])
    {
      table := table.(tasks := table.tasks[name := table.tasks[name].(status := Success)]);
    }

    /** One remote entry for the task `name`: the id is recorded when the
        task has none, then the handler for its status runs, or, for a
        status with no handler, nothing. */
    method Dispatch(name: string, m: RemoteTask)
      requires Valid() && name in table.tasks
      modifies this
      ensures Valid()
      ensures table == old(table).(tasks := old(table.tasks)[name := Observe(old(table.tasks[name]), m)])
    {
      ghost var t := table.tasks[name];
      ghost var withId := if t.id.None? then t.(id := Some(m.id)) else t;
      if table.tasks[name].id.None? {
        table := table.(tasks := table.tasks[name := table.tasks[name].(id := Some(m.id))]);
      }
      assert table == old(table).(tasks := old(table.tasks)[name := withId]);
      assert Observe(t, m) == withId.(status := Transition(withId.status, m.status));
      SetTwice(old(table.tasks), name, withId, Observe(t, m));
      if m.status == WaitStatus {
        StatusWait(name);
      } else if m.status == GettingSrcStatus {
        StatusGettingSrc(name);
      } else if m.status == FailedStatus {
        StatusFailed(name);
      } else if m.status == SuccessStatus {
        StatusSuccess(name);
      }
      SetKeepsValid(old(table), name, Observe(t, m));
    }

    /** The entries `ms` for the task `name`, one after another. */
    method ReconcileTask(name: string, ms: seq<RemoteTask>)
      requires Valid() && name in table.tasks
      requires forall m :: m in ms ==> m.name == name
      modifies this
      ensures Valid()
      ensures table == old(table).(tasks := old(table.tasks)[name := ObserveAll(old(table.tasks[name]), ms)])
    {
      var j := 0;
      while j < |ms|
        invariant 0 <= j <= |ms| && Valid() && name in table.tasks
        invariant table == old(table).(tasks := old(table.tasks)[name := ObserveAll(old(table.tasks[name]), ms[..j])])
      {
        assert ms[..j + 1][..j] == ms[..j];
        if ms[j].name in table.tasks {
          Dispatch(name, ms[j]);
        }
        j := j + 1;
      }
      assert ms[..j] == ms;
    }

    /** Whether no task is left that is not `success`. */
    method AllSucceededNow() returns (allDone: bool)
      requires Valid()
      ensures allDone <==> AllSuccess(table)
    {
      var k := 0;
      allDone := true;
      while k < |table.order|
        invariant 0 <= k <= |table.order|
        invariant allDone <==> forall i :: 0 <= i < k ==> table.tasks[table.order[i]].status == Success
      {
        if table.tasks[table.order[k]].status != Success {
          allDone := false;
        }
        k := k + 1;
      }
      if allDone {
        forall n | n in table.tasks ensures table.tasks[n].status == Success {
          var i :| 0 <= i < |table.order| && table.order[i] == n;
        }
      }
    }

    /** Each task not yet `success`, in table order, sees the entries of
        `seen` with its name. */
    method ReconcileEach(seen: seq<RemoteTask>)
      requires Valid()
      modifies this
      ensures Valid() && table == old(table).(tasks := ReconcileAll(old(table.tasks), seen))
    {
      ghost var t0 := table;
      var k := 0;
      PartReconciledNone(t0.tasks, seen);
      while k < |table.order|
        invariant 0 <= k <= |table.order| && Valid() && table.order == t0.order
        invariant table.tasks == PartReconciled(t0.tasks, seen, t0.order[..k])
      {
        var n := table.order[k];
        assert t0.order[..k + 1] == t0.order[..k] + [n];
        assert n !in t0.order[..k] by {
          assert forall i :: 0 <= i < k ==> t0.order[i] != n;
        }
        PartReconciledStep(t0.tasks, seen, t0.order[..k], n);
        if table.tasks[n].status != Success {
          ReconcileTask(n, Matching(seen, n));
        }
        k := k + 1;
      }
      assert t0.order[..k] == t0.order;
      PartReconciledAll(t0.tasks, seen, t0.order);
    }

    /** One pass of `check_status` on the snapshot `snap`. */
    method CheckStep(snap: Snapshot) returns (decision: Decision)
      requires Valid()
      modifies this
      ensures Valid()
      ensures Poll(decision, table) == PollOnce(old(table), snap)
    {
      var allDone := AllSucceededNow();
      if allDone {
        return AllSucceeded;
      }
      if snap.lastTime == 0 {
        return NotReporting;
      }
      if snap.undone == [] {
        return Drained;
      }
      ReconcileEach(snap.done + snap.undone);
      decision := Reconciled;
    }

    /** `check_status()` over the snapshots `snaps`, one per pass. */
    method CheckStatus(snaps: seq<Snapshot>) returns (returned: bool, cleared: bool, passes: nat)
      requires Valid()
      modifies this
      ensures PollRun(table, returned, cleared, passes) == Polls(old(table), snaps)
    {
      passes := 0;
      returned, cleared := false, false;
      while passes < |snaps|
        invariant passes <= |snaps| && Valid()
        invariant Polls(old(table), snaps) == var r := Polls(table, snaps[passes..]); r.(passes := r.passes + passes)
      {
        assert snaps[passes..][1..] == snaps[passes + 1..];
        var d := CheckStep(snaps[passes]);
        passes := passes + 1;
        if d.Returns() {
          returned := true;
          cleared := d == AllSucceeded;
          return;
        }
      }
    }
  }

  /** Planning stops at the first prefix that raises. */
  lemma {:induction false} PlannedStops(nameOf: (string, Path, Path) -> string, source: SyncDir, target: SyncDir, items: seq<Path>, n: nat)
    requires n <= |items| && Planned(nameOf, source, target, items[..n]).1.Fail?
    ensures Planned(nameOf, source, target, items) == Planned(nameOf, source, target, items[..n])
    decreases |items| - n
  {
    if n < |items| {
      assert items[..n + 1][..n] == items[..n];
      PlannedStops(nameOf, source, target, items, n + 1);
    } else {
      assert items[..n] == items;
    }
  }

  /** Planning the list stops at the first target that raises. */
  lemma {:induction false} ListPlanStops(nameOf: (string, Path, Path) -> string, dirs: map<Path, SyncDir>, sourcePath: Path, targets: seq<Path>, n: nat)
    requires n <= |targets| && ListPlan(nameOf, dirs, sourcePath, targets[..n]).1.Fail?
    ensures ListPlan(nameOf, dirs, sourcePath, targets) == ListPlan(nameOf, dirs, sourcePath, targets[..n])
    decreases |targets| - n
  {
    if n < |targets| {
      assert targets[..n + 1][..n] == targets[..n];
      ListPlanStops(nameOf, dirs, sourcePath, targets, n + 1);
    } else {
      assert targets[..n] == targets;
    }
  }
}
