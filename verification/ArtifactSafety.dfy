/** What every interleaving of registry steps keeps: leases, protected paths, ownership, and the
    refusal to delete what was only inferred (apatch/artifact_governance.py). */
module ArtifactSafety {
  import opened Common
  import opened ArtifactPaths
  import opened ArtifactRegistry

  // ---------- One step ----------

  ghost predicate SameStore(w: World, w': World) {
    Wf(w') && w'.artifacts == w.artifacts && w'.provenance == w.provenance
  }

  // Only the collecting steps and a removal from outside take a file away.
  lemma StepFiles(w: World, step: Step, p: string)
    requires Wf(w) && IsStep(w, step) && p in w.files
    ensures p in Next(w, step).files <==> p !in Deletes(w, step) && step != DoRemove(p)
  {
    RegPaths(w);
    match step
    case DoEnd(session) => if session != "" { EndFiles(w, session, p); }
    case DoReconcile(ended, inferred) => StoreRegistered(w, ended, inferred);
    case _ =>
  }

  lemma EndRow(w: World, session: string, p: string)
    requires Wf(w) && session != ""
    ensures var w' := EndSession(w, session);
      if p in Reg(w) then
        && p in Reg(w')
        && Reg(w')[p] == if IsEndingRow(Reg(w)[p], session) then Persisted(Ended(Reg(w)[p])) else Reg(w)[p]
      else p in Reg(w') ==> Reg(w')[p] == BootstrapRow(p)
  {
    RegPaths(w);
    CleanupAt(w, Reg(w), session, Paths(w.log), p);
  }

  lemma EndFiles(w: World, session: string, p: string)
    requires Wf(w) && session != "" && p in w.files
    ensures p in EndSession(w, session).files
  {
    RegPaths(w);
    CleanupAt(w, Reg(w), session, Paths(w.log), "");
  }

  lemma RegisterRow(w: World, step: Step, p: string)
    requires Wf(w) && step.DoRegister? && p in Reg(w)
    ensures p in Reg(Next(w, step)) && Reg(Next(w, step))[p] == RowAfter(w, step, p)
  {
    AppendAt(w, step.row, p);
    RegPaths(w);
  }

  lemma SyncRow(w: World, step: Step, p: string)
    requires Wf(w) && step.DoSync? && step.path != "" && p in Reg(w)
    ensures p in Reg(Next(w, step)) && Reg(Next(w, step))[p] == RowAfter(w, step, p)
  {
    RegPaths(w);
    var known := if step.path in Reg(w) then Reg(w)[step.path]
                 else Row(step.path, RunState, true, false, "", step.dependsOn, step.lineage);
    AppendAt(w, Persisted(Synced(known, step.lease, step.lineage, step.dependsOn)), p);
  }

  lemma ReconcileRow(w: World, step: Step, p: string)
    requires Wf(w) && step.DoReconcile? && IsStep(w, step) && p in Reg(w)
    ensures p in Reg(Next(w, step)) && Reg(Next(w, step))[p] == RowAfter(w, step, p)
  {
    ReconcileKept(w, step.ended, step.inferred, p);
  }

  // The row of a registered path after any step.
  lemma StepRow(w: World, step: Step, p: string)
    requires Wf(w) && IsStep(w, step) && p in Reg(w)
    ensures p in Reg(Next(w, step)) && Reg(Next(w, step))[p] == RowAfter(w, step, p)
  {
    match step
    case DoRegister(_) => RegisterRow(w, step, p);
    case DoSync(_, _, _, _) => SyncRow(w, step, p);
    case DoEnd(session) => if session != "" { EndRow(w, session, p); }
    case DoReconcile(_, _) => ReconcileRow(w, step, p);
    case _ =>
  }

  // A path registered by a step was registered by a producer, leased, inferred, or belongs to the registry.
  lemma StepNewRow(w: World, step: Step, p: string)
    requires Wf(w) && IsStep(w, step) && p !in Reg(w) && p in Reg(Next(w, step))
    ensures var row := Reg(Next(w, step))[p];
      || row == BootstrapRow(p)
      || (step.DoRegister? && row == step.row)
      || (step.DoSync? && step.path == p && row.lease == step.lease)
      || (step.DoReconcile? && Infer(p).Some? && row == BackfillRow(p, Infer(p).value))
  {
    RegPaths(w);
    match step
    case DoRegister(row) => if row.lineage.tool != "" && row.lineage.reason != "" { AppendAt(w, row, p); }
    case DoSync(path, lease, lineage, dependsOn) =>
      var known := if path in Reg(w) then Reg(w)[path] else Row(path, RunState, true, false, "", dependsOn, lineage);
      AppendAt(w, Persisted(Synced(known, lease, lineage, dependsOn)), p);
    case DoEnd(session) => if session != "" { EndRow(w, session, p); }
    case DoReconcile(ended, inferred) => ReconcileNew(w, ended, inferred, p);
    case _ =>
  }

  // ---------- Collectors ----------

  lemma {:induction false} RotatedDebugAt(reg: View, rows: seq<DebugFile>, now: real, total: int, p: string)
      returns (i: nat)
    requires p in RotatedDebug(reg, rows, now, total)
    ensures i < |rows| && rows[i].path == p && (p in reg ==> DeleteAllowed(reg, p))
  {
    if p == rows[0].path && (p in reg ==> DeleteAllowed(reg, p)) { return 0; }
    if p in RotatedDebug(reg, rows[1..], now, total) {
      i := RotatedDebugAt(reg, rows[1..], now, total, p);
    } else {
      i := RotatedDebugAt(reg, rows[1..], now, total - rows[0].size, p);
    }
    i := i + 1;
  }

  // The debug files that rotation leaves.
  function Remaining(rows: seq<DebugFile>, gone: set<string>): seq<DebugFile> {
    if rows == [] then []
    else if rows[0].path in gone then Remaining(rows[1..], gone)
    else [rows[0]] + Remaining(rows[1..], gone)
  }

  // Registered, and not to be deleted.
  predicate IsHeld(reg: View, path: string) {
    path in reg && !DeleteAllowed(reg, path)
  }

  predicate AllHeld(reg: View, rows: seq<DebugFile>) {
    forall i :: 0 <= i < |rows| ==> IsHeld(reg, rows[i].path)
  }

  ghost predicate DistinctPaths(rows: seq<DebugFile>) {
    forall i, j :: 0 <= i < j < |rows| ==> rows[i].path != rows[j].path
  }

  lemma {:induction false} RemainingOther(rows: seq<DebugFile>, gone: set<string>, p: string)
    requires forall i :: 0 <= i < |rows| ==> rows[i].path != p
    ensures Remaining(rows, {p} + gone) == Remaining(rows, gone)
  {
    if rows != [] { RemainingOther(rows[1..], gone, p); }
  }

  lemma {:induction false} TotalCons(row: DebugFile, rows: seq<DebugFile>)
    ensures TotalSize([row] + rows) == row.size + TotalSize(rows)
  {
    assert ([row] + rows)[1..] == rows;
  }

  // What rotation achieves on the files from here on, with this total of these and others.
  lemma {:induction false} RotationFrom(reg: View, rows: seq<DebugFile>, now: real, total: int)
    requires DistinctPaths(rows)
    ensures var left := Remaining(rows, RotatedDebug(reg, rows, now, total));
      total - TotalSize(rows) + TotalSize(left) <= DEBUG_MAX_BYTES || AllHeld(reg, left)
  {
    if rows != [] {
      var row, rest := rows[0], rows[1..];
      if (IsStale(row, now) || total > DEBUG_MAX_BYTES) && !IsHeld(reg, row.path) {
        RotationFrom(reg, rest, now, total - row.size);
        RemainingOther(rest, RotatedDebug(reg, rest, now, total - row.size), row.path);
      } else {
        RotationFrom(reg, rest, now, total);
        var left := Remaining(rest, RotatedDebug(reg, rest, now, total));
        if row.path in RotatedDebug(reg, rest, now, total) { var i := RotatedDebugAt(reg, rest, now, total, row.path); }
        TotalCons(row, left);
        RemainingAtMost(rest, RotatedDebug(reg, rest, now, total));
      }
    }
  }

  lemma {:induction false} RemainingAtMost(rows: seq<DebugFile>, gone: set<string>)
    ensures TotalSize(Remaining(rows, gone)) <= TotalSize(rows)
  {
    if rows != [] {
      RemainingAtMost(rows[1..], gone);
      TotalCons(rows[0], Remaining(rows[1..], gone));
    }
  }

  // What is stale goes; of the others the oldest go first, and none once the rest is within the cap.
  lemma {:induction false} RotatesFrom(reg: View, rows: seq<DebugFile>, now: real, total: int, i: nat, j: nat)
    requires DistinctPaths(rows) && i < |rows|
    requires !IsHeld(reg, rows[i].path)
    ensures var gone := RotatedDebug(reg, rows, now, total);
      && (IsStale(rows[i], now) ==> rows[i].path in gone)
      && (i < j < |rows| && !IsStale(rows[j], now) && rows[j].path in gone ==> rows[i].path in gone)
      && (total <= DEBUG_MAX_BYTES && !IsStale(rows[i], now) ==> rows[i].path !in gone)
  {
    hide IsStale;
    var rest := rows[1..];
    var gone := (IsStale(rows[0], now) || total > DEBUG_MAX_BYTES) && !IsHeld(reg, rows[0].path);
    var later := if gone then total - rows[0].size else total;
    if i > 0 {
      assert rest[i - 1] == rows[i];
      if j > 0 { assert j < |rows| ==> rest[j - 1] == rows[j]; }
      RotatesFrom(reg, rest, now, later, i - 1, if j > 0 then j - 1 else 0);
    } else if !gone {
      if j < |rows| && j > 0 && !IsStale(rows[j], now) && !IsHeld(reg, rows[j].path) {
        assert rest[j - 1] == rows[j];
        RotatesFrom(reg, rest, now, later, j - 1, 0);
      }
      if rows[0].path in RotatedDebug(reg, rest, now, later) {
        var k := RotatedDebugAt(reg, rest, now, later, rows[0].path);
      }
      if 0 < j < |rows| && rows[j].path in RotatedDebug(reg, rows, now, total) {
        var k := RotatedDebugAt(reg, rows, now, total, rows[j].path);
      }
    }
  }

  // Whether a rotation leaves a listed debug file.
  lemma RotationLeaves(w: World, step: Step, i: nat)
    requires step.DoRotate? && IsStep(w, step) && i < |step.debug|
    ensures var p := step.debug[i].path;
      && (p in Next(w, step).files <==> p !in RotatedDebug(Reg(w), step.debug, step.now, TotalSize(step.debug)))
      && (IsHeld(Reg(w), p) ==> p in Next(w, step).files)
  {
    hide Latest, IsScanned, IsLock, IsDebug, RotatedDebug, RotatedFirst, AreBackups;
    var p := step.debug[i].path;
    assert IsDebugOnDisk(Without(w, RotatedFirst(w, step.protected, step.backups)), p);
    if p in RotatedDebug(Reg(w), step.debug, step.now, TotalSize(step.debug)) {
      var k := RotatedDebugAt(Reg(w), step.debug, step.now, TotalSize(step.debug), p);
    }
  }

  lemma {:induction false} RemainingAt(rows: seq<DebugFile>, gone: set<string>, p: string)
    ensures IsListed(Remaining(rows, gone), p) <==> IsListed(rows, p) && p !in gone
  {
    if rows != [] {
      hide IsListed;
      RemainingAt(rows[1..], gone, p);
      ListedCons(rows[0], Remaining(rows[1..], gone), p);
      ListedCons(rows[0], rows[1..], p);
      assert rows == [rows[0]] + rows[1..];
    } else {
      assert Remaining(rows, gone) == [];
    }
  }

  lemma ListedCons(row: DebugFile, rows: seq<DebugFile>, p: string)
    ensures IsListed([row] + rows, p) <==> row.path == p || IsListed(rows, p)
  {
    var all := [row] + rows;
    assert all[0] == row;
    if i :| 0 <= i < |rows| && rows[i].path == p { assert all[i + 1] == rows[i]; }
  }

  // The rows of the debug files that are on disk after a rotation.
  function LeftOf(w: World, step: Step): seq<DebugFile>
    requires step.DoRotate?
  {
    Remaining(step.debug, RotatedDebug(Reg(w), step.debug, step.now, TotalSize(step.debug)))
  }

  // After a rotation these are all debug files on disk, and they are within the cap unless all of them
  // are held.
  lemma RotationMeetsCap(w: World, step: Step)
    requires step.DoRotate? && IsStep(w, step)
    ensures forall p :: IsDebugOnDisk(Next(w, step), p) <==> IsListed(LeftOf(w, step), p)
    ensures TotalSize(LeftOf(w, step)) <= DEBUG_MAX_BYTES || AllHeld(Reg(w), LeftOf(w, step))
  {
    var gone := RotatedDebug(Reg(w), step.debug, step.now, TotalSize(step.debug));
    forall p ensures IsDebugOnDisk(Next(w, step), p) <==> IsListed(LeftOf(w, step), p) {
      RemainingAt(step.debug, gone, p);
      OnDiskAfter(w, step, p);
    }
    RotationFrom(Reg(w), step.debug, step.now, TotalSize(step.debug));
  }

  lemma OnDiskAfter(w: World, step: Step, p: string)
    requires step.DoRotate? && IsStep(w, step)
    ensures IsDebugOnDisk(Next(w, step), p)
       <==> IsListed(step.debug, p) && p !in RotatedDebug(Reg(w), step.debug, step.now, TotalSize(step.debug))
  {
    hide Latest, IsScanned, IsLock, IsDebug, RotatedDebug, RotatedFirst, AreBackups;
    if i :| 0 <= i < |step.debug| && step.debug[i].path == p { RotationLeaves(w, step, i); }
  }

  lemma DistinctDebug(rows: seq<DebugFile>, w: World)
    requires AreDebugFiles(rows, w)
    ensures DistinctPaths(rows)
  {
    hide IsDebugOnDisk;
  }

  lemma OlderIsBefore(rows: seq<DebugFile>, w: World, now: real, i: nat, j: nat)
    requires AreDebugFiles(rows, w) && i < |rows| && j < |rows| && rows[i].modified < rows[j].modified
    ensures i < j && (IsStale(rows[j], now) ==> IsStale(rows[i], now))
  {
    hide IsDebugOnDisk;
  }

  // What is stale goes, a file that is not held goes before any younger one, none that is not stale goes
  // while all are within the cap, and held ones stay.
  lemma RotatesOldestFirst(w: World, step: Step, i: nat, j: nat)
    requires step.DoRotate? && IsStep(w, step) && i < |step.debug|
    ensures var row, files := step.debug[i], Next(w, step).files;
      if IsHeld(Reg(w), row.path) then row.path in files
      else
        && (IsStale(row, step.now) ==> row.path !in files)
        && (j < |step.debug| && row.modified < step.debug[j].modified && step.debug[j].path !in files ==>
            row.path !in files)
        && (TotalSize(step.debug) <= DEBUG_MAX_BYTES && !IsStale(row, step.now) ==> row.path in files)
  {
    var onDisk := Without(w, RotatedFirst(w, step.protected, step.backups));
    assert AreDebugFiles(step.debug, onDisk);
    hide Next, RotatedDebug, IsStale, AreDebugFiles, IsHeld, DistinctPaths;
    RotationLeaves(w, step, i);
    DistinctDebug(step.debug, onDisk);
    if j < |step.debug| {
      RotationLeaves(w, step, j);
      if step.debug[i].modified < step.debug[j].modified { OlderIsBefore(step.debug, onDisk, step.now, i, j); }
    }
    if !IsHeld(Reg(w), step.debug[i].path) {
      RotatesFrom(Reg(w), step.debug, step.now, TotalSize(step.debug), i, j);
    }
  }

  lemma RotatedFirstAt(w: World, protected: set<string>, backups: seq<BackupFile>, p: string)
    requires AreBackups(backups, Without(w, SafePlan(w, protected)))
    requires p in RotatedFirst(w, protected, backups)
    ensures if p in Reg(w) then DeleteAllowed(Reg(w), p) else StartsWith(p, ".apatch/backups/")
  {
    if p !in SafePlan(w, protected) {
      var i :| 0 <= i < |Excess(backups)| && Excess(backups)[i] == p;
      assert backups[i].path == p && IsBackupOnDisk(Without(w, SafePlan(w, protected)), p);
    }
  }

  // A protected backup, or anything below one, stays, unless it is registered as a debug file and goes
  // with those.
  lemma ProtectedBackupStays(w: World, step: Step, p: string, kept: string)
    requires (step.DoSafe? || step.DoRotate?) && IsStep(w, step)
    requires kept in step.protected && (p == kept || kept + "/" <= p)
    ensures p in Deletes(w, step) ==> step.DoRotate? && IsListed(step.debug, p)
  {
    assert IsProtectedBackup(p, step.protected) by { assert Under(p, kept); }
    if step.DoRotate? && p in RotatedDebug(Reg(w), step.debug, step.now, TotalSize(step.debug)) {
      var i := RotatedDebugAt(Reg(w), step.debug, step.now, TotalSize(step.debug), p);
    }
  }

  // The paths that keep a backup however old it is: protected, or registered and not to be deleted.
  predicate IsKeptBack(w: World, protected: set<string>, path: string) {
    IsProtectedBackup(path, protected) || IsHeld(Reg(w), path)
  }

  // Of the backups left by the safe plan, the one at position i, counted from the oldest, is rotated away
  // exactly if more than fifty are not older than it, and nothing keeps it.
  lemma BackupRotatesExactly(w: World, step: Step, i: nat)
    requires step.DoRotate? && IsStep(w, step) && i < |step.backups|
    ensures var p := step.backups[i].path;
      p in RotatedFirst(w, step.protected, step.backups) <==>
        |step.backups| - i > 50 && !IsKeptBack(w, step.protected, p)
  {
    var p, excess := step.backups[i].path, Excess(step.backups);
    assert IsBackupOnDisk(Without(w, SafePlan(w, step.protected)), p);
    if p in excess {
      var k :| 0 <= k < |excess| && excess[k] == p;
      assert step.backups[k].path == p && k == i;
    }
    if i < |excess| { assert excess[i] == p; }
  }

  // So the oldest go first: when a backup is rotated away, every older one is unless something keeps it.
  lemma OldestBackupsGoFirst(w: World, step: Step, i: nat, j: nat)
    requires step.DoRotate? && IsStep(w, step) && i < |step.backups| && j < |step.backups|
    requires step.backups[i].modified < step.backups[j].modified
    requires step.backups[j].path in RotatedFirst(w, step.protected, step.backups)
    requires !IsKeptBack(w, step.protected, step.backups[i].path)
    ensures step.backups[i].path in RotatedFirst(w, step.protected, step.backups)
  {
    hide RotatedFirst, IsKeptBack;
    BackupRotatesExactly(w, step, i);
    BackupRotatesExactly(w, step, j);
  }

  // A backup still there after a rotation is one of the newest fifty before it, or something keeps it.
  lemma BackupsLeft(w: World, step: Step, p: string) returns (i: nat)
    requires step.DoRotate? && IsStep(w, step)
    requires StartsWith(p, ".apatch/backups/") && p in Next(w, step).files
    ensures i < |step.backups| && step.backups[i].path == p
    ensures |step.backups| - i <= 50 || IsKeptBack(w, step.protected, p)
  {
    var onDisk := Without(w, SafePlan(w, step.protected));
    assert IsBackupOnDisk(onDisk, p) && IsBackupListed(step.backups, p);
    i :| 0 <= i < |step.backups| && step.backups[i].path == p;
    BackupRotatesExactly(w, step, i);
  }

  // The safe collector leaves no file it may delete.
  lemma SafePlanIsComplete(w: World, protected: set<string>, p: string)
    requires p in w.files && p !in SafePlan(w, protected)
    ensures p !in Reg(w) || !DeleteAllowed(Reg(w), p)
            || exists kept :: kept in protected && (p == kept || kept + "/" <= p)
  {
  }

  // Neither collector mode deletes a protected path, a leased one, or one a leased path is kept for.
  lemma CollectorsSpare(w: World, step: Step, p: string)
    requires step.DoSafe? || step.DoRotate?
    requires IsStep(w, step) && p in Deletes(w, step)
    ensures !IsStatic(p) && !Leased(Reg(w), p)
    ensures p in Reg(w) ==> DeleteAllowed(Reg(w), p)
    ensures p !in Reg(w) ==> step.DoRotate? && (StartsWith(p, ".apatch/backups/") || IsDebugFile(p))
  {
    if step.DoRotate? {
      if p in RotatedFirst(w, step.protected, step.backups) {
        RotatedFirstAt(w, step.protected, step.backups, p);
        if p !in Reg(w) { BackupIsNotStatic(p); }
      } else {
        var i := RotatedDebugAt(Reg(w), step.debug, step.now, TotalSize(step.debug), p);
        assert IsDebugOnDisk(Without(w, RotatedFirst(w, step.protected, step.backups)), step.debug[i].path);
        if p !in Reg(w) { DebugIsNotStatic(p); }
      }
    }
  }

  // The plan of the safe collector always passes the check made before deleting, against the
  // registry it was collected from.
  lemma SafePlanIsValid(w: World, protected: set<string>)
    ensures ValidPlan(SafePlan(w, protected), Reg(w))
    ensures SafePlan(w, protected) <= w.files
    ensures forall p :: p in SafePlan(w, protected) ==> !IsStatic(p) && p in Reg(w) && DeleteAllowed(Reg(w), p)
  {
  }

  // ---------- Leases ----------

  // A lease is only ever taken by registering with one or by a run-state sync with one.
  lemma LeasesAreTaken(w: World, step: Step, p: string)
    requires Wf(w) && IsStep(w, step)
    requires !Leased(Reg(w), p) && Leased(Reg(Next(w, step)), p)
    ensures (step.DoRegister? && step.row.path == p && step.row.lease != "")
            || (step.DoSync? && step.path == p && step.lease != "")
  {
    RegPaths(Next(w, step));
    if p in Reg(w) { StepRow(w, step, p); } else { StepNewRow(w, step, p); }
  }

  // The steps that take the lease of p away.
  predicate Frees(w: World, step: Step, p: string)
    requires p in Reg(w)
  {
    match step
    case DoRegister(row) => row.path == p && row.lease == "" && row.lineage.tool != "" && row.lineage.reason != ""
    case DoSync(path, lease, _, _) => path == p && lease == ""
    case DoEnd(session) => session != "" && IsEndingRow(Reg(w)[p], session)
    case DoReconcile(ended, _) => NeedsRepair(w, Reg(w), p) || Releases(w, Reg(w), ended, p)
    case _ => false
  }

  lemma LeaseStaysExactly(w: World, step: Step, p: string)
    requires Wf(w) && IsStep(w, step) && Leased(Reg(w), p)
    ensures Leased(Reg(Next(w, step)), p) <==> !Frees(w, step, p)
  {
    hide Next, Canonical, IsStep;
    StepRow(w, step, p);
  }

  predicate IsSiblingOf(path: string, reg: View, session: string) {
    session != "" && EndsWith(path, ".lock") && Disposable(reg, session, path[..|path| - 5])
  }

  // What deleting a session's logs removes: its own disposable logs, and the ".lock" siblings of those
  // under whatever row they have.
  lemma DisposedExactly(w: World, session: string, p: string)
    ensures p in DisposedOf(w, session)
       <==> (session != "" && Disposable(Reg(w), session, p)) || IsSiblingOf(p, Reg(w), session)
  {
    if IsSiblingOf(p, Reg(w), session) { assert p == p[..|p| - 5] + ".lock"; }
    if q :| q in Reg(w) && Disposable(Reg(w), session, q) && p == q + ".lock" {
      assert p[..|p| - 5] == q && EndsWith(p, ".lock");
    }
  }

  // A leased path is deleted by a collecting step exactly when it is named like the lock of a
  // disposable log whose session is being cleaned up.
  lemma LeasedIsDeletedExactly(w: World, step: Step, p: string)
    requires IsStep(w, step) && Leased(Reg(w), p)
    ensures p in Deletes(w, step) <==> step.DoDispose? && IsSiblingOf(p, Reg(w), step.session)
  {
    if step.DoDispose? {
      DisposedExactly(w, step.session, p);
    } else if p in Deletes(w, step) && (step.DoSafe? || step.DoRotate?) {
      CollectorsSpare(w, step, p);
    }
  }

  lemma RunSnoc(w: World, steps: seq<Step>, step: Step)
    ensures Run(w, steps + [step]) == Next(Run(w, steps), step)
    ensures IsRun(w, steps + [step]) <==> IsRun(w, steps) && IsStep(Run(w, steps), step)
  {
    assert (steps + [step])[..|steps|] == steps;
  }

  function LogRow(q: string, session: string): Row {
    Row(q, Ephemeral, false, true, "", [], Lineage("producer", "patch log", session))
  }

  function LeasedRow(p: string, lease: string): Row {
    Row(p, RunState, true, false, lease, [], Lineage("producer", "run state", ""))
  }

  // Such a case is reached from every state: a session registers its log q, someone else leases the file
  // q + ".lock", and disposing of the session's logs deletes it.
  lemma LeasedLockIsDeleted(w: World, q: string, session: string, lease: string)
    requires Wf(w) && session != "" && lease != "" && q != "" && !IsLock(q)
    ensures var p := q + ".lock";
      var steps := [DoCreate(p)] + [DoRegister(LogRow(q, session))] + [DoRegister(LeasedRow(p, lease))];
      && IsRun(w, steps) && p in Run(w, steps).files && Leased(Reg(Run(w, steps)), p)
      && p !in Next(Run(w, steps), DoDispose(session)).files
  {
    hide IsLock, Latest, IsStatic, Bootstrap, Canonical, DeleteAllowed, Infer, DisposedOf, Append;
    var p := q + ".lock";
    var create, log, lock := DoCreate(p), DoRegister(LogRow(q, session)), DoRegister(LeasedRow(p, lease));
    assert [] + [create] == [create];
    RunSnoc(w, [], create);
    RunSnoc(w, [create], log);
    RunSnoc(w, [create] + [log], lock);
    var w1 := Run(w, [create]);
    var w2 := Run(w, [create] + [log]);
    AppendAt(w1, LogRow(q, session), q);
    AppendAt(w2, LeasedRow(p, lease), q);
    AppendAt(w2, LeasedRow(p, lease), p);
    assert p[..|p| - 5] == q && EndsWith(p, ".lock");
    DisposedExactly(Run(w, [create] + [log] + [lock]), session, p);
  }

  // No step of the run frees the lease, removes the file from outside, or cleans it up as a lock.
  ghost predicate Spared(w: World, steps: seq<Step>, p: string)
    decreases |steps|
  {
    steps == []
    || var w1, step := Run(w, steps[..|steps| - 1]), steps[|steps| - 1];
       && Spared(w, steps[..|steps| - 1], p) && (p in Reg(w1) ==> !Frees(w1, step, p)) && step != DoRemove(p)
       && !(step.DoDispose? && IsSiblingOf(p, Reg(w1), step.session))
  }

  // In every interleaving a leased file survives until its lease is freed.
  lemma {:induction false} LeasedSurvives(w: World, steps: seq<Step>, p: string)
    requires Wf(w) && IsRun(w, steps) && Spared(w, steps, p)
    requires Leased(Reg(w), p) && p in w.files
    ensures Leased(Reg(Run(w, steps)), p) && p in Run(w, steps).files
    ensures SameStore(w, Run(w, steps))
    decreases |steps|
  {
    if steps != [] {
      var before, step := steps[..|steps| - 1], steps[|steps| - 1];
      LeasedSurvives(w, before, p);
      var w1 := Run(w, before);
      StepFiles(w1, step, p);
      LeaseStaysExactly(w1, step, p);
      LeasedIsDeletedExactly(w1, step, p);
    }
  }

  // ---------- Ending a session ----------

  predicate IsLogOf(w: World, session: string, q: string) {
    q in Reg(w) && Reg(w)[q].class_ == Ephemeral && OwnedBy(Reg(w)[q], session) && !IsLock(q)
  }

  // After the release, the session may dispose of exactly its own logs.
  lemma EndingReleasesExactly(w: World, session: string, q: string)
    requires Wf(w) && session != ""
    ensures Disposable(Reg(EndSession(w, session)), session, q) <==> IsLogOf(w, session, q)
  {
    hide EndSession, Latest, IsStatic;
    EndRow(w, session, q);
  }

  function EndAndDispose(w: World, session: string): World {
    Without(EndSession(w, session), DisposedOf(EndSession(w, session), session))
  }

  // Ending a session and disposing of its logs leaves the rows of everyone else as they are.
  lemma EndingKeepsOtherRows(w: World, session: string, p: string)
    requires Wf(w) && session != "" && p in Reg(w) && !OwnedBy(Reg(w)[p], session)
    ensures p in Reg(EndAndDispose(w, session)) && Reg(EndAndDispose(w, session))[p] == Reg(w)[p]
  {
    EndRow(w, session, p);
  }

  predicate IsLogOrLock(w: World, session: string, p: string) {
    IsLogOf(w, session, p) || (EndsWith(p, ".lock") && IsLogOf(w, session, p[..|p| - 5]))
  }

  // Of the files it deletes exactly the session's own logs and their lock siblings.
  lemma EndingDeletesExactly(w: World, session: string, p: string)
    requires Wf(w) && session != "" && p in w.files
    ensures p !in EndAndDispose(w, session).files <==> IsLogOrLock(w, session, p)
  {
    EndFiles(w, session, p);
    DisposedExactly(EndSession(w, session), session, p);
    EndingReleasesExactly(w, session, p);
    if EndsWith(p, ".lock") { EndingReleasesExactly(w, session, p[..|p| - 5]); }
  }

  // ---------- Reconcile ----------

  // Nothing that can be inferred stays unregistered, the registry's own files included.
  lemma ReconcileCompletes(w: World, ended: map<string, string>, inferred: seq<string>, p: string)
    requires Wf(w) && Lists(inferred, w)
    ensures !Inferable(Reconcile(w, ended, inferred), p)
  {
    hide Reconcile, Infer, IsScanned, IsLock, Latest, Canonical, RowAfter, Releases;
    StoreRegistered(w, ended, inferred);
    if p in Reg(w) {
      StepRow(w, DoReconcile(ended, inferred), p);
    } else {
      ReconcileNew(w, ended, inferred, p);
    }
  }

  // Backfilled, and of its canonical class if it has one.
  predicate IsKeptBackfill(reg: View, p: string) {
    p in reg && IsBackfill(reg[p]) && (Canonical(p).Some? ==> reg[p].class_ == Canonical(p).value)
  }

  lemma ReconcileBackfills(w: World, ended: map<string, string>, inferred: seq<string>, p: string)
    requires Wf(w) && Lists(inferred, w) && Inferable(w, p)
    ensures IsKeptBackfill(Reg(Reconcile(w, ended, inferred)), p)
  {
    ReconcileNew(w, ended, inferred, p);
    if Canonical(p).Some? { InferCanonical(p); }
  }

  lemma InferCanonical(p: string)
    requires Canonical(p).Some?
    ensures Infer(p) == Canonical(p)
  {
  }

  lemma BackfillRowAfter(w: World, step: Step, p: string, class_: Option<Class>)
    requires p in Reg(w) && IsBackfill(Reg(w)[p]) && !(step.DoRegister? && step.row.path == p)
    requires class_ == None || class_ == Some(RunState)
    requires class_.Some? ==> Reg(w)[p].class_ == RunState
    requires step.DoReconcile? ==> !NeedsRepair(w, Reg(w), p)
    ensures IsBackfill(RowAfter(w, step, p)) && (class_.Some? ==> RowAfter(w, step, p).class_ == RunState)
  {
    hide Canonical, Latest, IsStatic;
  }

  lemma BackfillStep(w: World, step: Step, p: string)
    requires Wf(w) && IsStep(w, step) && !(step.DoRegister? && step.row.path == p)
    requires Canonical(p).None? || Canonical(p) == Some(RunState)
    requires IsKeptBackfill(Reg(w), p)
    ensures IsKeptBackfill(Reg(Next(w, step)), p)
  {
    StepRow(w, step, p);
    BackfillRowAfter(w, step, p, Canonical(p));
  }

  ghost predicate NeverRegisters(steps: seq<Step>, p: string) {
    forall i :: 0 <= i < |steps| ==> !(steps[i].DoRegister? && steps[i].row.path == p)
  }

  lemma StaticIsNeverAllowed(reg: View, p: string)
    ensures IsStatic(p) ==> !DeleteAllowed(reg, p)
  {
  }

  lemma {:induction false} BackfillIsKept(w: World, steps: seq<Step>, p: string)
    requires Wf(w) && IsRun(w, steps) && NeverRegisters(steps, p)
    requires Canonical(p).None? || Canonical(p) == Some(RunState)
    requires IsKeptBackfill(Reg(w), p)
    ensures IsKeptBackfill(Reg(Run(w, steps)), p)
    ensures SameStore(w, Run(w, steps))
    decreases |steps|
  {
    if steps != [] {
      var before, step := steps[..|steps| - 1], steps[|steps| - 1];
      assert forall i :: 0 <= i < |before| ==> before[i] == steps[i];
      BackfillIsKept(w, before, p);
      BackfillStep(Run(w, before), step, p);
    }
  }

  // Its name is a canonical one of another class than run state, and not a protected one.
  predicate LosesBackfill(p: string) {
    Canonical(p).Some? && Canonical(p) != Some(RunState) && !IsStatic(p)
  }

  // A backfilled path may not be deleted in any later run until a producer registers it, unless its
  // name is of this kind.
  lemma BackfillIsNoPermission(w: World, steps: seq<Step>, p: string)
    requires Wf(w) && IsRun(w, steps) && NeverRegisters(steps, p)
    requires IsKeptBackfill(Reg(w), p) && !LosesBackfill(p)
    ensures !DeleteAllowed(Reg(Run(w, steps)), p)
  {
    if IsStatic(p) { StaticIsNeverAllowed(Reg(Run(w, steps)), p); } else { BackfillIsKept(w, steps, p); }
  }

  function BackfillLosingSteps(p: string, lineage: Lineage, inferred: seq<string>): seq<Step> {
    [DoSync(p, "lease", lineage, [])] + [DoReconcile(map[], inferred)] + [DoSync(p, "", lineage, [])]
  }

  lemma LosingStepsRegisterNothing(p: string, lineage: Lineage, inferred: seq<string>)
    ensures NeverRegisters(BackfillLosingSteps(p, lineage, inferred), p)
  {
  }

  lemma LeaseMakesRunState(w: World, p: string, lineage: Lineage)
    requires Wf(w) && p in w.files && p in Reg(w)
    ensures var steps := [DoSync(p, "lease", lineage, [])];
      IsRun(w, steps) && Wf(Run(w, steps)) && p in Run(w, steps).files && p in Reg(Run(w, steps))
      && Reg(Run(w, steps))[p].class_ == RunState
  {
    RegPaths(w);
    var s0 := DoSync(p, "lease", lineage, []);
    RunSnoc(w, [], s0);
    assert [] + [s0] == [s0];
    StepFiles(w, s0, p);
    StepRow(w, s0, p);
  }

  lemma ReconcileRepairs(w: World, steps: seq<Step>, p: string, inferred: seq<string>)
    requires IsRun(w, steps) && Wf(Run(w, steps)) && Lists(inferred, Run(w, steps))
    requires p in Run(w, steps).files && p in Reg(Run(w, steps)) && Reg(Run(w, steps))[p].class_ == RunState
    requires Canonical(p).Some? && Canonical(p) != Some(RunState)
    ensures var after := steps + [DoReconcile(map[], inferred)];
      IsRun(w, after) && Wf(Run(w, after)) && p in Reg(Run(w, after))
      && Reg(Run(w, after))[p] == RepairRow(p, Canonical(p).value)
  {
    hide Latest, Canonical, Infer, Lists, IsRun, Run, Next;
    RunSnoc(w, steps, DoReconcile(map[], inferred));
    StepRow(Run(w, steps), DoReconcile(map[], inferred), p);
  }

  lemma RepairedThenReleased(reg: View, p: string, c: Class, lineage: Lineage)
    requires p in reg && reg[p] == Persisted(Synced(RepairRow(p, c), "", lineage, [])) && !IsStatic(p) && !IsLock(p)
    ensures DeleteAllowed(reg, p)
  {
  }

  lemma ReleaseAllows(w: World, steps: seq<Step>, p: string, c: Class, lineage: Lineage)
    requires IsRun(w, steps) && Wf(Run(w, steps)) && !IsStatic(p) && !IsLock(p)
    requires p in Reg(Run(w, steps)) && Reg(Run(w, steps))[p] == RepairRow(p, c)
    ensures var after := steps + [DoSync(p, "", lineage, [])];
      IsRun(w, after) && DeleteAllowed(Reg(Run(w, after)), p)
  {
    var step := DoSync(p, "", lineage, []);
    RegPaths(Run(w, steps));
    RunSnoc(w, steps, step);
    SyncRow(Run(w, steps), step, p);
    RepairedThenReleased(Reg(Run(w, steps + [step])), p, c, lineage);
  }

  // Under the other canonical names the protection is lost without any producer: a lease turns the
  // file into run state, the next reconcile repairs the class and with it replaces the lineage, and
  // the release allows deletion.
  lemma CanonicalBackfillIsLost(w: World, p: string, lineage: Lineage, inferred: seq<string>)
    requires Wf(w) && p in w.files && IsKeptBackfill(Reg(w), p)
    requires LosesBackfill(p)
    requires Lists(inferred, Run(w, [DoSync(p, "lease", lineage, [])]))
    ensures var steps := BackfillLosingSteps(p, lineage, inferred);
      IsRun(w, steps) && NeverRegisters(steps, p) && DeleteAllowed(Reg(Run(w, steps)), p)
  {
    LosingStepsRegisterNothing(p, lineage, inferred);
    LeaseMakesRunState(w, p, lineage);
    ReconcileRepairs(w, [DoSync(p, "lease", lineage, [])], p, inferred);
    ReleaseAllows(w, [DoSync(p, "lease", lineage, [])] + [DoReconcile(map[], inferred)], p, Canonical(p).value,
                  lineage);
  }

  lemma InferableOf(w: World) returns (inferred: seq<string>)
    ensures Lists(inferred, w)
  {
    inferred := [];
    var todo := set p | p in w.files && Inferable(w, p) :: p;
    while todo != {}
      invariant forall p :: p in todo || p in inferred <==> Inferable(w, p)
      decreases |todo|
    {
      var p :| p in todo;
      inferred := inferred + [p];
      todo := todo - {p};
    }
  }

  // The condition is exact for every backfilled file.
  lemma BackfillLostExactly(w: World, p: string)
    requires Wf(w) && p in w.files && IsKeptBackfill(Reg(w), p)
    ensures (exists steps :: IsRun(w, steps) && NeverRegisters(steps, p) && DeleteAllowed(Reg(Run(w, steps)), p))
       <==> LosesBackfill(p)
  {
    if LosesBackfill(p) {
      var lineage := Lineage("", "", "");
      var inferred := InferableOf(Run(w, [DoSync(p, "lease", lineage, [])]));
      CanonicalBackfillIsLost(w, p, lineage, inferred);
    } else if steps :| IsRun(w, steps) && NeverRegisters(steps, p) && DeleteAllowed(Reg(Run(w, steps)), p) {
      BackfillIsNoPermission(w, steps, p);
    }
  }
}
