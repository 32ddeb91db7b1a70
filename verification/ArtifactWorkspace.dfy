/** The operations on a workspace's registry and files, in the imperative form of
    apatch/artifact_governance.py, each proved equal to the step of the same name. */
module ArtifactWorkspace {
  import opened ArtifactPaths
  import opened ArtifactRegistry
  import opened ArtifactSafety

  function DisposedUpTo(reg: View, session: string, paths: seq<string>): set<string> {
    if paths == [] then {}
    else
      var before, p := DisposedUpTo(reg, session, paths[..|paths| - 1]), paths[|paths| - 1];
      if Disposable(reg, session, p) then before + {p, p + ".lock"} else before
  }

  predicate IsAmong(reg: View, session: string, paths: seq<string>, p: string) {
    p in paths && Disposable(reg, session, p)
  }

  lemma {:induction false} DisposedUpToAt(reg: View, session: string, paths: seq<string>, p: string)
    ensures p in DisposedUpTo(reg, session, paths)
       <==> IsAmong(reg, session, paths, p) || (EndsWith(p, ".lock") && IsAmong(reg, session, paths, p[..|p| - 5]))
  {
    if paths != [] {
      var rest, q := paths[..|paths| - 1], paths[|paths| - 1];
      DisposedUpToAt(reg, session, rest, p);
      assert paths == rest + [q];
      assert p == q + ".lock" <==> EndsWith(p, ".lock") && p[..|p| - 5] == q by {
        if EndsWith(p, ".lock") { assert p == p[..|p| - 5] + ".lock"; }
      }
    }
  }

  lemma DisposedUpToAll(w: World, session: string)
    requires session != ""
    ensures DisposedUpTo(Reg(w), session, Paths(w.log)) == DisposedOf(w, session)
  {
    forall p ensures p in DisposedUpTo(Reg(w), session, Paths(w.log)) <==> p in DisposedOf(w, session) {
      DisposedUpToAt(Reg(w), session, Paths(w.log), p);
      DisposedExactly(w, session, p);
    }
  }

  // A path named like the lock of a disposable path before it is gone when its turn comes.
  predicate GoneBefore(reg: View, session: string, paths: seq<string>, p: string) {
    exists i, j ::
      0 <= i < j < |paths| && paths[j] == p && p == paths[i] + ".lock" && Disposable(reg, session, paths[i])
  }

  // What is reported among the first n paths.
  function Reported(reg: View, session: string, paths: seq<string>, n: nat, files: set<string>): set<string>
    requires n <= |paths|
  {
    set p | p in files && p in paths[..n] && Disposable(reg, session, p) && !GoneBefore(reg, session, paths, p) :: p
  }

  // delete_gc_allowed_session_ephemerals reports the disposable files it found.
  function ReportedOf(w: World, session: string): set<string> {
    if session == "" then {} else Reported(Reg(w), session, Paths(w.log), |Paths(w.log)|, w.files)
  }

  lemma NothingYet(reg: View, session: string, paths: seq<string>, files: set<string>)
    ensures DisposedUpTo(reg, session, paths[..0]) == {} && Reported(reg, session, paths, 0, files) == {}
  {
  }

  lemma DisposedNext(reg: View, session: string, paths: seq<string>, i: nat)
    requires i < |paths|
    ensures DisposedUpTo(reg, session, paths[..i + 1])
         == DisposedUpTo(reg, session, paths[..i])
           + if Disposable(reg, session, paths[i]) then {paths[i], paths[i] + ".lock"} else {}
  {
    assert paths[..i + 1][..i] == paths[..i];
  }

  lemma FoundAtTurn(reg: View, session: string, paths: seq<string>, i: nat, files: set<string>)
    requires i < |paths| && forall k, j :: 0 <= k < j < |paths| ==> paths[k] != paths[j]
    ensures paths[i] in DisposedUpTo(reg, session, paths[..i]) <==> GoneBefore(reg, session, paths, paths[i])
    ensures var found := paths[i] in files && Disposable(reg, session, paths[i])
            && !GoneBefore(reg, session, paths, paths[i]);
      Reported(reg, session, paths, i + 1, files)
        == Reported(reg, session, paths, i, files) + if found then {paths[i]} else {}
  {
    var p := paths[i];
    assert paths[..i + 1] == paths[..i] + [p];
    DisposedUpToAt(reg, session, paths[..i], p);
    if EndsWith(p, ".lock") && IsAmong(reg, session, paths[..i], p[..|p| - 5]) {
      var k :| 0 <= k < i && paths[k] == p[..|p| - 5];
      assert p == paths[k] + ".lock" && paths[i] == p;
    }
    if GoneBefore(reg, session, paths, p) {
      var k, j :| 0 <= k < j < |paths| && paths[j] == p && p == paths[k] + ".lock"
                  && Disposable(reg, session, paths[k]);
      assert j == i && p[..|p| - 5] == paths[k] && paths[k] in paths[..i];
    }
  }

  // Reported are exactly the disposable files, but for those whose name is the lock of one of them.
  lemma ReportedExactly(w: World, session: string, p: string)
    ensures p in ReportedOf(w, session) ==> p in w.files && p in DisposedOf(w, session)
    ensures session != "" && p in w.files && Disposable(Reg(w), session, p) && !EndsWith(p, ".lock") ==>
              p in ReportedOf(w, session)
  {
    if session != "" && GoneBefore(Reg(w), session, Paths(w.log), p) {
      var k :| 0 <= k < |Paths(w.log)| && p == Paths(w.log)[k] + ".lock";
      assert p[|p| - 5..] == ".lock";
    }
    assert Paths(w.log)[..|Paths(w.log)|] == Paths(w.log);
  }

  class Workspace {
    var log: seq<Row>
    var files: set<string>
    const artifacts: string
    const provenance: string

    constructor (log: seq<Row>, files: set<string>, artifacts: string, provenance: string)
      ensures W() == World(log, files, artifacts, provenance)
    {
      this.log, this.files, this.artifacts, this.provenance := log, files, artifacts, provenance;
    }

    function W(): World
      reads this
    {
      World(log, files, artifacts, provenance)
    }

    method LoadRegistry() returns (reg: View)
      ensures reg == Reg(W())
    {
      reg := map[];
      for i := 0 to |log|
        invariant reg == Latest(log[..i])
      {
        if log[i].path != "" { reg := reg[log[i].path := log[i]]; }
        assert log[..i + 1] == log[..i] + [log[i]];
        LatestSnoc(log[..i], log[i]);
      }
      assert log[..|log|] == log;
    }

    method BootstrapStore()
      modifies this`log
      ensures W() == Bootstrap(Bootstrap(old(W()), artifacts), provenance)
    {
      var existing := LoadRegistry();
      if artifacts !in existing && artifacts in files {
        log := log + [BootstrapRow(artifacts)];
        LatestSnoc(old(log), BootstrapRow(artifacts));
        if artifacts != "" { existing := existing[artifacts := BootstrapRow(artifacts)]; }
      }
      if provenance !in existing && provenance in files {
        log := log + [BootstrapRow(provenance)];
      }
    }

    method AppendRow(row: Row)
      modifies this
      ensures W() == Append(old(W()), row)
    {
      log := log + [row];
      files := files + {artifacts, provenance};
      BootstrapStore();
    }

    method RegisterArtifact(row: Row) returns (ok: bool)
      modifies this
      ensures ok <==> row.lineage.tool != "" && row.lineage.reason != ""
      ensures W() == Register(old(W()), row)
    {
      ok := row.lineage.tool != "" && row.lineage.reason != "";
      if ok { AppendRow(row); }
    }

    method PersistEntry(row: Row)
      modifies this
      ensures W() == Persist(old(W()), row)
    {
      var lineage := row.lineage;
      if lineage.tool == "" { lineage := lineage.(tool := "apatch_artifact_governance"); }
      if lineage.reason == "" { lineage := lineage.(reason := "registry update"); }
      AppendRow(row.(lineage := lineage));
    }

    method SyncRunStateRegistry(path: string, lease: string, lineage: Lineage, dependsOn: seq<string>)
      modifies this
      ensures W() == SyncRunState(old(W()), path, lease, lineage, dependsOn)
    {
      var reg := LoadRegistry();
      var entry := if path in reg then reg[path] else Row(path, RunState, true, false, "", dependsOn, lineage);
      if lease != "" { entry := Acquired(entry, lease); } else { entry := Released(entry); }
      if lineage.session != "" { entry := entry.(lineage := entry.lineage.(session := lineage.session)); }
      if dependsOn != [] { entry := entry.(dependsOn := dependsOn); }
      PersistEntry(entry);
    }

    // No row is owned by the empty session.
    method ReleaseSessionCleanup(session: string)
      modifies this
      ensures W() == EndSession(old(W()), session)
    {
      if session == "" { return; }
      var reg := LoadRegistry();
      var paths := Paths(log);
      for i := 0 to |paths|
        invariant W() == Cleanup(old(W()), reg, session, paths[..i])
      {
        CleanupNext(old(W()), reg, session, paths, i);
        ReleaseRow(reg[paths[i]], session);
      }
      assert paths[..|paths|] == paths;
    }

    // One row of the cleanup.
    method ReleaseRow(row: Row, session: string)
      modifies this
      ensures W() == if IsEndingRow(row, session) then Persist(old(W()), Ended(row)) else old(W())
    {
      if !OwnedBy(row, session) || (row.class_ != Ephemeral && row.class_ != RunState) { return; }
      var entry := row;
      if entry.lease != "" {
        entry := Released(entry);
      } else if entry.class_ == Ephemeral {
        entry := entry.(gcAllowed := true, replayCritical := false);
      }
      PersistEntry(entry);
    }

    // The files found at their turn are removed and reported; a lock sibling goes either way.
    method DeleteSessionEphemerals(session: string) returns (deleted: set<string>)
      modifies this`files
      ensures W() == Without(old(W()), DisposedOf(old(W()), session))
      ensures deleted == ReportedOf(old(W()), session)
    {
      hide Latest, IsLock, Disposable, GoneBefore, Reported, DisposedUpTo;
      deleted := {};
      if session == "" { return; }
      var reg := LoadRegistry();
      var paths := Paths(log);
      NothingYet(reg, session, paths, files);
      for i := 0 to |paths|
        invariant files == old(files) - DisposedUpTo(reg, session, paths[..i])
        invariant deleted == Reported(reg, session, paths, i, old(files))
      {
        DisposedNext(reg, session, paths, i);
        FoundAtTurn(reg, session, paths, i, old(files));
        if Disposable(reg, session, paths[i]) {
          if paths[i] in files { deleted := deleted + {paths[i]}; }
          files := files - {paths[i], paths[i] + ".lock"};
        }
      }
      assert paths[..|paths|] == paths;
      DisposedUpToAll(old(W()), session);
    }

    method CollectSafe(protected: set<string>) returns (delete: set<string>)
      ensures delete == SafePlan(W(), protected)
    {
      var reg := LoadRegistry();
      delete := {};
      var paths := Paths(log);
      for i := 0 to |paths|
        invariant delete == set p | p in paths[..i] && p in files && !IsProtectedBackup(p, protected)
                  && DeleteAllowed(reg, p) :: p
      {
        assert paths[..i + 1] == paths[..i] + [paths[i]];
        if paths[i] in files && !IsProtectedBackup(paths[i], protected) && DeleteAllowed(reg, paths[i]) {
          delete := delete + {paths[i]};
        }
      }
      assert paths[..|paths|] == paths;
    }

    method GcSafe(protected: set<string>) returns (deleted: set<string>)
      modifies this`files
      ensures deleted == SafePlan(old(W()), protected) && W() == Without(old(W()), deleted)
    {
      deleted := CollectSafe(protected);
      var todo := deleted;
      while todo != {}
        invariant todo <= deleted && files == old(files) - (deleted - todo)
        decreases |todo|
      {
        var path :| path in todo;
        files := files - {path};
        todo := todo - {path};
      }
    }

    method GcRotate(protected: set<string>, backups: seq<BackupFile>, debug: seq<DebugFile>, now: real)
      requires AreBackups(backups, Without(W(), SafePlan(W(), protected)))
      requires AreDebugFiles(debug, Without(W(), RotatedFirst(W(), protected, backups)))
      modifies this`files
      ensures W() == Next(old(W()), DoRotate(protected, backups, debug, now))
    {
      hide Latest, AreBackups, AreDebugFiles, SafePlan, RotatedBackups, RotatedDebug, Excess, TotalSize;
      var deleted := GcSafe(protected);
      var reg := LoadRegistry();
      RotateBackups(reg, protected, Excess(backups));
      RotateDebug(reg, debug, now);
    }

    method RotateBackups(reg: View, protected: set<string>, excess: seq<string>)
      modifies this`files
      ensures files == old(files) - RotatedBackups(reg, protected, excess)
    {
      for i := 0 to |excess|
        invariant files == old(files) - RotatedBackups(reg, protected, excess[..i])
      {
        RotatedBackupsNext(reg, protected, excess, i);
        var rel := excess[i];
        if IsProtectedBackup(rel, protected) { continue; }
        if rel in reg && reg[rel].lease != "" { continue; }
        if rel in reg && !DeleteAllowed(reg, rel) { continue; }
        files := files - {rel};
      }
      assert excess[..|excess|] == excess;
    }

    method RotateDebug(reg: View, debug: seq<DebugFile>, now: real)
      modifies this`files
      ensures files == old(files) - RotatedDebug(reg, debug, now, TotalSize(debug))
    {
      var total: int := TotalSize(debug);
      for i := 0 to |debug|
        invariant files - RotatedDebug(reg, debug[i..], now, total)
                  == old(files) - RotatedDebug(reg, debug, now, TotalSize(debug))
      {
        var row := debug[i];
        assert debug[i..][0] == row && debug[i..][1..] == debug[i + 1..];
        if !IsStale(row, now) && total <= DEBUG_MAX_BYTES { continue; }
        if row.path in reg && !DeleteAllowed(reg, row.path) { continue; }
        files := files - {row.path};
        total := total - row.size;
      }
    }

    method RegisterInferred(ended: map<string, string>, inferred: seq<string>)
      requires Lists(inferred, W())
      modifies this
      ensures W() == Reconcile(old(W()), ended, inferred)
    {
      assert forall p :: p in inferred ==> Inferable(W(), p);
      var reg := LoadRegistry();
      ReleaseEndedRuns(reg, ended);
      RepairClasses(reg);
      Backfill(inferred);
    }

    // Only the registry's own files appear meanwhile, so what is on disk is looked up at the start.
    method ReleaseEndedRuns(reg: View, ended: map<string, string>)
      modifies this
      ensures W() == ReleaseEnded(old(W()), reg, ended, Paths(old(log)))
    {
      var start := W();
      var paths := Paths(log);
      for i := 0 to |paths|
        invariant W() == ReleaseEnded(start, reg, ended, paths[..i])
      {
        ReleaseEndedNext(start, reg, ended, paths, i);
        if Releases(start, reg, ended, paths[i]) {
          var entry := Released(reg[paths[i]]);
          if ended[paths[i]] != "" { entry := entry.(lineage := entry.lineage.(session := ended[paths[i]])); }
          PersistEntry(entry);
        }
      }
      assert paths[..|paths|] == paths;
    }

    method RepairClasses(reg: View)
      modifies this
      ensures W() == RepairCanonical(old(W()), reg, CANONICAL_PATHS)
    {
      var start, paths := W(), CANONICAL_PATHS;
      for i := 0 to |paths|
        invariant W() == RepairCanonical(start, reg, paths[..i])
      {
        assert paths[..i + 1][..i] == paths[..i];
        if NeedsRepair(start, reg, paths[i]) {
          var _ := RegisterArtifact(RepairRow(paths[i], Canonical(paths[i]).value));
        }
      }
      assert paths[..|paths|] == paths;
    }

    method Backfill(inferred: seq<string>)
      requires forall p :: p in inferred ==> Infer(p).Some?
      modifies this
      ensures W() == BackfillAll(old(W()), inferred)
    {
      for i := 0 to |inferred|
        invariant W() == BackfillAll(old(W()), inferred[..i])
      {
        assert inferred[..i + 1][..i] == inferred[..i];
        var path := inferred[i];
        var _ := RegisterArtifact(BackfillRow(path, Infer(path).value));
      }
      assert inferred[..|inferred|] == inferred;
    }
  }

  lemma CleanupNext(w: World, reg: View, session: string, paths: seq<string>, i: nat)
    requires i < |paths| && paths[i] in reg
    ensures var before, row := Cleanup(w, reg, session, paths[..i]), reg[paths[i]];
      Cleanup(w, reg, session, paths[..i + 1])
        == if IsEndingRow(row, session) then Persist(before, Ended(row)) else before
  {
    assert paths[..i + 1][..i] == paths[..i];
  }

  lemma ReleaseEndedNext(w: World, reg: View, ended: map<string, string>, paths: seq<string>, i: nat)
    requires i < |paths|
    ensures var before, p := ReleaseEnded(w, reg, ended, paths[..i]), paths[i];
      ReleaseEnded(w, reg, ended, paths[..i + 1])
      == if Releases(w, reg, ended, p) then Persist(before, EndedRun(reg[p], ended[p])) else before
  {
    assert paths[..i + 1][..i] == paths[..i];
  }

  lemma RotatedBackupsNext(reg: View, protected: set<string>, excess: seq<string>, i: nat)
    requires i < |excess|
    ensures RotatedBackups(reg, protected, excess[..i + 1])
         == RotatedBackups(reg, protected, excess[..i])
           + if MayRotate(reg, protected, excess[i]) then {excess[i]} else {}
  {
    assert excess[..i + 1] == excess[..i] + [excess[i]];
  }
}
