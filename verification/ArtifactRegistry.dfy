/** The artifact registry, run leases and garbage collection (apatch/artifact_governance.py).

    The registry is an append-only log; the latest row of a path counts. Sessions register and lease
    artifacts, and collectors delete what the latest rows allow. Every operation is one atomic step;
    runs interleave the steps of any number of sessions. */
module ArtifactRegistry {
  import opened Common
  import opened ArtifactPaths

  const RECONCILE_TOOL := "apatch_gc_reconcile"
  const BACKFILL := "inferred artifact backfill"
  const REPAIR := "canonical control-plane class repair"

  // Missing fields are "".
  datatype Lineage = Lineage(tool: string, reason: string, session: string)

  // A lease of "" is none.
  datatype Row = Row(path: string, class_: Class, replayCritical: bool, gcAllowed: bool, lease: string,
                     dependsOn: seq<string>, lineage: Lineage)

  // `artifacts` and `provenance` are the registry's own files.
  datatype World = World(log: seq<Row>, files: set<string>, artifacts: string, provenance: string)

  type View = map<string, Row>

  // The append-only log as the map load_registry builds: the last row of a path wins.
  function Latest(log: seq<Row>): View {
    if log == [] then map[]
    else
      var before, row := Latest(log[..|log| - 1]), log[|log| - 1];
      if row.path == "" then before else before[row.path := row]
  }

  function Reg(w: World): View {
    Latest(w.log)
  }

  predicate Leased(reg: View, path: string) {
    path in reg && reg[path].lease != ""
  }

  predicate IsBackfill(row: Row) {
    row.lineage.tool == RECONCILE_TOOL && row.lineage.reason == BACKFILL
  }

  // gc_delete_allowed
  predicate DeleteAllowed(reg: View, path: string) {
    && path in reg && !IsBackfill(reg[path])
    && !IsLock(path) && !IsStatic(path)
    && !reg[path].replayCritical && reg[path].gcAllowed && reg[path].lease == ""
    && forall i :: 0 <= i < |reg[path].dependsOn| ==> !Leased(reg, reg[path].dependsOn[i])
  }

  // ---------- Appending ----------

  function BootstrapRow(path: string): Row {
    Row(path, Registry, true, false, "", [], Lineage("apatch_artifact_governance", "registry store bootstrap", ""))
  }

  // A registry file that exists but has no row gets one.
  function Bootstrap(w: World, path: string): (r: World)
    ensures r.artifacts == w.artifacts && r.provenance == w.provenance
  {
    if path in Reg(w) || path !in w.files then w else w.(log := w.log + [BootstrapRow(path)])
  }

  // One row and its provenance line, then the registry's own files.
  function Append(w: World, row: Row): (r: World)
    ensures r.artifacts == w.artifacts && r.provenance == w.provenance
  {
    var written := w.(log := w.log + [row], files := w.files + {w.artifacts, w.provenance});
    Bootstrap(Bootstrap(written, w.artifacts), w.provenance)
  }

  // persist_registry_entry fills in a missing lineage.
  function Persisted(row: Row): Row {
    var tool := if row.lineage.tool == "" then "apatch_artifact_governance" else row.lineage.tool;
    var reason := if row.lineage.reason == "" then "registry update" else row.lineage.reason;
    row.(lineage := row.lineage.(tool := tool, reason := reason))
  }

  function Persist(w: World, row: Row): (r: World)
    ensures r.artifacts == w.artifacts && r.provenance == w.provenance
  {
    Append(w, Persisted(row))
  }

  // ---------- Sessions ----------

  function Acquired(row: Row, lease: string): Row {
    row.(class_ := RunState, lease := lease, gcAllowed := false, replayCritical := true)
  }

  function Released(row: Row): Row {
    row.(lease := "", gcAllowed := true, replayCritical := false)
  }

  // register_artifact by a producer; lineage without tool or reason is refused.
  function Register(w: World, row: Row): (r: World)
    ensures r.artifacts == w.artifacts && r.provenance == w.provenance
  {
    if row.lineage.tool == "" || row.lineage.reason == "" then w else Append(w, row)
  }

  function Synced(row: Row, lease: string, lineage: Lineage, dependsOn: seq<string>): Row {
    var leased := if lease != "" then Acquired(row, lease) else Released(row);
    var owned := if lineage.session != "" then leased.(lineage := leased.lineage.(session := lineage.session))
                 else leased;
    if dependsOn != [] then owned.(dependsOn := dependsOn) else owned
  }

  // sync_run_state_registry: acquire with a lease, release with "".
  function SyncRunState(w: World, path: string, lease: string, lineage: Lineage, dependsOn: seq<string>): (r: World)
    ensures r.artifacts == w.artifacts && r.provenance == w.provenance
  {
    var known := if path in Reg(w) then Reg(w)[path] else Row(path, RunState, true, false, "", dependsOn, lineage);
    Persist(w, Synced(known, lease, lineage, dependsOn))
  }

  // The registered paths in the order of their first row.
  function Paths(log: seq<Row>): (paths: seq<string>)
    ensures forall p :: p in paths <==> p in Latest(log)
    ensures forall i, j :: 0 <= i < j < |paths| ==> paths[i] != paths[j]
  {
    if log == [] then []
    else
      var before, p := Paths(log[..|log| - 1]), log[|log| - 1].path;
      if p == "" || p in before then before else before + [p]
  }

  predicate OwnedBy(row: Row, session: string) {
    row.lineage.session == session
  }

  predicate IsEndingRow(row: Row, session: string) {
    OwnedBy(row, session) && (row.class_ == Ephemeral || row.class_ == RunState)
  }

  function Ended(row: Row): Row {
    if row.lease != "" then Released(row)
    else if row.class_ == Ephemeral then row.(gcAllowed := true, replayCritical := false)
    else row
  }

  // release_session_registry_cleanup, over the registry as loaded at the start.
  function Cleanup(w: World, reg: View, session: string, paths: seq<string>): (r: World)
    ensures r.artifacts == w.artifacts && r.provenance == w.provenance
  {
    if paths == [] then w
    else
      var before, p := Cleanup(w, reg, session, paths[..|paths| - 1]), paths[|paths| - 1];
      if p in reg && IsEndingRow(reg[p], session) then Persist(before, Ended(reg[p])) else before
  }

  function EndSession(w: World, session: string): (r: World)
    ensures r.artifacts == w.artifacts && r.provenance == w.provenance
  {
    if session == "" then w else Cleanup(w, Reg(w), session, Paths(w.log))
  }

  // delete_gc_allowed_session_ephemerals
  predicate Disposable(reg: View, session: string, path: string) {
    && path in reg && !IsLock(path) && reg[path].class_ == Ephemeral
    && reg[path].gcAllowed && reg[path].lease == "" && OwnedBy(reg[path], session)
  }

  // A disposable file and, whether or not it is there, its ".lock" sibling.
  function DisposedOf(w: World, session: string): set<string> {
    if session == "" then {}
    else
      (set p | p in Reg(w) && Disposable(Reg(w), session, p) :: p)
      + (set p | p in Reg(w) && Disposable(Reg(w), session, p) :: p + ".lock")
  }

  // ---------- Collectors ----------

  predicate IsProtectedBackup(path: string, protected: set<string>) {
    exists p :: p in protected && Under(path, p)
  }

  // collect_gc_safe_candidates: the delete set.
  function SafePlan(w: World, protected: set<string>): set<string> {
    set p | p in Reg(w) && p in w.files && !IsProtectedBackup(p, protected) && DeleteAllowed(Reg(w), p) :: p
  }

  // validate_gc_delete_plan
  predicate ValidPlan(plan: set<string>, reg: View) {
    forall p :: p in plan ==> !IsStatic(p) && (p in reg ==> DeleteAllowed(reg, p))
  }

  // _backup_entries: the backup files on disk, oldest first, with the times of their last change.
  datatype BackupFile = BackupFile(path: string, modified: real)

  predicate IsBackupOnDisk(w: World, path: string) {
    StartsWith(path, ".apatch/backups/") && path in w.files
  }

  predicate IsBackupListed(backups: seq<BackupFile>, path: string) {
    exists i :: 0 <= i < |backups| && backups[i].path == path
  }

  ghost predicate AreBackups(backups: seq<BackupFile>, w: World) {
    && (forall i :: 0 <= i < |backups| ==> IsBackupOnDisk(w, backups[i].path))
    && (forall p :: IsBackupOnDisk(w, p) ==> IsBackupListed(backups, p))
    && (forall i, j :: 0 <= i < j < |backups| ==>
          backups[i].path != backups[j].path && backups[i].modified <= backups[j].modified)
  }

  const HISTORY_BACKUP_LIMIT := 50

  // The paths of the oldest backups, as many as there are above the limit.
  function Excess(backups: seq<BackupFile>): (excess: seq<string>)
    ensures |excess| <= |backups|
  {
    var n := if |backups| > HISTORY_BACKUP_LIMIT then |backups| - HISTORY_BACKUP_LIMIT else 0;
    seq(n, i requires 0 <= i < n => backups[i].path)
  }

  predicate MayRotate(reg: View, protected: set<string>, path: string) {
    !IsProtectedBackup(path, protected) && (path in reg ==> reg[path].lease == "" && DeleteAllowed(reg, path))
  }

  // Those of them that may go: an unregistered backup may.
  function RotatedBackups(reg: View, protected: set<string>, excess: seq<string>): set<string> {
    set p | p in excess && MayRotate(reg, protected, p) :: p
  }

  predicate IsDebug(reg: View, path: string) {
    if path in reg then reg[path].class_ == Debug else Infer(path) == Some(Debug)
  }

  // _debug_entries: the debug files on disk, oldest first, with the times of their last change in seconds.
  datatype DebugFile = DebugFile(path: string, modified: real, size: nat)

  ghost predicate AreDebugFiles(rows: seq<DebugFile>, w: World) {
    && (forall i :: 0 <= i < |rows| ==> IsDebugOnDisk(w, rows[i].path))
    && (forall p :: IsDebugOnDisk(w, p) ==> IsListed(rows, p))
    && (forall i, j :: 0 <= i < j < |rows| ==> rows[i].path != rows[j].path && rows[i].modified <= rows[j].modified)
  }

  predicate IsListed(rows: seq<DebugFile>, path: string) {
    exists i :: 0 <= i < |rows| && rows[i].path == path
  }

  predicate IsDebugOnDisk(w: World, path: string) {
    path in w.files && IsScanned(path) && !IsLock(path) && IsDebug(Reg(w), path)
  }

  const DEBUG_MAX_AGE_SECONDS := 604800.0
  const DEBUG_MAX_BYTES := 10485760

  predicate IsStale(row: DebugFile, now: real) {
    now - row.modified > DEBUG_MAX_AGE_SECONDS
  }

  // They go while stale or while the total is over the cap.
  function RotatedDebug(reg: View, rows: seq<DebugFile>, now: real, total: int): set<string> {
    if rows == [] then {}
    else if (IsStale(rows[0], now) || total > DEBUG_MAX_BYTES)
            && (rows[0].path in reg ==> DeleteAllowed(reg, rows[0].path)) then
      {rows[0].path} + RotatedDebug(reg, rows[1..], now, total - rows[0].size)
    else RotatedDebug(reg, rows[1..], now, total)
  }

  function TotalSize(rows: seq<DebugFile>): nat {
    if rows == [] then 0 else rows[0].size + TotalSize(rows[1..])
  }

  // ---------- Reconcile ----------

  // classify_unregistered
  predicate Inferable(w: World, path: string) {
    path in w.files && IsScanned(path) && !IsLock(path) && path !in Reg(w) && Infer(path).Some?
  }

  function EndedRun(row: Row, session: string): Row {
    if session != "" then Released(row).(lineage := row.lineage.(session := session)) else Released(row)
  }

  // An apply session on disk whose session has ended: `ended` maps its path to the session id.
  predicate Releases(w: World, reg: View, ended: map<string, string>, p: string) {
    && p in reg && reg[p].class_ == RunState && reg[p].lease != "" && p in ended && p in w.files
    && (p == "apply_session.json" || EndsWith(p, "/apply_session.json"))
  }

  function ReleaseEnded(w: World, reg: View, ended: map<string, string>, paths: seq<string>): (r: World)
    ensures r.artifacts == w.artifacts && r.provenance == w.provenance
  {
    if paths == [] then w
    else
      var before, p := ReleaseEnded(w, reg, ended, paths[..|paths| - 1]), paths[|paths| - 1];
      if Releases(w, reg, ended, p) then Persist(before, EndedRun(reg[p], ended[p])) else before
  }

  const CANONICAL_PATHS: seq<string> :=
    [".apatch/conformance.json", ".apatch/project_index.json", ".apatch/reality.jsonl", ".apatch/remote.json",
     ".apatch/request_journal.json"]

  function RepairRow(path: string, c: Class): Row {
    Row(path, c, DefaultReplayCritical(c), DefaultGcAllowed(c), "", [], Lineage(RECONCILE_TOOL, REPAIR, ""))
  }

  predicate NeedsRepair(w: World, reg: View, path: string) {
    path in w.files && path in reg && Canonical(path).Some? && reg[path].class_ != Canonical(path).value
  }

  function RepairCanonical(w: World, reg: View, paths: seq<string>): (r: World)
    ensures r.artifacts == w.artifacts && r.provenance == w.provenance
  {
    if paths == [] then w
    else
      var before, p := RepairCanonical(w, reg, paths[..|paths| - 1]), paths[|paths| - 1];
      if NeedsRepair(w, reg, p) then Append(before, RepairRow(p, Canonical(p).value)) else before
  }

  function BackfillRow(path: string, c: Class): Row {
    Row(path, c, DefaultReplayCritical(c), false, "", [], Lineage(RECONCILE_TOOL, BACKFILL, ""))
  }

  function BackfillAll(w: World, paths: seq<string>): (r: World)
    ensures r.artifacts == w.artifacts && r.provenance == w.provenance
  {
    if paths == [] then w
    else
      var before, p := BackfillAll(w, paths[..|paths| - 1]), paths[|paths| - 1];
      if Infer(p).Some? then Append(before, BackfillRow(p, Infer(p).value)) else before
  }

  // The inferable paths as a list in some order.
  ghost predicate Lists(inferred: seq<string>, w: World) {
    forall p :: p in inferred <==> Inferable(w, p)
  }

  function Reconcile(w: World, ended: map<string, string>, inferred: seq<string>): (r: World)
    ensures r.artifacts == w.artifacts && r.provenance == w.provenance
  {
    var reg := Reg(w);
    BackfillAll(RepairCanonical(ReleaseEnded(w, reg, ended, Paths(w.log)), reg, CANONICAL_PATHS), inferred)
  }

  // ---------- Steps ----------

  datatype Step =
    | DoRegister(row: Row)
    | DoSync(path: string, lease: string, lineage: Lineage, dependsOn: seq<string>)
    | DoEnd(session: string)
    | DoDispose(session: string)
    | DoSafe(protected: set<string>)
    | DoRotate(protected: set<string>, backups: seq<BackupFile>, debug: seq<DebugFile>, now: real)
    | DoReconcile(ended: map<string, string>, inferred: seq<string>)
    | DoCreate(path: string)
    | DoRemove(path: string)

  function Without(w: World, gone: set<string>): World {
    w.(files := w.files - gone)
  }

  // What gc_rotate has removed before it turns to debug files.
  function RotatedFirst(w: World, protected: set<string>, backups: seq<BackupFile>): set<string> {
    SafePlan(w, protected) + RotatedBackups(Reg(w), protected, Excess(backups))
  }

  // The files a collecting step removes.
  function Deletes(w: World, step: Step): set<string> {
    match step
    case DoDispose(session) => DisposedOf(w, session)
    case DoSafe(protected) => SafePlan(w, protected)
    case DoRotate(protected, backups, debug, now) =>
      RotatedFirst(w, protected, backups) + RotatedDebug(Reg(w), debug, now, TotalSize(debug))
    case _ => {}
  }

  function Next(w: World, step: Step): (r: World)
    ensures r.artifacts == w.artifacts && r.provenance == w.provenance
  {
    match step
    case DoRegister(row) => Register(w, row)
    case DoSync(path, lease, lineage, dependsOn) => SyncRunState(w, path, lease, lineage, dependsOn)
    case DoEnd(session) => EndSession(w, session)
    case DoReconcile(ended, inferred) => Reconcile(w, ended, inferred)
    case DoCreate(path) => w.(files := w.files + {path})
    case DoRemove(path) => Without(w, {path})
    case _ => Without(w, Deletes(w, step))
  }

  // Reconcile and rotation list what is there at their moment, and leases are taken on named paths.
  ghost predicate IsStep(w: World, step: Step) {
    && (step.DoReconcile? ==> Lists(step.inferred, w))
    && (step.DoRotate? ==> AreBackups(step.backups, Without(w, SafePlan(w, step.protected))))
    && (step.DoRotate? ==> AreDebugFiles(step.debug, Without(w, RotatedFirst(w, step.protected, step.backups))))
    && (step.DoSync? ==> step.path != "")
  }

  function Run(w: World, steps: seq<Step>): World
    decreases |steps|
  {
    if steps == [] then w else Next(Run(w, steps[..|steps| - 1]), steps[|steps| - 1])
  }

  ghost predicate IsRun(w: World, steps: seq<Step>)
    decreases |steps|
  {
    steps == [] || (IsRun(w, steps[..|steps| - 1]) && IsStep(Run(w, steps[..|steps| - 1]), steps[|steps| - 1]))
  }

  // ---------- Rows after a step ----------

  ghost predicate Wf(w: World) {
    w.artifacts != "" && w.provenance != "" && Canonical(w.artifacts).None? && Canonical(w.provenance).None?
  }

  lemma {:induction false} LatestPath(log: seq<Row>, p: string)
    requires p in Latest(log)
    ensures Latest(log)[p].path == p && p != ""
  {
    if log[|log| - 1].path != p || p == "" { LatestPath(log[..|log| - 1], p); }
  }

  lemma LatestSnoc(log: seq<Row>, row: Row)
    ensures Latest(log + [row]) == if row.path == "" then Latest(log) else Latest(log)[row.path := row]
  {
    assert (log + [row])[..|log|] == log;
  }

  lemma BootstrapAt(w: World, path: string, p: string)
    requires path in w.files && path != ""
    ensures var w' := Bootstrap(w, path);
      && w' == w.(log := w'.log) && path in Reg(w')
      && if p in Reg(w) then p in Reg(w') && Reg(w')[p] == Reg(w)[p]
         else p in Reg(w') ==> p == path && Reg(w')[p] == BootstrapRow(p)
  {
    LatestSnoc(w.log, BootstrapRow(path));
  }

  lemma AppendAt(w: World, row: Row, p: string)
    requires Wf(w)
    ensures var w' := Append(w, row);
      && w' == w.(log := w'.log, files := w.files + {w.artifacts, w.provenance})
      && w.artifacts in Reg(w') && w.provenance in Reg(w')
      && if p == row.path && p != "" then p in Reg(w') && Reg(w')[p] == row
         else if p in Reg(w) then p in Reg(w') && Reg(w')[p] == Reg(w)[p]
         else p in Reg(w') ==> p in {w.artifacts, w.provenance} && Reg(w')[p] == BootstrapRow(p)
  {
    LatestSnoc(w.log, row);
    var w1 := w.(log := w.log + [row], files := w.files + {w.artifacts, w.provenance});
    BootstrapAt(w1, w.artifacts, p);
    BootstrapAt(Bootstrap(w1, w.artifacts), w.provenance, w.artifacts);
    BootstrapAt(Bootstrap(w1, w.artifacts), w.provenance, p);
  }

  // What a fold of appended rows leaves of path p: the row chosen for it, its old row, or at most a
  // bootstrap row.
  ghost predicate Became(w: World, w': World, p: string, chosen: Option<Row>) {
    && Wf(w') && w'.artifacts == w.artifacts && w'.provenance == w.provenance
    && (w'.files == w.files || w'.files == w.files + {w.artifacts, w.provenance})
    && (match chosen
        case Some(row) => p in Reg(w') && Reg(w')[p] == row
        case None => if p in Reg(w) then p in Reg(w') && Reg(w')[p] == Reg(w)[p]
                     else p in Reg(w') ==> p in {w.artifacts, w.provenance} && Reg(w')[p] == BootstrapRow(p))
  }

  lemma AppendBecame(w0: World, w: World, p: string, before: Option<Row>, row: Row)
    requires Wf(w0) && Became(w0, w, p, before) && row.path != ""
    ensures Became(w0, Append(w, row), p, if row.path == p then Some(row) else before)
  {
    AppendAt(w, row, p);
  }

  lemma EndedPath(row: Row)
    ensures Persisted(Ended(row)).path == row.path
  {
  }

  lemma {:induction false} CleanupAt(w: World, reg: View, session: string, paths: seq<string>, p: string)
    requires Wf(w) && forall q :: q in reg ==> reg[q].path == q && q != ""
    ensures Became(w, Cleanup(w, reg, session, paths), p,
                   if p in paths && p in reg && IsEndingRow(reg[p], session) then Some(Persisted(Ended(reg[p])))
                   else None)
  {
    if paths != [] {
      hide Append, Became, Latest, Ended, Persisted, IsEndingRow;
      var rest, q := paths[..|paths| - 1], paths[|paths| - 1];
      CleanupAt(w, reg, session, rest, p);
      assert paths == rest + [q];
      if q in reg && IsEndingRow(reg[q], session) {
        EndedPath(reg[q]);
        AppendBecame(w, Cleanup(w, reg, session, rest), p,
                     if p in rest && p in reg && IsEndingRow(reg[p], session) then Some(Persisted(Ended(reg[p])))
                     else None,
                     Persisted(Ended(reg[q])));
      }
    }
  }

  lemma {:induction false} ReleaseEndedAt(w: World, reg: View, ended: map<string, string>, paths: seq<string>,
                                          p: string)
    requires Wf(w) && forall q :: q in reg ==> reg[q].path == q && q != ""
    ensures Became(w, ReleaseEnded(w, reg, ended, paths), p,
                   if p in paths && Releases(w, reg, ended, p) then Some(Persisted(EndedRun(reg[p], ended[p])))
                   else None)
  {
    if paths != [] {
      hide Append, Became, Latest, Canonical, Infer;
      var rest, q := paths[..|paths| - 1], paths[|paths| - 1];
      ReleaseEndedAt(w, reg, ended, rest, p);
      assert paths == rest + [q];
      if Releases(w, reg, ended, q) {
        AppendBecame(w, ReleaseEnded(w, reg, ended, rest), p,
                     if p in rest && Releases(w, reg, ended, p) then Some(Persisted(EndedRun(reg[p], ended[p])))
                     else None,
                     Persisted(EndedRun(reg[q], ended[q])));
      }
    }
  }

  lemma {:induction false} RepairCanonicalAt(w: World, reg: View, paths: seq<string>, p: string)
    requires Wf(w) && forall q :: q in reg ==> reg[q].path == q && q != ""
    ensures Became(w, RepairCanonical(w, reg, paths), p,
                   if p in paths && NeedsRepair(w, reg, p) then Some(RepairRow(p, Canonical(p).value)) else None)
  {
    if paths != [] {
      hide Append, Became, Latest, Canonical, Infer;
      var rest, q := paths[..|paths| - 1], paths[|paths| - 1];
      RepairCanonicalAt(w, reg, rest, p);
      assert paths == rest + [q];
      if NeedsRepair(w, reg, q) {
        AppendBecame(w, RepairCanonical(w, reg, rest), p,
                     if p in rest && NeedsRepair(w, reg, p) then Some(RepairRow(p, Canonical(p).value)) else None,
                     RepairRow(q, Canonical(q).value));
      }
    }
  }

  lemma {:induction false} BackfillAllAt(w: World, paths: seq<string>, p: string)
    requires Wf(w) && "" !in paths
    ensures Became(w, BackfillAll(w, paths), p,
                   if p in paths && Infer(p).Some? then Some(BackfillRow(p, Infer(p).value)) else None)
    ensures (forall q :: q in paths ==> Infer(q).None?)
            || (w.artifacts in Reg(BackfillAll(w, paths)) && w.provenance in Reg(BackfillAll(w, paths)))
  {
    if paths != [] {
      hide Append, Became, Latest, Canonical, Infer;
      var rest, q := paths[..|paths| - 1], paths[|paths| - 1];
      assert paths == rest + [q];
      BackfillAllAt(w, rest, p);
      if Infer(q).Some? {
        AppendBecame(w, BackfillAll(w, rest), p,
                     if p in rest && Infer(p).Some? then Some(BackfillRow(p, Infer(p).value)) else None,
                     BackfillRow(q, Infer(q).value));
        AppendAt(BackfillAll(w, rest), BackfillRow(q, Infer(q).value), p);
      }
    }
  }

  // The row of a registered path after a step.
  function RowAfter(w: World, step: Step, p: string): Row
    requires p in Reg(w)
  {
    var row := Reg(w)[p];
    match step
    case DoRegister(r) => if r.path == p && r.lineage.tool != "" && r.lineage.reason != "" then r else row
    case DoSync(path, lease, lineage, dependsOn) =>
      if path == p then Persisted(Synced(row, lease, lineage, dependsOn)) else row
    case DoEnd(session) => if session != "" && IsEndingRow(row, session) then Persisted(Ended(row)) else row
    case DoReconcile(ended, _) =>
      if NeedsRepair(w, Reg(w), p) then RepairRow(p, Canonical(p).value)
      else if Releases(w, Reg(w), ended, p) then Persisted(EndedRun(row, ended[p]))
      else row
    case _ => row
  }

  lemma RegPaths(w: World)
    ensures forall q :: q in Reg(w) ==> Reg(w)[q].path == q && q != ""
  {
    forall q | q in Reg(w) ensures Reg(w)[q].path == q && q != "" { LatestPath(w.log, q); }
  }

  lemma CanonicalListed(p: string)
    ensures Canonical(p).Some? ==> p in CANONICAL_PATHS
  {
    var all := CANONICAL_PATHS;
    assert all[0] in all && all[1] in all && all[2] in all && all[3] in all && all[4] in all;
  }

  lemma BecameThrice(w: World, w1: World, w2: World, w3: World, p: string, first: Option<Row>, second: Option<Row>)
    requires p in Reg(w) && Became(w, w1, p, first) && Became(w1, w2, p, second) && Became(w2, w3, p, None)
    ensures p in Reg(w3)
    ensures Reg(w3)[p] == if second.Some? then second.value else if first.Some? then first.value else Reg(w)[p]
  {
  }

  lemma NeedsRepairStill(w: World, w1: World, reg: View, p: string)
    requires Wf(w) && (w1.files == w.files || w1.files == w.files + {w.artifacts, w.provenance})
    ensures NeedsRepair(w1, reg, p) == NeedsRepair(w, reg, p)
  {
  }

  // A registered path is released, then repaired, and never backfilled.
  lemma ReconcileKnown(w: World, ended: map<string, string>, canonical: seq<string>, inferred: seq<string>, p: string)
    requires Wf(w) && "" !in inferred && p in Reg(w) && p !in inferred && (Canonical(p).Some? ==> p in canonical)
    ensures var w' := BackfillAll(RepairCanonical(ReleaseEnded(w, Reg(w), ended, Paths(w.log)), Reg(w), canonical),
                                  inferred);
      && p in Reg(w')
      && Reg(w')[p] == if NeedsRepair(w, Reg(w), p) then RepairRow(p, Canonical(p).value)
                       else if Releases(w, Reg(w), ended, p) then Persisted(EndedRun(Reg(w)[p], ended[p]))
                       else Reg(w)[p]
  {
    RegPaths(w);
    var reg := Reg(w);
    var w1 := ReleaseEnded(w, reg, ended, Paths(w.log));
    var w2 := RepairCanonical(w1, reg, canonical);
    ReleaseEndedAt(w, reg, ended, Paths(w.log), p);
    RepairCanonicalAt(w1, reg, canonical, p);
    BackfillAllAt(w2, inferred, p);
    NeedsRepairStill(w, w1, reg, p);
    BecameThrice(w, w1, w2, BackfillAll(w2, inferred), p,
                 if Releases(w, reg, ended, p) then Some(Persisted(EndedRun(reg[p], ended[p]))) else None,
                 if NeedsRepair(w1, reg, p) then Some(RepairRow(p, Canonical(p).value)) else None);
  }

  lemma ReconcileKept(w: World, ended: map<string, string>, inferred: seq<string>, p: string)
    requires Wf(w) && Lists(inferred, w) && p in Reg(w)
    ensures p in Reg(Reconcile(w, ended, inferred))
    ensures Reg(Reconcile(w, ended, inferred))[p]
         == if NeedsRepair(w, Reg(w), p) then RepairRow(p, Canonical(p).value)
            else if Releases(w, Reg(w), ended, p) then Persisted(EndedRun(Reg(w)[p], ended[p]))
            else Reg(w)[p]
  {
    NoEmptyName(w, inferred);
    CanonicalListed(p);
    assert p !in inferred by { assert !Inferable(w, p); }
    ReconcileKnown(w, ended, CANONICAL_PATHS, inferred, p);
  }

  lemma ReconcileNew(w: World, ended: map<string, string>, inferred: seq<string>, p: string)
    requires Wf(w) && Lists(inferred, w) && p !in Reg(w)
    ensures var w' := Reconcile(w, ended, inferred);
      && (p in Reg(w') ==>
          Reg(w')[p] == BootstrapRow(p) || (Infer(p).Some? && Reg(w')[p] == BackfillRow(p, Infer(p).value)))
      && (Inferable(w, p) ==> p in Reg(w') && Reg(w')[p] == BackfillRow(p, Infer(p).value))
  {
    RegPaths(w);
    var w1 := ReleaseEnded(w, Reg(w), ended, Paths(w.log));
    ReleaseEndedAt(w, Reg(w), ended, Paths(w.log), p);
    RepairCanonicalAt(w1, Reg(w), CANONICAL_PATHS, p);
    NoEmptyName(w, inferred);
    BackfillAllAt(RepairCanonical(w1, Reg(w), CANONICAL_PATHS), inferred, p);
  }

  lemma NoEmptyName(w: World, inferred: seq<string>)
    requires Lists(inferred, w)
    ensures "" !in inferred
  {
    assert !IsScanned("");
  }

  // Whatever reconcile appends, the registry's own files are registered afterwards.
  lemma StoreRegistered(w: World, ended: map<string, string>, inferred: seq<string>)
    requires Wf(w) && Lists(inferred, w)
    ensures var w' := Reconcile(w, ended, inferred);
      w'.files == w.files || (w'.files == w.files + {w.artifacts, w.provenance} && w.artifacts in Reg(w')
                              && w.provenance in Reg(w'))
  {
    RegPaths(w);
    var reg := Reg(w);
    var w1 := ReleaseEnded(w, reg, ended, Paths(w.log));
    var w2 := RepairCanonical(w1, reg, CANONICAL_PATHS);
    NoEmptyName(w, inferred);
    StoreKept1(w, reg, ended, Paths(w.log));
    StoreKept2(w1, reg, CANONICAL_PATHS);
    StoreKept3(w2, inferred);
  }

  // Files only appear together with rows for the registry's own files.
  ghost predicate StoreKept(w: World, w': World) {
    && Wf(w') && w'.artifacts == w.artifacts && w'.provenance == w.provenance
    && (forall q :: q in Reg(w) ==> q in Reg(w'))
    && (w'.files == w.files
        || (w'.files == w.files + {w.artifacts, w.provenance} && w.artifacts in Reg(w') && w.provenance in Reg(w')))
  }

  lemma AppendStore(w0: World, w: World, row: Row)
    requires Wf(w0) && StoreKept(w0, w) && row.path != ""
    ensures StoreKept(w0, Append(w, row))
  {
    forall q ensures q in Reg(w) ==> q in Reg(Append(w, row)) { AppendAt(w, row, q); }
    AppendAt(w, row, "");
  }

  lemma {:induction false} StoreKept1(w: World, reg: View, ended: map<string, string>, paths: seq<string>)
    requires Wf(w) && forall q :: q in reg ==> reg[q].path == q && q != ""
    ensures StoreKept(w, ReleaseEnded(w, reg, ended, paths))
  {
    if paths != [] {
      var rest, q := paths[..|paths| - 1], paths[|paths| - 1];
      StoreKept1(w, reg, ended, rest);
      if Releases(w, reg, ended, q) {
        AppendStore(w, ReleaseEnded(w, reg, ended, rest), Persisted(EndedRun(reg[q], ended[q])));
      }
    }
  }

  lemma {:induction false} StoreKept2(w: World, reg: View, paths: seq<string>)
    requires Wf(w) && forall q :: q in reg ==> reg[q].path == q && q != ""
    ensures StoreKept(w, RepairCanonical(w, reg, paths))
  {
    if paths != [] {
      var rest, q := paths[..|paths| - 1], paths[|paths| - 1];
      StoreKept2(w, reg, rest);
      if NeedsRepair(w, reg, q) { AppendStore(w, RepairCanonical(w, reg, rest), RepairRow(q, Canonical(q).value)); }
    }
  }

  lemma {:induction false} StoreKept3(w: World, paths: seq<string>)
    requires Wf(w) && "" !in paths
    ensures StoreKept(w, BackfillAll(w, paths))
  {
    if paths != [] {
      var rest, q := paths[..|paths| - 1], paths[|paths| - 1];
      assert paths == rest + [q];
      StoreKept3(w, rest);
      if Infer(q).Some? { AppendStore(w, BackfillAll(w, rest), BackfillRow(q, Infer(q).value)); }
    }
  }
}
