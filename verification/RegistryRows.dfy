/** What the row of an artifact says after each step that writes one, field by field
    (apatch/artifact_governance.py): who leases it, whether it may be collected, whose it is. */
module RegistryRows {
  import opened Common
  import opened ArtifactPaths
  import opened ArtifactRegistry
  import opened ArtifactSafety

  // A missing tool or reason has been filled in, a given one kept.
  predicate IsFilled(before: Lineage, after: Lineage) {
    && after.tool == (if before.tool == "" then "apatch_artifact_governance" else before.tool)
    && after.reason == (if before.reason == "" then "registry update" else before.reason)
  }

  // The flags are those every artifact of the class starts with.
  predicate HasDefaults(row: Row) {
    row.replayCritical == DefaultReplayCritical(row.class_) && row.gcAllowed == DefaultGcAllowed(row.class_)
  }

  // Free to be collected: neither leased nor needed for a replay.
  predicate IsFree(row: Row) {
    row.lease == "" && row.gcAllowed && !row.replayCritical
  }

  // ---------- Leasing ----------

  // With a lease the artifact becomes run state of that run, as it starts; without one it is free, of the
  // class it had. Session and dependencies change if given.
  lemma SyncedExactly(w: World, step: Step, p: string)
    requires Wf(w) && step.DoSync? && step.path == p && p != ""
    ensures p in Reg(Next(w, step))
    ensures var before :=
        if p in Reg(w) then Reg(w)[p] else Row(p, RunState, true, false, "", step.dependsOn, step.lineage);
      var after := Reg(Next(w, step))[p];
      && (if step.lease != "" then after.class_ == RunState && after.lease == step.lease && HasDefaults(after)
          else after.class_ == before.class_ && IsFree(after))
      && after.dependsOn == (if step.dependsOn != [] then step.dependsOn else before.dependsOn)
      && after.lineage.session == (if step.lineage.session != "" then step.lineage.session else before.lineage.session)
      && IsFilled(before.lineage, after.lineage)
  {
    hide Latest, Append, Wf, Canonical;
    RegPaths(w);
    var known := if p in Reg(w) then Reg(w)[p] else Row(p, RunState, true, false, "", step.dependsOn, step.lineage);
    AppendAt(w, Persisted(Synced(known, step.lease, step.lineage, step.dependsOn)), p);
  }

  // ---------- Ending ----------

  // The end of a session takes the lease of its logs and run state, and frees what was leased and every log;
  // nothing else about any row changes.
  lemma EndedExactly(w: World, session: string, p: string)
    requires Wf(w) && p in Reg(w)
    ensures p in Reg(EndSession(w, session))
    ensures var before, after := Reg(w)[p], Reg(EndSession(w, session))[p];
      if session != "" && before.lineage.session == session && (before.class_ == Ephemeral || before.class_ == RunState)
      then
        && after.class_ == before.class_ && after.dependsOn == before.dependsOn
        && after.lineage.session == session && IsFilled(before.lineage, after.lineage)
        && (if before.lease != "" || before.class_ == Ephemeral then IsFree(after)
            else after.lease == "" && after.gcAllowed == before.gcAllowed
                 && after.replayCritical == before.replayCritical)
      else after == before
  {
    if session != "" { EndRow(w, session, p); }
  }

  // Reconcile frees the leased apply sessions on disk that have ended, and gives the canonical files that have
  // another class the one of their name, with its flags and nothing else; it leaves every other row.
  lemma ReconciledExactly(w: World, step: Step, p: string)
    requires Wf(w) && step.DoReconcile? && IsStep(w, step) && p in Reg(w)
    ensures p in Reg(Next(w, step))
    ensures var before, after := Reg(w)[p], Reg(Next(w, step))[p];
      if p in w.files && Canonical(p).Some? && before.class_ != Canonical(p).value then
        && after.class_ == Canonical(p).value && HasDefaults(after) && after.lease == "" && after.dependsOn == []
        && after.lineage.session == "" && after.lineage.tool == "apatch_gc_reconcile"
      else if p in w.files && p in step.ended && before.class_ == RunState && before.lease != ""
              && (p == "apply_session.json" || EndsWith(p, "/apply_session.json")) then
        && after.class_ == RunState && after.dependsOn == before.dependsOn && IsFree(after)
        && after.lineage.session == (if step.ended[p] != "" then step.ended[p] else before.lineage.session)
        && IsFilled(before.lineage, after.lineage)
      else after == before
  {
    hide Next, Canonical, IsStep;
    StepRow(w, step, p);
  }

  // A backfilled row has its class's part in replays and may not be collected; the rows that the registry gives
  // its own files are as rows of that class start.
  lemma NewRowsSay(w: World, step: Step, p: string)
    requires Wf(w) && IsStep(w, step) && !step.DoRegister? && !step.DoSync? && p !in Reg(w) && p in Reg(Next(w, step))
    ensures var row := Reg(Next(w, step))[p];
      && row.lease == "" && row.dependsOn == [] && row.lineage.session == "" && !row.gcAllowed
      && row.replayCritical == DefaultReplayCritical(row.class_)
      && (row.class_ == Registry || Infer(p) == Some(row.class_))
  {
    hide Next, Infer, IsStep;
    StepNewRow(w, step, p);
  }

  // Bootstrapping the store gives a row to those of its two files that exist without one, and changes no other.
  lemma StoreRowsExactly(w: World, p: string)
    requires Wf(w)
    ensures var w' := Bootstrap(Bootstrap(w, w.artifacts), w.provenance);
      && w' == w.(log := w'.log)
      && (p in Reg(w') <==> p in Reg(w) || (p in {w.artifacts, w.provenance} && p in w.files))
      && (p in Reg(w) ==> Reg(w')[p] == Reg(w)[p])
      && (p in Reg(w') && p !in Reg(w) ==> Reg(w')[p].class_ == Registry && HasDefaults(Reg(w')[p]))
  {
    var w1 := Bootstrap(w, w.artifacts);
    if w.artifacts in w.files { BootstrapAt(w, w.artifacts, p); }
    if w.provenance in w.files { BootstrapAt(w1, w.provenance, p); }
    LatestSnoc(w.log, BootstrapRow(w.artifacts));
    LatestSnoc(w1.log, BootstrapRow(w.provenance));
  }

  // ---------- Collecting ----------

  // The safe collector deletes a file iff its row says it is free, its name is neither a lock's nor protected,
  // nothing it depends on is leased, it was not merely backfilled, and no protected backup holds it.
  lemma SafeDeletesExactly(w: World, protected: set<string>, p: string)
    ensures p in Deletes(w, DoSafe(protected)) <==>
      && p in w.files && p in Reg(w) && IsFree(Reg(w)[p]) && !IsStatic(p)
      && !(StartsWith(p, ".apatch/") && EndsWith(p, ".lock"))
      && (forall d :: d in Reg(w)[p].dependsOn && d in Reg(w) ==> Reg(w)[d].lease == "")
      && !(Reg(w)[p].lineage.tool == "apatch_gc_reconcile"
           && Reg(w)[p].lineage.reason == "inferred artifact backfill")
      && forall kept :: kept in protected ==> p != kept && !StartsWith(p, kept + "/")
  {
    hide Latest, IsStatic, StartsWith, EndsWith;
    if p in Reg(w) {
      var needed := Reg(w)[p].dependsOn;
      assert forall i :: 0 <= i < |needed| ==> needed[i] in needed;
    }
  }

  // Neither collector deletes an artifact while something it depends on is leased.
  lemma DependenciesAreSpared(w: World, step: Step, p: string, d: string)
    requires (step.DoSafe? || step.DoRotate?) && IsStep(w, step)
    requires p in Reg(w) && d in Reg(w)[p].dependsOn && Leased(Reg(w), d)
    ensures p !in Deletes(w, step)
  {
    hide Latest, Deletes, IsStep;
    if p in Deletes(w, step) { CollectorsSpare(w, step, p); }
  }

  // What rotation does with debug files it does with exactly those registered as such, or named so and not
  // registered: they are the files it takes besides plan and backups, and those it leaves are within ten
  // megabytes or all held by their rows.
  lemma DebugFilesExactly(w: World, step: Step, p: string)
    requires step.DoRotate? && IsStep(w, step)
    ensures var debug := if p in Reg(w) then Reg(w)[p].class_ == Debug else Infer(p) == Some(Debug);
      && (p in Deletes(w, step) && p !in RotatedFirst(w, step.protected, step.backups) ==> debug)
      && (IsListed(LeftOf(w, step), p) <==>
            debug && p in Next(w, step).files && IsScanned(p) && !(StartsWith(p, ".apatch/") && EndsWith(p, ".lock")))
    ensures TotalSize(LeftOf(w, step)) <= 10485760 || AllHeld(Reg(w), LeftOf(w, step))
  {
    hide Latest, IsScanned, Infer, StartsWith, EndsWith, RotatedDebug, RotatedFirst, AreBackups, LeftOf;
    RotationMeetsCap(w, step);
    if p in RotatedDebug(Reg(w), step.debug, step.now, TotalSize(step.debug)) {
      var i := RotatedDebugAt(Reg(w), step.debug, step.now, TotalSize(step.debug), p);
      assert IsDebugOnDisk(Without(w, RotatedFirst(w, step.protected, step.backups)), step.debug[i].path);
    }
  }

  // A listed debug file that nothing holds goes once it is older than seven days, and only then while all of
  // them are within ten megabytes.
  lemma StaleFilesGo(w: World, step: Step, i: nat)
    requires step.DoRotate? && IsStep(w, step) && i < |step.debug| && !IsHeld(Reg(w), step.debug[i].path)
    ensures var row, gone := step.debug[i], step.debug[i].path !in Next(w, step).files;
      && (step.now - row.modified > 604800.0 ==> gone)
      && (TotalSize(step.debug) <= 10485760 && gone ==> step.now - row.modified > 604800.0)
  {
    hide IsStep, Next, Latest;
    RotatesOldestFirst(w, step, i, i);
  }

  // The logs an ended session disposes of: its own ephemeral, collectable, unleased rows, locks excepted, and
  // whatever is named like the lock of one.
  lemma DisposesExactly(w: World, session: string, p: string)
    ensures var reg := Reg(w);
      p in Deletes(w, DoDispose(session)) <==>
        && session != ""
        && exists q :: (q in reg && (p == q || p == q + ".lock")
                        && !(StartsWith(q, ".apatch/") && EndsWith(q, ".lock")) && reg[q].class_ == Ephemeral
                        && reg[q].gcAllowed && reg[q].lease == "" && reg[q].lineage.session == session)
  {
    hide Latest, StartsWith, EndsWith;
  }
}
