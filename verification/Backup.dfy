/** Transactional file backups of one apply session (apatch/backup.py).

    Before a step mutates a file, the file's contents (or its absence) are recorded in the
    session log and copied into the session folder. A step, or the whole session, is undone by
    replaying the log newest first. The workspace maps the paths of existing files to their
    contents, the folder maps backup file names to contents. */
module Backup {
  import opened Common
  import opened Decimal

  datatype Action = Created | Modified | Deleted
  datatype Kind = Create | Replace | Delete
  datatype Entry = Entry(file: string, backup: Option<string>, step: int, action: Action)

  // The session on disk: the workspace, the session folder and the log in metadata.json.
  datatype Store = Store(workspace: map<string, string>, folder: map<string, string>, log: seq<Entry>)

  // ---------- Names of backup files ----------

  // os.path.basename
  function Basename(path: string): string {
    if path == "" || path[|path| - 1] == '/' then "" else Basename(path[..|path| - 1]) + [path[|path| - 1]]
  }

  function BackupName(number: nat, file: string): string {
    "backup_" + ShowNat(number) + "_" + Basename(file) + ".bak"
  }

  // What is behind the last '/'.
  lemma {:induction false} BasenameExactly(path: string)
    ensures '/' !in Basename(path)
    ensures path == Basename(path) || exists dir: string :: path == dir + "/" + Basename(path)
  {
    if path != "" {
      var rest, last := path[..|path| - 1], path[|path| - 1];
      SnocParts(path);
      BasenameExactly(rest);
      if last == '/' {
        assert path == rest + "/" + "";
      } else if rest != Basename(rest) {
        var dir: string :| rest == dir + "/" + Basename(rest);
        assert path == dir + "/" + Basename(path);
      }
    }
  }

  lemma BackupNameInjective(m: nat, f: string, n: nat, g: string)
    requires BackupName(m, f) == BackupName(n, g)
    ensures m == n && Basename(f) == Basename(g)
  {
    var d, e := ShowNat(m), ShowNat(n);
    var x, y := BackupName(m, f), BackupName(n, g);
    assert x[7 + |d|] == '_' && y[7 + |e|] == '_';
    assert forall i :: 0 <= i < |d| ==> x[7 + i] == d[i];
    assert forall i :: 0 <= i < |e| ==> y[7 + i] == e[i];
    assert |d| == |e|;
    assert d == x[7..7 + |d|] && e == y[7..7 + |e|];
    ShowNatInjective(m, n);
    assert Basename(f) == x[8 + |d|..|x| - 4] && Basename(g) == y[8 + |e|..|y| - 4];
  }

  // ---------- The log undone ----------

  function RestoreEntry(workspace: map<string, string>, folder: map<string, string>, e: Entry): map<string, string> {
    if e.action == Created then workspace - {e.file}
    else if e.backup.Some? && e.backup.value in folder then workspace[e.file := folder[e.backup.value]]
    else workspace
  }

  // The entries undone newest first.
  function RestoreAll(workspace: map<string, string>, folder: map<string, string>, log: seq<Entry>): map<string, string>
    decreases |log|
  {
    if log == [] then workspace
    else RestoreAll(RestoreEntry(workspace, folder, log[|log| - 1]), folder, log[..|log| - 1])
  }

  function OfStep(log: seq<Entry>, step: int): seq<Entry> {
    if log == [] then []
    else OfStep(log[..|log| - 1], step) + if log[|log| - 1].step == step then [log[|log| - 1]] else []
  }

  function NotOfStep(log: seq<Entry>, step: int): (rest: seq<Entry>)
    ensures |rest| <= |log| && (log != [] && log[|log| - 1].step == step ==> |rest| < |log|)
  {
    if log == [] then []
    else NotOfStep(log[..|log| - 1], step) + if log[|log| - 1].step != step then [log[|log| - 1]] else []
  }

  predicate Recorded(log: seq<Entry>, file: string, step: int) {
    exists i :: 0 <= i < |log| && log[i].file == file && log[i].step == step
  }

  // create_backup, when the session may be written.
  function AfterBackup(st: Store, file: string, step: int, kind: Kind): Store {
    if Recorded(st.log, file, step) then st
    else if kind == Create then st.(log := st.log + [Entry(file, None, step, Created)])
    else if file !in st.workspace then st
    else
      var name := BackupName(|st.log| + 1, file);
      st.(folder := st.folder[name := st.workspace[file]],
          log := st.log + [Entry(file, Some(name), step, if kind == Delete then Deleted else Modified)])
  }

  // A new record says which file, step and kind of change it is of, and keeps what the file held.
  lemma NewRecordSays(st: Store, file: string, step: int, kind: Kind)
    requires !Recorded(st.log, file, step) && (kind == Create || file in st.workspace)
    ensures var st' := AfterBackup(st, file, step, kind);
      && st'.workspace == st.workspace && |st'.log| == |st.log| + 1 && st'.log[..|st.log|] == st.log
      && var e := st'.log[|st.log|];
         && e.file == file && e.step == step
         && (e.action == Created <==> kind == Create) && (e.action == Deleted <==> kind == Delete)
         && (if kind == Create then e.backup == None && st'.folder == st.folder
             else e.backup.Some? && st'.folder == st.folder[e.backup.value := st.workspace[file]])
  {
  }

  // rollback_step, when the session may be written.
  function AfterUndo(st: Store, step: int): Store {
    st.(workspace := RestoreAll(st.workspace, st.folder, OfStep(st.log, step)), log := NotOfStep(st.log, step))
  }

  // ---------- Presence and contents of one file ----------

  function StateOf(workspace: map<string, string>, file: string): Option<string> {
    if file in workspace then Some(workspace[file]) else None
  }

  // The oldest entry of a file.
  function FirstFor(log: seq<Entry>, file: string): (first: Option<Entry>)
    ensures first.Some? ==> first.value in log && first.value.file == file
    ensures first.Some? <==> exists i :: 0 <= i < |log| && log[i].file == file
  {
    if log == [] then None
    else
      var older := FirstFor(log[..|log| - 1], file);
      if older.Some? then older
      else if log[|log| - 1].file == file then Some(log[|log| - 1]) else None
  }

  // Every entry has what it needs to be undone.
  ghost predicate Backed(folder: map<string, string>, log: seq<Entry>) {
    forall i :: 0 <= i < |log| && log[i].action != Created ==> log[i].backup.Some? && log[i].backup.value in folder
  }

  function EntryState(folder: map<string, string>, e: Entry): Option<string> {
    if e.action != Created && e.backup.Some? && e.backup.value in folder then Some(folder[e.backup.value]) else None
  }

  // Undoing a log decides each file by its oldest entry.
  lemma {:induction false} RestoreAllAt(workspace: map<string, string>, folder: map<string, string>, log: seq<Entry>,
                                        file: string)
    requires Backed(folder, log)
    ensures StateOf(RestoreAll(workspace, folder, log), file) ==
      if FirstFor(log, file).Some? then EntryState(folder, FirstFor(log, file).value) else StateOf(workspace, file)
    decreases |log|
  {
    if log != [] {
      var e, older := log[|log| - 1], log[..|log| - 1];
      RestoreAllAt(RestoreEntry(workspace, folder, e), folder, older, file);
    }
  }

  lemma {:induction false} FirstForConcat(a: seq<Entry>, b: seq<Entry>, file: string)
    ensures FirstFor(a + b, file) == if FirstFor(a, file).Some? then FirstFor(a, file) else FirstFor(b, file)
  {
    if b == [] {
      assert a + b == a;
    } else {
      FirstForConcat(a, b[..|b| - 1], file);
      assert (a + b)[..|a + b| - 1] == a + b[..|b| - 1];
    }
  }

  // ---------- Runs ----------

  // A backed-up mutation of one file (its new contents, or None for removal), or a step undone.
  datatype Op = Apply(file: string, step: int, kind: Kind, after: Option<string>) | Undo(step: int)

  function Written(workspace: map<string, string>, file: string, after: Option<string>): map<string, string> {
    if after.Some? then workspace[file := after.value] else workspace - {file}
  }

  // A file is only mutated when create_backup has answered True.
  function Exec(st: Store, op: Op): Store {
    match op
    case Apply(file, step, kind, after) =>
      var backed := AfterBackup(st, file, step, kind);
      if Recorded(backed.log, file, step) then backed.(workspace := Written(backed.workspace, file, after)) else st
    case Undo(step) => AfterUndo(st, step)
  }

  function Run(st: Store, ops: seq<Op>): Store
    decreases |ops|
  {
    if ops == [] then st else Exec(Run(st, ops[..|ops| - 1]), ops[|ops| - 1])
  }

  // The entries of the step are the newest ones of the log; there may be none.
  ghost predicate IsNewest(log: seq<Entry>, step: int) {
    forall i, j :: 0 <= i < j < |log| && log[i].step == step ==> log[j].step == step
  }

  // CREATE is used on absent files, unless this step already holds a record of the file.
  predicate CreatesAbsent(st: Store, op: Op) {
    op.Apply? && op.kind == Create && !Recorded(st.log, op.file, op.step) ==> op.file !in st.workspace
  }

  // Mutations of any step in any order, with undoing of the newest step.
  ghost predicate Orderly(st: Store, ops: seq<Op>)
    decreases |ops|
  {
    ops == [] ||
    (var before := Run(st, ops[..|ops| - 1]);
     var op := ops[|ops| - 1];
     Orderly(st, ops[..|ops| - 1]) && CreatesAbsent(before, op) && (op.Undo? ==> IsNewest(before.log, op.step)))
  }

  ghost predicate Named(st: Store) {
    forall i :: 0 <= i < |st.log| ==>
      if st.log[i].action == Created then st.log[i].backup == None
      else st.log[i].backup == Some(BackupName(i + 1, st.log[i].file)) && st.log[i].backup.value in st.folder
  }

  // Undoing `log` from the store's workspace would bring file back to its state in `origin`.
  ghost predicate LeadsBack(st: Store, log: seq<Entry>, origin: map<string, string>, file: string) {
    match FirstFor(log, file)
    case None => StateOf(st.workspace, file) == StateOf(origin, file)
    case Some(e) => EntryState(st.folder, e) == StateOf(origin, file)
  }

  ghost predicate Undoes(st: Store, log: seq<Entry>, origin: map<string, string>) {
    forall f :: LeadsBack(st, log, origin, f)
  }

  lemma RestoreFromUndoes(st: Store, log: seq<Entry>, origin: map<string, string>)
    requires Backed(st.folder, log) && Undoes(st, log, origin)
    ensures RestoreAll(st.workspace, st.folder, log) == origin
  {
    var w := RestoreAll(st.workspace, st.folder, log);
    forall f ensures StateOf(w, f) == StateOf(origin, f) {
      RestoreAllAt(st.workspace, st.folder, log, f);
      assert LeadsBack(st, log, origin, f);
    }
    assert forall f :: f in w <==> StateOf(w, f).Some?;
    assert forall f :: f in origin <==> StateOf(origin, f).Some?;
  }

  // ---------- Applying keeps what the log can undo ----------

  lemma AppliedFolderKeepsEntries(st: Store, op: Op, i: nat)
    requires Named(st) && op.Apply? && i < |st.log|
    ensures EntryState(Exec(st, op).folder, st.log[i]) == EntryState(st.folder, st.log[i])
  {
    if st.log[i].action != Created && st.log[i].backup == Some(BackupName(|st.log| + 1, op.file)) {
      BackupNameInjective(i + 1, st.log[i].file, |st.log| + 1, op.file);
    }
  }

  lemma ApplyKeepsNamed(st: Store, op: Op)
    requires Named(st) && op.Apply?
    ensures Named(Exec(st, op))
  {
  }

  // A file with an entry may be changed at will.
  lemma WriteLeadsBack(st: Store, log: seq<Entry>, origin: map<string, string>, target: string, after: Option<string>,
                       file: string)
    requires LeadsBack(st, log, origin, file) && FirstFor(log, target).Some?
    ensures LeadsBack(st.(workspace := Written(st.workspace, target, after)), log, origin, file)
  {
  }

  // A new entry that holds the present state of its file undoes nothing wrongly.
  lemma AppendLeadsBack(st: Store, folder: map<string, string>, log: seq<Entry>, e: Entry, origin: map<string, string>,
                        file: string)
    requires LeadsBack(st, log, origin, file)
    requires EntryState(folder, e) == StateOf(st.workspace, e.file)
    requires FirstFor(log, file).Some? ==>
               EntryState(folder, FirstFor(log, file).value) == EntryState(st.folder, FirstFor(log, file).value)
    ensures LeadsBack(st.(folder := folder), log + [e], origin, file)
  {
    FirstForConcat(log, [e], file);
  }

  // `older` are the entries from before the log that is to be undone.
  lemma ApplyLeadsBack(st: Store, op: Op, older: seq<Entry>, log: seq<Entry>, origin: map<string, string>, file: string)
      returns (log': seq<Entry>)
    requires Named(st) && op.Apply? && st.log == older + log && CreatesAbsent(st, op)
    requires Recorded(st.log, op.file, op.step) ==> Recorded(log, op.file, op.step)
    requires LeadsBack(st, log, origin, file)
    ensures Exec(st, op).log == older + log' && LeadsBack(Exec(st, op), log', origin, file)
    ensures forall i :: 0 <= i < |log'| ==> log'[i] in log || log'[i].step == op.step
  {
    hide BackupName, FirstFor, LeadsBack;
    var backed := AfterBackup(st, op.file, op.step, op.kind);
    log' := log;
    if backed.log == st.log {
      if Recorded(st.log, op.file, op.step) { WriteLeadsBack(st, log, origin, op.file, op.after, file); }
    } else {
      var e := backed.log[|st.log|];
      log' := log + [e];
      assert backed.log == older + log';
      if FirstFor(log, file).Some? {
        var i :| 0 <= i < |log| && log[i] == FirstFor(log, file).value;
        assert st.log[|older| + i] == log[i];
        AppliedFolderKeepsEntries(st, op, |older| + i);
      }
      AppendLeadsBack(st, backed.folder, log, e, origin, file);
      assert backed.log[|st.log|] == e && Recorded(backed.log, op.file, op.step);
      FirstForConcat(log, [e], op.file);
      WriteLeadsBack(backed, log', origin, op.file, op.after, file);
    }
  }

  lemma ApplyUndoes(st: Store, op: Op, older: seq<Entry>, log: seq<Entry>, origin: map<string, string>)
      returns (log': seq<Entry>)
    requires Named(st) && op.Apply? && st.log == older + log && CreatesAbsent(st, op)
    requires Recorded(st.log, op.file, op.step) ==> Recorded(log, op.file, op.step)
    requires Undoes(st, log, origin)
    ensures Exec(st, op).log == older + log' && Undoes(Exec(st, op), log', origin)
    ensures forall i :: 0 <= i < |log'| ==> log'[i] in log || log'[i].step == op.step
  {
    hide LeadsBack, Exec, Named, Recorded, CreatesAbsent;
    assert LeadsBack(st, log, origin, op.file);
    log' := ApplyLeadsBack(st, op, older, log, origin, op.file);
    forall f ensures LeadsBack(Exec(st, op), log', origin, f) {
      assert LeadsBack(st, log, origin, f);
      var same := ApplyLeadsBack(st, op, older, log, origin, f);
      SamePart(older, log', same);
    }
  }

  lemma SamePart(older: seq<Entry>, a: seq<Entry>, b: seq<Entry>)
    requires older + a == older + b
    ensures a == b
  {
    assert a == (older + a)[|older|..] && b == (older + b)[|older|..];
  }

  // ---------- The newest step is a suffix of the log ----------

  ghost predicate NoneOfStep(log: seq<Entry>, step: int) {
    forall i :: 0 <= i < |log| ==> log[i].step != step
  }

  ghost predicate AllOfStep(log: seq<Entry>, step: int) {
    forall i :: 0 <= i < |log| ==> log[i].step == step
  }

  lemma {:induction false} NewestStart(log: seq<Entry>, step: int) returns (k: nat)
    requires IsNewest(log, step)
    ensures k <= |log| && NoneOfStep(log[..k], step) && AllOfStep(log[k..], step)
  {
    k := |log|;
    while k > 0 && log[k - 1].step == step
      invariant k <= |log| && AllOfStep(log[k..], step)
    {
      k := k - 1;
    }
  }

  lemma StepSnoc(log: seq<Entry>, e: Entry, step: int)
    ensures OfStep(log + [e], step) == OfStep(log, step) + if e.step == step then [e] else []
    ensures NotOfStep(log + [e], step) == NotOfStep(log, step) + if e.step != step then [e] else []
  {
    assert (log + [e])[..|log|] == log;
  }

  lemma {:induction false} NoneSplit(log: seq<Entry>, step: int)
    requires NoneOfStep(log, step)
    ensures OfStep(log, step) == [] && NotOfStep(log, step) == log
  {
    if log != [] {
      hide OfStep, NotOfStep;
      var rest, e := log[..|log| - 1], log[|log| - 1];
      SnocParts(log);
      NoneSplit(rest, step);
      StepSnoc(rest, e, step);
    }
  }

  lemma {:induction false} StepSplit(older: seq<Entry>, newest: seq<Entry>, step: int)
    requires NoneOfStep(older, step) && AllOfStep(newest, step)
    ensures OfStep(older + newest, step) == newest && NotOfStep(older + newest, step) == older
    decreases |newest|
  {
    hide OfStep, NotOfStep, NoneOfStep;
    if newest == [] {
      assert older + newest == older;
      NoneSplit(older, step);
    } else {
      var rest, e := newest[..|newest| - 1], newest[|newest| - 1];
      SnocParts(newest);
      StepSplit(older, rest, step);
      StepSnoc(older + rest, e, step);
      Assoc(older, rest, [e]);
    }
  }

  // ---------- Safety over runs ----------

  ghost predicate Good(st: Store, origin: map<string, string>) {
    Named(st) && Undoes(st, st.log, origin)
  }

  lemma ApplyKeepsGood(st: Store, op: Op, origin: map<string, string>)
    requires Good(st, origin) && op.Apply? && CreatesAbsent(st, op)
    ensures Good(Exec(st, op), origin)
  {
    ApplyKeepsNamed(st, op);
    assert Undoes(Exec(st, op), Exec(st, op).log, origin) by {
      forall f ensures LeadsBack(Exec(st, op), Exec(st, op).log, origin, f) {
        ApplyLeadsBackWhole(st, op, origin, f);
      }
    }
  }

  lemma ApplyLeadsBackWhole(st: Store, op: Op, origin: map<string, string>, file: string)
    requires Named(st) && op.Apply? && CreatesAbsent(st, op) && LeadsBack(st, st.log, origin, file)
    ensures LeadsBack(Exec(st, op), Exec(st, op).log, origin, file)
  {
    assert [] + st.log == st.log;
    var log' := ApplyLeadsBack(st, op, [], st.log, origin, file);
    assert [] + log' == log';
  }

  lemma NamedIsBacked(st: Store, k: nat)
    requires Named(st) && k <= |st.log|
    ensures Backed(st.folder, st.log[k..])
    ensures Named(st.(log := st.log[..k]))
  {
    forall i | 0 <= i < |st.log[k..]| && st.log[k..][i].action != Created
      ensures st.log[k..][i].backup.Some? && st.log[k..][i].backup.value in st.folder
    {
      assert st.log[k..][i] == st.log[k + i];
    }
  }

  // Undoing the newer entries leads each file back as far as the older ones need.
  lemma UndoLeadsBack(st: Store, older: seq<Entry>, newest: seq<Entry>, origin: map<string, string>, file: string)
    requires Backed(st.folder, newest) && LeadsBack(st, older + newest, origin, file)
    ensures LeadsBack(st.(workspace := RestoreAll(st.workspace, st.folder, newest)), older, origin, file)
  {
    FirstForConcat(older, newest, file);
    RestoreAllAt(st.workspace, st.folder, newest, file);
  }

  lemma UndoKeepsUndoes(st: Store, older: seq<Entry>, newest: seq<Entry>, origin: map<string, string>)
    requires Backed(st.folder, newest) && Undoes(st, older + newest, origin)
    ensures Undoes(st.(workspace := RestoreAll(st.workspace, st.folder, newest), log := older), older, origin)
  {
    var st' := st.(workspace := RestoreAll(st.workspace, st.folder, newest));
    forall f ensures LeadsBack(st'.(log := older), older, origin, f) {
      assert LeadsBack(st, older + newest, origin, f);
      UndoLeadsBack(st, older, newest, origin, f);
    }
  }

  lemma NamedPrefix(st: Store, k: nat, workspace: map<string, string>)
    requires Named(st) && k <= |st.log|
    ensures Named(Store(workspace, st.folder, st.log[..k]))
  {
  }

  lemma UndoKeepsGood(st: Store, step: int, origin: map<string, string>)
    requires Good(st, origin) && IsNewest(st.log, step)
    ensures Good(AfterUndo(st, step), origin)
  {
    hide Named, Undoes, RestoreAll, OfStep, NotOfStep;
    var k := NewestStart(st.log, step);
    var older, newest := st.log[..k], st.log[k..];
    SplitParts(st.log, k);
    StepSplit(older, newest, step);
    NamedIsBacked(st, k);
    UndoKeepsUndoes(st, older, newest, origin);
    NamedPrefix(st, k, RestoreAll(st.workspace, st.folder, newest));
  }

  lemma {:induction false} RunIsGood(origin: map<string, string>, folder: map<string, string>, ops: seq<Op>)
    requires Orderly(Store(origin, folder, []), ops)
    ensures Good(Run(Store(origin, folder, []), ops), origin)
    decreases |ops|
  {
    if ops != [] {
      RunIsGood(origin, folder, ops[..|ops| - 1]);
      var before, op := Run(Store(origin, folder, []), ops[..|ops| - 1]), ops[|ops| - 1];
      if op.Apply? { ApplyKeepsGood(before, op, origin); } else { UndoKeepsGood(before, op.step, origin); }
    }
  }

  // Rolling a session back gives exactly the workspace it started from.
  lemma SessionRollbackRestores(origin: map<string, string>, folder: map<string, string>, ops: seq<Op>)
    requires Orderly(Store(origin, folder, []), ops)
    ensures var st := Run(Store(origin, folder, []), ops); RestoreAll(st.workspace, st.folder, st.log) == origin
  {
    RunIsGood(origin, folder, ops);
    var st := Run(Store(origin, folder, []), ops);
    RestoreFromUndoes(st, st.log, origin);
  }

  // Live backups never share a name.
  lemma LiveNamesDistinct(origin: map<string, string>, folder: map<string, string>, ops: seq<Op>, i: nat, j: nat)
    requires Orderly(Store(origin, folder, []), ops)
    requires i < j < |Run(Store(origin, folder, []), ops).log|
    ensures var log := Run(Store(origin, folder, []), ops).log;
      log[i].backup.Some? && log[j].backup.Some? ==> log[i].backup != log[j].backup
  {
    RunIsGood(origin, folder, ops);
    var log := Run(Store(origin, folder, []), ops).log;
    if log[i].backup.Some? && log[i].backup == log[j].backup {
      BackupNameInjective(i + 1, log[i].file, j + 1, log[j].file);
    }
  }

  // ---------- One step undone ----------

  ghost predicate AppliesOfStep(st: Store, ops: seq<Op>, step: int)
    decreases |ops|
  {
    ops == [] ||
    (AppliesOfStep(st, ops[..|ops| - 1], step) && ops[|ops| - 1].Apply? && ops[|ops| - 1].step == step
     && CreatesAbsent(Run(st, ops[..|ops| - 1]), ops[|ops| - 1]))
  }

  lemma {:induction false} StepRunLeadsBack(st: Store, ops: seq<Op>, step: int) returns (newest: seq<Entry>)
    requires Named(st) && NoneOfStep(st.log, step) && AppliesOfStep(st, ops, step)
    ensures var st' := Run(st, ops);
      Named(st') && st'.log == st.log + newest && AllOfStep(newest, step) && Undoes(st', newest, st.workspace)
    decreases |ops|
  {
    newest := [];
    if ops != [] {
      hide Undoes, Exec, Named, AllOfStep, NoneOfStep, Recorded, CreatesAbsent;
      var before := Run(st, ops[..|ops| - 1]);
      var op := ops[|ops| - 1];
      var log := StepRunLeadsBack(st, ops[..|ops| - 1], step);
      ApplyKeepsNamed(before, op);
      RecordedInNewest(st.log, log, op.file, step);
      newest := ApplyUndoes(before, op, st.log, log, st.workspace);
      StillOfStep(log, newest, step);
    }
  }

  lemma RecordedInNewest(older: seq<Entry>, newest: seq<Entry>, file: string, step: int)
    requires NoneOfStep(older, step)
    ensures Recorded(older + newest, file, step) ==> Recorded(newest, file, step)
  {
    if Recorded(older + newest, file, step) {
      var i :| 0 <= i < |older + newest| && (older + newest)[i].file == file && (older + newest)[i].step == step;
      assert newest[i - |older|].file == file;
    }
  }

  lemma StillOfStep(log: seq<Entry>, log': seq<Entry>, step: int)
    requires AllOfStep(log, step) && forall i :: 0 <= i < |log'| ==> log'[i] in log || log'[i].step == step
    ensures AllOfStep(log', step)
  {
  }

  // Undoing a step right after it gives exactly the workspace and the log from before it.
  lemma UndoReturnsToStepStart(st: Store, ops: seq<Op>, step: int)
    requires Named(st) && NoneOfStep(st.log, step) && AppliesOfStep(st, ops, step)
    ensures var undone := AfterUndo(Run(st, ops), step); undone.workspace == st.workspace && undone.log == st.log
  {
    var newest := StepRunLeadsBack(st, ops, step);
    var st' := Run(st, ops);
    StepSplit(st.log, newest, step);
    NamedIsBacked(st', |st.log|);
    assert st'.log[|st.log|..] == newest;
    RestoreFromUndoes(st', newest, st.workspace);
  }

  // ---------- Undoing every step, newest first ----------

  function UndoAll(st: Store): map<string, string>
    decreases |st.log|
  {
    if st.log == [] then st.workspace else UndoAll(AfterUndo(st, st.log[|st.log| - 1].step))
  }

  lemma {:induction false} RestoreAllConcat(workspace: map<string, string>, folder: map<string, string>, a: seq<Entry>,
                                            b: seq<Entry>)
    ensures RestoreAll(workspace, folder, a + b) == RestoreAll(RestoreAll(workspace, folder, b), folder, a)
    decreases |b|
  {
    if b == [] {
      assert a + b == a;
    } else {
      var e, rest := b[|b| - 1], b[..|b| - 1];
      assert (a + b)[..|a + b| - 1] == a + rest && (a + b)[|a + b| - 1] == e;
      RestoreAllConcat(RestoreEntry(workspace, folder, e), folder, a, rest);
    }
  }

  // Entries of one step are consecutive.
  ghost predicate Consecutive(log: seq<Entry>) {
    forall i, j, k :: 0 <= i < j < k < |log| && log[i].step == log[k].step ==> log[j].step == log[i].step
  }

  lemma NewestIsNewest(log: seq<Entry>)
    requires Consecutive(log) && log != []
    ensures IsNewest(log, log[|log| - 1].step)
  {
  }

  lemma UndoNewest(st: Store)
    requires Consecutive(st.log) && st.log != []
    ensures var undone := AfterUndo(st, st.log[|st.log| - 1].step);
      && |undone.log| < |st.log| && undone.folder == st.folder && Consecutive(undone.log)
      && RestoreAll(undone.workspace, undone.folder, undone.log) == RestoreAll(st.workspace, st.folder, st.log)
  {
    var step := st.log[|st.log| - 1].step;
    NewestIsNewest(st.log);
    var k := NewestStart(st.log, step);
    var older, newest := st.log[..k], st.log[k..];
    assert Consecutive(older);
    hide Consecutive, RestoreAll, IsNewest;
    SplitParts(st.log, k);
    StepSplit(older, newest, step);
    RestoreAllConcat(st.workspace, st.folder, older, newest);
  }

  lemma {:induction false} UndoAllIsSessionRollback(st: Store)
    requires Consecutive(st.log)
    ensures UndoAll(st) == RestoreAll(st.workspace, st.folder, st.log)
    decreases |st.log|
  {
    hide Consecutive, AfterUndo;
    if st.log != [] {
      hide RestoreAll;
      UndoNewest(st);
      UndoAllIsSessionRollback(AfterUndo(st, st.log[|st.log| - 1].step));
    }
  }

  // Each mutation is of the newest step or of one without entries.
  ghost predicate StepByStep(st: Store, ops: seq<Op>)
    decreases |ops|
  {
    ops == [] ||
    (var log := Run(st, ops[..|ops| - 1]).log;
     var op := ops[|ops| - 1];
     StepByStep(st, ops[..|ops| - 1])
     && (op.Apply? ==> log == [] || log[|log| - 1].step == op.step || NoneOfStep(log, op.step)))
  }

  lemma ApplyAppends(st: Store, op: Op)
    requires op.Apply?
    ensures var log' := Exec(st, op).log;
      log' == st.log || (|log'| > 0 && log'[|log'| - 1].step == op.step && log' == st.log + [log'[|log'| - 1]])
  {
  }

  lemma ConsecutiveSnoc(log: seq<Entry>, e: Entry)
    requires Consecutive(log) && (log == [] || log[|log| - 1].step == e.step || NoneOfStep(log, e.step))
    ensures Consecutive(log + [e])
  {
    var log' := log + [e];
    forall i, j, k | 0 <= i < j < k < |log'| && log'[i].step == log'[k].step
      ensures log'[j].step == log'[i].step
    {
      assert log[i] == log'[i] && log[j] == log'[j];
      if k < |log| { assert log[k] == log'[k]; } else { assert log[i].step == e.step; }
    }
  }

  lemma ApplyKeepsConsecutive(st: Store, op: Op)
    requires Consecutive(st.log) && op.Apply?
    requires st.log == [] || st.log[|st.log| - 1].step == op.step || NoneOfStep(st.log, op.step)
    ensures Consecutive(Exec(st, op).log)
  {
    hide Consecutive, NoneOfStep, Exec;
    ApplyAppends(st, op);
    var log' := Exec(st, op).log;
    if log' != st.log { ConsecutiveSnoc(st.log, log'[|log'| - 1]); }
  }

  lemma StepByStepLast(st: Store, ops: seq<Op>)
    requires ops != [] && Orderly(st, ops) && StepByStep(st, ops)
    ensures var before, op := Run(st, ops[..|ops| - 1]), ops[|ops| - 1];
      && Run(st, ops) == Exec(before, op) && Orderly(st, ops[..|ops| - 1]) && StepByStep(st, ops[..|ops| - 1])
      && (op.Undo? ==> IsNewest(before.log, op.step))
      && (op.Apply? ==> before.log == [] || before.log[|before.log| - 1].step == op.step
                        || NoneOfStep(before.log, op.step))
  {
    hide Exec, IsNewest, NoneOfStep, CreatesAbsent;
  }

  lemma UndoKeepsPrefix(st: Store, step: int)
    requires Consecutive(st.log) && IsNewest(st.log, step)
    ensures Consecutive(AfterUndo(st, step).log)
  {
    var k := NewestStart(st.log, step);
    SplitParts(st.log, k);
    StepSplit(st.log[..k], st.log[k..], step);
  }

  lemma ConsecutiveNext(before: Store, op: Op)
    requires Consecutive(before.log) && (op.Undo? ==> IsNewest(before.log, op.step))
    requires op.Apply? ==>
      before.log == [] || before.log[|before.log| - 1].step == op.step || NoneOfStep(before.log, op.step)
    ensures Consecutive(Exec(before, op).log)
  {
    hide Consecutive, IsNewest, NoneOfStep, AfterUndo, AfterBackup;
    if op.Apply? {
      ApplyKeepsConsecutive(before, op);
    } else {
      UndoKeepsPrefix(before, op.step);
    }
  }

  lemma {:induction false} RunIsConsecutive(origin: map<string, string>, folder: map<string, string>, ops: seq<Op>)
    requires Orderly(Store(origin, folder, []), ops) && StepByStep(Store(origin, folder, []), ops)
    ensures Consecutive(Run(Store(origin, folder, []), ops).log)
    decreases |ops|
  {
    hide Consecutive, IsNewest, NoneOfStep, Exec, Orderly, StepByStep;
    if ops != [] {
      hide Run;
      StepByStepLast(Store(origin, folder, []), ops);
      RunIsConsecutive(origin, folder, ops[..|ops| - 1]);
      ConsecutiveNext(Run(Store(origin, folder, []), ops[..|ops| - 1]), ops[|ops| - 1]);
    } else {
      EmptyIsConsecutive();
    }
  }

  lemma EmptyIsConsecutive()
    ensures Consecutive([])
  {
  }

  // After a run that goes step by step, undoing all steps newest first gives the starting workspace.
  lemma UndoingAllRestores(origin: map<string, string>, folder: map<string, string>, ops: seq<Op>)
    requires Orderly(Store(origin, folder, []), ops) && StepByStep(Store(origin, folder, []), ops)
    ensures UndoAll(Run(Store(origin, folder, []), ops)) == origin
  {
    RunIsConsecutive(origin, folder, ops);
    UndoAllIsSessionRollback(Run(Store(origin, folder, []), ops));
    SessionRollbackRestores(origin, folder, ops);
  }

  // ---------- CREATE on a file that exists ----------

  // As LeadsBack, with nothing claimed of a file whose oldest entry is a CREATE.
  ghost predicate LeadsBackUnlessCreated(st: Store, origin: map<string, string>, file: string) {
    match FirstFor(st.log, file)
    case None => StateOf(st.workspace, file) == StateOf(origin, file)
    case Some(e) => e.action == Created || EntryState(st.folder, e) == StateOf(origin, file)
  }

  ghost predicate AppliesOnly(ops: seq<Op>) {
    forall i :: 0 <= i < |ops| ==> ops[i].Apply?
  }

  lemma ApplyKeepsUnlessCreated(st: Store, op: Op, origin: map<string, string>, file: string)
    requires Named(st) && op.Apply? && LeadsBackUnlessCreated(st, origin, file)
    ensures LeadsBackUnlessCreated(Exec(st, op), origin, file)
  {
    hide Named, BackupName, FirstFor;
    var st' := Exec(st, op);
    if st'.log != st.log {
      assert st'.log == st.log + [st'.log[|st.log|]];
      FirstForConcat(st.log, [st'.log[|st.log|]], file);
    }
    if FirstFor(st.log, file).Some? {
      var i :| 0 <= i < |st.log| && st.log[i] == FirstFor(st.log, file).value;
      AppliedFolderKeepsEntries(st, op, i);
    }
  }

  lemma {:induction false} RunUnlessCreated(origin: map<string, string>, folder: map<string, string>, ops: seq<Op>,
                                            file: string)
    requires AppliesOnly(ops)
    ensures var st := Run(Store(origin, folder, []), ops); Named(st) && LeadsBackUnlessCreated(st, origin, file)
    decreases |ops|
  {
    if ops != [] {
      RunUnlessCreated(origin, folder, ops[..|ops| - 1], file);
      var before, op := Run(Store(origin, folder, []), ops[..|ops| - 1]), ops[|ops| - 1];
      ApplyKeepsNamed(before, op);
      ApplyKeepsUnlessCreated(before, op, origin, file);
    }
  }

  // Without any discipline on CREATE, a file comes back exactly unless it existed at the start and its
  // oldest entry says it was created.
  lemma SessionRollbackExact(origin: map<string, string>, folder: map<string, string>, ops: seq<Op>, file: string)
    requires AppliesOnly(ops)
    ensures var st := Run(Store(origin, folder, []), ops);
      StateOf(RestoreAll(st.workspace, st.folder, st.log), file) == StateOf(origin, file)
      <==> !(FirstFor(st.log, file).Some? && FirstFor(st.log, file).value.action == Created && file in origin)
  {
    RunUnlessCreated(origin, folder, ops, file);
    var st := Run(Store(origin, folder, []), ops);
    NamedIsBacked(st, 0);
    assert st.log[0..] == st.log;
    RestoreAllAt(st.workspace, st.folder, st.log, file);
  }

  // ---------- Undoing a step that is not the newest ----------

  ghost predicate HoldsName(log: seq<Entry>, name: string) {
    exists i :: 0 <= i < |log| && log[i].backup == Some(name)
  }

  lemma HolderOfName(st: Store, number: nat, file: string, i: nat)
    requires Named(st) && i < |st.log|
    ensures st.log[i].backup == Some(BackupName(number, file)) <==>
      i + 1 == number && st.log[i].action != Created && Basename(st.log[i].file) == Basename(file)
  {
    if st.log[i].backup == Some(BackupName(number, file)) {
      BackupNameInjective(i + 1, st.log[i].file, number, file);
    }
  }

  lemma FirstForSnoc(log: seq<Entry>, e: Entry, file: string)
    ensures FirstFor(log + [e], file)
            == if FirstFor(log, file).Some? then FirstFor(log, file) else if e.file == file then Some(e) else None
  {
    assert (log + [e])[..|log|] == log;
  }

  lemma {:induction false} FirstWithoutStep(log: seq<Entry>, step: int, file: string)
    ensures match FirstFor(log, file)
      case None => FirstFor(OfStep(log, step), file) == None && FirstFor(NotOfStep(log, step), file) == None
      case Some(e) => if e.step == step then FirstFor(OfStep(log, step), file) == Some(e)
                      else FirstFor(NotOfStep(log, step), file) == Some(e)
  {
    if log != [] {
      hide OfStep, NotOfStep, FirstFor;
      var rest, e := log[..|log| - 1], log[|log| - 1];
      FirstWithoutStep(rest, step, file);
      SnocParts(log);
      StepSnoc(rest, e, step);
      FirstForSnoc(rest, e, file);
      if e.step == step {
        FirstForSnoc(OfStep(rest, step), e, file);
        NothingMore(NotOfStep(rest, step));
      } else {
        FirstForSnoc(NotOfStep(rest, step), e, file);
        NothingMore(OfStep(rest, step));
      }
    }
  }

  lemma NothingMore<T>(s: seq<T>)
    ensures s + [] == s
  {
  }

  lemma {:induction false} PartsBacked(folder: map<string, string>, log: seq<Entry>, step: int)
    requires Backed(folder, log)
    ensures Backed(folder, OfStep(log, step)) && Backed(folder, NotOfStep(log, step))
  {
    if log != [] { PartsBacked(folder, log[..|log| - 1], step); }
  }

  // The oldest record of the file belongs to the step, records of other steps survive it, and the
  // oldest of those holds another state.
  predicate LosesOldest(st: Store, step: int, file: string) {
    var first, survivor := FirstFor(st.log, file), FirstFor(NotOfStep(st.log, step), file);
    && first.Some? && first.value.step == step && survivor.Some?
    && EntryState(st.folder, survivor.value) != EntryState(st.folder, first.value)
  }

  // Undoing any step and then rolling the session back restores a file exactly unless the undone step
  // takes the file's oldest record away and a younger one with another state stays.
  lemma UndoThenRollbackExact(st: Store, step: int, origin: map<string, string>, file: string)
    requires Good(st, origin)
    ensures var undone := AfterUndo(st, step);
      && (StateOf(RestoreAll(undone.workspace, undone.folder, undone.log), file) == StateOf(origin, file)
          <==> !LosesOldest(st, step, file))
  {
    hide Named, RestoreAll, OfStep, NotOfStep, FirstFor;
    NamedIsBacked(st, 0);
    assert st.log[0..] == st.log;
    PartsBacked(st.folder, st.log, step);
    FirstWithoutStep(st.log, step, file);
    assert LeadsBack(st, st.log, origin, file);
    RestoreAllAt(st.workspace, st.folder, OfStep(st.log, step), file);
    RestoreAllAt(AfterUndo(st, step).workspace, st.folder, NotOfStep(st.log, step), file);
  }

  // Over runs: an orderly run, then any step undone.
  lemma RunThenUndoExact(origin: map<string, string>, folder: map<string, string>, ops: seq<Op>, step: int)
    requires Orderly(Store(origin, folder, []), ops)
    ensures var st := Run(Store(origin, folder, []), ops); var undone := AfterUndo(st, step);
      RestoreAll(undone.workspace, undone.folder, undone.log) == origin <==> forall f :: !LosesOldest(st, step, f)
  {
    RunIsGood(origin, folder, ops);
    var st := Run(Store(origin, folder, []), ops);
    var undone := AfterUndo(st, step);
    var w := RestoreAll(undone.workspace, undone.folder, undone.log);
    forall f ensures StateOf(w, f) == StateOf(origin, f) <==> !LosesOldest(st, step, f) {
      UndoThenRollbackExact(st, step, origin, f);
    }
    SameStates(w, origin);
  }

  lemma SameStates(a: map<string, string>, b: map<string, string>)
    ensures a == b <==> forall f :: StateOf(a, f) == StateOf(b, f)
  {
    if forall f :: StateOf(a, f) == StateOf(b, f) {
      assert forall f :: f in a <==> StateOf(a, f).Some?;
      assert forall f :: f in b <==> StateOf(b, f).Some?;
    }
  }

  // One file edited in steps 1 and 2 and step 1 undone: rolling back gives what step 1 had written.
  lemma UndoingTheFirstEditLosesTheOrigin(s0: Store, x: string, v1: string, v2: string)
    requires s0.log == [] && x in s0.workspace
    ensures var st := Run(s0, [Apply(x, 1, Replace, Some(v1))] + [Apply(x, 2, Replace, Some(v2))] + [Undo(1)]);
      StateOf(RestoreAll(st.workspace, st.folder, st.log), x) == Some(v1)
  {
    hide AfterBackup, AfterUndo, OfStep, NotOfStep, RestoreAll, BackupName;
    var a, b := Apply(x, 1, Replace, Some(v1)), Apply(x, 2, Replace, Some(v2));
    RunSnoc(s0, [a] + [b], Undo(1));
    RunSnoc(s0, [a], b);
    RunSnoc(s0, [], a);
    assert [] + [a] == [a];
    FreshReplace(s0, x, 1, v1);
    var s1 := Exec(s0, a);
    var e1, e2 := Entry(x, Some(BackupName(1, x)), 1, Modified), Entry(x, Some(BackupName(2, x)), 2, Modified);
    assert s1.log == [e1];
    FreshReplace(s1, x, 2, v2);
    var s2 := Exec(s1, b);
    OlderEntryUndone(s2, e1, e2);
    RestoreOne(AfterUndo(s2, 1).workspace, s2.folder, e2);
  }

  // The next backup of `file` after undoing `step` overwrites the copy of a live entry exactly when
  // the entry that now falls outside the shortened numbering survives and has the same base name.
  lemma NextNameTakenExactly(st: Store, step: int, file: string)
    requires Named(st)
    ensures var n := |NotOfStep(st.log, step)|;
      HoldsName(AfterUndo(st, step).log, BackupName(n + 1, file)) <==>
      (n < |st.log| && st.log[n].step != step && st.log[n].action != Created
       && Basename(st.log[n].file) == Basename(file))
  {
    var rest := NotOfStep(st.log, step);
    var n, name := |rest|, BackupName(|rest| + 1, file);
    if HoldsName(rest, name) {
      var k :| 0 <= k < |rest| && rest[k].backup == Some(name);
      NotOfStepMembers(st.log, step, rest[k]);
      var i :| 0 <= i < |st.log| && st.log[i] == rest[k];
      HolderOfName(st, n + 1, file, i);
    }
    if n < |st.log| && st.log[n].step != step {
      NotOfStepMembers(st.log, step, st.log[n]);
      var k :| 0 <= k < |rest| && rest[k] == st.log[n];
      HolderOfName(st, n + 1, file, n);
    }
  }

  lemma {:induction false} NotOfStepMembers(log: seq<Entry>, step: int, e: Entry)
    ensures e in NotOfStep(log, step) <==> e in log && e.step != step
  {
    if log != [] {
      NotOfStepMembers(log[..|log| - 1], step, e);
      assert log == log[..|log| - 1] + [log[|log| - 1]];
    }
  }

  lemma FreshReplace(st: Store, file: string, step: int, after: string)
    requires file in st.workspace && NoneOfStep(st.log, step)
    ensures var name := BackupName(|st.log| + 1, file);
      Exec(st, Apply(file, step, Replace, Some(after))) ==
      Store(st.workspace[file := after], st.folder[name := st.workspace[file]],
            st.log + [Entry(file, Some(name), step, Modified)])
  {
    var log := AfterBackup(st, file, step, Replace).log;
    assert log[|log| - 1].file == file && log[|log| - 1].step == step;
  }

  lemma {:induction false} RunSnoc(st: Store, ops: seq<Op>, op: Op)
    ensures Run(st, ops + [op]) == Exec(Run(st, ops), op)
  {
    assert (ops + [op])[..|ops|] == ops;
  }

  lemma RunFour(st: Store, a: Op, b: Op, c: Op, d: Op)
    ensures Run(st, [a] + [b] + [c] + [d]) == Exec(Exec(Exec(Exec(st, a), b), c), d)
  {
    RunSnoc(st, [a] + [b] + [c], d);
    RunSnoc(st, [a] + [b], c);
    RunSnoc(st, [a], b);
    RunSnoc(st, [], a);
    assert [] + [a] == [a];
  }

  lemma OlderEntryUndone(st: Store, e1: Entry, e2: Entry)
    requires st.log == [e1] + [e2] && e1.step != e2.step
    ensures AfterUndo(st, e1.step) == Store(RestoreEntry(st.workspace, st.folder, e1), st.folder, [e2])
  {
    StepSnoc([], e1, e1.step);
    StepSnoc([e1], e2, e1.step);
    assert [] + [e1] == [e1] && [] + [e2] == [e2];
    assert OfStep(st.log, e1.step) == [e1] && NotOfStep(st.log, e1.step) == [e2];
    RestoreOne(st.workspace, st.folder, e1);
  }

  lemma RestoreOne(workspace: map<string, string>, folder: map<string, string>, e: Entry)
    ensures RestoreAll(workspace, folder, [e]) == RestoreEntry(workspace, folder, e)
  {
    assert [e][..|[e]| - 1] == [];
  }

  lemma FirstRestored(st: Store, e2: Entry, e3: Entry)
    requires st.log == [e2] + [e3] && Backed(st.folder, st.log)
    ensures StateOf(RestoreAll(st.workspace, st.folder, st.log), e2.file) == EntryState(st.folder, e2)
  {
    FirstForConcat([e2], [e3], e2.file);
    RestoreAllAt(st.workspace, st.folder, st.log, e2.file);
  }

  // Files x and y edited in steps 1 and 2, step 1 undone, and a file z edited in step 3: rolling the
  // session back gives y the contents of z whenever y and z have the same base name.
  lemma UndoingAnOlderStepLosesABackup(s0: Store, x: string, y: string, z: string, after: string)
    requires s0.log == [] && x in s0.workspace && y in s0.workspace && z in s0.workspace
    requires x != y && x != z && y != z && Basename(y) == Basename(z)
    ensures var st := Run(s0, [Apply(x, 1, Replace, Some(after))] + [Apply(y, 2, Replace, Some(after))] + [Undo(1)]
                          + [Apply(z, 3, Replace, Some(after))]);
      StateOf(RestoreAll(st.workspace, st.folder, st.log), y) == Some(s0.workspace[z])
  {
    var a, b, c := Apply(x, 1, Replace, Some(after)), Apply(y, 2, Replace, Some(after)),
      Apply(z, 3, Replace, Some(after));
    EditsThenUndo(s0, x, y, z, after);
    LastCopyWins(Exec(Exec(Exec(s0, a), b), Undo(1)), Entry(y, Some(BackupName(2, y)), 2, Modified), z, after);
    RunFour(s0, a, b, Undo(1), c);
  }

  lemma EditsThenUndo(s0: Store, x: string, y: string, z: string, after: string)
    requires s0.log == [] && x in s0.workspace && y in s0.workspace && z in s0.workspace && x != y && x != z && y != z
    ensures var s3 := Exec(Exec(Exec(s0, Apply(x, 1, Replace, Some(after))), Apply(y, 2, Replace, Some(after))),
                           Undo(1));
      s3.log == [Entry(y, Some(BackupName(2, y)), 2, Modified)] && z in s3.workspace
      && s3.workspace[z] == s0.workspace[z]
  {
    hide AfterBackup, AfterUndo;
    FreshReplace(s0, x, 1, after);
    var s1 := Exec(s0, Apply(x, 1, Replace, Some(after)));
    var e1, e2 := Entry(x, Some(BackupName(1, x)), 1, Modified), Entry(y, Some(BackupName(2, y)), 2, Modified);
    assert s1.log == [e1];
    FreshReplace(s1, y, 2, after);
    var s2 := Exec(s1, Apply(y, 2, Replace, Some(after)));
    assert s2.log == [e1] + [e2] && s2.workspace[z] == s0.workspace[z];
    OlderEntryUndone(s2, e1, e2);
  }

  lemma LastCopyWins(s3: Store, e2: Entry, z: string, after: string)
    requires s3.log == [e2] && e2.action == Modified && e2.backup == Some(BackupName(2, z)) && e2.step == 2
    requires z in s3.workspace && e2.file != z
    ensures var s4 := Exec(s3, Apply(z, 3, Replace, Some(after)));
      StateOf(RestoreAll(s4.workspace, s4.folder, s4.log), e2.file) == Some(s3.workspace[z])
  {
    FreshReplace(s3, z, 3, after);
    FirstRestored(Exec(s3, Apply(z, 3, Replace, Some(after))), e2, Entry(z, Some(BackupName(2, z)), 3, Modified));
  }

  // ---------- Restoring a single file ----------

  // restore_file: the oldest entry that can act decides. A "created" entry of a file that is
  // already gone cannot act, so the scan goes on to younger entries.
  function ScanFile(workspace: map<string, string>, folder: map<string, string>, log: seq<Entry>,
                    file: string): (map<string, string>, bool) {
    if log == [] then (workspace, false)
    else
      var e := log[0];
      if e.file == file && e.action == Created && file in workspace then (workspace - {file}, true)
      else if e.file == file && e.action != Created && e.backup.Some? && e.backup.value in folder
      then (workspace[file := folder[e.backup.value]], true)
      else ScanFile(workspace, folder, log[1..], file)
  }

  lemma {:induction false} FirstForIndex(log: seq<Entry>, file: string) returns (i: nat)
    requires FirstFor(log, file).Some?
    ensures i < |log| && log[i] == FirstFor(log, file).value && forall k :: 0 <= k < i ==> log[k].file != file
  {
    var older := log[..|log| - 1];
    if FirstFor(older, file).Some? {
      i := FirstForIndex(older, file);
    } else {
      i := |log| - 1;
      forall k | 0 <= k < i ensures log[k].file != file { assert older[k] == log[k]; }
    }
  }

  lemma {:induction false} ScanSkips(workspace: map<string, string>, folder: map<string, string>, log: seq<Entry>,
                                     file: string, i: nat)
    requires i <= |log| && forall k :: 0 <= k < i ==> log[k].file != file
    ensures ScanFile(workspace, folder, log, file) == ScanFile(workspace, folder, log[i..], file)
  {
    if i > 0 {
      ScanSkips(workspace, folder, log[1..], file, i - 1);
      assert log[1..][i - 1..] == log[i..];
    }
  }

  ghost predicate HasCopy(log: seq<Entry>, file: string) {
    exists i :: 0 <= i < |log| && log[i].file == file && log[i].action != Created
  }

  lemma {:induction false} ScanOfAbsentFile(workspace: map<string, string>, folder: map<string, string>,
                                            log: seq<Entry>, file: string)
    requires Backed(folder, log) && file !in workspace
    ensures file in ScanFile(workspace, folder, log, file).0 <==> HasCopy(log, file)
  {
    if log != [] && !(log[0].file == file && log[0].action != Created) {
      var rest := log[1..];
      assert forall i :: 0 <= i < |rest| ==> rest[i] == log[i + 1];
      ScanOfAbsentFile(workspace, folder, rest, file);
      assert HasCopy(rest, file) ==> HasCopy(log, file);
      if HasCopy(log, file) {
        var i :| 0 <= i < |log| && log[i].file == file && log[i].action != Created;
        assert rest[i - 1] == log[i];
      }
    }
  }

  // restore_file brings a recorded file back to its state in `origin` unless the session created
  // the file, it is gone now, and a younger entry still holds a copy of it.
  lemma RestoreFileExact(st: Store, origin: map<string, string>, file: string)
    requires Named(st) && LeadsBack(st, st.log, origin, file) && FirstFor(st.log, file).Some?
    ensures StateOf(ScanFile(st.workspace, st.folder, st.log, file).0, file) == StateOf(origin, file)
      <==> !(FirstFor(st.log, file).value.action == Created && file !in st.workspace && HasCopy(st.log, file))
  {
    var i := FirstForIndex(st.log, file);
    ScanSkips(st.workspace, st.folder, st.log, file, i);
    NamedIsBacked(st, 0);
    assert st.log[0..] == st.log && st.log[i..][0] == st.log[i];
    if st.log[i].action == Created && file !in st.workspace {
      ScanOfAbsentFile(st.workspace, st.folder, st.log, file);
    }
  }

  // ---------- The manager ----------

  datatype Result<T> = Ok(value: T) | BackupError

  function FilesOf(log: seq<Entry>): set<string> {
    set e | e in log :: e.file
  }

  predicate Acts(workspace: map<string, string>, folder: map<string, string>, e: Entry) {
    if e.action == Created then e.file in workspace else e.backup.Some? && e.backup.value in folder
  }

  // The files an undo reports: those it removed or copied back.
  function RestoredFiles(workspace: map<string, string>, folder: map<string, string>, log: seq<Entry>): seq<string>
    decreases |log|
  {
    if log == [] then []
    else
      var e := log[|log| - 1];
      (if Acts(workspace, folder, e) then [e.file] else [])
        + RestoredFiles(RestoreEntry(workspace, folder, e), folder, log[..|log| - 1])
  }

  lemma RevertOne(workspace: map<string, string>, folder: map<string, string>, entries: seq<Entry>, i: nat)
    requires i < |entries|
    ensures var e := entries[i];
      RestoreAll(workspace, folder, entries[..i + 1])
        == RestoreAll(RestoreEntry(workspace, folder, e), folder, entries[..i])
      && RestoredFiles(workspace, folder, entries[..i + 1]) ==
         (if Acts(workspace, folder, e) then [e.file] else [])
           + RestoredFiles(RestoreEntry(workspace, folder, e), folder, entries[..i])
  {
    assert entries[..i + 1][..i] == entries[..i];
  }

  // An entry of the file has its copy in the folder.
  ghost predicate HasKept(folder: map<string, string>, log: seq<Entry>, file: string) {
    exists e :: e in log && e.file == file && e.action != Created && e.backup.Some? && e.backup.value in folder
  }

  ghost predicate HasCreated(log: seq<Entry>, file: string) {
    exists e :: e in log && e.file == file && e.action == Created
  }

  lemma EntriesSplit(folder: map<string, string>, log: seq<Entry>, rest: seq<Entry>, e: Entry, file: string)
    requires log == rest + [e] || log == [e] + rest
    ensures HasKept(folder, log, file)
       <==> HasKept(folder, rest, file)
            || (e.file == file && e.action != Created && e.backup.Some? && e.backup.value in folder)
    ensures HasCreated(log, file) <==> HasCreated(rest, file) || (e.file == file && e.action == Created)
  {
    assert forall x :: x in log <==> x in rest || x == e;
  }

  // A file is reported as restored iff the folder has a copy of it, or it was created and is there.
  lemma {:induction false} ReportedExactly(workspace: map<string, string>, folder: map<string, string>,
                                           log: seq<Entry>, file: string)
    ensures file in RestoredFiles(workspace, folder, log)
       <==> HasKept(folder, log, file) || (file in workspace && HasCreated(log, file))
    decreases |log|
  {
    if log != [] {
      var rest, e := log[..|log| - 1], log[|log| - 1];
      EntriesSplit(folder, log, rest, e, file);
      ReportedExactly(RestoreEntry(workspace, folder, e), folder, rest, file);
      hide HasKept, HasCreated;
    }
  }

  // So is the answer of a single restore, which otherwise leaves the workspace and always leaves other files.
  lemma {:induction false} ScannedExactly(workspace: map<string, string>, folder: map<string, string>,
                                          log: seq<Entry>, file: string)
    ensures var (after, restored) := ScanFile(workspace, folder, log, file);
      && (restored <==> HasKept(folder, log, file) || (file in workspace && HasCreated(log, file)))
      && (if restored then after - {file} == workspace - {file} else after == workspace)
    decreases |log|
  {
    if log != [] {
      EntriesSplit(folder, log, log[1..], log[0], file);
      ScannedExactly(workspace, folder, log[1..], file);
      hide HasKept, HasCreated;
    }
  }

  // ---------- Who may write a checkpoint ----------

  // The governed session recorded in a checkpoint, and those its managers work for.
  datatype Checkpoint = Checkpoint(owner: Option<string>, managers: seq<Option<string>>)

  // Manager m saves: refused between two different governed sessions, otherwise owner and manager agree
  // afterwards.
  function SaveBy(c: Checkpoint, m: nat): (r: Checkpoint)
    requires m < |c.managers|
    ensures |r.managers| == |c.managers|
  {
    var governed := c.managers[m];
    if c.owner.Some? && governed.Some? && c.owner != governed then c
    else
      var owner := if governed.Some? then governed else c.owner;
      Checkpoint(owner, c.managers[m := owner])
  }

  function Saves(c: Checkpoint, ms: seq<nat>): (r: Checkpoint)
    requires forall i :: 0 <= i < |ms| ==> ms[i] < |c.managers|
    ensures |r.managers| == |c.managers|
  {
    if ms == [] then c else SaveBy(Saves(c, ms[..|ms| - 1]), ms[|ms| - 1])
  }

  // Over any run of saves an owner never changes. A manager of that session or of none always saves, and
  // a manager of another session never does.
  lemma {:induction false} OwnerStays(c: Checkpoint, ms: seq<nat>, m: nat)
    requires (forall i :: 0 <= i < |ms| ==> ms[i] < |c.managers|) && m < |c.managers| && c.owner.Some?
    ensures var r := Saves(c, ms);
      && r.owner == c.owner
      && (if c.managers[m] == None || c.managers[m] == c.owner
          then (r.managers[m] == None || r.managers[m] == c.owner) && SaveBy(r, m).managers[m] == c.owner
          else r.managers[m] == c.managers[m] && SaveBy(r, m) == r)
  {
    if ms != [] {
      assert ms[|ms| - 1] < |c.managers|;
      OwnerStays(c, ms[..|ms| - 1], m);
    }
  }

  // Without an owner the first manager that works for a session becomes it.
  lemma {:induction false} FirstSessionOwns(c: Checkpoint, ms: seq<nat>)
    requires (forall i :: 0 <= i < |ms| ==> ms[i] < |c.managers|) && c.owner == None
    ensures Saves(c, ms).owner == None <==> forall i :: 0 <= i < |ms| ==> c.managers[ms[i]] == None
    ensures Saves(c, ms).owner == None ==> Saves(c, ms) == c
    ensures Saves(c, ms).owner.Some? ==>
              exists i :: 0 <= i < |ms| && c.managers[ms[i]] == Saves(c, ms).owner
                          && forall j :: 0 <= j < i ==> c.managers[ms[j]] == None
  {
    if ms != [] {
      var before := ms[..|ms| - 1];
      assert forall i :: 0 <= i < |before| ==> before[i] == ms[i];
      FirstSessionOwns(c, before);
      if Saves(c, before).owner.Some? { OwnerKept(Saves(c, before), ms[|ms| - 1]); }
    }
  }

  lemma OwnerKept(c: Checkpoint, m: nat)
    requires m < |c.managers| && c.owner.Some?
    ensures SaveBy(c, m).owner == c.owner
  {
  }

  class BackupManager {
    var workspace: map<string, string>
    var folder: map<string, string>
    var log: seq<Entry>                // metadata.json
    var owner: Option<string>          // the governed session recorded in metadata.json
    var governed: Option<string>       // the governed session this manager works for
    var backedUpFiles: set<string>

    // Opens the session's folder, which may exist already.
    constructor (st: Store, owner: Option<string>, governed: Option<string>)
      ensures Contents() == st && this.owner == owner && this.governed == governed && backedUpFiles == {}
    {
      this.workspace, this.folder, this.log := st.workspace, st.folder, st.log;
      this.owner, this.governed, this.backedUpFiles := owner, governed, {};
    }

    ghost function Contents(): Store
      reads this
    {
      Store(workspace, folder, log)
    }

    // A checkpoint of one governed session cannot be reassigned to another.
    method SaveMetadata(backups: seq<Entry>) returns (ok: bool)
      modifies this`log, this`owner, this`governed
      ensures !ok <==> old(owner).Some? && old(governed).Some? && old(owner) != old(governed)
      ensures Checkpoint(owner, [governed]) == SaveBy(Checkpoint(old(owner), [old(governed)]), 0)
      ensures ok ==> log == backups && owner == governed == if old(governed).Some? then old(governed) else old(owner)
      ensures !ok ==> log == old(log) && owner == old(owner) && governed == old(governed)
    {
      if owner.Some? && governed.Some? && owner != governed { return false; }
      if governed == None { governed := owner; }
      owner := governed;
      log := backups;
      return true;
    }

    method CreateBackup(file: string, step: int, kind: Kind) returns (r: Result<bool>)
      modifies this
      ensures var backed := AfterBackup(old(Contents()), file, step, kind);
        if backed.log != old(log) && old(owner).Some? && old(governed).Some? && old(owner) != old(governed)
        then r == BackupError && Contents() == old(Contents()).(folder := backed.folder)
        else r == Ok(Recorded(backed.log, file, step)) && Contents() == backed
      ensures if log != old(log) then owner == governed == if old(governed).Some? then old(governed) else old(owner)
              else owner == old(owner) && governed == old(governed)
      ensures r == Ok(true) ==> file in backedUpFiles
    {
      backedUpFiles := backedUpFiles + FilesOf(log);
      var i := 0;
      while i < |log|
        invariant 0 <= i <= |log| && forall k :: 0 <= k < i ==> !(log[k].file == file && log[k].step == step)
      {
        if log[i].file == file && log[i].step == step { return Ok(true); }
        i := i + 1;
      }
      var backups: seq<Entry>;
      if kind == Create {
        backups := log + [Entry(file, None, step, Created)];
      } else {
        if file !in workspace { return Ok(false); }
        var name := BackupName(|log| + 1, file);
        folder := folder[name := workspace[file]];
        backups := log + [Entry(file, Some(name), step, if kind == Delete then Deleted else Modified)];
      }
      assert backups[|log|].file == file && backups[|log|].step == step && |backups| != |log|;
      backedUpFiles := backedUpFiles + {file};
      var ok := SaveMetadata(backups);
      return if ok then Ok(true) else BackupError;
    }

    // Undoes one entry; `acted` if that changed or removed the file.
    method RevertEntry(e: Entry) returns (acted: bool)
      modifies this`workspace
      ensures workspace == RestoreEntry(old(workspace), folder, e) && acted == Acts(old(workspace), folder, e)
    {
      acted := false;
      if e.action == Created {
        if e.file in workspace { acted := true; }
        workspace := workspace - {e.file};
      } else if e.backup.Some? && e.backup.value in folder {
        workspace := workspace[e.file := folder[e.backup.value]];
        acted := true;
      }
    }

    // Undoes the given entries, newest first.
    method Revert(entries: seq<Entry>) returns (restored: seq<string>)
      modifies this`workspace
      ensures workspace == RestoreAll(old(workspace), folder, entries)
      ensures restored == RestoredFiles(old(workspace), folder, entries)
    {
      restored := [];
      var i := |entries|;
      assert entries[..i] == entries;
      while i > 0
        invariant 0 <= i <= |entries|
        invariant RestoreAll(workspace, folder, entries[..i]) == RestoreAll(old(workspace), folder, entries)
        invariant restored + RestoredFiles(workspace, folder, entries[..i])
                  == RestoredFiles(old(workspace), folder, entries)
      {
        hide RestoreAll, RestoredFiles, RestoreEntry, Acts;
        i := i - 1;
        var e := entries[i];
        RevertOne(workspace, folder, entries, i);
        ghost var rest := RestoredFiles(RestoreEntry(workspace, folder, e), folder, entries[..i]);
        var acted := RevertEntry(e);
        if acted {
          Assoc(restored, [e.file], rest);
          restored := restored + [e.file];
        } else {
          Assoc(restored, [], rest);
          assert restored + [] == restored;
        }
      }
    }

    method RollbackStep(step: int) returns (r: Result<seq<string>>)
      modifies this
      ensures var before := old(Contents());
        if OfStep(before.log, step) == [] then r == Ok([]) && Contents() == before
        else if old(owner).Some? && old(governed).Some? && old(owner) != old(governed) then
          r == BackupError && Contents() == before.(workspace := AfterUndo(before, step).workspace)
        else
          r == Ok(RestoredFiles(before.workspace, before.folder, OfStep(before.log, step)))
          && Contents() == AfterUndo(before, step) && backedUpFiles == FilesOf(log)
      ensures if r.Ok? && OfStep(old(log), step) != [] then
                owner == governed == if old(governed).Some? then old(governed) else old(owner)
              else owner == old(owner) && governed == old(governed)
    {
      var entries := OfStep(log, step);
      if entries == [] { return Ok([]); }
      var restored := Revert(entries);
      var ok := SaveMetadata(NotOfStep(log, step));
      if !ok { return BackupError; }
      backedUpFiles := FilesOf(log);
      return Ok(restored);
    }

    method RestoreFile(file: string) returns (restored: bool)
      modifies this`workspace
      ensures (workspace, restored) == ScanFile(old(workspace), folder, log, file)
    {
      var i := 0;
      while i < |log|
        invariant 0 <= i <= |log| && workspace == old(workspace)
        invariant ScanFile(workspace, folder, log, file) == ScanFile(workspace, folder, log[i..], file)
      {
        var e := log[i];
        assert log[i..][1..] == log[i + 1..];
        if e.file == file {
          if e.action == Created {
            if file in workspace {
              workspace := workspace - {file};
              return true;
            }
          } else if e.backup.Some? && e.backup.value in folder {
            workspace := workspace[file := folder[e.backup.value]];
            return true;
          }
        }
        i := i + 1;
      }
      return false;
    }

    // Restores every recorded file and removes the session folder.
    method RollbackSession() returns (restored: seq<string>)
      modifies this
      ensures Contents() == Store(RestoreAll(old(workspace), old(folder), old(log)), map[], [])
      ensures restored == RestoredFiles(old(workspace), old(folder), old(log))
      ensures owner == None && governed == old(governed)
    {
      restored := Revert(log);
      folder, log, owner := map[], [], None;
    }
  }
}
