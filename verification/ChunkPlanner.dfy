/** The chunk planner of a chunked apply session (apatch/apply_session.py).

    Applicable plan steps are split into chunks so that no target file is divided: every file
    spans the interval from its first to its last step, overlapping intervals are closed into
    atomic groups, and the groups are packed greedily by their number of distinct files. */
module ChunkPlanner {
  import opened Common
  import Decimal

  datatype PlanEntry = PlanEntry(step: int, resolvedPath: string, targetFile: string, wouldApply: bool) {
    // `resolved_path or target_file or ""`
    function Path(): string {
      if resolvedPath != "" then resolvedPath else targetFile
    }
  }

  // ---------- What a plan means ----------

  // The applicable steps in the order of their first entry.
  function ApplicableSteps(entries: seq<PlanEntry>): (steps: seq<int>)
    ensures forall s :: s in steps <==> exists e :: e in entries && e.wouldApply && e.step == s
    ensures forall i, j :: 0 <= i < j < |steps| ==> steps[i] != steps[j]
  {
    if entries == [] then []
    else
      var last := |entries| - 1;
      var before := ApplicableSteps(entries[..last]);
      assert entries == entries[..last] + [entries[last]];
      if entries[last].wouldApply && entries[last].step !in before
      then before + [entries[last].step] else before
  }

  function KnownFiles(entries: seq<PlanEntry>, step: int): set<string> {
    set e | e in entries && e.wouldApply && e.step == step && e.Path() != "" :: e.Path()
  }

  function PlaceholderFile(step: int): string {
    "__step__:" + Decimal.Show(step)
  }

  function Padded(step: int, known: set<string>): set<string> {
    if known == {} then {PlaceholderFile(step)} else known
  }

  // The files a step touches; a step without a known target takes one slot of its own.
  function FilesOfStep(entries: seq<PlanEntry>, step: int): (files: set<string>)
    ensures files != {}
  {
    Padded(step, KnownFiles(entries, step))
  }

  // The file sets of the applicable steps, by position.
  function Slots(entries: seq<PlanEntry>): (slots: seq<set<string>>)
    ensures |slots| == |ApplicableSteps(entries)|
    ensures forall p :: 0 <= p < |slots| ==> slots[p] != {}
  {
    var steps := ApplicableSteps(entries);
    seq(|steps|, p requires 0 <= p < |steps| => FilesOfStep(entries, steps[p]))
  }

  // ---------- Splits of a sequence of slots ----------

  // A split of n slots into consecutive non-empty pieces, as its cut positions.
  ghost predicate IsSplit(cuts: seq<nat>, n: nat) {
    && |cuts| > 0 && cuts[0] == 0 && cuts[|cuts| - 1] == n
    && forall i, j :: 0 <= i < j < |cuts| ==> cuts[i] < cuts[j]
  }

  // No file lies on both sides of position c.
  ghost predicate Clean(slots: seq<set<string>>, c: nat) {
    forall p, q :: 0 <= p < c <= q < |slots| ==> slots[p] !! slots[q]
  }

  function FilesIn(slots: seq<set<string>>, a: nat, b: nat): set<string>
    requires a <= b <= |slots|
  {
    set p, f | a <= p < b && f in slots[p] :: f
  }

  // A piece a chunk may hold: within the file limit, or impossible to divide further.
  ghost predicate Admissible(slots: seq<set<string>>, maxFiles: int, a: nat, b: nat)
    requires a <= b <= |slots|
  {
    |FilesIn(slots, a, b)| <= maxFiles || forall c :: a < c < b ==> !Clean(slots, c)
  }

  ghost predicate DividesNoFile(slots: seq<set<string>>, cuts: seq<nat>) {
    forall i :: 0 <= i < |cuts| ==> Clean(slots, cuts[i])
  }

  ghost predicate AdmissibleSplit(slots: seq<set<string>>, maxFiles: int, cuts: seq<nat>) {
    && IsSplit(cuts, |slots|)
    && DividesNoFile(slots, cuts)
    && forall i :: 0 < i < |cuts| ==>
       cuts[i - 1] <= cuts[i] <= |slots| && Admissible(slots, maxFiles, cuts[i - 1], cuts[i])
  }

  // The finest split that divides no file: it cuts exactly at the clean positions.
  ghost predicate FinestSplit(slots: seq<set<string>>, cuts: seq<nat>) {
    && IsSplit(cuts, |slots|)
    && forall c :: 0 <= c <= |slots| ==> (Clean(slots, c) <==> c in cuts)
  }

  ghost predicate MinimalSplit(slots: seq<set<string>>, maxFiles: int, cuts: seq<nat>) {
    && AdmissibleSplit(slots, maxFiles, cuts)
    && forall other :: AdmissibleSplit(slots, maxFiles, other) ==> |cuts| <= |other|
  }

  function Pieces(steps: seq<int>, cuts: seq<nat>): (pieces: seq<seq<int>>)
    requires forall i :: 0 <= i < |cuts| ==> cuts[i] <= |steps|
    requires forall i, j :: 0 <= i < j < |cuts| ==> cuts[i] <= cuts[j]
    ensures |pieces| == if cuts == [] then 0 else |cuts| - 1
  {
    if |cuts| <= 1 then []
    else Pieces(steps, cuts[..|cuts| - 1]) + [steps[cuts[|cuts| - 2]..cuts[|cuts| - 1]]]
  }

  // What `_build_chunks` promises.
  ghost predicate IsLayout(entries: seq<PlanEntry>, maxFiles: int, chunks: seq<seq<int>>) {
    exists cuts :: MinimalSplit(Slots(entries), maxFiles, cuts) && chunks == Pieces(ApplicableSteps(entries), cuts)
  }

  // ---------- Greedy packing is optimal ----------

  // No piece but the last could have taken any further indivisible group.
  ghost predicate Saturated(slots: seq<set<string>>, maxFiles: int, cuts: seq<nat>) {
    forall i, c :: 0 < i < |cuts| && cuts[i - 1] < cuts[i] < c <= |slots| && Clean(slots, c)
      ==> |FilesIn(slots, cuts[i - 1], c)| > maxFiles
  }

  lemma {:induction false} GreedyStaysAhead(slots: seq<set<string>>, maxFiles: int, cuts: seq<nat>, other: seq<nat>,
                                            i: nat)
    requires AdmissibleSplit(slots, maxFiles, cuts) && Saturated(slots, maxFiles, cuts)
    requires AdmissibleSplit(slots, maxFiles, other)
    requires i < |cuts| && i < |other|
    ensures other[i] <= cuts[i]
  {
    if i > 0 {
      GreedyStaysAhead(slots, maxFiles, cuts, other, i - 1);
      var from, to := other[i - 1], other[i];
      assert Admissible(slots, maxFiles, from, to);
      assert Clean(slots, to) && Clean(slots, cuts[i]);
      if cuts[i] < to {
        SubsetSize(FilesIn(slots, cuts[i - 1], to), FilesIn(slots, from, to));
      }
    }
  }

  lemma GreedyIsMinimal(slots: seq<set<string>>, maxFiles: int, cuts: seq<nat>)
    requires AdmissibleSplit(slots, maxFiles, cuts) && Saturated(slots, maxFiles, cuts)
    ensures MinimalSplit(slots, maxFiles, cuts)
  {
    forall other | AdmissibleSplit(slots, maxFiles, other)
      ensures |cuts| <= |other|
    {
      if |other| < |cuts| {
        assert cuts[|other| - 1] < cuts[|cuts| - 1];
        GreedyStaysAhead(slots, maxFiles, cuts, other, |other| - 1);
      }
    }
  }

  // ---------- The planner ----------

  // The files an entry adds to those known of a step.
  function NewFiles(entry: PlanEntry, step: int): set<string> {
    if entry.wouldApply && entry.step == step && entry.Path() != "" then {entry.Path()} else {}
  }

  lemma KnownFilesNext(entries: seq<PlanEntry>, i: nat, step: int)
    requires i < |entries|
    ensures KnownFiles(entries[..i + 1], step) == KnownFiles(entries[..i], step) + NewFiles(entries[i], step)
  {
    TakeNext(entries, i);
  }

  lemma StepsNext(entries: seq<PlanEntry>, i: nat)
    requires i < |entries|
    ensures var before := ApplicableSteps(entries[..i]);
      ApplicableSteps(entries[..i + 1])
      == if entries[i].wouldApply && entries[i].step !in before then before + [entries[i].step] else before
  {
    assert entries[..i + 1][..i] == entries[..i];
  }

  lemma NothingKnown(entries: seq<PlanEntry>, step: int)
    requires step !in ApplicableSteps(entries)
    ensures KnownFiles(entries, step) == {}
  {
  }

  method CollectSteps(entries: seq<PlanEntry>) returns (steps: seq<int>, stepFiles: map<int, set<string>>)
    ensures steps == ApplicableSteps(entries)
    ensures forall s :: s in stepFiles <==> s in steps
    ensures forall s :: s in stepFiles ==> stepFiles[s] == KnownFiles(entries, s)
  {
    steps, stepFiles := [], map[];
    assert ApplicableSteps(entries[..0]) == [];
    hide KnownFiles, ApplicableSteps;
    for i := 0 to |entries|
      invariant steps == ApplicableSteps(entries[..i])
      invariant forall s :: s in stepFiles <==> s in steps
      invariant forall s :: s in stepFiles ==> stepFiles[s] == KnownFiles(entries[..i], s)
    {
      var entry := entries[i];
      StepsNext(entries, i);
      if entry.step !in steps { NothingKnown(entries[..i], entry.step); }
      forall s
        ensures KnownFiles(entries[..i + 1], s) == KnownFiles(entries[..i], s) + NewFiles(entry, s)
      {
        KnownFilesNext(entries, i, s);
      }
      if entry.wouldApply {
        if entry.step !in stepFiles {
          steps := steps + [entry.step];
          stepFiles := stepFiles[entry.step := {}];
        }
        if entry.Path() != "" {
          stepFiles := stepFiles[entry.step := stepFiles[entry.step] + {entry.Path()}];
        }
      }
    }
    assert entries[..|entries|] == entries;
  }

  method AddPlaceholders(steps: seq<int>, stepFiles: map<int, set<string>>) returns (files: map<int, set<string>>)
    requires forall k :: 0 <= k < |steps| ==> steps[k] in stepFiles
    ensures files.Keys == stepFiles.Keys
    ensures forall k :: 0 <= k < |steps| ==> files[steps[k]] == Padded(steps[k], stepFiles[steps[k]])
  {
    files := stepFiles;
    for i := 0 to |steps|
      invariant files.Keys == stepFiles.Keys
      invariant forall s :: s in stepFiles ==>
                  files[s] == if s in steps[..i] then Padded(s, stepFiles[s]) else stepFiles[s]
    {
      TakeNext(steps, i);
      if files[steps[i]] == {} {
        files := files[steps[i] := files[steps[i]] + {PlaceholderFile(steps[i])}];
      }
    }
    assert steps[..|steps|] == steps;
  }

  // The file sets by position, as the planner's dictionary of step files stores them.
  ghost predicate Represents(steps: seq<int>, files: map<int, set<string>>, slots: seq<set<string>>) {
    && |steps| == |slots|
    && forall p :: 0 <= p < |slots| ==> steps[p] in files && files[steps[p]] == slots[p] && slots[p] != {}
  }

  ghost predicate IsLastPosition(slots: seq<set<string>>, upto: nat, last: map<string, nat>)
    requires upto <= |slots|
  {
    && (forall f :: f in last ==> last[f] < upto && f in slots[last[f]])
    && (forall p, f :: 0 <= p < upto && f in slots[p] ==> f in last && p <= last[f])
  }

  method LastPositions(steps: seq<int>, files: map<int, set<string>>, ghost slots: seq<set<string>>)
    returns (last: map<string, nat>)
    requires Represents(steps, files, slots)
    ensures IsLastPosition(slots, |slots|, last)
  {
    last := map[];
    for position := 0 to |steps|
      invariant IsLastPosition(slots, position, last)
    {
      last := last + map path | path in files[steps[position]] :: position;
    }
  }

  // `max(end, *(last_position[path] for path in paths))`
  method MaxLast(end: nat, paths: set<string>, last: map<string, nat>) returns (m: nat)
    requires paths <= last.Keys
    ensures end <= m && (m == end || exists f :: f in paths && last[f] == m)
    ensures forall f :: f in paths ==> last[f] <= m
  {
    m := end;
    var rest := paths;
    while rest != {}
      invariant rest <= paths
      invariant end <= m && (m == end || exists f :: f in paths && last[f] == m)
      invariant forall f :: f in paths - rest ==> last[f] <= m
    {
      var path :| path in rest;
      if last[path] > m { m := last[path]; }
      rest := rest - {path};
    }
  }

  // Two positions p < c <= q of one piece share a file, so the piece cannot be cut at c.
  ghost predicate Joined(slots: seq<set<string>>, start: nat, c: nat, end: nat) {
    exists p, q :: start <= p < c <= q <= end && q < |slots| && !(slots[p] !! slots[q])
  }

  lemma JoinedIsNotClean(slots: seq<set<string>>, start: nat, c: nat, end: nat)
    requires Joined(slots, start, c, end)
    ensures !Clean(slots, c)
  {
    var p, q :| start <= p < c <= q <= end && q < |slots| && !(slots[p] !! slots[q]);
  }

  // Behind the last position of all its files a group closes.
  lemma CleanBehind(slots: seq<set<string>>, last: map<string, nat>, start: nat, end: nat)
    requires IsLastPosition(slots, |slots|, last) && start <= end < |slots| && Clean(slots, start)
    requires forall p, f :: start <= p <= end && f in slots[p] ==> last[f] <= end
    ensures Clean(slots, end + 1)
  {
    forall p, q | 0 <= p < end + 1 <= q < |slots|
      ensures slots[p] !! slots[q]
    {
      if p >= start {
        forall f | f in slots[p] ensures f !in slots[q] {
          assert last[f] <= end;
        }
      }
    }
  }

  // Closes the interval of the group that begins at a clean position.
  method CloseGroup(steps: seq<int>, files: map<int, set<string>>, last: map<string, nat>, start: nat,
                    ghost slots: seq<set<string>>)
    returns (end: nat, group: set<string>)
    requires Represents(steps, files, slots) && IsLastPosition(slots, |slots|, last)
    requires start < |slots| && Clean(slots, start)
    ensures start <= end < |slots| && group == FilesIn(slots, start, end + 1)
    ensures Clean(slots, end + 1) && forall c :: start < c <= end ==> !Clean(slots, c)
  {
    end, group := start, {};
    var cursor := start;
    while cursor <= end
      invariant start <= end < |slots| && start <= cursor <= end + 1
      invariant group == FilesIn(slots, start, cursor)
      invariant forall p, f :: start <= p < cursor && f in slots[p] ==> last[f] <= end
      invariant forall c :: start < c <= end ==> Joined(slots, start, c, end)
      decreases |slots| - cursor
    {
      var paths := files[steps[cursor]];
      assert paths == slots[cursor];
      group := group + paths;
      var previous := end;
      end := MaxLast(end, paths, last);
      forall c | start < c <= end
        ensures Joined(slots, start, c, end)
      {
        if c <= previous {
          assert Joined(slots, start, c, previous);
          var p, q :| start <= p < c <= q <= previous && q < |slots| && !(slots[p] !! slots[q]);
        } else {
          var f :| f in paths && last[f] == end;
          assert f in slots[cursor] && f in slots[end];
        }
      }
      cursor := cursor + 1;
    }
    CleanBehind(slots, last, start, end);
    forall c | start < c <= end
      ensures !Clean(slots, c)
    {
      assert Joined(slots, start, c, end);
      JoinedIsNotClean(slots, start, c, end);
    }
  }

  // Group number i and its files are the piece between cuts i and i + 1.
  ghost predicate IsPiece(steps: seq<int>, slots: seq<set<string>>, cuts: seq<nat>, i: nat, group: seq<int>,
                          files: set<string>)
    requires |steps| == |slots|
  {
    && i + 1 < |cuts| && cuts[i] < cuts[i + 1] <= |steps|
    && group == steps[cuts[i]..cuts[i + 1]] && files == FilesIn(slots, cuts[i], cuts[i + 1])
  }

  lemma ExtendSplit(cuts: seq<nat>, n: nat, m: nat)
    requires IsSplit(cuts, n) && n < m
    ensures IsSplit(cuts + [m], m)
  {
  }

  // The finest split into atomic groups, with the files of each.
  method AtomicGroups(steps: seq<int>, files: map<int, set<string>>, ghost slots: seq<set<string>>)
    returns (groups: seq<seq<int>>, groupFiles: seq<set<string>>, ghost cuts: seq<nat>)
    requires Represents(steps, files, slots)
    ensures FinestSplit(slots, cuts) && |groups| == |groupFiles| == |cuts| - 1
    ensures forall i :: 0 <= i < |groups| ==> IsPiece(steps, slots, cuts, i, groups[i], groupFiles[i])
  {
    var last := LastPositions(steps, files, slots);
    groups, groupFiles, cuts := [], [], [0];
    var start := 0;
    while start < |steps|
      invariant start <= |slots| && IsSplit(cuts, start) && Clean(slots, start)
      invariant |groups| == |groupFiles| == |cuts| - 1
      invariant forall c :: 0 <= c <= start ==> (Clean(slots, c) <==> c in cuts)
      invariant forall i :: 0 <= i < |groups| ==> IsPiece(steps, slots, cuts, i, groups[i], groupFiles[i])
    {
      var end, group := CloseGroup(steps, files, last, start, slots);
      groups := groups + [steps[start..end + 1]];
      groupFiles := groupFiles + [group];
      ExtendSplit(cuts, start, end + 1);
      cuts := cuts + [end + 1];
      start := end + 1;
    }
  }

  // The sealed chunks, ending at position `open`.
  ghost predicate Packed(slots: seq<set<string>>, maxFiles: int, cuts: seq<nat>, open: nat) {
    && open <= |slots| && IsSplit(cuts, open) && DividesNoFile(slots, cuts) && Saturated(slots, maxFiles, cuts)
    && forall k :: 0 < k < |cuts| ==>
       cuts[k - 1] <= cuts[k] <= |slots| && Admissible(slots, maxFiles, cuts[k - 1], cuts[k])
  }

  lemma SaturatedSnoc(slots: seq<set<string>>, maxFiles: int, cuts: seq<nat>, at: nat)
    requires cuts != [] && cuts[|cuts| - 1] <= at <= |slots| && Saturated(slots, maxFiles, cuts)
    requires forall c :: at < c <= |slots| && Clean(slots, c) ==> |FilesIn(slots, cuts[|cuts| - 1], c)| > maxFiles
    ensures Saturated(slots, maxFiles, cuts + [at])
  {
    hide Clean, FilesIn;
    var longer := cuts + [at];
    forall i, c | 0 < i < |longer| && longer[i - 1] < longer[i] < c <= |slots| && Clean(slots, c)
      ensures |FilesIn(slots, longer[i - 1], c)| > maxFiles
    {
      assert longer[i - 1] == cuts[i - 1];
      if i < |cuts| { assert longer[i] == cuts[i]; }
    }
  }

  lemma DividesSnoc(slots: seq<set<string>>, cuts: seq<nat>, at: nat)
    requires DividesNoFile(slots, cuts) && Clean(slots, at)
    ensures DividesNoFile(slots, cuts + [at])
  {
    hide Clean;
  }

  lemma Seal(slots: seq<set<string>>, maxFiles: int, cuts: seq<nat>, open: nat, at: nat)
    requires Packed(slots, maxFiles, cuts, open) && open < at <= |slots|
    requires Clean(slots, at) && Admissible(slots, maxFiles, open, at)
    requires forall c :: at < c <= |slots| && Clean(slots, c) ==> |FilesIn(slots, open, c)| > maxFiles
    ensures Packed(slots, maxFiles, cuts + [at], at)
  {
    assert cuts != [] && cuts[|cuts| - 1] == open;
    ExtendSplit(cuts, open, at);
    DividesSnoc(slots, cuts, at);
    SaturatedSnoc(slots, maxFiles, cuts, at);
    hide Clean, FilesIn, Admissible, IsSplit, DividesNoFile, Saturated;
  }

  // A chunk that overflows with the next group overflows with everything further on.
  lemma Overflow(slots: seq<set<string>>, maxFiles: int, groupCuts: seq<nat>, open: nat, i: nat)
    requires FinestSplit(slots, groupCuts) && i + 1 < |groupCuts| && open <= groupCuts[i] < groupCuts[i + 1] <= |slots|
    requires |FilesIn(slots, open, groupCuts[i + 1])| > maxFiles
    ensures forall c :: groupCuts[i] < c <= |slots| && Clean(slots, c) ==> |FilesIn(slots, open, c)| > maxFiles
  {
    forall c | groupCuts[i] < c <= |slots| && Clean(slots, c)
      ensures |FilesIn(slots, open, c)| > maxFiles
    {
      NoCutInside(slots, groupCuts, i, c);
      SubsetSize(FilesIn(slots, open, groupCuts[i + 1]), FilesIn(slots, open, c));
    }
  }

  lemma NoCutInside(slots: seq<set<string>>, groupCuts: seq<nat>, i: nat, c: nat)
    requires FinestSplit(slots, groupCuts) && i + 1 < |groupCuts| && groupCuts[i] < c <= |slots| && Clean(slots, c)
    ensures groupCuts[i + 1] <= c
  {
    assert c in groupCuts;
    var k :| 0 <= k < |groupCuts| && groupCuts[k] == c;
    assert i < k && (k == i + 1 || groupCuts[i + 1] < groupCuts[k]);
  }

  // Adding a group that fits, or starting a chunk with it, gives a piece a chunk may hold.
  lemma Extends(slots: seq<set<string>>, maxFiles: int, groupCuts: seq<nat>, open: nat, i: nat)
    requires FinestSplit(slots, groupCuts) && i + 1 < |groupCuts| && open <= groupCuts[i] < groupCuts[i + 1] <= |slots|
    requires open == groupCuts[i] || |FilesIn(slots, open, groupCuts[i + 1])| <= maxFiles
    ensures Admissible(slots, maxFiles, open, groupCuts[i + 1])
  {
    if open == groupCuts[i] {
      forall c | open < c < groupCuts[i + 1]
        ensures !Clean(slots, c)
      {
        if Clean(slots, c) { NoCutInside(slots, groupCuts, i, c); }
      }
    }
  }

  lemma PiecesSnoc(steps: seq<int>, cuts: seq<nat>, open: nat, at: nat)
    requires IsSplit(cuts, open) && open < at <= |steps|
    ensures IsSplit(cuts + [at], at)
    ensures Pieces(steps, cuts + [at]) == Pieces(steps, cuts) + [steps[open..at]]
  {
    ExtendSplit(cuts, open, at);
    assert (cuts + [at])[..|cuts|] == cuts;
  }

  // The chunk being filled holds positions open..at.
  ghost predicate Filling(steps: seq<int>, slots: seq<set<string>>, maxFiles: int, open: nat, at: nat,
                          currentSteps: seq<int>, currentFiles: set<string>)
    requires |steps| == |slots|
  {
    && open <= at <= |slots|
    && currentSteps == steps[open..at] && currentFiles == FilesIn(slots, open, at)
    && Admissible(slots, maxFiles, open, at)
  }

  lemma Fill(steps: seq<int>, slots: seq<set<string>>, maxFiles: int, groupCuts: seq<nat>, i: nat, open: nat,
             currentSteps: seq<int>, currentFiles: set<string>, group: seq<int>, files: set<string>)
    requires |steps| == |slots| && FinestSplit(slots, groupCuts) && IsPiece(steps, slots, groupCuts, i, group, files)
    requires Filling(steps, slots, maxFiles, open, groupCuts[i], currentSteps, currentFiles)
    requires open == groupCuts[i] || |currentFiles + files| <= maxFiles
    ensures currentFiles + files == FilesIn(slots, open, groupCuts[i + 1])
    ensures Filling(steps, slots, maxFiles, open, groupCuts[i + 1], currentSteps + group, currentFiles + files)
  {
    assert currentFiles + files == FilesIn(slots, open, groupCuts[i + 1]);
    Extends(slots, maxFiles, groupCuts, open, i);
    assert steps[open..groupCuts[i]] + steps[groupCuts[i]..groupCuts[i + 1]] == steps[open..groupCuts[i + 1]];
  }

  lemma SealFull(steps: seq<int>, slots: seq<set<string>>, maxFiles: int, groupCuts: seq<nat>, i: nat, cuts: seq<nat>,
                 open: nat, currentSteps: seq<int>, currentFiles: set<string>, group: seq<int>, files: set<string>)
    requires |steps| == |slots| && FinestSplit(slots, groupCuts) && IsPiece(steps, slots, groupCuts, i, group, files)
    requires Packed(slots, maxFiles, cuts, open)
    requires Filling(steps, slots, maxFiles, open, groupCuts[i], currentSteps, currentFiles) && currentSteps != []
    requires |currentFiles + files| > maxFiles
    ensures Packed(slots, maxFiles, cuts + [groupCuts[i]], groupCuts[i])
    ensures Filling(steps, slots, maxFiles, groupCuts[i], groupCuts[i], [], {})
  {
    assert currentFiles + files == FilesIn(slots, open, groupCuts[i + 1]);
    assert groupCuts[i] in groupCuts;
    Overflow(slots, maxFiles, groupCuts, open, i);
    Seal(slots, maxFiles, cuts, open, groupCuts[i]);
  }

  // Greedy packing of the atomic groups.
  method Pack(steps: seq<int>, groups: seq<seq<int>>, groupFiles: seq<set<string>>, chunkMaxFiles: int,
              ghost slots: seq<set<string>>, ghost groupCuts: seq<nat>)
    returns (chunks: seq<seq<int>>, ghost cuts: seq<nat>)
    requires |steps| == |slots| && FinestSplit(slots, groupCuts) && |groups| == |groupFiles| == |groupCuts| - 1
    requires forall i :: 0 <= i < |groups| ==> IsPiece(steps, slots, groupCuts, i, groups[i], groupFiles[i])
    ensures Packed(slots, chunkMaxFiles, cuts, |slots|) && chunks == Pieces(steps, cuts)
  {
    chunks, cuts := [], [0];
    var currentSteps, currentFiles := [], {};
    ghost var open: nat := 0;  // where the current chunk begins
    for i := 0 to |groups|
      invariant Packed(slots, chunkMaxFiles, cuts, open)
      invariant Filling(steps, slots, chunkMaxFiles, open, groupCuts[i], currentSteps, currentFiles)
      invariant chunks == Pieces(steps, cuts)
    {
      var group, files := groups[i], groupFiles[i];
      assert IsPiece(steps, slots, groupCuts, i, group, files);
      if currentSteps != [] && |currentFiles + files| > chunkMaxFiles {
        SealFull(steps, slots, chunkMaxFiles, groupCuts, i, cuts, open, currentSteps, currentFiles, group, files);
        PiecesSnoc(steps, cuts, open, groupCuts[i]);
        chunks := chunks + [currentSteps];
        cuts := cuts + [groupCuts[i]];
        open, currentSteps, currentFiles := groupCuts[i], [], {};
      }
      Fill(steps, slots, chunkMaxFiles, groupCuts, i, open, currentSteps, currentFiles, group, files);
      currentSteps := currentSteps + group;
      currentFiles := currentFiles + files;
    }
    if currentSteps != [] {
      Seal(slots, chunkMaxFiles, cuts, open, |slots|);
      PiecesSnoc(steps, cuts, open, |slots|);
      chunks := chunks + [currentSteps];
      cuts := cuts + [|slots|];
    }
  }

  method BuildChunks(entries: seq<PlanEntry>, chunkMaxFiles: int) returns (chunks: seq<seq<int>>)
    ensures IsLayout(entries, chunkMaxFiles, chunks)
  {
    var steps, known := CollectSteps(entries);
    ghost var slots := Slots(entries);
    if steps == [] {
      ghost var cuts: seq<nat> := [0];
      assert AdmissibleSplit(slots, chunkMaxFiles, cuts) && Saturated(slots, chunkMaxFiles, cuts);
      GreedyIsMinimal(slots, chunkMaxFiles, cuts);
      chunks := [];
      assert chunks == Pieces(steps, cuts);
      return;
    }
    var files := AddPlaceholders(steps, known);
    var groups, groupFiles, groupCuts := AtomicGroups(steps, files, slots);
    ghost var cuts;
    chunks, cuts := Pack(steps, groups, groupFiles, chunkMaxFiles, slots, groupCuts);
    GreedyIsMinimal(slots, chunkMaxFiles, cuts);
  }

  // ---------- What a layout means for its chunks ----------

  function Flatten(chunks: seq<seq<int>>): seq<int> {
    if chunks == [] then [] else Flatten(chunks[..|chunks| - 1]) + chunks[|chunks| - 1]
  }

  function FilesOfChunk(entries: seq<PlanEntry>, chunk: seq<int>): set<string> {
    set s, f | s in chunk && f in FilesOfStep(entries, s) :: f
  }

  lemma {:induction false} PieceAt(steps: seq<int>, cuts: seq<nat>, n: nat, i: nat)
    requires IsSplit(cuts, n) && n <= |steps| && i + 1 < |cuts|
    ensures cuts[i] < cuts[i + 1] <= |steps| && Pieces(steps, cuts)[i] == steps[cuts[i]..cuts[i + 1]]
    decreases |cuts|
  {
    assert cuts[i + 1] <= n by { assert i + 1 == |cuts| - 1 || cuts[i + 1] < cuts[|cuts| - 1]; }
    if i + 2 < |cuts| {
      var shorter := cuts[..|cuts| - 1];
      PieceAt(steps, shorter, shorter[|shorter| - 1], i);
    }
  }

  lemma FlattenSnoc(chunks: seq<seq<int>>, chunk: seq<int>)
    ensures Flatten(chunks + [chunk]) == Flatten(chunks) + chunk
  {
    assert (chunks + [chunk])[..|chunks|] == chunks;
  }

  lemma {:induction false} FlattenPieces(steps: seq<int>, cuts: seq<nat>, n: nat)
    requires IsSplit(cuts, n) && n <= |steps|
    ensures Flatten(Pieces(steps, cuts)) == steps[..n]
    decreases |cuts|
  {
    hide Flatten, Pieces;
    if |cuts| > 1 {
      var shorter := cuts[..|cuts| - 1];
      var open := shorter[|shorter| - 1];
      assert open < n && cuts == shorter + [n];
      FlattenPieces(steps, shorter, open);
      PiecesSnoc(steps, shorter, open, n);
      FlattenSnoc(Pieces(steps, shorter), steps[open..n]);
      assert steps[..open] + steps[open..n] == steps[..n];
    } else {
      FlattenNone(steps, cuts);
    }
  }

  lemma FlattenNone(steps: seq<int>, cuts: seq<nat>)
    requires |cuts| <= 1 && (cuts != [] ==> cuts[0] <= |steps|)
    ensures Flatten(Pieces(steps, cuts)) == []
  {
  }

  lemma FilesOfRun(entries: seq<PlanEntry>, steps: seq<int>, slots: seq<set<string>>, a: nat, b: nat)
    requires a <= b <= |steps| == |slots|
    requires forall p :: 0 <= p < |slots| ==> slots[p] == FilesOfStep(entries, steps[p])
    ensures FilesOfChunk(entries, steps[a..b]) == FilesIn(slots, a, b)
  {
    hide FilesOfStep;
    forall f | f in FilesIn(slots, a, b)
      ensures f in FilesOfChunk(entries, steps[a..b])
    {
      var p :| a <= p < b && f in slots[p];
      assert steps[p] == steps[a..b][p - a];
    }
    forall f | f in FilesOfChunk(entries, steps[a..b])
      ensures f in FilesIn(slots, a, b)
    {
      var s :| s in steps[a..b] && f in FilesOfStep(entries, s);
      var k :| 0 <= k < |steps[a..b]| && steps[a..b][k] == s;
      assert f in slots[a + k];
    }
  }

  lemma FilesOfPiece(entries: seq<PlanEntry>, a: nat, b: nat)
    requires a <= b <= |ApplicableSteps(entries)|
    ensures FilesOfChunk(entries, ApplicableSteps(entries)[a..b]) == FilesIn(Slots(entries), a, b)
  {
    FilesOfRun(entries, ApplicableSteps(entries), Slots(entries), a, b);
  }

  lemma SharedAcross(slots: seq<set<string>>, a: nat, c: nat, b: nat) returns (f: string)
    requires a < c < b <= |slots| && Clean(slots, a) && Clean(slots, b) && !Clean(slots, c)
    ensures f in FilesIn(slots, a, c) && f in FilesIn(slots, c, b)
  {
    var p, q :| 0 <= p < c <= q < |slots| && !(slots[p] !! slots[q]);
    f :| f in slots[p] && f in slots[q];
    assert a <= p && q < b;
  }

  // Nothing is lost, repeated or reordered.
  lemma LayoutKeepsSteps(entries: seq<PlanEntry>, maxFiles: int, chunks: seq<seq<int>>)
    requires IsLayout(entries, maxFiles, chunks)
    ensures Flatten(chunks) == ApplicableSteps(entries)
    ensures forall i :: 0 <= i < |chunks| ==> chunks[i] != []
  {
    hide ApplicableSteps, Slots;
    var cuts :| MinimalSplit(Slots(entries), maxFiles, cuts) && chunks == Pieces(ApplicableSteps(entries), cuts);
    var steps := ApplicableSteps(entries);
    FlattenPieces(steps, cuts, |steps|);
    forall i | 0 <= i < |chunks| ensures chunks[i] != [] {
      PieceAt(steps, cuts, |steps|, i);
    }
  }

  // No file has steps in two chunks, whatever the order of the log (A -> B -> A included).
  lemma LayoutDividesNoFile(entries: seq<PlanEntry>, maxFiles: int, chunks: seq<seq<int>>, i: nat, j: nat)
    requires IsLayout(entries, maxFiles, chunks) && i < j < |chunks|
    ensures FilesOfChunk(entries, chunks[i]) !! FilesOfChunk(entries, chunks[j])
  {
    hide FilesOfStep, ApplicableSteps, Pieces;
    var slots, steps := Slots(entries), ApplicableSteps(entries);
    var cuts :| MinimalSplit(slots, maxFiles, cuts) && chunks == Pieces(steps, cuts);
    PieceAt(steps, cuts, |steps|, i);
    PieceAt(steps, cuts, |steps|, j);
    FilesOfPiece(entries, cuts[i], cuts[i + 1]);
    FilesOfPiece(entries, cuts[j], cuts[j + 1]);
    assert Clean(slots, cuts[j]) && cuts[i + 1] <= cuts[j];
  }

  lemma SliceOfSlice(steps: seq<int>, a: nat, b: nat, k: nat)
    requires a + k <= b <= |steps|
    ensures steps[a..b][..k] == steps[a..a + k] && steps[a..b][k..] == steps[a + k..b]
  {
  }

  lemma FileOfPiece(entries: seq<PlanEntry>, a: nat, b: nat, f: string)
    requires a <= b <= |ApplicableSteps(entries)| && f in FilesIn(Slots(entries), a, b)
    ensures f in FilesOfChunk(entries, ApplicableSteps(entries)[a..b])
  {
    FilesOfPiece(entries, a, b);
  }

  // A chunk above the limit cannot be divided: both parts of any cut would share a file.
  lemma OversizedChunkIsAtomic(entries: seq<PlanEntry>, maxFiles: int, chunks: seq<seq<int>>, i: nat, k: nat)
    requires IsLayout(entries, maxFiles, chunks) && i < |chunks|
    requires |FilesOfChunk(entries, chunks[i])| > maxFiles && 0 < k < |chunks[i]|
    ensures exists f :: f in FilesOfChunk(entries, chunks[i][..k]) && f in FilesOfChunk(entries, chunks[i][k..])
  {
    hide FilesOfChunk, FilesIn, Slots, ApplicableSteps, Pieces, Clean;
    var steps, slots := ApplicableSteps(entries), Slots(entries);
    var cuts :| MinimalSplit(slots, maxFiles, cuts) && chunks == Pieces(steps, cuts);
    PieceAt(steps, cuts, |steps|, i);
    PieceAdmissible(slots, maxFiles, cuts, i);
    var a, b, c := cuts[i], cuts[i + 1], cuts[i] + k;
    FilesOfPiece(entries, a, b);
    var f := SharedAcross(slots, a, c, b);
    FileOfPiece(entries, a, c, f);
    FileOfPiece(entries, c, b, f);
    SliceOfSlice(steps, a, b, k);
  }

  lemma PieceAdmissible(slots: seq<set<string>>, maxFiles: int, cuts: seq<nat>, i: nat)
    requires AdmissibleSplit(slots, maxFiles, cuts) && i + 1 < |cuts|
    ensures cuts[i] <= cuts[i + 1] <= |slots| && Admissible(slots, maxFiles, cuts[i], cuts[i + 1])
    ensures Clean(slots, cuts[i]) && Clean(slots, cuts[i + 1])
  {
    var j := i + 1;
    assert Admissible(slots, maxFiles, cuts[j - 1], cuts[j]);
  }
}
