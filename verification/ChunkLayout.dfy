/** What the planner's layouts mean for the entries of a plan (apatch/apply_session.py, _build_chunks): which
    steps stay together, which do not have to, and that no other division has fewer chunks. */
module ChunkLayout {
  import Decimal
  import opened ChunkPlanner

  // ---------- Targets ----------

  // The entry's target: the resolved path counts, and without one the target as written.
  predicate Names(e: PlanEntry, file: string) {
    file != "" && (e.resolvedPath == file || (e.resolvedPath == "" && e.targetFile == file))
  }

  // Applicable entries with the same target are never in different chunks.
  lemma OneTargetOneChunk(entries: seq<PlanEntry>, maxFiles: int, chunks: seq<seq<int>>, a: PlanEntry, b: PlanEntry,
                          file: string, i: nat, j: nat)
    requires IsLayout(entries, maxFiles, chunks) && i < |chunks| && j < |chunks|
    requires a in entries && b in entries && a.wouldApply && b.wouldApply && Names(a, file) && Names(b, file)
    requires a.step in chunks[i] && b.step in chunks[j]
    ensures i == j
  {
    assert a.Path() in FilesOfStep(entries, a.step) && b.Path() in FilesOfStep(entries, b.step);
    assert a.Path() in FilesOfChunk(entries, chunks[i]) && b.Path() in FilesOfChunk(entries, chunks[j]);
    if i < j { LayoutDividesNoFile(entries, maxFiles, chunks, i, j); }
    if j < i { LayoutDividesNoFile(entries, maxFiles, chunks, j, i); }
  }

  // A step with a target touches exactly the targets of its applicable entries.
  lemma FilesAreTargets(entries: seq<PlanEntry>, step: int, file: string)
    requires !IsTargetless(entries, step)
    ensures file in FilesOfStep(entries, step)
       <==> exists e :: e in entries && e.wouldApply && e.step == step && Names(e, file)
  {
    var any :| any in entries && any.wouldApply && any.step == step && !(any.resolvedPath == "" == any.targetFile);
    assert any.Path() in KnownFiles(entries, step);
  }

  // No applicable entry of the step names a target.
  ghost predicate IsTargetless(entries: seq<PlanEntry>, step: int) {
    forall e :: e in entries && e.wouldApply && e.step == step ==> e.resolvedPath == "" == e.targetFile
  }

  // No entry names a file like a placeholder.
  ghost predicate NoReservedNames(entries: seq<PlanEntry>) {
    forall e :: e in entries ==> !(RESERVED <= e.resolvedPath) && !(RESERVED <= e.targetFile)
  }

  const RESERVED := "__step__:"

  lemma PlaceholdersDiffer(s: int, t: int)
    requires PlaceholderFile(s) == PlaceholderFile(t)
    ensures s == t
  {
    assert PlaceholderFile(s)[9..] == Decimal.Show(s) && PlaceholderFile(t)[9..] == Decimal.Show(t);
    Decimal.ShowInjective(s, t);
  }

  // A step without a target has one slot, and shares it with no other step.
  lemma OwnSlot(entries: seq<PlanEntry>, s: int, t: int)
    requires NoReservedNames(entries) && IsTargetless(entries, s) && s != t
    ensures |FilesOfStep(entries, s)| == 1
    ensures FilesOfStep(entries, s) !! FilesOfStep(entries, t)
  {
    assert KnownFiles(entries, s) == {};
    assert RESERVED <= PlaceholderFile(s);
    if PlaceholderFile(s) == PlaceholderFile(t) { PlaceholdersDiffer(s, t); }
  }

  lemma StepsDiffer(entries: seq<PlanEntry>, maxFiles: int, chunks: seq<seq<int>>, i: nat, a: nat, b: nat)
    requires IsLayout(entries, maxFiles, chunks) && i < |chunks| && a < b < |chunks[i]|
    ensures chunks[i][a] != chunks[i][b]
  {
    hide Slots, Pieces, ApplicableSteps;
    var steps := ApplicableSteps(entries);
    var cuts :| MinimalSplit(Slots(entries), maxFiles, cuts) && chunks == Pieces(steps, cuts);
    PieceAt(steps, cuts, |steps|, i);
  }

  // Such a step connects nothing: if it is in a chunk with other steps, the chunk is within the limit, or
  // steps on both sides of it share a file.
  lemma TargetlessConnectsNothing(entries: seq<PlanEntry>, maxFiles: int, chunks: seq<seq<int>>, i: nat, k: nat)
    requires IsLayout(entries, maxFiles, chunks) && i < |chunks| && k < |chunks[i]| && |chunks[i]| > 1
    requires NoReservedNames(entries) && IsTargetless(entries, chunks[i][k])
    ensures |FilesOfChunk(entries, chunks[i])| <= maxFiles || Spans(entries, chunks[i], k)
  {
    var chunk := chunks[i];
    if |FilesOfChunk(entries, chunk)| > maxFiles {
      var cut := if k > 0 then k else 1;
      OversizedChunkIsAtomic(entries, maxFiles, chunks, i, cut);
      var f :| f in FilesOfChunk(entries, chunk[..cut]) && f in FilesOfChunk(entries, chunk[cut..]);
      var a, b := SharedBy(entries, chunk, cut, f);
      StepsDiffer(entries, maxFiles, chunks, i, a, b);
      hide FilesOfChunk, FilesOfStep, IsLayout, IsTargetless, NoReservedNames;
      if a == k { OwnSlot(entries, chunk[k], chunk[b]); }
      if b == k { OwnSlot(entries, chunk[k], chunk[a]); }
    }
  }

  // Two steps of the chunk, before and behind position k, share a file.
  ghost predicate Spans(entries: seq<PlanEntry>, chunk: seq<int>, k: nat) {
    exists a, b :: 0 <= a < k < b < |chunk| && !(FilesOfStep(entries, chunk[a]) !! FilesOfStep(entries, chunk[b]))
  }

  lemma SharedBy(entries: seq<PlanEntry>, chunk: seq<int>, cut: nat, f: string) returns (a: nat, b: nat)
    requires cut <= |chunk| && f in FilesOfChunk(entries, chunk[..cut]) && f in FilesOfChunk(entries, chunk[cut..])
    ensures a < cut <= b < |chunk|
    ensures f in FilesOfStep(entries, chunk[a]) && f in FilesOfStep(entries, chunk[b])
  {
    hide FilesOfStep;
    var s :| s in chunk[..cut] && f in FilesOfStep(entries, s);
    var t :| t in chunk[cut..] && f in FilesOfStep(entries, t);
    a :| 0 <= a < cut && chunk[..cut][a] == s;
    var c :| 0 <= c < |chunk[cut..]| && chunk[cut..][c] == t;
    b := cut + c;
  }

  // ---------- No other division has fewer chunks ----------

  // A piece within the limit, or one both parts of every cut of which share a file.
  ghost predicate Fits(entries: seq<PlanEntry>, maxFiles: int, piece: seq<int>) {
    |FilesOfChunk(entries, piece)| <= maxFiles || forall k :: 0 < k < |piece| ==> IsTorn(entries, piece, k)
  }

  predicate IsTorn(entries: seq<PlanEntry>, piece: seq<int>, k: nat)
    requires k <= |piece|
  {
    !(FilesOfChunk(entries, piece[..k]) !! FilesOfChunk(entries, piece[k..]))
  }

  ghost predicate IsDivision(entries: seq<PlanEntry>, maxFiles: int, pieces: seq<seq<int>>) {
    && Flatten(pieces) == ApplicableSteps(entries)
    && (forall i :: 0 <= i < |pieces| ==> pieces[i] != [] && Fits(entries, maxFiles, pieces[i]))
    && (forall i, j :: 0 <= i < j < |pieces| ==> FilesOfChunk(entries, pieces[i]) !! FilesOfChunk(entries, pieces[j]))
  }

  // Where the pieces end.
  function Ends(pieces: seq<seq<int>>): (cuts: seq<nat>)
    ensures |cuts| == |pieces| + 1 && cuts[0] == 0 && cuts[|pieces|] == |Flatten(pieces)|
  {
    if pieces == [] then [0]
    else Ends(pieces[..|pieces| - 1]) + [|Flatten(pieces)|]
  }

  lemma {:induction false} EndsAt(pieces: seq<seq<int>>, i: nat)
    requires i <= |pieces|
    ensures Ends(pieces)[i] == |Flatten(pieces[..i])| <= |Flatten(pieces)|
    ensures i < |pieces| ==> Ends(pieces)[i + 1] == Ends(pieces)[i] + |pieces[i]|
    ensures i < |pieces| ==> Ends(pieces)[i + 1] <= |Flatten(pieces)|
    ensures i < |pieces| ==> Flatten(pieces)[Ends(pieces)[i]..Ends(pieces)[i + 1]] == pieces[i]
    decreases |pieces|
  {
    if i == |pieces| {
      assert pieces[..i] == pieces;
    } else {
      var rest := pieces[..|pieces| - 1];
      assert rest[..i] == pieces[..i];
      EndsAt(rest, i);
      if i < |rest| { EndsAt(rest, i + 1); }
    }
  }

  lemma {:induction false} EndsGrow(pieces: seq<seq<int>>, i: nat, j: nat)
    requires i < j <= |pieces| && forall k :: 0 <= k < |pieces| ==> pieces[k] != []
    ensures Ends(pieces)[i] < Ends(pieces)[j]
    decreases j
  {
    EndsAt(pieces, j - 1);
    if i < j - 1 { EndsGrow(pieces, i, j - 1); }
  }

  // The piece that holds position p.
  lemma PieceOf(pieces: seq<seq<int>>, p: nat) returns (i: nat)
    requires p < |Flatten(pieces)|
    ensures i < |pieces| && Ends(pieces)[i] <= p < Ends(pieces)[i + 1]
  {
    i := 0;
    while Ends(pieces)[i + 1] <= p
      invariant i < |pieces| && Ends(pieces)[i] <= p
      decreases |pieces| - i
    {
      i := i + 1;
    }
  }

  lemma EndIsClean(entries: seq<PlanEntry>, maxFiles: int, pieces: seq<seq<int>>, i: nat)
    requires IsDivision(entries, maxFiles, pieces) && i <= |pieces|
    ensures Clean(Slots(entries), Ends(pieces)[i])
  {
    var slots, c := Slots(entries), Ends(pieces)[i];
    hide FilesOfStep, ApplicableSteps, Fits, Flatten, Ends;
    EndsAt(pieces, i);
    forall p, q | 0 <= p < c <= q < |slots| ensures slots[p] !! slots[q] {
      EndsApart(entries, pieces, i, p, q);
    }
  }

  lemma EndsApart(entries: seq<PlanEntry>, pieces: seq<seq<int>>, i: nat, p: nat, q: nat)
    requires Flatten(pieces) == ApplicableSteps(entries) && i <= |pieces| && p < Ends(pieces)[i] <= q < |Slots(entries)|
    requires Ends(pieces)[i] <= |Flatten(pieces)|
    requires forall a, b :: 0 <= a < b < |pieces| ==>
               FilesOfChunk(entries, pieces[a]) !! FilesOfChunk(entries, pieces[b])
    requires forall k :: 0 <= k < |pieces| ==> pieces[k] != []
    ensures Slots(entries)[p] !! Slots(entries)[q]
  {
    hide FilesOfStep, ApplicableSteps, Flatten, Ends, Slots, FilesOfChunk;
    var a := PieceBefore(pieces, i, p);
    var b := PieceBehind(pieces, i, q);
    SlotInPiece(entries, pieces, a, p);
    SlotInPiece(entries, pieces, b, q);
  }

  lemma PieceBefore(pieces: seq<seq<int>>, i: nat, p: nat) returns (a: nat)
    requires i <= |pieces| && p < Ends(pieces)[i] <= |Flatten(pieces)|
    requires forall k :: 0 <= k < |pieces| ==> pieces[k] != []
    ensures a < i && Ends(pieces)[a] <= p < Ends(pieces)[a + 1]
  {
    hide Flatten;
    a := PieceOf(pieces, p);
    if i < a { EndsGrow(pieces, i, a); }
  }

  lemma PieceBehind(pieces: seq<seq<int>>, i: nat, q: nat) returns (b: nat)
    requires i <= |pieces| && Ends(pieces)[i] <= q < |Flatten(pieces)|
    requires forall k :: 0 <= k < |pieces| ==> pieces[k] != []
    ensures i <= b < |pieces| && Ends(pieces)[b] <= q < Ends(pieces)[b + 1]
  {
    hide Flatten;
    b := PieceOf(pieces, q);
    if b + 1 < i { EndsGrow(pieces, b + 1, i); }
  }

  lemma SlotInPiece(entries: seq<PlanEntry>, pieces: seq<seq<int>>, a: nat, p: nat)
    requires Flatten(pieces) == ApplicableSteps(entries) && a < |pieces|
    requires Ends(pieces)[a] <= p < Ends(pieces)[a + 1] && p < |Slots(entries)|
    ensures Slots(entries)[p] <= FilesOfChunk(entries, pieces[a])
  {
    hide FilesOfStep, ApplicableSteps, Flatten, Ends;
    EndsAt(pieces, a);
    assert ApplicableSteps(entries)[p] == pieces[a][p - Ends(pieces)[a]];
  }

  lemma FitIsAdmissible(entries: seq<PlanEntry>, maxFiles: int, a: nat, b: nat)
    requires a <= b <= |ApplicableSteps(entries)| && Fits(entries, maxFiles, ApplicableSteps(entries)[a..b])
    ensures Admissible(Slots(entries), maxFiles, a, b)
  {
    hide FilesOfStep, ApplicableSteps, FilesIn, FilesOfChunk, Slots;
    var steps, slots := ApplicableSteps(entries), Slots(entries);
    FilesOfPiece(entries, a, b);
    if |FilesIn(slots, a, b)| > maxFiles {
      forall c | a < c < b ensures !Clean(slots, c) {
        assert IsTorn(entries, steps[a..b], c - a);
        SliceOfSlice(steps, a, b, c - a);
        FilesOfPiece(entries, a, c);
        FilesOfPiece(entries, c, b);
        SharedIsNotClean(slots, a, c, b);
      }
    }
  }

  lemma SharedIsNotClean(slots: seq<set<string>>, a: nat, c: nat, b: nat)
    requires a <= c <= b <= |slots| && !(FilesIn(slots, a, c) !! FilesIn(slots, c, b))
    ensures !Clean(slots, c)
  {
    var f :| f in FilesIn(slots, a, c) && f in FilesIn(slots, c, b);
    var p :| a <= p < c && f in slots[p];
    var q :| c <= q < b && f in slots[q];
    assert !(slots[p] !! slots[q]);
  }

  lemma EndsAreAdmissible(entries: seq<PlanEntry>, maxFiles: int, pieces: seq<seq<int>>)
    requires IsDivision(entries, maxFiles, pieces)
    ensures AdmissibleSplit(Slots(entries), maxFiles, Ends(pieces))
  {
    var slots, other := Slots(entries), Ends(pieces);
    forall i | 0 <= i < |other| ensures Clean(slots, other[i]) { EndIsClean(entries, maxFiles, pieces, i); }
    hide Slots, ApplicableSteps, Pieces, Flatten, Fits, FilesOfChunk, Admissible, Clean, Ends;
    forall i, j | 0 <= i < j < |other| ensures other[i] < other[j] { EndsGrow(pieces, i, j); }
    forall i | 0 < i < |other|
      ensures other[i - 1] <= other[i] <= |slots| && Admissible(slots, maxFiles, other[i - 1], other[i])
    {
      EndsAt(pieces, i - 1);
      FitIsAdmissible(entries, maxFiles, other[i - 1], other[i]);
    }
  }

  // However the applicable steps are divided into pieces that share no files and fit the limit or cannot
  // be divided, the layout has no more chunks.
  lemma LayoutIsMinimal(entries: seq<PlanEntry>, maxFiles: int, chunks: seq<seq<int>>, pieces: seq<seq<int>>)
    requires IsLayout(entries, maxFiles, chunks) && IsDivision(entries, maxFiles, pieces)
    ensures |chunks| <= |pieces|
  {
    hide Slots, ApplicableSteps, Pieces, Flatten, IsDivision;
    var cuts :| MinimalSplit(Slots(entries), maxFiles, cuts) && chunks == Pieces(ApplicableSteps(entries), cuts);
    EndsAreAdmissible(entries, maxFiles, pieces);
  }

  // The chunks are such a division themselves.
  lemma LayoutIsDivision(entries: seq<PlanEntry>, maxFiles: int, chunks: seq<seq<int>>)
    requires IsLayout(entries, maxFiles, chunks)
    ensures IsDivision(entries, maxFiles, chunks)
  {
    hide IsLayout, FilesOfChunk, ApplicableSteps, Flatten;
    LayoutKeepsSteps(entries, maxFiles, chunks);
    forall i | 0 <= i < |chunks| ensures Fits(entries, maxFiles, chunks[i]) {
      if |FilesOfChunk(entries, chunks[i])| > maxFiles {
        forall k | 0 < k < |chunks[i]| ensures IsTorn(entries, chunks[i], k) {
          OversizedChunkIsAtomic(entries, maxFiles, chunks, i, k);
        }
      }
    }
    forall i, j | 0 <= i < j < |chunks|
      ensures FilesOfChunk(entries, chunks[i]) !! FilesOfChunk(entries, chunks[j])
    {
      LayoutDividesNoFile(entries, maxFiles, chunks, i, j);
    }
  }
}
