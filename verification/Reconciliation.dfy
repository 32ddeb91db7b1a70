/** Comparing the durable local event set with what a Tracker holds for one Avatar
    (apatch/contribution_delivery.py, reconcile_contributions).

    The ids are asked for in batches; every answer must classify exactly the batch it was asked
    about, or the whole batch is recorded as an error and contributes nothing. */
module Reconciliation {
  import opened Common

  type Id = string

  // A JSON answer; verified and unverified are None when the key is absent.
  datatype Body = Body(avatarId: string, present: seq<Id>, missing: seq<Id>, conflicts: seq<Id>,
                       missingEnvelopes: seq<Id>, verified: Option<seq<Id>>, unverified: Option<seq<Id>>)

  datatype Response = TransportError | Http(status: int, body: Option<Body>)

  datatype Event = Event(id: Id, avatar: string, payload: string)

  // by_event_id of the answer to an upload: whether each reported event was accepted.
  datatype UploadResponse = UploadTransportError | UploadHttp(status: int, body: Option<map<Id, bool>>)

  // A remote with state S: any functions that answer requests. Nothing is assumed of them.
  datatype Tracker<!S> = Tracker(onReconcile: (S, string, seq<Id>) -> (S, Response),
                                 onUpload: (S, seq<Event>) -> (S, UploadResponse))

  datatype Status = InSync | QueuedOffline | IdentityRequired | ReconciliationFailed | IdentityConflict
                  | RepairRequired | EnvelopeRepairRequired | VerificationRequired

  // What the accepted batches reported, and the offsets of the batches that failed.
  datatype Tally = Tally(present: seq<Id>, missing: seq<Id>, conflicts: seq<Id>, missingEnvelopes: seq<Id>,
                         verified: seq<Id>, unverified: seq<Id>, classified: bool, errors: seq<nat>)

  datatype Reconciled = Reconciled(ok: bool, status: Status, tally: Tally, storageComplete: bool,
                                   envelopeComplete: bool, verificationComplete: bool, complete: bool)

  const NOTHING := Tally([], [], [], [], [], [], true, [])

  predicate Unique(s: seq<Id>) {
    forall i, j :: 0 <= i < j < |s| ==> s[i] != s[j]
  }

  function Members(s: seq<Id>): set<Id> {
    set x | x in s
  }

  // The non-empty ids, first occurrences only.
  function Requested(values: seq<Id>): (ids: seq<Id>)
    ensures Unique(ids)
    ensures forall x :: x in ids <==> x in values && x != ""
  {
    if values == [] then []
    else
      var before, last := Requested(values[..|values| - 1]), values[|values| - 1];
      assert values == values[..|values| - 1] + [last];
      if last == "" || last in before then before else before + [last]
  }

  // ---------- One answer ----------

  predicate Classifies(body: Body, avatarId: string, chunk: seq<Id>) {
    var classified := body.present + body.missing + body.conflicts;
    body.avatarId == avatarId && Unique(classified) && Members(classified) == Members(chunk)
  }

  predicate EnvelopesConsistent(body: Body) {
    Unique(body.missingEnvelopes) && Members(body.missingEnvelopes) <= Members(body.present)
  }

  // Older Trackers classify storage only; a Tracker that classifies verification must do it fully.
  predicate VerificationConsistent(body: Body) {
    (body.verified.None? && body.unverified.None?) ||
    (body.verified.Some? && body.unverified.Some?
     && Unique(body.verified.value + body.unverified.value)
     && Members(body.verified.value + body.unverified.value) == Members(body.present))
  }

  predicate Fits(body: Body, avatarId: string, chunk: seq<Id>) {
    Classifies(body, avatarId, chunk) && EnvelopesConsistent(body) && VerificationConsistent(body)
  }

  function Add(t: Tally, body: Body): Tally {
    t.(present := t.present + body.present,
       missing := t.missing + body.missing,
       conflicts := t.conflicts + body.conflicts,
       missingEnvelopes := t.missingEnvelopes + body.missingEnvelopes,
       verified := t.verified + if body.verified.Some? then body.verified.value else [],
       unverified := t.unverified + if body.unverified.Some? then body.unverified.value else [],
       classified := t.classified && body.verified.Some?)
  }

  // ---------- All batches ----------

  function Chunk<T>(xs: seq<T>, offset: nat, size: nat): seq<T>
    requires offset <= |xs|
  {
    if offset + size <= |xs| then xs[offset..offset + size] else xs[offset..]
  }

  // A batch that was asked for, with the answer if it was accepted.
  datatype Batch = Batch(offset: nat, chunk: seq<Id>, answer: Option<Body>)

  function Judge(response: Response, avatarId: string, chunk: seq<Id>): Option<Body> {
    if response.Http? && response.status == 200 && response.body.Some? && Fits(response.body.value, avatarId, chunk)
    then response.body else None
  }

  // The batches from `offset` on, and the state the remote ends in.
  function Ask<S>(tracker: Tracker<S>, s: S, avatarId: string, ids: seq<Id>, size: nat, offset: nat): (seq<Batch>, S)
    requires size > 0
    decreases |ids| - offset
  {
    if offset >= |ids| then ([], s)
    else
      var chunk := Chunk(ids, offset, size);
      var reply := tracker.onReconcile(s, avatarId, chunk);
      var later := Ask(tracker, reply.0, avatarId, ids, size, offset + size);
      ([Batch(offset, chunk, Judge(reply.1, avatarId, chunk))] + later.0, later.1)
  }

  function Absorb(t: Tally, batch: Batch): Tally {
    if batch.answer.Some? then Add(t, batch.answer.value) else t.(errors := t.errors + [batch.offset])
  }

  function TallyOf(batches: seq<Batch>): Tally {
    if batches == [] then NOTHING else Absorb(TallyOf(batches[..|batches| - 1]), batches[|batches| - 1])
  }

  function Conclude(t: Tally): Reconciled {
    var ok := t.errors == [];
    var storage := ok && t.missing == [] && t.conflicts == [];
    var envelopes := ok && t.missingEnvelopes == [];
    var verification := !t.classified || t.unverified == [];
    var status :=
      if !ok then ReconciliationFailed
      else if t.conflicts != [] then IdentityConflict
      else if t.missing != [] then RepairRequired
      else if !envelopes then EnvelopeRepairRequired
      else if !verification then VerificationRequired
      else InSync;
    Reconciled(ok, status, t, storage, envelopes, verification, storage && envelopes && verification)
  }

  // The size within the limit that is nearest to the one requested.
  function BatchSize(requested: int, limit: nat): (size: nat)
    requires limit > 0
    ensures 1 <= size <= limit && (size < requested ==> size == limit) && (requested < size ==> size == 1)
  {
    if requested < 1 then 1 else if requested > limit then limit else requested
  }

  function Reconcile<S>(tracker: Tracker<S>, s: S, online: bool, avatarId: string, eventIds: seq<Id>,
                        batchSize: int): (Reconciled, S) {
    var ids := Requested(eventIds);
    if ids == [] then (Reconciled(true, InSync, NOTHING, true, true, true, true), s)
    else if !online then (Reconciled(true, QueuedOffline, NOTHING, false, false, false, false), s)
    else if avatarId == "" then
      (Reconciled(false, IdentityRequired, NOTHING.(errors := [0]), false, false, false, false), s)
    else
      var size := BatchSize(batchSize, 5000);
      var asked := Ask(tracker, s, avatarId, ids, size, 0);
      (Conclude(TallyOf(asked.0)), asked.1)
  }

  method Deduplicate(values: seq<Id>) returns (ids: seq<Id>)
    ensures ids == Requested(values)
  {
    ids := [];
    for i := 0 to |values|
      invariant ids == Requested(values[..i])
    {
      assert values[..i + 1][..i] == values[..i];
      if values[i] != "" && values[i] !in ids { ids := ids + [values[i]]; }
    }
    assert values[..|values|] == values;
  }

  method ReconcileContributions<S>(tracker: Tracker<S>, s0: S, online: bool, avatarId: string, eventIds: seq<Id>,
                                   batchSize: int)
    returns (result: Reconciled, s: S)
    ensures (result, s) == Reconcile(tracker, s0, online, avatarId, eventIds, batchSize)
  {
    hide Judge, Absorb, Conclude, TallyOf, Requested, BatchSize;
    s := s0;
    var ids := Deduplicate(eventIds);
    if ids == [] { return Reconciled(true, InSync, NOTHING, true, true, true, true), s; }
    if !online { return Reconciled(true, QueuedOffline, NOTHING, false, false, false, false), s; }
    if avatarId == "" {
      return Reconciled(false, IdentityRequired, NOTHING.(errors := [0]), false, false, false, false), s;
    }
    var size := BatchSize(batchSize, 5000);
    var t := NOTHING;
    NothingTallied();
    var offset := 0;
    ghost var whole := Ask(tracker, s0, avatarId, ids, size, 0);
    ghost var done := [];
    while offset < |ids|
      invariant Ask(tracker, s, avatarId, ids, size, offset).1 == whole.1
      invariant done + Ask(tracker, s, avatarId, ids, size, offset).0 == whole.0 && t == TallyOf(done)
    {
      var chunk := Chunk(ids, offset, size);
      var (s', response) := tracker.onReconcile(s, avatarId, chunk);
      var batch := Batch(offset, chunk, Judge(response, avatarId, chunk));
      MoveBatch(done, batch, Ask(tracker, s', avatarId, ids, size, offset + size).0);
      t, done := Absorb(t, batch), done + [batch];
      s := s';
      offset := offset + size;
    }
    assert done == whole.0;
    result := Conclude(t);
  }

  lemma NothingTallied()
    ensures TallyOf([]) == NOTHING
  {
  }

  lemma MoveBatch(done: seq<Batch>, batch: Batch, rest: seq<Batch>)
    ensures done + ([batch] + rest) == (done + [batch]) + rest
    ensures TallyOf(done + [batch]) == Absorb(TallyOf(done), batch)
  {
    assert (done + [batch])[..|done|] == done;
  }

  // ---------- What a reconciliation establishes ----------

  // The requested ids of the batches that did not fail.
  function AcceptedIds(batches: seq<Batch>): seq<Id> {
    if batches == [] then []
    else
      var last := batches[|batches| - 1];
      AcceptedIds(batches[..|batches| - 1]) + if last.answer.Some? then last.chunk else []
  }

  lemma {:induction false} UniqueCount(s: seq<Id>, x: Id)
    requires Unique(s)
    ensures multiset(s)[x] == if x in s then 1 else 0
  {
    if s != [] {
      var rest, last := s[..|s| - 1], s[|s| - 1];
      UniqueCount(rest, x);
      assert s == rest + [last];
    }
  }

  lemma SameMembers(a: seq<Id>, b: seq<Id>)
    requires Unique(a) && Unique(b) && Members(a) == Members(b)
    ensures multiset(a) == multiset(b)
  {
    forall x ensures multiset(a)[x] == multiset(b)[x] {
      UniqueCount(a, x);
      UniqueCount(b, x);
      assert x in a <==> x in Members(a);
    }
  }

  lemma FewerMembers(a: seq<Id>, b: seq<Id>)
    requires Unique(a) && Members(a) <= Members(b)
    ensures multiset(a) <= multiset(b)
  {
    forall x ensures multiset(a)[x] <= multiset(b)[x] {
      UniqueCount(a, x);
      assert x in a ==> x in Members(b);
    }
  }

  ghost predicate Partitions(t: Tally, ids: multiset<Id>) {
    && multiset(t.present) + multiset(t.missing) + multiset(t.conflicts) == ids
    && multiset(t.missingEnvelopes) <= multiset(t.present)
    && (t.classified ==> multiset(t.verified) + multiset(t.unverified) == multiset(t.present))
  }

  ghost predicate Consistent(batch: Batch, avatarId: string) {
    Unique(batch.chunk) && (batch.answer.Some? ==> Fits(batch.answer.value, avatarId, batch.chunk))
  }

  ghost predicate AllConsistent(batches: seq<Batch>, avatarId: string) {
    forall i :: 0 <= i < |batches| ==> Consistent(batches[i], avatarId)
  }

  lemma AddPartitions(t: Tally, ids: multiset<Id>, batch: Batch, avatarId: string)
    requires Partitions(t, ids) && Consistent(batch, avatarId) && batch.answer.Some?
    ensures Partitions(Add(t, batch.answer.value), ids + multiset(batch.chunk))
  {
    var body := batch.answer.value;
    SameMembers(body.present + body.missing + body.conflicts, batch.chunk);
    FewerMembers(body.missingEnvelopes, body.present);
    if body.verified.Some? {
      assert Unique(body.present) by {
        var all := body.present + body.missing + body.conflicts;
        assert forall i :: 0 <= i < |body.present| ==> body.present[i] == all[i];
      }
      SameMembers(body.verified.value + body.unverified.value, body.present);
    }
  }

  lemma {:induction false} TallyPartitions(batches: seq<Batch>, avatarId: string)
    requires AllConsistent(batches, avatarId)
    ensures Partitions(TallyOf(batches), multiset(AcceptedIds(batches)))
  {
    if batches != [] {
      var before, batch := batches[..|batches| - 1], batches[|batches| - 1];
      TallyPartitions(before, avatarId);
      if batch.answer.Some? { AddPartitions(TallyOf(before), multiset(AcceptedIds(before)), batch, avatarId); }
    }
  }

  lemma {:induction false} AskedConsistently<S>(tracker: Tracker<S>, s: S, avatarId: string, ids: seq<Id>, size: nat,
                                                offset: nat)
    requires size > 0 && Unique(ids)
    ensures AllConsistent(Ask(tracker, s, avatarId, ids, size, offset).0, avatarId)
    decreases |ids| - offset
  {
    if offset < |ids| {
      var chunk := Chunk(ids, offset, size);
      var (s', response) := tracker.onReconcile(s, avatarId, chunk);
      AskedConsistently(tracker, s', avatarId, ids, size, offset + size);
      assert Consistent(Batch(offset, chunk, Judge(response, avatarId, chunk)), avatarId);
    }
  }

  function Asked(batches: seq<Batch>): seq<Id> {
    if batches == [] then [] else batches[0].chunk + Asked(batches[1..])
  }

  // Every requested id is asked about, in one batch.
  lemma {:induction false} AskedEverything<S>(tracker: Tracker<S>, s: S, avatarId: string, ids: seq<Id>, size: nat,
                                              offset: nat)
    requires size > 0 && offset <= |ids|
    ensures Asked(Ask(tracker, s, avatarId, ids, size, offset).0) == ids[offset..]
    decreases |ids| - offset
  {
    if offset < |ids| {
      var chunk := Chunk(ids, offset, size);
      var (s', response) := tracker.onReconcile(s, avatarId, chunk);
      if offset + size <= |ids| {
        AskedEverything(tracker, s', avatarId, ids, size, offset + size);
        assert ids[offset..offset + size] + ids[offset + size..] == ids[offset..];
      }
    }
  }

  lemma {:induction false} AskedSnoc(batches: seq<Batch>, batch: Batch)
    ensures Asked(batches + [batch]) == Asked(batches) + batch.chunk
  {
    if batches == [] {
      assert [] + [batch] == [batch] && [batch][1..] == [];
    } else {
      AskedSnoc(batches[1..], batch);
      assert (batches + [batch])[1..] == batches[1..] + [batch];
    }
  }

  // Without errors every batch was accepted.
  lemma {:induction false} NoErrorsAllAccepted(batches: seq<Batch>)
    requires TallyOf(batches).errors == []
    ensures AcceptedIds(batches) == Asked(batches)
  {
    if batches != [] {
      var before, batch := batches[..|batches| - 1], batches[|batches| - 1];
      NoErrorsAllAccepted(before);
      AskedSnoc(before, batch);
      assert before + [batch] == batches;
    }
  }

  // ---------- Which answers count ----------

  lemma UniqueExactly(s: seq<Id>)
    ensures Unique(s) <==> forall x :: multiset(s)[x] <= 1
  {
    if Unique(s) {
      forall x { UniqueCount(s, x); }
    } else {
      var i, j :| 0 <= i < j < |s| && s[i] == s[j];
      assert s == s[..j] + [s[j]] + s[j + 1..];
      assert s[j] in multiset(s[..j]) by { assert s[..j][i] == s[j]; }
      assert multiset(s) == multiset(s[..j]) + multiset{s[j]} + multiset(s[j + 1..]);
      assert multiset(s)[s[j]] >= 2;
    }
  }

  lemma SameExactly(a: seq<Id>, b: seq<Id>)
    requires Unique(b)
    ensures Unique(a) && Members(a) == Members(b) <==> multiset(a) == multiset(b)
  {
    if multiset(a) == multiset(b) {
      UniqueExactly(a);
      UniqueExactly(b);
      forall x ensures x in a <==> x in b { assert x in a <==> x in multiset(a); }
    } else if Unique(a) && Members(a) == Members(b) {
      SameMembers(a, b);
    }
  }

  lemma FewerExactly(a: seq<Id>, b: seq<Id>)
    requires Unique(b)
    ensures Unique(a) && Members(a) <= Members(b) <==> multiset(a) <= multiset(b)
  {
    if multiset(a) <= multiset(b) {
      UniqueExactly(a);
      UniqueExactly(b);
      forall x | x in a ensures x in b { assert x in multiset(a); }
    } else if Unique(a) && Members(a) <= Members(b) {
      FewerMembers(a, b);
    }
  }

  // An answer counts iff it is for the Avatar and puts every id of the batch, and no other, on exactly one of
  // the three lists, names missing envelopes among the present ids only, and divides the present ids into
  // verified and unverified ones if it speaks of verification at all.
  lemma JudgedExactly(response: Response, avatarId: string, chunk: seq<Id>, body: Body)
    requires Unique(chunk)
    ensures Judge(response, avatarId, chunk) == Some(body) <==>
      && response == Http(200, Some(body)) && body.avatarId == avatarId
      && multiset(body.present) + multiset(body.missing) + multiset(body.conflicts) == multiset(chunk)
      && multiset(body.missingEnvelopes) <= multiset(body.present)
      && (body.verified.Some? || body.unverified.Some? ==>
            && body.verified.Some? && body.unverified.Some?
            && multiset(body.verified.value) + multiset(body.unverified.value) == multiset(body.present))
  {
    var all := body.present + body.missing + body.conflicts;
    assert multiset(all) == multiset(body.present) + multiset(body.missing) + multiset(body.conflicts);
    SameExactly(all, chunk);
    if Unique(all) {
      assert Unique(body.present) by { assert forall i :: 0 <= i < |body.present| ==> body.present[i] == all[i]; }
      FewerExactly(body.missingEnvelopes, body.present);
      if body.verified.Some? && body.unverified.Some? {
        SameExactly(body.verified.value + body.unverified.value, body.present);
      }
    }
    hide Unique, Members;
  }

  // ---------- How ids are asked for ----------

  // Full batches, the last one perhaps shorter.
  ghost predicate AreFull(sizes: seq<nat>, size: nat) {
    forall i :: 0 <= i < |sizes| ==> 0 < sizes[i] <= size && (i < |sizes| - 1 ==> sizes[i] == size)
  }

  lemma FullFirst(first: nat, later: seq<nat>, size: nat)
    requires AreFull(later, size) && 0 < first <= size && (later == [] || first == size)
    ensures AreFull([first] + later, size)
  {
    var all := [first] + later;
    assert forall i :: 0 < i < |all| ==> all[i] == later[i - 1];
  }

  function SizesOf(batches: seq<Batch>): seq<nat> {
    if batches == [] then [] else [|batches[0].chunk|] + SizesOf(batches[1..])
  }

  lemma {:induction false} AskedInFull<S>(tracker: Tracker<S>, s: S, avatarId: string, ids: seq<Id>, size: nat,
                                          offset: nat)
    requires size > 0
    ensures AreFull(SizesOf(Ask(tracker, s, avatarId, ids, size, offset).0), size)
    decreases |ids| - offset
  {
    if offset < |ids| {
      var chunk := Chunk(ids, offset, size);
      var reply := tracker.onReconcile(s, avatarId, chunk);
      var later := Ask(tracker, reply.0, avatarId, ids, size, offset + size).0;
      AskedInFull(tracker, reply.0, avatarId, ids, size, offset + size);
      FullFirst(|chunk|, SizesOf(later), size);
      assert ([Batch(offset, chunk, Judge(reply.1, avatarId, chunk))] + later)[1..] == later;
    }
  }

  // ---------- What the result says ----------

  ghost predicate AllAnswered(batches: seq<Batch>) {
    forall i :: 0 <= i < |batches| ==> batches[i].answer.Some?
  }

  lemma {:induction false} NoErrorsExactly(batches: seq<Batch>)
    ensures TallyOf(batches).errors == [] <==> AllAnswered(batches)
  {
    if batches != [] {
      var before, last := batches[..|batches| - 1], batches[|batches| - 1];
      NoErrorsExactly(before);
      assert AllAnswered(batches) <==> AllAnswered(before) && last.answer.Some? by {
        assert batches == before + [last];
        if AllAnswered(batches) { assert forall i :: 0 <= i < |before| ==> before[i] == batches[i]; }
      }
    }
  }

  // The ids are asked about in order, in batches of at most 5000, unless there are none, no Tracker or no
  // Avatar. The status names the first thing that is in the way of completeness.
  lemma StatusExactly<S>(tracker: Tracker<S>, s: S, online: bool, avatarId: string, eventIds: seq<Id>, batchSize: int)
    ensures var ids := Requested(eventIds);
      var asked := Ask(tracker, s, avatarId, ids, BatchSize(batchSize, 5000), 0).0;
      var (r, s') := Reconcile(tracker, s, online, avatarId, eventIds, batchSize);
      var t, asks := r.tally, ids != [] && online && avatarId != "";
      var answered := asks && AllAnswered(asked);
      && (!asks ==> s' == s && t.present == t.missing == t.conflicts == t.missingEnvelopes == t.unverified == [])
      && (asks ==>
            && Asked(asked) == ids
            && AreFull(SizesOf(asked), if batchSize < 1 then 1 else if batchSize > 5000 then 5000 else batchSize))
      && (r.status == QueuedOffline <==> ids != [] && !online)
      && (r.status == IdentityRequired <==> ids != [] && online && avatarId == "")
      && (r.status == ReconciliationFailed <==> asks && !AllAnswered(asked))
      && (r.status == IdentityConflict <==> answered && t.conflicts != [])
      && (r.status == RepairRequired <==> answered && t.conflicts == [] && t.missing != [])
      && (r.status == EnvelopeRepairRequired <==>
            answered && t.conflicts == t.missing == [] && t.missingEnvelopes != [])
      && (r.status == VerificationRequired <==>
            answered && t.conflicts == t.missing == t.missingEnvelopes == [] && t.classified && t.unverified != [])
      && (r.ok <==> !(r.status == IdentityRequired || r.status == ReconciliationFailed))
      && (r.storageComplete <==> ids == [] || (answered && t.missing == t.conflicts == []))
      && (r.envelopeComplete <==> ids == [] || (answered && t.missingEnvelopes == []))
      && (r.verificationComplete <==> ids == [] || (asks && !(t.classified && t.unverified != [])))
      && (r.complete <==> r.storageComplete && r.envelopeComplete && r.verificationComplete)
  {
    hide Ask, Requested, TallyOf, BatchSize, SizesOf;
    var ids, size := Requested(eventIds), BatchSize(batchSize, 5000);
    var asked := Ask(tracker, s, avatarId, ids, size, 0).0;
    NoErrorsExactly(asked);
    AskedEverything(tracker, s, avatarId, ids, size, 0);
    AskedInFull(tracker, s, avatarId, ids, size, 0);
    assert ids[0..] == ids;
  }

  // Present, missing and conflicting ids partition the requested ids of the accepted batches, and
  // of all batches when there was no error; missing envelopes and the verification classes refine
  // the present ones.
  lemma ReconcilePartitions<S>(tracker: Tracker<S>, s: S, avatarId: string, eventIds: seq<Id>, batchSize: int)
    requires avatarId != ""
    ensures var r := Reconcile(tracker, s, true, avatarId, eventIds, batchSize).0;
      var ids := Requested(eventIds);
      var asked := Ask(tracker, s, avatarId, ids, BatchSize(batchSize, 5000), 0).0;
      && (ids != [] ==> Partitions(r.tally, multiset(AcceptedIds(asked))))
      && (r.ok ==> Partitions(r.tally, multiset(ids)))
  {
    var ids, size := Requested(eventIds), BatchSize(batchSize, 5000);
    if ids != [] {
      var batches := Ask(tracker, s, avatarId, ids, size, 0).0;
      AskedConsistently(tracker, s, avatarId, ids, size, 0);
      TallyPartitions(batches, avatarId);
      AskedEverything(tracker, s, avatarId, ids, size, 0);
      if TallyOf(batches).errors == [] { NoErrorsAllAccepted(batches); }
      assert ids[0..] == ids;
    }
  }

  // A result says "in sync" exactly when it is complete, and then every requested id is present,
  // has its envelope, and is verified if the Tracker classifies verification.
  lemma InSyncExactly<S>(tracker: Tracker<S>, s: S, online: bool, avatarId: string, eventIds: seq<Id>, batchSize: int)
    ensures var r := Reconcile(tracker, s, online, avatarId, eventIds, batchSize).0;
      && (r.status == InSync <==> r.complete)
      && (r.complete && Requested(eventIds) != [] ==>
            multiset(r.tally.present) == multiset(Requested(eventIds)) && r.tally.missingEnvelopes == []
            && (r.tally.classified ==> multiset(r.tally.verified) == multiset(Requested(eventIds))))
  {
    if avatarId != "" { ReconcilePartitions(tracker, s, avatarId, eventIds, batchSize); }
  }
}
