/** What the answers of an Avatar leave in the receipts (apatch/contribution_export.py,
    sync_to_trustchain_avatar): only a permanent rejection quarantines, only an acceptance is a success, and
    everything else leaves the receipt as it was. */
module AvatarReceipts {
  import opened Common
  import opened AvatarSync

  // ---------- Answers ----------

  // The answer to the batch permanently rejects the event.
  predicate Rejects(batch: Batch, ev: Event) {
    batch.reply.Ack? && ev in batch.events && ev.id in batch.reply.failed && batch.reply.failed[ev.id]
  }

  predicate Accepts(batch: Batch, ev: Event) {
    batch.reply.Ack? && ev in batch.events && ev.id !in batch.reply.failed
  }

  ghost predicate IsRejected(batches: seq<Batch>, ev: Event) {
    exists i :: 0 <= i < |batches| && Rejects(batches[i], ev)
  }

  lemma RejectedSnoc(before: seq<Batch>, batch: Batch, ev: Event)
    ensures IsRejected(before + [batch], ev) <==> IsRejected(before, ev) || Rejects(batch, ev)
  {
    var all := before + [batch];
    if i :| 0 <= i < |before| && Rejects(before[i], ev) { assert all[i] == before[i]; }
    assert all[|before|] == batch;
  }

  // What was answered was uploaded.
  lemma {:induction false} AnsweredIsUploaded(batches: seq<Batch>, ev: Event)
    ensures IsRejected(batches, ev) || IsAccepted(batches, ev) ==> ev in Uploaded(batches)
  {
    if batches != [] {
      var before, batch := batches[..|batches| - 1], batches[|batches| - 1];
      AnsweredIsUploaded(before, ev);
      RejectedSnoc(before, batch, ev);
      AcceptedSnoc(before, batch, ev);
      SnocParts(batches);
    }
  }

  ghost predicate DistinctIds(events: seq<Event>) {
    forall i, j :: 0 <= i < j < |events| ==> events[i].id != events[j].id
  }

  predicate SameReceipt(before: Receipts, after: Receipts, id: Id) {
    (id in after <==> id in before) && (id in before ==> after[id] == before[id])
  }

  predicate Holds(receipts: Receipts, ev: Event, quarantined: bool) {
    ev.id in receipts && receipts[ev.id] == Receipt(ev, quarantined)
  }

  // ---------- One batch ----------

  lemma {:induction false} SettledOther(p: Progress, events: seq<Event>, failed: map<Id, bool>, deferring: bool, id: Id)
    requires forall e :: e in events ==> e.id != id
    ensures SameReceipt(p.receipts, Settle(p, events, failed, deferring).receipts, id)
  {
    if events != [] {
      SettledOther(p, events[..|events| - 1], failed, deferring, id);
      assert events[|events| - 1] in events;
    }
  }

  lemma {:induction false} SettledOne(p: Progress, events: seq<Event>, failed: map<Id, bool>, deferring: bool,
                                      ev: Event)
    requires DistinctIds(events) && ev in events
    ensures var after := Settle(p, events, failed, deferring).receipts;
      if ev.id in failed && failed[ev.id] then Holds(after, ev, true)
      else if ev.id !in failed && !deferring then Holds(after, ev, false)
      else SameReceipt(p.receipts, after, ev.id)
  {
    var rest, last := events[..|events| - 1], events[|events| - 1];
    SnocParts(events);
    if last == ev {
      forall e | e in rest ensures e.id != ev.id {
        var i :| 0 <= i < |rest| && rest[i] == e;
        assert events[i] == e;
      }
      SettledOther(p, rest, failed, deferring, ev.id);
    } else {
      LastOrBefore(events, ev);
      assert DistinctIds(rest);
      SettledOne(p, rest, failed, deferring, ev);
      var i :| 0 <= i < |rest| && rest[i] == ev;
      assert events[i].id != last.id;
    }
  }

  // ---------- All batches ----------

  lemma DistinctParts(a: seq<Event>, b: seq<Event>, ev: Event)
    requires DistinctIds(a + b)
    ensures DistinctIds(a) && DistinctIds(b)
    ensures ev in a ==> forall e :: e in b ==> e.id != ev.id
    ensures ev in b ==> forall e :: e in a ==> e.id != ev.id
  {
    var all := a + b;
    forall i, j | 0 <= i < j < |a| ensures a[i].id != a[j].id { assert all[i] == a[i] && all[j] == a[j]; }
    forall i, j | 0 <= i < j < |b| ensures b[i].id != b[j].id {
      assert all[|a| + i] == b[i] && all[|a| + j] == b[j];
    }
    forall i, j | 0 <= i < |a| && 0 <= j < |b| ensures a[i].id != b[j].id {
      assert all[i] == a[i] && all[|a| + j] == b[j];
    }
  }

  // What the answers make of the receipt of an event, or of no event, under an id.
  ghost predicate IsSettled(receipts: Receipts, after: Receipts, batches: seq<Batch>, deferring: bool, ev: Event) {
    if IsRejected(batches, ev) then Holds(after, ev, true)
    else if IsAccepted(batches, ev) && !deferring then Holds(after, ev, false)
    else SameReceipt(receipts, after, ev.id)
  }

  lemma {:induction false} SettledExactly(receipts: Receipts, batches: seq<Batch>, deferring: bool, ev: Event)
    requires DistinctIds(Uploaded(batches)) && (HasId(Uploaded(batches), ev.id) ==> ev in Uploaded(batches))
    ensures IsSettled(receipts, ProgressOf(receipts, batches, deferring).receipts, batches, deferring, ev)
  {
    if batches != [] {
      var before, batch := batches[..|batches| - 1], batches[|batches| - 1];
      SnocParts(batches);
      UploadedSnoc(before, batch);
      DistinctParts(Uploaded(before), batch.events, ev);
      RejectedSnoc(before, batch, ev);
      AcceptedSnoc(before, batch, ev);
      AnsweredIsUploaded(before, ev);
      OneSideOnly(Uploaded(before), batch.events, ev);
      SettledExactly(receipts, before, deferring, ev);
      LastBatch(receipts, before, batch, deferring, ev);
    }
  }

  lemma OneSideOnly(a: seq<Event>, b: seq<Event>, ev: Event)
    requires HasId(a + b, ev.id) ==> ev in a + b
    requires ev in a ==> forall e :: e in b ==> e.id != ev.id
    requires ev in b ==> forall e :: e in a ==> e.id != ev.id
    ensures HasId(a, ev.id) ==> ev in a
    ensures ev in b || forall e :: e in b ==> e.id != ev.id
  {
    if e :| e in a && e.id == ev.id { assert e in a + b; }
    if e :| e in b && e.id == ev.id { assert e in a + b; }
  }

  lemma LastBatch(receipts: Receipts, before: seq<Batch>, batch: Batch, deferring: bool, ev: Event)
    requires DistinctIds(batch.events) && (ev in batch.events || forall e :: e in batch.events ==> e.id != ev.id)
    ensures var p := ProgressOf(receipts, before, deferring);
      var after := ProgressOf(receipts, before + [batch], deferring).receipts;
      if Rejects(batch, ev) then Holds(after, ev, true)
      else if Accepts(batch, ev) && !deferring then Holds(after, ev, false)
      else SameReceipt(p.receipts, after, ev.id)
  {
    assert (before + [batch])[..|before|] == before;
    var p := ProgressOf(receipts, before, deferring);
    if batch.reply.Ack? {
      if ev in batch.events {
        SettledOne(p, batch.events, batch.reply.failed, deferring, ev);
      } else {
        SettledOther(p, batch.events, batch.reply.failed, deferring, ev.id);
      }
    }
  }

  // ---------- A whole call ----------

  lemma {:induction false} FilterDistinct(events: seq<Event>, keep: Event -> bool)
    requires DistinctIds(events)
    ensures DistinctIds(Filter(events, keep))
  {
    if events != [] {
      var rest, last := events[..|events| - 1], events[|events| - 1];
      assert DistinctIds(rest);
      FilterDistinct(rest, keep);
      forall e | e in rest ensures e.id != last.id {
        var i :| 0 <= i < |rest| && rest[i] == e;
        assert events[i] == e;
      }
    }
  }

  lemma SentDistinct<S>(remote: Remote<S>, s: S, receipts: Receipts, request: Request)
    requires Acts(request) && DistinctIds(Events(request))
    ensures DistinctIds(Uploaded(Sent(remote, s, receipts, request).0))
  {
    hide Upload, Uploaded, Events, BatchSize, Filter;
    var first := First(remote, s, receipts, request);
    var pending := PendingEvents(receipts, Events(request), first.1);
    FilterDistinct(Events(request), (ev: Event) =>
      (!Synced(receipts, ev) || ev.id in Replay(first.1)) && !Quarantined(receipts, ev));
    UploadedPrefix(remote, first.0, pending, BatchSize(request.limit), 0);
    assert pending[0..] == pending;
    DistinctPrefix(Uploaded(Sent(remote, s, receipts, request).0), pending);
  }

  lemma DistinctPrefix(a: seq<Event>, b: seq<Event>)
    requires a <= b && DistinctIds(b)
    ensures DistinctIds(a)
  {
    assert forall i :: 0 <= i < |a| ==> a[i] == b[i];
  }

  lemma OnlyThisEvent(events: seq<Event>, ev: Event, other: Event)
    requires DistinctIds(events) && ev in events && other in events && other.id == ev.id
    ensures other == ev
  {
    var i :| 0 <= i < |events| && events[i] == ev;
    var j :| 0 <= j < |events| && events[j] == other;
    assert i == j;
  }

  lemma {:induction false} DeferredOther(receipts: Receipts, deferred: seq<Event>, id: Id)
    requires !HasId(deferred, id)
    ensures SameReceipt(receipts, Deferred(receipts, deferred), id)
  {
    if deferred != [] {
      var rest, last := deferred[..|deferred| - 1], deferred[|deferred| - 1];
      SnocParts(deferred);
      assert last in deferred;
      assert forall e :: e in rest ==> e in deferred;
      DeferredOther(receipts, rest, id);
    }
  }

  // The call settles what was accepted: at once without a selection, otherwise once the second
  // reconciliation has confirmed it.
  ghost predicate Confirms<S>(remote: Remote<S>, s: S, receipts: Receipts, request: Request)
    requires Acts(request)
  {
    request.selection.All? || IsConfirmed(remote, s, receipts, request)
  }

  // The receipt of every event after a call, read off the answers.
  lemma ReceiptExactly<S>(remote: Remote<S>, s: S, receipts: Receipts, request: Request, ev: Event)
    requires Acts(request) && DistinctIds(Events(request)) && ev in Events(request)
    ensures var batches, after := Sent(remote, s, receipts, request).0, Call(remote, s, receipts, request).receipts;
      if IsRejected(batches, ev) then Holds(after, ev, true)
      else if IsAccepted(batches, ev) && Confirms(remote, s, receipts, request) then Holds(after, ev, false)
      else SameReceipt(receipts, after, ev.id)
  {
    var batches, p := Sent(remote, s, receipts, request).0, Local(remote, s, receipts, request);
    var deferring := request.selection.Chosen?;
    SentDistinct(remote, s, receipts, request);
    UploadedAreEvents(remote, s, receipts, request, ev);
    SettledExactly(receipts, batches, deferring, ev);
    if deferring {
      ConfirmedExactly(remote, s, receipts, request);
      DeferredAreAccepted(receipts, batches, ev);
      DeferredReceipt(remote, s, receipts, request, ev);
    } else {
      hide Sent, Local, First, Second;
    }
  }

  lemma UploadedAreEvents<S>(remote: Remote<S>, s: S, receipts: Receipts, request: Request, ev: Event)
    requires Acts(request) && DistinctIds(Events(request)) && ev in Events(request)
    ensures var sent := Uploaded(Sent(remote, s, receipts, request).0); HasId(sent, ev.id) ==> ev in sent
  {
    hide Events, Uploaded, PendingEvents;
    var sent := Uploaded(Sent(remote, s, receipts, request).0);
    if e :| e in sent && e.id == ev.id {
      CallBatches(remote, s, receipts, request);
      CallUploads(remote, s, receipts, request, e);
      PendingIsEvent(receipts, Events(request), First(remote, s, receipts, request).1, e);
      OnlyThisEvent(Events(request), ev, e);
    }
  }

  lemma PendingIsEvent(receipts: Receipts, events: seq<Event>, before: Reconciliation, e: Event)
    ensures e in PendingEvents(receipts, events, before) ==> e in events
  {
  }

  // What the deferred receipts do to the receipt of an event.
  lemma DeferredReceipt<S>(remote: Remote<S>, s: S, receipts: Receipts, request: Request, ev: Event)
    requires Acts(request) && request.selection.Chosen? && DistinctIds(Events(request)) && ev in Events(request)
    ensures var p := Local(remote, s, receipts, request);
      if ev in p.deferred then
        Holds(Deferred(p.receipts, p.deferred), ev, false) && !IsRejectedBy(remote, s, receipts, request, ev)
      else SameReceipt(p.receipts, Deferred(p.receipts, p.deferred), ev.id)
  {
    var batches, p := Sent(remote, s, receipts, request).0, Local(remote, s, receipts, request);
    if ev in p.deferred {
      DeferredLast(p.receipts, p.deferred, ev.id);
      OwnReceipt(remote, s, receipts, request, ev);
      DeferredAreAccepted(receipts, batches, ev);
      SentDistinct(remote, s, receipts, request);
      NotBoth(batches, ev);
    } else {
      if e :| e in p.deferred && e.id == ev.id {
        ProgressEffect(receipts, batches, true, ev.id);
        CallBatches(remote, s, receipts, request);
        CallUploads(remote, s, receipts, request, e);
        OnlyThisEvent(Events(request), ev, e);
      }
      DeferredOther(p.receipts, p.deferred, ev.id);
    }
  }

  ghost predicate IsRejectedBy<S>(remote: Remote<S>, s: S, receipts: Receipts, request: Request, ev: Event)
    requires Acts(request)
  {
    IsRejected(Sent(remote, s, receipts, request).0, ev)
  }

  // With distinct ids no event is both accepted and rejected.
  lemma {:induction false} NotBoth(batches: seq<Batch>, ev: Event)
    requires DistinctIds(Uploaded(batches))
    ensures !(IsAccepted(batches, ev) && IsRejected(batches, ev))
  {
    if batches != [] {
      var before, batch := batches[..|batches| - 1], batches[|batches| - 1];
      SnocParts(batches);
      UploadedSnoc(before, batch);
      DistinctParts(Uploaded(before), batch.events, ev);
      RejectedSnoc(before, batch, ev);
      AcceptedSnoc(before, batch, ev);
      AnsweredIsUploaded(before, ev);
      NotBoth(before, ev);
    }
  }

  // An event enters quarantine exactly by a permanent rejection in an answer.
  lemma QuarantineEntersExactly<S>(remote: Remote<S>, s: S, receipts: Receipts, request: Request, ev: Event)
    requires Acts(request) && DistinctIds(Events(request)) && ev in Events(request) && !Quarantined(receipts, ev)
    ensures Quarantined(Call(remote, s, receipts, request).receipts, ev)
       <==> IsRejected(Sent(remote, s, receipts, request).0, ev)
  {
    hide Call, Sent, Events, IsRejected, IsAccepted, IsConfirmed;
    ReceiptExactly(remote, s, receipts, request, ev);
  }

  // Without a selection it gains its success receipt exactly by an acceptance.
  lemma SuccessExactly<S>(remote: Remote<S>, s: S, receipts: Receipts, request: Request, ev: Event)
    requires Acts(request) && request.selection.All? && DistinctIds(Events(request)) && ev in Events(request)
    requires !Succeeded(receipts, ev)
    ensures Succeeded(Call(remote, s, receipts, request).receipts, ev)
       <==> IsAccepted(Sent(remote, s, receipts, request).0, ev)
  {
    SentDistinct(remote, s, receipts, request);
    NotBoth(Sent(remote, s, receipts, request).0, ev);
    hide Call, Sent, Events, IsRejected, IsAccepted, IsConfirmed, DistinctIds, Uploaded;
    ReceiptExactly(remote, s, receipts, request, ev);
  }

  // ---------- What a call works on ----------

  // Exactly one local event has the id, at position i.
  predicate OnlyAt(inventory: seq<Event>, id: Id, i: nat) {
    i < |inventory| && inventory[i].id == id && forall j :: 0 <= j < |inventory| && j != i ==> inventory[j].id != id
  }

  lemma MatchesSnoc(inventory: seq<Event>, id: Id)
    requires inventory != []
    ensures var rest, last := inventory[..|inventory| - 1], inventory[|inventory| - 1];
      Matches(inventory, id) == Matches(rest, id) + if last.id == id then [last] else []
  {
  }

  lemma {:induction false} NoMatches(inventory: seq<Event>, id: Id)
    ensures Matches(inventory, id) == [] <==> forall j :: 0 <= j < |inventory| ==> inventory[j].id != id
  {
    if inventory != [] {
      hide Matches;
      MatchesSnoc(inventory, id);
      NoMatches(inventory[..|inventory| - 1], id);
    }
  }

  lemma {:induction false} OneMatch(inventory: seq<Event>, id: Id) returns (i: nat)
    ensures |Matches(inventory, id)| == 1 ==> OnlyAt(inventory, id, i) && Matches(inventory, id) == [inventory[i]]
  {
    i := 0;
    if inventory != [] {
      hide Matches;
      MatchesSnoc(inventory, id);
      var rest, last := inventory[..|inventory| - 1], inventory[|inventory| - 1];
      NoMatches(rest, id);
      i := OneMatch(rest, id);
      if last.id == id { i := |rest|; }
    }
  }

  lemma {:induction false} MatchedOnce(inventory: seq<Event>, id: Id, i: nat)
    requires OnlyAt(inventory, id, i)
    ensures |Matches(inventory, id)| == 1
  {
    hide Matches;
    MatchesSnoc(inventory, id);
    var rest := inventory[..|inventory| - 1];
    if i < |rest| {
      MatchedOnce(rest, id, i);
    } else {
      NoMatches(rest, id);
    }
  }

  // A selection is accepted iff it is a non-empty list of distinct non-empty ids of exactly one local event
  // each, and the call then works on those, in its order.
  lemma SelectionExactly(request: Request)
    requires request.selection.Chosen?
    ensures var ids, inventory := request.selection.ids, request.inventory;
      && (ValidSelection(request) <==>
            && ids != [] && "" !in ids && (forall i, j :: 0 <= i < j < |ids| ==> ids[i] != ids[j])
            && forall id :: id in ids ==> exists i :: OnlyAt(inventory, id, i))
      && (ValidSelection(request) ==>
            && |Events(request)| == |ids|
            && forall k :: 0 <= k < |ids| ==> Events(request)[k] in inventory && Events(request)[k].id == ids[k])
  {
    var ids, inventory := request.selection.ids, request.inventory;
    forall id ensures |Matches(inventory, id)| == 1 <==> exists i :: OnlyAt(inventory, id, i) {
      var i := OneMatch(inventory, id);
      if k: nat :| OnlyAt(inventory, id, k) { MatchedOnce(inventory, id, k); }
    }
    assert forall k :: 0 <= k < |ids| ==> ids[k] in ids;
    hide OnlyAt, Matches;
    if ValidSelection(request) {
      forall k | 0 <= k < |ids| ensures Events(request)[k] in inventory && Events(request)[k].id == ids[k] {
        MatchIs(inventory, ids[k]);
      }
    }
  }

  lemma MatchIs(inventory: seq<Event>, id: Id)
    requires |Matches(inventory, id)| == 1
    ensures Matches(inventory, id)[0] in inventory && Matches(inventory, id)[0].id == id
  {
    assert Matches(inventory, id)[0] in Matches(inventory, id);
  }

  // ---------- How events are uploaded ----------

  // Full batches, the last one perhaps shorter; a refusal or an exception is the last answer there is.
  ghost predicate InBatches(batches: seq<Batch>, size: nat) {
    forall i :: 0 <= i < |batches| ==>
      && 0 < |batches[i].events| <= size
      && (i < |batches| - 1 ==>
            |batches[i].events| == size && !batches[i].reply.Refused? && !batches[i].reply.Raised?)
  }

  lemma BatchFirst(batch: Batch, later: seq<Batch>, size: nat)
    requires InBatches(later, size) && 0 < |batch.events| <= size
    requires later == [] || (|batch.events| == size && !batch.reply.Refused? && !batch.reply.Raised?)
    ensures InBatches([batch] + later, size)
  {
    var all := [batch] + later;
    forall i | 0 < i < |all| ensures all[i] == later[i - 1] {}
  }

  lemma {:induction false} UploadInBatches<S>(remote: Remote<S>, s: S, pending: seq<Event>, size: nat, offset: nat)
    requires size > 0
    ensures InBatches(Upload(remote, s, pending, size, offset).0, size)
    decreases |pending| - offset
  {
    if offset < |pending| {
      var chunk := Chunk(pending, offset, size);
      var answer := remote.onUpload(s, chunk);
      UploadedStep(remote, s, pending, size, offset);
      if !Stops(answer.1) {
        var later := Upload(remote, answer.0, pending, size, offset + size).0;
        UploadInBatches(remote, answer.0, pending, size, offset + size);
        BatchFirst(Batch(chunk, answer.1), later, size);
      } else {
        BatchFirst(Batch(chunk, answer.1), [], size);
      }
    }
  }

  // A call uploads the pending events in order and in batches, until the Avatar refuses or its client
  // raises: all of them if that does not happen.
  lemma UploadsExactly<S>(remote: Remote<S>, s: S, receipts: Receipts, request: Request)
    requires Acts(request)
    ensures var first, batches := First(remote, s, receipts, request), Sent(remote, s, receipts, request).0;
      var pending := PendingEvents(receipts, Events(request), first.1);
      && InBatches(batches, if request.limit < 1 then 1 else if request.limit > 100 then 100 else request.limit)
      && Uploaded(batches) <= pending
      && (batches == [] || !(batches[|batches| - 1].reply.Refused? || batches[|batches| - 1].reply.Raised?) ==>
            Uploaded(batches) == pending)
  {
    hide Events, PendingEvents, Uploaded, Upload, InBatches;
    var first := First(remote, s, receipts, request);
    var pending := PendingEvents(receipts, Events(request), first.1);
    UploadInBatches(remote, first.0, pending, BatchSize(request.limit), 0);
    UploadedPrefix(remote, first.0, pending, BatchSize(request.limit), 0);
    assert pending[0..] == pending;
  }

  // ---------- When a call is ok ----------

  // Every answer was usable and failed no event but permanently.
  ghost predicate NothingPutOff(batches: seq<Batch>) {
    forall i :: 0 <= i < |batches| ==> AnsweredAll(batches[i])
  }

  predicate AnsweredAll(batch: Batch) {
    batch.reply.Ack? && forall e :: e in batch.events && e.id in batch.reply.failed ==> batch.reply.failed[e.id]
  }

  lemma {:induction false} SettleErrors(p: Progress, events: seq<Event>, failed: map<Id, bool>, deferring: bool)
    ensures Settle(p, events, failed, deferring).errors >= p.errors
    ensures Settle(p, events, failed, deferring).errors == p.errors
       <==> forall e :: e in events && e.id in failed ==> failed[e.id]
  {
    if events != [] {
      SettleErrors(p, events[..|events| - 1], failed, deferring);
      assert events == events[..|events| - 1] + [events[|events| - 1]];
    }
  }

  lemma {:induction false} NoErrorsExactly(receipts: Receipts, batches: seq<Batch>, deferring: bool)
    ensures ProgressOf(receipts, batches, deferring).errors == 0 <==> NothingPutOff(batches)
  {
    if batches != [] {
      var before, batch := batches[..|batches| - 1], batches[|batches| - 1];
      NoErrorsExactly(receipts, before, deferring);
      SnocParts(batches);
      PutOffSnoc(before, batch);
      if batch.reply.Ack? {
        SettleErrors(ProgressOf(receipts, before, deferring), batch.events, batch.reply.failed, deferring);
      }
    }
  }

  lemma PutOffSnoc(before: seq<Batch>, batch: Batch)
    ensures NothingPutOff(before + [batch]) <==> NothingPutOff(before) && AnsweredAll(batch)
  {
    var all := before + [batch];
    assert all[|before|] == batch;
    if NothingPutOff(all) {
      forall i | 0 <= i < |before| ensures AnsweredAll(before[i]) { assert all[i] == before[i]; }
    }
  }

  // A call is ok iff every answer was usable and put nothing off, and its last reconciliation is complete.
  lemma OkExactly<S>(remote: Remote<S>, s: S, receipts: Receipts, request: Request)
    requires Acts(request)
    ensures var out := Call(remote, s, receipts, request);
      out.ok <==>
        && NothingPutOff(Sent(remote, s, receipts, request).0)
        && out.after.errors == 0 && out.after.missing == out.after.conflicts == {}
        && (out.after.classified ==> out.after.unverified == {})
  {
    var batches := Sent(remote, s, receipts, request).0;
    NoErrorsExactly(receipts, batches, request.selection.Chosen?);
    hide First, Sent, Second;
    if IsCutOff(batches) { assert !AnsweredAll(batches[|batches| - 1]); }
  }

  // ---------- When there is a second reconciliation ----------

  lemma {:induction false} SettleDelivers(p: Progress, events: seq<Event>, failed: map<Id, bool>, deferring: bool,
                                          id: Id)
    ensures id in Settle(p, events, failed, deferring).delivered
       <==> id in p.delivered || (HasId(events, id) && id !in failed)
  {
    if events != [] {
      var rest, last := events[..|events| - 1], events[|events| - 1];
      SettleDelivers(p, rest, failed, deferring, id);
      assert events == rest + [last];
      if e :| e in events && e.id == id { assert e in rest || e == last; }
      if e :| e in rest && e.id == id { assert e in events; }
    }
  }

  ghost predicate AnyAccepted(batches: seq<Batch>) {
    exists ev :: IsAccepted(batches, ev)
  }

  lemma AnySnoc(before: seq<Batch>, batch: Batch)
    ensures AnyAccepted(before + [batch]) <==> AnyAccepted(before) || exists ev :: Accepts(batch, ev)
  {
    hide IsAccepted, Accepts;
    if ev :| IsAccepted(before + [batch], ev) { AcceptsSnoc(before, batch, ev); }
    if ev :| IsAccepted(before, ev) { AcceptsSnoc(before, batch, ev); }
    if ev :| Accepts(batch, ev) { AcceptsSnoc(before, batch, ev); }
  }

  lemma AcceptsSnoc(before: seq<Batch>, batch: Batch, ev: Event)
    ensures IsAccepted(before + [batch], ev) <==> IsAccepted(before, ev) || Accepts(batch, ev)
  {
    AcceptedSnoc(before, batch, ev);
  }

  lemma {:induction false} DeliveredExactly(receipts: Receipts, batches: seq<Batch>, deferring: bool)
    ensures ProgressOf(receipts, batches, deferring).delivered != {} <==> AnyAccepted(batches)
  {
    if batches != [] {
      var before, batch := batches[..|batches| - 1], batches[|batches| - 1];
      DeliveredExactly(receipts, before, deferring);
      SnocParts(batches);
      AnySnoc(before, batch);
      if batch.reply.Ack? { BatchDelivers(ProgressOf(receipts, before, deferring), batch, deferring); }
    }
  }

  lemma BatchDelivers(p: Progress, batch: Batch, deferring: bool)
    requires batch.reply.Ack?
    ensures Settle(p, batch.events, batch.reply.failed, deferring).delivered != {}
       <==> p.delivered != {} || exists ev :: Accepts(batch, ev)
  {
    var after := Settle(p, batch.events, batch.reply.failed, deferring).delivered;
    if id :| id in after {
      SettleDelivers(p, batch.events, batch.reply.failed, deferring, id);
      if id !in p.delivered {
        var ev :| ev in batch.events && ev.id == id;
        assert Accepts(batch, ev);
      }
    }
    if id :| id in p.delivered { SettleDelivers(p, batch.events, batch.reply.failed, deferring, id); }
    if ev :| Accepts(batch, ev) {
      assert HasId(batch.events, ev.id);
      SettleDelivers(p, batch.events, batch.reply.failed, deferring, ev.id);
    }
  }

  // After a first one without errors, or when the Avatar was unbound and then accepted an event.
  lemma AsksAgainExactly<S>(remote: Remote<S>, s: S, receipts: Receipts, request: Request)
    requires Acts(request)
    ensures var first := First(remote, s, receipts, request).1;
      AsksAgain(first, Local(remote, s, receipts, request)) <==>
        first.errors == 0 || (first.identityUnbound && AnyAccepted(Sent(remote, s, receipts, request).0))
  {
    DeliveredExactly(receipts, Sent(remote, s, receipts, request).0, request.selection.Chosen?);
    hide First, Sent;
  }
}
