/** What a delivery to a Tracker does, for every Tracker and every answer (apatch/contribution_delivery.py,
    deliver_pending_contributions): an acknowledgement means acceptance, and what was not accepted stays
    pending. */
module DeliveryLaws {
  import opened Common
  import opened Reconciliation
  import opened ContributionSync

  // ---------- Acceptance, read off the answers ----------

  // An answer can be used iff it is a 200 with a JSON object.
  lemma UsableExactly(response: UploadResponse, flags: map<Id, bool>)
    ensures Usable(response) == Some(flags) <==> response == UploadHttp(200, Some(flags))
    ensures Usable(response) == None <==> !(response.UploadHttp? && response.status == 200 && response.body.Some?)
  {
  }

  predicate Accepts(batch: Posted, it: Item) {
    it in batch.chunk && batch.answer.Some? && it.event.id in batch.answer.value && batch.answer.value[it.event.id]
  }

  // Accepted in one of the batches.
  ghost predicate IsAccepted(batches: seq<Posted>, it: Item) {
    exists i :: 0 <= i < |batches| && Accepts(batches[i], it)
  }

  lemma AcceptedSnoc(batches: seq<Posted>, batch: Posted, it: Item)
    ensures IsAccepted(batches + [batch], it) <==> IsAccepted(batches, it) || Accepts(batch, it)
  {
    var all := batches + [batch];
    if i :| 0 <= i < |batches| && Accepts(batches[i], it) { assert all[i] == batches[i]; }
    assert all[|batches|] == batch;
  }

  // An item of this file, or of this id, was accepted.
  ghost predicate StemAccepted(batches: seq<Posted>, stem: Stem) {
    exists it :: IsAccepted(batches, it) && it.stem == stem
  }

  ghost predicate IdAccepted(batches: seq<Posted>, id: Id) {
    exists it :: IsAccepted(batches, it) && it.event.id == id
  }

  lemma StemSnoc(batches: seq<Posted>, batch: Posted, stem: Stem)
    ensures StemAccepted(batches + [batch], stem)
       <==> StemAccepted(batches, stem) || exists it :: Accepts(batch, it) && it.stem == stem
  {
    hide IsAccepted, Accepts;
    if it :| IsAccepted(batches + [batch], it) && it.stem == stem { AcceptedSnoc(batches, batch, it); }
    if it :| IsAccepted(batches, it) && it.stem == stem { AcceptedSnoc(batches, batch, it); }
    if it :| Accepts(batch, it) && it.stem == stem { AcceptedSnoc(batches, batch, it); }
  }

  lemma IdSnoc(batches: seq<Posted>, batch: Posted, id: Id)
    ensures IdAccepted(batches + [batch], id)
       <==> IdAccepted(batches, id) || exists it :: Accepts(batch, it) && it.event.id == id
  {
    hide IsAccepted, Accepts;
    if it :| IsAccepted(batches + [batch], it) && it.event.id == id { AcceptedSnoc(batches, batch, it); }
    if it :| IsAccepted(batches, it) && it.event.id == id { AcceptedSnoc(batches, batch, it); }
    if it :| Accepts(batch, it) && it.event.id == id { AcceptedSnoc(batches, batch, it); }
  }

  // How many rows were accepted.
  function AcceptedRows(batch: Posted): nat {
    if batch.answer.None? then 0 else |Kept(batch.chunk, batch)|
  }

  function Kept(chunk: seq<Item>, batch: Posted): (kept: seq<Item>) {
    if chunk == [] then []
    else
      var last := chunk[|chunk| - 1];
      Kept(chunk[..|chunk| - 1], batch)
        + if batch.answer.Some? && last.event.id in batch.answer.value && batch.answer.value[last.event.id] then [last]
          else []
  }

  function AllAcceptedRows(batches: seq<Posted>): nat {
    if batches == [] then 0 else AllAcceptedRows(batches[..|batches| - 1]) + AcceptedRows(batches[|batches| - 1])
  }

  // Every answer was usable and accepted its whole batch.
  ghost predicate EverythingAccepted(batches: seq<Posted>) {
    forall i :: 0 <= i < |batches| ==>
      batches[i].answer.Some? && forall it :: it in batches[i].chunk ==> Accepts(batches[i], it)
  }

  // ---------- One answered batch ----------

  ghost predicate ChunkAccepts(chunk: seq<Item>, answer: map<Id, bool>, stem: Stem) {
    exists it :: it in chunk && it.stem == stem && it.event.id in answer && answer[it.event.id]
  }

  ghost predicate ChunkAcceptsId(chunk: seq<Item>, answer: map<Id, bool>, id: Id) {
    id in answer && answer[id] && exists it :: it in chunk && it.event.id == id
  }

  lemma ChunkSnoc(rest: seq<Item>, last: Item, answer: map<Id, bool>, stem: Stem, id: Id)
    ensures ChunkAccepts(rest + [last], answer, stem)
       <==> ChunkAccepts(rest, answer, stem) || (last.stem == stem && last.event.id in answer && answer[last.event.id])
    ensures ChunkAcceptsId(rest + [last], answer, id)
       <==> ChunkAcceptsId(rest, answer, id) || (last.event.id == id && id in answer && answer[id])
  {
    var all := rest + [last];
    assert forall it :: it in all <==> it in rest || it == last;
  }

  lemma SameAck(a: Stem, b: Stem)
    ensures a + ACK == b + ACK <==> a == b
  {
    if a + ACK == b + ACK { assert a == (a + ACK)[..|a + ACK| - 4] && b == (b + ACK)[..|b + ACK| - 4]; }
  }

  lemma {:induction false} BatchAcks(d: Delivery, chunk: seq<Item>, answer: map<Id, bool>, forced: set<Id>, stem: Stem,
                                     id: Id)
    ensures var d' := Acknowledge(d, chunk, answer, forced);
      && (Acked(d'.files, stem) <==> Acked(d.files, stem) || ChunkAccepts(chunk, answer, stem))
      && (id in d'.deliveredForced <==> id in d.deliveredForced || (id in forced && ChunkAcceptsId(chunk, answer, id)))
      && d'.delivered == d.delivered + |Kept(chunk, Posted(chunk, Some(answer)))|
      && d'.errors == d.errors + (|chunk| - |Kept(chunk, Posted(chunk, Some(answer)))|)
  {
    if chunk != [] {
      var rest, last := chunk[..|chunk| - 1], chunk[|chunk| - 1];
      SnocParts(chunk);
      BatchAcks(d, rest, answer, forced, stem, id);
      KeptSame(rest, Posted(chunk, Some(answer)), Posted(rest, Some(answer)));
      hide ChunkAccepts, ChunkAcceptsId;
      ChunkSnoc(rest, last, answer, stem, id);
      SameAck(last.stem, stem);
    }
  }

  lemma {:induction false} KeptSame(chunk: seq<Item>, a: Posted, b: Posted)
    requires a.answer == b.answer
    ensures Kept(chunk, a) == Kept(chunk, b) && |Kept(chunk, a)| <= |chunk|
  {
    if chunk != [] { KeptSame(chunk[..|chunk| - 1], a, b); }
  }

  lemma {:induction false} KeptAll(chunk: seq<Item>, batch: Posted)
    requires batch.answer.Some?
    ensures |Kept(chunk, batch)| == |chunk|
       <==> forall it :: it in chunk ==> it.event.id in batch.answer.value && batch.answer.value[it.event.id]
  {
    if chunk != [] {
      var rest, last := chunk[..|chunk| - 1], chunk[|chunk| - 1];
      KeptAll(rest, batch);
      KeptSame(rest, batch, batch);
      assert chunk == rest + [last];
    }
  }

  // ---------- A whole delivery ----------

  // What the outbox and the counters say after the batches.
  lemma {:induction false} BatchesAck(files: Files, batches: seq<Posted>, forced: set<Id>, stem: Stem, id: Id)
    ensures var d := DeliveryOf(files, batches, forced);
      && (Acked(d.files, stem) <==> Acked(files, stem) || StemAccepted(batches, stem))
      && (id in d.deliveredForced <==> id in forced && IdAccepted(batches, id))
      && d.delivered == AllAcceptedRows(batches)
  {
    if batches != [] {
      var before, batch := batches[..|batches| - 1], batches[|batches| - 1];
      BatchesAck(files, before, forced, stem, id);
      SnocParts(batches);
      StemSnoc(before, batch, stem);
      IdSnoc(before, batch, id);
      hide StemAccepted, IdAccepted, Acknowledge;
      if batch.answer.Some? {
        BatchAcks(DeliveryOf(files, before, forced), batch.chunk, batch.answer.value, forced, stem, id);
        KeptSame(batch.chunk, batch, Posted(batch.chunk, Some(batch.answer.value)));
        assert ChunkAccepts(batch.chunk, batch.answer.value, stem)
          <==> exists it :: Accepts(batch, it) && it.stem == stem;
        assert ChunkAcceptsId(batch.chunk, batch.answer.value, id)
          <==> exists it :: Accepts(batch, it) && it.event.id == id;
      }
    }
  }

  lemma {:induction false} NoErrorsExactly(files: Files, batches: seq<Posted>, forced: set<Id>)
    ensures DeliveryOf(files, batches, forced).errors == 0 <==> EverythingAccepted(batches)
  {
    if batches != [] {
      var before, batch := batches[..|batches| - 1], batches[|batches| - 1];
      NoErrorsExactly(files, before, forced);
      EverythingSnoc(before, batch);
      SnocParts(batches);
      hide EverythingAccepted, Acknowledge;
      if batch.answer.Some? {
        BatchAcks(DeliveryOf(files, before, forced), batch.chunk, batch.answer.value, forced, "", "");
        KeptSame(batch.chunk, batch, Posted(batch.chunk, Some(batch.answer.value)));
        KeptAll(batch.chunk, batch);
      }
    }
  }

  lemma EverythingSnoc(before: seq<Posted>, batch: Posted)
    ensures EverythingAccepted(before + [batch])
       <==> EverythingAccepted(before) && batch.answer.Some? && forall it :: it in batch.chunk ==> Accepts(batch, it)
  {
    var all := before + [batch];
    assert all[|before|] == batch;
    if EverythingAccepted(all) {
      forall i | 0 <= i < |before|
        ensures before[i].answer.Some? && forall it :: it in before[i].chunk ==> Accepts(before[i], it)
      {
        assert all[i] == before[i];
      }
    }
  }

  // The batches of an online delivery.
  function Batches<S>(tracker: Tracker<S>, s: S, files: Files, names: seq<Stem>, avatar: string, forced: set<Id>,
                      batchSize: int): seq<Posted>
  {
    Post(tracker, s, PendingItems(files, Listed(files, names, avatar), forced), BatchSize(batchSize, 250), 0).0
  }

  // Posted is exactly what is listed and either not acknowledged or forced, each row in one batch.
  lemma PostedExactly<S>(tracker: Tracker<S>, s: S, files: Files, names: seq<Stem>, avatar: string, forced: set<Id>,
                         batchSize: int, it: Item)
    ensures it in Items(Batches(tracker, s, files, names, avatar, forced, batchSize))
       <==> it in Listed(files, names, avatar) && (!Acked(files, it.stem) || it.event.id in forced)
  {
    var pending := PendingItems(files, Listed(files, names, avatar), forced);
    PostedEverything(tracker, s, pending, BatchSize(batchSize, 250), 0);
    assert pending[0..] == pending;
  }

  function RowsOf(batches: seq<Posted>): seq<nat> {
    if batches == [] then [] else [|batches[0].chunk|] + RowsOf(batches[1..])
  }

  lemma {:induction false} PostedInFull<S>(tracker: Tracker<S>, s: S, items: seq<Item>, size: nat, offset: nat)
    requires size > 0
    ensures AreFull(RowsOf(Post(tracker, s, items, size, offset).0), size)
    decreases |items| - offset
  {
    if offset >= |items| {
      assert Post(tracker, s, items, size, offset).0 == [];
    } else {
      hide AreFull, Usable;
      var chunk := Chunk(items, offset, size);
      var reply := tracker.onUpload(s, EventsOf(chunk));
      var later := Post(tracker, reply.0, items, size, offset + size).0;
      PostedInFull(tracker, reply.0, items, size, offset + size);
      FullFirst(|chunk|, RowsOf(later), size);
      assert ([Posted(chunk, Usable(reply.1))] + later)[1..] == later;
    }
  }

  // They are posted in the order of the listing and in full batches of at most 250, but for the last.
  lemma PostedInOrder<S>(tracker: Tracker<S>, s: S, files: Files, names: seq<Stem>, avatar: string, forced: set<Id>,
                         batchSize: int)
    ensures var batches := Batches(tracker, s, files, names, avatar, forced, batchSize);
      && Items(batches) == PendingItems(files, Listed(files, names, avatar), forced)
      && AreFull(RowsOf(batches), if batchSize < 1 then 1 else if batchSize > 250 then 250 else batchSize)
  {
    hide Listed, PendingItems, AreFull;
    var pending := PendingItems(files, Listed(files, names, avatar), forced);
    PostedEverything(tracker, s, pending, BatchSize(batchSize, 250), 0);
    PostedInFull(tracker, s, pending, BatchSize(batchSize, 250), 0);
    assert pending[0..] == pending;
  }

  // After a delivery an event is acknowledged iff it was before or a usable answer accepted it, and as
  // many rows are counted as delivered as were accepted.
  lemma AcknowledgedExactly<S>(tracker: Tracker<S>, s: S, files: Files, names: seq<Stem>, avatar: string,
                               forced: set<Id>, batchSize: int, stem: Stem)
    ensures var sent := Deliver(tracker, s, true, files, names, avatar, forced, batchSize);
      var batches := Batches(tracker, s, files, names, avatar, forced, batchSize);
      && (Acked(sent.1, stem) <==> Acked(files, stem) || StemAccepted(batches, stem))
      && sent.0.delivered == AllAcceptedRows(batches)
      && (sent.0.ok <==> EverythingAccepted(batches))
  {
    hide StemAccepted, Acked, EverythingAccepted, AllAcceptedRows;
    var batches := Batches(tracker, s, files, names, avatar, forced, batchSize);
    BatchesAck(files, batches, forced, stem, "");
    NoErrorsExactly(files, batches, forced);
  }

  // Pending afterwards are exactly the listed ids of an event without acknowledgement, and the forced
  // ones that no answer accepted.
  lemma PendingExactly<S>(tracker: Tracker<S>, s: S, files: Files, names: seq<Stem>, avatar: string, forced: set<Id>,
                          batchSize: int, id: Id)
    ensures var sent := Deliver(tracker, s, true, files, names, avatar, forced, batchSize);
      var batches := Batches(tracker, s, files, names, avatar, forced, batchSize);
      id in sent.0.pending <==>
        exists it :: it in Listed(files, names, avatar) && it.event.id == id
                     && (!Acked(sent.1, it.stem) || (id in forced && !IdAccepted(batches, id)))
  {
    var batches := Batches(tracker, s, files, names, avatar, forced, batchSize);
    var d := DeliveryOf(files, batches, forced);
    var items := Listed(files, names, avatar);
    CleanDelivery(tracker, s, files, names, avatar, forced, batchSize);
    BatchesAck(files, batches, forced, "", id);
    RemainingExactly(d, items, forced, id);
  }

  lemma RemainingExactly(d: Delivery, items: seq<Item>, forced: set<Id>, id: Id)
    ensures id in Remaining(d, items, forced) <==>
              exists it :: it in items && it.event.id == id
                           && (!Acked(d.files, it.stem) || (id in forced && id !in d.deliveredForced))
  {
    if id in Members(IdsOf(items)) {
      var i :| 0 <= i < |items| && IdsOf(items)[i] == id;
      assert items[i] in items;
    }
    if it :| it in items && it.event.id == id {
      var i :| 0 <= i < |items| && items[i] == it;
      assert IdsOf(items)[i] == id;
    }
  }

  // Offline nothing happens, and everything that would be posted is pending.
  lemma OfflineExactly<S>(tracker: Tracker<S>, s: S, files: Files, names: seq<Stem>, avatar: string, forced: set<Id>,
                          batchSize: int, id: Id)
    ensures var sent := Deliver(tracker, s, false, files, names, avatar, forced, batchSize);
      && sent.1 == files && sent.2 == s && sent.0.ok && sent.0.delivered == 0
      && (id in sent.0.pending <==>
            exists it :: it in Listed(files, names, avatar) && it.event.id == id
                         && (!Acked(files, it.stem) || id in forced))
  {
    var pending := PendingItems(files, Listed(files, names, avatar), forced);
    if id in Members(IdsOf(pending)) {
      var i :| 0 <= i < |pending| && IdsOf(pending)[i] == id;
      assert pending[i] in pending;
    }
    if it :| it in pending && it.event.id == id {
      var i :| 0 <= i < |pending| && pending[i] == it;
      assert IdsOf(pending)[i] == id;
    }
  }

  // A sync posts what is not acknowledged, and of the rest exactly what its first reconciliation, being
  // without errors, reports as missing, without its envelope, or not verified.
  lemma SyncPostsExactly<S>(tracker: Tracker<S>, s: S, files: Files, names: seq<Stem>, avatar: string, it: Item)
    ensures var first := Reconcile(tracker, s, true, avatar, IdsOf(Listed(files, names, avatar)), 1000);
      var r := first.0;
      it in Items(Batches(tracker, first.1, files, names, avatar, Replay(r), 200)) <==>
        && it in Listed(files, names, avatar)
        && (!Acked(files, it.stem)
            || (r.ok && (it.event.id in r.tally.missing || it.event.id in r.tally.missingEnvelopes
                         || (r.tally.classified && it.event.id in r.tally.unverified))))
  {
    var first := Reconcile(tracker, s, true, avatar, IdsOf(Listed(files, names, avatar)), 1000);
    hide Reconcile, Listed, Post, Items;
    PostedExactly(tracker, first.1, files, names, avatar, Replay(first.0), 200, it);
  }

  // Whatever the Tracker answers, a sync acknowledges an event only if it was acknowledged before or the
  // Tracker accepted it.
  lemma SyncAcknowledgesExactly<S>(tracker: Tracker<S>, s: S, files: Files, names: seq<Stem>, avatar: string,
                                   stem: Stem)
    ensures var first := Reconcile(tracker, s, true, avatar, IdsOf(Listed(files, names, avatar)), 1000);
      Acked(Sync(tracker, s, true, files, names, avatar).files, stem)
      <==> Acked(files, stem)
           || StemAccepted(Batches(tracker, first.1, files, names, avatar, Replay(first.0), 200), stem)
  {
    var first := Reconcile(tracker, s, true, avatar, IdsOf(Listed(files, names, avatar)), 1000);
    hide Reconcile, Listed, Deliver, StemAccepted, Acked, Replay, Batches, EverythingAccepted, AllAcceptedRows;
    AcknowledgedExactly(tracker, first.1, files, names, avatar, Replay(first.0), 200, stem);
  }
}
