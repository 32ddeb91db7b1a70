/** Delivering the local outbox to a Tracker and repairing what the Tracker lost
    (apatch/contribution_delivery.py, deliver_pending_contributions and sync_contributions).

    The outbox holds one file per event and one acknowledgement file per accepted event. A sync
    reconciles, posts what is not acknowledged together with what the Tracker reported missing,
    unverified or without its envelope, and reconciles again. */
module ContributionSync {
  import opened Common
  import opened Reconciliation

  // A file name without its ".json".
  type Stem = string

  datatype File = EventFile(event: Event) | AckFile
  type Files = map<Stem, File>

  datatype Item = Item(stem: Stem, event: Event)

  const ACK := ".ack"

  predicate IsAckName(stem: Stem) {
    |stem| >= 4 && stem[|stem| - 4..] == ACK
  }

  predicate Acked(files: Files, stem: Stem) {
    stem + ACK in files
  }

  predicate IsListed(files: Files, avatar: string, stem: Stem) {
    && !IsAckName(stem) && stem in files && files[stem].EventFile? && files[stem].event.id != ""
    && (avatar == "" || files[stem].event.avatar == avatar)
  }

  // The events of one avatar (of all, if none is named), in the order the directory is walked.
  function Listed(files: Files, names: seq<Stem>, avatar: string): (items: seq<Item>)
    ensures forall it :: it in items <==>
              it.stem in names && IsListed(files, avatar, it.stem) && files[it.stem].event == it.event
  {
    if names == [] then []
    else
      var last := names[|names| - 1];
      assert names == names[..|names| - 1] + [last];
      Listed(files, names[..|names| - 1], avatar)
        + if IsListed(files, avatar, last) then [Item(last, files[last].event)] else []
  }

  function IdsOf(items: seq<Item>): (ids: seq<Id>)
    ensures |ids| == |items| && forall i :: 0 <= i < |ids| ==> ids[i] == items[i].event.id
  {
    seq(|items|, i requires 0 <= i < |items| => items[i].event.id)
  }

  function PendingItems(files: Files, items: seq<Item>, forced: set<Id>): (pending: seq<Item>)
    ensures forall it :: it in pending <==> it in items && (!Acked(files, it.stem) || it.event.id in forced)
  {
    if items == [] then []
    else
      var last := items[|items| - 1];
      assert items == items[..|items| - 1] + [last];
      PendingItems(files, items[..|items| - 1], forced)
        + if !Acked(files, last.stem) || last.event.id in forced then [last] else []
  }

  // ---------- Posting ----------

  // A posted batch, with the accepted flags by event id if the answer was usable.
  datatype Posted = Posted(chunk: seq<Item>, answer: Option<map<Id, bool>>)

  function Usable(response: UploadResponse): Option<map<Id, bool>> {
    if response.UploadHttp? && response.status == 200 then response.body else None
  }

  function EventsOf(items: seq<Item>): (events: seq<Event>)
    ensures |events| == |items| && forall i :: 0 <= i < |items| ==> events[i] == items[i].event
  {
    seq(|items|, i requires 0 <= i < |items| => items[i].event)
  }

  function Post<S>(tracker: Tracker<S>, s: S, items: seq<Item>, size: nat, offset: nat): (seq<Posted>, S)
    requires size > 0
    decreases |items| - offset
  {
    if offset >= |items| then ([], s)
    else
      var chunk := Chunk(items, offset, size);
      var reply := tracker.onUpload(s, EventsOf(chunk));
      var later := Post(tracker, reply.0, items, size, offset + size);
      ([Posted(chunk, Usable(reply.1))] + later.0, later.1)
  }

  // What posting has done to the outbox so far.
  datatype Delivery = Delivery(files: Files, errors: nat, delivered: nat, deliveredForced: set<Id>)

  function Acknowledge(d: Delivery, chunk: seq<Item>, answer: map<Id, bool>, forced: set<Id>): Delivery {
    if chunk == [] then d
    else
      var before, it := Acknowledge(d, chunk[..|chunk| - 1], answer, forced), chunk[|chunk| - 1];
      var id := it.event.id;
      if id in answer && answer[id] then
        Delivery(before.files[it.stem + ACK := AckFile], before.errors, before.delivered + 1,
                 before.deliveredForced + if id in forced then {id} else {})
      else before.(errors := before.errors + 1)
  }

  function DeliveryOf(files: Files, batches: seq<Posted>, forced: set<Id>): Delivery {
    if batches == [] then Delivery(files, 0, 0, {})
    else
      var before, batch := DeliveryOf(files, batches[..|batches| - 1], forced), batches[|batches| - 1];
      if batch.answer.Some? then Acknowledge(before, batch.chunk, batch.answer.value, forced)
      else before.(errors := before.errors + 1)
  }

  // The ids a delivery leaves to be posted.
  function Remaining(d: Delivery, items: seq<Item>, forced: set<Id>): set<Id> {
    (set it | it in items && !Acked(d.files, it.stem) :: it.event.id)
    + ((forced * Members(IdsOf(items))) - d.deliveredForced)
  }

  datatype DeliveryResult = DeliveryResult(ok: bool, delivered: nat, pending: set<Id>)

  // ---------- Sync ----------

  datatype Outcome<S> = Outcome(ok: bool, before: Reconciled, after: Reconciled, delivery: DeliveryResult,
                                files: Files, state: S)

  function Replay(r: Reconciled): set<Id> {
    if !r.ok then {}
    else
      Members(r.tally.missing) + (if r.tally.classified then Members(r.tally.unverified) else {})
      + Members(r.tally.missingEnvelopes)
  }

  function Deliver<S>(tracker: Tracker<S>, s: S, online: bool, files: Files, names: seq<Stem>, avatar: string,
                      forced: set<Id>, batchSize: int): (DeliveryResult, Files, S)
  {
    var items := Listed(files, names, avatar);
    var pending := PendingItems(files, items, forced);
    if !online then (DeliveryResult(true, 0, Members(IdsOf(pending))), files, s)
    else
      var posted := Post(tracker, s, pending, BatchSize(batchSize, 250), 0);
      var d := DeliveryOf(files, posted.0, forced);
      (DeliveryResult(d.errors == 0, d.delivered, Remaining(d, Listed(d.files, names, avatar), forced)), d.files,
       posted.1)
  }

  function Sync<S>(tracker: Tracker<S>, s: S, online: bool, files: Files, names: seq<Stem>,
                   avatar: string): Outcome<S> {
    var ids := IdsOf(Listed(files, names, avatar));
    var first := Reconcile(tracker, s, online, avatar, ids, 1000);
    var sent := Deliver(tracker, first.1, online, files, names, avatar, Replay(first.0), 200);
    var last :=
      if first.0.ok && first.0.status != QueuedOffline then Reconcile(tracker, sent.2, online, avatar, ids, 1000)
      else (first.0, sent.2);
    Outcome(sent.0.ok && (first.0.status == QueuedOffline || last.0.complete), first.0, last.0, sent.0, sent.1, last.1)
  }

  // ---------- Delivery keeps the listing and only adds acknowledgements ----------

  lemma {:induction false} AcknowledgeEffect(d: Delivery, chunk: seq<Item>, answer: map<Id, bool>, forced: set<Id>)
    ensures var d' := Acknowledge(d, chunk, answer, forced);
      && d.errors <= d'.errors
      && (forall n :: n in d.files || !IsAckName(n) ==>
          (n in d'.files <==> n in d.files) && (n in d.files && !IsAckName(n) ==> d'.files[n] == d.files[n]))
      && d.deliveredForced <= d'.deliveredForced
      && (d'.errors == d.errors ==> forall it :: it in chunk ==>
            Acked(d'.files, it.stem) && (it.event.id in forced ==> it.event.id in d'.deliveredForced))
  {
    if chunk != [] {
      AcknowledgeEffect(d, chunk[..|chunk| - 1], answer, forced);
      var it := chunk[|chunk| - 1];
      assert chunk == chunk[..|chunk| - 1] + [it];
      assert IsAckName(it.stem + ACK);
    }
  }

  function Items(batches: seq<Posted>): seq<Item> {
    if batches == [] then [] else Items(batches[..|batches| - 1]) + batches[|batches| - 1].chunk
  }

  lemma {:induction false} DeliveryEffect(files: Files, batches: seq<Posted>, forced: set<Id>)
    ensures var d := DeliveryOf(files, batches, forced);
      && (forall n :: n in files || !IsAckName(n) ==>
          (n in d.files <==> n in files) && (n in files && !IsAckName(n) ==> d.files[n] == files[n]))
      && (d.errors == 0 ==> forall it :: it in Items(batches) ==>
            Acked(d.files, it.stem) && (it.event.id in forced ==> it.event.id in d.deliveredForced))
  {
    if batches != [] {
      var before, batch := batches[..|batches| - 1], batches[|batches| - 1];
      DeliveryEffect(files, before, forced);
      if batch.answer.Some? {
        AcknowledgeEffect(DeliveryOf(files, before, forced), batch.chunk, batch.answer.value, forced);
      }
    }
  }

  lemma {:induction false} SameListing(files: Files, files': Files, names: seq<Stem>, avatar: string)
    requires forall n :: !IsAckName(n) ==> (n in files' <==> n in files) && (n in files ==> files'[n] == files[n])
    ensures Listed(files', names, avatar) == Listed(files, names, avatar)
  {
    if names != [] { SameListing(files, files', names[..|names| - 1], avatar); }
  }

  lemma ItemsSnoc(batches: seq<Posted>, batch: Posted)
    ensures Items(batches + [batch]) == Items(batches) + batch.chunk
  {
    assert (batches + [batch])[..|batches|] == batches;
  }

  lemma {:induction false} ItemsCons(batch: Posted, batches: seq<Posted>)
    ensures Items([batch] + batches) == batch.chunk + Items(batches)
  {
    if batches == [] {
      assert [batch] + batches == [batch] && [batch][..0] == [];
    } else {
      hide Items;
      var rest, last := batches[..|batches| - 1], batches[|batches| - 1];
      SnocParts(batches);
      ItemsCons(batch, rest);
      Assoc([batch], rest, [last]);
      ItemsSnoc([batch] + rest, last);
      ItemsSnoc(rest, last);
      Assoc(batch.chunk, Items(rest), last.chunk);
    }
  }

  // Every pending item is posted, in one batch.
  lemma {:induction false} PostedEverything<S>(tracker: Tracker<S>, s: S, items: seq<Item>, size: nat, offset: nat)
    requires size > 0 && offset <= |items|
    ensures Items(Post(tracker, s, items, size, offset).0) == items[offset..]
    decreases |items| - offset
  {
    if offset < |items| {
      var chunk := Chunk(items, offset, size);
      var (s', response) := tracker.onUpload(s, EventsOf(chunk));
      var rest := Post(tracker, s', items, size, offset + size).0;
      ItemsCons(Posted(chunk, Usable(response)), rest);
      if offset + size <= |items| {
        PostedEverything(tracker, s', items, size, offset + size);
        assert items[offset..offset + size] + items[offset + size..] == items[offset..];
      }
    }
  }

  lemma NothingRemains(files: Files, items: seq<Item>, forced: set<Id>, d: Delivery)
    requires forall it :: it in items && Acked(files, it.stem) ==> Acked(d.files, it.stem)
    requires forall it :: it in PendingItems(files, items, forced) ==>
      Acked(d.files, it.stem) && (it.event.id in forced ==> it.event.id in d.deliveredForced)
    ensures Remaining(d, items, forced) == {} && forall it :: it in items ==> Acked(d.files, it.stem)
  {
    forall id | id in forced && id in Members(IdsOf(items)) ensures id in d.deliveredForced {
      var i :| 0 <= i < |items| && IdsOf(items)[i] == id;
      assert items[i] in PendingItems(files, items, forced);
    }
  }

  // A delivery without errors leaves nothing pending: every listed event is acknowledged, and every
  // forced one was delivered again.
  lemma CleanDelivery<S>(tracker: Tracker<S>, s: S, files: Files, names: seq<Stem>, avatar: string, forced: set<Id>,
                         batchSize: int)
    ensures var sent := Deliver(tracker, s, true, files, names, avatar, forced, batchSize);
      && Listed(sent.1, names, avatar) == Listed(files, names, avatar)
      && (sent.0.ok ==>
            sent.0.pending == {} && forall it :: it in Listed(files, names, avatar) ==> Acked(sent.1, it.stem))
  {
    var items := Listed(files, names, avatar);
    var pending := PendingItems(files, items, forced);
    var size := BatchSize(batchSize, 250);
    var batches := Post(tracker, s, pending, size, 0).0;
    var d := DeliveryOf(files, batches, forced);
    assert Items(batches) == pending by {
      PostedEverything(tracker, s, pending, size, 0);
      assert pending[0..] == pending;
    }
    DeliveryEffect(files, batches, forced);
    SameListing(files, d.files, names, avatar);
    if d.errors == 0 { NothingRemains(files, items, forced, d); }
  }

  lemma CompleteCoversListing<S>(tracker: Tracker<S>, s: S, items: seq<Item>, avatar: string)
    requires forall it :: it in items ==> it.event.id != ""
    requires Reconcile(tracker, s, true, avatar, IdsOf(items), 1000).0.complete && items != []
    ensures var r := Reconcile(tracker, s, true, avatar, IdsOf(items), 1000).0;
      && avatar != "" && multiset(r.tally.present) == multiset(Requested(IdsOf(items)))
      && (r.tally.classified ==> multiset(r.tally.verified) == multiset(Requested(IdsOf(items))))
  {
    assert items[0] in items && IdsOf(items)[0] in Requested(IdsOf(items));
    InSyncExactly(tracker, s, true, avatar, IdsOf(items), 1000);
  }

  lemma OnlineIsNotQueued<S>(tracker: Tracker<S>, s: S, avatar: string, ids: seq<Id>)
    ensures Reconcile(tracker, s, true, avatar, ids, 1000).0.status != QueuedOffline
  {
  }

  // Whatever the remote answers: an online sync that reports ok has acknowledged every listed event
  // and has nothing pending,
  lemma OnlineOkMeansDelivered<S>(tracker: Tracker<S>, s: S, files: Files, names: seq<Stem>, avatar: string)
    requires Sync(tracker, s, true, files, names, avatar).ok
    ensures var out := Sync(tracker, s, true, files, names, avatar);
      out.delivery.pending == {} && forall it :: it in Listed(files, names, avatar) ==> Acked(out.files, it.stem)
  {
    var first := Reconcile(tracker, s, true, avatar, IdsOf(Listed(files, names, avatar)), 1000);
    CleanDelivery(tracker, first.1, files, names, avatar, Replay(first.0), 200);
  }

  // and its last reconciliation was complete: it found every listed event present, and verified
  // where the remote classifies verification.
  lemma OnlineOkMeansReconciled<S>(tracker: Tracker<S>, s: S, files: Files, names: seq<Stem>, avatar: string)
    requires Sync(tracker, s, true, files, names, avatar).ok
    ensures var items := Listed(files, names, avatar);
      var r := Sync(tracker, s, true, files, names, avatar).after;
      && r.complete
      && (items != [] ==>
            (&& avatar != "" && multiset(r.tally.present) == multiset(Requested(IdsOf(items)))
             && (r.tally.classified ==> multiset(r.tally.verified) == multiset(Requested(IdsOf(items))))))
  {
    hide Reconcile, Deliver, Listed, IdsOf, Replay, Requested;
    var items := Listed(files, names, avatar);
    var ids := IdsOf(items);
    var first := Reconcile(tracker, s, true, avatar, ids, 1000);
    var s2 := Deliver(tracker, first.1, true, files, names, avatar, Replay(first.0), 200).2;
    OnlineIsNotQueued(tracker, s, avatar, ids);
    if items != [] {
      if first.0.ok { CompleteCoversListing(tracker, s2, items, avatar); }
      else { CompleteCoversListing(tracker, s, items, avatar); }
    }
  }

  // ---------- Export from the signed store ----------

  function Exported(files: Files, names: seq<Stem>, store: seq<Event>, avatar: string): (Files, seq<Stem>) {
    if store == [] then (files, names)
    else
      var before, ev := Exported(files, names, store[..|store| - 1], avatar), store[|store| - 1];
      if ev.id == "" || (avatar != "" && ev.avatar != avatar) || ev.id in before.0 then before
      else (before.0[ev.id := EventFile(ev)], before.1 + [ev.id])
  }

  // Event files carry the id of their event, acknowledgement files an ".ack" name, and the walk
  // meets every event file.
  ghost predicate IsOutbox(files: Files, names: seq<Stem>) {
    forall n :: n in files ==>
      if files[n].EventFile? then files[n].event.id == n && n != "" && n in names else IsAckName(n)
  }

  // Equal ids mean equal events.
  ghost predicate IdsIdentify(files: Files, store: seq<Event>) {
    && (forall ev :: ev in store && ev.id in files && files[ev.id].EventFile? ==> files[ev.id].event == ev)
    && (forall a, b :: a in store && b in store && a.id == b.id ==> a == b)
  }

  lemma {:induction false} ExportEffect(files: Files, names: seq<Stem>, store: seq<Event>, avatar: string, ev: Event)
    requires IsOutbox(files, names) && IdsIdentify(files, store)
    requires ev in store && ev.id != "" && (avatar == "" || ev.avatar == avatar)
    ensures var out := Exported(files, names, store, avatar);
      && IsOutbox(out.0, out.1)
      && ev.id in out.0 && (out.0[ev.id].EventFile? ==> out.0[ev.id].event == ev)
      && (forall n :: n in files ==> n in out.0 && out.0[n] == files[n])
  {
    ExportKeeps(files, names, store, avatar);
    ExportReaches(files, names, store, avatar, ev);
  }

  lemma {:induction false} ExportKeeps(files: Files, names: seq<Stem>, store: seq<Event>, avatar: string)
    requires IsOutbox(files, names)
    ensures var out := Exported(files, names, store, avatar);
      && IsOutbox(out.0, out.1) && (forall n :: n in names ==> n in out.1)
      && (forall n :: n in files ==> n in out.0 && out.0[n] == files[n])
      && (forall n :: n in out.0 && n !in files ==> out.0[n].EventFile? && out.0[n].event in store)
  {
    if store != [] {
      ExportKeeps(files, names, store[..|store| - 1], avatar);
      assert forall e :: e in store[..|store| - 1] ==> e in store;
    }
  }

  lemma ExportedLast(files: Files, names: seq<Stem>, store: seq<Event>, avatar: string)
    requires store != []
    ensures var before, ev := Exported(files, names, store[..|store| - 1], avatar).0, store[|store| - 1];
      Exported(files, names, store, avatar).0
      == if ev.id == "" || (avatar != "" && ev.avatar != avatar) || ev.id in before then before
         else before[ev.id := EventFile(ev)]
  {
  }

  lemma IdentifiedRest(files: Files, store: seq<Event>)
    requires IdsIdentify(files, store) && store != []
    ensures IdsIdentify(files, store[..|store| - 1])
  {
  }

  lemma {:induction false} ExportReaches(files: Files, names: seq<Stem>, store: seq<Event>, avatar: string, ev: Event)
    requires IsOutbox(files, names) && IdsIdentify(files, store)
    requires ev in store && ev.id != "" && (avatar == "" || ev.avatar == avatar)
    ensures var out := Exported(files, names, store, avatar).0;
      ev.id in out && (out[ev.id].EventFile? ==> out[ev.id].event == ev)
  {
    var rest := store[..|store| - 1];
    LastOrBefore(store, ev);
    IdentifiedRest(files, store);
    ExportedLast(files, names, store, avatar);
    ExportKeeps(files, names, rest, avatar);
    hide IsOutbox, Exported;
    if ev in rest { ExportReaches(files, names, rest, avatar, ev); }
  }

  // An exported event of the avatar is listed for delivery exactly when its id does not end in
  // ".ack": such an id makes the event file look like the acknowledgement of another event.
  lemma ExportedIsListedExactly(files: Files, names: seq<Stem>, store: seq<Event>, avatar: string, ev: Event)
    requires IsOutbox(files, names) && IdsIdentify(files, store)
    requires ev in store && ev.id != "" && (avatar == "" || ev.avatar == avatar)
    ensures var out := Exported(files, names, store, avatar);
      Item(ev.id, ev) in Listed(out.0, out.1, avatar) <==> |ev.id| < 4 || ev.id[|ev.id| - 4..] != ".ack"
    ensures var out := Exported(files, names, store, avatar).0;
      forall other :: ev.id == other + ACK ==> Acked(out, other)
  {
    ExportEffect(files, names, store, avatar, ev);
  }

  // ---------- The outbox on disk ----------

  class Outbox {
    var files: Files
    var names: seq<Stem>

    constructor ()
      ensures files == map[] && names == []
    {
      files, names := map[], [];
    }

    method ExportPending(store: seq<Event>, avatar: string) returns (exported: seq<Id>)
      modifies this
      ensures (files, names) == Exported(old(files), old(names), store, avatar)
      ensures names == old(names) + exported
    {
      exported := [];
      for i := 0 to |store|
        invariant (files, names) == Exported(old(files), old(names), store[..i], avatar)
        invariant names == old(names) + exported
      {
        assert store[..i + 1][..i] == store[..i];
        var ev := store[i];
        if ev.id != "" && (avatar == "" || ev.avatar == avatar) && ev.id !in files {
          files := files[ev.id := EventFile(ev)];
          names := names + [ev.id];
          exported := exported + [ev.id];
        }
      }
      assert store[..|store|] == store;
    }

    method PendingCount(avatar: string) returns (count: nat)
      ensures count == |PendingItems(files, Listed(files, names, avatar), {})|
    {
      hide Listed;
      count := 0;
      var items := Listed(files, names, avatar);
      for i := 0 to |items|
        invariant count == |PendingItems(files, items[..i], {})|
      {
        assert items[..i + 1][..i] == items[..i];
        if !Acked(files, items[i].stem) { count := count + 1; }
      }
      assert items[..|items|] == items;
    }

    // Writes the acknowledgements of one answered batch.
    method AcknowledgeBatch(chunk: seq<Item>, answer: map<Id, bool>, forced: set<Id>, ghost d: Delivery)
      returns (errors: nat, delivered: nat, deliveredForced: set<Id>)
      requires d.files == files
      modifies this`files
      ensures Acknowledge(d, chunk, answer, forced)
              == Delivery(files, d.errors + errors, d.delivered + delivered, d.deliveredForced + deliveredForced)
    {
      errors, delivered, deliveredForced := 0, 0, {};
      for i := 0 to |chunk|
        invariant Acknowledge(d, chunk[..i], answer, forced)
               == Delivery(files, d.errors + errors, d.delivered + delivered, d.deliveredForced + deliveredForced)
      {
        assert chunk[..i + 1][..i] == chunk[..i];
        var id := chunk[i].event.id;
        if id in answer && answer[id] {
          files := files[chunk[i].stem + ACK := AckFile];
          delivered := delivered + 1;
          if id in forced { deliveredForced := deliveredForced + {id}; }
        } else {
          errors := errors + 1;
        }
      }
      assert chunk[..|chunk|] == chunk;
    }

    // Posts the pending items in batches and acknowledges the accepted ones.
    method PostPending<S>(tracker: Tracker<S>, s0: S, pending: seq<Item>, size: nat, forced: set<Id>)
      returns (d: Delivery, s: S)
      requires size > 0
      modifies this`files
      ensures s == Post(tracker, s0, pending, size, 0).1
      ensures d == DeliveryOf(old(files), Post(tracker, s0, pending, size, 0).0, forced) && files == d.files
    {
      hide Usable, Acknowledge;
      s := s0;
      var offset, errors, delivered, deliveredForced := 0, 0, 0, {};
      ghost var batches := Post(tracker, s0, pending, size, 0).0;
      ghost var done := [];
      while offset < |pending|
        invariant Post(tracker, s, pending, size, offset).1 == Post(tracker, s0, pending, size, 0).1
        invariant done + Post(tracker, s, pending, size, offset).0 == batches
        invariant DeliveryOf(old(files), done, forced) == Delivery(files, errors, delivered, deliveredForced)
      {
        var chunk := Chunk(pending, offset, size);
        var reply := tracker.onUpload(s, EventsOf(chunk));
        var answer := Usable(reply.1);
        MovePosted(old(files), forced, done, Posted(chunk, answer),
                   Post(tracker, reply.0, pending, size, offset + size).0);
        if answer.None? {
          errors := errors + 1;
        } else {
          var e, n, f := AcknowledgeBatch(chunk, answer.value, forced,
                                          Delivery(files, errors, delivered, deliveredForced));
          errors, delivered, deliveredForced := errors + e, delivered + n, deliveredForced + f;
        }
        done := done + [Posted(chunk, answer)];
        s := reply.0;
        offset := offset + size;
      }
      assert done == batches;
      d := Delivery(files, errors, delivered, deliveredForced);
    }

    method DeliverPending<S>(tracker: Tracker<S>, s0: S, online: bool, avatar: string, forced: set<Id>, batchSize: int)
      returns (result: DeliveryResult, s: S)
      modifies this`files
      ensures (result, files, s) == Deliver(tracker, s0, online, old(files), names, avatar, forced, batchSize)
    {
      var pending := PendingItems(files, Listed(files, names, avatar), forced);
      if !online { return DeliveryResult(true, 0, Members(IdsOf(pending))), s0; }
      var d;
      d, s := PostPending(tracker, s0, pending, BatchSize(batchSize, 250), forced);
      result := DeliveryResult(d.errors == 0, d.delivered, Remaining(d, Listed(files, names, avatar), forced));
    }

    method SyncContributions<S>(tracker: Tracker<S>, s0: S, online: bool, store: seq<Event>, avatar: string)
        returns (out: Outcome<S>)
      modifies this
      ensures var exported := Exported(old(files), old(names), store, avatar);
        out == Sync(tracker, s0, online, exported.0, exported.1, avatar) && files == out.files && names == exported.1
    {
      var _ := ExportPending(store, avatar);
      var ids := IdsOf(Listed(files, names, avatar));
      var before, s1 := ReconcileContributions(tracker, s0, online, avatar, ids, 1000);
      var delivery, s2 := DeliverPending(tracker, s1, online, avatar, Replay(before), 200);
      var after, s := before, s2;
      if before.ok && before.status != QueuedOffline {
        after, s := ReconcileContributions(tracker, s2, online, avatar, ids, 1000);
      }
      var ok := delivery.ok && (before.status == QueuedOffline || after.complete);
      out := Outcome(ok, before, after, delivery, files, s);
    }
  }

  lemma MovePosted(files: Files, forced: set<Id>, done: seq<Posted>, batch: Posted, rest: seq<Posted>)
    ensures done + ([batch] + rest) == (done + [batch]) + rest
    ensures var before := DeliveryOf(files, done, forced);
      DeliveryOf(files, done + [batch], forced) ==
      if batch.answer.Some? then Acknowledge(before, batch.chunk, batch.answer.value, forced)
      else before.(errors := before.errors + 1)
  {
    assert (done + [batch])[..|done|] == done;
  }
}
