/** Owner-scoped upload of contribution events to an Avatar (apatch/contribution_export.py,
    sync_to_trustchain_avatar): delivery receipts, quarantine and repair of what went missing.

    What the remote answers is left completely open: the results hold for every remote. */
module AvatarSync {
  import opened Common

  type Id = string

  datatype Event = Event(id: Id, content: string)

  // A receipt binds an event id to the digest of the event it was written for, here the event
  // itself; a permanent rejection is a receipt that quarantines the event.
  datatype Receipt = Receipt(source: Event, quarantined: bool)
  type Receipts = map<Id, Receipt>

  predicate Synced(receipts: Receipts, ev: Event) {
    ev.id in receipts && receipts[ev.id].source == ev
  }

  predicate Quarantined(receipts: Receipts, ev: Event) {
    Synced(receipts, ev) && receipts[ev.id].quarantined
  }

  // The answer to an upload: refused by the identity gate, an unusable answer, an exception, or the
  // failed ids, true marking a permanent rejection.
  datatype Reply = Refused | Unusable | Raised | Ack(failed: map<Id, bool>)

  // What the accepted answers to a reconciliation say, whether the identity gate refused the Avatar as
  // unbound, and the number of errors: every unusable answer is one.
  datatype Reconciliation = Reconciliation(missing: set<Id>, conflicts: set<Id>, unverified: set<Id>, classified: bool,
                                           identityUnbound: bool, errors: nat)
  {
    predicate Ok() {
      errors == 0
    }

    predicate Complete() {
      Ok() && missing == {} && conflicts == {} && (!classified || unverified == {})
    }
  }

  datatype Remote<!S> = Remote(onReconcile: (S, seq<Event>) -> (S, Reconciliation),
                               onUpload: (S, seq<Event>) -> (S, Reply))

  function Filter(events: seq<Event>, keep: Event -> bool): (kept: seq<Event>)
    ensures forall ev :: ev in kept <==> ev in events && keep(ev)
  {
    if events == [] then []
    else
      assert events == events[..|events| - 1] + [events[|events| - 1]];
      Filter(events[..|events| - 1], keep) + if keep(events[|events| - 1]) then [events[|events| - 1]] else []
  }

  function Chunk(xs: seq<Event>, offset: nat, size: nat): seq<Event>
    requires offset <= |xs|
  {
    if offset + size <= |xs| then xs[offset..offset + size] else xs[offset..]
  }

  // ---------- Uploading ----------

  datatype Batch = Batch(events: seq<Event>, reply: Reply)

  // A refusal or an exception ends the uploads.
  predicate Stops(reply: Reply) {
    reply.Refused? || reply.Raised?
  }

  function Upload<S>(remote: Remote<S>, s: S, pending: seq<Event>, size: nat, offset: nat): (seq<Batch>, S)
    requires size > 0
    decreases |pending| - offset
  {
    if offset >= |pending| then ([], s)
    else
      var chunk := Chunk(pending, offset, size);
      var answer := remote.onUpload(s, chunk);
      if Stops(answer.1) then ([Batch(chunk, answer.1)], answer.0)
      else
        var later := Upload(remote, answer.0, pending, size, offset + size);
        ([Batch(chunk, answer.1)] + later.0, later.1)
  }

  function Uploaded(batches: seq<Batch>): seq<Event> {
    if batches == [] then [] else Uploaded(batches[..|batches| - 1]) + batches[|batches| - 1].events
  }

  // What the answers did locally: the receipts, the events whose success receipt waits for the
  // second reconciliation, the ids delivered, and the number of errors.
  datatype Progress = Progress(receipts: Receipts, deferred: seq<Event>, delivered: set<Id>, errors: nat)

  function Settle(p: Progress, events: seq<Event>, failed: map<Id, bool>, deferring: bool): Progress {
    if events == [] then p
    else
      var before, ev := Settle(p, events[..|events| - 1], failed, deferring), events[|events| - 1];
      if ev.id !in failed then
        var delivered := before.delivered + {ev.id};
        if deferring then before.(deferred := before.deferred + [ev], delivered := delivered)
        else before.(receipts := before.receipts[ev.id := Receipt(ev, false)], delivered := delivered)
      else if failed[ev.id] then before.(receipts := before.receipts[ev.id := Receipt(ev, true)])
      else before.(errors := before.errors + 1)
  }

  function ProgressOf(receipts: Receipts, batches: seq<Batch>, deferring: bool): Progress {
    if batches == [] then Progress(receipts, [], {}, 0)
    else
      var before, batch := ProgressOf(receipts, batches[..|batches| - 1], deferring), batches[|batches| - 1];
      if batch.reply.Ack? then Settle(before, batch.events, batch.reply.failed, deferring)
      else before.(errors := before.errors + 1)
  }

  function Deferred(receipts: Receipts, deferred: seq<Event>): Receipts {
    if deferred == [] then receipts
    else
      var last := deferred[|deferred| - 1];
      Deferred(receipts, deferred[..|deferred| - 1])[last.id := Receipt(last, false)]
  }

  // ---------- One call ----------

  datatype Selection = All | Chosen(ids: seq<Id>)

  // What the caller asks for: the local events of the avatar, an optional selection of ids, and
  // whether endpoint and token are configured.
  datatype Request = Request(inventory: seq<Event>, selection: Selection, dryRun: bool, configured: bool, limit: int)

  function Matches(inventory: seq<Event>, id: Id): seq<Event> {
    Filter(inventory, (ev: Event) => ev.id == id)
  }

  // A selection must be a non-empty list of distinct non-empty ids, each of exactly one local event.
  predicate ValidSelection(request: Request) {
    request.selection.All? ||
    (var ids := request.selection.ids;
     && ids != [] && (forall i :: 0 <= i < |ids| ==> ids[i] != "")
     && (forall i, j :: 0 <= i < j < |ids| ==> ids[i] != ids[j])
     && (forall i :: 0 <= i < |ids| ==> |Matches(request.inventory, ids[i])| == 1))
  }

  function Events(request: Request): seq<Event>
    requires ValidSelection(request)
  {
    if request.selection.All? then request.inventory
    else seq(|request.selection.ids|, i requires 0 <= i < |request.selection.ids| =>
             Matches(request.inventory, request.selection.ids[i])[0])
  }

  predicate Acts(request: Request) {
    ValidSelection(request) && !request.dryRun && request.configured
  }

  function BatchSize(limit: int): (size: nat)
    ensures 1 <= size <= 100
  {
    if limit < 1 then 1 else if limit > 100 then 100 else limit
  }

  function Replay(before: Reconciliation): set<Id> {
    if !before.Ok() then {} else before.missing + if before.classified then before.unverified else {}
  }

  function PendingEvents(receipts: Receipts, events: seq<Event>, before: Reconciliation): seq<Event> {
    Filter(events, (ev: Event) => (!Synced(receipts, ev) || ev.id in Replay(before)) && !Quarantined(receipts, ev))
  }

  function Reconcilable(receipts: Receipts, events: seq<Event>): seq<Event> {
    Filter(events, (ev: Event) => !Quarantined(receipts, ev))
  }

  // The events a dry run announces as pending.
  function Unsent(receipts: Receipts, request: Request): seq<Event>
    requires ValidSelection(request)
  {
    Filter(Events(request), (ev: Event) => !Synced(receipts, ev))
  }

  function BatchCount(events: nat, size: nat): nat
    requires size > 0
  {
    (events + size - 1) / size
  }

  datatype Outcome<S> = Outcome(ok: bool, receipts: Receipts, batches: seq<Batch>, before: Reconciliation,
                                after: Reconciliation, state: S)

  // The answer of a call: an invalid selection, the preview of a dry run, no endpoint or token, or
  // the outcome.
  datatype Answer<S> =
    | SelectionError
    | Preview(pending: nat, batches: nat)
    | NotConfigured
    | Answer(outcome: Outcome<S>)

  // The four stages of a call that acts: reconcile, upload, settle locally, reconcile again.
  function First<S>(remote: Remote<S>, s: S, receipts: Receipts, request: Request): (S, Reconciliation)
    requires Acts(request)
  {
    remote.onReconcile(s, Reconcilable(receipts, Events(request)))
  }

  function Sent<S>(remote: Remote<S>, s: S, receipts: Receipts, request: Request): (seq<Batch>, S)
    requires Acts(request)
  {
    var first := First(remote, s, receipts, request);
    Upload(remote, first.0, PendingEvents(receipts, Events(request), first.1), BatchSize(request.limit), 0)
  }

  function Local<S>(remote: Remote<S>, s: S, receipts: Receipts, request: Request): Progress
    requires Acts(request)
  {
    ProgressOf(receipts, Sent(remote, s, receipts, request).0, request.selection.Chosen?)
  }

  function Second<S>(remote: Remote<S>, s: S, receipts: Receipts, request: Request): (S, Reconciliation)
    requires Acts(request)
  {
    var local := Local(remote, s, receipts, request);
    remote.onReconcile(Sent(remote, s, receipts, request).1, Reconcilable(local.receipts, Events(request)))
  }

  // An exception of the client ended the uploads, and with them the call.
  predicate IsCutOff(batches: seq<Batch>) {
    batches != [] && batches[|batches| - 1].reply.Raised?
  }

  // Only after an answer without errors, or when uploads bound the identity, is there a second reconciliation.
  predicate AsksAgain(first: Reconciliation, local: Progress) {
    first.Ok() || (first.identityUnbound && local.delivered != {})
  }

  function Call<S>(remote: Remote<S>, s: S, receipts: Receipts, request: Request): Outcome<S>
    requires Acts(request)
  {
    var first, sent := First(remote, s, receipts, request), Sent(remote, s, receipts, request);
    var p := Local(remote, s, receipts, request);
    if IsCutOff(sent.0) then Outcome(false, p.receipts, sent.0, first.1, first.1, sent.1)
    else
      var last := if AsksAgain(first.1, p) then Second(remote, s, receipts, request) else (sent.1, first.1);
      var receipts' := if request.selection.Chosen? && last.1.Complete() then Deferred(p.receipts, p.deferred)
                       else p.receipts;
      Outcome(p.errors + last.1.errors == 0 && last.1.Complete(), receipts', sent.0, first.1, last.1, last.0)
  }

  // ---------- What one call may do to the receipts ----------

  lemma {:induction false} SettleEffect(p: Progress, events: seq<Event>, failed: map<Id, bool>, deferring: bool, id: Id)
    ensures var p' := Settle(p, events, failed, deferring);
      && (id in p'.receipts && (id !in p.receipts || p'.receipts[id] != p.receipts[id]) ==>
            p'.receipts[id].source in events && p'.receipts[id].source.id == id
            && (deferring ==> p'.receipts[id].quarantined))
      && (id in p.receipts ==> id in p'.receipts)
      && (forall ev :: ev in p'.deferred ==> ev in p.deferred || ev in events)
  {
    if events != [] {
      SettleEffect(p, events[..|events| - 1], failed, deferring, id);
      assert events == events[..|events| - 1] + [events[|events| - 1]];
    }
  }

  lemma {:induction false} ProgressEffect(receipts: Receipts, batches: seq<Batch>, deferring: bool, id: Id)
    ensures var p := ProgressOf(receipts, batches, deferring);
      && (id in p.receipts && (id !in receipts || p.receipts[id] != receipts[id]) ==>
            p.receipts[id].source in Uploaded(batches) && p.receipts[id].source.id == id
            && (deferring ==> p.receipts[id].quarantined))
      && (id in receipts ==> id in p.receipts)
      && (forall ev :: ev in p.deferred ==> ev in Uploaded(batches))
  {
    if batches != [] {
      var before, batch := batches[..|batches| - 1], batches[|batches| - 1];
      ProgressEffect(receipts, before, deferring, id);
      if batch.reply.Ack? {
        SettleEffect(ProgressOf(receipts, before, deferring), batch.events, batch.reply.failed, deferring, id);
      }
    }
  }

  lemma {:induction false} DeferredEffect(receipts: Receipts, deferred: seq<Event>, id: Id)
    ensures var r := Deferred(receipts, deferred);
      && (id in r && (id !in receipts || r[id] != receipts[id]) ==> r[id].source in deferred && r[id].source.id == id)
      && (id in receipts ==> id in r)
  {
    if deferred != [] {
      DeferredEffect(receipts, deferred[..|deferred| - 1], id);
      assert deferred == deferred[..|deferred| - 1] + [deferred[|deferred| - 1]];
    }
  }

  lemma UploadedSnoc(batches: seq<Batch>, batch: Batch)
    ensures Uploaded(batches + [batch]) == Uploaded(batches) + batch.events
  {
    assert (batches + [batch])[..|batches|] == batches;
  }

  lemma {:induction false} UploadedCons(batch: Batch, batches: seq<Batch>)
    ensures Uploaded([batch] + batches) == batch.events + Uploaded(batches)
  {
    if batches == [] {
      assert [batch] + batches == [batch] && [batch][..0] == [];
    } else {
      hide Uploaded;
      var rest, last := batches[..|batches| - 1], batches[|batches| - 1];
      SnocParts(batches);
      UploadedCons(batch, rest);
      Assoc([batch], rest, [last]);
      UploadedSnoc([batch] + rest, last);
      UploadedSnoc(rest, last);
      Assoc(batch.events, Uploaded(rest), last.events);
    }
  }

  lemma ChunkTakes(xs: seq<Event>, offset: nat, size: nat)
    requires size > 0 && offset < |xs|
    ensures var chunk := Chunk(xs, offset, size);
      if offset + size <= |xs| then xs[offset..] == chunk + xs[offset + size..] else xs[offset..] == chunk
  {
  }

  // One batch and what comes later, if anything does.
  lemma UploadedStep<S>(remote: Remote<S>, s: S, pending: seq<Event>, size: nat, offset: nat)
    requires size > 0 && offset < |pending|
    ensures var chunk := Chunk(pending, offset, size);
      var answer := remote.onUpload(s, chunk);
      var later := if Stops(answer.1) then [] else Upload(remote, answer.0, pending, size, offset + size).0;
      && Upload(remote, s, pending, size, offset).0 == [Batch(chunk, answer.1)] + later
      && Uploaded([Batch(chunk, answer.1)] + later) == chunk + Uploaded(later)
  {
    var chunk := Chunk(pending, offset, size);
    var answer := remote.onUpload(s, chunk);
    var later := if Stops(answer.1) then [] else Upload(remote, answer.0, pending, size, offset + size).0;
    hide Uploaded, Stops, Chunk;
    UploadedCons(Batch(chunk, answer.1), later);
    if Stops(answer.1) { assert [Batch(chunk, answer.1)] + [] == [Batch(chunk, answer.1)]; }
  }

  ghost predicate Unstopped(batches: seq<Batch>) {
    batches == [] || !Stops(batches[|batches| - 1].reply)
  }

  lemma UnstoppedCons(batch: Batch, later: seq<Batch>)
    ensures Unstopped([batch] + later) <==> if later == [] then !Stops(batch.reply) else Unstopped(later)
  {
    if later != [] { assert ([batch] + later)[|later|] == later[|later| - 1]; }
  }

  // The sent events so far are a prefix of what is to be sent, all of it unless the remote stopped.
  ghost predicate IsSent(sent: seq<Event>, pending: seq<Event>, all: bool) {
    sent <= pending && (all ==> sent == pending)
  }

  lemma SentStep(chunk: seq<Event>, sent: seq<Event>, rest: seq<Event>, all: bool)
    requires IsSent(sent, rest, all)
    ensures IsSent(chunk + sent, chunk + rest, all)
  {
  }

  // Uploads are a prefix of the pending events, all of them unless the remote stopped the uploads.
  lemma {:induction false} UploadedPrefix<S>(remote: Remote<S>, s: S, pending: seq<Event>, size: nat, offset: nat)
    requires size > 0 && offset <= |pending|
    ensures var batches := Upload(remote, s, pending, size, offset).0;
      IsSent(Uploaded(batches), pending[offset..], Unstopped(batches))
    decreases |pending| - offset
  {
    if offset < |pending| {
      hide Upload, Uploaded, Chunk, IsSent, Unstopped;
      var chunk := Chunk(pending, offset, size);
      var answer := remote.onUpload(s, chunk);
      var later := if Stops(answer.1) then [] else Upload(remote, answer.0, pending, size, offset + size).0;
      UploadedStep(remote, s, pending, size, offset);
      UnstoppedCons(Batch(chunk, answer.1), later);
      ChunkTakes(pending, offset, size);
      if !Stops(answer.1) && offset + size <= |pending| {
        UploadedPrefix(remote, answer.0, pending, size, offset + size);
        EmptyIsUnstopped(later);
        SentStep(chunk, Uploaded(later), pending[offset + size..], Unstopped(later));
      } else {
        if !Stops(answer.1) { NothingLeft(remote, answer.0, pending, size, offset + size); }
        NoneSent(chunk, pending[offset..], !Stops(answer.1));
      }
    }
  }

  lemma EmptyIsUnstopped(batches: seq<Batch>)
    ensures batches == [] ==> Unstopped(batches)
  {
  }

  lemma NothingLeft<S>(remote: Remote<S>, s: S, pending: seq<Event>, size: nat, offset: nat)
    requires size > 0 && offset >= |pending|
    ensures Upload(remote, s, pending, size, offset).0 == []
  {
  }

  lemma NoneSent(chunk: seq<Event>, rest: seq<Event>, all: bool)
    requires chunk <= rest && (all ==> chunk == rest)
    ensures IsSent(chunk + Uploaded([]), rest, all)
  {
    assert chunk + [] == chunk;
  }

  // ---------- Quarantine ----------

  lemma CallBatches<S>(remote: Remote<S>, s: S, receipts: Receipts, request: Request)
    requires Acts(request)
    ensures var out := Call(remote, s, receipts, request);
      var first := remote.onReconcile(s, Reconcilable(receipts, Events(request)));
      && out.before == first.1
      && out.batches == Upload(remote, first.0, PendingEvents(receipts, Events(request), first.1),
                               BatchSize(request.limit), 0).0
  {
    hide Upload, Events, PendingEvents, Reconcilable, BatchSize;
  }

  lemma CallReceipts<S>(remote: Remote<S>, s: S, receipts: Receipts, request: Request, id: Id)
    requires Acts(request)
    ensures var out := Call(remote, s, receipts, request);
      && (id in out.receipts && (id !in receipts || out.receipts[id] != receipts[id]) ==>
            (&& out.receipts[id].source in Uploaded(out.batches) && out.receipts[id].source.id == id
             && (request.selection.Chosen? && !out.receipts[id].quarantined ==> out.after.Complete())))
      && (id in receipts ==> id in out.receipts)
  {
    hide First, Sent, Second, Reconcilable, Events;
    var batches, p := Sent(remote, s, receipts, request).0, Local(remote, s, receipts, request);
    ProgressEffect(receipts, batches, request.selection.Chosen?, id);
    DeferredEffect(p.receipts, p.deferred, id);
  }

  lemma CallUploads<S>(remote: Remote<S>, s: S, receipts: Receipts, request: Request, ev: Event)
    requires Acts(request)
    ensures var out := Call(remote, s, receipts, request);
      var pending := PendingEvents(receipts, Events(request), out.before);
      && (ev in Uploaded(out.batches) ==> ev in pending)
      && (out.batches == [] || !Stops(out.batches[|out.batches| - 1].reply) ==>
          (ev in Uploaded(out.batches) <==> ev in pending))
  {
    hide Call, Upload, Uploaded, Events, PendingEvents, Reconcilable, BatchSize;
    var events := Events(request);
    var first := remote.onReconcile(s, Reconcilable(receipts, events));
    var pending := PendingEvents(receipts, events, first.1);
    CallBatches(remote, s, receipts, request);
    UploadedPrefix(remote, first.0, pending, BatchSize(request.limit), 0);
    assert pending[0..] == pending;
  }

  // The local events the call works on hold no other event under ev's id.
  ghost predicate Identified(request: Request, ev: Event) {
    Acts(request) ==> forall e :: e in Events(request) && e.id == ev.id ==> e == ev
  }

  // A quarantined event is not uploaded and stays quarantined.
  lemma QuarantineHolds<S>(remote: Remote<S>, s: S, receipts: Receipts, request: Request, ev: Event)
    requires Acts(request) && Quarantined(receipts, ev) && Identified(request, ev)
    ensures var out := Call(remote, s, receipts, request);
      ev !in Uploaded(out.batches) && Quarantined(out.receipts, ev)
  {
    CallReceipts(remote, s, receipts, request, ev.id);
    forall e ensures e in Uploaded(Call(remote, s, receipts, request).batches) ==> e.id != ev.id {
      CallUploads(remote, s, receipts, request, e);
    }
  }

  // A sequence of calls: the receipts they leave and everything they uploaded. Calls with an invalid
  // selection, dry runs and unconfigured calls touch neither.
  function Calls<S>(remote: Remote<S>, s: S, receipts: Receipts, requests: seq<Request>): (Receipts, seq<Event>)
    decreases |requests|
  {
    if requests == [] then (receipts, [])
    else if !Acts(requests[0]) then Calls(remote, s, receipts, requests[1..])
    else
      var out := Call(remote, s, receipts, requests[0]);
      var later := Calls(remote, out.state, out.receipts, requests[1..]);
      (later.0, Uploaded(out.batches) + later.1)
  }

  lemma {:induction false} QuarantineIsForever<S>(remote: Remote<S>, s: S, receipts: Receipts, requests: seq<Request>,
                                                  ev: Event)
    requires Quarantined(receipts, ev) && forall i :: 0 <= i < |requests| ==> Identified(requests[i], ev)
    ensures var all := Calls(remote, s, receipts, requests); ev !in all.1 && Quarantined(all.0, ev)
    decreases |requests|
  {
    if requests != [] {
      if Acts(requests[0]) {
        QuarantineHolds(remote, s, receipts, requests[0], ev);
        var out := Call(remote, s, receipts, requests[0]);
        QuarantineIsForever(remote, out.state, out.receipts, requests[1..], ev);
      } else {
        QuarantineIsForever(remote, s, receipts, requests[1..], ev);
      }
    }
  }

  // A remote that has everything and accepts every upload.
  const ACCEPTING: Remote<()> :=
    Remote((s, events) => (s, Reconciliation({}, {}, {}, true, false, 0)), (s, events) => (s, Ack(map[])))

  ghost predicate HasId(events: seq<Event>, id: Id) {
    exists ev :: ev in events && ev.id == id
  }

  // An accepted event of this id has its success receipt, or waits for it.
  ghost predicate IsReceipted(p: Progress, id: Id, deferring: bool) {
    if deferring then HasId(p.deferred, id) else id in p.receipts && !p.receipts[id].quarantined
  }

  lemma {:induction false} SettledLast(p: Progress, events: seq<Event>, id: Id, deferring: bool)
    requires HasId(events, id) || IsReceipted(p, id, deferring)
    ensures IsReceipted(Settle(p, events, map[], deferring), id, deferring)
  {
    if events != [] {
      var last, rest := events[|events| - 1], events[..|events| - 1];
      assert events == rest + [last];
      if last.id != id { SettledLast(p, rest, id, deferring); }
      LastSettled(Settle(p, rest, map[], deferring), last, id, deferring);
    }
  }

  lemma LastSettled(before: Progress, last: Event, id: Id, deferring: bool)
    requires last.id == id || IsReceipted(before, id, deferring)
    ensures IsReceipted(if deferring then before.(deferred := before.deferred + [last])
                        else before.(receipts := before.receipts[last.id := Receipt(last, false)]), id, deferring)
  {
    if last.id == id { assert last in before.deferred + [last]; }
  }

  lemma {:induction false} DeferredLast(receipts: Receipts, deferred: seq<Event>, id: Id)
    requires HasId(deferred, id)
    ensures var r := Deferred(receipts, deferred); id in r && !r[id].quarantined
  {
    var last, rest := deferred[|deferred| - 1], deferred[..|deferred| - 1];
    assert deferred == rest + [last];
    if last.id != id { DeferredLast(receipts, rest, id); }
  }

  lemma {:induction false} AcceptedBatches(pending: seq<Event>, size: nat, offset: nat)
    requires size > 0
    ensures AllAccepted(Upload(ACCEPTING, (), pending, size, offset).0)
    decreases |pending| - offset
  {
    if offset < |pending| {
      var chunk := Chunk(pending, offset, size);
      assert ACCEPTING.onUpload((), chunk) == ((), Ack(map[]));
      AcceptedBatches(pending, size, offset + size);
      AcceptedCons(Batch(chunk, Ack(map[])), Upload(ACCEPTING, (), pending, size, offset + size).0);
    }
  }

  ghost predicate AllAccepted(batches: seq<Batch>) {
    forall i :: 0 <= i < |batches| ==> batches[i].reply == Ack(map[])
  }

  lemma AcceptedCons(batch: Batch, batches: seq<Batch>)
    requires batch.reply == Ack(map[]) && AllAccepted(batches)
    ensures AllAccepted([batch] + batches)
  {
  }

  lemma {:induction false} AcceptedReceipts(receipts: Receipts, batches: seq<Batch>, id: Id, deferring: bool)
    requires AllAccepted(batches) && HasId(Uploaded(batches), id)
    ensures IsReceipted(ProgressOf(receipts, batches, deferring), id, deferring)
  {
    hide IsReceipted;
    var before, batch := batches[..|batches| - 1], batches[|batches| - 1];
    if !HasId(batch.events, id) { AcceptedReceipts(receipts, before, id, deferring); }
    SettledLast(ProgressOf(receipts, before, deferring), batch.events, id, deferring);
  }

  // The condition is exact: with or without a selection a call lets some remote end the quarantine of
  // ev as soon as it works on a different local event under the same id.
  lemma QuarantineExactly(receipts: Receipts, request: Request, ev: Event)
    requires Acts(request) && Quarantined(receipts, ev)
    ensures Quarantined(Call(ACCEPTING, (), receipts, request).receipts, ev) <==> Identified(request, ev)
  {
    if Identified(request, ev) {
      QuarantineHolds(ACCEPTING, (), receipts, request, ev);
    } else {
      var other :| other in Events(request) && other.id == ev.id && other != ev;
      OtherEventEndsQuarantine(receipts, request, ev, other);
    }
  }

  lemma OtherIsPending(receipts: Receipts, events: seq<Event>, before: Reconciliation, ev: Event, other: Event)
    requires Quarantined(receipts, ev) && other in events && other.id == ev.id && other != ev
    ensures other in PendingEvents(receipts, events, before)
  {
  }

  lemma AcceptingReceipts(receipts: Receipts, request: Request, id: Id)
    requires Acts(request)
    requires HasId(PendingEvents(receipts, Events(request), First(ACCEPTING, (), receipts, request).1), id)
    ensures AllAccepted(Sent(ACCEPTING, (), receipts, request).0)
    ensures IsReceipted(Local(ACCEPTING, (), receipts, request), id, request.selection.Chosen?)
  {
    hide Events, PendingEvents, IsReceipted, Uploaded;
    var pending := PendingEvents(receipts, Events(request), First(ACCEPTING, (), receipts, request).1);
    var size := BatchSize(request.limit);
    var batches := Upload(ACCEPTING, (), pending, size, 0).0;
    AcceptedBatches(pending, size, 0);
    UploadedPrefix(ACCEPTING, (), pending, size, 0);
    AcceptedIsUnstopped(batches);
    assert pending[0..] == pending;
    AcceptedReceipts(receipts, batches, id, request.selection.Chosen?);
  }

  lemma AcceptedIsUnstopped(batches: seq<Batch>)
    requires AllAccepted(batches)
    ensures Unstopped(batches) && !IsCutOff(batches)
  {
  }

  lemma OtherEventEndsQuarantine(receipts: Receipts, request: Request, ev: Event, other: Event)
    requires Acts(request) && Quarantined(receipts, ev)
    requires other in Events(request) && other.id == ev.id && other != ev
    ensures !Quarantined(Call(ACCEPTING, (), receipts, request).receipts, ev)
  {
    OtherIsPending(receipts, Events(request), First(ACCEPTING, (), receipts, request).1, ev, other);
    AcceptingReceipts(receipts, request, ev.id);
    AcceptedIsUnstopped(Sent(ACCEPTING, (), receipts, request).0);
    var p := Local(ACCEPTING, (), receipts, request);
    AcceptingCompletes(receipts, request);
    hide Local, Sent, First, Second, Events, PendingEvents;
    if request.selection.Chosen? { DeferredLast(p.receipts, p.deferred, ev.id); }
  }

  lemma AcceptingCompletes(receipts: Receipts, request: Request)
    requires Acts(request)
    ensures First(ACCEPTING, (), receipts, request).1.Ok() && Second(ACCEPTING, (), receipts, request).1.Complete()
  {
  }

  // ---------- Repair and receipts ----------

  // Unless the remote stops the uploads, exactly the events without a receipt, or reported missing
  // or unverified, are sent, quarantined ones excepted.
  lemma SentExactly<S>(remote: Remote<S>, s: S, receipts: Receipts, request: Request, ev: Event)
    requires Acts(request)
    requires var batches := Call(remote, s, receipts, request).batches;
      batches == [] || !Stops(batches[|batches| - 1].reply)
    ensures var out := Call(remote, s, receipts, request);
      ev in Uploaded(out.batches) <==>
      && ev in Events(request) && !Quarantined(receipts, ev)
      && (!Synced(receipts, ev)
          || (out.before.Ok() && (ev.id in out.before.missing
                                  || (out.before.classified && ev.id in out.before.unverified))))
  {
    CallUploads(remote, s, receipts, request, ev);
  }

  lemma {:induction false} UnsentArePending(receipts: Receipts, events: seq<Event>, before: Reconciliation)
    requires Replay(before) == {}
    ensures PendingEvents(receipts, events, before) == Filter(events, (ev: Event) => !Synced(receipts, ev))
  {
    if events != [] { UnsentArePending(receipts, events[..|events| - 1], before); }
  }

  lemma {:induction false} UploadCount<S>(remote: Remote<S>, s: S, pending: seq<Event>, size: nat, offset: nat)
    requires size > 0 && offset <= |pending| + size
    requires var batches := Upload(remote, s, pending, size, offset).0;
      batches == [] || !Stops(batches[|batches| - 1].reply)
    ensures |Upload(remote, s, pending, size, offset).0|
            == if offset < |pending| then BatchCount(|pending| - offset, size) else 0
    decreases |pending| - offset
  {
    if offset < |pending| {
      var answer := remote.onUpload(s, Chunk(pending, offset, size));
      if !Stops(answer.1) {
        UploadCount(remote, answer.0, pending, size, offset + size);
        OneMore(|pending| - offset, size);
      }
    }
  }

  lemma OneMore(events: nat, size: nat)
    requires size > 0 && events > 0
    ensures BatchCount(events, size) == 1 + if events > size then BatchCount(events - size, size) else 0
  {
    var rest, q := events - 1, (events - 1) / size;
    IsQuotient(rest, size, q, rest % size);
    IsQuotient(rest + size, size, q + 1, rest % size);
    if events <= size { IsQuotient(rest, size, 0, rest); }
  }

  lemma IsQuotient(x: int, size: int, q: int, r: int)
    requires 0 <= r < size && x == q * size + r
    ensures x / size == q
  {
    var d := x / size;
    assert (d - q) * size == r - x % size;
    if d > q { AtLeastOnce(d - q, size); }
    if d < q { AtLeastOnce(q - d, size); }
  }

  lemma AtLeastOnce(k: int, size: int)
    requires k >= 1 && size > 0
    ensures k * size >= size
  {
  }

  lemma NoBatches(size: nat)
    requires size > 0
    ensures BatchCount(0, size) == 0
  {
    IsQuotient(size - 1, size, 0, size - 1);
  }

  // What a dry run announces is what the call then sends, in as many batches, unless the remote asks
  // for a replay or stops the uploads.
  lemma PreviewIsKept<S>(remote: Remote<S>, s: S, receipts: Receipts, request: Request)
    requires Acts(request) && Replay(Call(remote, s, receipts, request).before) == {}
    requires var batches := Call(remote, s, receipts, request).batches;
      batches == [] || !Stops(batches[|batches| - 1].reply)
    ensures var batches := Call(remote, s, receipts, request).batches;
      && Uploaded(batches) == Unsent(receipts, request)
      && |batches| == BatchCount(|Unsent(receipts, request)|, BatchSize(request.limit))
  {
    hide Call, Upload, Uploaded, Events, PendingEvents, Filter, Reconcilable, Replay, Synced, BatchCount;
    var first := remote.onReconcile(s, Reconcilable(receipts, Events(request)));
    var pending, size := PendingEvents(receipts, Events(request), first.1), BatchSize(request.limit);
    CallBatches(remote, s, receipts, request);
    UnsentArePending(receipts, Events(request), first.1);
    UploadedPrefix(remote, first.0, pending, size, 0);
    assert pending[0..] == pending;
    UploadCount(remote, first.0, pending, size, 0);
    if pending == [] { NoBatches(size); }
  }

  predicate Succeeded(receipts: Receipts, ev: Event) {
    Synced(receipts, ev) && !receipts[ev.id].quarantined
  }

  // The second reconciliation took place and was complete.
  ghost predicate IsConfirmed<S>(remote: Remote<S>, s: S, receipts: Receipts, request: Request)
    requires Acts(request)
  {
    && !IsCutOff(Sent(remote, s, receipts, request).0)
    && AsksAgain(First(remote, s, receipts, request).1, Local(remote, s, receipts, request))
    && Second(remote, s, receipts, request).1.Complete()
  }

  lemma ConfirmedExactly<S>(remote: Remote<S>, s: S, receipts: Receipts, request: Request)
    requires Acts(request) && request.selection.Chosen?
    ensures var out, p := Call(remote, s, receipts, request), Local(remote, s, receipts, request);
      if IsConfirmed(remote, s, receipts, request) then
        out.receipts == Deferred(p.receipts, p.deferred)
        && (out.state, out.after) == Second(remote, s, receipts, request)
      else out.receipts == p.receipts
  {
    hide First, Sent, Local, Second;
  }

  // With a selection a new success receipt means that the event was uploaded, that there was a second
  // reconciliation, made with the receipts as they were then, and that it was complete.
  lemma SelectedReceiptsWait<S>(remote: Remote<S>, s: S, receipts: Receipts, request: Request, ev: Event)
    requires Acts(request) && request.selection.Chosen?
    requires Succeeded(Call(remote, s, receipts, request).receipts, ev) && !Succeeded(receipts, ev)
    ensures var out, sent, p := Call(remote, s, receipts, request), Sent(remote, s, receipts, request),
            Local(remote, s, receipts, request);
      && ev in Uploaded(sent.0) && ev in p.deferred
      && (out.state, out.after) == remote.onReconcile(sent.1, Reconcilable(p.receipts, Events(request)))
      && out.after.Complete() && IsConfirmed(remote, s, receipts, request)
  {
    var batches, p := Sent(remote, s, receipts, request).0, Local(remote, s, receipts, request);
    ConfirmedExactly(remote, s, receipts, request);
    ProgressEffect(receipts, batches, true, ev.id);
    DeferredEffect(p.receipts, p.deferred, ev.id);
  }

  // Accepted in one of the batches.
  ghost predicate IsAccepted(batches: seq<Batch>, ev: Event) {
    exists i ::
      0 <= i < |batches| && batches[i].reply.Ack? && ev in batches[i].events && ev.id !in batches[i].reply.failed
  }

  lemma {:induction false} SettleDefers(p: Progress, events: seq<Event>, failed: map<Id, bool>, ev: Event)
    ensures ev in Settle(p, events, failed, true).deferred <==> ev in p.deferred || (ev in events && ev.id !in failed)
  {
    if events != [] {
      SettleDefers(p, events[..|events| - 1], failed, ev);
      assert events == events[..|events| - 1] + [events[|events| - 1]];
    }
  }

  lemma {:induction false} DeferredAreAccepted(receipts: Receipts, batches: seq<Batch>, ev: Event)
    ensures ev in ProgressOf(receipts, batches, true).deferred <==> IsAccepted(batches, ev)
  {
    if batches != [] {
      hide Settle, IsAccepted;
      var before, batch := batches[..|batches| - 1], batches[|batches| - 1];
      DeferredAreAccepted(receipts, before, ev);
      AcceptedSnoc(before, batch, ev);
      SnocParts(batches);
      if batch.reply.Ack? { SettleDefers(ProgressOf(receipts, before, true), batch.events, batch.reply.failed, ev); }
    }
  }

  lemma AcceptedSnoc(before: seq<Batch>, batch: Batch, ev: Event)
    ensures IsAccepted(before + [batch], ev)
       <==> IsAccepted(before, ev) || (batch.reply.Ack? && ev in batch.events && ev.id !in batch.reply.failed)
  {
    var all := before + [batch];
    if i :| 0 <= i < |before| && before[i].reply.Ack? && ev in before[i].events && ev.id !in before[i].reply.failed {
      assert all[i] == before[i];
    }
    assert all[|before|] == batch;
  }

  lemma ChosenAreDistinct(request: Request, a: Event, b: Event)
    requires ValidSelection(request) && request.selection.Chosen?
    requires a in Events(request) && b in Events(request) && a.id == b.id
    ensures a == b
  {
    var i :| 0 <= i < |Events(request)| && Events(request)[i] == a;
    var j :| 0 <= j < |Events(request)| && Events(request)[j] == b;
    ChosenHasId(request, i);
    ChosenHasId(request, j);
  }

  lemma ChosenHasId(request: Request, i: nat)
    requires ValidSelection(request) && request.selection.Chosen? && i < |Events(request)|
    ensures Events(request)[i].id == request.selection.ids[i]
  {
    assert Matches(request.inventory, request.selection.ids[i])[0]
      in Matches(request.inventory, request.selection.ids[i]);
  }

  // And exactly then: a selected event without a success receipt gets one iff an upload of it was
  // accepted and the second reconciliation took place and was complete.
  lemma SelectedReceiptExactly<S>(remote: Remote<S>, s: S, receipts: Receipts, request: Request, ev: Event)
    requires Acts(request) && request.selection.Chosen? && ev in Events(request) && !Succeeded(receipts, ev)
    ensures Succeeded(Call(remote, s, receipts, request).receipts, ev)
       <==> IsAccepted(Sent(remote, s, receipts, request).0, ev) && IsConfirmed(remote, s, receipts, request)
  {
    var batches, p := Sent(remote, s, receipts, request).0, Local(remote, s, receipts, request);
    DeferredAreAccepted(receipts, batches, ev);
    if Succeeded(Call(remote, s, receipts, request).receipts, ev) {
      SelectedReceiptsWait(remote, s, receipts, request, ev);
    }
    if ev in p.deferred && IsConfirmed(remote, s, receipts, request) {
      ConfirmedExactly(remote, s, receipts, request);
      hide Call, IsConfirmed, Events;
      DeferredLast(p.receipts, p.deferred, ev.id);
      OwnReceipt(remote, s, receipts, request, ev);
    }
  }

  // Under a selection the deferred receipt of an id is that of the one selected event.
  lemma OwnReceipt<S>(remote: Remote<S>, s: S, receipts: Receipts, request: Request, ev: Event)
    requires Acts(request) && request.selection.Chosen? && ev in Events(request)
    requires ev in Local(remote, s, receipts, request).deferred
    ensures var p := Local(remote, s, receipts, request); Synced(Deferred(p.receipts, p.deferred), ev)
  {
    var batches, p := Sent(remote, s, receipts, request).0, Local(remote, s, receipts, request);
    DeferredSource(p.receipts, p.deferred, ev.id);
    var other := Deferred(p.receipts, p.deferred)[ev.id].source;
    ProgressEffect(receipts, batches, true, ev.id);
    CallBatches(remote, s, receipts, request);
    CallUploads(remote, s, receipts, request, other);
    ChosenAreDistinct(request, other, ev);
  }

  lemma {:induction false} DeferredSource(receipts: Receipts, deferred: seq<Event>, id: Id)
    requires HasId(deferred, id)
    ensures var r := Deferred(receipts, deferred); id in r && r[id].source in deferred && r[id].source.id == id
  {
    var last, rest := deferred[|deferred| - 1], deferred[..|deferred| - 1];
    assert deferred == rest + [last];
    if last.id != id { DeferredSource(receipts, rest, id); }
  }

  // ---------- The receipt directory ----------

  class ReceiptStore {
    var receipts: Receipts

    constructor ()
      ensures receipts == map[]
    {
      receipts := map[];
    }

    method WriteSynced(ev: Event, quarantined: bool)
      modifies this
      ensures receipts == old(receipts)[ev.id := Receipt(ev, quarantined)]
    {
      receipts := receipts[ev.id := Receipt(ev, quarantined)];
    }

    // Processes the answer to one batch.
    method SettleBatch(events: seq<Event>, failed: map<Id, bool>, deferring: bool, p: Progress) returns (p': Progress)
      requires p.receipts == receipts
      modifies this
      ensures p' == Settle(p, events, failed, deferring) && receipts == p'.receipts
    {
      p' := p;
      for i := 0 to |events|
        invariant p' == Settle(p, events[..i], failed, deferring) && receipts == p'.receipts
      {
        assert events[..i + 1][..i] == events[..i];
        var ev := events[i];
        if ev.id !in failed {
          if deferring {
            p' := p'.(deferred := p'.deferred + [ev]);
          } else {
            WriteSynced(ev, false);
          }
          p' := p'.(delivered := p'.delivered + {ev.id});
        } else if failed[ev.id] {
          WriteSynced(ev, true);
        } else {
          p' := p'.(errors := p'.errors + 1);
        }
        p' := p'.(receipts := receipts);
      }
      assert events[..|events|] == events;
    }

    method UploadPending<S>(remote: Remote<S>, s0: S, pending: seq<Event>, size: nat, deferring: bool)
      returns (batches: seq<Batch>, p: Progress, s: S)
      requires size > 0
      modifies this
      ensures (batches, s) == Upload(remote, s0, pending, size, 0)
      ensures p == ProgressOf(old(receipts), batches, deferring) && receipts == p.receipts
    {
      batches, s := [], s0;
      p := Progress(receipts, [], {}, 0);
      var offset := 0;
      ghost var whole := Upload(remote, s0, pending, size, 0);
      while offset < |pending|
        invariant batches + Upload(remote, s, pending, size, offset).0 == whole.0
        invariant Upload(remote, s, pending, size, offset).1 == whole.1
        invariant p == ProgressOf(old(receipts), batches, deferring) && receipts == p.receipts
      {
        var chunk := Chunk(pending, offset, size);
        var answer := remote.onUpload(s, chunk);
        ghost var later := if Stops(answer.1) then [] else Upload(remote, answer.0, pending, size, offset + size).0;
        MoveBatch(old(receipts), deferring, batches, Batch(chunk, answer.1), later);
        if answer.1.Ack? {
          p := SettleBatch(chunk, answer.1.failed, deferring, p);
        } else {
          p := p.(errors := p.errors + 1);
        }
        batches, s := batches + [Batch(chunk, answer.1)], answer.0;
        if Stops(answer.1) {
          assert batches + later == batches;
          return;
        }
        offset := offset + size;
      }
      assert batches + [] == batches;
    }

    // The whole call: only one that acts touches receipts and remote.
    method Sync<S>(remote: Remote<S>, s0: S, request: Request) returns (answer: Answer<S>, s: S)
      modifies this
      ensures answer.SelectionError? <==> !ValidSelection(request)
      ensures answer.Preview? <==> ValidSelection(request) && request.dryRun
      ensures answer.Preview? ==> answer.pending == |Unsent(old(receipts), request)|
      ensures answer.Preview? ==> answer.batches == BatchCount(answer.pending, BatchSize(request.limit))
      ensures answer.NotConfigured? <==> ValidSelection(request) && !request.dryRun && !request.configured
      ensures answer.Answer? <==> ValidSelection(request) && !request.dryRun && request.configured
      ensures answer.Answer? ==> answer.outcome == Call(remote, s0, old(receipts), request)
      ensures receipts == if answer.Answer? then answer.outcome.receipts else old(receipts)
      ensures s == if answer.Answer? then answer.outcome.state else s0
    {
      hide Call, Filter, Events, BatchSize, BatchCount, Synced, Quarantined;
      s := s0;
      if !ValidSelection(request) { return SelectionError, s; }
      if request.dryRun {
        var pending := |Unsent(receipts, request)|;
        var size := BatchSize(request.limit);
        NoBatches(size);
        return Preview(pending, if pending > 0 then BatchCount(pending, size) else 0), s;
      }
      if !request.configured { return NotConfigured, s; }
      var out := Act(remote, s0, request);
      return Answer(out), out.state;
    }

    method Act<S>(remote: Remote<S>, s0: S, request: Request) returns (out: Outcome<S>)
      requires Acts(request)
      modifies this
      ensures out == Call(remote, s0, old(receipts), request) && receipts == out.receipts
    {
      var events := Events(request);
      var deferring := request.selection.Chosen?;
      var first := remote.onReconcile(s0, Reconcilable(receipts, events));
      var pending := PendingEvents(receipts, events, first.1);
      var batches, p, s := UploadPending(remote, first.0, pending, BatchSize(request.limit), deferring);
      if IsCutOff(batches) {
        return Outcome(false, receipts, batches, first.1, first.1, s);
      }
      var last := (s, first.1);
      if AsksAgain(first.1, p) {
        last := remote.onReconcile(s, Reconcilable(receipts, events));
      }
      if deferring && last.1.Complete() { WriteDeferred(p.deferred); }
      return Outcome(p.errors + last.1.errors == 0 && last.1.Complete(), receipts, batches, first.1, last.1, last.0);
    }

    method WriteDeferred(deferred: seq<Event>)
      modifies this
      ensures receipts == Deferred(old(receipts), deferred)
    {
      for i := 0 to |deferred|
        invariant receipts == Deferred(old(receipts), deferred[..i])
      {
        assert deferred[..i + 1][..i] == deferred[..i];
        WriteSynced(deferred[i], false);
      }
      assert deferred[..|deferred|] == deferred;
    }
  }

  lemma MoveBatch(receipts: Receipts, deferring: bool, done: seq<Batch>, batch: Batch, later: seq<Batch>)
    ensures done + ([batch] + later) == (done + [batch]) + later
    ensures var before := ProgressOf(receipts, done, deferring);
      ProgressOf(receipts, done + [batch], deferring) ==
      if batch.reply.Ack? then Settle(before, batch.events, batch.reply.failed, deferring)
      else before.(errors := before.errors + 1)
  {
    assert (done + [batch])[..|done|] == done;
  }
}
