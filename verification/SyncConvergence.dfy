/** One sync against a truthful Tracker repairs everything (apatch/contribution_delivery.py,
    sync_contributions).

    A Tracker is truthful for an Avatar under a view of its state: what it answers about the Avatar's
    events is what the view says, and what it is given it keeps, verified and with its envelope. Its
    state, the order of its answers and everything else about it are left open. */
module SyncConvergence {
  import opened Common
  import opened Reconciliation
  import opened ContributionSync

  datatype Record = Record(verified: bool, envelope: bool)
  type Ledger = map<Id, Record>

  predicate Settled(ledger: Ledger, id: Id) {
    id in ledger && ledger[id].verified && ledger[id].envelope
  }

  // ---------- Truthful Trackers ----------

  // A list without repetitions of exactly the ids of the chunk that `keep` holds for.
  ghost predicate ListsExactly(list: seq<Id>, chunk: seq<Id>, keep: Id -> bool) {
    Unique(list) && forall x :: x in list <==> x in chunk && keep(x)
  }

  ghost predicate TellsTruth(ledger: Ledger, avatar: string, chunk: seq<Id>, body: Body) {
    && body.avatarId == avatar && body.conflicts == [] && body.verified.Some? && body.unverified.Some?
    && ListsExactly(body.present, chunk, x => x in ledger)
    && ListsExactly(body.missing, chunk, x => x !in ledger)
    && ListsExactly(body.missingEnvelopes, chunk, x => x in ledger && !ledger[x].envelope)
    && ListsExactly(body.verified.value, chunk, x => x in ledger && ledger[x].verified)
    && ListsExactly(body.unverified.value, chunk, x => x in ledger && !ledger[x].verified)
  }

  // Every posted event is reported as accepted.
  ghost predicate AcceptsAll(answer: Option<map<Id, bool>>, events: seq<Event>) {
    answer.Some? && forall i :: 0 <= i < |events| ==> events[i].id in answer.value && answer.value[events[i].id]
  }

  // Asking changes nothing in the view and is answered by it; an upload of the Avatar's events is
  // accepted, settles each of them and unsettles nothing.
  ghost predicate IsTruthful<S(!new)>(tracker: Tracker<S>, look: S -> Ledger, avatar: string) {
    && (forall s, ids | Unique(ids) ::
          var reply := tracker.onReconcile(s, avatar, ids);
          AnswersTruly(look(s), look(reply.0), avatar, ids, reply.1))
    && (forall s, events | OfAvatar(events, avatar) ::
          var reply := tracker.onUpload(s, events);
          StoresAll(look(s), look(reply.0), events, reply.1))
  }

  predicate OfAvatar(events: seq<Event>, avatar: string) {
    forall i :: 0 <= i < |events| ==> events[i].avatar == avatar
  }

  ghost predicate AnswersTruly(before: Ledger, after: Ledger, avatar: string, ids: seq<Id>, response: Response) {
    after == before && response.Http? && response.status == 200 && response.body.Some?
    && TellsTruth(before, avatar, ids, response.body.value)
  }

  ghost predicate StoresAll(before: Ledger, after: Ledger, events: seq<Event>, response: UploadResponse) {
    && AcceptsAll(Usable(response), events)
    && (forall x :: Settled(before, x) ==> Settled(after, x))
    && (forall i :: 0 <= i < |events| ==> Settled(after, events[i].id))
  }

  // ---------- The answers fit ----------

  lemma SplitUnique(a: seq<Id>, b: seq<Id>, all: seq<Id>)
    requires Unique(a) && Unique(b) && (forall x :: x in a ==> x !in b) && (forall x :: x in all <==> x in a || x in b)
    ensures Unique(a + b) && Members(a + b) == Members(all)
  {
    var ab := a + b;
    forall i, j | 0 <= i < j < |ab| ensures ab[i] != ab[j] {
      if i < |a| <= j { assert ab[i] in a && ab[j] in b; }
    }
  }

  lemma TruthFits(ledger: Ledger, avatar: string, chunk: seq<Id>, body: Body)
    requires Unique(chunk) && TellsTruth(ledger, avatar, chunk, body)
    ensures Fits(body, avatar, chunk)
  {
    SplitUnique(body.present, body.missing, chunk);
    assert body.present + body.missing + body.conflicts == body.present + body.missing;
    SplitUnique(body.verified.value, body.unverified.value, body.present);
  }

  ghost predicate AllTruthful(batches: seq<Batch>, ledger: Ledger, avatar: string) {
    forall i :: 0 <= i < |batches| ==>
      batches[i].answer.Some? && TellsTruth(ledger, avatar, batches[i].chunk, batches[i].answer.value)
  }

  lemma ChunkUnique(ids: seq<Id>, offset: nat, size: nat)
    requires Unique(ids) && offset < |ids|
    ensures Unique(Chunk(ids, offset, size))
  {
  }

  lemma TruthfulCons(batch: Batch, rest: seq<Batch>, ledger: Ledger, avatar: string)
    requires AllTruthful(rest, ledger, avatar) && batch.answer.Some?
             && TellsTruth(ledger, avatar, batch.chunk, batch.answer.value)
    ensures AllTruthful([batch] + rest, ledger, avatar)
  {
  }

  lemma TruthfulAnswer<S(!new)>(tracker: Tracker<S>, look: S -> Ledger, s: S, avatar: string, chunk: seq<Id>)
    requires IsTruthful(tracker, look, avatar) && Unique(chunk)
    ensures var reply := tracker.onReconcile(s, avatar, chunk); var answer := Judge(reply.1, avatar, chunk);
      look(reply.0) == look(s) && answer.Some? && TellsTruth(look(s), avatar, chunk, answer.value)
  {
    assert AnswersTruly(look(s), look(tracker.onReconcile(s, avatar, chunk).0), avatar, chunk,
                        tracker.onReconcile(s, avatar, chunk).1);
    TruthFits(look(s), avatar, chunk, tracker.onReconcile(s, avatar, chunk).1.body.value);
  }

  lemma {:induction false} TruthfulAnswers<S(!new)>(tracker: Tracker<S>, look: S -> Ledger, s: S, avatar: string,
                                                    ids: seq<Id>, size: nat, offset: nat)
    requires size > 0 && IsTruthful(tracker, look, avatar) && Unique(ids)
    ensures var asked := Ask(tracker, s, avatar, ids, size, offset);
      look(asked.1) == look(s) && AllTruthful(asked.0, look(s), avatar)
    decreases |ids| - offset
  {
    hide Unique, Judge, TellsTruth, IsTruthful;
    if offset < |ids| {
      var chunk := Chunk(ids, offset, size);
      ChunkUnique(ids, offset, size);
      TruthfulAnswer(tracker, look, s, avatar, chunk);
      var reply := tracker.onReconcile(s, avatar, chunk);
      TruthfulAnswers(tracker, look, reply.0, avatar, ids, size, offset + size);
      TruthfulCons(Batch(offset, chunk, Judge(reply.1, avatar, chunk)),
                   Ask(tracker, reply.0, avatar, ids, size, offset + size).0, look(s), avatar);
    }
  }

  lemma TruthAdded(ledger: Ledger, avatar: string, t: Tally, chunk: seq<Id>, body: Body, x: Id)
    requires TellsTruth(ledger, avatar, chunk, body)
    ensures var t' := Add(t, body);
      && t'.errors == t.errors && t'.conflicts == t.conflicts && t'.classified == t.classified
      && (x in t'.missing <==> x in t.missing || (x in chunk && x !in ledger))
      && (x in t'.unverified <==> x in t.unverified || (x in chunk && x in ledger && !ledger[x].verified))
      && (x in t'.missingEnvelopes <==> x in t.missingEnvelopes || (x in chunk && x in ledger && !ledger[x].envelope))
  {
  }

  // What truthful batches add up to, for one id.
  ghost predicate Tallies(t: Tally, ids: seq<Id>, ledger: Ledger, x: Id) {
    && t.errors == [] && t.conflicts == [] && t.classified
    && (x in t.missing <==> x in ids && x !in ledger)
    && (x in t.unverified <==> x in ids && x in ledger && !ledger[x].verified)
    && (x in t.missingEnvelopes <==> x in ids && x in ledger && !ledger[x].envelope)
  }

  lemma {:induction false} TruthfulTally(ledger: Ledger, avatar: string, batches: seq<Batch>, x: Id)
    requires AllTruthful(batches, ledger, avatar)
    ensures Tallies(TallyOf(batches), AcceptedIds(batches), ledger, x)
  {
    if batches != [] {
      hide TellsTruth;
      var before, batch := batches[..|batches| - 1], batches[|batches| - 1];
      TruthfulTally(ledger, avatar, before, x);
      TruthAdded(ledger, avatar, TallyOf(before), batch.chunk, batch.answer.value, x);
    }
  }

  lemma TruthfulBatches<S(!new)>(tracker: Tracker<S>, look: S -> Ledger, s: S, avatar: string, requested: seq<Id>,
                                 x: Id)
    requires IsTruthful(tracker, look, avatar) && Unique(requested)
    ensures var asked := Ask(tracker, s, avatar, requested, 1000, 0);
      look(asked.1) == look(s) && Tallies(TallyOf(asked.0), requested, look(s), x)
  {
    hide IsTruthful;
    var batches := Ask(tracker, s, avatar, requested, 1000, 0).0;
    TruthfulAnswers(tracker, look, s, avatar, requested, 1000, 0);
    AskedEverything(tracker, s, avatar, requested, 1000, 0);
    TruthfulTally(look(s), avatar, batches, x);
    NoErrorsAllAccepted(batches);
    assert requested[0..] == requested;
  }

  // A reconciliation changes nothing and reports exactly what is unsettled.
  lemma TruthfulReconcile<S(!new)>(tracker: Tracker<S>, look: S -> Ledger, s: S, avatar: string, ids: seq<Id>, x: Id)
    requires avatar != "" && IsTruthful(tracker, look, avatar)
    ensures var r := Reconcile(tracker, s, true, avatar, ids, 1000);
      && look(r.1) == look(s) && r.0.ok && r.0.tally.conflicts == [] && r.0.tally.classified
      && (x in Replay(r.0) <==> x in ids && x != "" && !Settled(look(s), x))
  {
    hide IsTruthful;
    if Requested(ids) == [] {
      assert x !in Requested(ids);
    } else {
      TruthfulBatches(tracker, look, s, avatar, Requested(ids), x);
    }
  }

  // ---------- Posting settles ----------

  ghost predicate AllUsed(batches: seq<Posted>) {
    forall i :: 0 <= i < |batches| ==> AcceptsAll(batches[i].answer, EventsOf(batches[i].chunk))
  }

  predicate IsAmong(items: seq<Item>, id: Id) {
    id in IdsOf(items)
  }

  lemma ChunkOfAvatar(items: seq<Item>, offset: nat, size: nat, avatar: string)
    requires offset < |items| && OfAvatar(EventsOf(items), avatar)
    ensures OfAvatar(EventsOf(Chunk(items, offset, size)), avatar)
  {
    var chunk := Chunk(items, offset, size);
    forall i | 0 <= i < |chunk| ensures EventsOf(chunk)[i].avatar == avatar {
      assert EventsOf(items)[offset + i] == chunk[i].event;
    }
  }

  lemma UploadSettles<S(!new)>(tracker: Tracker<S>, look: S -> Ledger, s: S, avatar: string, chunk: seq<Item>, id: Id)
    requires IsTruthful(tracker, look, avatar) && OfAvatar(EventsOf(chunk), avatar)
    ensures var reply := tracker.onUpload(s, EventsOf(chunk));
      && AcceptsAll(Usable(reply.1), EventsOf(chunk))
      && (Settled(look(s), id) || IsAmong(chunk, id) ==> Settled(look(reply.0), id))
  {
    assert StoresAll(look(s), look(tracker.onUpload(s, EventsOf(chunk)).0), EventsOf(chunk),
                     tracker.onUpload(s, EventsOf(chunk)).1);
    if IsAmong(chunk, id) {
      var i :| 0 <= i < |chunk| && IdsOf(chunk)[i] == id;
      assert EventsOf(chunk)[i].id == id;
    }
  }

  lemma PostedNext<S>(tracker: Tracker<S>, s: S, items: seq<Item>, size: nat, offset: nat)
    requires size > 0
    ensures if offset >= |items| then Post(tracker, s, items, size, offset) == ([], s)
            else
              var chunk := Chunk(items, offset, size); var reply := tracker.onUpload(s, EventsOf(chunk));
              var later := Post(tracker, reply.0, items, size, offset + size);
              Post(tracker, s, items, size, offset).0 == [Posted(chunk, Usable(reply.1))] + later.0
              && Post(tracker, s, items, size, offset).1 == later.1
  {
  }

  lemma UsedCons(batch: Posted, rest: seq<Posted>)
    requires AllUsed(rest) && AcceptsAll(batch.answer, EventsOf(batch.chunk))
    ensures AllUsed([batch] + rest)
  {
  }

  lemma NoneUsed()
    ensures AllUsed([])
  {
  }

  lemma {:induction false} PostsSettle<S(!new)>(tracker: Tracker<S>, look: S -> Ledger, s: S, avatar: string,
                                                items: seq<Item>, size: nat, offset: nat, id: Id)
    requires size > 0 && offset <= |items| && IsTruthful(tracker, look, avatar) && OfAvatar(EventsOf(items), avatar)
    ensures var posted := Post(tracker, s, items, size, offset);
      && AllUsed(posted.0)
      && (Settled(look(s), id) || IsAmong(items[offset..], id) ==> Settled(look(posted.1), id))
    decreases |items| - offset
  {
    hide IsTruthful, OfAvatar, AllUsed, AcceptsAll, EventsOf, Usable, IsAmong, Settled, Post;
    PostedNext(tracker, s, items, size, offset);
    if offset < |items| {
      var chunk := Chunk(items, offset, size);
      var reply := tracker.onUpload(s, EventsOf(chunk));
      ChunkOfAvatar(items, offset, size, avatar);
      UploadSettles(tracker, look, s, avatar, chunk, id);
      if offset + size <= |items| {
        if IsAmong(items[offset..], id) { SplitAmong(items, offset, offset + size, id); }
        PostsSettle(tracker, look, reply.0, avatar, items, size, offset + size, id);
      } else {
        PostedNext(tracker, reply.0, items, size, offset + size);
        NoneUsed();
      }
      UsedCons(Posted(chunk, Usable(reply.1)), Post(tracker, reply.0, items, size, offset + size).0);
    } else {
      NoneAmong(items, offset, id);
      NoneUsed();
    }
  }

  lemma NoneAmong(items: seq<Item>, offset: nat, id: Id)
    requires offset == |items|
    ensures !IsAmong(items[offset..], id)
  {
  }

  lemma SplitAmong(items: seq<Item>, from: nat, to: nat, id: Id)
    requires from <= to <= |items| && IsAmong(items[from..], id)
    ensures IsAmong(items[from..to], id) || IsAmong(items[to..], id)
  {
    var i :| 0 <= i < |items[from..]| && IdsOf(items[from..])[i] == id;
    if from + i < to {
      assert IdsOf(items[from..to])[i] == id;
    } else {
      assert IdsOf(items[to..])[from + i - to] == id;
    }
  }

  lemma {:induction false} AllAcknowledged(d: Delivery, chunk: seq<Item>, answer: map<Id, bool>, forced: set<Id>)
    requires forall it :: it in chunk ==> it.event.id in answer && answer[it.event.id]
    ensures Acknowledge(d, chunk, answer, forced).errors == d.errors
  {
    if chunk != [] {
      assert chunk[|chunk| - 1] in chunk;
      AllAcknowledged(d, chunk[..|chunk| - 1], answer, forced);
    }
  }

  lemma {:induction false} TruthfulDelivery(files: Files, batches: seq<Posted>, forced: set<Id>)
    requires AllUsed(batches)
    ensures DeliveryOf(files, batches, forced).errors == 0
  {
    if batches != [] {
      var before, batch := batches[..|batches| - 1], batches[|batches| - 1];
      TruthfulDelivery(files, before, forced);
      assert AcceptsAll(batch.answer, EventsOf(batch.chunk));
      forall it | it in batch.chunk ensures it.event.id in batch.answer.value && batch.answer.value[it.event.id] {
        var i :| 0 <= i < |batch.chunk| && batch.chunk[i] == it;
        assert EventsOf(batch.chunk)[i] == it.event;
      }
      AllAcknowledged(DeliveryOf(files, before, forced), batch.chunk, batch.answer.value, forced);
    }
  }

  lemma ListedId(items: seq<Item>, it: Item)
    requires it in items
    ensures it.event.id in IdsOf(items)
  {
    var i :| 0 <= i < |items| && items[i] == it;
    assert IdsOf(items)[i] == it.event.id;
  }

  lemma ListedOfAvatar(files: Files, names: seq<Stem>, avatar: string, forced: set<Id>)
    requires avatar != ""
    ensures OfAvatar(EventsOf(PendingItems(files, Listed(files, names, avatar), forced)), avatar)
  {
    var items := Listed(files, names, avatar);
    var pending := PendingItems(files, items, forced);
    forall i | 0 <= i < |pending| ensures EventsOf(pending)[i].avatar == avatar {
      assert pending[i] in pending && pending[i] in items;
    }
  }

  // Posting what is unsettled settles every listed event.
  lemma TruthfulDeliver<S(!new)>(tracker: Tracker<S>, look: S -> Ledger, s: S, files: Files, names: seq<Stem>,
                                 avatar: string, forced: set<Id>, id: Id)
    requires avatar != "" && IsTruthful(tracker, look, avatar)
    requires forall it :: it in Listed(files, names, avatar) && !Settled(look(s), it.event.id) ==> it.event.id in forced
    ensures var sent := Deliver(tracker, s, true, files, names, avatar, forced, 200);
      && sent.0.ok
      && ((exists it :: it in Listed(files, names, avatar) && it.event.id == id) ==> Settled(look(sent.2), id))
  {
    hide IsTruthful, OfAvatar, AllUsed;
    var items := Listed(files, names, avatar);
    var pending := PendingItems(files, items, forced);
    ListedOfAvatar(files, names, avatar, forced);
    PostsSettle(tracker, look, s, avatar, pending, 200, 0, id);
    TruthfulDelivery(files, Post(tracker, s, pending, 200, 0).0, forced);
    assert pending[0..] == pending;
    if it :| it in items && it.event.id == id {
      if !Settled(look(s), id) { ListedId(pending, it); }
    }
  }

  // ---------- One round converges ----------

  // One sync against any truthful Tracker, whatever it had lost before: every listed event of the
  // Avatar ends present, verified and with its envelope, nothing is pending, and the sync says so.
  lemma SyncConverges<S(!new)>(tracker: Tracker<S>, look: S -> Ledger, s: S, files: Files, names: seq<Stem>,
                               avatar: string)
    requires avatar != "" && IsTruthful(tracker, look, avatar)
    ensures var out := Sync(tracker, s, true, files, names, avatar);
      && out.ok && out.after.status == InSync && out.delivery.pending == {}
      && forall it :: it in Listed(files, names, avatar) ==>
         Settled(look(out.state), it.event.id) && Acked(out.files, it.stem)
  {
    hide IsTruthful;
    var items := Listed(files, names, avatar);
    var ids := IdsOf(items);
    var first := Reconcile(tracker, s, true, avatar, ids, 1000);
    forall x ensures x in Replay(first.0) <==> x in ids && x != "" && !Settled(look(s), x) {
      TruthfulReconcile(tracker, look, s, avatar, ids, x);
    }
    TruthfulReconcile(tracker, look, s, avatar, ids, "");
    forall it | it in items ensures it.event.id in ids && it.event.id != "" { ListedId(items, it); }
    var sent := Deliver(tracker, first.1, true, files, names, avatar, Replay(first.0), 200);
    forall it | it in items ensures Settled(look(sent.2), it.event.id) {
      TruthfulDeliver(tracker, look, first.1, files, names, avatar, Replay(first.0), it.event.id);
    }
    TruthfulDeliver(tracker, look, first.1, files, names, avatar, Replay(first.0), "");
    CleanDelivery(tracker, first.1, files, names, avatar, Replay(first.0), 200);
    OnlineIsNotQueued(tracker, s, avatar, ids);
    AllSettledIsComplete(tracker, look, sent.2, avatar, items);
  }

  lemma AllSettledIsComplete<S(!new)>(tracker: Tracker<S>, look: S -> Ledger, s: S, avatar: string, items: seq<Item>)
    requires avatar != "" && IsTruthful(tracker, look, avatar)
    requires forall it :: it in items ==> Settled(look(s), it.event.id)
    ensures var r := Reconcile(tracker, s, true, avatar, IdsOf(items), 1000);
      look(r.1) == look(s) && r.0.complete && r.0.status == InSync
  {
    hide IsTruthful;
    var r := Reconcile(tracker, s, true, avatar, IdsOf(items), 1000).0;
    forall x ensures x !in Replay(r) {
      TruthfulReconcile(tracker, look, s, avatar, IdsOf(items), x);
    }
    TruthfulReconcile(tracker, look, s, avatar, IdsOf(items), "");
    NothingToReplay(r);
    InSyncExactly(tracker, s, true, avatar, IdsOf(items), 1000);
  }

  lemma NothingToReplay(r: Reconciled)
    requires r.ok && r.tally.classified && forall x :: x !in Replay(r)
    ensures r.tally.missing == [] && r.tally.unverified == [] && r.tally.missingEnvelopes == []
  {
    assert Replay(r) == {};
    NoMembers(r.tally.missing);
    NoMembers(r.tally.unverified);
    NoMembers(r.tally.missingEnvelopes);
  }

  lemma NoMembers(ids: seq<Id>)
    ensures Members(ids) == {} ==> ids == []
  {
    assert ids == [] || ids[0] in Members(ids);
  }

  // Exporting the store and syncing once settles every stored event of the Avatar whose id does not
  // end in ".ack".
  lemma StoreConverges<S(!new)>(tracker: Tracker<S>, look: S -> Ledger, s: S, files: Files, names: seq<Stem>,
                                store: seq<Event>, avatar: string, ev: Event)
    requires IsTruthful(tracker, look, avatar)
    requires IsOutbox(files, names) && IdsIdentify(files, store)
    requires ev in store && ev.id != "" && avatar != "" && ev.avatar == avatar && !IsAckName(ev.id)
    ensures var exported := Exported(files, names, store, avatar);
      Settled(look(Sync(tracker, s, true, exported.0, exported.1, avatar).state), ev.id)
  {
    hide IsTruthful;
    var exported := Exported(files, names, store, avatar);
    ExportedIsListedExactly(files, names, store, avatar, ev);
    SyncConverges(tracker, look, s, exported.0, exported.1, avatar);
    assert Item(ev.id, ev) in Listed(exported.0, exported.1, avatar);
  }

  // ---------- There are truthful Trackers ----------

  function Select(ids: seq<Id>, keep: Id -> bool): (kept: seq<Id>)
    ensures forall x :: x in kept <==> x in ids && keep(x)
  {
    if ids == [] then []
    else
      assert ids == ids[..|ids| - 1] + [ids[|ids| - 1]];
      Select(ids[..|ids| - 1], keep) + if keep(ids[|ids| - 1]) then [ids[|ids| - 1]] else []
  }

  function Truth(ledger: Ledger, avatar: string, ids: seq<Id>): Body {
    Body(avatar, Select(ids, x => x in ledger), Select(ids, x => x !in ledger), [],
         Select(ids, x => x in ledger && !ledger[x].envelope),
         Some(Select(ids, x => x in ledger && ledger[x].verified)),
         Some(Select(ids, x => x in ledger && !ledger[x].verified)))
  }

  function EventIds(events: seq<Event>): set<Id> {
    set e | e in events :: e.id
  }

  function Stored(ledger: Ledger, events: seq<Event>): Ledger {
    ledger + map id | id in EventIds(events) :: Record(true, true)
  }

  // A Tracker whose state is its ledger.
  const KEEPER: Tracker<Ledger> :=
    Tracker((ledger, avatar, ids) => (ledger, Http(200, Some(Truth(ledger, avatar, ids)))),
            (ledger, events) => (Stored(ledger, events),
                                 UploadHttp(200, Some(map id | id in EventIds(events) :: true))))

  lemma {:induction false} SelectUnique(ids: seq<Id>, keep: Id -> bool)
    requires Unique(ids)
    ensures Unique(Select(ids, keep))
  {
    if ids != [] {
      SelectUnique(ids[..|ids| - 1], keep);
      assert ids[|ids| - 1] !in ids[..|ids| - 1];
    }
  }

  lemma TruthTold(ledger: Ledger, avatar: string, ids: seq<Id>)
    requires Unique(ids)
    ensures TellsTruth(ledger, avatar, ids, Truth(ledger, avatar, ids))
  {
    SelectUnique(ids, x => x in ledger);
    SelectUnique(ids, x => x !in ledger);
    SelectUnique(ids, x => x in ledger && !ledger[x].envelope);
    SelectUnique(ids, x => x in ledger && ledger[x].verified);
    SelectUnique(ids, x => x in ledger && !ledger[x].verified);
  }

  lemma KeeperIsTruthful(avatar: string)
    ensures IsTruthful(KEEPER, (ledger: Ledger) => ledger, avatar)
  {
    forall ledger: Ledger, ids: seq<Id> | Unique(ids)
      ensures AnswersTruly(ledger, KEEPER.onReconcile(ledger, avatar, ids).0, avatar, ids,
                           KEEPER.onReconcile(ledger, avatar, ids).1)
    {
      TruthTold(ledger, avatar, ids);
    }
    forall ledger: Ledger, events: seq<Event>
      ensures StoresAll(ledger, KEEPER.onUpload(ledger, events).0, events, KEEPER.onUpload(ledger, events).1)
    {
      assert forall i :: 0 <= i < |events| ==> events[i].id in EventIds(events);
    }
  }
}
