/** The resumable chunked apply session (apatch/apply_session.py): one call applies one chunk, and the
    session file keeps the cursor between calls. Planning is the planner's, leases and the applying of
    patches are outcomes of the environment. */
module ApplySession {
  import opened Common
  import Decimal
  import opened ChunkPlanner

  datatype Failure = Failure(checkpoint: Option<string>, leaseReleaseFailed: bool)

  // The session file. `verify` is the configured command, `lease` the sandbox_lease flag.
  datatype Session = Session(logs: string, verify: Option<string>, deferred: bool, chunks: seq<seq<int>>, index: nat,
                             checkpoints: seq<string>, lastCheckpoint: Option<string>, reports: seq<string>,
                               lease: bool, blocked: Option<Failure>)

  // What apply_from_logs does: it reports, it raises a notarization failure, or it dies otherwise.
  datatype Outcome =
    | Applied(ok: bool, verifyRollback: bool, checkpoint: Option<string>)
    | NotarizationFailed(checkpoint: Option<string>)
    | Crashed

  // One call and what its environment answers: whether applying is admitted, the plan for the logs and
  // the chunks made of it, whether the effect is admitted, the lease granted and released.
  datatype Call = Call(logs: string, verify: Option<string>, deferred: bool, reset: bool, abort: bool,
                       admitted: bool, plan: seq<PlanEntry>, maxFiles: int, chunks: seq<seq<int>>,
                       effectAdmitted: bool, leaseGranted: bool, outcome: Outcome, leaseReleased: bool)

  datatype Response =
    | Refused
    | Aborted(checkpoint: Option<string>)
    | NothingToApply
    | Blocked(failure: Failure)
    | AlreadyComplete
    | Raised
    | NotarizationFailure(failure: Failure)
    | RolledBack
    | Advanced(ok: bool, continues: bool)

  // The observable history: sessions begun, every call to apply_from_logs, complete sessions cleared for
  // other logs, and aborts with the checkpoint the workspace is rolled back to.
  datatype Event =
    | Began(logs: string, plan: seq<PlanEntry>, maxFiles: int, chunks: seq<seq<int>>, verify: Option<string>,
            deferred: bool)
    | Attempt(steps: seq<int>, verify: Option<string>, outcome: Outcome)
    | Cleared
    | Abandoned(checkpoint: Option<string>)

  datatype State = State(stored: Option<Session>, events: seq<Event>)

  datatype Result = Result(state: State, response: Response)

  // ---------- One call ----------

  predicate IsComplete(session: Session) {
    session.chunks != [] && session.index >= |session.chunks|
  }

  function ReportName(index: nat): string {
    "apply_session_chunk_" + Decimal.Show(index + 1) + ".json"
  }

  function Begin(c: Call): Session {
    Session(c.logs, c.verify, c.deferred, c.chunks, 0, [], None, [], false, None)
  }

  function BeganBy(c: Call): Event {
    Began(c.logs, c.plan, c.maxFiles, c.chunks, c.verify, c.deferred)
  }

  ghost predicate AreDistinct(items: seq<string>) {
    forall i, j :: 0 <= i < j < |items| ==> items[i] != items[j]
  }

  // list(dict.fromkeys(items))
  function Unique(items: seq<string>): (unique: seq<string>)
    ensures forall x :: x in unique <==> x in items
    ensures AreDistinct(unique)
  {
    if items == [] then []
    else
      var before, x := Unique(items[..|items| - 1]), items[|items| - 1];
      assert items == items[..|items| - 1] + [x];
      if x in before then before else before + [x]
  }

  // Deferred verification runs with the last chunk only.
  function VerifyFor(session: Session): Option<string> {
    if session.index + 1 == |session.chunks| || !session.deferred then session.verify else None
  }

  function Checkpointed(session: Session, checkpoint: Option<string>, unique: bool): Session {
    if checkpoint.None? then session
    else
      var longer := session.checkpoints + [checkpoint.value];
      session.(lastCheckpoint := checkpoint, checkpoints := if unique then Unique(longer) else longer)
  }

  function ApplyChunk(s: State, c: Call): Result
    requires s.stored.Some? && s.stored.value.index < |s.stored.value.chunks|
  {
    var session := s.stored.value.(lease := true);
    var events := s.events + [Attempt(session.chunks[session.index], VerifyFor(session), c.outcome)];
    match c.outcome
    case Crashed => Result(State(Some(session), events), Raised)
    case NotarizationFailed(checkpoint) =>
      var failure := Failure(checkpoint, !c.leaseReleased);
      var kept := Checkpointed(session, checkpoint, true).(blocked := Some(failure), lease := !c.leaseReleased);
      Result(State(Some(kept), events), NotarizationFailure(failure))
    case Applied(ok, verifyRollback, checkpoint) =>
      if verifyRollback then Result(State(None, events), RolledBack)
      else
        var reports := session.reports + [ReportName(session.index)];
        var moved := Checkpointed(session, checkpoint, false).(index := session.index + 1, reports := reports);
        Result(State(Some(moved), events), Advanced(ok, moved.index < |moved.chunks|))
  }

  function Continue(s: State, c: Call): Result
    requires s.stored.Some?
  {
    var session := s.stored.value;
    if session.blocked.Some? then Result(s, Blocked(session.blocked.value))
    else if session.index >= |session.chunks| then Result(s, AlreadyComplete)
    else if !c.leaseGranted then Result(s, Refused)
    else ApplyChunk(s, c)
  }

  function Start(s: State, c: Call): Result {
    if c.chunks == [] then Result(s, NothingToApply)
    else if !c.effectAdmitted then Result(s, Refused)
    else Continue(State(Some(Begin(c)), s.events + [BeganBy(c)]), c)
  }

  // run_apply_session
  function Next(s: State, c: Call): Result {
    if !c.admitted then Result(s, Refused)
    else if c.abort then
      var checkpoint := if s.stored.Some? then s.stored.value.lastCheckpoint else None;
      Result(State(None, s.events + [Abandoned(checkpoint)]), Aborted(checkpoint))
    else if c.reset || s.stored.None? then Start(s, c)
    else if s.stored.value.logs == c.logs then Continue(s, c)
    else if IsComplete(s.stored.value) then Start(State(None, s.events + [Cleared]), c)
    else Result(s, Refused)
  }

  function Run(s: State, calls: seq<Call>): State {
    if calls == [] then s else Next(Run(s, calls[..|calls| - 1]), calls[|calls| - 1]).state
  }

  // The chunks of a call are those the planner makes of its plan.
  ghost predicate IsPlanned(c: Call) {
    IsLayout(c.plan, c.maxFiles, c.chunks)
  }

  ghost predicate ArePlanned(calls: seq<Call>) {
    forall i :: 0 <= i < |calls| ==> IsPlanned(calls[i])
  }

  // ---------- What a history says, read off the events alone ----------

  // The session begun last and the chunks applied for it.
  datatype Track = Track(began: Event, done: seq<seq<int>>)

  predicate Succeeds(outcome: Outcome) {
    outcome.Applied? && !outcome.verifyRollback
  }

  function Tracked(events: seq<Event>): (t: Option<Track>)
    ensures t.Some? ==> t.value.began.Began?
  {
    if events == [] then None
    else
      var before, e := Tracked(events[..|events| - 1]), events[|events| - 1];
      if e.Began? then Some(Track(e, []))
      else if !e.Attempt? then None
      else if before.Some? && Succeeds(e.outcome) then Some(before.value.(done := before.value.done + [e.steps]))
      else before
  }

  // The last event was a failure after which a session is not to be continued.
  predicate Stopped(events: seq<Event>) {
    && events != [] && events[|events| - 1].Attempt?
    && var outcome := events[|events| - 1].outcome;
       outcome.NotarizationFailed? || (outcome.Applied? && outcome.verifyRollback)
  }

  // There is a session: it was neither rolled back by its verification nor cleared nor aborted.
  predicate IsOpen(events: seq<Event>) {
    && events != []
    && match events[|events| - 1]
       case Began(_, _, _, _, _, _) => true
       case Attempt(_, _, outcome) => IsOpen(events[..|events| - 1]) && !(outcome.Applied? && outcome.verifyRollback)
       case _ => false
  }

  // The checkpoint reported last for the session there is.
  function LastCheckpoint(events: seq<Event>): Option<string> {
    if events == [] || !events[|events| - 1].Attempt? then None
    else
      match events[|events| - 1].outcome
      case Crashed => LastCheckpoint(events[..|events| - 1])
      case NotarizationFailed(checkpoint) =>
        if checkpoint.Some? then checkpoint else LastCheckpoint(events[..|events| - 1])
      case Applied(_, verifyRollback, checkpoint) =>
        if verifyRollback then None
        else if checkpoint.Some? then checkpoint
        else LastCheckpoint(events[..|events| - 1])
  }

  // The checkpoint was reported for the session begun last.
  predicate WasReported(events: seq<Event>, checkpoint: string) {
    && events != [] && events[|events| - 1].Attempt?
    && (Reported(events[|events| - 1].outcome) == Some(checkpoint) || WasReported(events[..|events| - 1], checkpoint))
  }

  function Reported(outcome: Outcome): Option<string> {
    if outcome.Crashed? then None else outcome.checkpoint
  }

  lemma ReportedSnoc(events: seq<Event>, e: Event, checkpoint: string)
    ensures WasReported(events + [e], checkpoint)
       <==> e.Attempt? && (Reported(e.outcome) == Some(checkpoint) || WasReported(events, checkpoint))
  {
    assert (events + [e])[..|events|] == events;
  }

  // What may follow a history: a session of a proper layout, the next chunk of the session there is with
  // the verify command exactly where it belongs, the clearing of a session that is complete, or an abort
  // that goes back to the last checkpoint.
  ghost predicate May(events: seq<Event>, e: Event) {
    match e
    case Began(_, plan, maxFiles, chunks, _, _) => chunks != [] && IsLayout(plan, maxFiles, chunks)
    case Attempt(steps, verify, _) =>
      && Tracked(events).Some? && IsOpen(events) && !Stopped(events)
      && var t := Tracked(events).value;
         && |t.done| < |t.began.chunks| && t.done == t.began.chunks[..|t.done|] && steps == t.began.chunks[|t.done|]
         && verify == if |t.done| + 1 == |t.began.chunks| || !t.began.deferred then t.began.verify else None
    case Cleared => Tracked(events).Some? && Tracked(events).value.done == Tracked(events).value.began.chunks
    case Abandoned(checkpoint) => checkpoint == LastCheckpoint(events)
  }

  ghost predicate Lawful(events: seq<Event>) {
    events == [] || (Lawful(events[..|events| - 1]) && May(events[..|events| - 1], events[|events| - 1]))
  }

  // The stored session agrees with the history.
  ghost predicate Agrees(x: Session, events: seq<Event>) {
    && Tracked(events).Some? && IsOpen(events)
    && var t := Tracked(events).value;
       && x.logs == t.began.logs && x.chunks == t.began.chunks && x.verify == t.began.verify
       && x.deferred == t.began.deferred
       && x.chunks != [] && x.index <= |x.chunks| && t.done == x.chunks[..x.index]
       && |x.reports| == x.index && (forall i :: 0 <= i < x.index ==> x.reports[i] == ReportName(i))
       && x.lastCheckpoint == LastCheckpoint(events)
       && (forall c :: c in x.checkpoints <==> WasReported(events, c))
       && (x.blocked.Some? && x.blocked.value.checkpoint.Some? ==> AreDistinct(x.checkpoints))
       && (x.blocked.Some? <==> Stopped(events)) && (x.blocked.Some? ==> x.index < |x.chunks|)
  }

  // The session file is there exactly while the history has a session.
  ghost predicate Inv(s: State) {
    Lawful(s.events) && if s.stored.Some? then Agrees(s.stored.value, s.events) else !IsOpen(s.events)
  }

  // ---------- Every call keeps the invariant ----------

  lemma TrackedSnoc(events: seq<Event>, e: Event)
    ensures Tracked(events + [e])
         == if e.Began? then Some(Track(e, []))
            else if !e.Attempt? then None
            else if Tracked(events).Some? && Succeeds(e.outcome) then
              Some(Tracked(events).value.(done := Tracked(events).value.done + [e.steps]))
            else Tracked(events)
    ensures Lawful(events) && May(events, e) ==> Lawful(events + [e])
  {
    assert (events + [e])[..|events|] == events;
  }

  // Whether there is a session after one more event, and its last checkpoint.
  lemma OpenSnoc(events: seq<Event>, e: Event)
    ensures IsOpen(events + [e])
       <==> e.Began? || (e.Attempt? && IsOpen(events) && !(e.outcome.Applied? && e.outcome.verifyRollback))
    ensures LastCheckpoint(events + [e])
         == if !e.Attempt? || (e.outcome.Applied? && e.outcome.verifyRollback) then None
            else if !e.outcome.Crashed? && e.outcome.checkpoint.Some? then e.outcome.checkpoint
            else LastCheckpoint(events)
  {
    assert (events + [e])[..|events|] == events;
  }

  lemma AppliedKeeps(x: Session, events: seq<Event>, ok: bool, checkpoint: Option<string>)
    requires Lawful(events) && Agrees(x, events) && x.index < |x.chunks| && x.blocked.None?
    ensures var e := Attempt(x.chunks[x.index], VerifyFor(x), Applied(ok, false, checkpoint));
      var reports := x.reports + [ReportName(x.index)];
      var moved := Checkpointed(x, checkpoint, false).(index := x.index + 1, reports := reports);
      Lawful(events + [e]) && Agrees(moved, events + [e])
  {
    hide IsLayout, ReportName, Lawful, Tracked, IsOpen, LastCheckpoint, WasReported;
    TrackedSnoc(events, Attempt(x.chunks[x.index], VerifyFor(x), Applied(ok, false, checkpoint)));
    OpenSnoc(events, Attempt(x.chunks[x.index], VerifyFor(x), Applied(ok, false, checkpoint)));
    forall c { ReportedSnoc(events, Attempt(x.chunks[x.index], VerifyFor(x), Applied(ok, false, checkpoint)), c); }
    TakeNext(x.chunks, x.index);
  }

  lemma FailedKeeps(x: Session, events: seq<Event>, checkpoint: Option<string>, failure: Failure, lease: bool)
    requires Lawful(events) && Agrees(x, events) && x.index < |x.chunks| && x.blocked.None?
    requires failure.checkpoint == checkpoint
    ensures var e := Attempt(x.chunks[x.index], VerifyFor(x), NotarizationFailed(checkpoint));
      var kept := Checkpointed(x, checkpoint, true).(blocked := Some(failure), lease := lease);
      Lawful(events + [e]) && Agrees(kept, events + [e])
  {
    hide IsLayout, ReportName, Lawful, Tracked, IsOpen, LastCheckpoint, WasReported;
    TrackedSnoc(events, Attempt(x.chunks[x.index], VerifyFor(x), NotarizationFailed(checkpoint)));
    OpenSnoc(events, Attempt(x.chunks[x.index], VerifyFor(x), NotarizationFailed(checkpoint)));
    forall c { ReportedSnoc(events, Attempt(x.chunks[x.index], VerifyFor(x), NotarizationFailed(checkpoint)), c); }
  }

  lemma AttemptIsLawful(x: Session, events: seq<Event>, outcome: Outcome)
    requires Lawful(events) && Agrees(x, events) && x.index < |x.chunks| && x.blocked.None?
    ensures Lawful(events + [Attempt(x.chunks[x.index], VerifyFor(x), outcome)])
    ensures outcome.Crashed? ==> Agrees(x, events + [Attempt(x.chunks[x.index], VerifyFor(x), outcome)])
    ensures outcome.Applied? && outcome.verifyRollback ==>
              !IsOpen(events + [Attempt(x.chunks[x.index], VerifyFor(x), outcome)])
  {
    hide IsLayout, ReportName, Lawful, Tracked, IsOpen, LastCheckpoint, WasReported;
    TrackedSnoc(events, Attempt(x.chunks[x.index], VerifyFor(x), outcome));
    OpenSnoc(events, Attempt(x.chunks[x.index], VerifyFor(x), outcome));
    forall c { ReportedSnoc(events, Attempt(x.chunks[x.index], VerifyFor(x), outcome), c); }
  }

  lemma AgreesLeased(x: Session, events: seq<Event>, lease: bool)
    requires Agrees(x, events)
    ensures Agrees(x.(lease := lease), events)
  {
  }

  lemma ApplyChunkKeeps(s: State, c: Call)
    requires Inv(s) && s.stored.Some? && s.stored.value.index < |s.stored.value.chunks| && s.stored.value.blocked.None?
    ensures Inv(ApplyChunk(s, c).state)
  {
    hide IsLayout, ReportName, Lawful, Tracked, Agrees, Stopped, IsOpen, LastCheckpoint;
    var x := s.stored.value.(lease := true);
    AgreesLeased(s.stored.value, s.events, true);
    match c.outcome
    case Crashed => AttemptIsLawful(x, s.events, c.outcome);
    case NotarizationFailed(checkpoint) =>
      FailedKeeps(x, s.events, checkpoint, Failure(checkpoint, !c.leaseReleased), !c.leaseReleased);
    case Applied(ok, verifyRollback, checkpoint) =>
      AttemptIsLawful(x, s.events, c.outcome);
      if !verifyRollback { AppliedKeeps(x, s.events, ok, checkpoint); }
  }

  lemma BeginKeeps(events: seq<Event>, c: Call)
    requires Lawful(events) && IsPlanned(c) && c.chunks != []
    ensures Inv(State(Some(Begin(c)), events + [BeganBy(c)]))
  {
    TrackedSnoc(events, BeganBy(c));
    OpenSnoc(events, BeganBy(c));
    forall p { ReportedSnoc(events, BeganBy(c), p); }
  }

  lemma StartKeeps(s: State, c: Call)
    requires Inv(s) && IsPlanned(c)
    ensures Inv(Start(s, c).state)
  {
    hide IsLayout, Agrees, Lawful, IsOpen, ApplyChunk;
    if c.chunks != [] {
      BeginKeeps(s.events, c);
      ApplyChunkKeeps(State(Some(Begin(c)), s.events + [BeganBy(c)]), c);
    }
  }

  lemma AbortKeeps(s: State)
    requires Inv(s)
    ensures Inv(State(None, s.events + [Abandoned(LastCheckpoint(s.events))]))
    ensures LastCheckpoint(s.events) == if s.stored.Some? then s.stored.value.lastCheckpoint else None
  {
    hide IsLayout, Lawful, Tracked, ReportName;
    TrackedSnoc(s.events, Abandoned(LastCheckpoint(s.events)));
    OpenSnoc(s.events, Abandoned(LastCheckpoint(s.events)));
    if s.stored.None? { NoSessionNoCheckpoint(s.events); }
  }

  lemma NoSessionNoCheckpoint(events: seq<Event>)
    requires Lawful(events) && !IsOpen(events)
    ensures LastCheckpoint(events) == None
  {
    hide IsLayout;
  }

  lemma ClearKeeps(s: State)
    requires Inv(s) && s.stored.Some? && IsComplete(s.stored.value)
    ensures Inv(State(None, s.events + [Cleared]))
  {
    hide IsLayout, Lawful, Tracked, ReportName;
    TrackedSnoc(s.events, Cleared);
    OpenSnoc(s.events, Cleared);
    assert s.stored.value.chunks[..s.stored.value.index] == s.stored.value.chunks;
  }

  lemma NextKeeps(s: State, c: Call)
    requires Inv(s) && IsPlanned(c)
    ensures Inv(Next(s, c).state)
  {
    hide IsLayout, Agrees, Lawful, IsOpen, LastCheckpoint, ApplyChunk, Start;
    StartKeeps(s, c);
    AbortKeeps(s);
    if s.stored.Some? && IsComplete(s.stored.value) {
      ClearKeeps(s);
      StartKeeps(State(None, s.events + [Cleared]), c);
    }
    ContinueKeeps(s, c);
  }

  lemma ContinueKeeps(s: State, c: Call)
    requires Inv(s)
    ensures s.stored.Some? ==> Inv(Continue(s, c).state)
  {
    hide IsLayout, Agrees, Lawful, IsOpen, LastCheckpoint, ApplyChunk;
    if s.stored.Some? && s.stored.value.index < |s.stored.value.chunks| && s.stored.value.blocked.None? {
      ApplyChunkKeeps(s, c);
    }
  }

  lemma {:induction false} RunKeeps(s: State, calls: seq<Call>)
    requires Inv(s) && ArePlanned(calls)
    ensures Inv(Run(s, calls))
  {
    if calls != [] {
      var before := calls[..|calls| - 1];
      assert forall i :: 0 <= i < |before| ==> before[i] == calls[i];
      RunKeeps(s, before);
      NextKeeps(Run(s, before), calls[|calls| - 1]);
    }
  }

  const FRESH := State(None, [])

  lemma FreshRunKeeps(calls: seq<Call>)
    requires ArePlanned(calls)
    ensures Inv(Run(FRESH, calls))
  {
    RunKeeps(FRESH, calls);
  }

  // ---------- What has been applied ----------

  lemma LawfulLast(events: seq<Event>)
    requires Lawful(events) && events != []
    ensures Lawful(events[..|events| - 1]) && May(events[..|events| - 1], events[|events| - 1])
  {
  }

  lemma TrackedLast(events: seq<Event>)
    requires events != []
    ensures var before, e := Tracked(events[..|events| - 1]), events[|events| - 1];
      Tracked(events) == if e.Began? then Some(Track(e, []))
                         else if !e.Attempt? then None
                         else if before.Some? && Succeeds(e.outcome) then
                           Some(before.value.(done := before.value.done + [e.steps]))
                         else before
  {
  }

  lemma {:induction false} LawfulTrack(events: seq<Event>)
    requires Lawful(events) && Tracked(events).Some?
    ensures var t := Tracked(events).value;
      && t.began.chunks != [] && IsLayout(t.began.plan, t.began.maxFiles, t.began.chunks)
      && |t.done| <= |t.began.chunks| && t.done == t.began.chunks[..|t.done|]
  {
    hide IsLayout, Lawful;
    if events != [] {
      hide Tracked;
      var before, e := events[..|events| - 1], events[|events| - 1];
      LawfulLast(events);
      TrackedLast(events);
      if Tracked(before).Some? { LawfulTrack(before); }
      if e.Attempt? && Succeeds(e.outcome) {
        TakeNext(Tracked(before).value.began.chunks, |Tracked(before).value.done|);
      }
    }
  }

  lemma {:induction false} FlattenPrefix(chunks: seq<seq<int>>, k: nat)
    requires k <= |chunks|
    ensures Flatten(chunks[..k]) <= Flatten(chunks)
    decreases |chunks|
  {
    if k < |chunks| {
      FlattenPrefix(chunks[..|chunks| - 1], k);
      assert chunks[..|chunks| - 1][..k] == chunks[..k];
    } else {
      assert chunks[..k] == chunks;
    }
  }

  // In every run, what has been applied for the current session is a prefix of the plan's applicable
  // steps: none skipped, none repeated, none out of order.
  lemma AppliedIsPrefixOfPlan(calls: seq<Call>)
    requires ArePlanned(calls) && Tracked(Run(FRESH, calls).events).Some?
    ensures var t := Tracked(Run(FRESH, calls).events).value;
      Flatten(t.done) <= ApplicableSteps(t.began.plan)
  {
    FreshRunKeeps(calls);
    var t := Tracked(Run(FRESH, calls).events).value;
    LawfulTrack(Run(FRESH, calls).events);
    LayoutKeepsSteps(t.began.plan, t.began.maxFiles, t.began.chunks);
    FlattenPrefix(t.began.chunks, |t.done|);
  }

  // The stored cursor counts exactly the applied chunks, and a complete session has applied the plan.
  lemma CursorCountsApplied(calls: seq<Call>)
    requires ArePlanned(calls) && Run(FRESH, calls).stored.Some?
    ensures var s := Run(FRESH, calls);
      && Tracked(s.events).Some?
      && var x, t := s.stored.value, Tracked(s.events).value;
         && x.index <= |x.chunks| && |x.reports| == x.index && t.done == x.chunks[..x.index]
         && x.chunks == t.began.chunks
         && (IsComplete(x) ==> Flatten(t.done) == ApplicableSteps(t.began.plan))
  {
    FreshRunKeeps(calls);
    var s := Run(FRESH, calls);
    var x, t := s.stored.value, Tracked(s.events).value;
    LawfulTrack(s.events);
    if IsComplete(x) {
      assert x.chunks[..x.index] == x.chunks;
      LayoutKeepsSteps(t.began.plan, t.began.maxFiles, t.began.chunks);
    }
  }

  lemma {:induction false} LawfulPrefix(events: seq<Event>, i: nat)
    requires Lawful(events) && i < |events|
    ensures Lawful(events[..i]) && May(events[..i], events[i])
    decreases |events|
  {
    if i + 1 < |events| {
      LawfulPrefix(events[..|events| - 1], i);
      assert events[..|events| - 1][..i] == events[..i];
    }
  }

  // In deferred mode the verify command comes with the chunk that completes the plan, and only then.
  lemma DeferredVerifyComesLast(calls: seq<Call>, i: nat)
    requires ArePlanned(calls)
    requires i < |Run(FRESH, calls).events| && Run(FRESH, calls).events[i].Attempt?
    ensures var events := Run(FRESH, calls).events;
      && Tracked(events[..i]).Some?
      && var t, e := Tracked(events[..i]).value, events[i];
         t.began.deferred && t.began.verify.Some? ==> (e.verify.Some? <==> t.done + [e.steps] == t.began.chunks)
    ensures var events := Run(FRESH, calls).events;
      var t, e := Tracked(events[..i]).value, events[i];
      t.began.deferred && e.verify.Some? ==> Flatten(t.done) + e.steps == ApplicableSteps(t.began.plan)
  {
    FreshRunKeeps(calls);
    var events := Run(FRESH, calls).events;
    LawfulPrefix(events, i);
    var t, e := Tracked(events[..i]).value, events[i];
    LawfulTrack(events[..i]);
    assert (t.done + [e.steps])[..|t.done|] == t.done;
    LayoutKeepsSteps(t.began.plan, t.began.maxFiles, t.began.chunks);
    if |t.done| + 1 == |t.began.chunks| {
      assert t.began.chunks == t.began.chunks[..|t.done|] + [e.steps];
    }
  }

  // ---------- What moves the cursor ----------

  predicate Tries(s: State, c: Call)
    requires s.stored.Some?
  {
    var x := s.stored.value;
    c.admitted && x.blocked.None? && x.index < |x.chunks| && c.leaseGranted
  }

  // A call on the stored session tries at most one chunk. The cursor moves by one exactly when that
  // chunk was applied, whatever its report says about failed steps, and the session is gone exactly
  // when the chunk was rolled back.
  lemma CursorMovesExactly(s: State, c: Call)
    requires Inv(s) && s.stored.Some? && s.stored.value.logs == c.logs && !c.reset && !c.abort
    ensures var s' := Next(s, c).state;
      && (s'.events != s.events <==> Tries(s, c))
      && (s'.stored.None? <==> Tries(s, c) && c.outcome.Applied? && c.outcome.verifyRollback)
      && (s'.stored.Some? ==> s'.stored.value.chunks == s.stored.value.chunks)
      && (s'.stored.Some? ==>
          s'.stored.value.index == s.stored.value.index + if Tries(s, c) && Succeeds(c.outcome) then 1 else 0)
    ensures Tries(s, c) ==> |Next(s, c).state.events| == |s.events| + 1
  {
  }

  predicate Keeps(c: Call) {
    !c.reset && !c.abort
  }

  // After a notarization failure nothing is applied and nothing stored changes, whatever is called.
  lemma {:induction false} BlockedStaysBlocked(s: State, calls: seq<Call>)
    requires Inv(s) && s.stored.Some? && s.stored.value.blocked.Some?
    requires forall i :: 0 <= i < |calls| ==> Keeps(calls[i])
    ensures Run(s, calls) == s
  {
    if calls != [] {
      var before := calls[..|calls| - 1];
      assert forall i :: 0 <= i < |before| ==> before[i] == calls[i];
      BlockedStaysBlocked(s, before);
      assert Keeps(calls[|calls| - 1]);
    }
  }

  // Calls for other logs leave an unfinished session alone.
  lemma {:induction false} OthersLeaveItAlone(s: State, calls: seq<Call>)
    requires s.stored.Some? && !IsComplete(s.stored.value)
    requires forall i :: 0 <= i < |calls| ==> Keeps(calls[i]) && calls[i].logs != s.stored.value.logs
    ensures Run(s, calls) == s
  {
    if calls != [] {
      var before := calls[..|calls| - 1];
      assert forall i :: 0 <= i < |before| ==> before[i] == calls[i];
      OthersLeaveItAlone(s, before);
      assert Keeps(calls[|calls| - 1]);
    }
  }

  // There was no session yet, or the last one was cleared with its whole plan applied, or rolled back.
  predicate Over(events: seq<Event>) {
    events == [] ||
    (var before, last := events[..|events| - 1], events[|events| - 1];
     || (last.Cleared? && HasAll(before))
     || (last.Attempt? && last.outcome.Applied? && last.outcome.verifyRollback))
  }

  ghost predicate NoneOverwritten(events: seq<Event>) {
    forall i :: 0 <= i < |events| && events[i].Began? ==> Over(events[..i])
  }

  lemma NoneOverwrittenSnoc(events: seq<Event>, e: Event)
    requires NoneOverwritten(events) && (e.Began? ==> Over(events))
    ensures NoneOverwritten(events + [e])
  {
    var longer := events + [e];
    forall i | 0 <= i < |longer| && longer[i].Began? ensures Over(longer[..i]) {
      if i < |events| {
        assert longer[..i] == events[..i] && events[i].Began?;
      } else {
        assert longer[..i] == events;
      }
    }
  }

  lemma ApplyChunkOverwritesNone(s: State, c: Call)
    requires Inv(s) && s.stored.Some? && s.stored.value.index < |s.stored.value.chunks| && NoneOverwritten(s.events)
    ensures var s' := ApplyChunk(s, c).state;
      NoneOverwritten(s'.events) && (s'.stored.None? ==> Over(s'.events))
  {
    hide IsLayout, Lawful, IsOpen, LastCheckpoint, WasReported, ReportName;
    NoneOverwrittenSnoc(s.events,
                        Attempt(s.stored.value.chunks[s.stored.value.index], VerifyFor(s.stored.value), c.outcome));
  }

  lemma StartOverwritesNone(s: State, c: Call)
    requires Inv(s) && IsPlanned(c) && NoneOverwritten(s.events) && Over(s.events) && s.stored.None?
    ensures var s' := Start(s, c).state;
      NoneOverwritten(s'.events) && (s'.stored.None? ==> Over(s'.events))
  {
    if c.chunks != [] {
      BeginKeeps(s.events, c);
      NoneOverwrittenSnoc(s.events, BeganBy(c));
      ApplyChunkOverwritesNone(State(Some(Begin(c)), s.events + [BeganBy(c)]), c);
    }
  }

  // Without reset and abort, no run begins a session over an unfinished one.
  lemma {:induction false} RunOverwritesNone(calls: seq<Call>)
    requires ArePlanned(calls) && forall i :: 0 <= i < |calls| ==> Keeps(calls[i])
    ensures NoneOverwritten(Run(FRESH, calls).events)
    ensures Run(FRESH, calls).stored.None? ==> Over(Run(FRESH, calls).events)
  {
    if calls != [] {
      var before, c := calls[..|calls| - 1], calls[|calls| - 1];
      assert forall i :: 0 <= i < |before| ==> before[i] == calls[i];
      RunOverwritesNone(before);
      FreshRunKeeps(before);
      NextOverwritesNone(Run(FRESH, before), c);
    }
  }

  lemma NextOverwritesNone(s: State, c: Call)
    requires Inv(s) && IsPlanned(c) && Keeps(c) && NoneOverwritten(s.events) && (s.stored.None? ==> Over(s.events))
    ensures var s' := Next(s, c).state;
      NoneOverwritten(s'.events) && (s'.stored.None? ==> Over(s'.events))
  {
    if s.stored.None? {
      StartOverwritesNone(s, c);
    } else if s.stored.value.logs == c.logs {
      if s.stored.value.index < |s.stored.value.chunks| { ApplyChunkOverwritesNone(s, c); }
    } else if IsComplete(s.stored.value) {
      ClearKeeps(s);
      NoneOverwrittenSnoc(s.events, Cleared);
      HasAllExactly(s.stored.value, s.events);
      assert (s.events + [Cleared])[..|s.events|] == s.events;
      StartOverwritesNone(State(None, s.events + [Cleared]), c);
    }
  }

  // A call for other logs starts its own session exactly when the stored one has applied its whole plan;
  // otherwise it is refused.
  lemma OthersStartExactly(s: State, c: Call)
    requires Inv(s) && s.stored.Some? && c.admitted && Keeps(c) && c.logs != s.stored.value.logs
    ensures var done := Tracked(s.events).value.done == Tracked(s.events).value.began.chunks;
      && (!done ==> Next(s, c) == Result(s, Refused))
      && (done && c.chunks != [] && c.effectAdmitted ==>
            s.events + [Cleared] + [BeganBy(c)] <= Next(s, c).state.events)
      && (done && !(c.chunks != [] && c.effectAdmitted) ==> Next(s, c).state == State(None, s.events + [Cleared]))
  {
    hide IsLayout, ReportName, Lawful, IsOpen, LastCheckpoint, WasReported;
    var x := s.stored.value;
    assert IsComplete(x) <==> x.index == |x.chunks|;
    if x.index == |x.chunks| { assert x.chunks[..x.index] == x.chunks; }
    assert |x.chunks[..x.index]| == x.index;
  }

  // The reports of different chunks have different names.
  lemma ReportNamesDiffer(i: nat, j: nat)
    requires ReportName(i) == ReportName(j)
    ensures i == j
  {
    var a, b := ReportName(i), ReportName(j);
    assert a[20..|a| - 5] == Decimal.Show(i + 1) && b[20..|b| - 5] == Decimal.Show(j + 1);
    Decimal.ShowInjective(i + 1, j + 1);
  }

  // What an answer says about the call that gave it: whether a chunk was tried, how that ended, and whether
  // anything of the plan is left.
  ghost predicate Tells(s: State, c: Call, r: Result) {
    var events := r.state.events;
    match r.response
    case Refused => NoneTried(s, r)
    case NothingToApply => c.chunks == [] && NoneTried(s, r)
    case Aborted(checkpoint) => events == s.events + [Abandoned(checkpoint)]
    case Blocked(failure) =>
      r.state == s && Stopped(s.events) && s.stored.Some? && s.stored.value.blocked == Some(failure)
    case AlreadyComplete => r.state == s && HasAll(s.events)
    case _ => TellsAttempt(c, r)
  }

  predicate NoneTried(s: State, r: Result) {
    forall i :: |s.events| <= i < |r.state.events| ==> !r.state.events[i].Attempt?
  }

  // The whole plan of the session begun last has been applied.
  predicate HasAll(events: seq<Event>) {
    Tracked(events).Some? && Tracked(events).value.done == Tracked(events).value.began.chunks
  }

  lemma HasAllExactly(x: Session, events: seq<Event>)
    requires Agrees(x, events)
    ensures HasAll(events) <==> x.index == |x.chunks|
  {
    hide Tracked, IsOpen, LastCheckpoint, WasReported, ReportName, Stopped;
    assert |x.chunks[..x.index]| == x.index;
    if x.index == |x.chunks| { assert x.chunks[..x.index] == x.chunks; }
  }

  // How an attempt ended and what the answer says of it.
  ghost predicate TellsAttempt(c: Call, r: Result) {
    && Tried(r.state.events, c)
    && match r.response
       case Raised => c.outcome.Crashed? && r.state.stored.Some? && r.state.stored.value.lease
       case NotarizationFailure(failure) =>
         && c.outcome.NotarizationFailed? && failure == Failure(c.outcome.checkpoint, !c.leaseReleased)
         && r.state.stored.Some? && r.state.stored.value.blocked == Some(failure)
         && r.state.stored.value.lease == failure.leaseReleaseFailed
       case RolledBack => c.outcome.Applied? && c.outcome.verifyRollback && r.state.stored == None
       case Advanced(ok, continues) =>
         Succeeds(c.outcome) && ok == c.outcome.ok && (continues <==> !HasAll(r.state.events))
       case _ => false
  }

  lemma ApplyChunkTells(s: State, c: Call)
    requires Inv(s) && s.stored.Some? && s.stored.value.index < |s.stored.value.chunks| && s.stored.value.blocked.None?
    ensures TellsAttempt(c, ApplyChunk(s, c))
  {
    hide Inv, HasAll, VerifyFor, ReportName, Unique;
    if ApplyChunk(s, c).response.Advanced? { AdvancedTells(s, c); }
  }

  lemma AdvancedTells(s: State, c: Call)
    requires Inv(s) && s.stored.Some? && s.stored.value.index < |s.stored.value.chunks| && s.stored.value.blocked.None?
    requires ApplyChunk(s, c).response.Advanced?
    ensures ApplyChunk(s, c).response.continues <==> !HasAll(ApplyChunk(s, c).state.events)
  {
    hide Tracked, IsOpen, LastCheckpoint, WasReported, ReportName, Stopped, Agrees, Lawful, HasAll, Unique, VerifyFor;
    ApplyChunkKeeps(s, c);
    var r := ApplyChunk(s, c);
    var x := r.state.stored.value;
    assert r.response.continues <==> x.index < |x.chunks|;
    hide ApplyChunk;
    HasAllExactly(x, r.state.events);
    IndexInChunks(x, r.state.events);
  }

  lemma IndexInChunks(x: Session, events: seq<Event>)
    requires Agrees(x, events)
    ensures x.index <= |x.chunks| && (x.blocked.Some? <==> Stopped(events))
  {
    hide Tracked, IsOpen, LastCheckpoint, WasReported, ReportName;
  }

  lemma ContinueTells(s: State, c: Call)
    requires Inv(s) && s.stored.Some?
    ensures Tells(s, c, Continue(s, c))
  {
    var x := s.stored.value;
    HasAllExactly(x, s.events);
    IndexInChunks(x, s.events);
    hide Tracked, IsOpen, LastCheckpoint, WasReported, ReportName, Stopped, Agrees, HasAll, ApplyChunk, Lawful;
    hide TellsAttempt;
    if x.blocked.None? && x.index < |x.chunks| { ApplyChunkTells(s, c); }
  }

  lemma StartTells(base: State, s: State, c: Call)
    requires Inv(s) && IsPlanned(c) && (s.events == base.events || s.events == base.events + [Cleared])
    ensures Tells(base, c, Start(s, c))
  {
    hide IsLayout, IsOpen, LastCheckpoint, WasReported, ReportName, Stopped, Agrees, Tracked, HasAll, ApplyChunk;
    hide Lawful, Tried;
    if c.chunks != [] {
      BeginKeeps(s.events, c);
      ApplyChunkTells(State(Some(Begin(c)), s.events + [BeganBy(c)]), c);
    }
  }

  lemma AnswersTell(s: State, c: Call)
    requires Inv(s) && IsPlanned(c)
    ensures Tells(s, c, Next(s, c))
  {
    hide Start, Continue, Inv, IsPlanned, HasAll, Stopped, TellsAttempt;
    if s.stored.Some? && IsComplete(s.stored.value) {
      ClearKeeps(s);
      StartTells(s, State(None, s.events + [Cleared]), c);
    }
    StartTells(s, s, c);
    if s.stored.Some? { ContinueTells(s, c); }
  }

  // The last event is the call's own attempt.
  predicate Tried(events: seq<Event>, c: Call) {
    events != [] && events[|events| - 1].Attempt? && events[|events| - 1].outcome == c.outcome
  }

  // A reset replaces the stored session exactly when the new plan has chunks and is admitted;
  // otherwise the old session stays and the next call resumes it.
  lemma ResetReplacesExactly(s: State, c: Call)
    requires Inv(s) && c.reset && !c.abort
    ensures Next(s, c).state == s <==> !(c.admitted && c.chunks != [] && c.effectAdmitted)
    ensures c.admitted && c.chunks != [] && c.effectAdmitted ==> s.events + [BeganBy(c)] <= Next(s, c).state.events
  {
  }

  // ---------- The sandbox lease ----------

  // The session says it holds the lease exactly after an attempt, unless that failed its notarization and the
  // lease could be released.
  ghost predicate LeaseIsRight(s: State) {
    s.stored.Some? ==>
      (s.stored.value.lease <==>
        && s.events != [] && s.events[|s.events| - 1].Attempt?
        && (s.stored.value.blocked.Some? ==> s.stored.value.blocked.value.leaseReleaseFailed))
  }

  lemma NextLease(s: State, c: Call)
    requires LeaseIsRight(s)
    ensures LeaseIsRight(Next(s, c).state)
  {
    hide ReportName, VerifyFor, Unique;
  }

  lemma {:induction false} LeaseFollowsAttempts(calls: seq<Call>)
    ensures LeaseIsRight(Run(FRESH, calls))
  {
    if calls != [] {
      LeaseFollowsAttempts(calls[..|calls| - 1]);
      NextLease(Run(FRESH, calls[..|calls| - 1]), calls[|calls| - 1]);
    }
  }

  // ---------- Aborting ----------

  // An admitted abort answers with the checkpoint the session's outcomes reported last, and ends it.
  lemma AbortEndsSession(s: State, c: Call)
    requires Inv(s) && c.admitted && c.abort
    ensures Next(s, c) == Result(State(None, s.events + [Abandoned(LastCheckpoint(s.events))]),
                                 Aborted(LastCheckpoint(s.events)))
    ensures Tracked(Next(s, c).state.events).None?
  {
    AbortKeeps(s);
    TrackedSnoc(s.events, Abandoned(LastCheckpoint(s.events)));
  }

  // The next call that applies starts afresh, for whatever logs it comes.
  lemma AfterAbortStartsAfresh(s: State, c: Call, next: Call)
    requires Inv(s) && c.admitted && c.abort && next.admitted && !next.abort
    ensures var aborted := Next(s, c).state;
      if next.chunks == [] || !next.effectAdmitted then Next(aborted, next).state == aborted
      else aborted.events + [BeganBy(next)] <= Next(aborted, next).state.events
  {
  }

  // In every run nothing is applied after an abort until a session begins.
  lemma AbortedIsNeverApplied(calls: seq<Call>, i: nat, j: nat)
    requires ArePlanned(calls)
    requires i < j < |Run(FRESH, calls).events|
    requires Run(FRESH, calls).events[i].Abandoned? && Run(FRESH, calls).events[j].Attempt?
    ensures exists k :: i < k < j && Run(FRESH, calls).events[k].Began?
  {
    FreshRunKeeps(calls);
    var events := Run(FRESH, calls).events;
    LawfulPrefix(events, j);
    var k := OpenedBy(events[..j], i);
  }

  // A session there is was begun after any event that left none.
  lemma {:induction false} OpenedBy(events: seq<Event>, i: nat) returns (k: nat)
    requires i < |events| && events[i].Abandoned? && IsOpen(events)
    ensures i < k < |events| && events[k].Began?
  {
    if events[|events| - 1].Began? {
      k := |events| - 1;
    } else {
      k := OpenedBy(events[..|events| - 1], i);
    }
  }

  // What the workspace is rolled back to: the last checkpoint that an outcome of the session reported.
  lemma {:induction false} CheckpointWasReported(events: seq<Event>) returns (k: nat)
    requires LastCheckpoint(events).Some?
    ensures k < |events| && events[k].Attempt? && !events[k].outcome.Crashed?
    ensures events[k].outcome.checkpoint == LastCheckpoint(events)
    ensures forall j :: k < j < |events| ==> events[j].Attempt? && Reported(events[j].outcome) == None
  {
    k := |events| - 1;
    if Reported(events[k].outcome) == None {
      var before := events[..k];
      k := CheckpointWasReported(before);
      assert forall j :: 0 <= j < |before| ==> before[j] == events[j];
    }
  }

  // ---------- Calling until nothing continues ----------

  predicate GoesWell(c: Call, logs: string, chunks: seq<seq<int>>) {
    && c.logs == logs && c.chunks == chunks && Keeps(c)
    && c.admitted && c.effectAdmitted && c.leaseGranted && Succeeds(c.outcome)
  }

  // As many good calls as there are chunks complete the session, and the last one says so.
  lemma {:induction false} GoodCallsComplete(calls: seq<Call>, logs: string, chunks: seq<seq<int>>)
    requires chunks != [] && 0 < |calls| <= |chunks|
    requires forall i :: 0 <= i < |calls| ==> GoesWell(calls[i], logs, chunks)
    ensures var s := Run(FRESH, calls);
      s.stored.Some? && s.stored.value.logs == logs && s.stored.value.chunks == chunks
      && s.stored.value.index == |calls| && s.stored.value.blocked.None?
    ensures var last := Next(Run(FRESH, calls[..|calls| - 1]), calls[|calls| - 1]).response;
      last.Advanced? && (last.continues <==> |calls| < |chunks|)
  {
    var before, c := calls[..|calls| - 1], calls[|calls| - 1];
    assert GoesWell(c, logs, chunks);
    if before != [] {
      assert forall i :: 0 <= i < |before| ==> before[i] == calls[i];
      GoodCallsComplete(before, logs, chunks);
    }
  }

  // ---------- The session file ----------

  class SessionFile {
    var stored: Option<Session>
    ghost var events: seq<Event>

    constructor ()
      ensures S() == FRESH
    {
      stored, events := None, [];
    }

    ghost function S(): State
      reads this
    {
      State(stored, events)
    }

    // run_apply_session. `used` is the call with the chunks the planner made of its plan.
    method RunApplySession(c: Call) returns (response: Response, ghost used: Call)
      modifies this
      ensures used == c.(chunks := used.chunks) && IsPlanned(used)
      ensures Result(S(), response) == Next(old(S()), used)
    {
      var chunks := BuildChunks(c.plan, c.maxFiles);
      used := c.(chunks := chunks);
      if !c.admitted { return Refused, used; }
      if c.abort {
        var checkpoint := if stored.Some? then stored.value.lastCheckpoint else None;
        stored, events := None, events + [Abandoned(checkpoint)];
        return Aborted(checkpoint), used;
      }
      if c.reset || stored.None? {
        response := StartSession(c.(chunks := chunks));
      } else if stored.value.logs == c.logs {
        response := ContinueSession(c.(chunks := chunks));
      } else if IsComplete(stored.value) {
        stored, events := None, events + [Cleared];
        response := StartSession(c.(chunks := chunks));
      } else {
        response := Refused;
      }
    }

    method StartSession(c: Call) returns (response: Response)
      modifies this
      ensures Result(S(), response) == Start(old(S()), c)
    {
      if c.chunks == [] { return NothingToApply; }
      if !c.effectAdmitted { return Refused; }
      stored := Some(Session(c.logs, c.verify, c.deferred, c.chunks, 0, [], None, [], false, None));
      events := events + [BeganBy(c)];
      response := ContinueSession(c);
    }

    method ContinueSession(c: Call) returns (response: Response)
      requires stored.Some?
      modifies this
      ensures Result(S(), response) == Continue(old(S()), c)
    {
      var session := stored.value;
      if session.blocked.Some? { return Blocked(session.blocked.value); }
      if session.index >= |session.chunks| { return AlreadyComplete; }
      if !c.leaseGranted { return Refused; }
      session := session.(lease := true);
      stored := Some(session);
      var finalChunk := session.index == |session.chunks| - 1;
      var chunkVerify := if finalChunk || !session.deferred then session.verify else None;
      events := events + [Attempt(session.chunks[session.index], chunkVerify, c.outcome)];
      match c.outcome
      case Crashed =>
        response := Raised;
      case NotarizationFailed(checkpoint) =>
        if checkpoint.Some? {
          session := session.(lastCheckpoint := checkpoint,
                              checkpoints := Unique(session.checkpoints + [checkpoint.value]));
        }
        var failure := Failure(checkpoint, false);
        stored := Some(session.(blocked := Some(failure)));
        if c.leaseReleased {
          session := session.(lease := false);
        } else {
          failure := failure.(leaseReleaseFailed := true);
        }
        stored := Some(session.(blocked := Some(failure)));
        response := NotarizationFailure(failure);
      case Applied(ok, verifyRollback, checkpoint) =>
        if checkpoint.Some? {
          session := session.(lastCheckpoint := checkpoint, checkpoints := session.checkpoints + [checkpoint.value]);
        }
        if verifyRollback {
          stored := None;
          return RolledBack;
        }
        session := session.(index := session.index + 1, reports := session.reports + [ReportName(session.index)]);
        stored := Some(session);
        response := Advanced(ok, session.index < |session.chunks|);
    }
  }
}
