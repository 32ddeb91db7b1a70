/** What a verify pool that fails fast may report, over all its schedules (apatch/conformance.py,
    run_spec_verify without a time budget). Once a red command is collected nothing is started any more,
    so a pool of `workers` starts at most that many red commands. */
module FailFastPool {
  import opened Common
  import opened VerifyPool

  ghost predicate IsFinished(cands: seq<Candidate>, workers: nat, waits: seq<Wait>) {
    IsSchedule(cands, workers, true, false, None, waits) && Run(cands, workers, true, None, waits).active == {}
  }

  function PoolReport(cands: seq<Candidate>, workers: nat, waits: seq<Wait>): Report {
    Run(cands, workers, true, None, waits).report
  }

  function Reds(cands: seq<Candidate>, k: nat): (reds: set<nat>) {
    set i: nat | i < k && i < |cands| && !cands[i].outcome.Green?
  }

  ghost predicate IsFirstFailing(cands: seq<Candidate>, f: nat) {
    f < |cands| && cands[f].outcome.Failed? && forall j :: 0 <= j < f ==> !cands[j].outcome.Failed?
  }

  ghost predicate NoneFails(cands: seq<Candidate>) {
    forall i :: 0 <= i < |cands| ==> !cands[i].outcome.Failed?
  }

  lemma FirstFailing(cands: seq<Candidate>) returns (f: nat)
    requires !NoneFails(cands)
    ensures IsFirstFailing(cands, f)
  {
    f := 0;
    while !cands[f].outcome.Failed?
      invariant f < |cands| && (forall j :: 0 <= j < f ==> !cands[j].outcome.Failed?)
      invariant exists i :: f <= i < |cands| && cands[i].outcome.Failed?
      decreases |cands| - f
    {
      f := f + 1;
    }
  }

  // ---------- What every schedule keeps ----------

  // While it goes on only green commands have been collected; at most `workers` red ones were started.
  ghost predicate Cautious(cands: seq<Candidate>, workers: nat, p: Pool) {
    && (!p.stopped ==> forall i :: i in p.collected && i < |cands| ==> cands[i].outcome.Green?)
    && |Reds(cands, p.next)| <= workers && !p.expired
  }

  lemma StartedCautious(cands: seq<Candidate>, workers: nat, p: Pool)
    requires Inv(cands, workers, true, p) && Cautious(cands, workers, p)
    requires !p.stopped && |p.active| < workers && p.next < |cands|
    ensures Cautious(cands, workers, Started(p))
  {
    SubsetSize(Reds(cands, p.next + 1), p.active + {p.next});
  }

  lemma {:induction false} FillCautious(cands: seq<Candidate>, workers: nat, p: Pool)
    requires Inv(cands, workers, true, p) && Cautious(cands, workers, p)
    ensures var q := Fill(cands, workers, p, None);
      && Cautious(cands, workers, q) && q.stopped == p.stopped && q.collected == p.collected && q.next >= p.next
      && p.active <= q.active
    decreases |cands| - p.next
  {
    hide Inv, Cautious;
    if !p.stopped && |p.active| < workers && p.next < |cands| {
      assert !p.expired by { NotExpired(cands, workers, p); }
      StartedInv(cands, workers, true, p);
      StartedCautious(cands, workers, p);
      FillCautious(cands, workers, Started(p));
    }
  }

  lemma NotExpired(cands: seq<Candidate>, workers: nat, p: Pool)
    requires Cautious(cands, workers, p)
    ensures !p.expired
  {
  }

  // Collecting a red command stops the pool; otherwise nothing changes about that.
  lemma {:induction false} GatherStops(cands: seq<Candidate>, p: Pool, done: set<nat>, k: nat)
    requires k <= |cands| && p.active !! p.collected
    ensures Gather(cands, true, p, done, k).stopped
       <==> p.stopped || exists i :: i in done && i in p.active && i < k && !cands[i].outcome.Green?
  {
    if k > 0 {
      GatherStops(cands, p, done, k - 1);
      GatherMoves(cands, true, p, done, k - 1, k - 1);
    }
  }

  // A wait after which the pool is stopped just moves the finished commands.
  lemma StepMoves(cands: seq<Candidate>, workers: nat, p: Pool, done: set<nat>)
    requires Inv(cands, workers, true, p) && done <= p.active
    ensures var q := Gather(cands, true, p, done, |cands|);
      && q.active == p.active - done && q.collected == p.collected + done && q.next == p.next && q.expired == p.expired
      && (q.stopped <==> p.stopped || exists i :: i in done && !cands[i].outcome.Green?)
      && Inv(cands, workers, true, q)
  {
    var q := Gather(cands, true, p, done, |cands|);
    forall i: nat ensures (i in q.active <==> i in p.active - done) && (i in q.collected <==> i in p.collected + done) {
      GatherMoves(cands, true, p, done, |cands|, i);
    }
    GatherMoves(cands, true, p, done, |cands|, 0);
    GatherStops(cands, p, done, |cands|);
    GatherInv(cands, workers, true, p, done, |cands|);
  }

  lemma StepCautious(cands: seq<Candidate>, workers: nat, p: Pool, done: set<nat>)
    requires Inv(cands, workers, true, p) && Cautious(cands, workers, p) && done <= p.active
    ensures var q := Step(cands, workers, true, p, Finished(done, None));
      Cautious(cands, workers, q) && q.next >= p.next
  {
    StepMoves(cands, workers, p, done);
    FillCautious(cands, workers, Gather(cands, true, p, done, |cands|));
  }

  lemma StartInv(cands: seq<Candidate>, workers: nat)
    ensures Inv(cands, workers, true, START) && Cautious(cands, workers, START)
  {
    forall o { CountOfNone(cands, |cands|, o); }
    assert Reds(cands, 0) == {};
  }

  // It also starts as many commands as it has workers, if there are so many.
  lemma {:induction false} RunCautious(cands: seq<Candidate>, workers: nat, waits: seq<Wait>)
    requires IsSchedule(cands, workers, true, false, None, waits)
    ensures var p := Run(cands, workers, true, None, waits);
      Cautious(cands, workers, p) && (p.next >= workers || p.next >= |cands|)
  {
    hide Inv, Cautious;
    if waits == [] {
      StartInv(cands, workers);
      FillCautious(cands, workers, START);
      RunInv(cands, workers, true, false, None, []);
      ActiveBelowNext(cands, workers, Run(cands, workers, true, None, []));
    } else {
      var before := waits[..|waits| - 1];
      RunCautious(cands, workers, before);
      RunInv(cands, workers, true, false, None, before);
      StepCautious(cands, workers, Run(cands, workers, true, None, before), waits[|waits| - 1].done);
    }
  }

  lemma ActiveBelowNext(cands: seq<Candidate>, workers: nat, p: Pool)
    requires Inv(cands, workers, true, p)
    ensures |p.active| <= p.next
  {
    BelowCount(p.active, p.next);
  }

  // A finished pool has collected everything it started.
  lemma FinishedCollected(cands: seq<Candidate>, workers: nat, waits: seq<Wait>, i: nat)
    requires IsFinished(cands, workers, waits)
    ensures var p := Run(cands, workers, true, None, waits);
      && (i < p.next <==> i in p.collected) && Reported(cands, p) && !p.expired && p.next <= |cands|
  {
    RunInv(cands, workers, true, false, None, waits);
    RunCautious(cands, workers, waits);
  }

  // ---------- What a report says ----------

  lemma FailuresReported(cands: seq<Candidate>, p: Pool)
    requires Reported(cands, p)
    ensures p.report.failures != [] <==> exists i :: 0 <= i < |cands| && i in p.collected && cands[i].outcome.Failed?
  {
    if p.report.failures != [] {
      var x := p.report.failures[0];
      assert multiset(p.report.failures)[x] > 0;
      var i := CountedCommand(cands, p.collected, |cands|, Failed(x));
    }
    if i :| 0 <= i < |cands| && i in p.collected && cands[i].outcome.Failed? {
      CountPositive(cands, p.collected, i);
      assert multiset(p.report.failures)[cands[i].outcome.failure] > 0;
    }
  }

  // A finished schedule reports a failure iff the first failing command was started.
  lemma FailureIsStarted(cands: seq<Candidate>, workers: nat, waits: seq<Wait>, f: nat)
    requires IsFinished(cands, workers, waits) && IsFirstFailing(cands, f)
    ensures PoolReport(cands, workers, waits).failures != [] <==> f < Run(cands, workers, true, None, waits).next
  {
    var p := Run(cands, workers, true, None, waits);
    FinishedCollected(cands, workers, waits, f);
    FailuresReported(cands, p);
    if p.report.failures != [] {
      var i: nat :| i < |cands| && i in p.collected && cands[i].outcome.Failed?;
      FinishedCollected(cands, workers, waits, i);
      assert f <= i;
    }
  }

  // ---------- A schedule that reaches a command ----------

  lemma ScheduleSnoc(cands: seq<Candidate>, workers: nat, waits: seq<Wait>, w: Wait)
    ensures Run(cands, workers, true, None, waits + [w])
            == Step(cands, workers, true, Run(cands, workers, true, None, waits), w)
    ensures IsSchedule(cands, workers, true, false, None, waits + [w])
       <==>
         && IsSchedule(cands, workers, true, false, None, waits)
         && Possible(Run(cands, workers, true, None, waits), false, w)
  {
    assert (waits + [w])[..|waits|] == waits;
  }

  // With fewer red commands below than workers, one of the running commands is green.
  lemma RunningGreen(cands: seq<Candidate>, workers: nat, p: Pool, t: nat) returns (g: nat)
    requires Inv(cands, workers, true, p) && p.next <= t && |Reds(cands, t)| < workers <= |p.active|
    ensures g in p.active && g < |cands| && cands[g].outcome.Green?
  {
    if forall i :: i in p.active ==> !cands[i].outcome.Green? {
      SubsetSize(p.active, Reds(cands, t));
      assert false;
    }
    g :| g in p.active && cands[g].outcome.Green?;
  }

  // The pool goes on, has started command t, and no more than it had to.
  ghost predicate Reaches(cands: seq<Candidate>, workers: nat, waits: seq<Wait>, t: nat) {
    && IsSchedule(cands, workers, true, false, None, waits)
    && var p := Run(cands, workers, true, None, waits);
       !p.stopped && t < p.next && (p.next <= workers || p.next <= t + 1)
  }

  // After a green command is collected from a full pool exactly one is started.
  lemma OneGreenDone(cands: seq<Candidate>, workers: nat, p: Pool, g: nat)
    requires Inv(cands, workers, true, p) && Cautious(cands, workers, p) && !p.stopped && |p.active| == workers
             && p.next < |cands|
    requires g in p.active && g < |cands| && cands[g].outcome.Green?
    ensures var q := Step(cands, workers, true, p, Finished({g}, None));
      !q.stopped && q.next == p.next + 1
  {
    StepMoves(cands, workers, p, {g});
    var q := Gather(cands, true, p, {g}, |cands|);
    assert |q.active| == workers - 1;
    assert |Started(q).active| == workers by { assert q.next !in q.active; }
    assert Fill(cands, workers, Started(q), None) == Started(q);
  }

  lemma ReachCommand(cands: seq<Candidate>, workers: nat, t: nat) returns (waits: seq<Wait>)
    requires t < |cands| && |Reds(cands, t)| < workers
    ensures Reaches(cands, workers, waits, t)
  {
    waits := [];
    var p := Run(cands, workers, true, None, []);
    StartInv(cands, workers);
    FillCautious(cands, workers, START);
    FillBound(cands, workers, START);
    while p.next <= t
      invariant IsSchedule(cands, workers, true, false, None, waits) && p == Run(cands, workers, true, None, waits)
      invariant !p.stopped && (p.next <= workers || p.next <= t + 1)
      decreases |cands| - p.next
    {
      RunInv(cands, workers, true, false, None, waits);
      RunCautious(cands, workers, waits);
      var g := RunningGreen(cands, workers, p, t);
      OneGreenDone(cands, workers, p, g);
      ScheduleSnoc(cands, workers, waits, Finished({g}, None));
      waits := waits + [Finished({g}, None)];
      p := Run(cands, workers, true, None, waits);
    }
  }

  // Filling an empty pool starts no more commands than there are workers.
  lemma {:induction false} FillBound(cands: seq<Candidate>, workers: nat, p: Pool)
    requires p.collected == {} && !p.stopped && p.next == |p.active| <= workers
             && forall i :: i in p.active ==> i < p.next
    ensures Fill(cands, workers, p, None).next <= workers && !Fill(cands, workers, p, None).stopped
    decreases |cands| - p.next
  {
    if |p.active| < workers && p.next < |cands| { FillBound(cands, workers, Started(p)); }
  }

  // Collecting everything that runs ends a stopped pool, and one with a red command running.
  lemma CollectAll(cands: seq<Candidate>, workers: nat, waits: seq<Wait>) returns (longer: seq<Wait>)
    requires IsSchedule(cands, workers, true, false, None, waits)
    requires var p := Run(cands, workers, true, None, waits);
      p.stopped || exists i :: i in p.active && i < |cands| && !cands[i].outcome.Green?
    ensures IsFinished(cands, workers, longer)
    ensures Run(cands, workers, true, None, longer).next == Run(cands, workers, true, None, waits).next
  {
    var p := Run(cands, workers, true, None, waits);
    longer := waits;
    if p.active != {} {
      RunInv(cands, workers, true, false, None, waits);
      StepMoves(cands, workers, p, p.active);
      ScheduleSnoc(cands, workers, waits, Finished(p.active, None));
      longer := waits + [Finished(p.active, None)];
    }
  }

  // Collecting one red command alone stops the pool.
  lemma CollectRed(cands: seq<Candidate>, workers: nat, waits: seq<Wait>, b: nat) returns (longer: seq<Wait>)
    requires IsSchedule(cands, workers, true, false, None, waits)
    requires b in Run(cands, workers, true, None, waits).active && b < |cands| && !cands[b].outcome.Green?
    ensures IsSchedule(cands, workers, true, false, None, longer)
    ensures var p, q := Run(cands, workers, true, None, waits), Run(cands, workers, true, None, longer);
      q.stopped && q.next == p.next
  {
    var p := Run(cands, workers, true, None, waits);
    RunInv(cands, workers, true, false, None, waits);
    StepMoves(cands, workers, p, {b});
    ScheduleSnoc(cands, workers, waits, Finished({b}, None));
    longer := waits + [Finished({b}, None)];
  }

  lemma ReachedRunning(cands: seq<Candidate>, workers: nat, waits: seq<Wait>, t: nat)
    requires Reaches(cands, workers, waits, t) && t < |cands| && !cands[t].outcome.Green?
    ensures t in Run(cands, workers, true, None, waits).active
  {
    RunInv(cands, workers, true, false, None, waits);
    RunCautious(cands, workers, waits);
  }

  // ---------- When a failing command can be missed ----------

  ghost predicate BrokenBefore(cands: seq<Candidate>, f: nat) {
    exists b :: 0 <= b < f && b < |cands| && cands[b].outcome.Broken?
  }

  lemma FirstRed(cands: seq<Candidate>, f: nat) returns (b: nat)
    requires IsFirstFailing(cands, f) && BrokenBefore(cands, f)
    ensures b < f && cands[b].outcome.Broken? && Reds(cands, b) == {}
  {
    b := 0;
    while cands[b].outcome.Green?
      invariant b < f && (forall j :: 0 <= j < b ==> cands[j].outcome.Green?)
      invariant exists i :: b <= i < f && cands[i].outcome.Broken?
      decreases f - b
    {
      b := b + 1;
    }
  }

  // Some schedule reports no failure although a command fails: exactly when the first failing command
  // is not among the first `workers` and a command that cannot run comes before it.
  lemma MissesExactly(cands: seq<Candidate>, workers: nat, f: nat)
    requires workers >= 1 && IsFirstFailing(cands, f)
    ensures (exists waits :: IsFinished(cands, workers, waits) && PoolReport(cands, workers, waits).failures == [])
       <==> workers <= f && BrokenBefore(cands, f)
  {
    if waits :| IsFinished(cands, workers, waits) && PoolReport(cands, workers, waits).failures == [] {
      FailureIsStarted(cands, workers, waits, f);
      RunCautious(cands, workers, waits);
      if !BrokenBefore(cands, f) { AllGreenBefore(cands, workers, waits, f); }
    }
    if workers <= f && BrokenBefore(cands, f) { var waits := MissingSchedule(cands, workers, f); }
  }

  lemma MissingSchedule(cands: seq<Candidate>, workers: nat, f: nat) returns (waits: seq<Wait>)
    requires 1 <= workers <= f && IsFirstFailing(cands, f) && BrokenBefore(cands, f)
    ensures IsFinished(cands, workers, waits) && PoolReport(cands, workers, waits).failures == []
  {
    var b := FirstRed(cands, f);
    waits := ReachCommand(cands, workers, b);
    ReachedRunning(cands, workers, waits, b);
    waits := CollectRed(cands, workers, waits, b);
    waits := CollectAll(cands, workers, waits);
    FailureIsStarted(cands, workers, waits, f);
  }

  // With only green commands before it the first failing one is always reached.
  lemma AllGreenBefore(cands: seq<Candidate>, workers: nat, waits: seq<Wait>, f: nat)
    requires workers >= 1 && IsFinished(cands, workers, waits) && IsFirstFailing(cands, f) && !BrokenBefore(cands, f)
    ensures f < Run(cands, workers, true, None, waits).next
  {
    RunInv(cands, workers, true, false, None, waits);
    var p := Run(cands, workers, true, None, waits);
    if p.stopped {
      RunCautious(cands, workers, waits);
      var i :| i in p.collected && Red(cands, i);
      assert f <= i;
    }
  }

  // ---------- The loop ----------

  ghost predicate HasFailing(cands: seq<Candidate>) {
    exists i :: 0 <= i < |cands| && cands[i].outcome.Failed?
  }

  // The first command that is not green is a failing one.
  ghost predicate FailsFirst(cands: seq<Candidate>) {
    exists i :: 0 <= i < |cands| && cands[i].outcome.Failed? && forall j :: 0 <= j < i ==> cands[j].outcome.Green?
  }

  lemma {:induction false} PrefixFails(cands: seq<Candidate>, m: nat)
    requires m <= |cands|
    ensures Prefix(cands, m).failures != [] <==> exists i :: 0 <= i < m && cands[i].outcome.Failed?
  {
    if m > 0 {
      PrefixFails(cands, m - 1);
      assert cands[m - 1].outcome.Failed? ==> Prefix(cands, m).failures != [];
    }
  }

  // One by one: without fail-fast every failing command is reported; with fail-fast one is reported
  // exactly if no command that cannot run comes before it.
  lemma InOrderFails(cands: seq<Candidate>, failFast: bool, late: nat -> bool)
    ensures var r := Sequential(cands, failFast, false, late);
      r.failures != [] <==> if failFast then FailsFirst(cands) else HasFailing(cands)
  {
    if failFast {
      var m := SequentialFailFast(cands, late);
      PrefixFails(cands, m);
      PrefixRan(cands, m);
      if FailsFirst(cands) {
        var i :| 0 <= i < |cands| && cands[i].outcome.Failed? && forall j :: 0 <= j < i ==> cands[j].outcome.Green?;
        assert m > i;
      }
    } else {
      SequentialCoversAll(cands, late);
      PrefixFails(cands, |cands|);
    }
  }

  // ---------- When the bucket depends on the schedule ----------

  lemma FailsFirstExactly(cands: seq<Candidate>, f: nat)
    requires IsFirstFailing(cands, f)
    ensures FailsFirst(cands) <==> !BrokenBefore(cands, f)
  {
    if FailsFirst(cands) {
      var i :| 0 <= i < |cands| && cands[i].outcome.Failed? && forall j :: 0 <= j < i ==> cands[j].outcome.Green?;
      assert i == f;
    }
    if !BrokenBefore(cands, f) {
      forall j | 0 <= j < f ensures cands[j].outcome.Green? { assert !cands[j].outcome.Broken?; }
    }
  }

  // Loop and pool put a spec in the same bucket iff they agree on whether something failed.
  lemma SameBucket(cands: seq<Candidate>, workers: nat, waits: seq<Wait>, late: nat -> bool, attested: Bucket)
    requires workers >= 1 && IsFinished(cands, workers, waits)
    ensures LiveBucket(attested, PoolReport(cands, workers, waits))
            == LiveBucket(attested, Sequential(cands, true, false, late))
       <==> (PoolReport(cands, workers, waits).failures != [] <==> FailsFirst(cands))
  {
    InOrderFails(cands, true, late);
    PoolGreenIsTrue(cands, workers, true, false, None, waits);
    var m := SequentialFailFast(cands, late);
    PrefixRan(cands, m);
    if EverythingGreen(cands) { GreenPrefix(cands, late, m); }
  }

  lemma GreenPrefix(cands: seq<Candidate>, late: nat -> bool, m: nat)
    requires EverythingGreen(cands) && m <= |cands| && Sequential(cands, true, false, late) == Prefix(cands, m)
    ensures m == |cands|
  {
    var k := SequentialIsPrefix(cands, true, false, late, 0);
    PrefixRan(cands, k);
    PrefixRan(cands, m);
    if k < |cands| { assert false; }
  }

  lemma FailsInLoopAndPool(cands: seq<Candidate>, workers: nat, waits: seq<Wait>, f: nat)
    requires workers >= 1 && IsFinished(cands, workers, waits) && IsFirstFailing(cands, f)
    requires FailsFirst(cands) || |Reds(cands, f)| >= workers
    ensures PoolReport(cands, workers, waits).failures != [] <==> FailsFirst(cands)
  {
    FailsFirstExactly(cands, f);
    FailureIsStarted(cands, workers, waits, f);
    if FailsFirst(cands) {
      AllGreenBefore(cands, workers, waits, f);
    } else if f < Run(cands, workers, true, None, waits).next {
      RunCautious(cands, workers, waits);
      SubsetSize(Reds(cands, f) + {f}, Reds(cands, Run(cands, workers, true, None, waits).next));
    }
  }

  lemma NothingToReport(cands: seq<Candidate>, workers: nat, waits: seq<Wait>)
    requires IsFinished(cands, workers, waits) && NoneFails(cands)
    ensures PoolReport(cands, workers, waits).failures == []
  {
    FinishedCollected(cands, workers, waits, 0);
    FailuresReported(cands, Run(cands, workers, true, None, waits));
  }

  lemma CatchingSchedule(cands: seq<Candidate>, workers: nat, f: nat) returns (waits: seq<Wait>)
    requires IsFirstFailing(cands, f) && |Reds(cands, f)| < workers
    ensures IsFinished(cands, workers, waits) && PoolReport(cands, workers, waits).failures != []
  {
    waits := ReachCommand(cands, workers, f);
    ReachedRunning(cands, workers, waits, f);
    waits := CollectAll(cands, workers, waits);
    FailureIsStarted(cands, workers, waits, f);
  }

  // Some schedule reports a failure: exactly when fewer commands than there are workers are red before
  // the first failing one.
  lemma CatchesExactly(cands: seq<Candidate>, workers: nat, f: nat)
    requires workers >= 1 && IsFirstFailing(cands, f)
    ensures (exists waits :: IsFinished(cands, workers, waits) && PoolReport(cands, workers, waits).failures != [])
       <==> |Reds(cands, f)| < workers
  {
    if waits :| IsFinished(cands, workers, waits) && PoolReport(cands, workers, waits).failures != [] {
      FailureIsStarted(cands, workers, waits, f);
      RunCautious(cands, workers, waits);
      SubsetSize(Reds(cands, f) + {f}, Reds(cands, Run(cands, workers, true, None, waits).next));
    }
    if |Reds(cands, f)| < workers { var waits := CatchingSchedule(cands, workers, f); }
  }

  // No command fails, or the first red command is a failing one, or as many commands as there are
  // workers cannot run before the first failing one.
  ghost predicate IsSettled(cands: seq<Candidate>, workers: nat) {
    NoneFails(cands) || FailsFirst(cands) || forall f :: IsFirstFailing(cands, f) ==> |Reds(cands, f)| >= workers
  }

  // Every schedule of the pool gives the bucket of the loop exactly in these cases.
  lemma BucketsAgreeExactly(cands: seq<Candidate>, workers: nat, late: nat -> bool, attested: Bucket)
    requires workers >= 1
    ensures (forall waits :: IsFinished(cands, workers, waits) ==>
               LiveBucket(attested, PoolReport(cands, workers, waits))
                 == LiveBucket(attested, Sequential(cands, true, false, late)))
       <==> IsSettled(cands, workers)
  {
    forall waits | IsFinished(cands, workers, waits) && IsSettled(cands, workers)
      ensures LiveBucket(attested, PoolReport(cands, workers, waits))
              == LiveBucket(attested, Sequential(cands, true, false, late))
    {
      SameBucket(cands, workers, waits, late, attested);
      if NoneFails(cands) {
        NothingToReport(cands, workers, waits);
      } else {
        var f := FirstFailing(cands);
        FailsInLoopAndPool(cands, workers, waits, f);
      }
    }
    if !IsSettled(cands, workers) {
      var f :| IsFirstFailing(cands, f) && |Reds(cands, f)| < workers;
      var waits := CatchingSchedule(cands, workers, f);
      SameBucket(cands, workers, waits, late, attested);
    }
  }
}
