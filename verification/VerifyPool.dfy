/** Running the verify commands of a spec (apatch/conformance.py, run_spec_verify): a bounded worker
    pool whose commands finish in any order, against the sequential loop.

    A schedule says which running commands each wait finds finished and when the time budget runs
    out. What holds here holds for every schedule. */
module VerifyPool {
  import opened Common

  // Exit 0, exit 1, or anything else (with the label reported for it).
  datatype Outcome = Green | Failed(failure: string) | Broken(reason: string)
  datatype Candidate = Candidate(id: string, outcome: Outcome)
  datatype Report = Report(ran: nat, failures: seq<string>, broken: seq<string>)

  const EMPTY := Report(0, [], [])

  predicate AllGreen(r: Report) {
    r.failures == [] && r.broken == []
  }

  function BudgetLabel(id: string): string {
    id + ":budget_exhausted"
  }

  function Collect(r: Report, o: Outcome): Report {
    match o
    case Green => r.(ran := r.ran + 1)
    case Failed(f) => r.(ran := r.ran + 1, failures := r.failures + [f])
    case Broken(b) => r.(ran := r.ran + 1, broken := r.broken + [b])
  }

  // ---------- The sequential loop ----------

  // The clock is read before command i (reading 2i) and after it (reading 2i + 1); `late` says
  // which readings are past the deadline. Without a budget the clock is not read.
  function SequentialFrom(cands: seq<Candidate>, failFast: bool, budget: bool, late: nat -> bool, i: nat,
                          r: Report): Report
    requires i <= |cands|
    decreases |cands| - i
  {
    if i == |cands| then r
    else if budget && late(2 * i) then r.(broken := r.broken + [BudgetLabel(cands[i].id)])
    else
      var r' := Collect(r, cands[i].outcome);
      if budget && late(2 * i + 1) then r'
      else if failFast && !cands[i].outcome.Green? then r'
      else SequentialFrom(cands, failFast, budget, late, i + 1, r')
  }

  function Sequential(cands: seq<Candidate>, failFast: bool, budget: bool, late: nat -> bool): Report {
    SequentialFrom(cands, failFast, budget, late, 0, EMPTY)
  }

  method RunSequential(cands: seq<Candidate>, failFast: bool, budget: bool, late: nat -> bool) returns (r: Report)
    ensures r == Sequential(cands, failFast, budget, late)
  {
    r := EMPTY;
    for i := 0 to |cands|
      invariant SequentialFrom(cands, failFast, budget, late, i, r) == Sequential(cands, failFast, budget, late)
    {
      if budget && late(2 * i) {
        return r.(broken := r.broken + [BudgetLabel(cands[i].id)]);
      }
      r := Collect(r, cands[i].outcome);
      if budget && late(2 * i + 1) { return; }
      if failFast && !cands[i].outcome.Green? { return; }
    }
  }

  // ---------- The pool ----------

  // `submitted` are the started commands in order, `expired` tells that the budget ran out.
  datatype Pool = Pool(next: nat, submitted: seq<nat>, active: set<nat>, collected: set<nat>, report: Report,
                       stopped: bool, expired: bool)

  // What a wait finds: finished commands, after which the deadline passes once `grace` more commands
  // have been started (if it does), or nothing before the deadline.
  datatype Wait = Finished(done: set<nat>, grace: Option<nat>) | TimedOut

  const START := Pool(0, [], {}, {}, EMPTY, false, false)

  // `while not stopped and len(active) < workers and submit_next()`
  function Fill(cands: seq<Candidate>, workers: nat, p: Pool, grace: Option<nat>): Pool
    decreases |cands| - p.next
  {
    if p.stopped || |p.active| >= workers || p.next >= |cands| then p
    else if grace == Some(0) then
      p.(next := p.next + 1, stopped := true, expired := true,
         report := p.report.(broken := p.report.broken + [BudgetLabel(cands[p.next].id)]))
    else
      Fill(cands, workers, p.(next := p.next + 1, submitted := p.submitted + [p.next], active := p.active + {p.next}),
           if grace.Some? then Some(grace.value - 1) else None)
  }

  // The finished commands below k, in index order.
  function Gather(cands: seq<Candidate>, failFast: bool, p: Pool, done: set<nat>, k: nat): Pool
    requires k <= |cands|
  {
    if k == 0 then p
    else
      var q := Gather(cands, failFast, p, done, k - 1);
      if k - 1 !in done || k - 1 !in q.active then q
      else
        var o := cands[k - 1].outcome;
        q.(active := q.active - {k - 1}, collected := q.collected + {k - 1}, report := Collect(q.report, o),
           stopped := q.stopped || (failFast && !o.Green?))
  }

  function LeastActive(p: Pool, k: nat): nat
    decreases p.next - k
  {
    if k in p.active || k >= p.next then k else LeastActive(p, k + 1)
  }

  // When nothing finishes in time the loop is left; one of the running commands is named.
  function GiveUp(cands: seq<Candidate>, p: Pool): Pool {
    var k := LeastActive(p, 0);
    p.(active := {}, stopped := true, expired := true,
       report := p.report.(broken := p.report.broken + if k < |cands| then [BudgetLabel(cands[k].id)] else []))
  }

  function Step(cands: seq<Candidate>, workers: nat, failFast: bool, p: Pool, w: Wait): Pool {
    match w
    case Finished(done, grace) => Fill(cands, workers, Gather(cands, failFast, p, done, |cands|), grace)
    case TimedOut => GiveUp(cands, p)
  }

  function Run(cands: seq<Candidate>, workers: nat, failFast: bool, grace: Option<nat>, waits: seq<Wait>): Pool {
    if waits == [] then Fill(cands, workers, START, grace)
    else Step(cands, workers, failFast, Run(cands, workers, failFast, grace, waits[..|waits| - 1]), waits[|waits| - 1])
  }

  // Each wait finds at least one running command finished, or times out under a budget.
  ghost predicate Possible(p: Pool, budget: bool, w: Wait) {
    match w
    case Finished(done, grace) => done != {} && done <= p.active && (grace.Some? ==> budget)
    case TimedOut => budget && p.active != {}
  }

  ghost predicate IsSchedule(cands: seq<Candidate>, workers: nat, failFast: bool, budget: bool, grace: Option<nat>,
                             waits: seq<Wait>) {
    if waits == [] then grace.Some? ==> budget
    else
      var before := waits[..|waits| - 1];
      IsSchedule(cands, workers, failFast, budget, grace, before)
      && Possible(Run(cands, workers, failFast, grace, before), budget, waits[|waits| - 1])
  }

  // ---------- Invariant ----------

  // How many commands of `some` below k had outcome o.
  function Count(cands: seq<Candidate>, some: set<nat>, k: nat, o: Outcome): nat
    requires k <= |cands|
  {
    if k == 0 then 0
    else Count(cands, some, k - 1, o) + if k - 1 in some && cands[k - 1].outcome == o then 1 else 0
  }

  ghost predicate Red(cands: seq<Candidate>, i: nat) {
    i < |cands| && !cands[i].outcome.Green?
  }

  // At most `workers` commands run; commands are started once each, in order.
  ghost predicate Orderly(n: nat, workers: nat, p: Pool) {
    && p.next <= n && |p.active| <= workers && p.active !! p.collected
    && |p.submitted| <= p.next && (forall k :: 0 <= k < |p.submitted| ==> p.submitted[k] == k)
    && (forall i :: i in p.active || i in p.collected ==> i < |p.submitted|)
    && p.report.ran == |p.collected|
    && (!p.expired ==> |p.submitted| == p.next && forall i: nat :: i < p.next ==> i in p.active || i in p.collected)
  }

  // The report holds the labels of the collected commands, and one more if the budget ran out.
  ghost predicate Reported(cands: seq<Candidate>, p: Pool) {
    && (forall x :: multiset(p.report.failures)[x] == Count(cands, p.collected, |cands|, Failed(x)))
    && (p.expired ==> p.report.broken != [])
    && (!p.expired ==> forall x :: multiset(p.report.broken)[x] == Count(cands, p.collected, |cands|, Broken(x)))
  }

  // Without an expired budget only a red command stops the pool.
  ghost predicate StoppedByRed(cands: seq<Candidate>, failFast: bool, p: Pool) {
    p.stopped && !p.expired ==> failFast && exists i :: i in p.collected && Red(cands, i)
  }

  ghost predicate Inv(cands: seq<Candidate>, workers: nat, failFast: bool, p: Pool) {
    Orderly(|cands|, workers, p) && Reported(cands, p) && StoppedByRed(cands, failFast, p)
  }

  lemma {:induction false} CountAdd(cands: seq<Candidate>, some: set<nat>, i: nat, k: nat, o: Outcome)
    requires k <= |cands| && i !in some
    ensures Count(cands, some + {i}, k, o) == Count(cands, some, k, o) + if i < k && cands[i].outcome == o then 1 else 0
  {
    if k > 0 { CountAdd(cands, some, i, k - 1, o); }
  }

  function Collected(cands: seq<Candidate>, failFast: bool, p: Pool, i: nat): Pool
    requires i < |cands|
  {
    var o := cands[i].outcome;
    p.(active := p.active - {i}, collected := p.collected + {i}, report := Collect(p.report, o),
       stopped := p.stopped || (failFast && !o.Green?))
  }

  lemma CollectedReported(cands: seq<Candidate>, failFast: bool, p: Pool, i: nat)
    requires Reported(cands, p) && i !in p.collected && i < |cands|
    ensures Reported(cands, Collected(cands, failFast, p, i))
  {
    forall o { CountAdd(cands, p.collected, i, |cands|, o); }
  }

  lemma CollectedInv(cands: seq<Candidate>, workers: nat, failFast: bool, p: Pool, i: nat)
    requires Inv(cands, workers, failFast, p) && i in p.active
    ensures Inv(cands, workers, failFast, Collected(cands, failFast, p, i))
  {
    CollectedReported(cands, failFast, p, i);
    var q := Collected(cands, failFast, p, i);
    assert |q.active| == |p.active| - 1 && |q.collected| == |p.collected| + 1;
    if failFast && !cands[i].outcome.Green? { assert i in q.collected && Red(cands, i); }
    assert forall j :: j in p.collected ==> j in q.collected;
  }

  lemma {:induction false} GatherInv(cands: seq<Candidate>, workers: nat, failFast: bool, p: Pool, done: set<nat>,
                                     k: nat)
    requires Inv(cands, workers, failFast, p) && k <= |cands|
    ensures Inv(cands, workers, failFast, Gather(cands, failFast, p, done, k))
  {
    hide Inv;
    if k > 0 {
      GatherInv(cands, workers, failFast, p, done, k - 1);
      var q := Gather(cands, failFast, p, done, k - 1);
      if k - 1 in done && k - 1 in q.active { CollectedInv(cands, workers, failFast, q, k - 1); }
    }
  }

  // Gathering moves exactly the finished running commands.
  lemma {:induction false} GatherMoves(cands: seq<Candidate>, failFast: bool, p: Pool, done: set<nat>, k: nat, i: nat)
    requires k <= |cands| && p.active !! p.collected
    ensures var q := Gather(cands, failFast, p, done, k);
      && (i in q.active <==> i in p.active && !(i < k && i in done))
      && (i in q.collected <==> i in p.collected || (i < k && i in done && i in p.active))
      && q.expired == p.expired && q.next == p.next
  {
    if k > 0 {
      GatherMoves(cands, failFast, p, done, k - 1, i);
      GatherMoves(cands, failFast, p, done, k - 1, k - 1);
    }
  }

  function Started(p: Pool): Pool {
    p.(next := p.next + 1, submitted := p.submitted + [p.next], active := p.active + {p.next})
  }

  lemma StartedInv(cands: seq<Candidate>, workers: nat, failFast: bool, p: Pool)
    requires Inv(cands, workers, failFast, p) && !p.stopped && |p.active| < workers && p.next < |cands| && !p.expired
    ensures Inv(cands, workers, failFast, Started(p))
  {
  }

  lemma {:induction false} FillInv(cands: seq<Candidate>, workers: nat, failFast: bool, p: Pool, grace: Option<nat>)
    requires Inv(cands, workers, failFast, p) && (p.expired ==> p.stopped)
    ensures var q := Fill(cands, workers, p, grace);
      && Inv(cands, workers, failFast, q) && (q.stopped || |q.active| >= workers || q.next >= |cands|)
      && q.collected == p.collected && (q.expired ==> q.stopped) && (grace.None? ==> q.expired == p.expired)
    decreases |cands| - p.next
  {
    if !p.stopped && |p.active| < workers && p.next < |cands| {
      if grace == Some(0) {
        var broken := p.report.broken + [BudgetLabel(cands[p.next].id)];
        assert multiset(broken) == multiset(p.report.broken) + multiset{BudgetLabel(cands[p.next].id)};
      } else {
        StartedInv(cands, workers, failFast, p);
        FillInv(cands, workers, failFast, Started(p), if grace.Some? then Some(grace.value - 1) else None);
      }
    }
  }

  lemma {:induction false} LeastActiveFound(p: Pool, k: nat, i: nat)
    requires i in p.active && k <= i < p.next
    ensures LeastActive(p, k) < p.next
    decreases p.next - k
  {
    if k !in p.active { LeastActiveFound(p, k + 1, i); }
  }

  lemma GiveUpInv(cands: seq<Candidate>, workers: nat, failFast: bool, p: Pool)
    requires Inv(cands, workers, failFast, p) && p.active != {}
    ensures Inv(cands, workers, failFast, GiveUp(cands, p))
  {
    var i :| i in p.active;
    LeastActiveFound(p, 0, i);
  }

  lemma {:induction false} RunInv(cands: seq<Candidate>, workers: nat, failFast: bool, budget: bool,
                                  grace: Option<nat>, waits: seq<Wait>)
    requires IsSchedule(cands, workers, failFast, budget, grace, waits)
    ensures var p := Run(cands, workers, failFast, grace, waits);
      && Inv(cands, workers, failFast, p) && (p.stopped || |p.active| >= workers || p.next >= |cands|)
      && (p.expired ==> p.stopped && budget)
  {
    if waits == [] {
      assert Inv(cands, workers, failFast, START) by {
        forall o { CountOfNone(cands, |cands|, o); }
      }
      FillInv(cands, workers, failFast, START, grace);
    } else {
      RunInv(cands, workers, failFast, budget, grace, waits[..|waits| - 1]);
      var before := Run(cands, workers, failFast, grace, waits[..|waits| - 1]);
      match waits[|waits| - 1]
      case Finished(done, more) =>
        GatherInv(cands, workers, failFast, before, done, |cands|);
        var q := Gather(cands, failFast, before, done, |cands|);
        GatherMoves(cands, failFast, before, done, |cands|, 0);
        GatherStays(cands, failFast, before, done, |cands|);
        FillInv(cands, workers, failFast, q, more);
      case TimedOut =>
        GiveUpInv(cands, workers, failFast, before);
    }
  }

  lemma {:induction false} GatherStays(cands: seq<Candidate>, failFast: bool, p: Pool, done: set<nat>, k: nat)
    requires k <= |cands|
    ensures p.stopped ==> Gather(cands, failFast, p, done, k).stopped
  {
    if k > 0 { GatherStays(cands, failFast, p, done, k - 1); }
  }

  lemma {:induction false} CountOfNone(cands: seq<Candidate>, k: nat, o: Outcome)
    requires k <= |cands|
    ensures Count(cands, {}, k, o) == 0
  {
    if k > 0 { CountOfNone(cands, k - 1, o); }
  }

  lemma FinishedCollects(cands: seq<Candidate>, workers: nat, failFast: bool, p: Pool, done: set<nat>,
                         grace: Option<nat>)
    requires Inv(cands, workers, failFast, p) && done != {} && done <= p.active
    ensures |Step(cands, workers, failFast, p, Finished(done, grace)).collected| > |p.collected|
  {
    var q := Gather(cands, failFast, p, done, |cands|);
    FillKeeps(cands, workers, q, grace);
    var i :| i in done;
    forall j ensures j in p.collected + {i} ==> j in q.collected { GatherMoves(cands, failFast, p, done, |cands|, j); }
    SubsetSize(p.collected + {i}, q.collected);
  }

  // Each wait that finishes commands collects at least one, so without a budget a schedule has at
  // most one wait per command.
  lemma {:induction false} SchedulesEnd(cands: seq<Candidate>, workers: nat, failFast: bool, grace: Option<nat>,
                                        waits: seq<Wait>)
    requires IsSchedule(cands, workers, failFast, false, grace, waits)
    ensures |waits| <= |Run(cands, workers, failFast, grace, waits).collected| <= |cands|
  {
    RunInv(cands, workers, failFast, false, grace, waits);
    BelowCount(Run(cands, workers, failFast, grace, waits).collected, |cands|);
    if waits != [] {
      var before, w := Run(cands, workers, failFast, grace, waits[..|waits| - 1]), waits[|waits| - 1];
      SchedulesEnd(cands, workers, failFast, grace, waits[..|waits| - 1]);
      RunInv(cands, workers, failFast, false, grace, waits[..|waits| - 1]);
      FinishedCollects(cands, workers, failFast, before, w.done, w.grace);
    }
  }

  lemma {:induction false} FillKeeps(cands: seq<Candidate>, workers: nat, p: Pool, grace: Option<nat>)
    ensures Fill(cands, workers, p, grace).collected == p.collected
    decreases |cands| - p.next
  {
    if !p.stopped && |p.active| < workers && p.next < |cands| && grace != Some(0) {
      FillKeeps(cands, workers, Started(p), if grace.Some? then Some(grace.value - 1) else None);
    }
  }

  lemma {:induction false} BelowCount(some: set<nat>, n: nat)
    requires forall i :: i in some ==> i < n
    ensures |some| <= n
    decreases n
  {
    if n == 0 {
      assert some == {};
    } else {
      BelowCount(some - {n - 1}, n - 1);
      SubsetSize(some, (some - {n - 1}) + {n - 1});
    }
  }

  // ---------- What a finished run reports ----------

  function Below(n: nat): (below: set<nat>)
    ensures forall i: nat :: i in below <==> i < n
    ensures |below| == n
  {
    if n == 0 then {} else Below(n - 1) + {n - 1}
  }

  lemma {:induction false} CountWithin(cands: seq<Candidate>, a: set<nat>, j: nat, b: set<nat>, k: nat, o: Outcome)
    requires j <= k <= |cands| && forall i :: i in a && i < j ==> i in b
    ensures Count(cands, a, j, o) <= Count(cands, b, k, o)
    decreases k
  {
    if j < k { CountWithin(cands, a, j, b, k - 1, o); }
    else if k > 0 { CountWithin(cands, a, j - 1, b, k - 1, o); }
  }

  lemma CountPositive(cands: seq<Candidate>, some: set<nat>, i: nat)
    requires i in some && i < |cands|
    ensures Count(cands, some, |cands|, cands[i].outcome) > 0
  {
    CountWithin(cands, some, i + 1, some, |cands|, cands[i].outcome);
  }

  lemma {:induction false} CountZero(cands: seq<Candidate>, some: set<nat>, k: nat, o: Outcome)
    requires k <= |cands| && !o.Green? && forall i :: i in some && i < k ==> cands[i].outcome.Green?
    ensures Count(cands, some, k, o) == 0
  {
    if k > 0 { CountZero(cands, some, k - 1, o); }
  }

  lemma {:induction false} CountedCommand(cands: seq<Candidate>, some: set<nat>, k: nat, o: Outcome) returns (i: nat)
    requires k <= |cands| && Count(cands, some, k, o) > 0
    ensures i < k && i in some && cands[i].outcome == o
  {
    if k - 1 in some && cands[k - 1].outcome == o { i := k - 1; } else { i := CountedCommand(cands, some, k - 1, o); }
  }

  lemma EmptyByCount(s: seq<string>)
    ensures s == [] <==> forall x :: multiset(s)[x] == 0
  {
    if s != [] {
      assert s[0] in multiset(s);
    }
  }

  // A run reports all green exactly when nothing it collected is red (and the budget did not run out).
  lemma GreenReport(cands: seq<Candidate>, p: Pool)
    requires Reported(cands, p) && forall i :: i in p.collected ==> i < |cands|
    ensures AllGreen(p.report) <==> !p.expired && forall i :: i in p.collected ==> cands[i].outcome.Green?
  {
    EmptyByCount(p.report.failures);
    EmptyByCount(p.report.broken);
    if !p.expired {
      if i :| i in p.collected && !cands[i].outcome.Green? {
        CountPositive(cands, p.collected, i);
        if cands[i].outcome.Failed? { assert multiset(p.report.failures)[cands[i].outcome.failure] > 0; }
        else { assert multiset(p.report.broken)[cands[i].outcome.reason] > 0; }
      } else {
        forall x
          ensures Count(cands, p.collected, |cands|, Failed(x)) == 0
        {
          CountZero(cands, p.collected, |cands|, Failed(x));
        }
        forall x
          ensures Count(cands, p.collected, |cands|, Broken(x)) == 0
        {
          CountZero(cands, p.collected, |cands|, Broken(x));
        }
      }
    }
  }

  ghost predicate EverythingGreen(cands: seq<Candidate>) {
    forall i :: 0 <= i < |cands| ==> cands[i].outcome.Green?
  }

  // Under any schedule, with or without fail-fast and budget, an all-green report of a finished
  // pool means that every command ran and was green.
  lemma PoolGreenIsTrue(cands: seq<Candidate>, workers: nat, failFast: bool, budget: bool, grace: Option<nat>,
                        waits: seq<Wait>)
    requires workers >= 1 && IsSchedule(cands, workers, failFast, budget, grace, waits)
    requires Run(cands, workers, failFast, grace, waits).active == {}
    ensures var p := Run(cands, workers, failFast, grace, waits);
      && (AllGreen(p.report) ==> p.report.ran == |cands| && EverythingGreen(cands))
      && (!budget ==> (AllGreen(p.report) <==> EverythingGreen(cands)))
  {
    RunInv(cands, workers, failFast, budget, grace, waits);
    var p := Run(cands, workers, failFast, grace, waits);
    GreenReport(cands, p);
    if AllGreen(p.report) {
      assert !p.stopped;
      assert p.collected == Below(|cands|);
    }
  }

  // ---------- The sequential loop, against every schedule ----------

  // The report on the first m commands, in order.
  function Prefix(cands: seq<Candidate>, m: nat): Report
    requires m <= |cands|
  {
    if m == 0 then EMPTY else Collect(Prefix(cands, m - 1), cands[m - 1].outcome)
  }

  predicate Starts(budget: bool, late: nat -> bool, j: nat) {
    !(budget && late(2 * j))
  }

  // Why the loop goes on past command j, from the start of command j to the start of the next.
  predicate GoesOn(cands: seq<Candidate>, failFast: bool, budget: bool, late: nat -> bool, j: nat)
    requires j < |cands|
  {
    Starts(budget, late, j) && !(budget && late(2 * j + 1)) && !(failFast && !cands[j].outcome.Green?)
  }

  // The loop reports a prefix of the commands. It stops before command m when the deadline has
  // passed, saying so, or after command m - 1 when that is red (with fail-fast) or the deadline has
  // passed, saying nothing.
  lemma {:induction false} SequentialIsPrefix(cands: seq<Candidate>, failFast: bool, budget: bool, late: nat -> bool,
                                              i: nat)
      returns (m: nat)
    requires i <= |cands|
    ensures var out := SequentialFrom(cands, failFast, budget, late, i, Prefix(cands, i));
      && i <= m <= |cands|
      && (forall j :: i <= j < m ==> Starts(budget, late, j))
      && (forall j :: i <= j < m - 1 ==> GoesOn(cands, failFast, budget, late, j))
      && if m < |cands| && !Starts(budget, late, m) && (m == i || GoesOn(cands, failFast, budget, late, m - 1))
         then out == Prefix(cands, m).(broken := Prefix(cands, m).broken + [BudgetLabel(cands[m].id)])
         else out == Prefix(cands, m) && (m < |cands| ==> m > i && !GoesOn(cands, failFast, budget, late, m - 1))
    decreases |cands| - i
  {
    m := i;
    if i < |cands| && Starts(budget, late, i) {
      assert Prefix(cands, i + 1) == Collect(Prefix(cands, i), cands[i].outcome);
      if GoesOn(cands, failFast, budget, late, i) {
        m := SequentialIsPrefix(cands, failFast, budget, late, i + 1);
      } else {
        m := i + 1;
      }
    }
  }

  lemma {:induction false} PrefixRan(cands: seq<Candidate>, m: nat)
    requires m <= |cands|
    ensures Prefix(cands, m).ran == m
    ensures AllGreen(Prefix(cands, m)) <==> forall j :: 0 <= j < m ==> cands[j].outcome.Green?
  {
    if m > 0 { PrefixRan(cands, m - 1); }
  }

  lemma {:induction false} PrefixFailures(cands: seq<Candidate>, m: nat, all: set<nat>, x: string)
    requires m <= |cands| && forall i: nat :: i < m ==> i in all
    ensures multiset(Prefix(cands, m).failures)[x] == Count(cands, all, m, Failed(x))
  {
    if m > 0 {
      PrefixFailures(cands, m - 1, all, x);
      var before, i: nat := Prefix(cands, m - 1), m - 1;
      assert i in all;
      match cands[i].outcome
      case Failed(f) => AppendCount(before.failures, f, x);
      case Green =>
      case Broken(_) =>
    }
  }

  lemma {:induction false} PrefixReasons(cands: seq<Candidate>, m: nat, all: set<nat>, x: string)
    requires m <= |cands| && forall i: nat :: i < m ==> i in all
    ensures multiset(Prefix(cands, m).broken)[x] == Count(cands, all, m, Broken(x))
  {
    if m > 0 {
      PrefixReasons(cands, m - 1, all, x);
      var before, i: nat := Prefix(cands, m - 1), m - 1;
      assert i in all;
      match cands[i].outcome
      case Broken(b) => AppendCount(before.broken, b, x);
      case Green =>
      case Failed(_) =>
    }
  }

  lemma AppendCount(s: seq<string>, y: string, x: string)
    ensures multiset(s + [y])[x] == multiset(s)[x] + if x == y then 1 else 0
  {
  }

  // Without budget and fail-fast the loop reports every command.
  lemma SequentialCoversAll(cands: seq<Candidate>, late: nat -> bool)
    ensures Sequential(cands, false, false, late) == Prefix(cands, |cands|)
  {
    var m := SequentialIsPrefix(cands, false, false, late, 0);
  }

  // Without budget and fail-fast, every schedule reports what the loop reports: the same number of
  // commands and the same labels, as multisets.
  lemma SchedulesAgree(cands: seq<Candidate>, workers: nat, grace: Option<nat>, waits: seq<Wait>, late: nat -> bool)
    requires workers >= 1 && IsSchedule(cands, workers, false, false, grace, waits)
    requires Run(cands, workers, false, grace, waits).active == {}
    ensures var p, r := Run(cands, workers, false, grace, waits).report, Sequential(cands, false, false, late);
      p.ran == r.ran == |cands| && multiset(p.failures) == multiset(r.failures)
      && multiset(p.broken) == multiset(r.broken)
  {
    SequentialCoversAll(cands, late);
    PrefixRan(cands, |cands|);
    AllCollected(cands, workers, grace, waits);
    SameLabels(cands, Run(cands, workers, false, grace, waits));
  }

  lemma AllCollected(cands: seq<Candidate>, workers: nat, grace: Option<nat>, waits: seq<Wait>)
    requires workers >= 1 && IsSchedule(cands, workers, false, false, grace, waits)
    requires Run(cands, workers, false, grace, waits).active == {}
    ensures var p := Run(cands, workers, false, grace, waits);
      Reported(cands, p) && !p.expired && p.collected == Below(|cands|) && p.report.ran == |cands|
  {
    RunInv(cands, workers, false, false, grace, waits);
  }

  lemma SameLabels(cands: seq<Candidate>, p: Pool)
    requires Reported(cands, p) && !p.expired && p.collected == Below(|cands|)
    ensures multiset(p.report.failures) == multiset(Prefix(cands, |cands|).failures)
    ensures multiset(p.report.broken) == multiset(Prefix(cands, |cands|).broken)
  {
    var r := Prefix(cands, |cands|);
    forall x
      ensures multiset(p.report.failures)[x] == multiset(r.failures)[x]
    {
      PrefixFailures(cands, |cands|, p.collected, x);
    }
    forall x
      ensures multiset(p.report.broken)[x] == multiset(r.broken)[x]
    {
      PrefixReasons(cands, |cands|, p.collected, x);
    }
  }

  // With fail-fast the loop reports the commands up to the first red one.
  lemma SequentialFailFast(cands: seq<Candidate>, late: nat -> bool) returns (m: nat)
    ensures m <= |cands| && Sequential(cands, true, false, late) == Prefix(cands, m)
    ensures forall j: nat :: j + 1 < m ==> cands[j].outcome.Green?
    ensures AllGreen(Prefix(cands, m)) <==> EverythingGreen(cands)
  {
    m := SequentialIsPrefix(cands, true, false, late, 0);
    PrefixRan(cands, m);
    forall j: nat | j + 1 < m ensures cands[j].outcome.Green? { assert GoesOn(cands, true, false, late, j); }
  }

  // With fail-fast, whatever the loop reports every schedule reports too, and both are all green
  // exactly when every command is.
  lemma FailFastCovers(cands: seq<Candidate>, workers: nat, grace: Option<nat>, waits: seq<Wait>, late: nat -> bool)
    requires workers >= 1 && IsSchedule(cands, workers, true, false, grace, waits)
    requires Run(cands, workers, true, grace, waits).active == {}
    ensures var p, r := Run(cands, workers, true, grace, waits).report, Sequential(cands, true, false, late);
      && r.ran <= p.ran && multiset(r.failures) <= multiset(p.failures) && multiset(r.broken) <= multiset(p.broken)
      && (AllGreen(p) <==> EverythingGreen(cands)) && (AllGreen(r) <==> EverythingGreen(cands))
  {
    PoolGreenIsTrue(cands, workers, true, false, grace, waits);
    var m := SequentialFailFast(cands, late);
    FailFastRan(cands, workers, grace, waits, m);
    PrefixRan(cands, m);
    PrefixCovered(cands, m, Run(cands, workers, true, grace, waits));
  }

  // A pool that fails fast has collected every command up to the first red one.
  lemma FailFastRan(cands: seq<Candidate>, workers: nat, grace: Option<nat>, waits: seq<Wait>, m: nat)
    requires workers >= 1 && IsSchedule(cands, workers, true, false, grace, waits)
    requires Run(cands, workers, true, grace, waits).active == {}
    requires m <= |cands| && forall j: nat :: j + 1 < m ==> cands[j].outcome.Green?
    ensures var p := Run(cands, workers, true, grace, waits);
      m <= p.report.ran && Reported(cands, p) && !p.expired && forall i: nat :: i < m ==> i in p.collected
  {
    RunInv(cands, workers, true, false, grace, waits);
    var p := Run(cands, workers, true, grace, waits);
    assert p.collected == Below(p.next);
    if p.stopped {
      var j :| j in p.collected && Red(cands, j);
      assert j in Below(p.next);
    }
  }

  lemma PrefixCovered(cands: seq<Candidate>, m: nat, p: Pool)
    requires m <= |cands| && Reported(cands, p) && !p.expired && forall i: nat :: i < m ==> i in p.collected
    ensures multiset(Prefix(cands, m).failures) <= multiset(p.report.failures)
    ensures multiset(Prefix(cands, m).broken) <= multiset(p.report.broken)
  {
    forall x ensures multiset(Prefix(cands, m).failures)[x] <= multiset(p.report.failures)[x] {
      PrefixFailures(cands, m, Below(|cands|), x);
      CountWithin(cands, Below(|cands|), m, p.collected, |cands|, Failed(x));
    }
    forall x ensures multiset(Prefix(cands, m).broken)[x] <= multiset(p.report.broken)[x] {
      PrefixReasons(cands, m, Below(|cands|), x);
      CountWithin(cands, Below(|cands|), m, p.collected, |cands|, Broken(x));
    }
  }

  // ---------- The budget of the sequential loop ----------

  // The deadline passes during command m - 1, everything up to it is green, and commands remain.
  ghost predicate CutShort(cands: seq<Candidate>, late: nat -> bool, m: nat) {
    && 0 < m < |cands| && late(2 * m - 1) && (forall q: nat :: q < 2 * m - 1 ==> !late(q))
    && forall j :: 0 <= j < m ==> cands[j].outcome.Green?
  }

  // Under a budget the loop can report all green without having run every command: exactly when the
  // deadline first passes while one of the commands but the last is running and all so far are green.
  lemma SequentialGreenExactly(cands: seq<Candidate>, failFast: bool, late: nat -> bool)
    ensures var r := Sequential(cands, failFast, true, late);
      AllGreen(r) && r.ran < |cands| <==> exists m: nat :: CutShort(cands, late, m)
  {
    var r := Sequential(cands, failFast, true, late);
    var m := SequentialIsPrefix(cands, failFast, true, late, 0);
    PrefixRan(cands, m);
    if AllGreen(r) && r.ran < |cands| {
      forall q: nat | q < 2 * m - 1 ensures !late(q) {
        var j := q / 2;
        assert Starts(true, late, j);
        if q != 2 * j { assert GoesOn(cands, failFast, true, late, j); }
      }
      assert CutShort(cands, late, m);
    }
    if k: nat :| CutShort(cands, late, k) {
      assert 2 * (k - 1) + 1 == 2 * k - 1 && !GoesOn(cands, failFast, true, late, k - 1);
      assert m <= k;
      assert forall j: nat :: j < k ==> Starts(true, late, j);
      assert forall j: nat :: j < k - 1 ==> GoesOn(cands, failFast, true, late, j);
    }
  }

  // It happens with every list of two or more commands that starts with a green one.
  lemma GreenThoughUnrun(cands: seq<Candidate>, failFast: bool)
    requires |cands| > 1 && cands[0].outcome.Green?
    ensures exists late: nat -> bool :: var r := Sequential(cands, failFast, true, late);
              AllGreen(r) && r.ran == 1 && LiveBucket(Unproven, r) == Conformant
  {
    var late: nat -> bool := q => q == 1;
    assert !Starts(true, late, 1) || !GoesOn(cands, failFast, true, late, 0);
    assert CutShort(cands, late, 1);
    SequentialGreenExactly(cands, failFast, late);
    var m := SequentialIsPrefix(cands, failFast, true, late, 0);
    PrefixRan(cands, m);
    assert AllGreen(Sequential(cands, failFast, true, late));
  }

  // ---------- The bucket a live verify gives a spec ----------

  datatype Bucket = Conformant | Drifted | BrokenVerify | Stale | Unproven | InProgress

  function LiveBucket(attested: Bucket, r: Report): Bucket {
    if r.failures != [] then Drifted
    else if r.broken != [] then BrokenVerify
    else if r.ran > 0 then if attested == Stale then Stale else Conformant
    else attested
  }

  // Without fail-fast the pool and the loop give every spec the same bucket; with fail-fast a spec
  // the loop finds drifted is drifted under every schedule.
  lemma BucketsAgree(cands: seq<Candidate>, workers: nat, failFast: bool, grace: Option<nat>, waits: seq<Wait>,
                     late: nat -> bool, attested: Bucket)
    requires workers >= 1 && IsSchedule(cands, workers, failFast, false, grace, waits)
    requires Run(cands, workers, failFast, grace, waits).active == {} && !attested.Drifted?
    ensures var p, r := Run(cands, workers, failFast, grace, waits).report, Sequential(cands, failFast, false, late);
      && (!failFast ==> LiveBucket(attested, p) == LiveBucket(attested, r))
      && (LiveBucket(attested, r) == Drifted ==> LiveBucket(attested, p) == Drifted)
  {
    var p, r := Run(cands, workers, failFast, grace, waits).report, Sequential(cands, failFast, false, late);
    if failFast {
      FailFastCovers(cands, workers, grace, waits, late);
    } else {
      SchedulesAgree(cands, workers, grace, waits, late);
    }
    assert r.failures != [] ==> r.failures[0] in multiset(r.failures) && p.failures != [];
    assert !failFast && p.failures != [] ==> p.failures[0] in multiset(p.failures);
    assert !failFast && p.broken != [] ==> p.broken[0] in multiset(p.broken);
    assert r.broken != [] ==> r.broken[0] in multiset(r.broken);
  }

  // With fail-fast the bucket depends on the schedule: two commands, one that cannot run and one
  // that fails, leave the spec broken when run one by one and drifted when both finish together.
  lemma FailFastBucketsDiffer(a: string, b: string, reason: string, failure: string, late: nat -> bool)
    ensures var cands := [Candidate(a, Broken(reason)), Candidate(b, Failed(failure))];
      var waits := [Finished({0, 1}, None)];
      var p := Run(cands, 2, true, None, waits);
      && IsSchedule(cands, 2, true, false, None, waits) && p.active == {}
      && LiveBucket(Conformant, p.report) == Drifted
      && LiveBucket(Conformant, Sequential(cands, true, false, late)) == BrokenVerify
  {
    var cands := [Candidate(a, Broken(reason)), Candidate(b, Failed(failure))];
    var waits: seq<Wait> := [Finished({0, 1}, None)];
    assert waits[..0] == [];
    var p1 := START.(next := 1, submitted := [0], active := {0});
    var p2 := START.(next := 2, submitted := [0, 1], active := {0, 1});
    assert Fill(cands, 2, p2, None) == p2;
    assert Fill(cands, 2, p1, None) == p2 by { assert p1.submitted + [1] == [0, 1] && p1.active + {1} == {0, 1}; }
    assert Fill(cands, 2, START, None) == p2 by { assert START.submitted + [0] == [0] && START.active + {0} == {0}; }
    assert Run(cands, 2, true, None, []) == p2;
    var q0 := Gather(cands, true, p2, {0, 1}, 0);
    var q1 := Gather(cands, true, p2, {0, 1}, 1);
    assert q1.active == {1} && q1.report == Report(1, [], [reason]) && q1.stopped;
    var q2 := Gather(cands, true, p2, {0, 1}, 2);
    assert q2.active == {} && q2.report == Report(2, [failure], [reason]) && q2.stopped;
    assert Step(cands, 2, true, p2, waits[0]) == Fill(cands, 2, q2, None) == q2;
    assert Sequential(cands, true, false, late) == Report(1, [], [reason]);
  }

  // ---------- The pool itself ----------

  method GatherDone(cands: seq<Candidate>, failFast: bool, p0: Pool, done: set<nat>) returns (p: Pool)
    ensures p == Gather(cands, failFast, p0, done, |cands|)
  {
    p := p0;
    for k := 0 to |cands|
      invariant p == Gather(cands, failFast, p0, done, k)
    {
      if k in done && k in p.active {
        var o := cands[k].outcome;
        p := p.(active := p.active - {k}, collected := p.collected + {k}, report := Collect(p.report, o),
                stopped := p.stopped || (failFast && !o.Green?));
      }
    }
  }

  // Which commands a wait finds finished, and when a budget runs out, is left open.
  method RunParallel(cands: seq<Candidate>, workers: nat, failFast: bool, budget: bool)
    returns (report: Report, ghost grace: Option<nat>, ghost waits: seq<Wait>)
    requires workers >= 1
    ensures IsSchedule(cands, workers, failFast, budget, grace, waits)
    ensures var p := Run(cands, workers, failFast, grace, waits); p.active == {} && report == p.report
  {
    var more: Option<nat> :| budget || more == None;
    grace, waits := more, [];
    var p := Fill(cands, workers, START, more);
    while p.active != {}
      invariant IsSchedule(cands, workers, failFast, budget, grace, waits)
                && p == Run(cands, workers, failFast, grace, waits)
      decreases |cands| - |p.collected|, |p.active|
    {
      RunInv(cands, workers, failFast, budget, grace, waits);
      var timedOut: bool :| timedOut ==> budget;
      if timedOut {
        assert (waits + [TimedOut])[..|waits|] == waits;
        waits := waits + [TimedOut];
        p := GiveUp(cands, p);
        break;
      }
      var done: set<nat> :| done != {} && done <= p.active;
      more :| budget || more == None;
      assert (waits + [Finished(done, more)])[..|waits|] == waits;
      FinishedCollects(cands, workers, failFast, p, done, more);
      p := GatherDone(cands, failFast, p, done);
      p := Fill(cands, workers, p, more);
      waits := waits + [Finished(done, more)];
      RunInv(cands, workers, failFast, budget, grace, waits);
      BelowCount(p.collected, |cands|);
    }
    report := p.report;
  }
}
