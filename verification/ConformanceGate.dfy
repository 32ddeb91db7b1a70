/** From live verify reports to the standing gate (apatch/conformance.py: classify_attestation,
    conformance_status, conformance_gate). Specs are evaluated by workers that finish in any order, and
    the commands of each spec run one by one or in a pool; there is no time budget here. */
module ConformanceGate {
  import opened Common
  import opened FailFastPool
  import opened VerifyPool

  datatype Summary = Summary(total: int, attested: int, stale: int, blocked: int, pending: int)

  // How the commands of a spec are run.
  datatype Way = InOrder(late: nat -> bool) | InPool(workers: nat, waits: seq<Wait>)

  // A gated spec: whether its status can be read, whether it names a verify command, whether it is
  // to be run live (no base is given, or its files changed since), its attestation, and its commands.
  datatype Spec = Spec(id: string, readable: bool, hasVerify: bool, touched: bool, summary: Summary,
                       cands: seq<Candidate>, way: Way)

  datatype Gate = Passed | GateFailed | Advisory

  // ---------- One spec ----------

  // classify_attestation
  function ClassifyAttestation(s: Summary): (b: Bucket)
    ensures b != Drifted && b != BrokenVerify
    ensures b == Conformant <==> s.attested == s.total != 0 && s.stale == s.blocked == 0
    ensures b == Stale <==> s.total != 0 && s.stale > 0
    ensures b == Unproven <==> s.total == 0 || (s.attested == 0 && s.stale <= 0 && s.pending == s.total)
  {
    if s.total == 0 then Unproven
    else if s.attested == s.total && s.stale == 0 && s.blocked == 0 then Conformant
    else if s.stale > 0 then Stale
    else if s.attested == 0 && s.pending == s.total then Unproven
    else InProgress
  }

  ghost predicate IsWay(cands: seq<Candidate>, failFast: bool, way: Way) {
    way.InPool? ==>
      && way.workers >= 1 && IsSchedule(cands, way.workers, failFast, false, None, way.waits)
      && Run(cands, way.workers, failFast, None, way.waits).active == {}
  }

  function ReportOf(cands: seq<Candidate>, failFast: bool, way: Way): Report {
    match way
    case InOrder(late) => Sequential(cands, failFast, false, late)
    case InPool(workers, waits) => Run(cands, workers, failFast, None, waits).report
  }

  predicate RunsLive(s: Spec, live: bool) {
    live && s.hasVerify && s.touched
  }

  function Evaluate(s: Spec, live: bool, failFast: bool): Bucket {
    if !s.readable then Unproven
    else
      var attested := ClassifyAttestation(s.summary);
      if RunsLive(s, live) then LiveBucket(attested, ReportOf(s.cands, failFast, s.way)) else attested
  }

  // The verdict on a spec that cannot be read, one that does not run live, and one that does.
  lemma EvaluateExactly(s: Spec, live: bool, failFast: bool)
    ensures !s.readable ==> Evaluate(s, live, failFast) == Unproven
    ensures s.readable && !(live && s.hasVerify && s.touched) ==>
              Evaluate(s, live, failFast) == ClassifyAttestation(s.summary)
    ensures s.readable && live && s.hasVerify && s.touched ==>
              var r, b := ReportOf(s.cands, failFast, s.way), Evaluate(s, live, failFast);
              && (b == Drifted <==> r.failures != [])
              && (b == BrokenVerify <==> r.failures == [] && r.broken != [])
              && (r.failures == [] == r.broken && r.ran > 0 ==>
                    b == if s.summary.total != 0 && s.summary.stale > 0
                            && !(s.summary.attested == s.summary.total && s.summary.stale == 0
                                 && s.summary.blocked == 0)
                         then Stale else Conformant)
              && (r.failures == [] == r.broken && r.ran == 0 ==> b == ClassifyAttestation(s.summary))
  {
  }

  // In a pool: what is reported failing did fail, and without fail-fast every failing command is
  // reported; with fail-fast at least when the first red command is a failing one.
  lemma InPoolFails(cands: seq<Candidate>, failFast: bool, workers: nat, waits: seq<Wait>)
    requires IsWay(cands, failFast, InPool(workers, waits))
    ensures var r := Run(cands, workers, failFast, None, waits).report;
      && (r.failures != [] ==> HasFailing(cands))
      && ((if failFast then FailsFirst(cands) else HasFailing(cands)) ==> r.failures != [])
  {
    var p := Run(cands, workers, failFast, None, waits);
    RunInv(cands, workers, failFast, false, None, waits);
    if p.report.failures != [] {
      var x := p.report.failures[0];
      assert multiset(p.report.failures)[x] > 0;
      var i := CountedCommand(cands, p.collected, |cands|, Failed(x));
    }
    var late := (n: nat) => false;
    InOrderFails(cands, failFast, late);
    var r := Sequential(cands, failFast, false, late);
    if r.failures != [] {
      if failFast {
        FailFastCovers(cands, workers, None, waits, late);
      } else {
        SchedulesAgree(cands, workers, None, waits, late);
      }
      assert r.failures[0] in multiset(r.failures);
      assert r.failures[0] in multiset(p.report.failures);
    }
  }

  // A spec is drifted only for a command that failed; without fail-fast for every such command.
  lemma DriftedExactly(s: Spec, live: bool, failFast: bool)
    requires IsWay(s.cands, failFast, s.way)
    ensures Evaluate(s, live, failFast) == Drifted ==> s.readable && RunsLive(s, live) && HasFailing(s.cands)
    ensures s.readable && RunsLive(s, live) && (if failFast then FailsFirst(s.cands) else HasFailing(s.cands)) ==>
              Evaluate(s, live, failFast) == Drifted
    ensures s.way.InOrder? && failFast ==>
              (Evaluate(s, live, failFast) == Drifted <==> s.readable && RunsLive(s, live) && FailsFirst(s.cands))
  {
    match s.way
    case InOrder(late) => InOrderFails(s.cands, failFast, late);
    case InPool(workers, waits) => InPoolFails(s.cands, failFast, workers, waits);
  }

  // ---------- The contract ----------

  // The ids of the specs in a bucket, in contract order.
  function InBucket(specs: seq<Spec>, verdicts: seq<Bucket>, b: Bucket): seq<string>
    requires |specs| == |verdicts|
  {
    if specs == [] then []
    else
      var last := |specs| - 1;
      InBucket(specs[..last], verdicts[..last], b) + if verdicts[last] == b then [specs[last].id] else []
  }

  lemma {:induction false} InBucketFound(specs: seq<Spec>, verdicts: seq<Bucket>, b: Bucket)
    requires |specs| == |verdicts|
    ensures InBucket(specs, verdicts, b) != [] <==> b in verdicts
  {
    if specs != [] {
      var last := |specs| - 1;
      InBucketFound(specs[..last], verdicts[..last], b);
      assert verdicts == verdicts[..last] + [verdicts[last]];
    }
  }

  // Every gated spec is in exactly one bucket.
  lemma {:induction false} BucketsPartition(specs: seq<Spec>, verdicts: seq<Bucket>)
    requires |specs| == |verdicts|
    ensures |InBucket(specs, verdicts, Conformant)| + |InBucket(specs, verdicts, Drifted)|
          + |InBucket(specs, verdicts, BrokenVerify)| + |InBucket(specs, verdicts, Stale)|
          + |InBucket(specs, verdicts, Unproven)| + |InBucket(specs, verdicts, InProgress)| == |specs|
  {
    if specs != [] {
      var last := |specs| - 1;
      BucketsPartition(specs[..last], verdicts[..last]);
    }
  }

  function Verdicts(specs: seq<Spec>, live: bool, failFast: bool): (v: seq<Bucket>)
    ensures |v| == |specs|
  {
    seq(|specs|, i requires 0 <= i < |specs| => Evaluate(specs[i], live, failFast))
  }

  // The evaluations come in the order their workers finish and are stored by index; whatever that
  // order is, the verdicts are those of the contract in its own order.
  method CollectVerdicts(specs: seq<Spec>, live: bool, failFast: bool, finished: seq<nat>)
      returns (verdicts: seq<Bucket>)
    requires forall i: nat :: i < |specs| <==> i in finished
    ensures verdicts == Verdicts(specs, live, failFast)
  {
    var results: map<nat, Bucket> := map[];
    for k := 0 to |finished|
      invariant forall i: nat :: i in results <==> i in finished[..k]
      invariant forall i: nat :: i in results ==> i < |specs| && results[i] == Evaluate(specs[i], live, failFast)
    {
      var index := finished[k];
      assert index in finished;
      assert finished[..k + 1] == finished[..k] + [index];
      results := results[index := Evaluate(specs[index], live, failFast)];
    }
    assert finished[..|finished|] == finished;
    verdicts := [];
    for i := 0 to |specs|
      invariant |verdicts| == i && forall j :: 0 <= j < i ==> verdicts[j] == Evaluate(specs[j], live, failFast)
    {
      verdicts := verdicts + [if i in results then results[i] else BrokenVerify];
    }
  }

  // resolve_block_on: the configured buckets that exist, and drifted if none do.
  function BlockOn(configured: seq<Option<Bucket>>): (chosen: set<Bucket>)
    ensures chosen != {}
  {
    var known := set b | b in configured && b.Some? :: b.value;
    if known == {} then {Drifted} else known
  }

  // A bucket blocks iff it is configured, or it is drifted and no known bucket is.
  lemma BlockOnExactly(configured: seq<Option<Bucket>>, b: Bucket)
    ensures b in BlockOn(configured)
       <==> Some(b) in configured || (b == Drifted && forall c :: c in configured ==> c == None)
  {
    var known := set c | c in configured && c.Some? :: c.value;
    if Some(b) in configured { assert b in known; }
    if b in known {
      var c :| c in configured && c.Some? && c.value == b;
      assert c == Some(b);
    }
    if c :| c in configured && c != None { assert c.value in known; }
  }

  function GateOf(verdicts: seq<Bucket>, blockOn: set<Bucket>, blocking: bool): Gate {
    if !(exists i :: 0 <= i < |verdicts| && verdicts[i] in blockOn) then Passed
    else if blocking then GateFailed else Advisory
  }

  lemma NoneBlocked(verdicts: seq<Bucket>, blockOn: set<Bucket>)
    ensures (forall b :: b in blockOn ==> b !in verdicts)
       <==> forall i :: 0 <= i < |verdicts| ==> verdicts[i] !in blockOn
  {
    if b :| b in blockOn && b in verdicts {
      var i :| 0 <= i < |verdicts| && verdicts[i] == b;
      assert verdicts[i] in blockOn;
    }
  }

  // The gate passes iff no spec is in a configured bucket, nor in drifted when no known one is configured;
  // otherwise it fails in blocking mode and advises in the other.
  lemma GateExactly(verdicts: seq<Bucket>, configured: seq<Option<Bucket>>, blocking: bool)
    ensures var g := GateOf(verdicts, BlockOn(configured), blocking);
      && (g == Passed <==> forall i :: 0 <= i < |verdicts| ==>
            Some(verdicts[i]) !in configured && (verdicts[i] == Drifted ==> exists c :: c in configured && c != None))
      && (g == GateFailed ==> blocking) && (g == Advisory ==> !blocking)
  {
    forall b { BlockOnExactly(configured, b); }
    hide BlockOn;
  }

  // conformance_gate of an enabled project.
  method JudgeGate(specs: seq<Spec>, live: bool, failFast: bool, finished: seq<nat>, configured: seq<Option<Bucket>>,
                   blocking: bool) returns (g: Gate)
    requires forall i: nat :: i < |specs| <==> i in finished
    ensures g == GateOf(Verdicts(specs, live, failFast), BlockOn(configured), blocking)
  {
    var verdicts := CollectVerdicts(specs, live, failFast, finished);
    var holds := true;
    var todo := BlockOn(configured);
    while todo != {}
      invariant todo <= BlockOn(configured)
      invariant holds <==> forall b :: b in BlockOn(configured) - todo ==> b !in verdicts
      decreases |todo|
    {
      var b :| b in todo;
      InBucketFound(specs, verdicts, b);
      if InBucket(specs, verdicts, b) != [] { holds := false; }
      todo := todo - {b};
    }
    NoneBlocked(verdicts, BlockOn(configured));
    g := if holds then Passed else if blocking then GateFailed else Advisory;
  }

  // The default policy in blocking mode fails only for a command that failed; without fail-fast it
  // fails exactly when some gated, touched spec has one, under every schedule of specs and commands.
  lemma DefaultGateExactly(specs: seq<Spec>, live: bool, failFast: bool)
    requires forall i :: 0 <= i < |specs| ==> IsWay(specs[i].cands, failFast, specs[i].way)
    ensures var g := GateOf(Verdicts(specs, live, failFast), BlockOn([]), true);
      var failing :=
        exists i :: 0 <= i < |specs| && specs[i].readable && RunsLive(specs[i], live) && HasFailing(specs[i].cands);
      (g == GateFailed ==> failing) && (!failFast && failing ==> g == GateFailed)
  {
    assert BlockOn([]) == {Drifted};
    forall i | 0 <= i < |specs| { DriftedExactly(specs[i], live, failFast); }
    if i :| 0 <= i < |specs| && specs[i].readable && RunsLive(specs[i], live) && HasFailing(specs[i].cands) {
      assert Verdicts(specs, live, failFast)[i] == Evaluate(specs[i], live, failFast);
    }
  }

  // With fail-fast and every spec's commands run one by one, the gate passes although a command fails
  // exactly when in every spec that has one a command that cannot run comes before it.
  lemma InOrderGateExactly(specs: seq<Spec>, live: bool)
    requires forall i :: 0 <= i < |specs| ==> specs[i].way.InOrder?
    ensures GateOf(Verdicts(specs, live, true), BlockOn([]), true) == Passed
       <==> forall i :: 0 <= i < |specs| && specs[i].readable && RunsLive(specs[i], live) ==>
         !FailsFirst(specs[i].cands)
  {
    assert BlockOn([]) == {Drifted};
    forall i | 0 <= i < |specs| { DriftedExactly(specs[i], live, true); }
    var v := Verdicts(specs, live, true);
    assert forall i :: 0 <= i < |v| ==> v[i] == Evaluate(specs[i], live, true);
  }

  // ---------- The gate over all schedules ----------

  function WorkersOf(way: Way): nat {
    if way.InOrder? then 1 else way.workers
  }

  predicate SameKind(a: Way, b: Way) {
    a.InOrder? == b.InOrder? && WorkersOf(a) == WorkersOf(b)
  }

  predicate Judged(s: Spec, live: bool) {
    s.readable && RunsLive(s, live)
  }

  // No failing command need be reported: none fails, or the first one that does is not among the
  // first `workers` and a command that cannot run comes before it.
  ghost predicate MayMiss(cands: seq<Candidate>, workers: nat) {
    NoneFails(cands) || exists f :: IsFirstFailing(cands, f) && workers <= f && BrokenBefore(cands, f)
  }

  // A failing command may be reported: fewer commands than there are workers are red before it.
  ghost predicate MayCatch(cands: seq<Candidate>, workers: nat) {
    exists f :: IsFirstFailing(cands, f) && |Reds(cands, f)| < workers
  }

  lemma FirstFailingIsUnique(cands: seq<Candidate>, f: nat)
    requires IsFirstFailing(cands, f)
    ensures !NoneFails(cands) && HasFailing(cands) && forall g :: IsFirstFailing(cands, g) ==> g == f
  {
  }

  // One by one the loop itself says which of the two it is.
  lemma LoopMissesOrCatches(cands: seq<Candidate>)
    ensures FailsFirst(cands) <==> MayCatch(cands, 1)
    ensures !FailsFirst(cands) <==> MayMiss(cands, 1)
  {
    if !NoneFails(cands) {
      var f := FirstFailing(cands);
      FirstFailingIsUnique(cands, f);
      FailsFirstExactly(cands, f);
      RedsOfNone(cands, f);
    }
  }

  lemma RedsOfNone(cands: seq<Candidate>, f: nat)
    requires IsFirstFailing(cands, f)
    ensures Reds(cands, f) == {} <==> !BrokenBefore(cands, f)
  {
    if b :| 0 <= b < f && cands[b].outcome.Broken? { assert b in Reds(cands, f); }
    if i: nat :| i in Reds(cands, f) { assert cands[i].outcome.Broken?; }
  }

  // What the verdict on one spec says, whatever the schedule.
  lemma VerdictBounds(s: Spec, live: bool)
    requires IsWay(s.cands, true, s.way)
    ensures Evaluate(s, live, true) == Drifted ==> Judged(s, live) && MayCatch(s.cands, WorkersOf(s.way))
    ensures Evaluate(s, live, true) != Drifted && Judged(s, live) ==> MayMiss(s.cands, WorkersOf(s.way))
  {
    if Judged(s, live) {
      match s.way
      case InOrder(late) =>
        InOrderFails(s.cands, true, late);
        LoopMissesOrCatches(s.cands);
      case InPool(workers, waits) => PoolBounds(s.cands, workers, waits);
    }
  }

  lemma PoolBounds(cands: seq<Candidate>, workers: nat, waits: seq<Wait>)
    requires workers >= 1 && IsFinished(cands, workers, waits)
    ensures PoolReport(cands, workers, waits).failures != [] ==> MayCatch(cands, workers)
    ensures PoolReport(cands, workers, waits).failures == [] ==> MayMiss(cands, workers)
  {
    if NoneFails(cands) {
      NothingToReport(cands, workers, waits);
    } else {
      var f := FirstFailing(cands);
      MissesExactly(cands, workers, f);
      CatchesExactly(cands, workers, f);
    }
  }

  // Some schedule misses every failing command of a spec iff it may be missed.
  lemma MissingWay(s: Spec, live: bool) returns (way: Way)
    requires IsWay(s.cands, true, s.way) && (Judged(s, live) ==> MayMiss(s.cands, WorkersOf(s.way)))
    ensures IsWay(s.cands, true, way) && SameKind(s.way, way) && Evaluate(s.(way := way), live, true) != Drifted
  {
    way := s.way;
    if Judged(s, live) {
      match s.way
      case InOrder(late) =>
        InOrderFails(s.cands, true, late);
        LoopMissesOrCatches(s.cands);
      case InPool(workers, waits) =>
        if NoneFails(s.cands) {
          NothingToReport(s.cands, workers, waits);
        } else {
          var f :| IsFirstFailing(s.cands, f) && workers <= f && BrokenBefore(s.cands, f);
          var missing := MissingSchedule(s.cands, workers, f);
          way := InPool(workers, missing);
        }
    }
  }

  // Some schedule reports a failing command of a spec iff it may be caught.
  lemma CatchingWay(s: Spec, live: bool) returns (way: Way)
    requires IsWay(s.cands, true, s.way) && Judged(s, live) && MayCatch(s.cands, WorkersOf(s.way))
    ensures IsWay(s.cands, true, way) && SameKind(s.way, way) && Evaluate(s.(way := way), live, true) == Drifted
  {
    way := s.way;
    match s.way
    case InOrder(late) =>
      InOrderFails(s.cands, true, late);
      LoopMissesOrCatches(s.cands);
    case InPool(workers, _) =>
      var f :| IsFirstFailing(s.cands, f) && |Reds(s.cands, f)| < workers;
      var catching := CatchingSchedule(s.cands, workers, f);
      way := InPool(workers, catching);
  }

  ghost predicate IsChoice(specs: seq<Spec>, ways: seq<Way>) {
    |ways| == |specs| && forall i :: 0 <= i < |specs| ==>
      IsWay(specs[i].cands, true, ways[i]) && SameKind(specs[i].way, ways[i])
  }

  function Scheduled(specs: seq<Spec>, ways: seq<Way>): (r: seq<Spec>)
    requires |ways| == |specs|
    ensures |r| == |specs| && forall i :: 0 <= i < |r| ==> r[i] == specs[i].(way := ways[i])
  {
    seq(|specs|, i requires 0 <= i < |specs| => specs[i].(way := ways[i]))
  }

  // The answer of the default blocking gate when the specs' commands run in these ways.
  function DefaultGate(specs: seq<Spec>, ways: seq<Way>, live: bool): Gate
    requires |ways| == |specs|
  {
    GateOf(Verdicts(Scheduled(specs, ways), live, true), BlockOn([]), true)
  }

  lemma DefaultGateFails(specs: seq<Spec>, ways: seq<Way>, live: bool)
    requires |ways| == |specs|
    ensures DefaultGate(specs, ways, live) == Passed || DefaultGate(specs, ways, live) == GateFailed
    ensures DefaultGate(specs, ways, live) == GateFailed
       <==> exists i :: 0 <= i < |specs| && Evaluate(specs[i].(way := ways[i]), live, true) == Drifted
  {
    assert BlockOn([]) == {Drifted};
    var v := Verdicts(Scheduled(specs, ways), live, true);
    assert forall i :: 0 <= i < |v| ==> v[i] == Evaluate(specs[i].(way := ways[i]), live, true);
  }

  lemma {:induction false} MissingWays(specs: seq<Spec>, live: bool) returns (ways: seq<Way>)
    requires forall s :: s in specs ==>
               IsWay(s.cands, true, s.way) && (Judged(s, live) ==> MayMiss(s.cands, WorkersOf(s.way)))
    ensures IsChoice(specs, ways)
    ensures forall i :: 0 <= i < |specs| ==> Evaluate(specs[i].(way := ways[i]), live, true) != Drifted
  {
    hide IsWay, MayMiss, Evaluate;
    if specs == [] {
      ways := [];
    } else {
      var rest := MissingWays(specs[1..], live);
      assert specs[0] in specs;
      var way := MissingWay(specs[0], live);
      ways := [way] + rest;
    }
  }

  // With fail-fast, which is the default, and workers of any number for every spec: some schedules let
  // the gate pass iff every judged spec may miss its failing commands, and some fail it iff one may
  // catch them.
  lemma FailFastGateExactly(specs: seq<Spec>, live: bool)
    requires forall s :: s in specs ==> IsWay(s.cands, true, s.way)
    ensures (exists ways :: IsChoice(specs, ways) && DefaultGate(specs, ways, live) == Passed)
       <==> forall s :: s in specs && Judged(s, live) ==> MayMiss(s.cands, WorkersOf(s.way))
    ensures (exists ways :: IsChoice(specs, ways) && DefaultGate(specs, ways, live) == GateFailed)
       <==> exists s :: s in specs && Judged(s, live) && MayCatch(s.cands, WorkersOf(s.way))
  {
    hide IsWay, MayMiss, MayCatch, Evaluate, DefaultGate;
    if ways :| IsChoice(specs, ways) && DefaultGate(specs, ways, live) == Passed { PassedBounds(specs, ways, live); }
    if forall s :: s in specs && Judged(s, live) ==> MayMiss(s.cands, WorkersOf(s.way)) {
      var ways := MissingWays(specs, live);
      DefaultGateFails(specs, ways, live);
    }
    if ways :| IsChoice(specs, ways) && DefaultGate(specs, ways, live) == GateFailed {
      FailedBounds(specs, ways, live);
    }
    if s :| s in specs && Judged(s, live) && MayCatch(s.cands, WorkersOf(s.way)) {
      var ways := FailingWays(specs, live, s);
    }
  }

  lemma PassedBounds(specs: seq<Spec>, ways: seq<Way>, live: bool)
    requires IsChoice(specs, ways) && DefaultGate(specs, ways, live) == Passed
    ensures forall s :: s in specs && Judged(s, live) ==> MayMiss(s.cands, WorkersOf(s.way))
  {
    hide IsWay, MayMiss, MayCatch, Evaluate, DefaultGate;
    DefaultGateFails(specs, ways, live);
    forall s | s in specs && Judged(s, live) ensures MayMiss(s.cands, WorkersOf(s.way)) {
      var i :| 0 <= i < |specs| && specs[i] == s;
      VerdictBounds(s.(way := ways[i]), live);
    }
  }

  lemma FailedBounds(specs: seq<Spec>, ways: seq<Way>, live: bool)
    requires IsChoice(specs, ways) && DefaultGate(specs, ways, live) == GateFailed
    ensures exists s :: s in specs && Judged(s, live) && MayCatch(s.cands, WorkersOf(s.way))
  {
    hide IsWay, MayMiss, MayCatch, Evaluate, DefaultGate;
    DefaultGateFails(specs, ways, live);
    var i :| 0 <= i < |specs| && Evaluate(specs[i].(way := ways[i]), live, true) == Drifted;
    VerdictBounds(specs[i].(way := ways[i]), live);
    assert specs[i] in specs;
  }

  lemma FailingWays(specs: seq<Spec>, live: bool, s: Spec) returns (ways: seq<Way>)
    requires forall t :: t in specs ==> IsWay(t.cands, true, t.way)
    requires s in specs && Judged(s, live) && MayCatch(s.cands, WorkersOf(s.way))
    ensures IsChoice(specs, ways) && DefaultGate(specs, ways, live) == GateFailed
  {
    hide IsWay, MayMiss, MayCatch, Evaluate, DefaultGate;
    var i :| 0 <= i < |specs| && specs[i] == s;
    var way := CatchingWay(s, live);
    ways := seq(|specs|, k requires 0 <= k < |specs| => specs[k].way)[i := way];
    DefaultGateFails(specs, ways, live);
    assert Evaluate(specs[i].(way := ways[i]), live, true) == Drifted;
  }
}
