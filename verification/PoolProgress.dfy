/**
 * Every step of the worker pool but the publication of a batch, the destruction of the pool and a
 * spurious wake-up leaves less to do. A batch is therefore through after a bounded number of steps, and
 * for every list of jobs there is a run that reports it.
 */
module PoolProgress {
  import opened Common
  import opened DecompressionPool
  import JobQueue
  import QueueProgress

  function WorkerCost(s: Pool, i: nat): nat
    requires Worker?(s, i)
  {
    (if HasWork(s, i) then 10 else 0) +
    match s.w[i]
    case Check => 1
    case Busy => 5
    case Report => 3
    case _ => 0
  }

  function WorkerCosts(s: Pool): seq<nat>
    requires Shape(s)
  {
    seq(|s.w|, i requires 0 <= i < |s.w| => WorkerCost(s, i))
  }

  function CallerCost(c: Caller): nat {
    match c
    case Overlap => 10
    case Helping => 5
    case Finish => 1
    case _ => 0
  }

  ghost function QueueCost(s: Pool): nat {
    if s.active && |s.q.owner| <= |s.q.jobs| then QueueProgress.Work(s.q) else 0
  }

  /** What is left to do in the current batch. */
  ghost function Work(s: Pool): nat
    requires Shape(s)
  {
    QueueCost(s) + Sum(WorkerCosts(s)) + CallerCost(s.c)
  }

  predicate Spurious(step: Step) { step.CallerSpurious? || step.WorkerSpurious? }

  /** A step that begins something new. */
  predicate Begins(step: Step) { step.StartBatch? || step.Destroy? }

  /** A participant enters or leaves the queue. */
  lemma {:induction false} QueueSet(s: Pool, s': Pool, p: nat)
    requires Inv(s) && s.active && s'.active && p < |s.q.pcs| == |s'.q.pcs|
    requires s'.q == s.q.(pcs := s.q.pcs[p := s'.q.pcs[p]])
    ensures QueueCost(s') == QueueCost(s) - QueueProgress.PcCost(s.q, p) + QueueProgress.PcCost(s'.q, p)
  {
    QueueProgress.OnlyMoved(s.q, s'.q, p);
  }

  lemma {:induction false} OneWorker(s: Pool, s': Pool, i: nat)
    requires Worker?(s, i) && Shape(s') && |s'.w| == |s.w|
    requires forall r :: 0 <= r < |s.w| && r != i ==> WorkerCost(s', r) == WorkerCost(s, r)
    ensures Sum(WorkerCosts(s')) == Sum(WorkerCosts(s)) - WorkerCost(s, i) + WorkerCost(s', i)
  {
    assert WorkerCosts(s') == WorkerCosts(s)[i := WorkerCost(s', i)];
    SumUpdate(WorkerCosts(s), i, WorkerCost(s', i));
  }

  lemma {:induction false} NoWorker(s: Pool, s': Pool)
    requires Shape(s) && Shape(s') && |s'.w| == |s.w|
    requires forall r :: 0 <= r < |s.w| ==> WorkerCost(s', r) == WorkerCost(s, r)
    ensures Sum(WorkerCosts(s')) == Sum(WorkerCosts(s))
  {
    assert WorkerCosts(s') == WorkerCosts(s);
  }

  lemma {:induction false} QueueStepWork(s: Pool, s': Pool, p: nat)
    requires Inv(s) && s.active && JobQueue.Enabled(s.q, p) && s' == s.(q := JobQueue.Step(s.q, p)) && Shape(s')
    ensures Work(s') < Work(s)
  {
    QueueProgress.StepWork(s.q, p);
    NoWorker(s, s');
  }

  lemma {:induction false} CallerWork(s: Pool, s': Pool, step: Step)
    requires Inv(s) && NextStep(s, s', step) && Shape(s') && (step.CallerWorkDone? || step.CallerLeave?)
    ensures Work(s') < Work(s)
  {
    QueueSet(s, s', CallerId(s));
    NoWorker(s, s');
  }

  lemma {:induction false} FinishWork(s: Pool, s': Pool)
    requires Inv(s) && NextStep(s, s', CallerFinish) && Shape(s')
    ensures Work(s') < Work(s)
  {
    if s.pending == 0 {
      NothingOutstanding(s);
      forall i | 0 <= i < |s.w|
        ensures WorkerCost(s', i) == WorkerCost(s, i)
      {
        assert !Outstanding(s, i);
      }
    }
    NoWorker(s, s');
  }

  lemma {:induction false} TestWork(s: Pool, s': Pool, i: nat)
    requires Inv(s) && NextStep(s, s', WorkerTest(i)) && Shape(s')
    ensures Work(s') < Work(s)
  {
    assert WorkerOk(s, i);
    OneWorker(s, s', i);
    if !s.stop && HasWork(s, i) {
      QueueSet(s, s', i);
    }
  }

  lemma {:induction false} LeaveWork(s: Pool, s': Pool, i: nat)
    requires Inv(s) && NextStep(s, s', WorkerLeave(i)) && Shape(s')
    ensures Work(s') < Work(s)
  {
    assert WorkerOk(s, i);
    OneWorker(s, s', i);
    QueueSet(s, s', i);
  }

  lemma {:induction false} ReportWork(s: Pool, s': Pool, i: nat)
    requires Inv(s) && NextStep(s, s', WorkerReport(i)) && Shape(s')
    ensures Work(s') < Work(s)
  {
    assert WorkerOk(s, i);
    assert i in OutSet(s);
    OneWorker(s, s', i);
  }

  /** Every step that neither begins something nor is a spurious wake-up leaves less to do. */
  lemma {:induction false} StepWork(s: Pool, s': Pool, step: Step)
    requires Inv(s) && NextStep(s, s', step) && Shape(s') && !Begins(step) && !Spurious(step)
    ensures Work(s') < Work(s)
  {
    match step
    case CallerWorkDone => CallerWork(s, s', step);
    case CallerLeave => CallerWork(s, s', step);
    case CallerRun => QueueStepWork(s, s', CallerId(s));
    case CallerFinish => FinishWork(s, s');
    case WorkerTest(i) => TestWork(s, s', i);
    case WorkerRun(i) =>
      assert WorkerOk(s, i);
      QueueStepWork(s, s', i);
    case WorkerLeave(i) => LeaveWork(s, s', i);
    case WorkerReport(i) => ReportWork(s, s', i);
  }

  lemma {:induction false} SpuriousWork(s: Pool, s': Pool, step: Step)
    requires Inv(s) && NextStep(s, s', step) && Shape(s') && Spurious(step)
    ensures Work(s') <= Work(s) + 1
  {
    match step
    case CallerSpurious => NoWorker(s, s');
    case WorkerSpurious(i) => OneWorker(s, s', i);
  }

  // ---- Runs with their steps ----

  ghost predicate IsTrace(run: seq<Pool>, steps: seq<Step>) {
    && |run| == |steps| + 1 && Init(run[0])
    && forall k :: 0 <= k < |steps| ==> NextStep(run[k], run[k + 1], steps[k])
  }

  lemma {:induction false} TraceIsRun(run: seq<Pool>, steps: seq<Step>)
    requires IsTrace(run, steps)
    ensures IsRun(run)
  {
    forall k | 0 <= k < |run| - 1
      ensures Next(run[k], run[k + 1])
    {
      assert NextStep(run[k], run[k + 1], steps[k]);
    }
  }

  function Flags(steps: seq<Step>): seq<bool> { seq(|steps|, k requires 0 <= k < |steps| => Spurious(steps[k])) }

  /** How many of the steps are spurious wake-ups. */
  function SpuriousAmong(steps: seq<Step>, a: nat, b: nat): nat
    requires a <= b <= |steps|
  {
    Flagged(Flags(steps), a, b)
  }

  ghost function Works(run: seq<Pool>): seq<nat> {
    seq(|run|, k requires 0 <= k < |run| => if Shape(run[k]) then Work(run[k]) else 0)
  }

  /**
   * As long as nothing new begins, the steps taken and the work left are together no more than the work at
   * the start and two for every spurious wake-up.
   */
  lemma {:induction false} StepsBounded(run: seq<Pool>, steps: seq<Step>, a: nat, b: nat)
    requires IsTrace(run, steps) && a <= b < |run| && forall k :: a <= k < b ==> !Begins(steps[k])
    ensures Shape(run[a]) && Shape(run[b])
    ensures (b - a) + Work(run[b]) <= Work(run[a]) + 2 * SpuriousAmong(steps, a, b)
  {
    TraceShape(run, steps, a);
    TraceShape(run, steps, b);
    forall k | a <= k < b
      ensures Works(run)[k + 1] + 1 <= Works(run)[k] + if Flags(steps)[k] then 2 else 0
    {
      OneStep(run, steps, k);
    }
    Potential(Works(run), Flags(steps), 2, a, b);
  }

  lemma {:induction false} TraceInv(run: seq<Pool>, steps: seq<Step>, k: nat)
    requires IsTrace(run, steps) && k < |run|
    ensures Inv(run[k])
  {
    TraceIsRun(run, steps);
    RunInv(run, k);
  }

  lemma {:induction false} TraceShape(run: seq<Pool>, steps: seq<Step>, k: nat)
    requires IsTrace(run, steps) && k < |run|
    ensures Shape(run[k])
  {
    TraceInv(run, steps, k);
  }

  lemma {:induction false} OneStep(run: seq<Pool>, steps: seq<Step>, k: nat)
    requires IsTrace(run, steps) && k < |steps| && !Begins(steps[k])
    ensures Shape(run[k]) && Shape(run[k + 1])
    ensures Work(run[k + 1]) + 1 <= Work(run[k]) + if Spurious(steps[k]) then 2 else 0
  {
    TraceInv(run, steps, k);
    TraceInv(run, steps, k + 1);
    assert NextStep(run[k], run[k + 1], steps[k]);
    if Spurious(steps[k]) {
      SpuriousWork(run[k], run[k + 1], steps[k]);
    } else {
      StepWork(run[k], run[k + 1], steps[k]);
    }
  }

  lemma {:induction false} SumZero(costs: seq<nat>)
    requires forall i :: 0 <= i < |costs| ==> costs[i] == 0
    ensures Sum(costs) == 0
  {
    if costs != [] {
      SumZero(costs[..|costs| - 1]);
    }
  }

  /** What there is to do in a batch of `n` jobs for a pool of `w` workers. */
  function BatchBound(n: nat, w: nat): nat { n * (w + 10) + w * 11 + 10 }

  lemma {:induction false} StartWork(s: Pool, s': Pool, jobs: seq<Job>, threads: nat)
    requires Inv(s) && NextStep(s, s', StartBatch(jobs, threads)) && Inv(s')
    ensures s'.active && s'.q.jobs == jobs && |s'.w| == |s.w| && Work(s') <= BatchBound(|jobs|, |s.w|)
  {
    forall i | 0 <= i < |s'.w|
      ensures WorkerCost(s', i) <= 11
    {
      assert WorkerOk(s', i);
    }
    SumBelow(WorkerCosts(s'), 11);
    forall p | 0 <= p < |s'.q.pcs|
      ensures QueueProgress.Costs(s'.q)[p] == 0
    {
      assert p < |s.w| ==> WorkerOk(s, p);
    }
    SumZero(QueueProgress.Costs(s'.q));
    assert QueueProgress.Work(s'.q) == |jobs| * (|s.w| + 10);
  }

  /**
   * A batch is through, and the caller free for the next one, after at most `BatchBound` steps and two for
   * every spurious wake-up, however the caller and the workers interleave: as long as it goes on, not more
   * steps than that have been taken, and somebody can take another one.
   */
  lemma {:induction false} BatchEnds(run: seq<Pool>, steps: seq<Step>, a: nat, b: nat)
    requires IsTrace(run, steps) && a < b < |run| && steps[a].StartBatch?
    requires forall k :: a < k < b ==> !Begins(steps[k])
    ensures b - a <= 1 + BatchBound(|steps[a].jobs|, |run[a].w|) + 2 * SpuriousAmong(steps, a + 1, b)
    ensures run[b].active ==> exists step :: Advances(run[b], step)
  {
    TraceIsRun(run, steps);
    RunInv(run, a);
    RunInv(run, a + 1);
    RunInv(run, b);
    assert NextStep(run[a], run[a + 1], steps[a]);
    StartWork(run[a], run[a + 1], steps[a].jobs, steps[a].threads);
    StepsBounded(run, steps, a + 1, b);
    if run[b].active {
      NeverStuck(run, b);
    }
  }

  // ---- A run for every list of jobs ----

  /** In an active batch a step that is not spurious keeps the jobs, or is the report. */
  lemma {:induction false} StepInBatch(s: Pool, s': Pool, step: Step)
    requires Inv(s) && s.active && NextStep(s, s', step) && !Spurious(step) && Inv(s')
    ensures !Begins(step)
    ensures s'.active ==> s'.q.jobs == s.q.jobs && s'.results == s.results
    ensures !s'.active ==> |s'.results| == |s.results| + 1 && s'.results[|s.results|].jobs == s.q.jobs
  {
  }

  /** From every state of every run with an active batch the run can go on to its report. */
  lemma {:induction false} GoesOnToReport(run: seq<Pool>) returns (run': seq<Pool>)
    requires IsRun(run) && run[|run| - 1].active && Shape(run[|run| - 1])
    ensures IsRun(run') && run <= run'
    ensures var s, s' := run[|run| - 1], run'[|run'| - 1];
            |s'.results| == |s.results| + 1 && s'.results[|s.results|].jobs == s.q.jobs
    decreases Work(run[|run| - 1])
  {
    var s' := NextInBatch(run);
    run' := run + [s'];
    if s'.active {
      run' := GoesOnToReport(run');
    }
  }

  /** A run with an active batch goes on by a step that leaves less to do, or is the report. */
  lemma {:induction false} NextInBatch(run: seq<Pool>) returns (s': Pool)
    requires IsRun(run) && run[|run| - 1].active && Shape(run[|run| - 1])
    ensures IsRun(run + [s']) && Shape(s')
    ensures var s := run[|run| - 1];
      if s'.active then s'.q.jobs == s.q.jobs && s'.results == s.results && Work(s') < Work(s)
      else |s'.results| == |s.results| + 1 && s'.results[|s.results|].jobs == s.q.jobs
  {
    var k := |run| - 1;
    var s := run[k];
    RunInv(run, k);
    NeverStuck(run, k);
    var step :| Advances(s, step);
    s' :| NextStep(s, s', step);
    Longer(run, s', step);
    NextInv(s, s', step);
    StepInBatch(s, s', step);
    StepWork(s, s', step);
  }

  lemma {:induction false} Longer(run: seq<Pool>, s': Pool, step: Step)
    requires IsRun(run) && NextStep(run[|run| - 1], s', step)
    ensures IsRun(run + [s']) && (run + [s'])[|run|] == s' && run <= run + [s']
  {
    var longer := run + [s'];
    forall k | 0 <= k < |longer| - 1
      ensures Next(longer[k], longer[k + 1])
    {
      assert k < |run| - 1 ==> Next(run[k], run[k + 1]);
    }
  }

  /** For every list of jobs some run of a pool of any size reports a batch of exactly these jobs. */
  lemma {:induction false} SomeRunReports(jobs: seq<Job>, workers: nat) returns (run: seq<Pool>)
    requires workers > 0
    ensures IsRun(run) && |run[0].w| == workers && |run[|run| - 1].results| == 1
    ensures run[|run| - 1].results[0].jobs == jobs
  {
    var q := JobQueue.Init([], 1, seq(workers + 1, _ => JobQueue.Off));
    var s := Pool(q, 0, 0, 0, false, false, seq(workers, _ => Check), seq(workers, _ => 0), seq(workers, _ => []), Idle,
                  [], false);
    var s' := DoStart(s, jobs, workers + 1);
    assert NextStep(s, s', StartBatch(jobs, workers + 1));
    Longer([s], s', StartBatch(jobs, workers + 1));
    run := GoesOnToReport([s] + [s']);
    assert run[0] == s;
  }
}
