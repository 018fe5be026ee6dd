/**
 * Batches of the worker pool over whole runs: who is selected for a batch, how its jobs are shared out, and how
 * little is claimed once a job has failed.
 */
module PoolBatches {
  import opened Common
  import opened DecompressionPool
  import JobQueue
  import PoolProgress

  // ---- Selection ----

  /** The batch is under way. */
  ghost predicate Current(s: Pool, g: nat, jobs: seq<Job>, threads: nat) {
    && s.active && s.generation == g && |s.results| + 1 == g && s.q.jobs == jobs && s.batchWorkers + 1 == threads
    && s.q.chunk == JobQueue.ChunkSize(|jobs|, threads)
  }

  /** It has been reported. */
  ghost predicate Reported(s: Pool, g: nat, jobs: seq<Job>, threads: nat) {
    0 < g <= |s.results| && s.results[g - 1].jobs == jobs && s.results[g - 1].workers + 1 == threads
  }

  lemma {:induction false} BatchStep(s: Pool, s': Pool, step: Step, g: nat, jobs: seq<Job>, threads: nat)
    requires Inv(s) && NextStep(s, s', step) && (Current(s, g, jobs, threads) || Reported(s, g, jobs, threads))
    ensures Current(s', g, jobs, threads) || Reported(s', g, jobs, threads)
  {
  }

  lemma {:induction false} BatchKept(run: seq<Pool>, steps: seq<Step>, a: nat, k: nat)
    requires PoolProgress.IsTrace(run, steps) && a < k < |run| && steps[a].StartBatch?
    ensures var g, jobs, threads := run[a].generation + 1, steps[a].jobs, steps[a].threads;
            Current(run[k], g, jobs, threads) || Reported(run[k], g, jobs, threads)
    decreases k
  {
    PoolProgress.TraceInv(run, steps, k - 1);
    assert NextStep(run[k - 1], run[k - 1 + 1], steps[k - 1]);
    if a == k - 1 {
      PoolProgress.TraceIsRun(run, steps);
      PoolSafety(run, a);
    } else {
      BatchKept(run, steps, a, k - 1);
      BatchStep(run[k - 1], run[k], steps[k - 1], run[a].generation + 1, steps[a].jobs, steps[a].threads);
    }
  }

  /**
   * A batch for so many threads selects one worker less: when it has been reported, exactly the first
   * `threads - 1` workers have run its generation, and the report is about its jobs.
   */
  lemma {:induction false} StartSelects(run: seq<Pool>, steps: seq<Step>, a: nat, k: nat)
    requires PoolProgress.IsTrace(run, steps) && a < k < |run| && steps[a].StartBatch?
    requires run[a].generation < |run[k].results|
    ensures var g, r := run[a].generation + 1, run[k].results[run[a].generation];
            && r.jobs == steps[a].jobs && r.workers == steps[a].threads - 1
            && Shape(run[k])
            && forall i :: 0 <= i < |run[k].w| ==> (g in run[k].hist[i] <==> i < steps[a].threads - 1)
  {
    BatchKept(run, steps, a, k);
    PoolProgress.TraceIsRun(run, steps);
    PoolProgress.TraceShape(run, steps, k);
    forall i | 0 <= i < |run[k].w|
      ensures run[a].generation + 1 in run[k].hist[i] <==> i < steps[a].threads - 1
    {
      SelectedRunOnce(run, k, i);
    }
  }

  // ---- Chunks ----

  /** Jobs are claimed in whole chunks, each by one participant. */
  ghost predicate InChunks(q: Queue) {
    && q.chunk > 0 && q.next == q.next / q.chunk * q.chunk
    && forall a, b :: 0 <= a < b < |q.owner| && a / q.chunk == b / q.chunk ==> q.owner[a] == q.owner[b]
  }

  lemma {:induction false} Below(a: nat, n: nat, chunk: nat)
    requires chunk > 0
    ensures a / chunk < n <==> a < n * chunk
  {
    var e := a / chunk;
    assert e * chunk <= a < (e + 1) * chunk;
    if e < n {
      JobQueue.Times(e + 1, n, chunk);
    } else {
      JobQueue.Times(n, e, chunk);
    }
  }

  lemma {:induction false} NextMultiple(next: nat, chunk: nat)
    requires chunk > 0 && next == next / chunk * chunk
    ensures next + chunk == (next + chunk) / chunk * chunk
  {
    var n := next / chunk;
    Below(next + chunk, n + 1, chunk);
    Below(next + chunk, n + 2, chunk);
    assert (n + 1) * chunk == next + chunk && (n + 2) * chunk == next + chunk + chunk;
  }

  /** Numbers on both sides of a multiple of the chunk size are in different chunks. */
  lemma {:induction false} OtherChunk(next: nat, chunk: nat, a: nat, b: nat)
    requires chunk > 0 && next == next / chunk * chunk && a < next <= b
    ensures a / chunk != b / chunk
  {
    Below(a, next / chunk, chunk);
    Below(b, next / chunk, chunk);
  }

  lemma {:induction false} FetchChunks(q: Queue, p: nat)
    requires JobQueue.ClaimsOk(q) && InChunks(q) && JobQueue.Enabled(q, p) && q.pcs[p].Fetch?
    ensures InChunks(JobQueue.Step(q, p))
  {
    var q' := JobQueue.Step(q, p);
    NextMultiple(q.next, q.chunk);
    forall a, b | 0 <= a < b < |q'.owner| && a / q.chunk == b / q.chunk
      ensures q'.owner[a] == q'.owner[b]
    {
      if b < |q.owner| {
        assert q.owner[a] == q.owner[b];
      } else if a < |q.owner| {
        OtherChunk(q.next, q.chunk, a, b);
      }
    }
  }

  lemma {:induction false} StepChunks(q: Queue, p: nat)
    requires JobQueue.ClaimsOk(q) && InChunks(q) && JobQueue.Enabled(q, p)
    ensures InChunks(JobQueue.Step(q, p))
  {
    if q.pcs[p].Fetch? {
      FetchChunks(q, p);
    }
  }

  lemma {:induction false} PoolStepChunks(s: Pool, s': Pool, step: Step)
    requires Inv(s) && NextStep(s, s', step) && (s.active ==> InChunks(s.q)) && s'.active
    ensures InChunks(s'.q)
  {
    match step
    case CallerRun => StepChunks(s.q, CallerId(s));
    case WorkerRun(i) =>
      assert WorkerOk(s, i);
      StepChunks(s.q, i);
    case _ =>
  }

  /** In every active batch of every run the jobs are claimed in whole chunks, each by one participant. */
  lemma {:induction false} ChunksClaimedWhole(run: seq<Pool>, k: nat)
    requires IsRun(run) && k < |run|
    ensures run[k].active ==> InChunks(run[k].q)
  {
    if k > 0 && run[k].active {
      ChunksClaimedWhole(run, k - 1);
      RunInv(run, k - 1);
      assert Next(run[k - 1], run[k - 1 + 1]);
      var step :| NextStep(run[k - 1], run[k], step);
      PoolStepChunks(run[k - 1], run[k], step);
    }
  }

  // ---- Claims after a failure ----

  /** What may still be claimed once a failure is known: one chunk for everybody who has read the flag before. */
  function Claimable(q: Queue): seq<nat> {
    seq(|q.pcs|, p requires 0 <= p < |q.pcs| => if q.pcs[p].Fetch? then q.chunk else 0)
  }

  function Reach(q: Queue): nat { |q.owner| + Sum(Claimable(q)) }

  lemma {:induction false} OneMoved(q: Queue, q': Queue, p: nat)
    requires p < |q.pcs| == |q'.pcs| && q'.chunk == q.chunk && q'.pcs == q.pcs[p := q'.pcs[p]]
    ensures Sum(Claimable(q')) == Sum(Claimable(q)) - Claimable(q)[p] + Claimable(q')[p]
  {
    SumOne(Claimable(q), Claimable(q'), p);
  }

  /** With the failure flag up no step adds to what can be claimed. */
  lemma {:induction false} FailureStopsClaims(q: Queue, p: nat)
    requires JobQueue.ClaimsOk(q) && JobQueue.Enabled(q, p) && q.failed
    ensures Reach(JobQueue.Step(q, p)) <= Reach(q) && JobQueue.Step(q, p).failed
  {
    OneMoved(q, JobQueue.Step(q, p), p);
  }

  lemma {:induction false} PoolStepReach(s: Pool, s': Pool, step: Step)
    requires Inv(s) && NextStep(s, s', step) && s.active && s.q.failed && !step.StartBatch?
    ensures s'.q.failed && Reach(s'.q) <= Reach(s.q)
  {
    match step
    case CallerRun => FailureStopsClaims(s.q, CallerId(s));
    case WorkerRun(i) =>
      assert WorkerOk(s, i);
      FailureStopsClaims(s.q, i);
    case CallerWorkDone => OneMoved(s.q, s'.q, CallerId(s));
    case CallerLeave => OneMoved(s.q, s'.q, CallerId(s));
    case WorkerTest(i) => TestReach(s, s', i);
    case WorkerLeave(i) => OneMoved(s.q, s'.q, i);
    case CallerFinish => assert Claimable(s'.q) == Claimable(s.q);
    case _ =>
  }

  lemma {:induction false} TestReach(s: Pool, s': Pool, i: nat)
    requires Inv(s) && NextStep(s, s', WorkerTest(i))
    ensures Reach(s'.q) <= Reach(s.q)
  {
    if s'.q != s.q {
      OneMoved(s.q, s'.q, i);
    }
  }

  lemma {:induction false} NotIdle(s: Pool, s': Pool, step: Step)
    requires Inv(s) && s.active && NextStep(s, s', step)
    ensures !step.StartBatch?
  {
  }

  lemma {:induction false} ReachAt(run: seq<Pool>, steps: seq<Step>, k: nat)
    requires PoolProgress.IsTrace(run, steps) && k < |steps| && run[k].active && run[k].q.failed
    ensures run[k + 1].q.failed && Reach(run[k + 1].q) <= Reach(run[k].q)
  {
    PoolProgress.TraceInv(run, steps, k);
    NotIdle(run[k], run[k + 1], steps[k]);
    PoolStepReach(run[k], run[k + 1], steps[k]);
  }

  /**
   * Once the failure flag of a batch is up, no more jobs are claimed than one chunk for every participant that is
   * past its test of the flag.
   */
  lemma {:induction false} FewClaimsAfterFailure(run: seq<Pool>, steps: seq<Step>, a: nat, b: nat)
    requires PoolProgress.IsTrace(run, steps) && a <= b < |run| && run[a].q.failed
    requires forall k :: a <= k < b ==> run[k].active
    ensures run[b].q.failed
    ensures |run[b].q.owner| + Sum(Claimable(run[b].q)) <= |run[a].q.owner| + Sum(Claimable(run[a].q))
    decreases b
  {
    if a < b {
      FewClaimsAfterFailure(run, steps, a, b - 1);
      ReachAt(run, steps, b - 1);
    }
  }
}
