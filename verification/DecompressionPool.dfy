/**
 * The persistent worker pool (`struct decompression_pool`): its lock-protected fields, the two
 * condition variables, and the caller that publishes one batch after another. Each critical section
 * is one step; between them the caller and the selected workers run the shared job queue.
 */
module DecompressionPool {
  import Common
  import JobQueue

  type Job = JobQueue.Job
  type Queue = JobQueue.Queue

  /**
   * A worker outside `decompress_queue_run`: testing its wait condition, asleep on
   * work_ready, running, or about to report.
   */
  datatype Worker = Check | Sleep | Busy | Report | Exited

  /** The caller: between batches, doing its own overlapped work, helping, testing or asleep on work_done, or gone. */
  datatype Caller = Idle | Overlap | Helping | Finish | AwaitDone | Gone

  /** What one finished batch reported, how many workers it had and which jobs they ran, kept as history. */
  datatype BatchResult = BatchResult(jobs: seq<Job>, workers: nat, failed: bool, failedBlock: int, log: seq<nat>)

  /** `hist[i]` is the history of generations worker `i` has run; `crashed` records a BUG_ON that fired. */
  datatype Pool = Pool(
    q: Queue, batchWorkers: nat, pending: nat, generation: nat, active: bool, stop: bool,
    w: seq<Worker>, seen: seq<nat>, hist: seq<seq<nat>>, c: Caller,
    results: seq<BatchResult>, crashed: bool)

  datatype Step =
    | StartBatch(jobs: seq<Job>, threads: nat)
    | CallerWorkDone
    | CallerRun
    | CallerLeave
    | CallerFinish
    | CallerSpurious
    | Destroy
    | WorkerTest(i: nat)
    | WorkerSpurious(i: nat)
    | WorkerRun(i: nat)
    | WorkerLeave(i: nat)
    | WorkerReport(i: nat)

  function Broadcast(w: seq<Worker>): seq<Worker> {
    seq(|w|, i requires 0 <= i < |w| => if w[i].Sleep? then Check else w[i])
  }

  /** The caller takes part as the participant after the last worker. */
  function CallerId(s: Pool): nat { |s.w| }

  predicate HasWork(s: Pool, i: nat)
    requires i < |s.seen|
  {
    s.seen[i] != s.generation && i < s.batchWorkers
  }

  ghost predicate Init(s: Pool) {
    && |s.seen| == |s.hist| == |s.w|
    && |s.q.pcs| == |s.w| + 1
    && (forall p :: 0 <= p < |s.q.pcs| ==> s.q.pcs[p].Off?)
    && (forall i :: 0 <= i < |s.w| ==> s.w[i].Check? && s.seen[i] == 0 && s.hist[i] == [])
    && s.batchWorkers == 0 && s.pending == 0 && s.generation == 0
    && !s.active && !s.stop && s.c.Idle? && s.results == [] && !s.crashed
  }

  predicate Shape(s: Pool) { |s.seen| == |s.hist| == |s.w| && |s.q.pcs| == |s.w| + 1 }

  /** A worker index in range. */
  predicate Worker?(s: Pool, i: nat) { Shape(s) && i < |s.w| }

  /** `decompression_pool_start_batch`. */
  function DoStart(s: Pool, jobs: seq<Job>, threads: nat): Pool
    requires threads > 0
  {
    if s.active || s.pending != 0 then s.(crashed := true)
    else s.(
      q := JobQueue.Init(jobs, threads, s.q.pcs), active := true, batchWorkers := threads - 1,
      pending := threads - 1, generation := s.generation + 1, w := Broadcast(s.w), c := Overlap)
  }

  /** One pass through the loop of `decompression_pool_finish_batch`. */
  function DoFinish(s: Pool): Pool {
    if s.pending != 0 then s.(c := AwaitDone)
    else s.(
      results := s.results + [BatchResult(s.q.jobs, s.batchWorkers, s.q.failed, s.q.failedBlock, s.q.log)],
      q := s.q.(jobs := []), active := false, batchWorkers := 0, c := Idle)
  }

  /** `decompression_pool_destroy` up to the joins. */
  function DoDestroy(s: Pool): Pool {
    if s.active || s.pending != 0 then s.(crashed := true)
    else s.(stop := true, w := Broadcast(s.w), c := Gone)
  }

  /** The wait loop of `decompression_pool_worker`, once under the lock. */
  function DoTest(s: Pool, i: nat): Pool
    requires Worker?(s, i)
  {
    if s.stop then s.(w := s.w[i := Exited])
    else if HasWork(s, i) then s.(
      w := s.w[i := Busy], seen := s.seen[i := s.generation], hist := s.hist[i := s.hist[i] + [s.generation]],
      q := s.q.(pcs := s.q.pcs[i := JobQueue.Claim]))
    else s.(w := s.w[i := Sleep])
  }

  /** The worker drops its pending count and wakes the caller when it was the last. */
  function DoReport(s: Pool, i: nat): Pool
    requires Worker?(s, i)
  {
    if s.pending == 0 then s.(crashed := true)
    else s.(
      pending := s.pending - 1, w := s.w[i := Check],
      c := if s.pending == 1 && s.c.AwaitDone? then Finish else s.c)
  }

  ghost predicate NextStep(s: Pool, s': Pool, step: Step) {
    Shape(s) &&
    match step
    case StartBatch(jobs, threads) =>
      s.c.Idle? && 2 <= threads <= |s.w| + 1 && s' == DoStart(s, jobs, threads)
    case CallerWorkDone =>
      s.c.Overlap? && s' == s.(c := Helping, q := s.q.(pcs := s.q.pcs[CallerId(s) := JobQueue.Claim]))
    case CallerRun =>
      s.c.Helping? && JobQueue.Enabled(s.q, CallerId(s)) && s' == s.(q := JobQueue.Step(s.q, CallerId(s)))
    case CallerLeave =>
      && s.c.Helping? && s.q.pcs[CallerId(s)].Done?
      && s' == s.(c := Finish, q := s.q.(pcs := s.q.pcs[CallerId(s) := JobQueue.Off]))
    case CallerFinish => s.c.Finish? && s' == DoFinish(s)
    case CallerSpurious => s.c.AwaitDone? && s' == s.(c := Finish)
    case Destroy => s.c.Idle? && s' == DoDestroy(s)
    case WorkerTest(i) => Worker?(s, i) && s.w[i].Check? && s' == DoTest(s, i)
    case WorkerSpurious(i) => Worker?(s, i) && s.w[i].Sleep? && s' == s.(w := s.w[i := Check])
    case WorkerRun(i) =>
      Worker?(s, i) && s.w[i].Busy? && JobQueue.Enabled(s.q, i) && s' == s.(q := JobQueue.Step(s.q, i))
    case WorkerLeave(i) =>
      && Worker?(s, i) && s.w[i].Busy? && s.q.pcs[i].Done?
      && s' == s.(w := s.w[i := Report], q := s.q.(pcs := s.q.pcs[i := JobQueue.Off]))
    case WorkerReport(i) => Worker?(s, i) && s.w[i].Report? && s' == DoReport(s, i)
  }

  ghost predicate Next(s: Pool, s': Pool) { exists step :: NextStep(s, s', step) }

  /** A finite run of the pool from its creation. */
  ghost predicate IsRun(run: seq<Pool>) {
    && |run| > 0 && Init(run[0])
    && forall k :: 0 <= k < |run| - 1 ==> Next(run[k], run[k + 1])
  }

  /** A selected worker that has not yet dropped its reference to the batch. */
  ghost predicate Outstanding(s: Pool, i: nat)
    requires i < |s.w| == |s.seen|
  {
    s.w[i].Busy? || s.w[i].Report? || HasWork(s, i)
  }

  ghost function OutSet(s: Pool): set<nat>
    requires |s.seen| == |s.w|
  {
    set i: nat | i < |s.w| && Outstanding(s, i)
  }

  ghost predicate WorkerOk(s: Pool, i: nat)
    requires Worker?(s, i)
  {
    && s.seen[i] <= s.generation
    && (s.w[i].Busy? || s.w[i].Report? ==> i < s.batchWorkers && s.seen[i] == s.generation)
    && (s.w[i].Busy? <==> !s.q.pcs[i].Off?)
    // No lost wake-up: a sleeping worker has nothing to do.
    && (s.w[i].Sleep? ==> !s.stop && !HasWork(s, i))
    && (s.w[i].Exited? ==> s.stop)
    // No generation is run twice.
    && (forall a, b :: 0 <= a < b < |s.hist[i]| ==> s.hist[i][a] < s.hist[i][b])
    && (forall a :: 0 <= a < |s.hist[i]| ==> 0 < s.hist[i][a] <= s.seen[i])
    && (s.seen[i] != 0 ==> s.seen[i] in s.hist[i])
  }

  ghost predicate WorkersOk(s: Pool)
    requires Shape(s)
  {
    forall i :: 0 <= i < |s.w| ==> WorkerOk(s, i)
  }

  ghost predicate CallerOk(s: Pool)
    requires Shape(s)
  {
    && (s.active <==> !s.c.Idle? && !s.c.Gone?)
    && (s.c.Helping? <==> !s.q.pcs[CallerId(s)].Off?)
    && (s.c.AwaitDone? ==> s.pending > 0)
    && (s.stop <==> s.c.Gone?)
    && s.batchWorkers <= |s.w|
    && (!s.active ==> s.batchWorkers == 0)
    && (s.active ==> JobQueue.Inv(s.q))
    && (s.c.Finish? || s.c.AwaitDone? ==> s.q.failed || s.q.next >= |s.q.jobs|)
  }

  ghost predicate ResultOk(r: BatchResult) {
    && JobQueue.Outcome(r.jobs, r.failed, r.failedBlock)
    && JobQueue.RunsAtMostOnce(r.log, |r.jobs|)
    && (!r.failed ==> JobQueue.RunsEachOnce(r.log, |r.jobs|))
  }

  ghost predicate Inv(s: Pool) {
    && Shape(s)
    && WorkersOk(s)
    && CallerOk(s)
    && s.pending == |OutSet(s)|
    // Every published batch is reported exactly once.
    && s.generation == |s.results| + (if s.active then 1 else 0)
    && (forall k :: 0 <= k < |s.results| ==> ResultOk(s.results[k]))
    && !s.crashed
  }

  lemma {:induction false} InitInv(s: Pool)
    requires Init(s)
    ensures Inv(s)
  {
    assert OutSet(s) == {};
  }

  lemma {:induction false} NothingOutstanding(s: Pool)
    requires Inv(s) && s.pending == 0
    ensures forall i :: 0 <= i < |s.w| ==> !Outstanding(s, i)
  {
    forall i | 0 <= i < |s.w|
      ensures !Outstanding(s, i)
    {
      assert i !in OutSet(s);
    }
  }

  lemma {:induction false} StartInv(s: Pool, s': Pool, jobs: seq<Job>, threads: nat)
    requires Inv(s) && NextStep(s, s', StartBatch(jobs, threads))
    ensures Inv(s')
  {
    assert OutSet(s) == {} by {
      forall i: nat | i < |s.w|
        ensures !Outstanding(s, i)
      {
        assert WorkerOk(s, i);
      }
    }
    NothingOutstanding(s);
    forall p | 0 <= p < |s.q.pcs|
      ensures s.q.pcs[p].Off?
    {
      if p < |s.w| {
        assert WorkerOk(s, p);
      }
    }
    JobQueue.InitInv(jobs, threads, s.q.pcs);
    forall i | 0 <= i < |s'.w|
      ensures WorkerOk(s', i)
    {
      assert WorkerOk(s, i);
    }
    assert forall i: nat :: i in OutSet(s') <==> i < threads - 1 by {
      forall i: nat
        ensures i in OutSet(s') <==> i < threads - 1
      {
        if i < |s.w| {
          assert WorkerOk(s, i) && !Outstanding(s, i);
        }
      }
    }
    Common.PrefixSize(threads - 1, OutSet(s'));
  }

  lemma {:induction false} FinishInv(s: Pool, s': Pool)
    requires Inv(s) && NextStep(s, s', CallerFinish)
    ensures Inv(s')
  {
    if s.pending == 0 {
      NothingOutstanding(s);
    }
    forall i | 0 <= i < |s'.w|
      ensures WorkerOk(s', i)
    {
      assert WorkerOk(s, i);
      assert s.pending == 0 ==> !Outstanding(s, i);
    }
    if s.pending == 0 {
      forall p | 0 <= p < |s.q.pcs|
        ensures JobQueue.Quiet(s.q.pcs[p])
      {
        if p < |s.w| {
          assert WorkerOk(s, p) && !Outstanding(s, p);
        }
      }
      JobQueue.DrainedOutcome(s.q);
      assert OutSet(s') == {};
    } else {
      assert OutSet(s') == OutSet(s);
    }
  }

  /** Moving one participant's queue position changes neither the workers nor what is outstanding. */
  lemma {:induction false} QueueMoveInv(s: Pool, s': Pool, p: nat)
    requires Inv(s) && s.active && p < |s.q.pcs| && !s.q.pcs[p].Off?
    requires s' == s.(q := s'.q) && JobQueue.Inv(s'.q)
    requires s'.q.jobs == s.q.jobs && |s'.q.pcs| == |s.q.pcs| && !s'.q.pcs[p].Off?
    requires forall r :: 0 <= r < |s.q.pcs| && r != p ==> s'.q.pcs[r] == s.q.pcs[r]
    requires (s.q.failed ==> s'.q.failed) && s'.q.next >= s.q.next
    ensures Inv(s')
  {
    forall i | 0 <= i < |s'.w|
      ensures WorkerOk(s', i)
    {
      assert WorkerOk(s, i);
      assert i != p ==> s'.q.pcs[i] == s.q.pcs[i];
    }
    assert OutSet(s') == OutSet(s);
  }

  lemma {:induction false} QueueStepInv(s: Pool, s': Pool, p: nat)
    requires Inv(s) && s.active && p < |s.q.pcs| && JobQueue.Enabled(s.q, p)
    requires s' == s.(q := JobQueue.Step(s.q, p))
    ensures Inv(s')
  {
    JobQueue.StepInv(s.q, p);
    JobQueue.StepFrame(s.q, p);
    QueueMoveInv(s, s', p);
  }

  lemma {:induction false} QueueTurnOn(q: Queue, p: nat)
    requires JobQueue.Inv(q) && p < |q.pcs| && q.pcs[p].Off?
    ensures JobQueue.Inv(q.(pcs := q.pcs[p := JobQueue.Claim]))
  {
    var q' := q.(pcs := q.pcs[p := JobQueue.Claim]);
    forall r | 0 <= r < |q'.pcs|
      ensures JobQueue.PcOk(q', r)
    {
      assert JobQueue.PcOk(q, r);
    }
    QueueQuietMove(q, q', p);
  }

  lemma {:induction false} QueueTurnOff(q: Queue, p: nat)
    requires JobQueue.Inv(q) && p < |q.pcs| && q.pcs[p].Done?
    ensures JobQueue.Inv(q.(pcs := q.pcs[p := JobQueue.Off]))
  {
    var q' := q.(pcs := q.pcs[p := JobQueue.Off]);
    forall r | 0 <= r < |q'.pcs|
      ensures JobQueue.PcOk(q', r)
    {
      assert JobQueue.PcOk(q, r);
    }
    QueueQuietMove(q, q', p);
  }

  lemma {:induction false} QueueQuietMove(q: Queue, q': Queue, p: nat)
    requires JobQueue.Inv(q) && p < |q.pcs| && JobQueue.Quiet(q.pcs[p])
    requires q' == q.(pcs := q'.pcs) && |q'.pcs| == |q.pcs|
    requires forall r :: 0 <= r < |q.pcs| && r != p ==> q'.pcs[r] == q.pcs[r]
    requires JobQueue.ClaimsOk(q')
    ensures JobQueue.CoverageOk(q') && JobQueue.FailureOk(q')
  {
    forall j | 0 <= j < |q'.owner| && JobQueue.DecodesBefore(q'.jobs, j)
      ensures j in q'.log || JobQueue.Holds(q'.pcs[q'.owner[j]], j)
    {
      assert j in q.log || JobQueue.Holds(q.pcs[q.owner[j]], j);
    }
    forall g | g in q'.log && JobQueue.Failing(q', g)
      ensures (q'.failed && q'.failedBlock <= q'.jobs[g].blockIndex) || JobQueue.Recording(q'.pcs[q'.owner[g]], g)
    {
      assert JobQueue.Failing(q, g);
    }
    if q.failed {
      var g :| g in q.log && JobQueue.Failing(q, g);
      assert JobQueue.Failing(q', g);
    }
    if q.failedBlock != Common.INT_MAX {
      var g :| g in q.log && JobQueue.Failing(q, g) && q.jobs[g].blockIndex == q.failedBlock;
      assert JobQueue.Failing(q', g);
    }
  }

  lemma {:induction false} CallerMoveInv(s: Pool, s': Pool, step: Step)
    requires Inv(s) && NextStep(s, s', step) && (step.CallerWorkDone? || step.CallerLeave? || step.CallerSpurious?)
    ensures Inv(s')
  {
    if step.CallerWorkDone? {
      QueueTurnOn(s.q, CallerId(s));
    } else if step.CallerLeave? {
      assert JobQueue.PcOk(s.q, CallerId(s));
      QueueTurnOff(s.q, CallerId(s));
    }
    forall i | 0 <= i < |s'.w|
      ensures WorkerOk(s', i)
    {
      assert WorkerOk(s, i);
    }
    assert OutSet(s') == OutSet(s);
  }

  lemma {:induction false} DestroyInv(s: Pool, s': Pool)
    requires Inv(s) && NextStep(s, s', Destroy)
    ensures Inv(s')
  {
    assert OutSet(s) == {} by {
      forall i: nat | i < |s.w|
        ensures !Outstanding(s, i)
      {
        assert WorkerOk(s, i);
      }
    }
    forall i | 0 <= i < |s'.w|
      ensures WorkerOk(s', i)
    {
      assert WorkerOk(s, i);
    }
    assert OutSet(s') == {};
  }

  /** A selected worker takes the current generation: it stays outstanding until it reports. */
  lemma {:induction false} TakeInv(s: Pool, s': Pool, i: nat)
    requires Inv(s) && NextStep(s, s', WorkerTest(i)) && !s.stop && HasWork(s, i)
    ensures Inv(s')
  {
    assert WorkerOk(s, i);
    QueueTurnOn(s.q, i);
    assert s'.hist[i][|s.hist[i]|] == s.generation;
    assert WorkerOk(s', i);
    forall r | 0 <= r < |s'.w|
      ensures WorkerOk(s', r)
    {
      if r != i {
        assert WorkerOk(s, r);
      }
    }
    assert OutSet(s') == OutSet(s);
  }

  lemma {:induction false} TestInv(s: Pool, s': Pool, i: nat)
    requires Inv(s) && NextStep(s, s', WorkerTest(i))
    ensures Inv(s')
  {
    if !s.stop && HasWork(s, i) {
      TakeInv(s, s', i);
    } else {
      forall r | 0 <= r < |s'.w|
        ensures WorkerOk(s', r)
      {
        assert WorkerOk(s, r);
      }
      assert OutSet(s') == OutSet(s);
    }
  }

  lemma {:induction false} ReportInv(s: Pool, s': Pool, i: nat)
    requires Inv(s) && NextStep(s, s', WorkerReport(i))
    ensures Inv(s')
  {
    assert WorkerOk(s, i);
    assert i in OutSet(s);
    assert s.pending > 0;
    forall r | 0 <= r < |s'.w|
      ensures WorkerOk(s', r)
    {
      assert WorkerOk(s, r);
    }
    assert OutSet(s') == OutSet(s) - {i};
  }

  lemma {:induction false} WorkerMoveInv(s: Pool, s': Pool, i: nat, step: Step)
    requires Inv(s) && NextStep(s, s', step) && (step == WorkerSpurious(i) || step == WorkerLeave(i))
    ensures Inv(s')
  {
    assert WorkerOk(s, i);
    if step.WorkerLeave? {
      QueueTurnOff(s.q, i);
    }
    forall r | 0 <= r < |s'.w|
      ensures WorkerOk(s', r)
    {
      assert WorkerOk(s, r);
    }
    assert OutSet(s') == OutSet(s);
  }

  lemma {:induction false} NextInv(s: Pool, s': Pool, step: Step)
    requires Inv(s) && NextStep(s, s', step)
    ensures Inv(s')
  {
    match step
    case StartBatch(jobs, threads) => StartInv(s, s', jobs, threads);
    case CallerRun => QueueStepInv(s, s', CallerId(s));
    case CallerFinish => FinishInv(s, s');
    case Destroy => DestroyInv(s, s');
    case WorkerTest(i) => TestInv(s, s', i);
    case WorkerSpurious(i) => WorkerMoveInv(s, s', i, step);
    case WorkerLeave(i) => WorkerMoveInv(s, s', i, step);
    case WorkerRun(i) =>
      assert WorkerOk(s, i);
      QueueStepInv(s, s', i);
    case WorkerReport(i) => ReportInv(s, s', i);
    case _ => CallerMoveInv(s, s', step);
  }

  /**
   * Which workers ran a generation: of a finished one all that were selected, of the
   * current one those that took it.
   */
  ghost predicate HistOk(s: Pool, i: nat)
    requires Worker?(s, i)
  {
    && (forall g :: 0 < g <= |s.results| ==> (g in s.hist[i] <==> i < s.results[g - 1].workers))
    && (s.active && s.generation in s.hist[i] ==> i < s.batchWorkers)
  }

  lemma {:induction false} HistFinish(s: Pool, s': Pool, i: nat)
    requires Inv(s) && Worker?(s, i) && HistOk(s, i) && s.active && s.pending == 0 && s' == DoFinish(s)
    ensures HistOk(s', i)
  {
    NothingOutstanding(s);
    assert WorkerOk(s, i) && !Outstanding(s, i);
  }

  lemma {:induction false} HistTake(s: Pool, s': Pool, j: nat, i: nat)
    requires Inv(s) && Worker?(s, i) && HistOk(s, i) && Worker?(s, j) && HasWork(s, j) && s' == DoTest(s, j) && !s.stop
    ensures HistOk(s', i)
  {
    assert WorkerOk(s, j);
  }

  lemma {:induction false} HistStart(s: Pool, s': Pool, jobs: seq<Job>, threads: nat, i: nat)
    requires Inv(s) && Worker?(s, i) && HistOk(s, i) && threads > 0 && s' == DoStart(s, jobs, threads) && !s.active
    ensures HistOk(s', i)
  {
    assert WorkerOk(s, i);
  }

  lemma {:induction false} HistSame(s: Pool, s': Pool, i: nat)
    requires Worker?(s, i) && Worker?(s', i) && HistOk(s, i) && s'.hist == s.hist && s'.results == s.results
    requires s'.active == s.active && s'.generation == s.generation && s'.batchWorkers == s.batchWorkers
    ensures HistOk(s', i)
  {
  }

  lemma {:induction false} HistKept(s: Pool, s': Pool, step: Step, i: nat)
    requires Inv(s) && NextStep(s, s', step) && Worker?(s', i) && |s'.w| == |s.w| && HistOk(s, i)
    ensures HistOk(s', i)
  {
    if step.CallerFinish? && s.pending == 0 {
      HistFinish(s, s', i);
    } else if step.WorkerTest? && HasWork(s, step.i) && !s.stop {
      HistTake(s, s', step.i, i);
    } else if step.StartBatch? && !s.active {
      HistStart(s, s', step.jobs, step.threads, i);
    } else {
      HistSame(s, s', i);
    }
  }

  lemma {:induction false} HistsKept(s: Pool, s': Pool, step: Step)
    requires Inv(s) && NextStep(s, s', step) && Shape(s') && forall i :: 0 <= i < |s.w| ==> HistOk(s, i)
    ensures forall i :: 0 <= i < |s'.w| ==> HistOk(s', i)
  {
    forall i | 0 <= i < |s'.w|
      ensures HistOk(s', i)
    {
      HistKept(s, s', step, i);
    }
  }

  /** The invariant holds in every state of every run: any number of workers, batches and interleavings. */
  lemma {:induction false} RunInv(run: seq<Pool>, k: nat)
    requires IsRun(run) && k < |run|
    ensures Inv(run[k]) && forall i :: 0 <= i < |run[k].w| ==> HistOk(run[k], i)
  {
    if k == 0 {
      InitInv(run[0]);
    } else {
      RunInv(run, k - 1);
      assert Next(run[k - 1], run[k - 1 + 1]);
      var step :| NextStep(run[k - 1], run[k], step);
      NextInv(run[k - 1], run[k], step);
      HistsKept(run[k - 1], run[k], step);
    }
  }

  /**
   * Every batch that any run reports has the outcome of the serial run of its jobs (see
   * JobQueue.RunSerial), every published batch but the current one has been reported, no batch ran a
   * job twice, and one without failure ran each job exactly once.
   */
  lemma {:induction false} BatchesMatchSerial(run: seq<Pool>, k: nat)
    requires IsRun(run) && k < |run|
    ensures |run[k].results| == run[k].generation - (if run[k].active then 1 else 0)
    ensures forall b :: 0 <= b < |run[k].results| ==>
              var r := run[k].results[b];
              && (r.failed <==> exists j :: 0 <= j < |r.jobs| && !r.jobs[j].decodes)
              && (r.failed && JobQueue.Increasing(r.jobs) ==>
                    exists j :: 0 <= j < |r.jobs| && !r.jobs[j].decodes && r.failedBlock == r.jobs[j].blockIndex
                      && forall i :: 0 <= i < j ==> r.jobs[i].decodes)
              && JobQueue.RunsAtMostOnce(r.log, |r.jobs|)
              && (!r.failed ==> JobQueue.RunsEachOnce(r.log, |r.jobs|))
  {
    RunInv(run, k);
    forall b | 0 <= b < |run[k].results|
      ensures var r := run[k].results[b];
        && (r.failed <==> exists j :: 0 <= j < |r.jobs| && !r.jobs[j].decodes)
        && (r.failed && JobQueue.Increasing(r.jobs) ==>
              exists j :: 0 <= j < |r.jobs| && !r.jobs[j].decodes && r.failedBlock == r.jobs[j].blockIndex
                && forall i :: 0 <= i < j ==> r.jobs[i].decodes)
        && JobQueue.RunsAtMostOnce(r.log, |r.jobs|)
        && (!r.failed ==> JobQueue.RunsEachOnce(r.log, |r.jobs|))
    {
      var r := run[k].results[b];
      assert ResultOk(r);
      var f := JobQueue.FirstFailure(r.jobs);
      assert JobQueue.DecodesBefore(r.jobs, f);
    }
  }

  /**
   * In every reachable state no BUG_ON has fired, the pending count is the number of selected workers
   * that have not reported, and while no batch is active nobody runs the queue: the caller may reuse
   * the jobs as soon as the finish step returns.
   */
  lemma {:induction false} PoolSafety(run: seq<Pool>, k: nat)
    requires IsRun(run) && k < |run|
    ensures Shape(run[k]) && !run[k].crashed
    ensures run[k].pending == |OutSet(run[k])|
    ensures run[k].c.Idle? || run[k].c.Gone? ==>
              && run[k].pending == 0
              && (forall p :: 0 <= p < |run[k].q.pcs| ==> run[k].q.pcs[p].Off?)
              && (forall i :: 0 <= i < |run[k].w| ==> !run[k].w[i].Busy? && !run[k].w[i].Report?)
  {
    RunInv(run, k);
    var s := run[k];
    if s.c.Idle? || s.c.Gone? {
      forall i | 0 <= i < |s.w|
        ensures !Outstanding(s, i) && s.q.pcs[i].Off? && !s.w[i].Busy? && !s.w[i].Report?
      {
        assert WorkerOk(s, i);
      }
      assert OutSet(s) == {};
    }
  }

  /**
   * No worker runs a generation twice, and of every finished generation exactly the workers that were
   * selected for it have run it; of the current one nobody else has.
   */
  lemma {:induction false} SelectedRunOnce(run: seq<Pool>, k: nat, i: nat)
    requires IsRun(run) && k < |run| && Shape(run[k]) && i < |run[k].w|
    ensures forall a, b :: 0 <= a < b < |run[k].hist[i]| ==> run[k].hist[i][a] < run[k].hist[i][b]
    ensures forall g :: 0 < g <= |run[k].results| ==> (g in run[k].hist[i] <==> i < run[k].results[g - 1].workers)
    ensures run[k].active && run[k].generation in run[k].hist[i] ==> i < run[k].batchWorkers
    ensures forall g :: g in run[k].hist[i] ==> 0 < g <= run[k].generation
    ensures run[k].c.Finish? && run[k].pending == 0 && i < run[k].batchWorkers ==> run[k].generation in run[k].hist[i]
  {
    RunInv(run, k);
    assert WorkerOk(run[k], i) && HistOk(run[k], i);
    if run[k].pending == 0 {
      NothingOutstanding(run[k]);
      assert !Outstanding(run[k], i);
    }
  }

  /** A step that is not a spurious wake-up. */
  ghost predicate Advances(s: Pool, step: Step) {
    !step.CallerSpurious? && !step.WorkerSpurious? && exists s' :: NextStep(s, s', step)
  }

  lemma {:induction false} WorkerAdvances(s: Pool, i: nat)
    requires Inv(s) && i < |s.w| && !s.w[i].Sleep? && !s.w[i].Exited?
    ensures exists step :: Advances(s, step)
  {
    assert WorkerOk(s, i);
    match s.w[i]
    case Check =>
      assert NextStep(s, DoTest(s, i), WorkerTest(i));
      assert Advances(s, WorkerTest(i));
    case Busy =>
      if s.q.pcs[i].Done? {
        assert NextStep(s, s.(w := s.w[i := Report], q := s.q.(pcs := s.q.pcs[i := JobQueue.Off])), WorkerLeave(i));
        assert Advances(s, WorkerLeave(i));
      } else {
        JobQueue.InvEnabled(s.q, i);
        assert NextStep(s, s.(q := JobQueue.Step(s.q, i)), WorkerRun(i));
        assert Advances(s, WorkerRun(i));
      }
    case Report =>
      assert NextStep(s, DoReport(s, i), WorkerReport(i));
      assert Advances(s, WorkerReport(i));
  }

  lemma {:induction false} CallerAdvances(s: Pool)
    requires Inv(s) && s.active && !s.c.AwaitDone?
    ensures exists step :: Advances(s, step)
  {
    var me := CallerId(s);
    match s.c
    case Overlap =>
      assert NextStep(s, s.(c := Helping, q := s.q.(pcs := s.q.pcs[me := JobQueue.Claim])), CallerWorkDone);
      assert Advances(s, CallerWorkDone);
    case Helping =>
      if s.q.pcs[me].Done? {
        assert NextStep(s, s.(c := Finish, q := s.q.(pcs := s.q.pcs[me := JobQueue.Off])), CallerLeave);
        assert Advances(s, CallerLeave);
      } else {
        JobQueue.InvEnabled(s.q, me);
        assert NextStep(s, s.(q := JobQueue.Step(s.q, me)), CallerRun);
        assert Advances(s, CallerRun);
      }
    case Finish =>
      assert NextStep(s, DoFinish(s), CallerFinish);
      assert Advances(s, CallerFinish);
  }

  /**
   * No wake-up is lost: while a batch is active, or a destroyed pool still has a worker to join, some
   * thread can take a step without waiting for a spurious wake-up.
   */
  lemma {:induction false} NeverStuck(run: seq<Pool>, k: nat)
    requires IsRun(run) && k < |run| && Shape(run[k])
    requires run[k].active || (run[k].c.Gone? && exists i :: 0 <= i < |run[k].w| && !run[k].w[i].Exited?)
    ensures exists step :: Advances(run[k], step)
  {
    RunInv(run, k);
    var s := run[k];
    if s.c.AwaitDone? {
      assert |OutSet(s)| > 0;
      var i :| i in OutSet(s);
      assert WorkerOk(s, i);
      WorkerAdvances(s, i);
    } else if s.active {
      CallerAdvances(s);
    } else {
      var i :| 0 <= i < |s.w| && !s.w[i].Exited?;
      assert WorkerOk(s, i);
      WorkerAdvances(s, i);
    }
  }
}
