/**
 * The queue of decompression jobs that the caller and the selected pool workers drain together
 * (`struct decompress_queue`). Every load, fetch-and-add, compare-and-swap, store and job run of a
 * participant is one indivisible step; participants interleave freely.
 */
module JobQueue {
  import opened Common

  const MAX_JOB_CHUNK := 8

  /** What the queue needs to know of a job: the block it reports, and whether running it succeeds. */
  datatype Job = Job(blockIndex: int, decodes: bool)

  /** Where a participant stands in `decompress_queue_run`. */
  datatype Pc =
    | Off                                 // not running the queue
    | Claim                               // about to read the failure flag
    | Fetch                               // about to advance next_job
    | Run(i: nat, end: nat)               // about to run job i of the claimed chunk [.., end)
    | Load(g: nat)                        // job g failed: about to read failed_block
    | Cas(g: nat, earliest: int)          // about to swap failed_block from `earliest`
    | Store(g: nat)                       // about to raise the failure flag
    | Done                                // the run returned

  /** The queue, its participants' positions and two histories: who claimed each job, and the jobs run so far. */
  datatype Queue = Queue(
    jobs: seq<Job>, chunk: nat, next: nat, failed: bool, failedBlock: int,
    pcs: seq<Pc>, owner: seq<nat>, log: seq<nat>)

  lemma {:induction false} QuotientIs(n: nat, d: nat)
    requires d > 0
    ensures var c := n / d / 4; c * 4 * d <= n < (c + 1) * 4 * d
    ensures var c := n / d / 4; c > MAX_JOB_CHUNK ==> MAX_JOB_CHUNK * 4 * d <= n
  {
    var e, c := n / d, n / d / 4;
    assert e * d <= n < (e + 1) * d;
    assert c * 4 <= e && e + 1 <= (c + 1) * 4;
    Times(c * 4, e, d);
    Times(e + 1, (c + 1) * 4, d);
    if c > MAX_JOB_CHUNK {
      Times(MAX_JOB_CHUNK * 4, c * 4, d);
    }
  }

  lemma {:induction false} Times(a: nat, b: nat, d: nat)
    requires a <= b
    ensures a * d <= b * d
  {
  }

  /**
   * The claim size of `decompress_queue_init`: between 1 and 8 jobs, and the largest that leaves four claims for
   * each participant.
   */
  function ChunkSize(nJobs: nat, nThreads: nat): (c: nat)
    requires nThreads > 0
    ensures 1 <= c <= MAX_JOB_CHUNK
    ensures c == 1 || c * 4 * nThreads <= nJobs
    ensures c == MAX_JOB_CHUNK || nJobs < (c + 1) * 4 * nThreads
  {
    var c := nJobs / nThreads / 4;
    QuotientIs(nJobs, nThreads);
    if c == 0 then 1 else if c > MAX_JOB_CHUNK then MAX_JOB_CHUNK else c
  }

  /** `decompress_queue_init`; the participants stay where they are. */
  function Init(jobs: seq<Job>, nThreads: nat, pcs: seq<Pc>): Queue
    requires nThreads > 0
  {
    Queue(jobs, ChunkSize(|jobs|, nThreads), 0, false, INT_MAX, pcs, [], [])
  }

  predicate Enabled(q: Queue, p: nat) {
    && p < |q.pcs|
    && !q.pcs[p].Off? && !q.pcs[p].Done?
    // A participant that still holds a claim dereferences the borrowed array.
    && (q.pcs[p].Run? && q.pcs[p].i < q.pcs[p].end ==> q.pcs[p].i < |q.jobs|)
    && (q.pcs[p].Load? || q.pcs[p].Cas? || q.pcs[p].Store? ==> q.pcs[p].g < |q.jobs|)
  }

  /** One atomic step of participant `p`. */
  function Step(q: Queue, p: nat): Queue
    requires Enabled(q, p)
  {
    match q.pcs[p]
    case Claim => q.(pcs := q.pcs[p := if q.failed then Done else Fetch])
    case Fetch =>
      if q.next >= |q.jobs| then
        q.(next := q.next + q.chunk, pcs := q.pcs[p := Done])
      else
        var end := Min(q.next + q.chunk, |q.jobs|);
        q.(next := q.next + q.chunk,
           pcs := q.pcs[p := Run(q.next, end)],
           owner := q.owner + seq(end - q.next, _ => p))
    case Run(i, end) =>
      if i >= end then
        q.(pcs := q.pcs[p := Claim])
      else
        q.(log := q.log + [i],
           pcs := q.pcs[p := if q.jobs[i].decodes then Run(i + 1, end) else Load(i)])
    case Load(g) =>
      q.(pcs := q.pcs[p := Retry(q, g)])
    case Cas(g, earliest) =>
      if q.failedBlock == earliest then
        q.(failedBlock := q.jobs[g].blockIndex, pcs := q.pcs[p := Store(g)])
      else
        q.(pcs := q.pcs[p := Retry(q, g)])
    case Store(g) => q.(failed := true, pcs := q.pcs[p := Claim])
  }

  /** The test of the recording loop after `failed_block` has been read: swap it, or leave the loop. */
  function Retry(q: Queue, g: nat): Pc
    requires g < |q.jobs|
  {
    if q.jobs[g].blockIndex < q.failedBlock then Cas(g, q.failedBlock) else Store(g)
  }

  /** No job before `j` fails. */
  ghost predicate DecodesBefore(jobs: seq<Job>, j: nat)
    requires j <= |jobs|
  {
    forall g :: 0 <= g < j ==> jobs[g].decodes
  }

  ghost predicate AllDecode(jobs: seq<Job>) { DecodesBefore(jobs, |jobs|) }

  /** Callers number the jobs of one batch in increasing block order. */
  ghost predicate Increasing(jobs: seq<Job>) {
    && (forall i, j :: 0 <= i < j < |jobs| ==> jobs[i].blockIndex < jobs[j].blockIndex)
    && (forall i :: 0 <= i < |jobs| ==> jobs[i].blockIndex <= INT_MAX)
  }

  /** The index of the first failing job, or the number of jobs. */
  function FirstFailure(jobs: seq<Job>): (f: nat)
    ensures f <= |jobs| && DecodesBefore(jobs, f)
    ensures f < |jobs| ==> !jobs[f].decodes
  {
    if jobs == [] || !jobs[0].decodes then 0
    else
      var f := FirstFailure(jobs[1..]);
      assert forall g :: 1 <= g < f + 1 ==> jobs[g] == jobs[1..][g - 1];
      f + 1
  }

  ghost predicate Holds(pc: Pc, j: nat) { pc.Run? && pc.i <= j < pc.end }

  ghost predicate Recording(pc: Pc, g: nat) { (pc.Load? || pc.Cas? || pc.Store?) && pc.g == g }

  ghost predicate Failing(q: Queue, g: nat) { g < |q.jobs| && !q.jobs[g].decodes }

  /** What the position of one participant promises. */
  ghost predicate PcOk(q: Queue, p: nat)
    requires p < |q.pcs| && |q.owner| <= |q.jobs|
  {
    match q.pcs[p]
    case Run(i, end) =>
      && i <= end <= |q.owner|
      && (forall j :: i <= j < end ==> q.owner[j] == p && j !in q.log)
    case Load(g) => Failing(q, g) && g in q.log && g < |q.owner| && q.owner[g] == p
    case Cas(g, earliest) => Failing(q, g) && g in q.log && g < |q.owner| && q.owner[g] == p
      && q.jobs[g].blockIndex < earliest
    case Store(g) => Failing(q, g) && g in q.log && g < |q.owner| && q.owner[g] == p
      && q.failedBlock <= q.jobs[g].blockIndex
    case Done => q.failed || q.next >= |q.jobs|
    case _ => true
  }

  /** Claimed jobs are exactly the prefix below next_job, each by one participant; each job ran at most once. */
  ghost predicate ClaimsOk(q: Queue) {
    && q.chunk > 0
    && |q.owner| == Min(q.next, |q.jobs|)
    && (forall j :: 0 <= j < |q.owner| ==> q.owner[j] < |q.pcs|)
    && (forall k :: 0 <= k < |q.log| ==> q.log[k] < |q.owner|)
    && (forall k, l :: 0 <= k < l < |q.log| ==> q.log[k] != q.log[l])
    && (forall p :: 0 <= p < |q.pcs| ==> PcOk(q, p))
  }

  /** A claimed job that no earlier failure excuses has run or is still held by its claimant. */
  ghost predicate CoverageOk(q: Queue)
    requires ClaimsOk(q)
  {
    forall j :: 0 <= j < |q.owner| && DecodesBefore(q.jobs, j) ==> j in q.log || Holds(q.pcs[q.owner[j]], j)
  }

  /** A failure that was run is either published or still being recorded, and only failures are published. */
  ghost predicate FailureOk(q: Queue)
    requires ClaimsOk(q)
  {
    && (forall g :: g in q.log && Failing(q, g) ==>
          (q.failed && q.failedBlock <= q.jobs[g].blockIndex) || Recording(q.pcs[q.owner[g]], g))
    && (q.failedBlock == INT_MAX || exists g :: g in q.log && Failing(q, g) && q.jobs[g].blockIndex == q.failedBlock)
    && (q.failed ==> exists g :: g in q.log && Failing(q, g))
  }

  ghost predicate Inv(q: Queue) { ClaimsOk(q) && CoverageOk(q) && FailureOk(q) }

  ghost predicate Quiet(pc: Pc) { pc.Off? || pc.Done? }

  lemma {:induction false} InitInv(jobs: seq<Job>, nThreads: nat, pcs: seq<Pc>)
    requires nThreads > 0
    requires forall p :: 0 <= p < |pcs| ==> pcs[p].Off?
    ensures Inv(Init(jobs, nThreads, pcs))
  {
  }

  lemma {:induction false} InvEnabled(q: Queue, p: nat)
    requires Inv(q) && p < |q.pcs| && !Quiet(q.pcs[p])
    ensures Enabled(q, p)
  {
    assert PcOk(q, p);
  }

  lemma {:induction false} FetchClaims(q: Queue, p: nat)
    requires Inv(q) && Enabled(q, p) && q.pcs[p].Fetch?
    ensures ClaimsOk(Step(q, p))
  {
    var q' := Step(q, p);
    forall r | 0 <= r < |q'.pcs|
      ensures PcOk(q', r)
    {
      assert PcOk(q, r);
    }
  }

  lemma {:induction false} RunClaims(q: Queue, p: nat)
    requires Inv(q) && Enabled(q, p) && q.pcs[p].Run?
    ensures ClaimsOk(Step(q, p))
  {
    var q' := Step(q, p);
    assert PcOk(q, p);
    if q.pcs[p].i < q.pcs[p].end {
      var i := q.pcs[p].i;
      assert q.owner[i] == p && i !in q.log;
      forall r | 0 <= r < |q'.pcs|
        ensures PcOk(q', r)
      {
        assert PcOk(q, r);
        assert i in q'.log;
        if r != p && q.pcs[r].Run? {
          assert forall j :: q.pcs[r].i <= j < q.pcs[r].end ==> q.owner[j] == r;
        }
      }
    } else {
      forall r | 0 <= r < |q'.pcs|
        ensures PcOk(q', r)
      {
        assert PcOk(q, r);
      }
    }
  }

  /** A participant that did not move keeps its promise when failures only sink and the flag only rises. */
  lemma {:induction false} PcFrame(q: Queue, q': Queue, r: nat)
    requires r < |q.pcs| == |q'.pcs| && q'.pcs[r] == q.pcs[r]
    requires q'.jobs == q.jobs && q'.owner == q.owner && q'.log == q.log && q'.next == q.next
    requires |q.owner| <= |q.jobs| && q'.failedBlock <= q.failedBlock && (q.failed ==> q'.failed)
    requires PcOk(q, r)
    ensures PcOk(q', r)
  {
  }

  lemma {:induction false} RecordClaims(q: Queue, p: nat)
    requires Inv(q) && Enabled(q, p) && !q.pcs[p].Fetch? && !q.pcs[p].Run?
    ensures ClaimsOk(Step(q, p))
  {
    var q' := Step(q, p);
    assert PcOk(q, p);
    assert q'.failedBlock <= q.failedBlock && PcOk(q', p);
    forall r | 0 <= r < |q'.pcs|
      ensures PcOk(q', r)
    {
      if r != p {
        assert PcOk(q, r);
        PcFrame(q, q', r);
      }
    }
  }

  lemma {:induction false} StepClaims(q: Queue, p: nat)
    requires Inv(q) && Enabled(q, p)
    ensures ClaimsOk(Step(q, p))
  {
    if q.pcs[p].Fetch? {
      FetchClaims(q, p);
    } else if q.pcs[p].Run? {
      RunClaims(q, p);
    } else {
      RecordClaims(q, p);
    }
  }

  lemma {:induction false} StepCoverage(q: Queue, p: nat)
    requires Inv(q) && Enabled(q, p) && ClaimsOk(Step(q, p))
    ensures CoverageOk(Step(q, p))
  {
    var q' := Step(q, p);
    assert PcOk(q, p);
    forall j | 0 <= j < |q'.owner| && DecodesBefore(q'.jobs, j)
      ensures j in q'.log || Holds(q'.pcs[q'.owner[j]], j)
    {
      if j < |q.owner| {
        assert j in q.log || Holds(q.pcs[q.owner[j]], j);
        if j in q.log {
        } else if q.owner[j] == p {
          assert q.pcs[p].Run? && q.pcs[p].i <= j < q.pcs[p].end;
          if j == q.pcs[p].i {
            assert q'.log[|q.log|] == j;
          } else {
            assert q.jobs[q.pcs[p].i].decodes;
          }
        }
      }
    }
  }

  lemma {:induction false} RunFailure(q: Queue, p: nat)
    requires Inv(q) && Enabled(q, p) && ClaimsOk(Step(q, p)) && q.pcs[p].Run? && q.pcs[p].i < q.pcs[p].end
    ensures FailureOk(Step(q, p))
  {
    var q' := Step(q, p);
    assert PcOk(q, p);
    assert forall g :: g in q'.log <==> g in q.log || g == q.pcs[p].i;
    forall g | g in q'.log && Failing(q', g)
      ensures (q'.failed && q'.failedBlock <= q'.jobs[g].blockIndex) || Recording(q'.pcs[q'.owner[g]], g)
    {
      if g in q.log {
        assert (q.failed && q.failedBlock <= q.jobs[g].blockIndex) || Recording(q.pcs[q.owner[g]], g);
      }
    }
    if q.failed {
      var g :| g in q.log && Failing(q, g);
      assert g in q'.log && Failing(q', g);
    }
    if q.failedBlock != INT_MAX {
      var g :| g in q.log && Failing(q, g) && q.jobs[g].blockIndex == q.failedBlock;
      assert g in q'.log && Failing(q', g) && q'.jobs[g].blockIndex == q'.failedBlock;
    }
  }

  /** A published or still recorded failure stays so when failed_block only sinks. */
  lemma {:induction false} RecordCovered(q: Queue, p: nat, g: nat)
    requires Inv(q) && Enabled(q, p) && ClaimsOk(Step(q, p)) && Step(q, p).log == q.log
    requires g in q.log && Failing(q, g)
    ensures (Step(q, p).failed && Step(q, p).failedBlock <= q.jobs[g].blockIndex)
              || Recording(Step(q, p).pcs[Step(q, p).owner[g]], g)
  {
    assert PcOk(q, p);
    assert (q.failed && q.failedBlock <= q.jobs[g].blockIndex) || Recording(q.pcs[q.owner[g]], g);
  }

  lemma {:induction false} RecordFailure(q: Queue, p: nat)
    requires Inv(q) && Enabled(q, p) && ClaimsOk(Step(q, p)) && Step(q, p).log == q.log
    ensures FailureOk(Step(q, p))
  {
    var q' := Step(q, p);
    forall g | g in q'.log && Failing(q', g)
      ensures (q'.failed && q'.failedBlock <= q'.jobs[g].blockIndex) || Recording(q'.pcs[q'.owner[g]], g)
    {
      assert Failing(q, g);
      RecordCovered(q, p, g);
    }
    var g: nat;
    if q'.failed != q.failed || q'.failedBlock != q.failedBlock {
      assert PcOk(q, p);
      g := q.pcs[p].g;
      assert g in q'.log && Failing(q', g);
    }
    if q'.failed && q.failed {
      g :| g in q.log && Failing(q, g);
      assert Failing(q', g);
    }
    if q'.failedBlock != INT_MAX && q'.failedBlock == q.failedBlock {
      g :| g in q.log && Failing(q, g) && q.jobs[g].blockIndex == q.failedBlock;
      assert Failing(q', g);
    }
  }

  lemma {:induction false} StepFailure(q: Queue, p: nat)
    requires Inv(q) && Enabled(q, p) && ClaimsOk(Step(q, p))
    ensures FailureOk(Step(q, p))
  {
    if q.pcs[p].Run? && q.pcs[p].i < q.pcs[p].end {
      RunFailure(q, p);
    } else {
      RecordFailure(q, p);
    }
  }

  /** Every step of every participant keeps the queue's invariant. */
  lemma {:induction false} StepInv(q: Queue, p: nat)
    requires Inv(q) && Enabled(q, p)
    ensures Inv(Step(q, p))
  {
    StepClaims(q, p);
    StepCoverage(q, p);
    StepFailure(q, p);
  }

  /** A step moves only its own participant, which stays in the run, and never takes a failure or a claim back. */
  lemma {:induction false} StepFrame(q: Queue, p: nat)
    requires Enabled(q, p)
    ensures Step(q, p).jobs == q.jobs && |Step(q, p).pcs| == |q.pcs|
    ensures forall r :: 0 <= r < |q.pcs| && r != p ==> Step(q, p).pcs[r] == q.pcs[r]
    ensures !Step(q, p).pcs[p].Off?
    ensures (q.failed ==> Step(q, p).failed) && Step(q, p).next >= q.next
  {
  }

  /** The outcome a batch must report: nothing, or the first failing job's block. */
  ghost predicate Outcome(jobs: seq<Job>, failed: bool, failedBlock: int) {
    && (failed <==> !AllDecode(jobs))
    && (failed && Increasing(jobs) ==>
        FirstFailure(jobs) < |jobs| && failedBlock == jobs[FirstFailure(jobs)].blockIndex)
  }

  /** An order in which jobs of a batch of `n` were run: no job twice. */
  ghost predicate RunsAtMostOnce(log: seq<nat>, n: nat) {
    && (forall k :: 0 <= k < |log| ==> log[k] < n)
    && (forall k, l :: 0 <= k < l < |log| ==> log[k] != log[l])
  }

  /** `log` runs every job of a batch of `n`, each exactly once. */
  ghost predicate RunsEachOnce(log: seq<nat>, n: nat) {
    RunsAtMostOnce(log, n) && forall j :: 0 <= j < n ==> j in log
  }

  lemma {:induction false} FirstFailureRan(q: Queue)
    requires Inv(q) && (q.failed || q.next >= |q.jobs|)
    requires forall p :: 0 <= p < |q.pcs| ==> Quiet(q.pcs[p])
    requires !AllDecode(q.jobs)
    ensures FirstFailure(q.jobs) < |q.jobs| && FirstFailure(q.jobs) in q.log && q.failed
    ensures q.failedBlock <= q.jobs[FirstFailure(q.jobs)].blockIndex
  {
    var f := FirstFailure(q.jobs);
    assert f < |q.jobs|;
    if q.failed {
      var g :| g in q.log && Failing(q, g);
      assert f <= g;
    }
    assert f < |q.owner|;
    assert Failing(q, f);
    assert Quiet(q.pcs[q.owner[f]]);
  }

  /**
   * Once every participant has stopped, in whatever order they ran, the queue reports what a serial
   * run reports: no failure exactly when all jobs decode, and otherwise the lowest failing block.
   * When nothing failed, every job has run exactly once.
   */
  lemma {:induction false} DrainedOutcome(q: Queue)
    requires Inv(q) && (q.failed || q.next >= |q.jobs|)
    requires forall p :: 0 <= p < |q.pcs| ==> Quiet(q.pcs[p])
    ensures Outcome(q.jobs, q.failed, q.failedBlock)
    ensures !q.failed ==> RunsEachOnce(q.log, |q.jobs|)
  {
    if AllDecode(q.jobs) {
      assert !q.failed;
      forall j | 0 <= j < |q.jobs|
        ensures j in q.log
      {
        assert DecodesBefore(q.jobs, j);
        assert Quiet(q.pcs[q.owner[j]]);
      }
    } else {
      FirstFailureRan(q);
      if Increasing(q.jobs) {
        var f := FirstFailure(q.jobs);
        if q.failedBlock != INT_MAX {
          var g :| g in q.log && Failing(q, g) && q.jobs[g].blockIndex == q.failedBlock;
          assert f <= g;
        }
      }
    }
  }

  /** What a queue that starts at INT_MAX records of one failing block. */
  function Capped(block: int): int { if block < INT_MAX then block else INT_MAX }

  /** The first `n` jobs in order. */
  ghost predicate InOrder(log: seq<nat>, n: nat) {
    |log| == n && forall k :: 0 <= k < n ==> log[k] == k
  }

  lemma {:induction false} InOrderRuns(log: seq<nat>, n: nat)
    requires InOrder(log, n)
    ensures RunsEachOnce(log, n)
  {
    forall j | 0 <= j < n
      ensures j in log
    {
      assert log[j] == j;
    }
  }

  /** One claimed chunk of the serial run: up to its first failure. */
  method RunChunk(jobs: seq<Job>, start: nat, end: nat, already: seq<nat>)
    returns (failed: bool, failedBlock: int, log: seq<nat>)
    requires start <= end <= |jobs| && DecodesBefore(jobs, start) && InOrder(already, start)
    ensures !failed ==> DecodesBefore(jobs, end) && failedBlock == INT_MAX && InOrder(log, end)
    ensures failed ==> FirstFailure(jobs) < |jobs| && InOrder(log, FirstFailure(jobs) + 1)
    ensures failed ==> failedBlock == Capped(jobs[FirstFailure(jobs)].blockIndex)
  {
    var i := start;
    failed, failedBlock, log := false, INT_MAX, already;
    while i < end
      invariant start <= i <= end && !failed && failedBlock == INT_MAX
      invariant DecodesBefore(jobs, i) && InOrder(log, i)
    {
      log := log + [i];
      if !jobs[i].decodes {
        assert FirstFailure(jobs) == i;
        if jobs[i].blockIndex < failedBlock {
          failedBlock := jobs[i].blockIndex;
        }
        failed := true;
        return;
      }
      i := i + 1;
    }
  }

  /** `decompress_jobs_serial`: the caller alone claims, runs and records; the first failing job decides. */
  method RunSerial(jobs: seq<Job>) returns (failed: bool, failedBlock: int, log: seq<nat>)
    ensures Outcome(jobs, failed, failedBlock)
    ensures RunsAtMostOnce(log, |jobs|) && (!failed ==> RunsEachOnce(log, |jobs|))
    ensures InOrder(log, if failed then FirstFailure(jobs) + 1 else |jobs|)
  {
    var chunk := ChunkSize(|jobs|, 1);
    var next := 0;
    failed, failedBlock, log := false, INT_MAX, [];
    while !failed && next < |jobs|
      invariant 0 <= next
      invariant !failed ==> DecodesBefore(jobs, Min(next, |jobs|)) && failedBlock == INT_MAX
      invariant !failed ==> InOrder(log, Min(next, |jobs|))
      invariant failed ==> FirstFailure(jobs) < |jobs| && InOrder(log, FirstFailure(jobs) + 1)
      invariant failed ==> failedBlock == Capped(jobs[FirstFailure(jobs)].blockIndex)
      decreases !failed, |jobs| - next
    {
      failed, failedBlock, log := RunChunk(jobs, next, Min(next + chunk, |jobs|), log);
      next := next + chunk;
    }
    InOrderRuns(log, |log|);
  }
}
