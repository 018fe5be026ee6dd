/**
 * Every step of a participant of the job queue brings its end nearer, so that a queue is drained after
 * a bounded number of steps however its participants interleave.
 */
module QueueProgress {
  import opened Common
  import JobQueue

  type Queue = JobQueue.Queue

  /** What running one claimed job can cost: recording a failure may be disturbed once by every participant. */
  function JobCost(q: Queue): nat { |q.pcs| + 6 }

  /** What is left to do for a participant before it claims again. */
  function PcCost(q: Queue, p: nat): nat
    requires p < |q.pcs|
  {
    match q.pcs[p]
    case Off => 0
    case Done => 0
    case Fetch => 1
    case Claim => 2
    case Store(_) => 3
    case Run(i, end) => (if i < end then (end - i) * JobCost(q) else 0) + 3
    case Load(_) => |q.pcs| + 6
    case Cas(_, earliest) => |q.pcs| + if q.failedBlock == earliest then 4 else 5
  }

  function Costs(q: Queue): seq<nat> { seq(|q.pcs|, p requires 0 <= p < |q.pcs| => PcCost(q, p)) }

  /** What is left to do: the jobs that nobody has claimed, and the positions of the participants. */
  function Work(q: Queue): nat
    requires |q.owner| <= |q.jobs|
  {
    (|q.jobs| - |q.owner|) * (JobCost(q) + 3) + Sum(Costs(q))
  }

  /** Only participant `p` has moved, and the recorded failure is the same. */
  lemma {:induction false} OnlyMoved(q: Queue, q': Queue, p: nat)
    requires p < |q.pcs| == |q'.pcs| && q'.failedBlock == q.failedBlock
    requires forall r :: 0 <= r < |q.pcs| && r != p ==> q'.pcs[r] == q.pcs[r]
    ensures Sum(Costs(q')) == Sum(Costs(q)) - PcCost(q, p) + PcCost(q', p)
  {
    assert Costs(q') == Costs(q)[p := PcCost(q', p)];
    SumUpdate(Costs(q), p, PcCost(q', p));
  }

  lemma {:induction false} ClaimPays(left: nat, n: nat, cost: nat)
    requires 0 < n <= left
    ensures (left - n) * (cost + 3) + n * cost + 3 < left * (cost + 3) + 1
  {
    assert left * (cost + 3) == (left - n) * (cost + 3) + n * (cost + 3);
    assert n * (cost + 3) == n * cost + n * 3;
  }

  /** How many jobs a fetch claims, and what they cost. */
  lemma {:induction false} FetchCost(q: Queue, p: nat) returns (n: nat)
    requires JobQueue.Enabled(q, p) && q.pcs[p].Fetch? && q.chunk > 0 && |q.owner| == q.next < |q.jobs|
    ensures 0 < n <= |q.jobs| - |q.owner| && |JobQueue.Step(q, p).owner| == |q.owner| + n
    ensures PcCost(JobQueue.Step(q, p), p) == n * JobCost(q) + 3
  {
    n := Min(q.next + q.chunk, |q.jobs|) - q.next;
    assert JobQueue.Step(q, p).pcs[p] == JobQueue.Run(q.next, q.next + n);
  }

  lemma {:induction false} FetchWork(q: Queue, p: nat)
    requires JobQueue.Inv(q) && JobQueue.Enabled(q, p) && q.pcs[p].Fetch? && q.next < |q.jobs|
    ensures |JobQueue.Step(q, p).owner| <= |q.jobs| && Work(JobQueue.Step(q, p)) < Work(q)
  {
    OnlyMoved(q, JobQueue.Step(q, p), p);
    var n := FetchCost(q, p);
    ClaimPays(|q.jobs| - |q.owner|, n, JobCost(q));
  }

  lemma {:induction false} OneLess(n: nat, cost: nat)
    requires n > 0
    ensures n * cost == (n - 1) * cost + cost && (n - 1) * cost >= 0
  {
  }

  lemma {:induction false} RunCost(q: Queue, p: nat)
    requires JobQueue.Enabled(q, p) && q.pcs[p].Run?
    ensures PcCost(JobQueue.Step(q, p), p) < PcCost(q, p)
  {
    var i, end := q.pcs[p].i, q.pcs[p].end;
    if i < end {
      OneLess(end - i, JobCost(q));
    }
  }

  lemma {:induction false} RunWork(q: Queue, p: nat)
    requires |q.owner| <= |q.jobs| && JobQueue.Enabled(q, p) && q.pcs[p].Run?
    ensures Work(JobQueue.Step(q, p)) < Work(q)
  {
    OnlyMoved(q, JobQueue.Step(q, p), p);
    RunCost(q, p);
  }

  /** A successful swap may make every other participant try once more, and is the last of its own. */
  lemma {:induction false} SwapWork(q: Queue, p: nat)
    requires JobQueue.Inv(q) && JobQueue.Enabled(q, p) && q.pcs[p].Cas? && q.failedBlock == q.pcs[p].earliest
    ensures Work(JobQueue.Step(q, p)) < Work(q)
  {
    var q' := JobQueue.Step(q, p);
    var lower := Costs(q)[p := 3];
    SumUpdate(Costs(q), p, 3);
    forall r | 0 <= r < |q.pcs|
      ensures Costs(q')[r] <= lower[r] + 1
    {
      assert r != p ==> q'.pcs[r] == q.pcs[r];
    }
    SumGrows(lower, Costs(q'), 1);
  }

  /** Every step of every participant leaves less to do. */
  lemma {:induction false} StepWork(q: Queue, p: nat)
    requires JobQueue.Inv(q) && JobQueue.Enabled(q, p)
    ensures |JobQueue.Step(q, p).owner| <= |q.jobs| && Work(JobQueue.Step(q, p)) < Work(q)
  {
    if q.pcs[p].Fetch? && q.next < |q.jobs| {
      FetchWork(q, p);
    } else if q.pcs[p].Run? {
      RunWork(q, p);
    } else if q.pcs[p].Cas? && q.failedBlock == q.pcs[p].earliest {
      SwapWork(q, p);
    } else {
      OnlyMoved(q, JobQueue.Step(q, p), p);
    }
  }
}
