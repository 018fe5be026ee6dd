/**
 * The restore-wide budget (`struct decompression_shared_budget`): two futex counters that every
 * restore thread takes slots from with compare-and-swap, one for CPU threads and one for encoded
 * batches. Each thread owns one encoded-read context and follows the lease discipline of
 * `encoded_async_read_batch` and `decompress_jobs_parallel_pool_with_caller_work`.
 */
module SharedBudget {
  import opened Common

  const MAX_BATCHES := 2

  datatype Which = Threads | Batches

  /** Where a thread continues after the futex_wake of a release. */
  datatype After = ToReady | ToRun | ToEnd | ToIdle

  datatype Pc =
    | Idle                                      // no active read
    | Ready                                     // holds its batch lease, between two requests
    | Read(w: Which, req: nat)                  // shared_budget_acquire: about to read the counter
    | Cas(w: Which, req: nat, cur: nat)         // about to swap `cur` for cur - min(req, cur)
    | Wait(w: Which, req: nat)                  // about to enter the kernel wait for a non-zero counter
    | Sleep(w: Which, req: nat)
    | TryRead                                   // shared_budget_try_acquire of the prefetch lease
    | TryCas(cur: nat)
    | Sized                                     // got its CPU slots, pool not chosen yet
    | Running(active: nat)                      // `active` participants decode
    | End                                       // inside encoded_read_ctx_end_work
    | Wake(w: Which, after: After)              // slots returned, futex_wake still to be called

  /** A thread and the slots it holds. */
  datatype Client = Client(pc: Pc, batch: bool, prefetch: bool, held: nat)

  /** The two counters, the capacity and the settings it was made of, and the threads. */
  datatype Budget = Budget(
    threads: nat, batches: nat, threadCap: nat, configured: nat, cpus: nat, c: seq<Client>)

  datatype Step =
    | BeginWork(i: nat)
    | Attempt(i: nat)                           // the next step of an acquire loop
    | TimeOut(i: nat)                           // the kernel wait returns without a wake-up
    | TryPrefetch(i: nat)
    | DropPrefetch(i: nat)
    | AskThreads(i: nat, useful: nat)
    | PickPool(i: nat, width: nat)              // width of the pool that exists or could be created
    | GiveUp(i: nat)                            // the signal mask could not be restored
    | Finished(i: nat)
    | EndWork(i: nat)
    | EndRelease(i: nat)
    | WakeAll(i: nat)

  /** `decompression_thread_limit`: the automatic setting takes all CPUs, and at least one is assumed. */
  function ThreadLimit(requested: nat, cpus: nat): (r: nat)
    ensures cpus == 0 ==> r == 1
    ensures cpus > 0 && (requested == 0 || requested >= cpus) ==> r == cpus
    ensures 0 < requested <= cpus ==> r == requested
  {
    var available := if cpus == 0 then 1 else cpus;
    if requested == 0 then available else Min(requested, available)
  }

  /** `decompression_budget_capacity`: serial and automatic settings do not shrink the shared budget. */
  function Capacity(configured: nat, cpus: nat): (r: nat)
    ensures cpus == 0 ==> r == 1
    ensures cpus > 0 && (configured < 2 || configured >= cpus) ==> r == cpus
    ensures 2 <= configured <= cpus ==> r == configured
  {
    ThreadLimit(if configured < 2 then 0 else configured, cpus)
  }

  /** The slots of one counter that a thread holds. */
  function Held(cl: Client, w: Which): nat {
    match w
    case Threads => cl.held
    case Batches => (if cl.batch then 1 else 0) + (if cl.prefetch then 1 else 0)
  }

  function Sum(c: seq<Client>, w: Which): nat {
    if c == [] then 0 else Held(c[0], w) + Sum(c[1..], w)
  }

  function Free(s: Budget, w: Which): nat { if w.Threads? then s.threads else s.batches }

  function SetFree(s: Budget, w: Which, v: nat): Budget { if w.Threads? then s.(threads := v) else s.(batches := v) }

  function Total(s: Budget, w: Which): nat { if w.Threads? then s.threadCap else MAX_BATCHES }

  function SetClient(s: Budget, i: nat, cl: Client): Budget
    requires i < |s.c|
  {
    s.(c := s.c[i := cl])
  }

  function SetPc(s: Budget, i: nat, pc: Pc): Budget
    requires i < |s.c|
  {
    SetClient(s, i, s.c[i].(pc := pc))
  }

  /** The thread after its acquire loop was granted `granted` slots. */
  function Granted(cl: Client, w: Which, granted: nat): Client {
    match w
    case Threads => cl.(held := granted, pc := Sized)
    case Batches => cl.(batch := true, pc := Ready)
  }

  /** One step of `shared_budget_acquire` or `shared_budget_try_acquire`. */
  function DoAttempt(s: Budget, i: nat): Budget
    requires i < |s.c|
  {
    match s.c[i].pc
    case Read(w, req) => SetPc(s, i, if Free(s, w) == 0 then Wait(w, req) else Cas(w, req, Free(s, w)))
    case Cas(w, req, cur) =>
      if Free(s, w) == cur
      then SetClient(SetFree(s, w, cur - Min(req, cur)), i, Granted(s.c[i], w, Min(req, cur)))
      else SetPc(s, i, Read(w, req))
    case Wait(w, req) => SetPc(s, i, if Free(s, w) == 0 then Sleep(w, req) else Read(w, req))
    case TryRead => SetPc(s, i, if s.batches == 0 then Ready else TryCas(s.batches))
    case TryCas(cur) =>
      if s.batches == cur && cur > 0
      then SetClient(s.(batches := cur - 1), i, s.c[i].(prefetch := true, pc := Ready))
      else SetPc(s, i, if s.batches == 0 then Ready else TryCas(s.batches))
    case _ => s
  }

  predicate Attempting(pc: Pc) { pc.Read? || pc.Cas? || pc.Wait? || pc.TryRead? || pc.TryCas? }

  /** Every sleeper on counter `w` is woken. */
  function WakeSleepers(c: seq<Client>, w: Which): (r: seq<Client>)
    ensures |r| == |c|
  {
    seq(|c|, k requires 0 <= k < |c| =>
      if c[k].pc.Sleep? && c[k].pc.w == w then c[k].(pc := Wait(w, c[k].pc.req)) else c[k])
  }

  function Resume(after: After, held: nat): Pc {
    match after
    case ToReady => Ready
    case ToRun => Running(held)
    case ToEnd => End
    case ToIdle => Idle
  }

  function DoWake(s: Budget, i: nat): Budget
    requires i < |s.c| && s.c[i].pc.Wake?
  {
    var woken := s.(c := WakeSleepers(s.c, s.c[i].pc.w));
    SetClient(woken, i, s.c[i].(pc := Resume(s.c[i].pc.after, s.c[i].held)))
  }

  /** `decompress_budget_trim_reservation` to the pool's width, with no pool counting as width one. */
  function DoTrim(s: Budget, i: nat, width: nat): Budget
    requires i < |s.c|
  {
    var keep := Min(s.c[i].held, width);
    if keep == s.c[i].held then SetPc(s, i, Running(keep))
    else SetClient(s.(threads := s.threads + (s.c[i].held - keep)), i,
      s.c[i].(held := keep, pc := Wake(Threads, ToRun)))
  }

  function ReturnThreads(s: Budget, i: nat): Budget
    requires i < |s.c|
  {
    SetClient(s.(threads := s.threads + s.c[i].held), i, s.c[i].(held := 0, pc := Wake(Threads, ToReady)))
  }

  ghost predicate NextStep(s: Budget, s': Budget, step: Step) {
    match step
    case BeginWork(i) => i < |s.c| && s.c[i].pc.Idle? && s' == SetPc(s, i, Read(Batches, 1))
    case Attempt(i) => i < |s.c| && Attempting(s.c[i].pc) && s' == DoAttempt(s, i)
    case TimeOut(i) =>
      i < |s.c| && s.c[i].pc.Sleep? && s' == SetPc(s, i, Wait(s.c[i].pc.w, s.c[i].pc.req))
    case TryPrefetch(i) => i < |s.c| && s.c[i].pc.Ready? && !s.c[i].prefetch && s' == SetPc(s, i, TryRead)
    case DropPrefetch(i) =>
      && i < |s.c| && s.c[i].pc.Ready? && s.c[i].prefetch
      && s' == SetClient(s.(batches := s.batches + 1), i, s.c[i].(prefetch := false, pc := Wake(Batches, ToReady)))
    case AskThreads(i, useful) => i < |s.c| && s.c[i].pc.Ready? && useful > 0
      && s' == SetPc(s, i, Read(Threads, useful))
    case PickPool(i, width) => i < |s.c| && s.c[i].pc.Sized? && width > 0 && s' == DoTrim(s, i, width)
    case GiveUp(i) => i < |s.c| && s.c[i].pc.Sized? && s' == ReturnThreads(s, i)
    case Finished(i) => i < |s.c| && s.c[i].pc.Running? && s' == ReturnThreads(s, i)
    case EndWork(i) => i < |s.c| && s.c[i].pc.Ready? && s' == SetPc(s, i, End)
    case EndRelease(i) =>
      && i < |s.c| && s.c[i].pc.End?
      && s' == SetClient(s.(batches := s.batches + 1), i,
                 if s.c[i].prefetch then s.c[i].(prefetch := false, pc := Wake(Batches, ToEnd))
                 else s.c[i].(batch := false, pc := Wake(Batches, ToIdle)))
    case WakeAll(i) => i < |s.c| && s.c[i].pc.Wake? && s' == DoWake(s, i)
  }

  ghost predicate Init(s: Budget) {
    && s.threads == s.threadCap == Capacity(s.configured, s.cpus) && s.batches == MAX_BATCHES
    && forall i :: 0 <= i < |s.c| ==> s.c[i] == Client(Idle, false, false, 0)
  }

  ghost predicate Next(s: Budget, s': Budget) { exists step :: NextStep(s, s', step) }

  ghost predicate IsRun(run: seq<Budget>) {
    && |run| > 0 && Init(run[0])
    && forall k :: 0 <= k < |run| - 1 ==> Next(run[k], run[k + 1])
  }

  /** The leases that go with each position: CPU slots are held only while sized, running or returning a surplus. */
  ghost predicate ClientOk(cl: Client) {
    && (cl.held > 0 <==> cl.pc.Sized? || cl.pc.Running? || (cl.pc.Wake? && cl.pc.after.ToRun?))
    && (cl.prefetch ==> cl.batch)
    && (cl.batch <==> !(cl.pc.Idle? || (Acquiring(cl.pc) && cl.pc.w.Batches?) || (cl.pc.Wake? && cl.pc.after.ToIdle?)))
    && (cl.pc.Running? ==> cl.pc.active == cl.held)
    && (Acquiring(cl.pc) ==> cl.pc.req > 0 && (cl.pc.w.Batches? ==> cl.pc.req == 1))
    && (cl.pc.Cas? || cl.pc.TryCas? ==> cl.pc.cur > 0)
    && (cl.pc.TryRead? || cl.pc.TryCas? ==> !cl.prefetch)
  }

  predicate Acquiring(pc: Pc) { pc.Read? || pc.Cas? || pc.Wait? || pc.Sleep? }

  ghost predicate WakePending(s: Budget, w: Which) {
    exists j :: 0 <= j < |s.c| && s.c[j].pc.Wake? && s.c[j].pc.w == w
  }

  /** A thread may sleep beside free slots only while a releaser still has its futex_wake to call. */
  ghost predicate NoLostWake(s: Budget) {
    forall i :: 0 <= i < |s.c| && s.c[i].pc.Sleep? && Free(s, s.c[i].pc.w) > 0 ==> WakePending(s, s.c[i].pc.w)
  }

  ghost predicate Conserved(s: Budget, w: Which) { Free(s, w) + Sum(s.c, w) == Total(s, w) }

  ghost predicate Inv(s: Budget) {
    && s.threadCap >= 1
    && Conserved(s, Threads) && Conserved(s, Batches)
    && (forall i :: 0 <= i < |s.c| ==> ClientOk(s.c[i]))
    && NoLostWake(s)
  }

  lemma {:induction false} SumUpdate(c: seq<Client>, i: nat, cl: Client, w: Which)
    requires i < |c|
    ensures Sum(c[i := cl], w) == Sum(c, w) - Held(c[i], w) + Held(cl, w)
  {
    if i == 0 {
      assert c[i := cl][1..] == c[1..];
    } else {
      SumUpdate(c[1..], i - 1, cl, w);
      assert c[i := cl][1..] == c[1..][i - 1 := cl];
    }
  }

  lemma {:induction false} SumSame(c: seq<Client>, d: seq<Client>, w: Which)
    requires |c| == |d| && forall k :: 0 <= k < |c| ==> Held(c[k], w) == Held(d[k], w)
    ensures Sum(c, w) == Sum(d, w)
  {
    if c != [] {
      SumSame(c[1..], d[1..], w);
    }
  }

  lemma {:induction false} SumAtLeast(c: seq<Client>, i: nat, w: Which)
    requires i < |c|
    ensures Held(c[i], w) <= Sum(c, w)
  {
    if i > 0 {
      SumAtLeast(c[1..], i - 1, w);
    }
  }

  lemma {:induction false} SumPositive(c: seq<Client>, w: Which) returns (i: nat)
    requires Sum(c, w) > 0
    ensures i < |c| && Held(c[i], w) > 0
  {
    if Held(c[0], w) > 0 {
      i := 0;
    } else {
      i := SumPositive(c[1..], w);
      i := i + 1;
    }
  }

  lemma {:induction false} SumZero(c: seq<Client>, w: Which)
    requires forall i :: 0 <= i < |c| ==> Held(c[i], w) == 0
    ensures Sum(c, w) == 0
  {
    if c != [] {
      SumZero(c[1..], w);
    }
  }

  lemma {:induction false} InitInv(s: Budget)
    requires Init(s)
    ensures Inv(s)
  {
    SumZero(s.c, Threads);
    SumZero(s.c, Batches);
  }

  /**
   * Thread `i` gives to counter `w` exactly what it takes from its own leases, and owes a
   * wake-up for what it gives.
   */
  ghost predicate Balanced(s: Budget, s': Budget, i: nat, w: Which)
    requires i < |s.c| == |s'.c|
  {
    && Free(s', w) + Held(s'.c[i], w) == Free(s, w) + Held(s.c[i], w)
    && (Free(s', w) > Free(s, w) ==> s'.c[i].pc.Wake? && s'.c[i].pc.w == w)
    && (s'.c[i].pc.Sleep? && s'.c[i].pc.w == w ==> Free(s', w) == 0)
  }

  lemma {:induction false} NoLostWakeKept(s: Budget, s': Budget, i: nat)
    requires NoLostWake(s) && i < |s.c| == |s'.c| && s'.c == s.c[i := s'.c[i]] && !s.c[i].pc.Wake?
    requires Balanced(s, s', i, Threads) && Balanced(s, s', i, Batches)
    ensures NoLostWake(s')
  {
    forall k | 0 <= k < |s'.c| && s'.c[k].pc.Sleep? && Free(s', s'.c[k].pc.w) > 0
      ensures WakePending(s', s'.c[k].pc.w)
    {
      var w := s'.c[k].pc.w;
      assert Balanced(s, s', i, w);
      if Free(s', w) > Free(s, w) {
        assert s'.c[i].pc.Wake?;
      } else {
        assert k != i && WakePending(s, w);
        var j :| 0 <= j < |s.c| && s.c[j].pc.Wake? && s.c[j].pc.w == w;
        assert j != i && s'.c[j] == s.c[j];
      }
    }
  }

  lemma {:induction false} MoveInv(s: Budget, s': Budget, i: nat)
    requires Inv(s) && i < |s.c| == |s'.c| && s'.threadCap == s.threadCap
    requires s'.c == s.c[i := s'.c[i]] && ClientOk(s'.c[i]) && !s.c[i].pc.Wake?
    requires Balanced(s, s', i, Threads) && Balanced(s, s', i, Batches)
    ensures Inv(s')
  {
    SumUpdate(s.c, i, s'.c[i], Threads);
    SumUpdate(s.c, i, s'.c[i], Batches);
    SumAtLeast(s.c, i, Threads);
    SumAtLeast(s.c, i, Batches);
    assert Conserved(s', Threads) && Conserved(s', Batches);
    NoLostWakeKept(s, s', i);
  }

  lemma {:induction false} WakeClients(s: Budget, s': Budget, i: nat)
    requires Inv(s) && NextStep(s, s', WakeAll(i))
    ensures forall k :: 0 <= k < |s'.c| ==> ClientOk(s'.c[k])
    ensures Sum(s'.c, Threads) == Sum(s.c, Threads) && Sum(s'.c, Batches) == Sum(s.c, Batches)
  {
    forall k | 0 <= k < |s'.c|
      ensures ClientOk(s'.c[k])
    {
      assert ClientOk(s.c[k]);
      assert ClientOk(s.c[i]);
    }
    SumSame(s.c, s'.c, Threads);
    SumSame(s.c, s'.c, Batches);
  }

  lemma {:induction false} WakeInv(s: Budget, s': Budget, i: nat)
    requires Inv(s) && NextStep(s, s', WakeAll(i))
    ensures Inv(s')
  {
    WakeClients(s, s', i);
    assert Conserved(s, Threads) && Conserved(s, Batches);
    assert Conserved(s', Threads) && Conserved(s', Batches);
    forall k | 0 <= k < |s'.c| && s'.c[k].pc.Sleep? && Free(s', s'.c[k].pc.w) > 0
      ensures WakePending(s', s'.c[k].pc.w)
    {
      var v := s'.c[k].pc.w;
      assert s.c[k] == s'.c[k] && v != s.c[i].pc.w && WakePending(s, v);
      var j :| 0 <= j < |s.c| && s.c[j].pc.Wake? && s.c[j].pc.w == v;
      assert j != i && s'.c[j] == s.c[j];
    }
  }

  lemma {:induction false} SwapInv(s: Budget, s': Budget, i: nat)
    requires Inv(s) && NextStep(s, s', Attempt(i)) && s.c[i].pc.Cas?
    ensures Inv(s')
  {
    assert ClientOk(s.c[i]);
    var w := s.c[i].pc.w;
    assert Balanced(s, s', i, w);
    assert Balanced(s, s', i, if w.Threads? then Batches else Threads);
    MoveInv(s, s', i);
  }

  lemma {:induction false} TryInv(s: Budget, s': Budget, i: nat)
    requires Inv(s) && NextStep(s, s', Attempt(i)) && (s.c[i].pc.TryRead? || s.c[i].pc.TryCas?)
    ensures Inv(s')
  {
    assert ClientOk(s.c[i]);
    MoveInv(s, s', i);
  }

  lemma {:induction false} ReadInv(s: Budget, s': Budget, i: nat)
    requires Inv(s) && NextStep(s, s', Attempt(i)) && (s.c[i].pc.Read? || s.c[i].pc.Wait?)
    ensures Inv(s')
  {
    assert ClientOk(s.c[i]);
    MoveInv(s, s', i);
  }

  /** Batch slots move between the counter and the thread itself. */
  lemma {:induction false} BatchLeaseInv(s: Budget, s': Budget, step: Step)
    requires Inv(s) && NextStep(s, s', step) && (step.DropPrefetch? || step.EndRelease?)
    ensures Inv(s')
  {
    assert ClientOk(s.c[step.i]);
    MoveInv(s, s', step.i);
  }

  /** Thread slots do. */
  lemma {:induction false} ThreadLeaseInv(s: Budget, s': Budget, step: Step)
    requires Inv(s) && NextStep(s, s', step) && (step.PickPool? || step.GiveUp? || step.Finished?)
    ensures Inv(s')
  {
    assert ClientOk(s.c[step.i]);
    MoveInv(s, s', step.i);
  }

  lemma {:induction false} PlainInv(s: Budget, s': Budget, step: Step)
    requires Inv(s) && NextStep(s, s', step)
    requires step.BeginWork? || step.TimeOut? || step.TryPrefetch? || step.AskThreads? || step.EndWork?
    ensures Inv(s')
  {
    assert ClientOk(s.c[step.i]);
    MoveInv(s, s', step.i);
  }

  lemma {:induction false} NextInv(s: Budget, s': Budget, step: Step)
    requires Inv(s) && NextStep(s, s', step)
    ensures Inv(s')
  {
    if step.WakeAll? {
      WakeInv(s, s', step.i);
    } else if step.Attempt? {
      if s.c[step.i].pc.Cas? {
        SwapInv(s, s', step.i);
      } else if s.c[step.i].pc.Read? || s.c[step.i].pc.Wait? {
        ReadInv(s, s', step.i);
      } else {
        TryInv(s, s', step.i);
      }
    } else if step.DropPrefetch? || step.EndRelease? {
      BatchLeaseInv(s, s', step);
    } else if step.PickPool? || step.GiveUp? || step.Finished? {
      ThreadLeaseInv(s, s', step);
    } else {
      PlainInv(s, s', step);
    }
  }

  lemma {:induction false} RunInv(run: seq<Budget>, k: nat)
    requires IsRun(run) && k < |run|
    ensures Inv(run[k])
  {
    if k == 0 {
      InitInv(run[0]);
    } else {
      RunInv(run, k - 1);
      assert Next(run[k - 1], run[k - 1 + 1]);
      var step :| NextStep(run[k - 1], run[k], step);
      NextInv(run[k - 1], run[k], step);
    }
  }

  lemma {:induction false} CapacityKept(s: Budget, s': Budget, step: Step)
    requires NextStep(s, s', step)
    ensures s'.threadCap == s.threadCap
  {
  }

  lemma {:induction false} RunCapacity(run: seq<Budget>, k: nat)
    requires IsRun(run) && k < |run|
    ensures run[k].threadCap == Capacity(run[0].configured, run[0].cpus)
  {
    if k > 0 {
      RunCapacity(run, k - 1);
      assert Next(run[k - 1], run[k - 1 + 1]);
      var step :| NextStep(run[k - 1], run[k], step);
      CapacityKept(run[k - 1], run[k], step);
    }
  }

  /** The decoding participants of all threads together. */
  function Active(c: seq<Client>): nat {
    if c == [] then 0 else (if c[0].pc.Running? then c[0].pc.active else 0) + Active(c[1..])
  }

  lemma {:induction false} ActiveBound(c: seq<Client>)
    requires forall i :: 0 <= i < |c| ==> ClientOk(c[i])
    ensures Active(c) <= Sum(c, Threads)
  {
    if c != [] {
      assert ClientOk(c[0]);
      ActiveBound(c[1..]);
    }
  }

  /**
   * In every reachable state of any number of threads, free and held slots add up to the capacity of
   * both counters, the participants that decode at once never exceed the capacity, which is that of the
   * settings at the start and not more than the CPUs there are, and a thread
   * that is between requests or idle has given back exactly what it took.
   */
  lemma {:induction false} SlotsConserved(run: seq<Budget>, k: nat)
    requires IsRun(run) && k < |run|
    ensures run[k].threads + Sum(run[k].c, Threads) == run[k].threadCap
    ensures run[k].batches + Sum(run[k].c, Batches) == MAX_BATCHES
    ensures Active(run[k].c) <= run[k].threadCap == Capacity(run[0].configured, run[0].cpus)
    ensures run[0].cpus > 0 ==> run[k].threadCap == if 2 <= run[0].configured <= run[0].cpus then run[0].configured
                                                    else run[0].cpus
    ensures forall i :: 0 <= i < |run[k].c| && run[k].c[i].pc.Ready? ==> run[k].c[i].held == 0 && run[k].c[i].batch
    ensures forall i :: 0 <= i < |run[k].c| && run[k].c[i].pc.Idle? ==> run[k].c[i] == Client(Idle, false, false, 0)
  {
    RunInv(run, k);
    RunCapacity(run, k);
    assert Conserved(run[k], Threads) && Conserved(run[k], Batches);
    ActiveBound(run[k].c);
    forall i | 0 <= i < |run[k].c|
      ensures run[k].c[i].pc.Ready? ==> run[k].c[i].held == 0 && run[k].c[i].batch
      ensures run[k].c[i].pc.Idle? ==> run[k].c[i] == Client(Idle, false, false, 0)
    {
      assert ClientOk(run[k].c[i]);
    }
  }

  /** The thread asks for something that it could do without, or a wait times out. */
  predicate Demand(step: Step) { step.BeginWork? || step.TryPrefetch? || step.AskThreads? || step.TimeOut? }

  /** Thread `i` can step now without asking for more: it is neither idle nor asleep in the kernel. */
  ghost predicate CanStep(s: Budget, i: nat) {
    exists step: Step, s': Budget :: step.i == i && !Demand(step) && NextStep(s, s', step)
  }

  lemma {:induction false} AwakeCanStep(s: Budget, i: nat)
    requires Inv(s) && i < |s.c| && !s.c[i].pc.Idle? && !s.c[i].pc.Sleep?
    ensures CanStep(s, i)
  {
    if Attempting(s.c[i].pc) {
      assert NextStep(s, DoAttempt(s, i), Attempt(i));
    } else if s.c[i].pc.Ready? {
      assert NextStep(s, SetPc(s, i, End), EndWork(i));
    } else if s.c[i].pc.Sized? {
      assert NextStep(s, DoTrim(s, i, 1), PickPool(i, 1));
    } else if s.c[i].pc.Running? {
      assert NextStep(s, ReturnThreads(s, i), Finished(i));
    } else if s.c[i].pc.Wake? {
      assert NextStep(s, DoWake(s, i), WakeAll(i));
    } else {
      var s' := SetClient(s.(batches := s.batches + 1), i,
                  if s.c[i].prefetch then s.c[i].(prefetch := false, pc := Wake(Batches, ToEnd))
                  else s.c[i].(batch := false, pc := Wake(Batches, ToIdle)));
      assert NextStep(s, s', EndRelease(i));
    }
  }

  /**
   * No reachable state is deadlocked: while any thread has an active read, some thread that has one can
   * step without a timeout and without asking for more. The second batch lease is only tried,
     and no lease is awaited while CPU
   * slots are held.
   */
  lemma {:induction false} NeverDeadlocked(run: seq<Budget>, k: nat)
    requires IsRun(run) && k < |run|
    requires exists i :: 0 <= i < |run[k].c| && !run[k].c[i].pc.Idle?
    ensures exists i :: 0 <= i < |run[k].c| && !run[k].c[i].pc.Idle? && CanStep(run[k], i)
  {
    RunInv(run, k);
    var s := run[k];
    var i :| 0 <= i < |s.c| && !s.c[i].pc.Idle?;
    var j := AwakeThread(s, i);
    AwakeCanStep(s, j);
  }

  lemma {:induction false} AwakeThread(s: Budget, i: nat) returns (j: nat)
    requires Inv(s) && i < |s.c| && !s.c[i].pc.Idle?
    ensures j < |s.c| && !s.c[j].pc.Idle? && !s.c[j].pc.Sleep?
  {
    j := i;
    if s.c[i].pc.Sleep? {
      var w := s.c[i].pc.w;
      if Free(s, w) > 0 {
        assert WakePending(s, w);
        j :| 0 <= j < |s.c| && s.c[j].pc.Wake? && s.c[j].pc.w == w;
      } else {
        assert Conserved(s, w);
        j := SumPositive(s.c, w);
        assert ClientOk(s.c[j]);
        if s.c[j].pc.Sleep? {
          // A batch holder can only be asleep for CPU slots, and whoever holds those is awake.
          assert w == Batches && s.c[j].pc.w == Threads;
          j := AwakeHolder(s, j);
        }
      }
    }
  }

  lemma {:induction false} AwakeHolder(s: Budget, i: nat) returns (j: nat)
    requires Inv(s) && i < |s.c| && s.c[i].pc.Sleep? && s.c[i].pc.w.Threads?
    ensures j < |s.c| && !s.c[j].pc.Idle? && !s.c[j].pc.Sleep?
  {
    if Free(s, Threads) > 0 {
      assert WakePending(s, Threads);
      j :| 0 <= j < |s.c| && s.c[j].pc.Wake? && s.c[j].pc.w == Threads;
    } else {
      assert Conserved(s, Threads);
      j := SumPositive(s.c, Threads);
      assert ClientOk(s.c[j]);
    }
  }
}
