/**
 * What the shared budget grants: whoever asks gets what it asked for or all there is, a pool keeps as many slots as
 * it has participants, and a prefetch lease is refused only when there is none.
 */
module BudgetGrants {
  import opened Common
  import opened SharedBudget
  import BudgetProgress

  /** A step of another thread changes nothing of thread `i`, except that it may wake it. */
  lemma {:induction false} OthersStep(s: Budget, s': Budget, step: Step, i: nat)
    requires NextStep(s, s', step) && i < |s.c| == |s'.c| && step.i != i
    ensures s'.c[i] == if s'.c[i].pc.Wait? && s.c[i].pc.Sleep? then s.c[i].(pc := Wait(s.c[i].pc.w, s.c[i].pc.req))
                       else s.c[i]
  {
  }

  /** Until it is granted, a thread asks for the same. */
  lemma {:induction false} SameRequest(s: Budget, s': Budget, step: Step, i: nat)
    requires NextStep(s, s', step) && i < |s.c| == |s'.c| && Acquiring(s.c[i].pc) && Acquiring(s'.c[i].pc)
    ensures s'.c[i].pc.w == s.c[i].pc.w && s'.c[i].pc.req == s.c[i].pc.req
  {
    if step.i != i {
      OthersStep(s, s', step, i);
    }
  }

  /** Thread `i` is granted its whole request, or all that was free. */
  ghost predicate Grants(s: Budget, s': Budget, i: nat, w: Which, req: nat)
    requires i < |s'.c|
  {
    var granted := Held(s'.c[i], w);
    && 0 < granted <= req && (granted == req || Free(s', w) == 0) && Free(s', w) + granted == Free(s, w)
    && s'.c[i].pc == if w.Threads? then Sized else Ready
  }

  /** The compare-and-swap that ends an acquire. */
  lemma {:induction false} GrantStep(s: Budget, s': Budget, step: Step, i: nat)
    requires NextStep(s, s', step) && i < |s.c| == |s'.c| && ClientOk(s.c[i])
    requires Acquiring(s.c[i].pc) && !Acquiring(s'.c[i].pc)
    ensures Grants(s, s', i, s.c[i].pc.w, s.c[i].pc.req)
  {
    if step.i != i {
      OthersStep(s, s', step, i);
    }
  }

  // ---- Over whole runs ----

  /** Thread `i` in state `k` of a run. */
  ghost predicate IsThread(run: seq<Budget>, k: nat, i: nat) { k < |run| && i < |run[k].c| }

  ghost predicate Acquires(run: seq<Budget>, k: nat, i: nat) { IsThread(run, k, i) && Acquiring(run[k].c[i].pc) }

  ghost predicate Returns(run: seq<Budget>, k: nat, i: nat) { IsThread(run, k, i) && run[k].c[i].pc.Wake? }

  ghost predicate TriesPrefetch(run: seq<Budget>, k: nat, i: nat) {
    IsThread(run, k, i) && (run[k].c[i].pc.TryRead? || run[k].c[i].pc.TryCas?)
  }

  lemma {:induction false} StepOf(run: seq<Budget>, steps: seq<Step>, k: nat)
    requires BudgetProgress.IsTrace(run, steps) && k < |steps|
    ensures NextStep(run[k], run[k + 1], steps[k]) && |run[k].c| == |run[k + 1].c|
  {
    BudgetProgress.TraceSize(run, steps, k);
    BudgetProgress.TraceSize(run, steps, k + 1);
  }

  lemma {:induction false} ThreadOk(run: seq<Budget>, steps: seq<Step>, k: nat, i: nat)
    requires BudgetProgress.IsTrace(run, steps) && IsThread(run, k, i)
    ensures ClientOk(run[k].c[i])
  {
    BudgetProgress.TraceIsRun(run, steps);
    RunInv(run, k);
  }

  lemma {:induction false} RequestAt(run: seq<Budget>, steps: seq<Step>, i: nat, k: nat)
    requires BudgetProgress.IsTrace(run, steps) && k < |steps| && Acquires(run, k, i) && Acquires(run, k + 1, i)
    ensures run[k + 1].c[i].pc.w == run[k].c[i].pc.w && run[k + 1].c[i].pc.req == run[k].c[i].pc.req
  {
    StepOf(run, steps, k);
    SameRequest(run[k], run[k + 1], steps[k], i);
  }

  lemma {:induction false} RequestKept(run: seq<Budget>, steps: seq<Step>, i: nat, a: nat, k: nat)
    requires BudgetProgress.IsTrace(run, steps) && a <= k < |run| && forall j :: a <= j <= k ==> Acquires(run, j, i)
    ensures Acquires(run, a, i) && Acquires(run, k, i)
    ensures run[k].c[i].pc.w == run[a].c[i].pc.w && run[k].c[i].pc.req == run[a].c[i].pc.req
    decreases k
  {
    assert Acquires(run, a, i) && Acquires(run, k, i);
    if a < k {
      RequestKept(run, steps, i, a, k - 1);
      RequestAt(run, steps, i, k - 1);
    }
  }

  lemma {:induction false} GrantedAt(run: seq<Budget>, steps: seq<Step>, i: nat, k: nat)
    requires BudgetProgress.IsTrace(run, steps) && k < |steps|
    requires Acquires(run, k, i) && IsThread(run, k + 1, i) && !Acquires(run, k + 1, i)
    ensures Grants(run[k], run[k + 1], i, run[k].c[i].pc.w, run[k].c[i].pc.req)
  {
    StepOf(run, steps, k);
    ThreadOk(run, steps, k, i);
    GrantStep(run[k], run[k + 1], steps[k], i);
  }

  /** A thread that acquires from `a` on until it is granted in `b`, however it was disturbed, retried or slept. */
  lemma {:induction false} GrantedInFull(run: seq<Budget>, steps: seq<Step>, i: nat, a: nat, b: nat)
    requires BudgetProgress.IsTrace(run, steps) && a < b < |run|
    requires (forall j :: a <= j < b ==> Acquires(run, j, i)) && IsThread(run, b, i) && !Acquires(run, b, i)
    ensures Acquires(run, a, i) && Grants(run[b - 1], run[b], i, run[a].c[i].pc.w, run[a].c[i].pc.req)
  {
    RequestKept(run, steps, i, a, b - 1);
    GrantedAt(run, steps, i, b - 1);
  }

  /** The CPU slots of a batch: as many as it asked for, or all that were free. */
  lemma {:induction false} ThreadsGranted(run: seq<Budget>, steps: seq<Step>, i: nat, useful: nat, a: nat, b: nat)
    requires BudgetProgress.IsTrace(run, steps) && a + 1 < b < |run| && steps[a] == AskThreads(i, useful)
    requires (forall j :: a < j < b ==> Acquires(run, j, i)) && IsThread(run, b, i) && !Acquires(run, b, i)
    ensures run[b].c[i].pc.Sized? && 0 < run[b].c[i].held <= useful
    ensures run[b].c[i].held == useful || run[b].threads == 0
  {
    StepOf(run, steps, a);
    assert run[a + 1].c[i].pc == Read(Threads, useful);
    GrantedInFull(run, steps, i, a + 1, b);
  }

  /** The lease of a batch is one slot. */
  lemma {:induction false} BatchGranted(run: seq<Budget>, steps: seq<Step>, i: nat, a: nat, b: nat)
    requires BudgetProgress.IsTrace(run, steps) && a + 1 < b < |run| && steps[a] == BeginWork(i)
    requires (forall j :: a < j < b ==> Acquires(run, j, i)) && IsThread(run, b, i) && !Acquires(run, b, i)
    ensures run[b].c[i] == Client(Ready, true, false, 0) && run[b].batches + 1 == run[b - 1].batches
  {
    StepOf(run, steps, a);
    assert run[a + 1].c[i].pc == Read(Batches, 1);
    GrantedInFull(run, steps, i, a + 1, b);
    ThreadOk(run, steps, b, i);
  }

  lemma {:induction false} TrimStep(s: Budget, s': Budget, i: nat, width: nat)
    requires NextStep(s, s', PickPool(i, width))
    ensures |s'.c| == |s.c| && s'.c[i].held == Min(s.c[i].held, width)
    ensures s'.c[i].pc == Running(s'.c[i].held) || s'.c[i].pc == Wake(Threads, ToRun)
  {
  }

  /** While a thread returns a surplus it keeps the rest, and then decodes with exactly that many participants. */
  lemma {:induction false} SurplusStep(s: Budget, s': Budget, step: Step, i: nat)
    requires NextStep(s, s', step) && i < |s.c| == |s'.c| && s.c[i].pc == Wake(Threads, ToRun)
    ensures s'.c[i].held == s.c[i].held && (s'.c[i].pc == s.c[i].pc || s'.c[i].pc == Running(s.c[i].held))
  {
    if step.i != i {
      OthersStep(s, s', step, i);
    }
  }

  /** The thread keeps so many slots for decoding. */
  ghost predicate Keeps(s: Budget, i: nat, slots: nat) {
    i < |s.c| && s.c[i].held == slots && (s.c[i].pc == Running(slots) || s.c[i].pc == Wake(Threads, ToRun))
  }

  lemma {:induction false} SurplusKept(run: seq<Budget>, steps: seq<Step>, i: nat, a: nat, k: nat, slots: nat)
    requires BudgetProgress.IsTrace(run, steps) && a <= k < |run| && Keeps(run[a], i, slots)
    requires forall j :: a <= j < k ==> Returns(run, j, i)
    ensures Keeps(run[k], i, slots)
    decreases k
  {
    if a < k {
      SurplusKept(run, steps, i, a, k - 1, slots);
      StepOf(run, steps, k - 1);
      assert Returns(run, k - 1, i);
      SurplusStep(run[k - 1], run[k], steps[k - 1], i);
    }
  }

  /** A pool decodes with as many participants as it has and slots were granted, and keeps exactly these slots. */
  lemma {:induction false} PoolWidth(run: seq<Budget>, steps: seq<Step>, i: nat, width: nat, a: nat, b: nat)
    requires BudgetProgress.IsTrace(run, steps) && a < b < |run| && steps[a] == PickPool(i, width)
    requires (forall j :: a < j < b ==> Returns(run, j, i)) && IsThread(run, b, i) && run[b].c[i].pc.Running?
    ensures i < |run[a].c| && run[b].c[i].pc.active == run[b].c[i].held == Min(run[a].c[i].held, width)
  {
    StepOf(run, steps, a);
    TrimStep(run[a], run[a + 1], i, width);
    SurplusKept(run, steps, i, a + 1, b, Min(run[a].c[i].held, width));
  }

  lemma {:induction false} TryStep(s: Budget, s': Budget, step: Step, i: nat)
    requires NextStep(s, s', step) && i < |s.c| == |s'.c| && ClientOk(s.c[i])
    requires s.c[i].pc.TryRead? || s.c[i].pc.TryCas?
    ensures s'.c[i].pc.Ready? ==> s'.c[i].prefetch || s'.batches == 0
  {
    if step.i != i {
      OthersStep(s, s', step, i);
    }
  }

  /** A prefetch lease is refused only when there is none. */
  lemma {:induction false} PrefetchGranted(run: seq<Budget>, steps: seq<Step>, i: nat, k: nat)
    requires BudgetProgress.IsTrace(run, steps) && k < |steps|
    requires TriesPrefetch(run, k, i) && IsThread(run, k + 1, i) && run[k + 1].c[i].pc.Ready?
    ensures run[k + 1].c[i].prefetch || run[k + 1].batches == 0
  {
    StepOf(run, steps, k);
    ThreadOk(run, steps, k, i);
    TryStep(run[k], run[k + 1], steps[k], i);
  }
}
