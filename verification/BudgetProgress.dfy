/**
 * Every step of a thread at the shared budget brings its release of all leases nearer, except for the steps
 * with which it asks for something and for timeouts; retries of a compare-and-swap are paid for by the thread
 * that changed the counter.
 */
module BudgetProgress {
  import opened Common
  import SharedBudget

  type Budget = SharedBudget.Budget
  type Client = SharedBudget.Client
  type Pc = SharedBudget.Pc
  type Step = SharedBudget.Step

  /** What a change of a counter or a wake-up can cost the other threads, and one more. */
  function Price(s: Budget): nat { 3 * |s.c| + 1 }

  /** The prices that a thread has still to pay before it is idle, if it asks for nothing more. */
  function Prices(cl: Client): nat {
    var end := if cl.prefetch then 4 else 2;
    match cl.pc
    case Idle => 0
    case End => end
    case Ready => end + 1
    case Read(w, _) => Acquire(w, end)
    case Cas(w, _, _) => Acquire(w, end)
    case Wait(w, _) => Acquire(w, end)
    case Sleep(w, _) => Acquire(w, end)
    case TryRead => 6
    case TryCas(_) => 6
    case Running(_) => end + 3
    case Sized => end + 5
    case Wake(_, after) =>
      match after
      case ToIdle => 1
      case ToEnd => end + 1
      case ToReady => end + 2
      case ToRun => end + 4
  }

  function Acquire(w: SharedBudget.Which, end: nat): nat { if w.Batches? then 4 else end + 6 }

  /** The steps of an acquire loop that remain if nobody interferes. */
  function Tries(s: Budget, pc: Pc): nat {
    match pc
    case Read(_, _) => 2
    case Cas(w, _, cur) => if SharedBudget.Free(s, w) == cur then 1 else 3
    case Wait(w, _) => if SharedBudget.Free(s, w) == 0 then 1 else 3
    case TryRead => 2
    case TryCas(cur) => if s.batches == cur then 1 else 2
    case _ => 0
  }

  function Cost(s: Budget, cl: Client): nat { Prices(cl) * Price(s) + Tries(s, cl.pc) }

  function Costs(s: Budget): seq<nat> { seq(|s.c|, i requires 0 <= i < |s.c| => Cost(s, s.c[i])) }

  function Work(s: Budget): nat { Sum(Costs(s)) }

  /** What asking for something adds at most. */
  function Gain(n: nat): nat { 7 * (3 * n + 1) + 1 }

  lemma {:induction false} MorePrices(a: nat, b: nat, d: nat, price: nat)
    requires a + d <= b
    ensures a * price + d * price <= b * price
  {
    assert (b - a - d) * price >= 0;
    assert b * price == a * price + d * price + (b - a - d) * price;
  }

  /** Only one thread has moved, and no counter. */
  lemma {:induction false} OnlyMoved(s: Budget, s': Budget, i: nat)
    requires i < |s.c| == |s'.c| && s'.c == s.c[i := s'.c[i]] && s'.threads == s.threads && s'.batches == s.batches
    ensures Work(s') == Work(s) - Cost(s, s.c[i]) + Cost(s', s'.c[i])
  {
    SumOne(Costs(s), Costs(s'), i);
  }

  /** A thread that pays a price makes up for what it does to the others. */
  lemma {:induction false} Pays(s: Budget, s': Budget, i: nat)
    requires i < |s.c| == |s'.c| && Prices(s'.c[i]) + 1 <= Prices(s.c[i]) && Tries(s', s'.c[i].pc) == 0
    requires forall j :: 0 <= j < |s.c| && j != i ==> Cost(s', s'.c[j]) <= Cost(s, s.c[j]) + 3
    ensures Work(s') < Work(s)
  {
    var mid := Costs(s)[i := Cost(s', s'.c[i])];
    SumUpdate(Costs(s), i, Cost(s', s'.c[i]));
    SumGrows(mid, Costs(s'), 3);
    MorePrices(Prices(s'.c[i]), Prices(s.c[i]), 1, Price(s));
  }

  /** The others have not moved, but their counters may have. */
  lemma {:induction false} OthersRise(s: Budget, s': Budget, i: nat, j: nat)
    requires i < |s.c| == |s'.c| && j < |s.c| && s'.c[j] == s.c[j]
    ensures Cost(s', s'.c[j]) <= Cost(s, s.c[j]) + 3
  {
  }

  /** A step that changes a counter, with what it releases or takes. */
  lemma {:induction false} ChangePays(s: Budget, s': Budget, i: nat)
    requires i < |s.c| == |s'.c| && s'.c == s.c[i := s'.c[i]]
    requires Prices(s'.c[i]) + 1 <= Prices(s.c[i]) && Tries(s', s'.c[i].pc) == 0
    ensures Work(s') < Work(s)
  {
    forall j | 0 <= j < |s.c| && j != i
      ensures Cost(s', s'.c[j]) <= Cost(s, s.c[j]) + 3
    {
      OthersRise(s, s', i, j);
    }
    Pays(s, s', i);
  }

  /** A step of an acquire loop that changes no counter. */
  lemma {:induction false} TriesLess(s: Budget, s': Budget, i: nat)
    requires i < |s.c| == |s'.c| && s'.c == s.c[i := s'.c[i]] && s'.threads == s.threads && s'.batches == s.batches
    requires Prices(s'.c[i]) <= Prices(s.c[i]) && Tries(s', s'.c[i].pc) < Tries(s, s.c[i].pc)
    ensures Work(s') < Work(s)
  {
    MorePrices(Prices(s'.c[i]), Prices(s.c[i]), 0, Price(s));
    OnlyMoved(s, s', i);
  }

  lemma {:induction false} AcquireWork(s: Budget, s': Budget, i: nat)
    requires SharedBudget.Inv(s) && SharedBudget.NextStep(s, s', SharedBudget.Attempt(i))
    requires SharedBudget.Acquiring(s.c[i].pc)
    ensures Work(s') < Work(s)
  {
    assert SharedBudget.ClientOk(s.c[i]);
    if s.c[i].pc.Cas? && SharedBudget.Free(s, s.c[i].pc.w) == s.c[i].pc.cur {
      ChangePays(s, s', i);
    } else {
      TriesLess(s, s', i);
    }
  }

  lemma {:induction false} TryWork(s: Budget, s': Budget, i: nat)
    requires SharedBudget.Inv(s) && SharedBudget.NextStep(s, s', SharedBudget.Attempt(i))
    requires s.c[i].pc.TryRead? || s.c[i].pc.TryCas?
    ensures Work(s') < Work(s)
  {
    assert SharedBudget.ClientOk(s.c[i]);
    if s.c[i].pc.TryCas? && s.batches == s.c[i].pc.cur {
      ChangePays(s, s', i);
    } else {
      TriesLess(s, s', i);
    }
  }

  lemma {:induction false} WakeWork(s: Budget, s': Budget, i: nat)
    requires SharedBudget.Inv(s) && SharedBudget.NextStep(s, s', SharedBudget.WakeAll(i))
    ensures Work(s') < Work(s)
  {
    assert SharedBudget.ClientOk(s.c[i]);
    forall j | 0 <= j < |s.c| && j != i
      ensures Cost(s', s'.c[j]) <= Cost(s, s.c[j]) + 3
    {
      assert Prices(s'.c[j]) == Prices(s.c[j]);
    }
    Pays(s, s', i);
  }

  lemma {:induction false} SixPrices(a: nat, b: nat, price: nat)
    requires a <= b + 6
    ensures a * price <= b * price + 6 * price
  {
    MorePrices(a, b + 6, 0, price);
  }

  lemma {:induction false} DemandPrices(s: Budget, s': Budget, step: Step)
    requires SharedBudget.Inv(s) && SharedBudget.NextStep(s, s', step) && SharedBudget.Demand(step)
    ensures |s'.c| == |s.c| && s'.c == s.c[step.i := s'.c[step.i]] && s'.threads == s.threads && s'.batches == s.batches
    ensures Prices(s'.c[step.i]) <= Prices(s.c[step.i]) + 6
  {
    assert SharedBudget.ClientOk(s.c[step.i]);
  }

  lemma {:induction false} DemandWork(s: Budget, s': Budget, step: Step)
    requires SharedBudget.Inv(s) && SharedBudget.NextStep(s, s', step) && SharedBudget.Demand(step)
    ensures Work(s') + 1 <= Work(s) + Gain(|s.c|)
  {
    DemandPrices(s, s', step);
    OnlyMoved(s, s', step.i);
    SixPrices(Prices(s'.c[step.i]), Prices(s.c[step.i]), Price(s));
  }

  lemma {:induction false} ReleaseWork(s: Budget, s': Budget, step: Step)
    requires SharedBudget.Inv(s) && SharedBudget.NextStep(s, s', step)
    requires !SharedBudget.Demand(step) && !step.Attempt? && !step.WakeAll?
    ensures Work(s') < Work(s)
  {
    assert SharedBudget.ClientOk(s.c[step.i]);
    ChangePays(s, s', step.i);
  }

  /** Every step that asks for nothing leaves less to do. */
  lemma {:induction false} StepWork(s: Budget, s': Budget, step: Step)
    requires SharedBudget.Inv(s) && SharedBudget.NextStep(s, s', step)
    ensures Work(s') + 1 <= Work(s) + if SharedBudget.Demand(step) then Gain(|s.c|) else 0
  {
    if SharedBudget.Demand(step) {
      DemandWork(s, s', step);
    } else if step.Attempt? {
      if SharedBudget.Acquiring(s.c[step.i].pc) {
        AcquireWork(s, s', step.i);
      } else {
        TryWork(s, s', step.i);
      }
    } else if step.WakeAll? {
      WakeWork(s, s', step.i);
    } else {
      ReleaseWork(s, s', step);
    }
  }

  // ---- Runs with their steps ----

  ghost predicate IsTrace(run: seq<Budget>, steps: seq<Step>) {
    && |run| == |steps| + 1 && SharedBudget.Init(run[0])
    && forall k :: 0 <= k < |steps| ==> SharedBudget.NextStep(run[k], run[k + 1], steps[k])
  }

  lemma {:induction false} TraceIsRun(run: seq<Budget>, steps: seq<Step>)
    requires IsTrace(run, steps)
    ensures SharedBudget.IsRun(run)
  {
    forall k | 0 <= k < |run| - 1
      ensures SharedBudget.Next(run[k], run[k + 1])
    {
      assert SharedBudget.NextStep(run[k], run[k + 1], steps[k]);
    }
  }

  function Flags(steps: seq<Step>): seq<bool> {
    seq(|steps|, k requires 0 <= k < |steps| => SharedBudget.Demand(steps[k]))
  }

  function Demands(steps: seq<Step>): nat { Flagged(Flags(steps), 0, |steps|) }

  function Works(run: seq<Budget>): seq<nat> { seq(|run|, k requires 0 <= k < |run| => Work(run[k])) }

  lemma {:induction false} SizeKept(s: Budget, s': Budget, step: Step)
    requires SharedBudget.NextStep(s, s', step)
    ensures |s'.c| == |s.c|
  {
  }

  lemma {:induction false} TraceSize(run: seq<Budget>, steps: seq<Step>, k: nat)
    requires IsTrace(run, steps) && k < |run|
    ensures |run[k].c| == |run[0].c|
  {
    if k > 0 {
      TraceSize(run, steps, k - 1);
      assert SharedBudget.NextStep(run[k - 1], run[k - 1 + 1], steps[k - 1]);
      SizeKept(run[k - 1], run[k], steps[k - 1]);
    }
  }

  lemma {:induction false} OneStep(run: seq<Budget>, steps: seq<Step>, k: nat)
    requires IsTrace(run, steps) && k < |steps|
    ensures Works(run)[k + 1] + 1 <= Works(run)[k] + if Flags(steps)[k] then Gain(|run[0].c|) else 0
  {
    TraceIsRun(run, steps);
    SharedBudget.RunInv(run, k);
    TraceSize(run, steps, k);
    assert SharedBudget.NextStep(run[k], run[k + 1], steps[k]);
    StepWork(run[k], run[k + 1], steps[k]);
  }

  lemma {:induction false} InitWork(s: Budget)
    requires SharedBudget.Init(s)
    ensures Work(s) == 0
  {
    SumBelow(Costs(s), 0);
  }

  ghost predicate AllIdle(s: Budget) { forall i :: 0 <= i < |s.c| ==> s.c[i].pc.Idle? }

  /**
   * No run goes on for ever unless threads keep asking or timing out: its steps are bounded by what they ask for.
   * In its last state everybody is idle, with all slots back, or somebody can step without asking for anything.
   */
  lemma {:induction false} EveryReadEnds(run: seq<Budget>, steps: seq<Step>)
    requires IsTrace(run, steps)
    ensures |steps| <= Gain(|run[0].c|) * Demands(steps)
    ensures
      var s := run[|steps|];
      || (AllIdle(s) && s.threads == s.threadCap && s.batches == SharedBudget.MAX_BATCHES)
      || exists i :: 0 <= i < |s.c| && !s.c[i].pc.Idle? && SharedBudget.CanStep(s, i)
  {
    forall k | 0 <= k < |steps|
      ensures Works(run)[k + 1] + 1 <= Works(run)[k] + if Flags(steps)[k] then Gain(|run[0].c|) else 0
    {
      OneStep(run, steps, k);
    }
    Potential(Works(run), Flags(steps), Gain(|run[0].c|), 0, |steps|);
    InitWork(run[0]);
    TraceIsRun(run, steps);
    IdleOrGoesOn(run);
  }

  lemma {:induction false} IdleOrGoesOn(run: seq<Budget>)
    requires SharedBudget.IsRun(run)
    ensures
      var s := run[|run| - 1];
      || (AllIdle(s) && s.threads == s.threadCap && s.batches == SharedBudget.MAX_BATCHES)
      || exists i :: 0 <= i < |s.c| && !s.c[i].pc.Idle? && SharedBudget.CanStep(s, i)
  {
    var s := run[|run| - 1];
    if AllIdle(s) {
      SharedBudget.SlotsConserved(run, |run| - 1);
      SharedBudget.SumZero(s.c, SharedBudget.Threads);
      SharedBudget.SumZero(s.c, SharedBudget.Batches);
    } else {
      SharedBudget.NeverDeadlocked(run, |run| - 1);
    }
  }
}
