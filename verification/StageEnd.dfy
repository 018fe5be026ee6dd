/**
 * Every restore comes to an end after a bounded number of steps, and it is shown for which trees that end can
 * be that the root task waits for a zombie forever.
 */
module StageEnd {
  import opened Common
  import opened RestoreStages
  import opened StageProgress

  function Left(st: nat): nat { if st < COMPLETE then 12 * (COMPLETE - st) + 12 else 12 }

  /** What is left to do for an actor. */
  function ActorCost(pc: Pc): nat {
    match pc
    case NotBorn => 108
    case Working(st) => Left(st) + 8
    case Switching(st) => Left(st) + 4
    case Arrived(st) => Left(st)
    case Gone => 0
  }

  /** What is left to do for CRIU. */
  function CriuCost(k: Criu): nat {
    match k
    case SetNr(st) => 2 * Left(st) + 12
    case Publish(st) => 2 * Left(st) + 8
    case Fork => 2 * Left(ROOT_TASK) + 4
    case WaitZero(st) => 2 * Left(st)
    case DropZombies => 2 * Left(RESTORE) - 1
    case Finished => 0
  }

  /** What is left to collect; a changed count makes the root task try once more. */
  function CollectCost(s: State): nat {
    match s.z
    case NotYet => 3 * |s.foreign| + 4
    case Pick(i) => (if i < |s.foreign| then 3 * (|s.foreign| - i) else 0) + 3
    case Try(i, v) => (if i < |s.foreign| then 3 * (|s.foreign| - i) else 0) + if s.nr == v then 2 else 5
    case Asleep(i, v) => (if i < |s.foreign| then 3 * (|s.foreign| - i) else 0) + if s.nr == v then 1 else 4
  }

  function Costs(s: State): seq<nat> { seq(|s.a|, i requires 0 <= i < |s.a| => ActorCost(s.a[i])) }

  function Work(s: State): nat { Sum(Costs(s)) + CriuCost(s.k) + CollectCost(s) }

  lemma {:induction false} Moved(s: State, s': State, i: nat)
    requires i < |s.a| && |s'.a| == |s.a| && s'.a == s.a[i := s'.a[i]]
    ensures Sum(Costs(s')) == Sum(Costs(s)) - ActorCost(s.a[i]) + ActorCost(s'.a[i])
  {
    SumOne(Costs(s), Costs(s'), i);
  }

  /** A changed count costs at most one more try. */
  lemma {:induction false} OneMoreTry(s: State, s': State)
    requires s'.z == s.z && s'.foreign == s.foreign
    ensures CollectCost(s') <= CollectCost(s) + 3 && (s'.nr == s.nr ==> CollectCost(s') == CollectCost(s))
  {
  }

  lemma {:induction false} CriuWork(s: State, s': State, step: Step)
    requires Inv(s) && NextStep(s, s', step) && IsCrius(step) && !step.CriuFork?
    ensures Work(s') < Work(s)
  {
    assert Costs(s') == Costs(s);
    OneMoreTry(s, s');
    CriuLess(s, s', step);
  }

  lemma {:induction false} CriuLess(s: State, s': State, step: Step)
    requires |s.a| == |s.kind| > 0 && CriuOk(s) && NextStep(s, s', step) && IsCrius(step) && !step.CriuFork?
    ensures CriuCost(s'.k) < CriuCost(s.k)
    ensures step.CriuSetNr? ==> CriuCost(s'.k) + 4 <= CriuCost(s.k)
  {
  }

  lemma {:induction false} ForkWork(s: State, s': State)
    requires Inv(s) && NextStep(s, s', CriuFork)
    ensures Work(s') < Work(s)
  {
    Moved(s, s', 0);
    OneMoreTry(s, s');
  }

  lemma {:induction false} ActorLess(s: State, s': State, step: Step, i: nat)
    requires Inv(s) && NextStep(s, s', step) && i < |s.a|
    requires || ((step.RootSwitchNr? || step.RootSwitchStart?) && i == 0)
             || step in {Born(i), FinishStage(i), NextStage(i), Leave(i)}
    ensures |s'.a| == |s.a| && s'.a == s.a[i := s'.a[i]] && s'.k == s.k && s'.z == s.z && s'.foreign == s.foreign
    ensures ActorCost(s'.a[i]) + 4 <= ActorCost(s.a[i])
  {
    assert ActorOk(s, i);
  }

  lemma {:induction false} ActorWork(s: State, s': State, step: Step, i: nat)
    requires Inv(s) && NextStep(s, s', step) && i < |s.a|
    requires || ((step.RootSwitchNr? || step.RootSwitchStart?) && i == 0)
             || step in {Born(i), FinishStage(i), NextStage(i), Leave(i)}
    ensures Work(s') < Work(s)
  {
    ActorLess(s, s', step, i);
    Moved(s, s', i);
    OneMoreTry(s, s');
  }

  lemma {:induction false} CollectWork(s: State, s': State, step: Step)
    requires NextStep(s, s', step) && Collects?(step)
    ensures Work(s') < Work(s)
  {
    assert Costs(s') == Costs(s);
  }

  /** Every step leaves less to do. */
  lemma {:induction false} StepWork(s: State, s': State, step: Step)
    requires Inv(s) && NextStep(s, s', step)
    ensures Work(s') < Work(s)
  {
    if Collects?(step) {
      CollectWork(s, s', step);
    } else if step.CriuFork? {
      ForkWork(s, s');
    } else if IsCrius(step) {
      CriuWork(s, s', step);
    } else {
      MoverWork(s, s', step);
    }
  }

  lemma {:induction false} MoverWork(s: State, s': State, step: Step)
    requires Inv(s) && NextStep(s, s', step) && !Collects?(step) && !IsCrius(step)
    ensures Work(s') < Work(s)
  {
    match step
    case RootSwitchNr => ActorWork(s, s', step, 0);
    case RootSwitchStart => ActorWork(s, s', step, 0);
    case Born(i) => ActorWork(s, s', step, i);
    case FinishStage(i) => ActorWork(s, s', step, i);
    case NextStage(i) => ActorWork(s, s', step, i);
    case Leave(i) => ActorWork(s, s', step, i);
    case FindDead(i) =>
      var t :| 0 < t < |s.a| && s.a[t].Gone?;
      NobodyFoundDead(s, t);
    case _ =>
  }

  function Bound(s: State): nat { |s.a| * 108 + 3 * |s.foreign| + 208 }

  /**
   * Every run of the restore ends: it has no more steps than `Bound` says, and in its last state somebody can
   * still step, or all are done, or the root task waits for nothing.
   */
  lemma {:induction false} EveryRunEnds(run: seq<State>)
    requires IsRun(run)
    ensures |run| <= Bound(run[0]) + 1
    ensures var s := run[|run| - 1]; CanStep(s) || AllDone(s) || (Tree(s) && Stuck(s))
  {
    var work := seq(|run|, k requires 0 <= k < |run| => Work(run[k]));
    forall k | 0 <= k < |run| - 1
      ensures work[k + 1] < work[k]
    {
      RunInv(run, k);
      assert Next(run[k], run[k + 1]);
      NextWork(run[k], run[k + 1]);
    }
    Descends(work, |run| - 1);
    SumBelow(Costs(run[0]), 108);
    RunGood(run, |run| - 1);
    GoesOnOrStuck(run[|run| - 1]);
  }

  lemma {:induction false} NextWork(s: State, s': State)
    requires Inv(s) && Next(s, s')
    ensures Work(s') < Work(s)
  {
    var step :| NextStep(s, s', step);
    StepWork(s, s', step);
  }

  // ---- A restore that does not end well ----

  lemma {:induction false} Longer(run: seq<State>, s': State, step: Step)
    requires IsRun(run) && NextStep(run[|run| - 1], s', step)
    ensures IsRun(run + [s']) && (run + [s'])[|run|] == s' && (run + [s'])[0] == run[0]
  {
    var longer := run + [s'];
    forall k | 0 <= k < |longer| - 1
      ensures Next(longer[k], longer[k + 1])
    {
      assert k < |run| - 1 ==> Next(run[k], run[k + 1]);
    }
  }

  lemma {:induction false} HeldStep(s: State, s': State, step: Step, f: nat)
    requires Tree(s) && Tree(s') && NextStep(s, s', step) && Allowed(step, f) && Held(s, f)
    requires f > 0 && !s.a[f].Gone?
    ensures Held(s', f) && !s'.a[f].Gone?
  {
    SameTree(s, s', step);
  }

  /** Let everybody go on as far as they can, but do not let `f` die nor the root task collect. */
  lemma {:induction false} GoesOn(run: seq<State>, f: nat) returns (run': seq<State>)
    requires IsRun(run) && Tree(run[|run| - 1])
    requires f > 0 ==> Held(run[|run| - 1], f) && !run[|run| - 1].a[f].Gone?
    ensures IsRun(run') && run'[0] == run[0] && !CanStepBut(run'[|run'| - 1], f) && Tree(run'[|run'| - 1])
    ensures f > 0 ==> Held(run'[|run'| - 1], f) && !run'[|run'| - 1].a[f].Gone?
    ensures f == 0 && Stuck(run[|run| - 1]) ==> Stuck(run'[|run'| - 1])
    decreases Work(run[|run| - 1])
  {
    var s := run[|run| - 1];
    run' := run;
    if CanStepBut(s, f) {
      var s' := GoesOnOnce(run, f);
      run' := GoesOn(run + [s'], f);
    }
  }

  lemma {:induction false} GoesOnOnce(run: seq<State>, f: nat) returns (s': State)
    requires IsRun(run) && Tree(run[|run| - 1]) && CanStepBut(run[|run| - 1], f)
    requires f > 0 ==> Held(run[|run| - 1], f) && !run[|run| - 1].a[f].Gone?
    ensures IsRun(run + [s']) && Tree(s') && Work(s') < Work(run[|run| - 1])
    ensures f > 0 ==> Held(s', f) && !s'.a[f].Gone?
    ensures f == 0 && Stuck(run[|run| - 1]) ==> Stuck(s')
  {
    var s := run[|run| - 1];
    var step;
    s', step :| NextStep(s, s', step) && Allowed(step, f);
    RunGood(run, |run| - 1);
    Longer(run, s', step);
    NextInv(s, s', step);
    StepWork(s, s', step);
    if f > 0 {
      HeldStep(s, s', step, f);
    } else if Stuck(s) {
      StuckStays(s, s', step);
    }
  }

  /** Once the root task waits for nothing, it does so forever. */
  lemma {:induction false} StuckStays(s: State, s': State, step: Step)
    requires Good(s) && Stuck(s) && NextStep(s, s', step)
    ensures |s'.a| > 0 && Stuck(s')
  {
    SigchldCount(s);
    if step.FinishStage? && step.i > 0 {
      NotSwitching(s, step.i);
      assert {0, step.i} <= Pending(s, RESTORE_SIGCHLD);
      SubsetSize({0, step.i}, Pending(s, RESTORE_SIGCHLD));
    }
  }

  lemma {:induction false} NotFinished(s: State)
    requires Good(s) && s.z.NotYet?
    ensures !s.k.Finished?
  {
    assert s.start == COMPLETE ==> Pending(s, RESTORE_SIGCHLD) == {};
    assert 0 in Pending(s, RESTORE_SIGCHLD) <==> !HasFinished(s.a[0], RESTORE_SIGCHLD);
  }

  /** When nobody else can go on, the root task is alone in RESTORE_SIGCHLD, and its helpers are gone. */
  lemma {:induction false} RootIsLast(s: State, f: nat)
    requires Good(s) && f > 0 && Held(s, f) && !CanStepBut(s, f)
    ensures RootLast(s) && s.nr == 1 && HelperKidsGone(s)
  {
    NotFinished(s);
    UnfinishedCanStep(s, f);
    SigchldCount(s);
    forall t | 0 < t < |s.a| && s.parent[t] == 0 && s.kind[t].Helper?
      ensures s.a[t].Gone?
    {
      if !s.a[t].Gone? {
        assert !Above(s.parent, t, f);
        DyingCanStep(s, t, f);
      }
    }
  }

  ghost predicate Waits(s: State, j: nat)
    requires Tree(s)
  {
    j < |s.foreign| && 0 < s.foreign[j] < |s.a| && !s.a[s.parent[s.foreign[j]]].Gone?
  }

  /** The zombie is dead if its parent is. */
  ghost predicate Reparented(s: State, i: nat)
    requires Tree(s) && i < |s.foreign|
  {
    0 < s.foreign[i] < |s.a| && (s.a[s.parent[s.foreign[i]]].Gone? ==> s.a[s.foreign[i]].Gone?)
  }

  lemma {:induction false} DeadWhenReparented(s: State, i: nat)
    requires Good(s) && i < |s.foreign|
    ensures Reparented(s, i)
  {
    assert s.foreign[i] in s.foreign;
    assert DeadBelow(s, s.foreign[i]);
  }

  /** The root task, alone in the stage, tries one zombie. */
  lemma {:induction false} TriesOne(s: State, j: nat) returns (s1: State, s2: State)
    requires Tree(s) && RootLast(s) && s.nr == 1 && s.z.Pick? && s.z.i <= j && Waits(s, j) && Reparented(s, s.z.i)
    ensures NextStep(s, s1, SampleNr) && NextStep(s1, s2, TryZombie) && s2 == s.(z := s2.z)
    ensures Stuck(s2) || (s2.z == Pick(s.z.i + 1) && s.z.i + 1 <= j)
  {
    s1 := s.(z := Try(s.z.i, 1));
    var t := s.foreign[s.z.i];
    s2 := s.(z := if s.a[s.parent[t]].Gone? then Pick(s.z.i + 1) else Asleep(s.z.i, 1));
  }

  lemma {:induction false} LongerByTwo(run: seq<State>, s1: State, step1: Step, s2: State, step2: Step)
    requires IsRun(run) && NextStep(run[|run| - 1], s1, step1) && NextStep(s1, s2, step2)
    ensures IsRun(run + [s1] + [s2]) && (run + [s1] + [s2])[0] == run[0]
  {
    Longer(run, s1, step1);
    Longer(run + [s1], s2, step2);
  }

  /** The root task collects until it comes to a zombie that is not its child yet. */
  lemma {:induction false} CollectsUntil(run: seq<State>, j: nat) returns (run': seq<State>)
    requires IsRun(run) && Tree(run[|run| - 1]) && RootLast(run[|run| - 1]) && run[|run| - 1].nr == 1
    requires run[|run| - 1].z.Pick? && run[|run| - 1].z.i <= j && Waits(run[|run| - 1], j)
    ensures IsRun(run') && run'[0] == run[0] && Tree(run'[|run'| - 1]) && Stuck(run'[|run'| - 1])
    decreases j - run[|run| - 1].z.i
  {
    RunGood(run, |run| - 1);
    DeadWhenReparented(run[|run| - 1], run[|run| - 1].z.i);
    var s1, s2 := TriesOne(run[|run| - 1], j);
    LongerByTwo(run, s1, SampleNr, s2, TryZombie);
    run' := run + [s1] + [s2];
    if !Stuck(s2) {
      run' := CollectsUntil(run', j);
    }
  }

  /** A chain of dying tasks that hangs by a zombie from the root task. */
  lemma {:induction false} ChainHeld(kind: seq<Kind>, parent: seq<nat>, d: nat, t: nat)
    requires IsTree(kind, parent) && 0 < d < |kind| && Dying(kind[d]) && 0 < t < |kind| && Above(parent, t, d)
    requires var top := Top(kind, parent, d); 0 < top < |kind| && parent[top] == 0 && kind[top].Zombie?
    ensures if parent[t] == 0 then kind[t].Zombie? else Dying(kind[parent[t]])
  {
    if t != d {
      ChainHeld(kind, parent, parent[d], t);
    }
  }

  lemma {:induction false} UnguardedHeld(s: State, t: nat)
    requires Init(s) && 0 < t < |s.a| && Unguarded(s.kind, s.parent, t)
    ensures Held(s, s.parent[t]) && s.parent[t] > 0
  {
    forall u | 0 < u < |s.a| && Above(s.parent, u, s.parent[t])
      ensures if s.parent[u] == 0 then s.kind[u].Zombie? else Dying(s.kind[s.parent[u]])
    {
      ChainHeld(s.kind, s.parent, s.parent[t], u);
    }
  }

  /** With everybody else through, and the parent of zombie `t` still there, the root task begins to collect. */
  lemma {:induction false} BeginsToCollect(run: seq<State>, t: nat) returns (run': seq<State>, j: nat)
    requires IsRun(run) && Tree(run[|run| - 1]) && 0 < t < |run[|run| - 1].a|
    requires
      var s := run[|run| - 1];
      var d := s.parent[t];
      d > 0 && s.kind[t].Zombie? && Dying(s.kind[d]) && Held(s, d) && !s.a[d].Gone? && !CanStepBut(s, d)
    ensures IsRun(run') && run'[0] == run[0]
    ensures
      var s := run'[|run'| - 1];
      Tree(s) && RootLast(s) && s.nr == 1 && s.z == Pick(0) && Waits(s, j)
  {
    var s := run[|run| - 1];
    RunGood(run, |run| - 1);
    RootIsLast(s, s.parent[t]);
    var s' := s.(z := Pick(0));
    Longer(run, s', HelpersGone);
    run' := run + [s'];
    assert t in s.foreign;
    j :| 0 <= j < |s.foreign| && s.foreign[j] == t;
  }

  /**
   * A tree with a zombie that hangs by dying tasks from a zombie child of the root task has a run that ends
   * before the restore does: everybody else is through with RESTORE_SIGCHLD before the parent of that zombie
   * dies, and the root task then waits for the count to change for ever.
   */
  lemma {:induction false} SomeRunStalls(s: State) returns (run: seq<State>)
    requires Init(s) && CanStall(s.kind, s.parent)
    ensures IsRun(run) && run[0] == s && !CanStep(run[|run| - 1]) && !AllDone(run[|run| - 1])
  {
    assert IsTree(s.kind, s.parent);
    var t: nat :| t < |s.kind| && Unguarded(s.kind, s.parent, t);
    UnguardedHeld(s, t);
    var held := GoesOn([s], s.parent[t]);
    RunTree(held, |held| - 1);
    var collects, j := BeginsToCollect(held, t);
    var stuck := CollectsUntil(collects, j);
    run := GoesOn(stuck, 0);
  }

  /**
   * The exact condition: a restore of this tree can stall if and only if some zombie hangs by dying tasks
   * from a zombie child of the root task.
   */
  lemma {:induction false} StallsExactly(s: State)
    requires Init(s)
    ensures CanStall(s.kind, s.parent) <==>
            exists run :: IsRun(run) && run[0] == s && !CanStep(run[|run| - 1]) && !AllDone(run[|run| - 1])
  {
    if CanStall(s.kind, s.parent) {
      var run := SomeRunStalls(s);
    } else if run :| IsRun(run) && run[0] == s && !CanStep(run[|run| - 1]) && !AllDone(run[|run| - 1]) {
      NeverStalls(run, |run| - 1);
    }
  }
}
