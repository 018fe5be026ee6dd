/**
 * How the restore stages go on. The root task collects, besides its own zombies, those of the dying tasks,
 * and waits for the count of the stage to change when one of them has not become its child yet
 * (criu/pie/restorer.c:1559-1587). That wait can be for nothing: it is shown exactly for which trees the
 * restore always goes on. Every step brings it nearer to its end.
 */
module StageProgress {
  import opened Common
  import opened RestoreStages

  // ---- Chains of dying tasks ----

  /** The highest of the dying tasks above and including the dying task `d`. */
  function Top(kind: seq<Kind>, parent: seq<nat>, d: nat): nat
    requires 0 < d < |kind| == |parent|
  {
    if 0 < parent[d] < d && Dying(kind[parent[d]]) then Top(kind, parent, parent[d]) else d
  }

  /** A zombie below a zombie child of the root task: nothing that the root task waits for before it has to be gone. */
  ghost predicate Unguarded(kind: seq<Kind>, parent: seq<nat>, t: nat)
    requires IsTree(kind, parent)
  {
    && 0 < t < |kind| && kind[t].Zombie? && Dying(kind[parent[t]]) && parent[t] > 0
    && var top := Top(kind, parent, parent[t]); 0 < top < |kind| && parent[top] == 0 && kind[top].Zombie?
  }

  ghost predicate CanStall(kind: seq<Kind>, parent: seq<nat>)
    requires IsTree(kind, parent)
  {
    exists t :: Unguarded(kind, parent, t)
  }

  /** The dying task above a dying task dies after it. */
  ghost predicate DeadBelow(s: State, t: nat)
    requires Tree(s) && 0 < t < |s.a|
  {
    Dying(s.kind[t]) && Dying(s.kind[s.parent[t]]) && s.a[s.parent[t]].Gone? ==> s.a[t].Gone?
  }

  ghost predicate AllDeadBelow(s: State)
    requires Tree(s)
  {
    forall t :: 0 < t < |s.a| ==> DeadBelow(s, t)
  }

  lemma {:induction false} DeadBelowKept(s: State, s': State, step: Step, t: nat)
    requires Inv(s) && NextStep(s, s', step) && Tree(s') && s'.kind == s.kind && s'.parent == s.parent
    requires 0 < t < |s.a| == |s'.a| && DeadBelow(s, t)
    ensures DeadBelow(s', t)
  {
    if s.a[t].Gone? {
      StaysGone(s, s', step, t);
    }
  }

  /** The highest dying task is gone only when all below it in its chain are. */
  lemma {:induction false} TopAlive(s: State, d: nat)
    requires Tree(s) && AllDeadBelow(s) && 0 < d < |s.a| && Dying(s.kind[d]) && !s.a[d].Gone?
    ensures
      var top := Top(s.kind, s.parent, d);
      0 < top < |s.a| && Dying(s.kind[top]) && !s.a[top].Gone? && !Dying(s.kind[s.parent[top]])
  {
    assert DeadBelow(s, d);
    if Dying(s.kind[s.parent[d]]) {
      assert s.parent[d] > 0;
      TopAlive(s, s.parent[d]);
    }
  }

  // ---- What the root task collects ----

  ghost predicate CollectOk(s: State)
    requires Tree(s)
  {
    && (s.z.Pick? ==> s.z.i <= |s.foreign|)
    && (s.z.Try? || s.z.Asleep? ==> s.z.i < |s.foreign| && InSigchld(s) && s.z.v >= s.nr)
    && (!s.z.NotYet? ==> HelperKidsGone(s) && HasFinished(s.a[0], RESTORE))
    && (HasFinished(s.a[0], RESTORE_SIGCHLD) ==> s.z == Pick(|s.foreign|))
    && (s.z.Asleep? && !CanStall(s.kind, s.parent) ==> s.z.v >= 2)
  }

  lemma {:induction false} SigchldCount(s: State)
    requires Inv(s) && InSigchld(s)
    ensures s.start == RESTORE_SIGCHLD && s.nr == |Pending(s, RESTORE_SIGCHLD)| && 0 in Pending(s, RESTORE_SIGCHLD)
    ensures s.k == WaitZero(RESTORE_SIGCHLD)
  {
    NotSwitching(s, 0);
  }

  /** If the root task has to wait for a zombie that is guarded, another task is not through with the stage. */
  lemma {:induction false} SomebodyElsePending(s: State, t: nat)
    requires Inv(s) && AllDeadBelow(s) && AllDeadInTime(s) && InSigchld(s) && HelperKidsGone(s)
    requires 0 < t < |s.a| && s.kind[t].Zombie? && Dying(s.kind[s.parent[t]]) && !s.a[s.parent[t]].Gone?
    requires !Unguarded(s.kind, s.parent, t)
    ensures s.nr >= 2
  {
    SigchldCount(s);
    TopAlive(s, s.parent[t]);
    var top := Top(s.kind, s.parent, s.parent[t]);
    var x := s.parent[top];
    assert x != 0 && s.kind[x].Leader?;
    assert DeadInTime(s, top);
    assert {0, x} <= Pending(s, RESTORE_SIGCHLD);
    SubsetSize({0, x}, Pending(s, RESTORE_SIGCHLD));
  }

  lemma {:induction false} TryOk(s: State, s': State)
    requires Inv(s) && AllDeadBelow(s) && AllDeadInTime(s) && CollectOk(s) && NextStep(s, s', TryZombie) && Tree(s')
    ensures CollectOk(s')
  {
    var t := s.foreign[s.z.i];
    assert t in s.foreign;
    if s'.z.Asleep? && !CanStall(s.kind, s.parent) {
      assert !Unguarded(s.kind, s.parent, t);
      SomebodyElsePending(s, t);
    }
  }

  /** The root task has not finished RESTORE_SIGCHLD unless it has collected all. */
  lemma {:induction false} FinishedCollected(s: State, s': State, step: Step)
    requires Inv(s) && CollectOk(s) && NextStep(s, s', step) && !Collects?(step) && Tree(s')
    ensures HasFinished(s'.a[0], RESTORE_SIGCHLD) ==> s.z == Pick(|s.foreign|)
  {
    SameTree(s, s', step);
    assert ActorOk(s, 0);
    if HasFinished(s'.a[0], RESTORE_SIGCHLD) && !HasFinished(s.a[0], RESTORE_SIGCHLD) {
      FinishCause(s, s', step, 0, RESTORE_SIGCHLD);
    }
  }

  /** While the root task tries or sleeps, it stays in the stage and the count does not grow. */
  lemma {:induction false} StaysInSigchld(s: State, s': State, step: Step)
    requires Inv(s) && InSigchld(s) && (s.z.Try? || s.z.Asleep?) && NextStep(s, s', step) && !Collects?(step)
    ensures |s'.a| > 0 && InSigchld(s') && s'.nr <= s.nr
  {
    SigchldCount(s);
  }

  lemma {:induction false} RestoreStaysFinished(s: State, s': State, step: Step)
    requires Inv(s) && HasFinished(s.a[0], RESTORE) && NextStep(s, s', step)
    ensures |s'.a| > 0 && HasFinished(s'.a[0], RESTORE)
  {
    assert ActorOk(s, 0);
  }

  lemma {:induction false} SameCollecting(s: State, s': State, step: Step)
    requires NextStep(s, s', step) && !Collects?(step)
    ensures s'.z == s.z
  {
  }

  lemma {:induction false} MoveOk(s: State, s': State, step: Step)
    requires Inv(s) && CollectOk(s) && NextStep(s, s', step) && !Collects?(step) && Tree(s')
    ensures CollectOk(s')
  {
    SameTree(s, s', step);
    SameCollecting(s, s', step);
    FinishedCollected(s, s', step);
    if !s.z.NotYet? {
      HelpersStayGone(s, s', step);
      RestoreStaysFinished(s, s', step);
    }
    if s.z.Try? || s.z.Asleep? {
      StaysInSigchld(s, s', step);
    }
  }

  lemma {:induction false} HelpersStayGone(s: State, s': State, step: Step)
    requires Inv(s) && NextStep(s, s', step) && Tree(s') && HelperKidsGone(s)
    ensures HelperKidsGone(s')
  {
    SameTree(s, s', step);
    forall t | 0 < t < |s.a| && s.parent[t] == 0 && s.kind[t].Helper?
      ensures s'.a[t].Gone?
    {
      StaysGone(s, s', step, t);
    }
  }

  lemma {:induction false} PickOk(s: State, s': State, step: Step)
    requires Inv(s) && CollectOk(s) && NextStep(s, s', step) && Collects?(step) && !step.TryZombie? && Tree(s')
    ensures CollectOk(s')
  {
    SigchldCount(s);
  }

  lemma {:induction false} CollectKept(s: State, s': State, step: Step)
    requires Inv(s) && AllDeadBelow(s) && AllDeadInTime(s) && CollectOk(s) && NextStep(s, s', step) && Tree(s')
    ensures CollectOk(s')
  {
    if step.TryZombie? {
      TryOk(s, s');
    } else if Collects?(step) {
      PickOk(s, s', step);
    } else {
      MoveOk(s, s', step);
    }
  }

  /** All that holds in every state of every run. */
  ghost predicate Good(s: State) {
    Inv(s) && AllBornInTime(s) && AllDeadInTime(s) && AllDeadBelow(s) && CollectOk(s)
  }

  lemma {:induction false} NextGood(s: State, s': State, step: Step)
    requires Good(s) && NextStep(s, s', step)
    ensures Good(s') && s'.kind == s.kind && s'.parent == s.parent && s'.foreign == s.foreign
  {
    NextInv(s, s', step);
    SameTree(s, s', step);
    AllBornInTimeKept(s, s', step);
    AllDeadInTimeKept(s, s', step);
    forall t | 0 < t < |s'.a|
      ensures DeadBelow(s', t)
    {
      DeadBelowKept(s, s', step, t);
    }
    CollectKept(s, s', step);
  }

  lemma {:induction false} RunTree(run: seq<State>, k: nat)
    requires IsRun(run) && k < |run|
    ensures Tree(run[k]) && run[k].kind == run[0].kind && run[k].parent == run[0].parent
  {
    if k > 0 {
      RunTree(run, k - 1);
      assert Next(run[k - 1], run[k - 1 + 1]);
      var step :| NextStep(run[k - 1], run[k], step);
      SameTree(run[k - 1], run[k], step);
    }
  }

  lemma {:induction false} RunBelow(run: seq<State>, k: nat)
    requires IsRun(run) && k < |run|
    ensures Tree(run[k]) && AllDeadBelow(run[k])
  {
    RunTree(run, k);
    if k > 0 {
      RunBelow(run, k - 1);
      RunInv(run, k - 1);
      assert Next(run[k - 1], run[k - 1 + 1]);
      BelowKept(run[k - 1], run[k]);
    }
  }

  lemma {:induction false} BelowKept(s: State, s': State)
    requires Inv(s) && AllDeadBelow(s) && Next(s, s') && Tree(s')
    ensures AllDeadBelow(s')
  {
    var step :| NextStep(s, s', step);
    SameTree(s, s', step);
    forall t | 0 < t < |s'.a|
      ensures DeadBelow(s', t)
    {
      DeadBelowKept(s, s', step, t);
    }
  }

  lemma {:induction false} RunCollect(run: seq<State>, k: nat)
    requires IsRun(run) && k < |run|
    ensures Tree(run[k]) && CollectOk(run[k])
  {
    RunTree(run, k);
    if k > 0 {
      RunCollect(run, k - 1);
      RunBelow(run, k - 1);
      RunDead(run, k - 1);
      assert Next(run[k - 1], run[k - 1 + 1]);
      OnceMore(run[k - 1], run[k]);
    }
  }

  lemma {:induction false} OnceMore(s: State, s': State)
    requires Inv(s) && AllDeadBelow(s) && AllDeadInTime(s) && CollectOk(s) && Next(s, s') && Tree(s')
    ensures CollectOk(s')
  {
    var step :| NextStep(s, s', step);
    CollectKept(s, s', step);
  }

  lemma {:induction false} RunGood(run: seq<State>, k: nat)
    requires IsRun(run) && k < |run|
    ensures Good(run[k])
  {
    RunInv(run, k);
    RunDead(run, k);
    RunBelow(run, k);
    RunCollect(run, k);
  }

  // ---- Who can step ----

  /** `i` is `f` or one of those above it, except the root task. */
  predicate Above(parent: seq<nat>, i: nat, f: nat) {
    0 < f < |parent| && (i == f || (parent[f] < f && Above(parent, i, parent[f])))
  }

  lemma {:induction false} AboveParent(parent: seq<nat>, t: nat, f: nat)
    requires Above(parent, t, f) && 0 < t < |parent| && 0 < parent[t] < t
    ensures Above(parent, parent[t], f)
  {
    if t != f {
      AboveParent(parent, t, parent[f]);
    }
  }

  /**
   * A step that does not have to wait when `f`, if it is not zero, is not allowed to die
   * nor the root task to collect.
   */
  ghost predicate Allowed(step: Step, f: nat) {
    !step.FindDead? && (f > 0 ==> step != Leave(f) && !Collects?(step))
  }

  ghost predicate CanStepBut(s: State, f: nat) { exists s', step :: NextStep(s, s', step) && Allowed(step, f) }

  /** Some step other than an error is possible. */
  ghost predicate CanStep(s: State) { CanStepBut(s, 0) }

  lemma {:induction false} Enabled(s: State, s': State, step: Step, f: nat)
    requires NextStep(s, s', step) && Allowed(step, f)
    ensures CanStepBut(s, f)
  {
  }

  /** Once RESTORE is over, the last of those who are to die and have not yet can leave. */
  lemma {:induction false} DyingCanStep(s: State, i: nat, f: nat)
    requires Inv(s) && s.start > RESTORE && i < |s.a| && Dying(s.kind[i]) && !s.a[i].Gone? && !Above(s.parent, i, f)
    ensures CanStepBut(s, f)
    decreases |s.a| - i
  {
    assert ActorOk(s, i) && i !in Pending(s, RESTORE);
    assert s.a[i] == Arrived(RESTORE);
    if t :| 0 < t < |s.a| && s.parent[t] == i && Dying(s.kind[t]) && !s.a[t].Gone? {
      assert i > 0;
      if Above(s.parent, t, f) {
        AboveParent(s.parent, t, f);
      }
      DyingCanStep(s, t, f);
    } else {
      Enabled(s, s.(a := s.a[i := Gone]), Leave(i), f);
    }
  }

  /** The task that is not allowed to die, and those above it, hang by a zombie from the root task. */
  ghost predicate Held(s: State, f: nat)
    requires Tree(s)
  {
    f > 0 ==>
      && s.z.NotYet? && f < |s.a|
      && forall t :: 0 < t < |s.a| && Above(s.parent, t, f) ==>
           if s.parent[t] == 0 then s.kind[t].Zombie? else Dying(s.kind[s.parent[t]])
  }

  lemma {:induction false} ArrivedCanStep(s: State, i: nat, f: nat)
    requires Inv(s) && i < |s.a| && s.a[i].Arrived? && s.a[i].st != s.start
    requires f > 0 ==> TakesPart(s.kind[i], s.start) && s.start < COMPLETE
    ensures CanStepBut(s, f)
  {
    assert ActorOk(s, i);
    if TakesPart(s.kind[i], s.a[i].st + 1) {
      CanGoOn(s, i, f);
    } else if Dying(s.kind[i]) {
      DyingCanStep(s, i, f);
    } else {
      SurvivorCanLeave(s, i, f);
    }
  }

  lemma {:induction false} CanGoOn(s: State, i: nat, f: nat)
    requires Tree(s) && i < |s.a| && s.a[i].Arrived? && s.a[i].st != s.start && TakesPart(s.kind[i], s.a[i].st + 1)
    ensures CanStepBut(s, f)
  {
    Enabled(s, s.(a := s.a[i := Working(s.a[i].st + 1)]), NextStage(i), f);
  }

  lemma {:induction false} SurvivorCanLeave(s: State, i: nat, f: nat)
    requires |s.a| == |s.kind| == |s.parent| && i < |s.a| && s.a[i].Arrived? && s.a[i].st != s.start
    requires !TakesPart(s.kind[i], s.a[i].st + 1) && !Dying(s.kind[i]) && f == 0
    ensures CanStepBut(s, f)
  {
    Enabled(s, s.(a := s.a[i := Gone]), Leave(i), f);
  }

  /** The root task in RESTORE_SIGCHLD, when nobody else is left in it. */
  ghost predicate RootLast(s: State)
    requires |s.a| > 0
  {
    InSigchld(s) && s.nr <= 1
  }

  /** It waits for the count to change, and nobody is left to change it. */
  ghost predicate Stuck(s: State)
    requires |s.a| > 0
  {
    RootLast(s) && s.z.Asleep? && s.z.v == s.nr
  }

  lemma {:induction false} KidsCanDie(s: State, i: nat, f: nat)
    requires Good(s) && Held(s, f) && s.start > RESTORE && i < |s.a| && !Dying(s.kind[i]) && !DyingKidsGone(s, i)
    requires i == 0 ==> f == 0
    ensures CanStepBut(s, f)
  {
    var t :| 0 < t < |s.a| && s.parent[t] == i && Dying(s.kind[t]) && !s.a[t].Gone?;
    assert !Above(s.parent, t, f);
    DyingCanStep(s, t, f);
  }

  lemma {:induction false} WorkingCanStep(s: State, i: nat, f: nat)
    requires Good(s) && Held(s, f) && i < |s.a| && s.a[i].Working? && !(i == 0 && InSigchld(s))
    requires i == 0 && RootSwitches(s, s.a[0].st) && s.a[0].st >= FORKING ==> s.nr <= 1
    ensures CanStepBut(s, f)
  {
    if i == 0 && RootSwitches(s, s.a[0].st) {
      RootCanSwitch(s, f);
    } else if !KidsBorn(s, i, s.a[i].st) {
      var t :| 0 < t < |s.a| && s.parent[t] == i && BirthStage(s.kind[t]) == s.a[i].st && s.a[t].NotBorn?;
      CanBeBorn(s, t, f);
    } else if s.a[i].st == RESTORE_SIGCHLD && !DyingKidsGone(s, i) {
      WorksInStart(s, i);
      assert ActorOk(s, i);
      KidsCanDie(s, i, f);
    } else {
      CanFinish(s, i, f);
    }
  }

  lemma {:induction false} RootCanSwitch(s: State, f: nat)
    requires |s.a| == |s.kind| == |s.parent| > 0 && s.a[0].Working? && RootSwitches(s, s.a[0].st)
    requires s.a[0].st >= FORKING ==> s.nr <= 1
    ensures CanStepBut(s, f)
  {
    Enabled(s, s.(nr := StageParticipants(s, s.a[0].st + 1), a := s.a[0 := Switching(s.a[0].st)]), RootSwitchNr, f);
  }

  lemma {:induction false} CanBeBorn(s: State, t: nat, f: nat)
    requires Tree(s) && 0 < t < |s.a| && s.a[t].NotBorn? && s.a[s.parent[t]] == Working(BirthStage(s.kind[t]))
    ensures CanStepBut(s, f)
  {
    Enabled(s, s.(a := s.a[t := Working(BirthStage(s.kind[t]))]), Born(t), f);
  }

  lemma {:induction false} CanFinish(s: State, i: nat, f: nat)
    requires Tree(s) && i < |s.a| && s.a[i].Working? && KidsBorn(s, i, s.a[i].st)
    requires !(i == 0 && (RootSwitches(s, s.a[0].st) || InSigchld(s)))
    requires s.a[i].st == RESTORE_SIGCHLD ==> DyingKidsGone(s, i)
    ensures CanStepBut(s, f)
  {
    Enabled(s, s.(nr := s.nr - 1, a := s.a[i := Arrived(s.a[i].st)]), FinishStage(i), f);
  }

  /** The root task goes on with RESTORE_SIGCHLD unless it waits for nothing. */
  lemma {:induction false} CollectorCanStep(s: State)
    requires Good(s) && InSigchld(s) && !(s.z.Asleep? && s.z.v == s.nr)
    ensures CanStep(s)
  {
    SigchldCount(s);
    match s.z
    case NotYet =>
      if HelperKidsGone(s) {
        Enabled(s, s.(z := Pick(0)), HelpersGone, 0);
      } else {
        KidsCanDie(s, 0, 0);
      }
    case Pick(i) =>
      if i < |s.foreign| {
        Enabled(s, s.(z := Try(i, s.nr)), SampleNr, 0);
      } else if DyingKidsGone(s, 0) {
        Enabled(s, s.(nr := s.nr - 1, a := s.a[0 := Arrived(RESTORE_SIGCHLD)]), FinishStage(0), 0);
      } else {
        KidsCanDie(s, 0, 0);
      }
    case Try(i, v) => TryCanStep(s);
    case Asleep(i, v) => Enabled(s, s.(z := Pick(i)), RetryZombie, 0);
  }

  lemma {:induction false} TryCanStep(s: State)
    requires Good(s) && InSigchld(s) && s.z.Try?
    ensures CanStep(s)
  {
    var t := s.foreign[s.z.i];
    assert t in s.foreign;
    SigchldCount(s);
    if !s.a[s.parent[t]].Gone? {
      Enabled(s, s.(z := Asleep(s.z.i, s.z.v)), TryZombie, 0);
    } else if s.a[t].Gone? {
      Enabled(s, s.(z := Pick(s.z.i + 1)), TryZombie, 0);
    } else {
      DyingCanStep(s, t, 0);
    }
  }

  /** Somebody above an actor that is still to be created can step. */
  lemma {:induction false} UnbornCanStep(s: State, i: nat, f: nat)
    requires Good(s) && Held(s, f) && !Early(s.k) && !s.a[0].Switching? && 0 < i < |s.a|
    requires i in Pending(s, s.start) && s.a[i].NotBorn?
    ensures CanStepBut(s, f)
    decreases i
  {
    var p, st := s.parent[i], BirthStage(s.kind[i]);
    assert BornInTime(s, i) && ActorOk(s, p) && i in Pending(s, st);
    assert s.start == st;
    if s.a[p].NotBorn? {
      assert p in Pending(s, FORKING);
      UnbornCanStep(s, p, f);
    } else if s.a[p].Working? {
      WorksInStart(s, p);
      CanBeBorn(s, i, f);
    } else {
      ArrivedCanStep(s, p, f);
    }
  }

  lemma {:induction false} PendingCanStep(s: State, i: nat, f: nat)
    requires Good(s) && Held(s, f) && !Early(s.k) && !s.a[0].Switching? && i in Pending(s, s.start)
    requires i == 0 ==> s.nr <= 1
    ensures CanStepBut(s, f) || RootLast(s)
  {
    assert ActorOk(s, i);
    if i == 0 && InSigchld(s) {
    } else if s.a[i].NotBorn? {
      UnbornCanStep(s, i, f);
    } else if s.a[i].Working? {
      WorkingCanStep(s, i, f);
    } else {
      ArrivedCanStep(s, i, f);
    }
  }

  lemma {:induction false} CriuCanStep(s: State, f: nat)
    requires Inv(s) && !s.k.Finished? && (s.k.WaitZero? ==> s.nr <= 0)
    ensures CanStepBut(s, f)
  {
    match s.k
    case SetNr(st) => Enabled(s, s.(nr := StageParticipants(s, st), k := Publish(st)), CriuSetNr, f);
    case Publish(st) => Enabled(s, s.(start := st, k := AfterPublish(s, st)), CriuPublish, f);
    case Fork =>
      var k := WaitZero(if s.ns then ROOT_TASK else RESTORE);
      Enabled(s, s.(a := s.a[0 := Working(ROOT_TASK)], k := k), CriuFork, f);
    case WaitZero(st) => Enabled(s, s.(k := AfterWait(st)), CriuWait, f);
    case DropZombies =>
      var s' := s.(nrThreads := s.nrThreads - Count(s.kind, Zombie), k := SetNr(RESTORE_SIGCHLD));
      Enabled(s, s', CriuDropZombies, f);
  }

  lemma {:induction false} FinishedActors(s: State, i: nat)
    requires Inv(s) && s.k.Finished? && i < |s.a| && !s.a[i].Gone?
    ensures s.a[i].Arrived? && s.a[i].st != s.start
  {
    assert ActorOk(s, i);
    var st := if s.a[i].Working? then s.a[i].st else RESTORE;
    assert st < s.start;
    assert i !in Pending(s, st);
  }

  lemma {:induction false} PickPending(s: State) returns (i: nat)
    requires |s.a| == |s.kind| && s.nr == |Pending(s, s.start)| >= 1
    ensures i in Pending(s, s.start) && (i == 0 ==> s.nr <= 1)
  {
    i :| i in Pending(s, s.start);
    if i == 0 && s.nr > 1 {
      var rest := Pending(s, s.start) - {0};
      assert |rest| >= 1;
      i :| i in rest;
    }
  }

  /** Before CRIU is finished somebody can step, or only the root task is left in RESTORE_SIGCHLD. */
  lemma {:induction false} UnfinishedCanStep(s: State, f: nat)
    requires Good(s) && Held(s, f) && !s.k.Finished?
    ensures CanStepBut(s, f) || RootLast(s)
  {
    if !s.k.WaitZero? || s.nr <= 0 {
      CriuCanStep(s, f);
    } else if s.a[0].Switching? {
      Enabled(s, s.(start := s.a[0].st + 1, a := s.a[0 := Working(s.a[0].st + 1)]), RootSwitchStart, f);
    } else {
      assert |Pending(s, s.start)| >= 1;
      var i := PickPending(s);
      PendingCanStep(s, i, f);
    }
  }

  ghost predicate AllDone(s: State) { s.k.Finished? && forall i :: 0 <= i < |s.a| ==> s.a[i].Gone? }

  /** In every state somebody can step, or everybody is done, or the root task waits for nothing. */
  lemma {:induction false} GoesOnOrStuck(s: State)
    requires Good(s)
    ensures CanStep(s) || AllDone(s) || Stuck(s)
  {
    if !s.k.Finished? {
      UnfinishedCanStep(s, 0);
      if RootLast(s) && !Stuck(s) {
        CollectorCanStep(s);
      }
    } else if i :| 0 <= i < |s.a| && !s.a[i].Gone? {
      FinishedActors(s, i);
      ArrivedCanStep(s, i, 0);
    }
  }

  /**
   * The restore never stalls when no zombie hangs by dying tasks from a zombie child of the root task: until
   * CRIU is finished and every actor is gone, someone can step.
   */
  lemma {:induction false} NeverStalls(run: seq<State>, k: nat)
    requires IsRun(run) && k < |run| && !CanStall(run[0].kind, run[0].parent)
    ensures CanStep(run[k]) || AllDone(run[k])
  {
    RunGood(run, k);
    RunTree(run, k);
    GoesOnOrStuck(run[k]);
  }

  // ---- What has been collected ----

  /** A zombie that the root task is past is dead. */
  ghost predicate Collected(s: State, j: nat) {
    !s.z.NotYet? && j < s.z.i && j < |s.foreign| ==> s.foreign[j] < |s.a| && s.a[s.foreign[j]].Gone?
  }

  lemma {:induction false} PastIsGone(s: State, s': State, step: Step, j: nat)
    requires Inv(s) && Collected(s, j) && NextStep(s, s', step) && !s'.z.NotYet? && j < s'.z.i && j < |s.foreign|
    ensures 0 < s.foreign[j] < |s.a| && s.a[s.foreign[j]].Gone?
  {
    assert s.foreign[j] in s.foreign;
    assert s'.z != s.z ==> Collects?(step);
  }

  lemma {:induction false} CollectedKept(s: State, s': State, step: Step, j: nat)
    requires Inv(s) && Collected(s, j) && NextStep(s, s', step)
    ensures Collected(s', j)
  {
    SameTree(s, s', step);
    if !s'.z.NotYet? && j < s'.z.i && j < |s.foreign| {
      PastIsGone(s, s', step, j);
      StaysGone(s, s', step, s.foreign[j]);
    }
  }

  lemma {:induction false} RunCollected(run: seq<State>, k: nat, j: nat)
    requires IsRun(run) && k < |run|
    ensures Collected(run[k], j)
  {
    if k > 0 {
      RunCollected(run, k - 1, j);
      RunInv(run, k - 1);
      assert Next(run[k - 1], run[k - 1 + 1]);
      var step :| NextStep(run[k - 1], run[k], step);
      CollectedKept(run[k - 1], run[k], step, j);
    }
  }

  /** The root task reports RESTORE_SIGCHLD finished only when the zombies of the dying tasks are dead as well. */
  lemma {:induction false} ZombiesDeadInTime(run: seq<State>, k: nat, t: nat)
    requires IsRun(run) && k < |run| && Tree(run[k]) && 0 < t < |run[k].a|
    requires run[k].kind[t].Zombie? && Dying(run[k].kind[run[k].parent[t]])
    ensures HasFinished(run[k].a[0], RESTORE_SIGCHLD) ==> run[k].a[t].Gone?
  {
    RunGood(run, k);
    assert t in run[k].foreign;
    var j :| 0 <= j < |run[k].foreign| && run[k].foreign[j] == t;
    RunCollected(run, k, j);
  }

  // ---- A tree that can stall ----

  /** The zombies among the first `n` that the root task collects. */
  function Foreign(kind: seq<Kind>, parent: seq<nat>, n: nat): seq<nat>
    requires n <= |kind| == |parent| && forall i :: 0 < i < |kind| ==> parent[i] < i
  {
    if n <= 1 then []
    else
      var t := n - 1;
      Foreign(kind, parent, t) + if kind[t].Zombie? && Dying(kind[parent[t]]) then [t] else []
  }

  lemma {:induction false} ForeignIs(kind: seq<Kind>, parent: seq<nat>, n: nat)
    requires n <= |kind| == |parent| && forall i :: 0 < i < |kind| ==> parent[i] < i
    ensures forall t :: t in Foreign(kind, parent, n) <==>
              0 < t < n && kind[t].Zombie? && Dying(kind[parent[t]])
  {
    if n > 1 {
      ForeignIs(kind, parent, n - 1);
    }
  }

  /** Every tree has a state from which its restore starts. */
  lemma {:induction false} Starts(kind: seq<Kind>, parent: seq<nat>, ns: bool) returns (s: State)
    requires IsTree(kind, parent)
    ensures Init(s) && s.kind == kind && s.parent == parent && s.ns == ns
  {
    var foreign := Foreign(kind, parent, |kind|);
    ForeignIs(kind, parent, |kind|);
    assert forall j :: 0 <= j < |foreign| ==> foreign[j] in foreign;
    s := State(kind, parent, foreign, ns, ROOT_TASK, 0, RestoreStages.Count(kind, Leader),
               RestoreStages.Count(kind, Helper), RestoreStages.Count(kind, Thread), seq(|kind|, _ => NotBorn),
               SetNr(ROOT_TASK), NotYet, false);
  }

  /**
   * A dead session leader and a dead member of its session, both zombies of the root task: the member is
   * created below a helper of the leader (criu/pstree.c:756-819), and the restore can stall.
   */
  lemma {:induction false} DeadSessionCanStall()
    ensures var kind, parent := [Root, Zombie, Helper, Zombie], [0, 0, 1, 2];
            IsTree(kind, parent) && CanStall(kind, parent)
  {
    var kind, parent := [Root, Zombie, Helper, Zombie], [0, 0, 1, 2];
    assert Top(kind, parent, 1) == 1 && Top(kind, parent, 2) == 1;
    assert Unguarded(kind, parent, 3);
  }
}
