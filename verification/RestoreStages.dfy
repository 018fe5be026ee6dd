/**
 * The restore stages: CRIU, the root task and every other restored task, thread, zombie and helper
 * synchronise through two futexes, `nr_in_progress` and `start`. A switch sets the count first and
 * publishes the stage second; the two are separate steps. Nothing aborts.
 */
module RestoreStages {

  const ROOT_TASK := 0
  const PREPARE_NAMESPACES := 1
  const FORKING := 2
  const PRE_RESTORER := 3
  const RESTORE := 4
  const RESTORE_SIGCHLD := 5
  const RESTORE_CREDS := 6
  const COMPLETE := 7

  /** What an actor is: the leader of the root task or of another, a further thread of a task, a zombie or a helper. */
  datatype Kind = Root | Leader | Thread | Zombie | Helper

  /**
   * Where an actor stands: at work in a stage, done with it and waiting, between the two
   * halves of a switch, or gone.
   */
  datatype Pc = NotBorn | Working(st: nat) | Arrived(st: nat) | Switching(st: nat) | Gone

  /**
   * How far the root task is with the zombies of the dying tasks, which become its children when their
   * parents die: not begun, at zombie `i`, about to wait for it after reading the count `v`, or waiting for
   * the count to change because it is not its child yet.
   */
  datatype Collecting = NotYet | Pick(i: nat) | Try(i: nat, v: int) | Asleep(i: nat, v: int)

  /** CRIU itself: about to set the count of a stage, to publish it, to fork, to wait, or to drop the zombies. */
  datatype Criu = SetNr(st: nat) | Publish(st: nat) | Fork | WaitZero(st: nat) | DropZombies | Finished

  /**
   * `parent` is the task that creates an actor: the parent of a task, the leader of a thread. `early`
   * records the error of a parent that finds a child dead before the restore stage is over. `foreign` are
   * the zombies that the root task collects besides its own.
   */
  datatype State = State(
    kind: seq<Kind>, parent: seq<nat>, foreign: seq<nat>, ns: bool,
    start: nat, nr: int, nrTasks: nat, nrHelpers: nat, nrThreads: int,
    a: seq<Pc>, k: Criu, z: Collecting, early: bool)

  datatype Step =
    | CriuSetNr | CriuPublish | CriuFork | CriuWait | CriuDropZombies
    | RootSwitchNr | RootSwitchStart
    | Born(i: nat)
    | FinishStage(i: nat)
    | NextStage(i: nat)
    | Leave(i: nat)
    | FindDead(i: nat)
    | HelpersGone | SampleNr | TryZombie | RetryZombie

  /** Who takes part in a stage. */
  predicate TakesPart(kind: Kind, st: nat) {
    match kind
    case Root => st < COMPLETE
    case Leader => FORKING <= st < COMPLETE
    case Thread => RESTORE <= st < COMPLETE
    case Zombie => FORKING <= st <= RESTORE
    case Helper => FORKING <= st <= RESTORE
  }

  ghost function Participants(kind: seq<Kind>, st: nat): set<nat> {
    set i: nat | i < |kind| && TakesPart(kind[i], st)
  }

  predicate CountsAs(kind: Kind, what: Kind) {
    match what
    case Helper => kind.Helper?
    case Zombie => kind.Zombie?
    case Thread => !kind.Helper?                                   // image threads, zombies included
    case _ => kind.Root? || kind.Leader? || kind.Zombie?              // image tasks
  }

  ghost function Of(kind: seq<Kind>, what: Kind): set<nat> {
    set i: nat | i < |kind| && CountsAs(kind[i], what)
  }

  ghost function Count(kind: seq<Kind>, what: Kind): nat { |Of(kind, what)| }

  /** `stage_participants`. */
  function StageParticipants(s: State, st: nat): int {
    if st == ROOT_TASK || st == PREPARE_NAMESPACES then 1
    else if st == FORKING || st == PRE_RESTORER then s.nrTasks + s.nrHelpers
    else if st == RESTORE then s.nrThreads + s.nrHelpers
    else s.nrThreads
  }

  /** Zombies and helpers die during the restore. */
  predicate Dying(kind: Kind) { kind.Zombie? || kind.Helper? }

  /** The stage in which an actor is created. */
  function BirthStage(kind: Kind): nat { if kind.Thread? then RESTORE else FORKING }

  /** Actors are numbered in the order of the tree: parents first. */
  ghost predicate IsTree(kind: seq<Kind>, parent: seq<nat>) {
    && |kind| == |parent| > 0 && kind[0] == Root
    && (forall i :: 0 < i < |kind| ==> !kind[i].Root? && parent[i] < i)
    && (forall i :: 0 < i < |kind| && kind[i].Thread? ==> kind[parent[i]].Root? || kind[parent[i]].Leader?)
    && (forall i :: 0 < i < |kind| && !kind[i].Thread? ==> !kind[parent[i]].Thread?)
  }

  ghost predicate Tree(s: State) { |s.a| == |s.kind| && IsTree(s.kind, s.parent) }

  /** `child_death_expected`. */
  predicate HasDyingKids(s: State, i: nat)
    requires |s.a| == |s.kind| == |s.parent|
  {
    exists t :: 0 < t < |s.a| && s.parent[t] == i && Dying(s.kind[t])
  }

  predicate DyingKidsGone(s: State, i: nat)
    requires |s.a| == |s.kind| == |s.parent|
  {
    forall t :: 0 < t < |s.a| && s.parent[t] == i && Dying(s.kind[t]) ==> s.a[t].Gone?
  }

  /** The helpers that are children of the root task are gone. */
  predicate HelperKidsGone(s: State)
    requires |s.a| == |s.kind| == |s.parent|
  {
    forall t :: 0 < t < |s.a| && s.parent[t] == 0 && s.kind[t].Helper? ==> s.a[t].Gone?
  }

  /** `collect_child_pids` of the root task: the zombies among the children of zombies and helpers. */
  ghost predicate Collects(kind: seq<Kind>, parent: seq<nat>, foreign: seq<nat>)
    requires IsTree(kind, parent)
  {
    && (forall j :: 0 <= j < |foreign| ==>
          0 < foreign[j] < |kind| && kind[foreign[j]].Zombie? && Dying(kind[parent[foreign[j]]]))
    && (forall t :: 0 < t < |kind| && kind[t].Zombie? && Dying(kind[parent[t]]) ==> t in foreign)
  }

  predicate KidsBorn(s: State, i: nat, st: nat)
    requires |s.a| == |s.kind| == |s.parent|
  {
    forall t :: 0 < t < |s.a| && s.parent[t] == i && BirthStage(s.kind[t]) == st ==> !s.a[t].NotBorn?
  }

  ghost predicate Init(s: State) {
    && Tree(s) && !s.early && Collects(s.kind, s.parent, s.foreign) && s.z.NotYet?
    && s.nrTasks == Count(s.kind, Leader)
    && s.nrHelpers == Count(s.kind, Helper)
    && s.nrThreads == Count(s.kind, Thread)
    && (forall i :: 0 <= i < |s.a| ==> s.a[i].NotBorn?)
    && s.start == ROOT_TASK && s.k == SetNr(ROOT_TASK)
  }

  /** CRIU's next position after it published a stage. */
  function AfterPublish(s: State, st: nat): Criu {
    if st == ROOT_TASK then Fork
    else if st == FORKING then WaitZero(RESTORE)    // the one wait that spans three stages
    else if st == COMPLETE then Finished
    else WaitZero(st)
  }

  /** CRIU's next position after a wait for zero returned. */
  function AfterWait(st: nat): Criu {
    if st == RESTORE then DropZombies
    else if st == RESTORE_CREDS then Publish(COMPLETE)
    else SetNr(st + 1)
  }

  /** The root task itself switches these stages, with or without namespaces. */
  predicate RootSwitches(s: State, st: nat) {
    st == FORKING || st == PRE_RESTORER || (!s.ns && st < FORKING)
  }

  ghost predicate NextStep(s: State, s': State, step: Step) {
    |s.a| == |s.kind| == |s.parent| > 0 &&
    match step
    case CriuSetNr => s.k.SetNr? && s' == s.(nr := StageParticipants(s, s.k.st), k := Publish(s.k.st))
    case CriuPublish => s.k.Publish? && s' == s.(start := s.k.st, k := AfterPublish(s, s.k.st))
    case CriuFork => s.k.Fork?
      && s' == s.(a := s.a[0 := Working(ROOT_TASK)], k := WaitZero(if s.ns then ROOT_TASK else RESTORE))
    case CriuWait => s.k.WaitZero? && s.nr <= 0 && s' == s.(k := AfterWait(s.k.st))
    case CriuDropZombies =>
      s.k.DropZombies? && s' == s.(nrThreads := s.nrThreads - Count(s.kind, Zombie), k := SetNr(RESTORE_SIGCHLD))
    case RootSwitchNr =>
      && s.a[0].Working? && RootSwitches(s, s.a[0].st)
      && (s.a[0].st >= FORKING ==> s.nr <= 1)                          // restore_wait_other_tasks
      && s' == s.(nr := StageParticipants(s, s.a[0].st + 1), a := s.a[0 := Switching(s.a[0].st)])
    case RootSwitchStart =>
      s.a[0].Switching? && s' == s.(start := s.a[0].st + 1, a := s.a[0 := Working(s.a[0].st + 1)])
    case Born(i) =>
      && 0 < i < |s.a| && s.a[i].NotBorn? && s.parent[i] < |s.a|
      && s.a[s.parent[i]] == Working(BirthStage(s.kind[i]))
      && s' == s.(a := s.a[i := Working(BirthStage(s.kind[i]))])
    case FinishStage(i) =>
      && i < |s.a| && s.a[i].Working? && !(i == 0 && RootSwitches(s, s.a[0].st))
      && KidsBorn(s, i, s.a[i].st)
      && (s.a[i].st == RESTORE_SIGCHLD ==> DyingKidsGone(s, i))        // wait_helpers and wait_zombies
      && (s.a[i].st == RESTORE_SIGCHLD && i == 0 ==> s.z == Pick(|s.foreign|))
      && s' == s.(nr := s.nr - 1, a := s.a[i := Arrived(s.a[i].st)])
    case NextStage(i) =>
      && i < |s.a| && s.a[i].Arrived? && s.start != s.a[i].st && TakesPart(s.kind[i], s.a[i].st + 1)
      && s' == s.(a := s.a[i := Working(s.a[i].st + 1)])
    case Leave(i) =>
      // Zombies and helpers exit after RESTORE and after their own dying children, the others run on at the end.
      && i < |s.a| && s.a[i].Arrived? && !TakesPart(s.kind[i], s.a[i].st + 1)
      && (if Dying(s.kind[i]) && HasDyingKids(s, i) then DyingKidsGone(s, i) else s.start != s.a[i].st)
      && s' == s.(a := s.a[i := Gone])
    case FindDead(i) =>
      // wait_exiting_children: a child is dead although the stage is still RESTORE
      && i < |s.a| && Dying(s.kind[i]) && s.a[i] == Arrived(RESTORE) && s.start == RESTORE
      && (exists t :: 0 < t < |s.a| && s.parent[t] == i && Dying(s.kind[t]) && s.a[t].Gone?)
      && s' == s.(early := true)
    case HelpersGone => InSigchld(s) && s.z.NotYet? && HelperKidsGone(s) && s' == s.(z := Pick(0))
    case SampleNr => InSigchld(s) && s.z.Pick? && s.z.i < |s.foreign| && s' == s.(z := Try(s.z.i, s.nr))
    case TryZombie =>
      // waitid waits for a child; ECHILD when the zombie has not been reparented yet
      && InSigchld(s) && s.z.Try? && s.z.i < |s.foreign| && s.foreign[s.z.i] < |s.a|
      && s.parent[s.foreign[s.z.i]] < |s.a|
      && if s.a[s.parent[s.foreign[s.z.i]]].Gone? then s.a[s.foreign[s.z.i]].Gone? && s' == s.(z := Pick(s.z.i + 1))
         else s' == s.(z := Asleep(s.z.i, s.z.v))
    case RetryZombie => InSigchld(s) && s.z.Asleep? && s.nr != s.z.v && s' == s.(z := Pick(s.z.i))
  }

  /** The root task is in RESTORE_SIGCHLD. */
  predicate InSigchld(s: State)
    requires |s.a| > 0
  {
    s.a[0] == Working(RESTORE_SIGCHLD)
  }

  predicate Collects?(step: Step) { step.HelpersGone? || step.SampleNr? || step.TryZombie? || step.RetryZombie? }

  ghost predicate Next(s: State, s': State) { exists step :: NextStep(s, s', step) }

  ghost predicate IsRun(run: seq<State>) {
    && |run| > 0 && Init(run[0])
    && forall k :: 0 <= k < |run| - 1 ==> Next(run[k], run[k + 1])
  }

  /** Actor `i` has finished stage `st`. */
  ghost predicate HasFinished(pc: Pc, st: nat) {
    match pc
    case NotBorn => false
    case Working(x) => st < x
    case Switching(x) => st < x
    case Arrived(x) => st <= x
    case Gone => true
  }

  /** The participants of stage `st` that have not finished it. */
  ghost function Pending(s: State, st: nat): set<nat>
    requires |s.a| == |s.kind|
  {
    set i: nat | i < |s.kind| && TakesPart(s.kind[i], st) && !HasFinished(s.a[i], st)
  }

  /** Nobody has run ahead of the published stage, and a stage is only worked in by its participants. */
  ghost predicate ActorOk(s: State, i: nat)
    requires i < |s.a| == |s.kind|
  {
    match s.a[i]
    case NotBorn => true
    case Working(x) => x <= s.start && TakesPart(s.kind[i], x)
    case Arrived(x) => x <= s.start && TakesPart(s.kind[i], x) && !(i == 0 && RootSwitches(s, x))
    case Switching(x) => i == 0 && x == s.start && RootSwitches(s, x)
    case Gone => s.start > RESTORE && (TakesPart(s.kind[i], RESTORE_CREDS) ==> s.start == COMPLETE)
  }

  ghost predicate Static(s: State) {
    && Tree(s) && !s.early && Collects(s.kind, s.parent, s.foreign)
    && s.nrTasks == Count(s.kind, Leader)
    && s.nrHelpers == Count(s.kind, Helper)
  }

  /** CRIU has not forked the root task yet. */
  predicate Early(k: Criu) { k == SetNr(ROOT_TASK) || k == Publish(ROOT_TASK) || k == Fork }

  /** The zombies have been taken out of the thread count. */
  predicate Late(k: Criu) {
    match k
    case SetNr(st) => st >= RESTORE_SIGCHLD
    case Publish(st) => st >= RESTORE_SIGCHLD
    case WaitZero(st) => st >= RESTORE_SIGCHLD
    case Finished => true
    case _ => false
  }

  /** How CRIU's position fits the published stage. */
  ghost predicate CriuOk(s: State)
    requires |s.a| == |s.kind| > 0
  {
    && s.start <= COMPLETE
    && (Early(s.k) ==> s.start == ROOT_TASK && forall i :: 0 <= i < |s.a| ==> s.a[i].NotBorn?)
    && (!Early(s.k) ==> !s.a[0].NotBorn?)
    && (match s.k
        case SetNr(st) => st == 0 || (st in {1, 2, 5, 6} && s.start == st - 1 && s.nr == 0 && (st <= 2 ==> s.ns))
        case Publish(st) => (st == 0 && s.nr == 1)
          || (st in {1, 2, 5, 6, 7} && s.start == st - 1 && (st <= 2 ==> s.ns) && (st == 7 ==> s.nr == 0))
        case Fork => s.nr == 1
        case WaitZero(st) =>
          || (st in {0, 1} && s.ns && s.start == st)
          || (st == RESTORE && (if s.ns then FORKING else ROOT_TASK) <= s.start <= RESTORE)
          || (st in {5, 6} && s.start == st)
        case DropZombies => s.start == RESTORE && s.nr == 0
        case Finished => s.start == COMPLETE)
    && s.nrThreads == Count(s.kind, Thread) -
         (if Late(s.k) then Count(s.kind, Zombie) else 0)
  }

  ghost predicate Counted(s: State)
    requires |s.a| == |s.kind| > 0
  {
    if Early(s.k) then true
    else if s.a[0].Switching? then
      s.nr == |Participants(s.kind, s.start + 1)| && Pending(s, s.start) == {0}
    else if s.k.Publish? && s.k.st < COMPLETE then
      s.nr == |Participants(s.kind, s.start + 1)| && Pending(s, s.start) == {}
    else s.start < COMPLETE ==> s.nr == |Pending(s, s.start)|
  }

  ghost predicate Inv(s: State) {
    && Static(s)
    && (forall i :: 0 <= i < |s.a| ==> ActorOk(s, i))
    && CriuOk(s)
    && (forall st :: 0 <= st < s.start ==> Pending(s, st) == {})
    && Counted(s)
  }

  ghost predicate CountsMatch(s: State, st: nat) { StageParticipants(s, st) == |Participants(s.kind, st)| }

  lemma {:induction false} TaskCounts(kind: seq<Kind>, st: nat)
    requires FORKING <= st < RESTORE
    ensures |Participants(kind, st)| == Count(kind, Leader) + Count(kind, Helper)
  {
    var tasks, helpers := Of(kind, Leader), Of(kind, Helper);
    assert Participants(kind, st) == tasks + helpers;
    assert tasks !! helpers;
  }

  lemma {:induction false} ThreadCounts(kind: seq<Kind>)
    ensures |Participants(kind, RESTORE)| == Count(kind, Thread) + Count(kind, Helper)
  {
    var threads, helpers := Of(kind, Thread), Of(kind, Helper);
    assert Participants(kind, RESTORE) == threads + helpers;
    assert threads !! helpers;
  }

  lemma {:induction false} SurvivorCounts(kind: seq<Kind>, st: nat)
    requires RESTORE < st < COMPLETE
    ensures |Participants(kind, st)| == Count(kind, Thread) - Count(kind, Zombie)
  {
    var survivors, zombies := Participants(kind, st), Of(kind, Zombie);
    forall i: nat | i < |kind|
      ensures CountsAs(kind[i], Thread) <==> TakesPart(kind[i], st) || kind[i].Zombie?
    {
    }
    assert Of(kind, Thread) == survivors + zombies;
    assert survivors !! zombies;
  }

  /** The counts taken from the images are the sizes of the participant sets, also after the zombies are dropped. */
  lemma {:induction false} ParticipantCounts(s: State, st: nat)
    requires Static(s) && st < COMPLETE
    requires s.nrThreads == Count(s.kind, Thread) - (if st >= RESTORE_SIGCHLD then Count(s.kind, Zombie) else 0)
    ensures CountsMatch(s, st)
  {
    if st < FORKING {
      assert Participants(s.kind, st) == {0};
    } else if st < RESTORE {
      TaskCounts(s.kind, st);
    } else if st == RESTORE {
      ThreadCounts(s.kind);
    } else {
      SurvivorCounts(s.kind, st);
    }
  }

  lemma {:induction false} InitInv(s: State)
    requires Init(s)
    ensures Inv(s)
  {
  }

  /** An actor at work is at work in the published stage. */
  lemma {:induction false} WorksInStart(s: State, i: nat)
    requires Inv(s) && i < |s.a| && (s.a[i].Working? || s.a[i].Switching?)
    ensures s.a[i].st == s.start < COMPLETE && i in Pending(s, s.start)
  {
    assert ActorOk(s, i);
    assert i in Pending(s, s.a[i].st);
  }

  /** Nobody has finished a stage that is not published yet. */
  lemma {:induction false} NobodyAhead(s: State, i: nat)
    requires Inv(s) && i < |s.a| && s.start + 1 < COMPLETE && TakesPart(s.kind[i], s.start + 1)
    ensures !HasFinished(s.a[i], s.start + 1)
  {
    assert ActorOk(s, i);
  }

  lemma {:induction false} PendingSame(s: State, s': State, st: nat)
    requires |s.a| == |s.kind| == |s'.a| && s'.kind == s.kind
    requires forall i :: 0 <= i < |s.a| && TakesPart(s.kind[i], st) ==>
               HasFinished(s'.a[i], st) == HasFinished(s.a[i], st)
    ensures Pending(s', st) == Pending(s, st)
  {
  }

  lemma {:induction false} EarlyInv(s: State, s': State, step: Step)
    requires Inv(s) && NextStep(s, s', step) && Early(s.k) && (step.CriuSetNr? || step.CriuPublish? || step.CriuFork?)
    requires Static(s') && CriuOk(s')
    ensures Inv(s')
  {
    forall i | 0 <= i < |s'.a|
      ensures ActorOk(s', i)
    {
      assert ActorOk(s, i);
    }
    if step.CriuFork? {
      assert Pending(s', ROOT_TASK) == {0};
    }
  }

  lemma {:induction false} SetNrInv(s: State, s': State)
    requires Inv(s) && NextStep(s, s', CriuSetNr) && !Early(s.k)
    requires Static(s') && CriuOk(s')
    ensures Inv(s')
  {
    assert ActorOk(s, 0);
    assert !s.a[0].Switching?;
    assert Pending(s, s.start) == {};
    ParticipantCounts(s, s.k.st);
    forall i | 0 <= i < |s'.a|
      ensures ActorOk(s', i)
    {
      assert ActorOk(s, i);
    }
    forall st | 0 <= st <= s'.start
      ensures Pending(s', st) == Pending(s, st)
    {
    }
  }

  /** A stage is published with all its participants still to do it. */
  lemma {:induction false} AllPending(s: State, s': State)
    requires Inv(s) && s.start + 1 < COMPLETE && s'.start == s.start + 1 && s'.kind == s.kind && |s'.a| == |s.a|
    requires forall i :: 0 < i < |s.a| ==> s'.a[i] == s.a[i]
    requires s'.a[0] == s.a[0] || s'.a[0] == Working(s'.start)
    ensures Pending(s', s'.start) == Participants(s.kind, s'.start)
  {
    forall i: nat | i < |s.kind| && TakesPart(s.kind[i], s'.start)
      ensures !HasFinished(s'.a[i], s'.start)
    {
      NobodyAhead(s, i);
    }
  }

  /** CRIU switches a stage only after everybody has finished the one before. */
  lemma {:induction false} PublishAfterAll(s: State)
    requires Inv(s) && s.k.Publish? && !Early(s.k)
    ensures Pending(s, s.start) == {} && s.k.st == s.start + 1 && !s.a[0].Switching?
  {
    assert ActorOk(s, 0);
  }

  lemma {:induction false} PublishActor(s: State, s': State, i: nat)
    requires Inv(s) && NextStep(s, s', CriuPublish) && !Early(s.k) && i < |s.a|
    ensures ActorOk(s', i)
  {
    PublishAfterAll(s);
    assert ActorOk(s, i);
    if s.a[i].Working? {
      WorksInStart(s, i);
    }
  }

  lemma {:induction false} PublishInv(s: State, s': State)
    requires Inv(s) && NextStep(s, s', CriuPublish) && !Early(s.k)
    requires Static(s') && CriuOk(s')
    ensures Inv(s')
  {
    PublishAfterAll(s);
    forall i | 0 <= i < |s'.a|
      ensures ActorOk(s', i)
    {
      PublishActor(s, s', i);
    }
    PublishPending(s, s');
    PublishCounted(s, s');
  }

  lemma {:induction false} PublishPending(s: State, s': State)
    requires |s.a| == |s.kind| && s'.a == s.a && s'.kind == s.kind && s'.start == s.start + 1
    requires forall st :: 0 <= st <= s.start ==> Pending(s, st) == {}
    ensures forall st :: 0 <= st < s'.start ==> Pending(s', st) == {}
  {
    forall st | 0 <= st < s'.start
      ensures Pending(s', st) == {}
    {
      PendingSame(s, s', st);
    }
  }

  lemma {:induction false} PublishCounted(s: State, s': State)
    requires Inv(s) && NextStep(s, s', CriuPublish) && !Early(s.k)
    ensures Counted(s')
  {
    PublishAfterAll(s);
    if s'.start < COMPLETE {
      AllPending(s, s');
    }
  }

  lemma {:induction false} WaitInv(s: State, s': State)
    requires Inv(s) && NextStep(s, s', CriuWait)
    requires Static(s') && CriuOk(s')
    ensures Inv(s')
  {
    WaitedForAll(s);
    forall i | 0 <= i < |s'.a|
      ensures ActorOk(s', i)
    {
      assert ActorOk(s, i);
    }
    forall st | 0 <= st <= s'.start
      ensures Pending(s', st) == Pending(s, st)
    {
    }
  }

  /**
   * When a wait for zero lets CRIU pass, the stage it waits for is the published one and
   * all its participants are done.
   */
  lemma {:induction false} WaitedForAll(s: State)
    requires Inv(s) && s.k.WaitZero? && s.nr <= 0
    ensures s.start == s.k.st && !s.a[0].Switching? && Pending(s, s.start) == {} && s.nr == 0
  {
    assert ActorOk(s, 0);
    assert s.start < RESTORE ==> 0 in Participants(s.kind, s.start + 1);
    assert !s.a[0].Switching?;
    assert 0 in Pending(s, s.start) <==> !HasFinished(s.a[0], s.start);
    assert s.start == s.k.st || RootSwitches(s, s.start);
    assert Pending(s, s.start) == {};
  }

  lemma {:induction false} DropZombiesInv(s: State, s': State)
    requires Inv(s) && NextStep(s, s', CriuDropZombies)
    requires Static(s') && CriuOk(s')
    ensures Inv(s')
  {
    forall i | 0 <= i < |s'.a|
      ensures ActorOk(s', i)
    {
      assert ActorOk(s, i);
    }
    forall st | 0 <= st <= s'.start
      ensures Pending(s', st) == Pending(s, st)
    {
    }
  }

  /** When the root task begins a switch, nobody else is left at work. */
  lemma {:induction false} OnlyRootPending(s: State)
    requires Inv(s) && s.a[0].Working? && RootSwitches(s, s.a[0].st) && (s.a[0].st >= FORKING ==> s.nr <= 1)
    ensures Pending(s, s.start) == {0} && s.k == WaitZero(RESTORE) && s.start < RESTORE
  {
    WorksInStart(s, 0);
    if s.start >= FORKING {
      assert |Pending(s, s.start) - {0}| == 0;
      assert Pending(s, s.start) - {0} == {};
    }
  }

  lemma {:induction false} ActorSame(s: State, s': State, i: nat)
    requires |s.a| == |s.kind| == |s'.a| && i < |s.a| && ActorOk(s, i) && s'.a[i] == s.a[i]
    requires s'.start == s.start && s'.kind == s.kind && s'.ns == s.ns
    ensures ActorOk(s', i)
  {
  }

  lemma {:induction false} RootNrInv(s: State, s': State)
    requires Inv(s) && NextStep(s, s', RootSwitchNr)
    requires Static(s') && CriuOk(s')
    ensures Inv(s')
  {
    WorksInStart(s, 0);
    OnlyRootPending(s);
    ParticipantCounts(s, s.start + 1);
    forall i | 0 <= i < |s'.a|
      ensures ActorOk(s', i)
    {
      if i > 0 {
        ActorSame(s, s', i);
      }
    }
    RootNrPending(s, s');
  }

  lemma {:induction false} RootNrPending(s: State, s': State)
    requires |s.a| == |s.kind| == |s'.a| > 0 && s'.kind == s.kind && s.a[0] == Working(s.start)
    requires s'.a == s.a[0 := Switching(s.start)]
    ensures forall st :: 0 <= st <= s.start ==> Pending(s', st) == Pending(s, st)
  {
    forall st | 0 <= st <= s.start
      ensures Pending(s', st) == Pending(s, st)
    {
      PendingSame(s, s', st);
    }
  }

  lemma {:induction false} RootIsSwitching(s: State)
    requires Inv(s) && s.a[0].Switching?
    ensures s.a[0].st == s.start < RESTORE && RootSwitches(s, s.start) && s.k == WaitZero(RESTORE)
    ensures Pending(s, s.start) == {0} && s.nr == |Participants(s.kind, s.start + 1)|
  {
    assert ActorOk(s, 0);
  }

  lemma {:induction false} RootStartActor(s: State, s': State, i: nat)
    requires Inv(s) && NextStep(s, s', RootSwitchStart) && i < |s.a|
    ensures ActorOk(s', i)
  {
    RootIsSwitching(s);
    assert ActorOk(s, i);
  }

  lemma {:induction false} RootStartInv(s: State, s': State)
    requires Inv(s) && NextStep(s, s', RootSwitchStart)
    requires Static(s') && CriuOk(s')
    ensures Inv(s')
  {
    RootIsSwitching(s);
    forall i | 0 <= i < |s'.a|
      ensures ActorOk(s', i)
    {
      RootStartActor(s, s', i);
    }
    RootStartPending(s, s');
  }

  lemma {:induction false} RootStartPending(s: State, s': State)
    requires Inv(s) && NextStep(s, s', RootSwitchStart)
    ensures forall st :: 0 <= st < s'.start ==> Pending(s', st) == {}
    ensures Pending(s', s'.start) == Participants(s.kind, s'.start)
  {
    RootIsSwitching(s);
    forall st | 0 <= st < s'.start
      ensures Pending(s', st) == {}
    {
      assert st < s.start ==> Pending(s, st) == {};
      RootMoved(s, s', st);
    }
    AllPending(s, s');
  }

  /** The root task moved on to the next stage: it was the only one still pending in an earlier one. */
  lemma {:induction false} RootMoved(s: State, s': State, st: nat)
    requires |s.a| == |s.kind| > 0 && st <= s.start && Pending(s, st) <= {0}
    requires s'.kind == s.kind && s'.a == s.a[0 := Working(s.start + 1)]
    ensures Pending(s', st) == {}
  {
    forall i: nat | i < |s.kind| && TakesPart(s.kind[i], st)
      ensures HasFinished(s'.a[i], st)
    {
      assert i != 0 ==> i !in Pending(s, st);
    }
  }

  lemma {:induction false} FinishInv(s: State, s': State, i: nat)
    requires Inv(s) && NextStep(s, s', FinishStage(i))
    requires Static(s') && CriuOk(s')
    ensures Inv(s')
  {
    NotSwitching(s, i);
    forall r | 0 <= r < |s'.a|
      ensures ActorOk(s', r)
    {
      assert ActorOk(s, r);
    }
    FinishPending(s, s', i);
  }

  /** While anybody but the root task is at work, or it is in a stage of CRIU's, the stage is not being switched. */
  lemma {:induction false} NotSwitching(s: State, i: nat)
    requires Inv(s) && i < |s.a| && s.a[i].Working? && !(i == 0 && RootSwitches(s, s.a[0].st))
    ensures s.a[i].st == s.start < COMPLETE && !Early(s.k) && !s.a[0].Switching? && !s.k.Publish?
    ensures s.nr == |Pending(s, s.start)| && i in Pending(s, s.start)
  {
    WorksInStart(s, i);
    assert ActorOk(s, i);
  }

  lemma {:induction false} FinishPending(s: State, s': State, i: nat)
    requires |s.a| == |s.kind| && i in Pending(s, s.start) && s' == s.(nr := s.nr - 1, a := s.a[i := Arrived(s.start)])
    requires forall st :: 0 <= st < s.start ==> Pending(s, st) == {}
    ensures forall st :: 0 <= st < s.start ==> Pending(s', st) == {}
    ensures Pending(s', s.start) == Pending(s, s.start) - {i}
  {
    forall st | 0 <= st < s.start
      ensures Pending(s', st) == {}
    {
      assert Pending(s', st) <= Pending(s, st);
    }
  }

  /** An actor's move that finishes nothing. */
  lemma {:induction false} MoveInv(s: State, s': State, i: nat)
    requires Inv(s) && i < |s.a| == |s'.a| && s' == s.(a := s.a[i := s'.a[i]])
    requires !Early(s.k) && !s.a[i].Switching? && !s'.a[i].Switching? && !s'.a[i].NotBorn? && ActorOk(s', i)
    requires forall st :: 0 <= st <= COMPLETE && TakesPart(s.kind[i], st) ==>
               HasFinished(s'.a[i], st) == HasFinished(s.a[i], st)
    requires Static(s') && CriuOk(s')
    ensures Inv(s')
  {
    forall r | 0 <= r < |s'.a|
      ensures ActorOk(s', r)
    {
      if r != i {
        ActorSame(s, s', r);
      }
    }
    MovePending(s, s', i);
    CountedSame(s, s');
  }

  lemma {:induction false} CountedSame(s: State, s': State)
    requires |s.a| == |s.kind| == |s'.a| > 0 && Counted(s) && s' == s.(a := s'.a, z := s'.z)
    requires s'.a[0].Switching? == s.a[0].Switching? && Pending(s', s.start) == Pending(s, s.start)
    ensures Counted(s')
  {
  }

  lemma {:induction false} MovePending(s: State, s': State, i: nat)
    requires |s.a| == |s.kind| && i < |s.a| == |s'.a| && s' == s.(a := s.a[i := s'.a[i]]) && s.start <= COMPLETE
    requires forall st :: 0 <= st <= COMPLETE && TakesPart(s.kind[i], st) ==>
               HasFinished(s'.a[i], st) == HasFinished(s.a[i], st)
    ensures forall st :: 0 <= st <= s.start ==> Pending(s', st) == Pending(s, st)
  {
    forall st | 0 <= st <= s.start
      ensures Pending(s', st) == Pending(s, st)
    {
      PendingSame(s, s', st);
    }
  }

  lemma {:induction false} BornInv(s: State, s': State, i: nat)
    requires Inv(s) && NextStep(s, s', Born(i)) && Static(s') && CriuOk(s')
    ensures Inv(s')
  {
    BornStage(s, i, s');
    MoveInv(s, s', i);
  }

  lemma {:induction false} NextStageInv(s: State, s': State, i: nat)
    requires Inv(s) && NextStep(s, s', NextStage(i)) && Static(s') && CriuOk(s')
    ensures Inv(s')
  {
    assert ActorOk(s, i) && ActorOk(s', i);
    MoveInv(s, s', i);
  }

  lemma {:induction false} LeaveInv(s: State, s': State, i: nat)
    requires Inv(s) && NextStep(s, s', Leave(i)) && Static(s') && CriuOk(s')
    ensures Inv(s')
  {
    assert ActorOk(s, i);
    if Dying(s.kind[i]) && HasDyingKids(s, i) {
      var t :| 0 < t < |s.a| && s.parent[t] == i && Dying(s.kind[t]);
      assert ActorOk(s, t);
    }
    assert ActorOk(s', i);
    MoveInv(s, s', i);
  }

  /** Nobody is gone while RESTORE is published, so no parent finds a child dead too early. */
  lemma {:induction false} NobodyFoundDead(s: State, i: nat)
    requires Inv(s) && s.start <= RESTORE && i < |s.a|
    ensures !s.a[i].Gone?
  {
    assert ActorOk(s, i);
  }

  lemma {:induction false} BornStage(s: State, i: nat, s': State)
    requires Inv(s) && NextStep(s, s', Born(i))
    ensures !Early(s.k) && s'.a[i].Working? && s'.a[i].st == s.start && TakesPart(s.kind[i], s.start)
    ensures forall st :: 0 <= st < s'.a[i].st ==> !TakesPart(s.kind[i], st)
  {
    WorksInStart(s, s.parent[i]);
    assert s.start < COMPLETE;
  }

  /** CRIU's own position and what never changes, by the side of CRIU and by that of the actors. */
  lemma {:induction false} CriuKept(s: State, s': State, step: Step)
    requires Inv(s) && NextStep(s, s', step)
    requires IsCrius(step)
    ensures Static(s') && CriuOk(s')
  {
    if step.CriuWait? {
      WaitedForAll(s);
    }
    assert ActorOk(s, 0);
  }

  lemma {:induction false} RootUntouched(s: State, s': State, step: Step)
    requires Inv(s) && NextStep(s, s', step) && (step.RootSwitchNr? || step.RootSwitchStart?)
    ensures Static(s') && CriuOk(s')
  {
    if step.RootSwitchNr? {
      WorksInStart(s, 0);
      OnlyRootPending(s);
    } else {
      RootIsSwitching(s);
    }
  }

  lemma {:induction false} CriuUntouched(s: State, s': State, step: Step)
    requires Inv(s) && NextStep(s, s', step)
    requires !IsCrius(step) && !Collects?(step)
    ensures Static(s') && CriuOk(s')
  {
    match step
    case RootSwitchNr => RootUntouched(s, s', step);
    case RootSwitchStart => RootUntouched(s, s', step);
    case FinishStage(i) =>
      NotSwitching(s, i);
      CriuStill(s, s', i);
    case Born(i) => CriuStill(s, s', s.parent[i]);
    case NextStage(i) => CriuStill(s, s', i);
    case Leave(i) => CriuStill(s, s', i);
    case FindDead(i) =>
      var t :| 0 < t < |s.a| && s.a[t].Gone?;
      NobodyFoundDead(s, t);
    case _ =>
  }

  /** Somebody, who is there already, moves. */
  lemma {:induction false} CriuStill(s: State, s': State, i: nat)
    requires |s.a| == |s.kind| > 0 && Static(s) && CriuOk(s) && i < |s.a| && !s.a[i].NotBorn?
    requires s' == s.(nr := s'.nr, a := s'.a, z := s'.z) && |s'.a| == |s.a| && (!s.a[0].NotBorn? ==> !s'.a[0].NotBorn?)
    requires s'.nr != s.nr ==> s.nr > 0 && !s.k.Publish? && s.start < COMPLETE
    ensures Static(s') && CriuOk(s')
  {
    assert !Early(s.k);
  }

  predicate IsCrius(step: Step) {
    step.CriuSetNr? || step.CriuPublish? || step.CriuFork? || step.CriuWait? || step.CriuDropZombies?
  }

  lemma {:induction false} CriuNextInv(s: State, s': State, step: Step)
    requires Inv(s) && NextStep(s, s', step) && IsCrius(step)
    ensures Inv(s')
  {
    CriuKept(s, s', step);
    match step
    case CriuSetNr => if Early(s.k) { EarlyInv(s, s', step); } else { SetNrInv(s, s'); }
    case CriuPublish => if Early(s.k) { EarlyInv(s, s', step); } else { PublishInv(s, s'); }
    case CriuFork => EarlyInv(s, s', step);
    case CriuWait => WaitInv(s, s');
    case CriuDropZombies => DropZombiesInv(s, s');
  }

  lemma {:induction false} ActorNextInv(s: State, s': State, step: Step)
    requires Inv(s) && NextStep(s, s', step) && !IsCrius(step)
    ensures Inv(s')
  {
    if Collects?(step) {
      CriuStill(s, s', 0);
      CollectInv(s, s', step);
    } else {
      MoverInv(s, s', step);
    }
  }

  lemma {:induction false} MoverInv(s: State, s': State, step: Step)
    requires Inv(s) && NextStep(s, s', step) && !IsCrius(step) && !Collects?(step)
    ensures Inv(s')
  {
    CriuUntouched(s, s', step);
    match step
    case RootSwitchNr => RootNrInv(s, s');
    case RootSwitchStart => RootStartInv(s, s');
    case FinishStage(i) => FinishInv(s, s', i);
    case Born(i) => BornInv(s, s', i);
    case NextStage(i) => NextStageInv(s, s', i);
    case Leave(i) => LeaveInv(s, s', i);
    case _ =>
  }

  /** Collecting zombies changes nothing for anybody else. */
  lemma {:induction false} CollectInv(s: State, s': State, step: Step)
    requires Inv(s) && NextStep(s, s', step) && Collects?(step)
    requires Static(s') && CriuOk(s')
    ensures Inv(s')
  {
    assert s' == s.(z := s'.z);
    forall i | 0 <= i < |s'.a|
      ensures ActorOk(s', i)
    {
      assert ActorOk(s, i);
      ActorSame(s, s', i);
    }
    forall st | 0 <= st <= s'.start
      ensures Pending(s', st) == Pending(s, st)
    {
      PendingSame(s, s', st);
    }
    CountedSame(s, s');
  }

  lemma {:induction false} NextInv(s: State, s': State, step: Step)
    requires Inv(s) && NextStep(s, s', step)
    ensures Inv(s')
  {
    if IsCrius(step) {
      CriuNextInv(s, s', step);
    } else {
      ActorNextInv(s, s', step);
    }
  }

  /** A task finishes a stage only after it has created those who are to be created in it. */
  ghost predicate BornInTime(s: State, t: nat)
    requires Tree(s) && 0 < t < |s.a|
  {
    HasFinished(s.a[s.parent[t]], BirthStage(s.kind[t])) ==> !s.a[t].NotBorn?
  }

  ghost predicate AllBornInTime(s: State)
    requires Tree(s)
  {
    forall t :: 0 < t < |s.a| ==> BornInTime(s, t)
  }

  /** How an actor comes to have finished a stage that it takes part in. */
  lemma {:induction false} FinishCause(s: State, s': State, step: Step, p: nat, st: nat)
    requires Inv(s) && NextStep(s, s', step) && p < |s.a| == |s'.a| && TakesPart(s.kind[p], st)
    requires !HasFinished(s.a[p], st) && HasFinished(s'.a[p], st)
    ensures || (step == FinishStage(p) && s.a[p] == Working(st))
            || (step.RootSwitchStart? && p == 0 && s.a[0] == Switching(st))
  {
    assert ActorOk(s, p);
  }

  lemma {:induction false} StaysBorn(s: State, s': State, step: Step, t: nat)
    requires NextStep(s, s', step) && t < |s.a| == |s'.a| && !s.a[t].NotBorn?
    ensures !s'.a[t].NotBorn?
  {
  }

  lemma {:induction false} SwitchedWithAllBorn(s: State, t: nat)
    requires Inv(s) && s.a[0].Switching? && 0 < t < |s.a| && TakesPart(s.kind[t], s.a[0].st)
    ensures !s.a[t].NotBorn?
  {
    assert ActorOk(s, 0);
    assert t !in Pending(s, s.start);
  }

  lemma {:induction false} BornInTimeKept(s: State, s': State, step: Step, t: nat)
    requires Inv(s) && NextStep(s, s', step) && Tree(s') && s'.kind == s.kind && s'.parent == s.parent
    requires 0 < t < |s.a| == |s'.a| && BornInTime(s, t)
    ensures BornInTime(s', t)
  {
    var p, st := s.parent[t], BirthStage(s.kind[t]);
    if !s.a[t].NotBorn? {
      StaysBorn(s, s', step, t);
    } else if HasFinished(s'.a[p], st) {
      FinishCause(s, s', step, p, st);
      if step.RootSwitchStart? {
        SwitchedWithAllBorn(s, t);
      }
    }
  }

  lemma {:induction false} AllBornInTimeKept(s: State, s': State, step: Step)
    requires Inv(s) && AllBornInTime(s) && NextStep(s, s', step) && Tree(s')
    requires s'.kind == s.kind && s'.parent == s.parent
    ensures AllBornInTime(s')
  {
    forall t | 0 < t < |s'.a|
      ensures BornInTime(s', t)
    {
      BornInTimeKept(s, s', step, t);
    }
  }

  lemma {:induction false} SameTree(s: State, s': State, step: Step)
    requires NextStep(s, s', step)
    ensures s'.kind == s.kind && s'.parent == s.parent && s'.foreign == s.foreign && |s'.a| == |s.a|
  {
  }

  lemma {:induction false} RunInv(run: seq<State>, k: nat)
    requires IsRun(run) && k < |run|
    ensures Inv(run[k]) && AllBornInTime(run[k])
  {
    if k == 0 {
      InitInv(run[0]);
    } else {
      RunInv(run, k - 1);
      assert Next(run[k - 1], run[k - 1 + 1]);
      var step :| NextStep(run[k - 1], run[k], step);
      NextInv(run[k - 1], run[k], step);
      SameTree(run[k - 1], run[k], step);
      AllBornInTimeKept(run[k - 1], run[k], step);
    }
  }

  /** CRIU is past the wait that it started when it (or the root task) published FORKING. */
  predicate PastSingleWait(k: Criu) { k.DropZombies? || Late(k) }

  /**
   * CRIU's single wait for zero after forking cannot return early: once CRIU is past it, every thread,
   * zombie and helper has finished RESTORE. Until then, and before RESTORE is published, the count
   * never drops below one.
   */
  lemma {:induction false} SingleWaitCoversRestore(run: seq<State>, k: nat)
    requires IsRun(run) && k < |run|
    ensures |run[k].a| == |run[k].kind|
    ensures PastSingleWait(run[k].k) ==>
              forall i :: 0 <= i < |run[k].kind| && TakesPart(run[k].kind[i], RESTORE) ==>
                  HasFinished(run[k].a[i], RESTORE)
    ensures run[k].k == WaitZero(RESTORE) && run[k].start < RESTORE ==> run[k].nr >= 1
  {
    RunInv(run, k);
    var s := run[k];
    if PastSingleWait(s.k) {
      assert ActorOk(s, 0);
      assert Pending(s, RESTORE) == {};
      forall i | 0 <= i < |s.kind| && TakesPart(s.kind[i], RESTORE)
        ensures HasFinished(s.a[i], RESTORE)
      {
        assert i !in Pending(s, RESTORE);
      }
    } else if s.k == WaitZero(RESTORE) && s.start < RESTORE && s.nr <= 0 {
      WaitedForAll(s);
    }
  }

  /**
   * Every stage is a barrier: nobody works in a stage before all participants of every
   * earlier stage have finished it.
   */
  lemma {:induction false} StagesAreBarriers(run: seq<State>, k: nat, i: nat, j: nat, st: nat)
    requires IsRun(run) && k < |run| && i < |run[k].a| == |run[k].kind| && j < |run[k].a|
    requires run[k].a[i].Working? && st < run[k].a[i].st && TakesPart(run[k].kind[j], st)
    ensures HasFinished(run[k].a[j], st)
  {
    RunInv(run, k);
    WorksInStart(run[k], i);
    assert j !in Pending(run[k], st);
  }

  /**
   * No zombie or helper dies before RESTORE is over, nobody at all is gone before, and so no parent that
   * waits for its dying children finds one dead too early.
   */
  lemma {:induction false} NobodyDiesEarly(run: seq<State>, k: nat, i: nat)
    requires IsRun(run) && k < |run| && i < |run[k].a|
    ensures !run[k].early && (run[k].a[i].Gone? ==> run[k].start > RESTORE)
  {
    RunInv(run, k);
    assert ActorOk(run[k], i);
  }

  /** A task reports RESTORE_SIGCHLD finished only when all its zombies and helpers are dead. */
  lemma {:induction false} ChildrenDeadInTime(run: seq<State>, k: nat, i: nat, t: nat)
    requires IsRun(run) && k < |run| && Tree(run[k]) && i < |run[k].a| && 0 < t < |run[k].a|
    requires run[k].parent[t] == i && Dying(run[k].kind[t]) && TakesPart(run[k].kind[i], RESTORE_SIGCHLD)
    ensures HasFinished(run[k].a[i], RESTORE_SIGCHLD) ==> run[k].a[t].Gone?
  {
    RunDead(run, k);
    assert DeadInTime(run[k], t);
  }

  ghost predicate DeadInTime(s: State, t: nat)
    requires Tree(s) && 0 < t < |s.a|
  {
    Dying(s.kind[t]) && TakesPart(s.kind[s.parent[t]], RESTORE_SIGCHLD) ==>
      HasFinished(s.a[s.parent[t]], RESTORE_SIGCHLD) ==> s.a[t].Gone?
  }

  lemma {:induction false} StaysGone(s: State, s': State, step: Step, t: nat)
    requires NextStep(s, s', step) && 0 < t < |s.a| == |s'.a| && s.a[t].Gone?
    ensures s'.a[t].Gone?
  {
  }

  lemma {:induction false} DeadInTimeKept(s: State, s': State, step: Step, t: nat)
    requires Inv(s) && NextStep(s, s', step) && Tree(s') && s'.kind == s.kind && s'.parent == s.parent
    requires 0 < t < |s.a| == |s'.a| && DeadInTime(s, t)
    ensures DeadInTime(s', t)
  {
    var p := s.parent[t];
    assert ActorOk(s, 0);
    if s.a[t].Gone? {
      StaysGone(s, s', step, t);
    } else if Dying(s.kind[t]) && TakesPart(s.kind[p], RESTORE_SIGCHLD) && HasFinished(s'.a[p], RESTORE_SIGCHLD) {
      FinishCause(s, s', step, p, RESTORE_SIGCHLD);
    }
  }

  ghost predicate AllDeadInTime(s: State)
    requires Tree(s)
  {
    forall t :: 0 < t < |s.a| ==> DeadInTime(s, t)
  }

  lemma {:induction false} AllDeadInTimeKept(s: State, s': State, step: Step)
    requires Inv(s) && AllDeadInTime(s) && NextStep(s, s', step) && Tree(s')
    requires s'.kind == s.kind && s'.parent == s.parent
    ensures AllDeadInTime(s')
  {
    forall t | 0 < t < |s'.a|
      ensures DeadInTime(s', t)
    {
      DeadInTimeKept(s, s', step, t);
    }
  }

  lemma {:induction false} RunDead(run: seq<State>, k: nat)
    requires IsRun(run) && k < |run|
    ensures Inv(run[k]) && AllDeadInTime(run[k])
  {
    RunInv(run, k);
    if k > 0 {
      RunDead(run, k - 1);
      assert Next(run[k - 1], run[k - 1 + 1]);
      var step :| NextStep(run[k - 1], run[k], step);
      SameTree(run[k - 1], run[k], step);
      AllDeadInTimeKept(run[k - 1], run[k], step);
    }
  }

  /** The two switches that the root task makes without waking anybody have nobody to wake. */
  lemma {:induction false} SilentSwitchesWakeNobody(run: seq<State>, k: nat, i: nat)
    requires IsRun(run) && k < |run| && i < |run[k].a|
    requires run[k].a[0].Switching? && run[k].a[0].st < FORKING
    ensures !run[k].a[i].Arrived?
  {
    RunInv(run, k);
    WorksInStart(run[k], 0);
    assert ActorOk(run[k], 0);
    assert ActorOk(run[k], i);
  }
}
