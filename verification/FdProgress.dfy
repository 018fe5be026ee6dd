/**
 * Every step of the distribution of descriptors but a timeout leaves less to do: messages, events and
 * progress each pay for the sweeps that they cause. So a run ends after a bounded number of steps, and if
 * the waits have no cycle it ends with everybody through.
 */
module FdProgress {
  import opened Common
  import opened FdDistribution

  /** A sweep costs one for each entry, and a little for its start and its end. */
  function Sweep(c: Config): nat { |c.task| + 5 }

  /** An act can make another task wake up and sweep. */
  function ActCost(c: Config): nat { Sweep(c) + 5 }

  /** What the phases from `p` on cost. */
  function PhasesCost(c: Config, m: nat, p: nat): nat
    requires m < |c.phases|
    decreases |c.phases[m]| - p
  {
    if p >= |c.phases[m]| then 0 else |Acts(c, m, p)| * ActCost(c) + Sweep(c) + 1 + PhasesCost(c, m, p + 1)
  }

  /** What an entry is still going to cost: the phases that have not begun, and its completion. */
  function EntryCost(c: Config, s: State, f: nat): nat
    requires f < |c.phases| == |s.at| == |s.restored|
  {
    PhasesCost(c, f, s.at[f]) + if s.restored[f] then 0 else Sweep(c)
  }

  /** What a task is still going to do in this sweep; progress pays for the next one. */
  function SweepCost(c: Config, k: Task): nat { |k.todo| + 3 + if k.progress then Sweep(c) else 0 }

  /** The acts that are left of the phase that a task is in. */
  function ActsLeft(c: Config, s: State, k: Task): nat
    requires Acts?(k.pc)
  {
    if && k.todo != [] && k.todo[0] < |s.at| && s.at[k.todo[0]] > 0 && HasPhase(c, k.todo[0], s.at[k.todo[0]] - 1)
       && k.pc.pos <= |Acts(c, k.todo[0], s.at[k.todo[0]] - 1)|
    then |Acts(c, k.todo[0], s.at[k.todo[0]] - 1)| - k.pc.pos
    else 0
  }

  function ActsCost(c: Config, s: State, k: Task): nat
    requires Acts?(k.pc)
  {
    ActsLeft(c, s, k) * ActCost(c)
  }

  function PcCost(c: Config, s: State, k: Task): nat {
    match k.pc
    case PassStart => |c.task| + 4
    case Visit => SweepCost(c, k)
    case Acting(_) => SweepCost(c, k) + Sweep(c) + ActsCost(c, s, k)
    case SetBit(_, _) => SweepCost(c, k) + Sweep(c) + ActsCost(c, s, k) + Sweep(c) + 3
    case Waking(_, _) => SweepCost(c, k) + Sweep(c) + ActsCost(c, s, k) + 2
    case Wait => 1
    case _ => 0
  }

  /** What a task costs, with its queued messages; its event bit pays for the sweep that it causes. */
  function TaskCost(c: Config, s: State, t: nat): nat
    requires t < |s.tasks| == |s.queue| == |s.bit|
  {
    PcCost(c, s, s.tasks[t]) + |s.queue[t]| + if s.bit[t] then Sweep(c) else 0
  }

  ghost function TaskCosts(c: Config, s: State): seq<nat>
    requires Shape(c, s)
  {
    seq(|s.tasks|, t requires 0 <= t < |s.tasks| => TaskCost(c, s, t))
  }

  ghost function EntryCosts(c: Config, s: State): seq<nat>
    requires Shape(c, s)
  {
    seq(|c.task|, f requires 0 <= f < |c.task| => EntryCost(c, s, f))
  }

  ghost function Work(c: Config, s: State): nat
    requires Shape(c, s)
  {
    Sum(TaskCosts(c, s)) + Sum(EntryCosts(c, s))
  }

  function Elems(a: seq<nat>): set<nat> {
    if a == [] then {} else Elems(a[..|a| - 1]) + {a[|a| - 1]}
  }

  lemma {:induction false} ElemsSize(a: seq<nat>)
    ensures forall x :: x in Elems(a) <==> x in a
    ensures Distinct(a) ==> |Elems(a)| == |a|
  {
    if a != [] {
      var front, last := a[..|a| - 1], a[|a| - 1];
      ElemsSize(front);
      assert a == front + [last];
      assert Distinct(a) ==> last !in front;
    }
  }

  /** Distinct numbers below `n` are at most `n` many. */
  lemma {:induction false} DistinctBelow(a: seq<nat>, n: nat)
    requires Distinct(a) && forall x :: x in a ==> x < n
    ensures |a| <= n
  {
    ElemsSize(a);
    IndicesSize(n, Elems(a));
  }

  lemma {:induction false} SameCost(c: Config, s: State, s': State, u: nat)
    requires Shape(c, s) && Shape(c, s') && u < |s.tasks| && s'.at == s.at
    requires s'.tasks[u] == s.tasks[u] && s'.queue[u] == s.queue[u] && s'.bit[u] == s.bit[u]
    ensures TaskCost(c, s', u) == TaskCost(c, s, u)
  {
  }

  ghost predicate Untouched(s: State, s': State, u: nat)
    requires u < |s.tasks| == |s.queue| == |s.bit| && |s'.tasks| == |s'.queue| == |s'.bit| == |s.tasks|
  {
    s'.tasks[u] == s.tasks[u] && s'.queue[u] == s.queue[u] && s'.bit[u] == s.bit[u]
  }

  /** Only task `t` has moved. */
  lemma {:induction false} OneTask(c: Config, s: State, s': State, t: nat)
    requires Shape(c, s) && Shape(c, s') && t < |s.tasks| && s'.at == s.at && s'.restored == s.restored
    requires forall u :: 0 <= u < |s.tasks| && u != t ==> Untouched(s, s', u)
    requires TaskCost(c, s', t) < TaskCost(c, s, t)
    ensures Work(c, s') < Work(c, s)
  {
    TasksMoved(c, s, s', t, t);
    SumOne(TaskCosts(c, s), TaskCosts(c, s'), t);
  }

  lemma {:induction false} TwoTasks(c: Config, s: State, s': State, t: nat, u: nat)
    requires Shape(c, s) && Shape(c, s') && t < |s.tasks| && u < |s.tasks| && u != t
    requires s'.at == s.at && s'.restored == s.restored
    requires forall v :: 0 <= v < |s.tasks| && v != t && v != u ==> Untouched(s, s', v)
    requires TaskCost(c, s', t) + TaskCost(c, s', u) < TaskCost(c, s, t) + TaskCost(c, s, u)
    ensures Work(c, s') < Work(c, s)
  {
    TasksMoved(c, s, s', t, u);
    SumTwo(TaskCosts(c, s), TaskCosts(c, s'), t, u);
  }

  lemma {:induction false} TasksMoved(c: Config, s: State, s': State, t: nat, u: nat)
    requires Shape(c, s) && Shape(c, s') && t < |s.tasks| && u < |s.tasks|
    requires s'.at == s.at && s'.restored == s.restored
    requires forall v :: 0 <= v < |s.tasks| && v != t && v != u ==> Untouched(s, s', v)
    ensures forall v :: 0 <= v < |s.tasks| && v != t && v != u ==> TaskCosts(c, s')[v] == TaskCosts(c, s)[v]
    ensures EntryCosts(c, s') == EntryCosts(c, s)
  {
    forall v | 0 <= v < |s.tasks| && v != t && v != u
      ensures TaskCosts(c, s')[v] == TaskCosts(c, s)[v]
    {
      assert Untouched(s, s', v);
      SameCost(c, s, s', v);
    }
  }

  /** Task `t` and its entry `f` have moved. */
  lemma {:induction false} TaskAndEntry(c: Config, s: State, s': State, t: nat, f: nat)
    requires Shape(c, s) && Shape(c, s') && t < |s.tasks| && f < |c.task|
    requires forall u :: 0 <= u < |s.tasks| && u != t ==> TaskCost(c, s', u) == TaskCost(c, s, u)
    requires forall g :: 0 <= g < |c.task| && g != f ==> s'.at[g] == s.at[g] && s'.restored[g] == s.restored[g]
    requires TaskCost(c, s', t) + EntryCost(c, s', f) < TaskCost(c, s, t) + EntryCost(c, s, f)
    ensures Work(c, s') < Work(c, s)
  {
    SumOne(TaskCosts(c, s), TaskCosts(c, s'), t);
    SumOne(EntryCosts(c, s), EntryCosts(c, s'), f);
  }

  /** The cost of a task other than `t` does not depend on what `t` does to its own entries. */
  lemma {:induction false} OtherCost(c: Config, s: State, s': State, t: nat, u: nat)
    requires Inv(c, s) && Shape(c, s') && t < |s.tasks| && u < |s.tasks| && u != t
    requires s'.tasks[u] == s.tasks[u] && s'.queue[u] == s.queue[u] && s'.bit[u] == s.bit[u]
    requires forall f :: 0 <= f < |c.task| && c.task[f] != t ==> s'.at[f] == s.at[f]
    ensures TaskCost(c, s', u) == TaskCost(c, s, u)
  {
    assert ListOk(c, s, u);
  }

  // ---- The steps ----

  lemma {:induction false} StartPassWork(c: Config, s: State, s': State, t: nat)
    requires Inv(c, s) && NextStep(c, s, s', StartPass(t))
    ensures Work(c, s') < Work(c, s)
  {
    assert ListOk(c, s, t);
    var kept := s.tasks[t].kept;
    assert s.tasks[t].todo + kept == kept;
    DistinctBelow(kept, |c.task|);
    OneTask(c, s, s', t);
  }

  lemma {:induction false} WaitingWork(c: Config, s: State, s': State, t: nat)
    requires Inv(c, s) && NextStep(c, s, s', TestEvent(t))
    ensures Work(c, s') < Work(c, s)
  {
    OneTask(c, s, s', t);
  }

  lemma {:induction false} TimeOutWork(c: Config, s: State, s': State, t: nat)
    requires Inv(c, s) && NextStep(c, s, s', TimeOut(t))
    ensures Work(c, s') <= Work(c, s) + 1
  {
    TasksMoved(c, s, s', t, t);
    SumOne(TaskCosts(c, s), TaskCosts(c, s'), t);
  }

  lemma {:induction false} EndPassWork(c: Config, s: State, t: nat)
    requires Inv(c, s) && t < |s.tasks| && s.tasks[t].pc.Visit? && s.tasks[t].todo == []
    ensures Shape(c, EndPass(s, t)) && Work(c, EndPass(s, t)) < Work(c, s)
  {
    OneTask(c, s, EndPass(s, t), t);
  }

  lemma {:induction false} CompleteWork(c: Config, s: State, t: nat, f: nat)
    requires Inv(c, s) && t < |s.tasks| && (s.tasks[t].pc.Visit? || s.tasks[t].pc.Acting?)
    requires s.tasks[t].todo != [] && s.tasks[t].todo[0] == f && f < |c.task|
    ensures Shape(c, Complete(s, t, f)) && Work(c, Complete(s, t, f)) < Work(c, s)
  {
    HeadOk(c, s, t);
    forall u | 0 <= u < |s.tasks| && u != t
      ensures TaskCost(c, Complete(s, t, f), u) == TaskCost(c, s, u)
    {
      SameCost(c, s, Complete(s, t, f), u);
    }
    TaskAndEntry(c, s, Complete(s, t, f), t, f);
  }

  lemma {:induction false} KeepWork(c: Config, s: State, t: nat, f: nat, progress: bool)
    requires Inv(c, s) && t < |s.tasks| && (s.tasks[t].pc.Visit? || s.tasks[t].pc.Acting?)
    requires s.tasks[t].todo != [] && (progress ==> s.tasks[t].pc.Acting?)
    ensures Shape(c, Keep(s, t, f, progress)) && Work(c, Keep(s, t, f, progress)) < Work(c, s)
  {
    OneTask(c, s, Keep(s, t, f, progress), t);
  }

  lemma {:induction false} PlantWork(c: Config, s: State, t: nat, f: nat)
    requires Inv(c, s) && t < |s.tasks| && s.tasks[t].pc.Visit? && s.tasks[t].todo != [] && s.queue[t] != []
    ensures Shape(c, Receive(s, t, f)) && Work(c, Receive(s, t, f)) < Work(c, s)
  {
    FirstMsg(c, s, t);
    OneTask(c, s, Receive(s, t, f), t);
  }

  lemma {:induction false} BeginWork(c: Config, s: State, t: nat, f: nat)
    requires CanBegin(c, s, t, f)
    ensures Shape(c, Begin(c, s, t, f)) && Work(c, Begin(c, s, t, f)) < Work(c, s)
  {
    var s' := Begin(c, s, t, f);
    forall u | 0 <= u < |s.tasks| && u != t
      ensures TaskCost(c, s', u) == TaskCost(c, s, u)
    {
      OtherCost(c, s, s', t, u);
    }
    TaskAndEntry(c, s, s', t, f);
    assert ActsLeft(c, s', s'.tasks[t]) == |Acts(c, f, s.at[f])|;
  }

  lemma {:induction false} VisitWork(c: Config, s: State, s': State, t: nat)
    requires Inv(c, s) && NextStep(c, s, s', VisitStep(t)) && Shape(c, s')
    ensures Work(c, s') < Work(c, s)
  {
    if s.tasks[t].todo == [] {
      EndPassWork(c, s, t);
    } else {
      var f := s.tasks[t].todo[0];
      HeadOk(c, s, t);
      if c.source[f].From? && !s.received[f] {
        if s.queue[t] == [] {
          KeepWork(c, s, t, f, false);
        } else {
          PlantWork(c, s, t, f);
        }
      } else if s.at[f] >= |c.phases[f]| {
        CompleteWork(c, s, t, f);
      } else if !Met(s, c.phases[f][s.at[f]].needs) {
        KeepWork(c, s, t, f, false);
      } else {
        BeginWork(c, s, t, f);
      }
    }
  }

  lemma {:induction false} OneActLess(n: nat, cost: nat)
    requires n > 0
    ensures n * cost == (n - 1) * cost + cost
  {
  }

  /** A task that has not moved costs the same as long as the entries stand where they did. */
  lemma {:induction false} SamePcCost(c: Config, s: State, s': State, k: Task)
    requires s'.at == s.at
    ensures PcCost(c, s', k) == PcCost(c, s, k)
  {
  }

  /** Nothing is done by setting a bit or by waking. */
  lemma {:induction false} SameActsCost(c: Config, s: State, s': State, k: Task, k': Task)
    requires Acts?(k.pc) && k' == k.(pc := k'.pc) && Acts?(k'.pc) && k'.pc.pos == k.pc.pos && s'.at == s.at
    ensures ActsCost(c, s', k') == ActsCost(c, s, k)
  {
  }

  /** An act pays for the message and the event that it causes. */
  lemma {:induction false} ActedCost(c: Config, s: State, s': State, t: nat)
    requires Acted(c, s, s', t)
    ensures PcCost(c, s', s'.tasks[t]) + ActCost(c)
            == PcCost(c, s, s.tasks[t]) + if s'.tasks[t].pc.SetBit? then Sweep(c) + 3 else 0
  {
    OneActLess(ActsLeft(c, s, s.tasks[t]), ActCost(c));
  }

  lemma {:induction false} OwnActWork(c: Config, s: State, s': State, t: nat)
    requires Acted(c, s, s', t) && |s'.queue[t]| <= |s.queue[t]| + 1
    requires s'.tasks[t].pc.SetBit? ==> s'.bit == s.bit && s'.queue == s.queue
    requires forall u :: 0 <= u < |s.tasks| && u != t ==> s'.bit[u] == s.bit[u] && s'.queue[u] == s.queue[u]
    ensures Work(c, s') < Work(c, s)
  {
    ActedCost(c, s, s', t);
    OneTask(c, s, s', t);
  }

  lemma {:induction false} SendWork(c: Config, s: State, t: nat, g: nat)
    requires CanAct(c, s, t) && NextAct(c, s, t) == Send(g) && g < |c.task| && c.task[g] != t
    requires Acted(c, s, DoAct(c, s, t), t)
    ensures Work(c, DoAct(c, s, t)) < Work(c, s)
  {
    var s', u := DoAct(c, s, t), c.task[g];
    ActedCost(c, s, s', t);
    SamePcCost(c, s, s', s.tasks[u]);
    TwoTasks(c, s, s', t, u);
  }

  lemma {:induction false} ActWork(c: Config, s: State, s': State, t: nat)
    requires Inv(c, s) && NextStep(c, s, s', ActStep(t)) && Shape(c, s')
    ensures Work(c, s') < Work(c, s)
  {
    match NextAct(c, s, t)
    case Tell(u) =>
      TellLocal(c, s, t);
      OwnActWork(c, s, s', t);
    case Dup(g) =>
      DupLocal(c, s, t, g);
      OwnActWork(c, s, s', t);
    case Send(g) =>
      SendActed(c, s, t, g);
      if c.task[g] == t {
        OwnActWork(c, s, s', t);
      } else {
        SendWork(c, s, t, g);
      }
  }

  lemma {:induction false} EndWork(c: Config, s: State, s': State, t: nat)
    requires Inv(c, s) && NextStep(c, s, s', EndStep(t)) && Shape(c, s')
    ensures Work(c, s') < Work(c, s)
  {
    var m := s.tasks[t].todo[0];
    HeadOk(c, s, t);
    if s.at[m] == |c.phases[m]| {
      CompleteWork(c, s, t, m);
    } else if s.at[m] == 1 {
      KeepWork(c, s, t, m, true);
    } else {
      OneTask(c, s, s', t);
    }
  }

  /** Only the signalling task and the one that it signals change. */
  lemma {:induction false} SignalWork(c: Config, s: State, s': State, t: nat, to: nat)
    requires Shape(c, s) && Shape(c, s') && Signals(s, s', t, to)
    requires TaskCost(c, s', t) + TaskCost(c, s', to) < TaskCost(c, s, t) + TaskCost(c, s, to)
    ensures Work(c, s') < Work(c, s)
  {
    TwoTasks(c, s, s', t, to);
  }

  lemma {:induction false} SetBitCost(c: Config, s: State, s': State, t: nat, to: nat)
    requires Shape(c, s) && NextStep(c, s, s', SetBitStep(t)) && Shape(c, s') && to == s.tasks[t].pc.to != t
    ensures TaskCost(c, s', t) + TaskCost(c, s', to) < TaskCost(c, s, t) + TaskCost(c, s, to)
  {
    SameActsCost(c, s, s', s.tasks[t], s'.tasks[t]);
    SamePcCost(c, s, s', s.tasks[to]);
  }

  lemma {:induction false} SetBitWork(c: Config, s: State, s': State, t: nat)
    requires Inv(c, s) && NextStep(c, s, s', SetBitStep(t)) && Shape(c, s')
    ensures Work(c, s') < Work(c, s)
  {
    assert ListOk(c, s, t);
    SetBitCost(c, s, s', t, s.tasks[t].pc.to);
    SignalWork(c, s, s', t, s.tasks[t].pc.to);
  }

  lemma {:induction false} WakeWork(c: Config, s: State, s': State, t: nat)
    requires Inv(c, s) && NextStep(c, s, s', WakeStep(t)) && Shape(c, s')
    ensures Work(c, s') < Work(c, s)
  {
    assert ListOk(c, s, t);
    var to := s.tasks[t].pc.to;
    SameActsCost(c, s, s', s.tasks[t], s'.tasks[t]);
    assert PcCost(c, s', s'.tasks[to]) <= PcCost(c, s, s.tasks[to]) + 1;
    SignalWork(c, s, s', t, to);
  }

  /** Every step but a timeout leaves less to do. */
  lemma {:induction false} StepWork(c: Config, s: State, s': State, step: Step)
    requires Inv(c, s) && NextStep(c, s, s', step) && Shape(c, s')
    ensures Work(c, s') + 1 <= Work(c, s) + if step.TimeOut? then 2 else 0
  {
    match step
    case StartPass(t) => StartPassWork(c, s, s', t);
    case VisitStep(t) => VisitWork(c, s, s', t);
    case ActStep(t) => ActWork(c, s, s', t);
    case EndStep(t) => EndWork(c, s, s', t);
    case SetBitStep(t) => SetBitWork(c, s, s', t);
    case WakeStep(t) => WakeWork(c, s, s', t);
    case TestEvent(t) => WaitingWork(c, s, s', t);
    case TimeOut(t) => TimeOutWork(c, s, s', t);
  }

  // ---- Runs with their steps ----

  ghost predicate IsTrace(c: Config, run: seq<State>, steps: seq<Step>) {
    && |run| == |steps| + 1 && Init(c, run[0])
    && forall k :: 0 <= k < |steps| ==> NextStep(c, run[k], run[k + 1], steps[k])
  }

  lemma {:induction false} TraceIsRun(c: Config, run: seq<State>, steps: seq<Step>)
    requires IsTrace(c, run, steps)
    ensures IsRun(c, run)
  {
    forall k | 0 <= k < |run| - 1
      ensures Next(c, run[k], run[k + 1])
    {
      assert NextStep(c, run[k], run[k + 1], steps[k]);
    }
  }

  function Flags(steps: seq<Step>): seq<bool> { seq(|steps|, k requires 0 <= k < |steps| => steps[k].TimeOut?) }

  function TimeOuts(steps: seq<Step>): nat { Flagged(Flags(steps), 0, |steps|) }

  ghost function Works(c: Config, run: seq<State>): seq<nat> {
    seq(|run|, k requires 0 <= k < |run| => if Shape(c, run[k]) then Work(c, run[k]) else 0)
  }

  lemma {:induction false} TraceInv(c: Config, run: seq<State>, steps: seq<Step>, k: nat)
    requires IsTrace(c, run, steps) && k < |run|
    ensures Inv(c, run[k])
  {
    TraceIsRun(c, run, steps);
    RunInv(c, run, k);
  }

  lemma {:induction false} OneStep(c: Config, run: seq<State>, steps: seq<Step>, k: nat)
    requires IsTrace(c, run, steps) && k < |steps|
    ensures Works(c, run)[k + 1] + 1 <= Works(c, run)[k] + if Flags(steps)[k] then 2 else 0
  {
    TraceInv(c, run, steps, k);
    TraceInv(c, run, steps, k + 1);
    assert NextStep(c, run[k], run[k + 1], steps[k]);
    StepWork(c, run[k], run[k + 1], steps[k]);
  }

  /** What all phases and completions can cost, and two sweeps for each task. */
  function Bound(c: Config): nat
    requires |c.phases| == |c.task|
  {
    |c.lists| * (2 * |c.task| + 9) + Sum(seq(|c.task|, f requires 0 <= f < |c.task| => PhasesCost(c, f, 0) + Sweep(c)))
  }

  lemma {:induction false} InitWork(c: Config, s: State)
    requires Init(c, s)
    ensures Work(c, s) <= Bound(c)
  {
    forall t | 0 <= t < |s.tasks|
      ensures TaskCosts(c, s)[t] <= 2 * |c.task| + 9
    {
      assert s.tasks[t].pc.PassStart?;
    }
    SumBelow(TaskCosts(c, s), 2 * |c.task| + 9);
    assert EntryCosts(c, s) == seq(|c.task|, f requires 0 <= f < |c.task| => PhasesCost(c, f, 0) + Sweep(c));
  }

  lemma {:induction false} RunBounded(c: Config, run: seq<State>, steps: seq<Step>)
    requires IsTrace(c, run, steps)
    ensures Shape(c, run[0]) && |steps| <= Works(c, run)[0] + 2 * TimeOuts(steps)
  {
    forall k | 0 <= k < |steps|
      ensures Works(c, run)[k + 1] + 1 <= Works(c, run)[k] + if Flags(steps)[k] then 2 else 0
    {
      OneStep(c, run, steps, k);
    }
    Potential(Works(c, run), Flags(steps), 2, 0, |steps|);
  }

  /** The last state of a run is stuck only when everybody is through. */
  lemma {:induction false} ThroughOrGoesOn(c: Config, run: seq<State>, rank: Event -> nat)
    requires IsRun(c, run) && WellFormed(c) && Acyclic(c, rank)
    ensures
      var s := run[|run| - 1];
      || (forall t :: 0 <= t < |s.tasks| ==> s.tasks[t].pc.Finished?)
      || exists t :: 0 <= t < |s.tasks| && !s.tasks[t].pc.Finished? && CanStep(c, s, t)
  {
    var s := run[|run| - 1];
    if exists t :: 0 <= t < |s.tasks| && !s.tasks[t].pc.Finished? {
      NeverStuck(c, rank, run, |run| - 1);
    }
  }

  /**
   * Every run ends: it has at most `Bound` steps and two for every timeout. If the waits have no cycle, then
   * in its last state everybody is through or somebody can step without a timeout; so a run that goes on as
   * long as it can restores all descriptors.
   */
  lemma {:induction false} EveryRunEnds(c: Config, run: seq<State>, steps: seq<Step>, rank: Event -> nat)
    requires IsTrace(c, run, steps)
    ensures WellFormed(c) && |steps| <= Bound(c) + 2 * TimeOuts(steps)
    ensures Acyclic(c, rank) ==>
      var s := run[|run| - 1];
      || (forall t :: 0 <= t < |s.tasks| ==> s.tasks[t].pc.Finished?)
      || exists t :: 0 <= t < |s.tasks| && !s.tasks[t].pc.Finished? && CanStep(c, s, t)
  {
    RunBounded(c, run, steps);
    InitWork(c, run[0]);
    TraceIsRun(c, run, steps);
    if Acyclic(c, rank) {
      ThroughOrGoesOn(c, run, rank);
    }
  }
}
