/**
 * The order in which descriptors are restored: a phase of an open method begins only when all that it waits for is
 * there, and what is restored has its file.
 */
module FdOrder {
  import opened FdDistribution

  /** Nothing is taken back, and a phase begins only when its waits are over. */
  ghost predicate Ordered(c: Config, s: State, s': State, m: nat)
    requires Shape(c, s) && Shape(c, s') && m < |c.task|
  {
    && (s.restored[m] ==> s'.restored[m]) && s.at[m] <= s'.at[m] <= s.at[m] + 1
    && (s'.at[m] > s.at[m] ==> s.at[m] < |c.phases[m]| && Met(s, c.phases[m][s.at[m]].needs))
  }

  lemma {:induction false} VisitOrder(c: Config, s: State, s': State, t: nat, m: nat)
    requires NextStep(c, s, s', VisitStep(t)) && Shape(c, s') && m < |c.task|
    ensures Ordered(c, s, s', m)
  {
  }

  lemma {:induction false} ActOrder(c: Config, s: State, s': State, step: Step, m: nat)
    requires NextStep(c, s, s', step) && (step.ActStep? || step.EndStep?) && Shape(c, s') && m < |c.task|
    ensures Ordered(c, s, s', m)
  {
  }

  lemma {:induction false} StepOrder(c: Config, s: State, s': State, step: Step, m: nat)
    requires NextStep(c, s, s', step) && Shape(c, s') && m < |c.task|
    ensures Ordered(c, s, s', m)
  {
    if step.VisitStep? {
      VisitOrder(c, s, s', step.t, m);
    } else if step.ActStep? || step.EndStep? {
      ActOrder(c, s, s', step, m);
    }
  }

  /** All that phase `p` of master `m` waits for is there. */
  ghost predicate NothingMissing(c: Config, s: State, m: nat, p: nat)
    requires HasPhase(c, m, p)
  {
    && (forall d :: d in c.phases[m][p].needs.restored ==> d < |s.restored| && s.restored[d])
    && (forall e :: e in c.phases[m][p].needs.begun ==> e.0 < |s.at| && s.at[e.0] > e.1)
  }

  /** If phase `p` of master `m` has begun, nothing is missing for it. */
  ghost predicate InOrder(c: Config, s: State, m: nat, p: nat)
    requires HasPhase(c, m, p)
  {
    m < |s.at| && p < s.at[m] ==> NothingMissing(c, s, m, p)
  }

  lemma {:induction false} StillThere(c: Config, s: State, s': State, step: Step, m: nat, p: nat)
    requires NextStep(c, s, s', step) && Shape(c, s') && HasPhase(c, m, p) && NothingMissing(c, s, m, p)
    ensures NothingMissing(c, s', m, p)
  {
    forall d | d in c.phases[m][p].needs.restored
      ensures d < |s'.restored| && s'.restored[d]
    {
      StepOrder(c, s, s', step, d);
    }
    forall e | e in c.phases[m][p].needs.begun
      ensures e.0 < |s'.at| && s'.at[e.0] > e.1
    {
      StepOrder(c, s, s', step, e.0);
    }
  }

  lemma {:induction false} OrderKept(c: Config, s: State, s': State, step: Step, m: nat, p: nat)
    requires NextStep(c, s, s', step) && Shape(c, s') && HasPhase(c, m, p) && InOrder(c, s, m, p)
    ensures InOrder(c, s', m, p)
  {
    if m < |s'.at| && p < s'.at[m] {
      StepOrder(c, s, s', step, m);
      assert NothingMissing(c, s, m, p);
      StillThere(c, s, s', step, m, p);
    }
  }

  lemma {:induction false} RunInOrder(c: Config, run: seq<State>, k: nat, m: nat, p: nat)
    requires IsRun(c, run) && k < |run| && HasPhase(c, m, p)
    ensures InOrder(c, run[k], m, p)
  {
    if k > 0 {
      RunInOrder(c, run, k - 1, m, p);
      ShapeOf(c, run, k);
      assert Next(c, run[k - 1], run[k - 1 + 1]);
      var step :| NextStep(c, run[k - 1], run[k], step);
      OrderKept(c, run[k - 1], run[k], step, m, p);
    }
  }

  lemma {:induction false} ShapeOf(c: Config, run: seq<State>, k: nat)
    requires IsRun(c, run) && k < |run|
    ensures Shape(c, run[k])
  {
    RunInv(c, run, k);
  }

  /** What is restored is in its slot, and all its phases are over. */
  lemma {:induction false} RestoredMeansPlanted(c: Config, run: seq<State>, k: nat, f: nat)
    requires IsRun(c, run) && k < |run| && f < |c.task|
    ensures Shape(c, run[k])
    ensures run[k].restored[f] ==> run[k].plants[f] == [c.master[f]] && run[k].at[f] == |c.phases[f]|
  {
    RunInv(c, run, k);
    assert EntryOk(c, run[k], f) && SourceOk(c, f);
  }

  /**
   * In every reachable state, every phase that has begun had all it waits for: the entries of its task that have to be
   * restored before it are in their slots, the phases that have to begin before it have begun, and a file that
   * is sent by a peer was received.
   */
  lemma {:induction false} WaitsRespected(c: Config, run: seq<State>, k: nat, m: nat, p: nat)
    requires IsRun(c, run) && k < |run| && HasPhase(c, m, p) && m < |run[k].at| && p < run[k].at[m]
    ensures Shape(c, run[k])
    ensures forall d :: d in c.phases[m][p].needs.restored ==>
              d < |c.task| && run[k].restored[d] && run[k].plants[d] == [c.master[d]]
    ensures forall e :: e in c.phases[m][p].needs.begun ==> e.0 < |c.task| && run[k].at[e.0] > e.1
    ensures c.source[m].From? ==> run[k].received[m] && run[k].plants[m] == [c.master[m]]
  {
    ShapeOf(c, run, k);
    RunInOrder(c, run, k, m, p);
    forall d | d in c.phases[m][p].needs.restored
      ensures d < |c.task| && run[k].plants[d] == [c.master[d]]
    {
      RestoredMeansPlanted(c, run, k, d);
    }
    RunInv(c, run, k);
    assert EntryOk(c, run[k], m);
  }
}
