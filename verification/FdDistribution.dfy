/**
 * Distribution of file descriptors between restored tasks. One entry of each file (its master) opens
 * the file and serves it to every other entry: into its own table with dup2, to other tasks with a
 * message followed by the event bit. The open method of a master goes through phases, at its first visit
 * or at later ones: each phase may have to wait for other entries (criu/eventpoll.c:422-435,
 * criu/sk-unix.c:1258-1264, 1500-1504), for a file that another master's open method sends
 * (`recv_desc_from_peer`), and tells the tasks that may be waiting for it (criu/sk-unix.c:1246-1277).
 * Every task sweeps its list of unrestored entries and sleeps when a sweep made no progress. Sending a
 * message, setting the bit, waking the sleeper, clearing the bit and each non-blocking receive are
 * separate steps of freely interleaving tasks.
 */
module FdDistribution {

  /** What a phase waits for: entries of the same task to be restored, and phases of any files to have begun. */
  datatype Waits = Waits(restored: set<nat>, begun: set<(nat, nat)>)

  /** What a phase does for others: set the event of a task, or give an entry its file, by dup2 or by message. */
  datatype Act = Tell(task: nat) | Dup(fle: nat) | Send(fle: nat)

  datatype Phase = Phase(needs: Waits, acts: seq<Act>)

  /** Where the file of an entry comes from: its own open method, or act `i` of phase `p` of master `m`. */
  datatype Source = Opens | From(m: nat, p: nat, i: nat)

  /**
   * The collected entries (`fdinfo_list_entry`), numbered from zero: the task of each, the master of its
   * file, where it gets its file, and the phases of a master's open method; the file is open when the
   * first phase has begun. `lists` is each task's list.
   */
  datatype Config = Config(
    task: seq<nat>, master: seq<nat>, source: seq<Source>, phases: seq<seq<Phase>>, lists: seq<seq<nat>>)

  datatype Msg = Msg(fle: nat, file: nat)

  /** The position of a task in `open_fdinfos` and the functions below it. */
  datatype Pc =
    | PassStart                      // about to clear the event and sweep its list
    | Visit                          // at the first entry of `todo`, or at the end of the sweep
    | Acting(pos: nat)               // in a phase of the master at the head of `todo`, `pos` acts done
    | SetBit(pos: nat, to: nat)      // about to set the event bit of `to`
    | Waking(pos: nat, to: nat)      // bit set, about to wake `to`
    | Wait                           // about to test the event bit
    | Sleep
    | Finished

  /** `todo` is still to be visited in this sweep, `kept` was visited and stays in the list. */
  datatype Task = Task(pc: Pc, todo: seq<nat>, kept: seq<nat>, progress: bool, again: bool)

  /**
   * `at` counts the phases of each master that have begun, `plants` records the files put into each entry's
   * slot, `sent` the entries that were given their file so far, `bad` a failed check.
   */
  datatype State = State(
    at: seq<nat>, restored: seq<bool>, received: seq<bool>, plants: seq<seq<nat>>, sent: set<nat>,
    queue: seq<seq<Msg>>, bit: seq<bool>, tasks: seq<Task>, bad: bool)

  predicate Master?(c: Config, f: nat)
    requires f < |c.master|
  {
    c.master[f] == f
  }

  predicate HasPhase(c: Config, m: nat, p: nat) { m < |c.phases| && p < |c.phases[m]| }

  function Acts(c: Config, m: nat, p: nat): seq<Act>
    requires HasPhase(c, m, p)
  {
    c.phases[m][p].acts
  }

  ghost predicate Distinct(s: seq<nat>) { forall i, j :: 0 <= i < j < |s| ==> s[i] != s[j] }

  /**
   * Whoever waits for a phase is told about it. A task need not tell itself that a file is open, which is
   * progress of its sweep.
   */
  ghost predicate NeedsOk(c: Config, m: nat, w: Waits)
    requires m < |c.task| == |c.master| == |c.phases|
  {
    && (forall d :: d in w.restored ==> d < |c.task| && c.task[d] == c.task[m])
    && (forall e :: e in w.begun ==>
          HasPhase(c, e.0, e.1) && (c.task[e.0] != c.task[m] || e.1 > 0 ==> Tell(c.task[m]) in Acts(c, e.0, e.1)))
  }

  /** An entry is given its file by one act; dup2 is for other entries of the same file and task, when it is opened. */
  ghost predicate ActOk(c: Config, m: nat, p: nat, i: nat)
    requires HasPhase(c, m, p) && i < |Acts(c, m, p)| && |c.task| == |c.master| == |c.source| == |c.phases|
  {
    match Acts(c, m, p)[i]
    case Tell(t) => t < |c.lists|
    case Send(g) => g < |c.task| && c.source[g] == From(m, p, i)
    case Dup(g) =>
      g < |c.task| && c.source[g] == From(m, p, i) && p == 0 && g != m && c.master[g] == m && c.task[g] == c.task[m]
  }

  ghost predicate PhaseOk(c: Config, m: nat, p: nat)
    requires HasPhase(c, m, p) && |c.task| == |c.master| == |c.source| == |c.phases|
  {
    NeedsOk(c, m, c.phases[m][p].needs) && forall i :: 0 <= i < |Acts(c, m, p)| ==> ActOk(c, m, p, i)
  }

  /** A slave gets its file when its master opens it; a master opens its file or is sent it. */
  ghost predicate SourceOk(c: Config, f: nat)
    requires f < |c.task| == |c.master| == |c.source| == |c.phases|
  {
    match c.source[f]
    case Opens => Master?(c, f)
    case From(m, p, i) =>
      && HasPhase(c, m, p) && i < |Acts(c, m, p)| && Acts(c, m, p)[i] in {Dup(f), Send(f)}
      && (!Master?(c, f) ==> m == c.master[f] && p == 0)
  }

  ghost predicate WellFormed(c: Config) {
    && |c.task| == |c.master| == |c.source| == |c.phases|
    && (forall f :: 0 <= f < |c.task| ==> c.task[f] < |c.lists|)
    && (forall f :: 0 <= f < |c.task| ==> c.master[f] < |c.task| && c.master[c.master[f]] == c.master[f])
    && (forall f :: 0 <= f < |c.task| ==> (c.phases[f] != [] <==> Master?(c, f)))
    && (forall f :: 0 <= f < |c.task| ==> SourceOk(c, f))
    && (forall m, p :: 0 <= m < |c.phases| && 0 <= p < |c.phases[m]| ==> PhaseOk(c, m, p))
    && (forall t :: 0 <= t < |c.lists| ==>
          Distinct(c.lists[t]) && forall f: nat :: f in c.lists[t] <==> f < |c.task| && c.task[f] == t)
  }

  ghost predicate Shape(c: Config, s: State) {
    && WellFormed(c)
    && |s.at| == |s.restored| == |s.received| == |s.plants| == |c.task|
    && |s.queue| == |s.bit| == |s.tasks| == |c.lists|
  }

  ghost predicate Init(c: Config, s: State) {
    && Shape(c, s)
    && (forall f :: 0 <= f < |c.task| ==> s.at[f] == 0 && !s.restored[f] && !s.received[f] && s.plants[f] == [])
    && s.sent == {} && !s.bad
    && (forall t :: 0 <= t < |c.lists| ==>
          s.queue[t] == [] && s.tasks[t] == Task(PassStart, [], c.lists[t], false, false))
  }

  predicate Met(s: State, w: Waits) {
    && (forall d :: d in w.restored ==> d < |s.restored| && s.restored[d])
    && (forall e :: e in w.begun ==> e.0 < |s.at| && s.at[e.0] > e.1)
  }

  function SetTask(s: State, t: nat, k: Task): State
    requires t < |s.tasks|
  {
    s.(tasks := s.tasks[t := k])
  }

  /** The entry at the head of the sweep is restored and leaves the list. */
  function Complete(s: State, t: nat, f: nat): State
    requires t < |s.tasks| && f < |s.restored| && s.tasks[t].todo != []
  {
    SetTask(s.(restored := s.restored[f := true]), t,
            s.tasks[t].(pc := Visit, todo := s.tasks[t].todo[1..], progress := true))
  }

  /** The entry at the head of the sweep stays for another sweep. */
  function Keep(s: State, t: nat, f: nat, progress: bool): State
    requires t < |s.tasks| && s.tasks[t].todo != []
  {
    var k := s.tasks[t];
    var moved := k.(pc := Visit, todo := k.todo[1..], kept := k.kept + [f]);
    SetTask(s, t, moved.(again := true, progress := k.progress || progress))
  }

  /** End of a sweep of `open_fdinfos`. */
  function EndPass(s: State, t: nat): State
    requires t < |s.tasks|
  {
    var k := s.tasks[t];
    if !k.progress && k.again then SetTask(s, t, k.(pc := Wait))
    else if k.again || k.progress then SetTask(s, t, k.(pc := PassStart))
    else SetTask(s.(bad := s.bad || k.kept != []), t, k.(pc := Finished))
  }

  /** `recv_fd_from_peer`: take one message and plant it, or report that none is there. */
  function Receive(s: State, t: nat, f: nat): State
    requires t < |s.tasks| == |s.queue| && |s.received| == |s.plants| && s.tasks[t].todo != []
  {
    if s.queue[t] == [] then Keep(s, t, f, false)
    else
      var msg, k := s.queue[t][0], s.tasks[t];
      if msg.fle >= |s.received| || s.received[msg.fle] || !(msg.fle in k.todo || msg.fle in k.kept) then
        s.(bad := true)
      else s.(queue := s.queue[t := s.queue[t][1..]],
              received := s.received[msg.fle := true],
              plants := s.plants[msg.fle := s.plants[msg.fle] + [msg.file]])
  }

  /** The next phase of the master at the head of the sweep begins. */
  function Begin(c: Config, s: State, t: nat, f: nat): State
    requires t < |s.tasks| && f < |s.at| == |s.plants| == |c.source|
  {
    var opens := s.at[f] == 0 && c.source[f].Opens?;
    SetTask(s.(at := s.at[f := s.at[f] + 1], plants := if opens then s.plants[f := s.plants[f] + [f]] else s.plants), t,
            s.tasks[t].(pc := Acting(0)))
  }

  /** One step of `open_fd` for the entry at the head of the sweep. */
  function DoVisit(c: Config, s: State, t: nat): State
    requires t < |s.tasks| == |s.queue| && |s.received| == |s.plants| == |s.at| == |s.restored| == |c.master|
    requires |s.at| == |c.source| == |c.phases|
  {
    var k := s.tasks[t];
    if k.todo == [] then EndPass(s, t)
    else
      var f := k.todo[0];
      if f >= |s.at| || s.restored[f] then s.(bad := true)
      else if c.source[f].From? && !s.received[f] then Receive(s, t, f)
      else if s.at[f] >= |c.phases[f]| then Complete(s, t, f)
      else if !Met(s, c.phases[f][s.at[f]].needs) then Keep(s, t, f, false)
      else Begin(c, s, t, f)
  }

  /** `set_fds_event` of task `u` is next; a task that sets its own needs no waking. */
  function Signal(s: State, t: nat, u: nat, pos: nat): State
    requires t < |s.tasks| == |s.bit|
  {
    if u == t then SetTask(s.(bit := s.bit[t := true]), t, s.tasks[t].(pc := Acting(pos)))
    else SetTask(s, t, s.tasks[t].(pc := SetBit(pos, u)))
  }

  /** The phase that a task is in: the last one that has begun for the head of its sweep. */
  predicate InPhase(c: Config, s: State, t: nat) {
    && t < |s.tasks| && s.tasks[t].pc.Acting? && s.tasks[t].todo != []
    && s.tasks[t].todo[0] < |s.at| && s.at[s.tasks[t].todo[0]] > 0
    && HasPhase(c, s.tasks[t].todo[0], s.at[s.tasks[t].todo[0]] - 1)
  }

  function ActsOf(c: Config, s: State, t: nat): seq<Act>
    requires InPhase(c, s, t)
  {
    Acts(c, s.tasks[t].todo[0], s.at[s.tasks[t].todo[0]] - 1)
  }

  /** The next act of a phase. */
  function DoAct(c: Config, s: State, t: nat): State
    requires InPhase(c, s, t) && s.tasks[t].pc.pos < |ActsOf(c, s, t)|
    requires |s.received| == |s.plants| == |c.task| == |c.master| && |s.tasks| == |s.queue| == |s.bit|
  {
    var k := s.tasks[t];
    match ActsOf(c, s, t)[k.pc.pos]
    case Tell(u) => Signal(s, t, u, k.pc.pos + 1)
    case Dup(g) =>
      if g >= |c.task| then s.(bad := true)
      else SetTask(s.(sent := s.sent + {g}, received := s.received[g := true],
                      plants := s.plants[g := s.plants[g] + [c.master[g]]]), t, k.(pc := Acting(k.pc.pos + 1)))
    case Send(g) =>
      if g >= |c.task| || c.task[g] >= |s.queue| then s.(bad := true)
      else
        var u := c.task[g];
        Signal(s.(sent := s.sent + {g}, queue := s.queue[u := s.queue[u] + [Msg(g, c.master[g])]]), t, u, k.pc.pos + 1)
  }

  /** After the last phase the entry is restored; an open file is progress; any other phase goes on with the next. */
  function EndActs(c: Config, s: State, t: nat): State
    requires InPhase(c, s, t) && |s.restored| == |s.at|
  {
    var m := s.tasks[t].todo[0];
    if s.at[m] == |c.phases[m]| then Complete(s, t, m)
    else if s.at[m] == 1 then Keep(s, t, m, true)
    else SetTask(s, t, s.tasks[t].(pc := Visit))
  }

  datatype Step =
    | StartPass(t: nat) | VisitStep(t: nat) | ActStep(t: nat) | EndStep(t: nat)
    | SetBitStep(t: nat) | WakeStep(t: nat) | TestEvent(t: nat) | TimeOut(t: nat)

  ghost predicate NextStep(c: Config, s: State, s': State, step: Step) {
    Shape(c, s) && step.t < |s.tasks| &&
    var t := step.t;
    var k := s.tasks[t];
    match step
    case StartPass(_) =>
      && k.pc.PassStart?
      && s' == SetTask(s.(bit := s.bit[t := false]), t, Task(Visit, k.kept, [], false, false))
    case VisitStep(_) => k.pc.Visit? && s' == DoVisit(c, s, t)
    case ActStep(_) => InPhase(c, s, t) && k.pc.pos < |ActsOf(c, s, t)| && s' == DoAct(c, s, t)
    case EndStep(_) => InPhase(c, s, t) && k.pc.pos >= |ActsOf(c, s, t)| && s' == EndActs(c, s, t)
    case SetBitStep(_) =>
      && k.pc.SetBit? && k.pc.to < |s.bit|
      && s' == if s.bit[k.pc.to] then SetTask(s, t, k.(pc := Acting(k.pc.pos)))
               else SetTask(s.(bit := s.bit[k.pc.to := true]), t, k.(pc := Waking(k.pc.pos, k.pc.to)))
    case WakeStep(_) =>
      && k.pc.Waking? && k.pc.to < |s.tasks|
      && s' == SetTask(WakeTask(s, k.pc.to), t, k.(pc := Acting(k.pc.pos)))
    case TestEvent(_) =>
      && k.pc.Wait?
      && s' == if s.bit[t] then SetTask(s.(bit := s.bit[t := false]), t, k.(pc := PassStart))
               else SetTask(s, t, k.(pc := Sleep))
    case TimeOut(_) => k.pc.Sleep? && s' == SetTask(s, t, k.(pc := Wait))
  }

  function WakeTask(s: State, u: nat): State
    requires u < |s.tasks|
  {
    if s.tasks[u].pc.Sleep? then SetTask(s, u, s.tasks[u].(pc := Wait)) else s
  }

  ghost predicate Next(c: Config, s: State, s': State) { exists step :: NextStep(c, s, s', step) }

  ghost predicate IsRun(c: Config, run: seq<State>) {
    && |run| > 0 && Init(c, run[0])
    && forall k :: 0 <= k < |run| - 1 ==> Next(c, run[k], run[k + 1])
  }

  // ---- Invariant ----

  predicate Acts?(pc: Pc) { pc.Acting? || pc.SetBit? || pc.Waking? }

  /** The task is in a phase of master `m`. */
  ghost predicate ActsFor(s: State, t: nat, m: nat)
    requires t < |s.tasks|
  {
    Acts?(s.tasks[t].pc) && s.tasks[t].todo != [] && s.tasks[t].todo[0] == m
  }

  /**
   * The list of a task holds exactly its unrestored entries, each once; a task that acts is in a phase of
   * the head of its sweep.
   */
  ghost predicate ListOk(c: Config, s: State, t: nat)
    requires Shape(c, s) && t < |s.tasks|
  {
    var k := s.tasks[t];
    && Distinct(k.todo + k.kept)
    && (forall f: nat :: (f in k.todo || f in k.kept) <==> f < |c.task| && c.task[f] == t && !s.restored[f])
    && (Acts?(k.pc) ==>
          && k.todo != [] && k.todo[0] < |c.task| && 0 < s.at[k.todo[0]] <= |c.phases[k.todo[0]]|
          && k.pc.pos <= |Acts(c, k.todo[0], s.at[k.todo[0]] - 1)|)
    && (k.pc.SetBit? || k.pc.Waking? ==> k.pc.to < |s.tasks| && k.pc.to != t)
    && (!k.pc.Visit? && !Acts?(k.pc) ==> k.todo == [])
    && (k.pc.Wait? || k.pc.Sleep? ==> k.again && !k.progress)
    && (k.again ==> k.kept != [])
    && (!k.again && !k.pc.PassStart? ==> k.kept == [])
    && (k.pc.Finished? ==> k.kept == [])
  }

  /** Act `i` of phase `p` of master `m` has been done. */
  ghost predicate ActDone(c: Config, s: State, m: nat, p: nat, i: nat)
    requires Shape(c, s) && m < |c.task|
  {
    || s.at[m] > p + 1
    || (s.at[m] == p + 1 && (ActsFor(s, c.task[m], m) ==> i < s.tasks[c.task[m]].pc.pos))
  }

  ghost predicate InQueue(q: seq<Msg>, f: nat) { exists k :: 0 <= k < |q| && q[k].fle == f }

  /** The life of one entry: it opens its file once, or is given it once, in flight once, and received once. */
  ghost predicate EntryOk(c: Config, s: State, f: nat)
    requires Shape(c, s) && f < |c.task|
  {
    && s.at[f] <= |c.phases[f]|
    && (s.restored[f] ==> s.at[f] == |c.phases[f]| && (c.source[f].From? ==> s.received[f]))
    && match c.source[f]
       case Opens => !s.received[f] && s.plants[f] == if s.at[f] == 0 then [] else [f]
       case From(m, p, i) =>
         && m < |c.task| && (f in s.sent <==> ActDone(c, s, m, p, i))
         && (s.received[f] ==> f in s.sent)
         && (f in s.sent && !s.received[f] ==> InQueue(s.queue[c.task[f]], f))
         && s.plants[f] == (if s.received[f] then [c.master[f]] else [])
         && (s.at[f] > 0 ==> s.received[f])
  }

  ghost predicate MsgOk(c: Config, s: State, t: nat, msg: Msg)
    requires Shape(c, s)
  {
    && msg.fle < |c.task| && c.task[msg.fle] == t && c.source[msg.fle].From? && msg.file == c.master[msg.fle]
    && msg.fle in s.sent && !s.received[msg.fle]
  }

  ghost predicate QueueOk(c: Config, s: State, t: nat)
    requires Shape(c, s) && t < |s.queue|
  {
    && (forall i :: 0 <= i < |s.queue[t]| ==> MsgOk(c, s, t, s.queue[t][i]))
    && (forall i, j :: 0 <= i < j < |s.queue[t]| ==> s.queue[t][i].fle != s.queue[t][j].fle)
  }

  /** Someone has done something for `t` and not yet set its event bit. */
  ghost predicate SenderTo(s: State, t: nat) {
    exists u :: 0 <= u < |s.tasks| && s.tasks[u].pc.SetBit? && s.tasks[u].pc.to == t
  }

  ghost predicate Told(s: State, t: nat)
    requires t < |s.bit|
  {
    s.bit[t] || SenderTo(s, t)
  }

  /** The phase that `u` is in is still going to tell `t`. */
  ghost predicate TellsLater(c: Config, s: State, u: nat, t: nat)
    requires u < |s.tasks|
  {
    var k := s.tasks[u];
    && Acts?(k.pc) && k.todo != [] && k.todo[0] < |s.at| && s.at[k.todo[0]] > 0
    && HasPhase(c, k.todo[0], s.at[k.todo[0]] - 1)
    && k.pc.pos <= |Acts(c, k.todo[0], s.at[k.todo[0]] - 1)|
    && Tell(t) in Acts(c, k.todo[0], s.at[k.todo[0]] - 1)[k.pc.pos..]
  }

  ghost predicate WillBeTold(c: Config, s: State, t: nat)
    requires t < |s.bit|
  {
    Told(s, t) || exists u :: 0 <= u < |s.tasks| && TellsLater(c, s, u, t)
  }

  /** The entry has got its file, or opens it itself. */
  ghost predicate HasFile(c: Config, s: State, g: nat)
    requires Shape(c, s) && g < |c.task|
  {
    c.source[g].Opens? || s.received[g]
  }

  /** Nothing that a sweep without progress left behind has become ready unless the task is being told. */
  ghost predicate LeftBehind(c: Config, s: State, t: nat, g: nat)
    requires Shape(c, s) && t < |s.tasks|
  {
    && g < |c.task| && (InQueue(s.queue[t], g) ==> Told(s, t))
    && if !Master?(c, g) then HasFile(c, s, g) ==> Told(s, t)
       else s.at[g] < |c.phases[g]|
            && (HasFile(c, s, g) && Met(s, c.phases[g][s.at[g]].needs) ==> WillBeTold(c, s, t))
  }

  /** A sweep that has made no progress so far; opening a file is going to be progress. */
  ghost predicate Quiet(s: State, t: nat)
    requires t < |s.tasks|
  {
    var k := s.tasks[t];
    && !k.progress
    && (|| k.pc.Visit? || k.pc.Wait? || k.pc.Sleep?
        || (Acts?(k.pc) && k.todo != [] && k.todo[0] < |s.at| && s.at[k.todo[0]] > 1))
  }

  ghost predicate QuietOk(c: Config, s: State, t: nat)
    requires Shape(c, s) && t < |s.tasks|
  {
    Quiet(s, t) ==> forall g :: g in s.tasks[t].kept ==> LeftBehind(c, s, t, g)
  }

  /** A task asleep with its bit set still has its waker coming. */
  ghost predicate SleepOk(s: State, t: nat)
    requires t < |s.tasks| == |s.bit|
  {
    s.tasks[t].pc.Sleep? && s.bit[t] ==>
      exists u :: 0 <= u < |s.tasks| && s.tasks[u].pc.Waking? && s.tasks[u].pc.to == t
  }

  ghost predicate Inv(c: Config, s: State) {
    && Shape(c, s) && !s.bad
    && (forall t :: 0 <= t < |s.tasks| ==> ListOk(c, s, t))
    && (forall f :: 0 <= f < |c.task| ==> EntryOk(c, s, f))
    && (forall t :: 0 <= t < |s.tasks| ==> QueueOk(c, s, t))
    && (forall t :: 0 <= t < |s.tasks| ==> QuietOk(c, s, t))
    && (forall t :: 0 <= t < |s.tasks| ==> SleepOk(s, t))
  }

  lemma {:induction false} InitInv(c: Config, s: State)
    requires Init(c, s)
    ensures Inv(c, s)
  {
    forall t | 0 <= t < |s.tasks|
      ensures ListOk(c, s, t)
    {
      assert [] + c.lists[t] == c.lists[t];
    }
    forall f | 0 <= f < |c.task|
      ensures EntryOk(c, s, f)
    {
      assert SourceOk(c, f);
      assert Master?(c, f) <==> c.phases[f] != [];
    }
  }

  // ---- Framing: a step of task `t` that touches only its own entries, list, queue and bit ----

  ghost predicate SameDone(c: Config, s: State, s': State, f: nat)
    requires Shape(c, s) && Shape(c, s') && f < |c.task|
  {
    c.source[f].From? && c.source[f].m < |c.task| ==>
      var From(m, p, i) := c.source[f]; ActDone(c, s', m, p, i) <==> ActDone(c, s, m, p, i)
  }

  ghost predicate Frame(c: Config, s: State, s': State, t: nat) {
    && Shape(c, s) && Shape(c, s') && t < |s.tasks|
    && !s.tasks[t].pc.SetBit? && !s.tasks[t].pc.Waking?
    && (forall u :: 0 <= u < |s.tasks| && u != t ==>
          s'.tasks[u] == s.tasks[u] && s'.bit[u] == s.bit[u] && s'.queue[u] == s.queue[u])
    && (forall f :: 0 <= f < |c.task| && c.task[f] != t ==>
          && s'.at[f] == s.at[f] && s'.restored[f] == s.restored[f] && s'.received[f] == s.received[f]
          && s'.plants[f] == s.plants[f] && (f in s'.sent <==> f in s.sent) && SameDone(c, s, s', f))
  }

  ghost predicate Begins(s: State, s': State, d: nat)
    requires d < |s.at| == |s'.at|
  {
    s'.at[d] != s.at[d]
  }

  /** Whom `t` has to tell about its phases it is still going to tell. */
  ghost predicate Tells(c: Config, s: State, s': State, t: nat)
    requires Shape(c, s) && Shape(c, s') && t < |s.tasks|
  {
    && (forall u :: 0 <= u < |s.tasks| && u != t && TellsLater(c, s, t, u) ==>
          TellsLater(c, s', t, u) || SenderTo(s', u))
    && (forall d :: 0 <= d < |c.task| && c.task[d] == t && Begins(s, s', d) ==>
          s'.at[d] == s.at[d] + 1 && ActsFor(s', t, d) && s'.tasks[t].pc.pos == 0)
  }

  ghost predicate Local(c: Config, s: State, s': State, t: nat) { Frame(c, s, s', t) && Tells(c, s, s', t) }

  /** A step of a task that is in no phase, before and after. */
  lemma {:induction false} NothingToTell(c: Config, s: State, s': State, t: nat)
    requires Frame(c, s, s', t) && !Acts?(s.tasks[t].pc) && s'.at == s.at
    ensures Local(c, s, s', t)
  {
  }

  lemma {:induction false} LocalTold(c: Config, s: State, s': State, t: nat, u: nat)
    requires Inv(c, s) && Local(c, s, s', t) && u < |s.tasks| && u != t
    ensures Told(s, u) ==> Told(s', u)
    ensures WillBeTold(c, s, u) ==> WillBeTold(c, s', u)
  {
    if SenderTo(s, u) {
      var v :| 0 <= v < |s.tasks| && s.tasks[v].pc.SetBit? && s.tasks[v].pc.to == u;
      assert s'.tasks[v] == s.tasks[v];
    }
    if v :| 0 <= v < |s.tasks| && TellsLater(c, s, v, u) {
      if v != t {
        assert ListOk(c, s, v);
        SameTells(c, s, s', v, u);
      }
    }
  }

  /** A task other than `t` goes on with its phase. */
  lemma {:induction false} SameTells(c: Config, s: State, s': State, v: nat, u: nat)
    requires v < |s.tasks| == |s'.tasks| && s'.tasks[v] == s.tasks[v] && |s'.at| == |s.at|
    requires TellsLater(c, s, v, u) && s'.at[s.tasks[v].todo[0]] == s.at[s.tasks[v].todo[0]]
    ensures TellsLater(c, s', v, u)
  {
  }

  lemma {:induction false} NeedsAre(c: Config, m: nat, p: nat)
    requires WellFormed(c) && HasPhase(c, m, p)
    ensures NeedsOk(c, m, c.phases[m][p].needs)
  {
    assert PhaseOk(c, m, p);
  }

  /** Only what `t` has just begun can end a wait of another task, and then `t` is going to tell it. */
  lemma {:induction false} LocalMet(c: Config, s: State, s': State, t: nat, g: nat)
    requires Local(c, s, s', t) && g < |c.task| && c.task[g] != t && s.at[g] < |c.phases[g]|
    requires Met(s', c.phases[g][s.at[g]].needs) && !Met(s, c.phases[g][s.at[g]].needs)
    ensures WillBeTold(c, s', c.task[g])
  {
    var w := c.phases[g][s.at[g]].needs;
    NeedsAre(c, g, s.at[g]);
    assert forall d :: d in w.restored ==> s.restored[d] == s'.restored[d];
    var e :| e in w.begun && s.at[e.0] <= e.1;
    assert Begins(s, s', e.0);
    JustTells(c, s', t, e.0, c.task[g]);
  }

  /** A phase that has just begun is going to tell everybody that it has to. */
  lemma {:induction false} JustTells(c: Config, s: State, t: nat, d: nat, u: nat)
    requires t < |s.tasks| && ActsFor(s, t, d) && s.tasks[t].pc.pos == 0 && d < |s.at| && s.at[d] > 0
    requires HasPhase(c, d, s.at[d] - 1) && Tell(u) in Acts(c, d, s.at[d] - 1) && u < |s.bit|
    ensures TellsLater(c, s, t, u) && WillBeTold(c, s, u)
  {
    assert Acts(c, d, s.at[d] - 1)[0..] == Acts(c, d, s.at[d] - 1);
    assert TellsLater(c, s, t, u);
  }

  lemma {:induction false} LocalLeft(c: Config, s: State, s': State, t: nat, u: nat, g: nat)
    requires Inv(c, s) && Local(c, s, s', t) && u < |s.tasks| && u != t && LeftBehind(c, s, u, g) && c.task[g] == u
    ensures LeftBehind(c, s', u, g)
  {
    LocalTold(c, s, s', t, u);
    if Master?(c, g) && Met(s', c.phases[g][s.at[g]].needs) && !Met(s, c.phases[g][s.at[g]].needs) {
      LocalMet(c, s, s', t, g);
    }
  }

  lemma {:induction false} LocalQuiet(c: Config, s: State, s': State, t: nat, u: nat)
    requires Inv(c, s) && Local(c, s, s', t) && u < |s.tasks| && u != t
    ensures QuietOk(c, s', u)
  {
    assert QuietOk(c, s, u) && ListOk(c, s, u);
    if Quiet(s', u) {
      assert Quiet(s, u);
      forall g | g in s'.tasks[u].kept
        ensures LeftBehind(c, s', u, g)
      {
        assert LeftBehind(c, s, u, g);
        LocalLeft(c, s, s', t, u, g);
      }
    }
  }

  lemma {:induction false} LocalSleep(c: Config, s: State, s': State, t: nat, u: nat)
    requires Inv(c, s) && Frame(c, s, s', t) && u < |s.tasks| && u != t
    ensures SleepOk(s', u)
  {
    assert SleepOk(s, u);
    if s'.tasks[u].pc.Sleep? && s'.bit[u] {
      var v :| 0 <= v < |s.tasks| && s.tasks[v].pc.Waking? && s.tasks[v].pc.to == u;
      assert s'.tasks[v] == s.tasks[v];
    }
  }

  lemma {:induction false} LocalOther(c: Config, s: State, s': State, t: nat, u: nat)
    requires Inv(c, s) && Frame(c, s, s', t) && u < |s.tasks| && u != t
    ensures ListOk(c, s', u) && QueueOk(c, s', u)
  {
    assert ListOk(c, s, u) && QueueOk(c, s, u);
    forall i | 0 <= i < |s'.queue[u]|
      ensures MsgOk(c, s', u, s'.queue[u][i])
    {
      assert MsgOk(c, s, u, s.queue[u][i]);
    }
  }

  lemma {:induction false} LocalEntry(c: Config, s: State, s': State, t: nat, f: nat)
    requires Inv(c, s) && Frame(c, s, s', t) && f < |c.task| && c.task[f] != t
    ensures EntryOk(c, s', f)
  {
    assert EntryOk(c, s, f) && SameDone(c, s, s', f);
  }

  /** What is left to show about task `t` itself after a local step. */
  ghost predicate OwnOk(c: Config, s: State, t: nat)
    requires Shape(c, s) && t < |s.tasks|
  {
    && ListOk(c, s, t) && QueueOk(c, s, t) && QuietOk(c, s, t) && SleepOk(s, t)
    && (forall f :: 0 <= f < |c.task| && c.task[f] == t ==> EntryOk(c, s, f))
  }

  lemma {:induction false} LocalInv(c: Config, s: State, s': State, t: nat)
    requires Inv(c, s) && Local(c, s, s', t) && !s'.bad && OwnOk(c, s', t)
    ensures Inv(c, s')
  {
    forall u | 0 <= u < |s'.tasks|
      ensures ListOk(c, s', u) && QueueOk(c, s', u) && QuietOk(c, s', u) && SleepOk(s', u)
    {
      if u != t {
        LocalOther(c, s, s', t, u);
        LocalQuiet(c, s, s', t, u);
        LocalSleep(c, s, s', t, u);
      }
    }
    forall f | 0 <= f < |c.task|
      ensures EntryOk(c, s', f)
    {
      if c.task[f] != t {
        LocalEntry(c, s, s', t, f);
      }
    }
  }

  // ---- A task that only moves ----

  /** Nobody has begun or acted: what was done stays done. */
  lemma {:induction false} SameActs(c: Config, s: State, s': State, t: nat, f: nat)
    requires Shape(c, s) && Shape(c, s') && t < |s.tasks| && f < |c.task| && s'.at == s.at
    requires !Acts?(s.tasks[t].pc) && !Acts?(s'.tasks[t].pc)
    requires forall u :: 0 <= u < |s.tasks| && u != t ==> s'.tasks[u] == s.tasks[u]
    ensures SameDone(c, s, s', f)
  {
  }

  lemma {:induction false} SameEntry(c: Config, s: State, s': State, f: nat)
    requires Shape(c, s) && Shape(c, s') && f < |c.task| && EntryOk(c, s, f) && SameDone(c, s, s', f)
    requires s'.at[f] == s.at[f] && s'.restored[f] == s.restored[f] && s'.received[f] == s.received[f]
    requires s'.plants[f] == s.plants[f] && (f in s'.sent <==> f in s.sent) && s'.queue == s.queue
    ensures EntryOk(c, s', f)
  {
  }

  /** A step that moves only the task itself, which is in no phase. */
  lemma {:induction false} PlainInv(c: Config, s: State, s': State, t: nat)
    requires Inv(c, s) && Shape(c, s') && t < |s.tasks| && !Acts?(s.tasks[t].pc) && !Acts?(s'.tasks[t].pc)
    requires s' == s.(tasks := s.tasks[t := s'.tasks[t]], bit := s.bit[t := s'.bit[t]])
    requires ListOk(c, s', t) && QuietOk(c, s', t) && SleepOk(s', t)
    ensures Inv(c, s')
  {
    PlainFrame(c, s, s', t);
    NothingToTell(c, s, s', t);
    PlainOwn(c, s, s', t);
    LocalInv(c, s, s', t);
  }

  lemma {:induction false} PlainFrame(c: Config, s: State, s': State, t: nat)
    requires Shape(c, s) && Shape(c, s') && t < |s.tasks| && !Acts?(s.tasks[t].pc) && !Acts?(s'.tasks[t].pc)
    requires s' == s.(tasks := s.tasks[t := s'.tasks[t]], bit := s.bit[t := s'.bit[t]])
    ensures Frame(c, s, s', t)
  {
    forall f | 0 <= f < |c.task|
      ensures SameDone(c, s, s', f)
    {
      SameActs(c, s, s', t, f);
    }
  }

  lemma {:induction false} PlainOwn(c: Config, s: State, s': State, t: nat)
    requires Inv(c, s) && Shape(c, s') && t < |s.tasks| && !Acts?(s.tasks[t].pc) && !Acts?(s'.tasks[t].pc)
    requires s' == s.(tasks := s.tasks[t := s'.tasks[t]], bit := s.bit[t := s'.bit[t]])
    requires ListOk(c, s', t) && QuietOk(c, s', t) && SleepOk(s', t)
    ensures OwnOk(c, s', t)
  {
    assert QueueOk(c, s, t);
    forall i | 0 <= i < |s'.queue[t]|
      ensures MsgOk(c, s', t, s'.queue[t][i])
    {
      assert MsgOk(c, s, t, s.queue[t][i]);
    }
    forall f | 0 <= f < |c.task| && c.task[f] == t
      ensures EntryOk(c, s', f)
    {
      assert EntryOk(c, s, f);
      SameActs(c, s, s', t, f);
      SameEntry(c, s, s', f);
    }
  }

  /** Whoever tells a task that is in no phase is another task. */
  lemma {:induction false} StillTold(c: Config, s: State, s': State, t: nat)
    requires |s.tasks| == |s'.tasks| == |s.bit| == |s'.bit| && t < |s.tasks| && !Acts?(s.tasks[t].pc)
    requires s'.bit[t] == s.bit[t] && forall u :: 0 <= u < |s.tasks| && u != t ==> s'.tasks[u] == s.tasks[u]
    requires s'.at == s.at
    ensures Told(s, t) ==> Told(s', t)
    ensures WillBeTold(c, s, t) ==> WillBeTold(c, s', t)
  {
    if SenderTo(s, t) {
      var v :| 0 <= v < |s.tasks| && s.tasks[v].pc.SetBit? && s.tasks[v].pc.to == t;
      assert s'.tasks[v] == s.tasks[v];
    }
    if v :| 0 <= v < |s.tasks| && TellsLater(c, s, v, t) {
      SameTells(c, s, s', v, t);
    }
  }

  /** A task that only changes its waiting position keeps what it knows about the entries it left behind. */
  lemma {:induction false} QuietSelf(c: Config, s: State, s': State, t: nat)
    requires Shape(c, s) && Shape(c, s') && t < |s.tasks| && QuietOk(c, s, t)
    requires s' == s.(tasks := s.tasks[t := s'.tasks[t]], bit := s'.bit)
    requires s'.tasks[t].kept == s.tasks[t].kept && s'.tasks[t].progress == s.tasks[t].progress
    requires s.tasks[t].pc.Visit? || s.tasks[t].pc.Wait? || s.tasks[t].pc.Sleep?
    requires !Acts?(s'.tasks[t].pc) && (s'.bit == s.bit || s'.tasks[t].pc.PassStart?)
    ensures QuietOk(c, s', t)
  {
    if Quiet(s', t) {
      StillTold(c, s, s', t);
      forall g | g in s'.tasks[t].kept
        ensures LeftBehind(c, s', t, g)
      {
        assert LeftBehind(c, s, t, g);
      }
    }
  }

  lemma {:induction false} StartPassInv(c: Config, s: State, s': State, t: nat)
    requires Inv(c, s) && NextStep(c, s, s', StartPass(t))
    ensures Inv(c, s')
  {
    assert ListOk(c, s, t);
    assert s.tasks[t].todo + s.tasks[t].kept == s.tasks[t].kept == s.tasks[t].kept + [];
    PlainInv(c, s, s', t);
  }

  lemma {:induction false} WaitingInv(c: Config, s: State, s': State, t: nat, step: Step)
    requires Inv(c, s) && NextStep(c, s, s', step) && (step == TestEvent(t) || step == TimeOut(t))
    ensures Inv(c, s')
  {
    assert ListOk(c, s, t) && QuietOk(c, s, t);
    QuietSelf(c, s, s', t);
    PlainInv(c, s, s', t);
  }

  lemma {:induction false} EndPassInv(c: Config, s: State, t: nat)
    requires Inv(c, s) && t < |s.tasks| && s.tasks[t].pc.Visit? && s.tasks[t].todo == []
    ensures Inv(c, EndPass(s, t))
  {
    assert ListOk(c, s, t) && QuietOk(c, s, t);
    QuietSelf(c, s, EndPass(s, t), t);
    PlainInv(c, s, EndPass(s, t), t);
  }

  // ---- Leaving the head of the sweep ----

  /** The task is in no phase, or at the end of one. */
  ghost predicate AtEnd(c: Config, s: State, t: nat)
    requires t < |s.tasks|
  {
    s.tasks[t].pc.Visit? || (InPhase(c, s, t) && s.tasks[t].pc.pos >= |ActsOf(c, s, t)|)
  }

  lemma {:induction false} EndSame(c: Config, s: State, s': State, t: nat, f: nat)
    requires Shape(c, s) && Shape(c, s') && t < |s.tasks| && f < |c.task| && s'.at == s.at
    requires AtEnd(c, s, t) && s'.tasks[t].pc.Visit? && (s.tasks[t].pc.Acting? ==> c.task[s.tasks[t].todo[0]] == t)
    requires forall u :: 0 <= u < |s.tasks| && u != t ==> s'.tasks[u] == s.tasks[u]
    ensures SameDone(c, s, s', f)
  {
    assert SourceOk(c, f);
  }

  /** Nobody is left to be told. */
  lemma {:induction false} EndTells(c: Config, s: State, s': State, t: nat)
    requires Frame(c, s, s', t) && AtEnd(c, s, t) && s'.at == s.at
    ensures Local(c, s, s', t)
  {
  }

  lemma {:induction false} EndTold(c: Config, s: State, s': State, t: nat)
    requires |s.tasks| == |s'.tasks| == |s.bit| == |s'.bit| && t < |s.tasks| && AtEnd(c, s, t)
    requires s'.bit[t] == s.bit[t] && forall u :: 0 <= u < |s.tasks| && u != t ==> s'.tasks[u] == s.tasks[u]
    requires s'.at == s.at
    ensures Told(s, t) ==> Told(s', t)
    ensures WillBeTold(c, s, t) ==> WillBeTold(c, s', t)
  {
    if SenderTo(s, t) {
      var v :| 0 <= v < |s.tasks| && s.tasks[v].pc.SetBit? && s.tasks[v].pc.to == t;
      assert s'.tasks[v] == s.tasks[v];
    }
    if v :| 0 <= v < |s.tasks| && TellsLater(c, s, v, t) {
      assert v != t;
      SameTells(c, s, s', v, t);
    }
  }

  /** The head of the sweep is an unrestored entry of the task, and taking it off keeps the rest distinct. */
  lemma {:induction false} HeadOk(c: Config, s: State, t: nat)
    requires Inv(c, s) && t < |s.tasks| && s.tasks[t].todo != []
    ensures var f := s.tasks[t].todo[0];
            && f < |c.task| && c.task[f] == t && !s.restored[f]
            && f !in s.tasks[t].todo[1..] && f !in s.tasks[t].kept
            && Distinct(s.tasks[t].todo[1..] + s.tasks[t].kept)
            && Distinct(s.tasks[t].todo[1..] + (s.tasks[t].kept + [f]))
  {
    assert ListOk(c, s, t);
    var todo, kept := s.tasks[t].todo, s.tasks[t].kept;
    var all := todo + kept;
    var f := todo[0];
    assert f in todo && all[0] == f;
    forall x | x in todo[1..]
      ensures x != f
    {
      var i :| 0 <= i < |todo| - 1 && todo[1..][i] == x;
      assert all[i + 1] == x;
    }
    forall x | x in kept
      ensures x != f
    {
      var i :| 0 <= i < |kept| && kept[i] == x;
      assert all[|todo| + i] == x;
    }
    assert todo[1..] + kept == all[1..];
    assert todo[1..] + (kept + [f]) == all[1..] + [f];
  }

  /** A step after which the head of the sweep is left. */
  ghost predicate Leaves(c: Config, s: State, s': State, t: nat) {
    && Shape(c, s) && Shape(c, s') && t < |s.tasks| && AtEnd(c, s, t) && s.tasks[t].todo != []
    && s.tasks[t].todo[0] < |c.task| && c.task[s.tasks[t].todo[0]] == t
    && s' == s.(tasks := s.tasks[t := s'.tasks[t]],
                restored := s.restored[s.tasks[t].todo[0] := s'.restored[s.tasks[t].todo[0]]])
    && s'.tasks[t].pc.Visit?
  }

  lemma {:induction false} LeavesLocal(c: Config, s: State, s': State, t: nat)
    requires Leaves(c, s, s', t)
    ensures Local(c, s, s', t)
  {
    forall f | 0 <= f < |c.task|
      ensures SameDone(c, s, s', f)
    {
      EndSame(c, s, s', t, f);
    }
    EndTells(c, s, s', t);
  }

  lemma {:induction false} LeavesEntries(c: Config, s: State, s': State, t: nat)
    requires Inv(c, s) && Leaves(c, s, s', t)
    requires var f := s.tasks[t].todo[0];
      s'.restored[f] ==> s.at[f] == |c.phases[f]| && (c.source[f].From? ==> s.received[f])
    ensures QueueOk(c, s', t)
    ensures forall f :: 0 <= f < |c.task| && c.task[f] == t ==> EntryOk(c, s', f)
  {
    assert QueueOk(c, s, t);
    forall i | 0 <= i < |s'.queue[t]|
      ensures MsgOk(c, s', t, s'.queue[t][i])
    {
      assert MsgOk(c, s, t, s.queue[t][i]);
    }
    forall f | 0 <= f < |c.task| && c.task[f] == t
      ensures EntryOk(c, s', f)
    {
      assert EntryOk(c, s, f);
      EndSame(c, s, s', t, f);
    }
  }

  lemma {:induction false} LeavesInv(c: Config, s: State, s': State, t: nat)
    requires Inv(c, s) && Leaves(c, s, s', t) && ListOk(c, s', t) && QuietOk(c, s', t)
    requires var f := s.tasks[t].todo[0];
      s'.restored[f] ==> s.at[f] == |c.phases[f]| && (c.source[f].From? ==> s.received[f])
    ensures Inv(c, s')
  {
    LeavesLocal(c, s, s', t);
    LeavesEntries(c, s, s', t);
    LocalInv(c, s, s', t);
  }

  lemma {:induction false} CompleteList(c: Config, s: State, t: nat, f: nat)
    requires Inv(c, s) && t < |s.tasks| && s.tasks[t].todo != [] && f == s.tasks[t].todo[0] < |c.task|
    requires s.tasks[t].pc.Visit? || s.tasks[t].pc.Acting?
    ensures ListOk(c, Complete(s, t, f), t)
  {
    HeadOk(c, s, t);
    assert ListOk(c, s, t);
    var s', todo, kept := Complete(s, t, f), s.tasks[t].todo, s.tasks[t].kept;
    forall x: nat
      ensures (x in todo[1..] || x in kept) <==> x < |c.task| && c.task[x] == t && !s'.restored[x]
    {
      assert x in todo <==> x == f || x in todo[1..];
    }
    assert s'.tasks[t].todo == todo[1..] && s'.tasks[t].kept == kept && s'.tasks[t].pc == Visit;
  }

  lemma {:induction false} CompleteInv(c: Config, s: State, t: nat, f: nat)
    requires Inv(c, s) && t < |s.tasks| && AtEnd(c, s, t)
    requires s.tasks[t].todo != [] && f == s.tasks[t].todo[0] < |c.task|
    requires s.at[f] == |c.phases[f]| && (c.source[f].From? ==> s.received[f])
    ensures Inv(c, Complete(s, t, f))
  {
    HeadOk(c, s, t);
    CompleteList(c, s, t, f);
    LeavesInv(c, s, Complete(s, t, f), t);
  }

  lemma {:induction false} KeepList(c: Config, s: State, t: nat, f: nat, progress: bool)
    requires Inv(c, s) && t < |s.tasks| && (s.tasks[t].pc.Visit? || s.tasks[t].pc.Acting?)
    requires s.tasks[t].todo != [] && f == s.tasks[t].todo[0] < |c.task|
    ensures ListOk(c, Keep(s, t, f, progress), t)
  {
    HeadOk(c, s, t);
    var s' := Keep(s, t, f, progress);
    assert ListOk(c, s, t);
    var todo, kept := s.tasks[t].todo, s.tasks[t].kept;
    assert forall x :: x in todo <==> x == f || x in todo[1..];
    assert forall x :: x in s'.tasks[t].kept <==> x == f || x in kept;
  }

  lemma {:induction false} KeepQuiet(c: Config, s: State, t: nat, f: nat, progress: bool)
    requires Inv(c, s) && t < |s.tasks| && AtEnd(c, s, t) && (s.tasks[t].pc.Visit? || progress)
    requires s.tasks[t].todo != [] && f == s.tasks[t].todo[0] < |c.task|
    requires !progress ==> LeftBehind(c, s, t, f)
    ensures QuietOk(c, Keep(s, t, f, progress), t)
  {
    var s' := Keep(s, t, f, progress);
    assert QuietOk(c, s, t);
    if Quiet(s', t) {
      EndTold(c, s, s', t);
      forall g | g in s'.tasks[t].kept
        ensures LeftBehind(c, s', t, g)
      {
        assert g == f || g in s.tasks[t].kept;
        assert LeftBehind(c, s, t, g);
      }
    }
  }

  lemma {:induction false} KeepInv(c: Config, s: State, t: nat, f: nat, progress: bool)
    requires Inv(c, s) && t < |s.tasks| && AtEnd(c, s, t) && (s.tasks[t].pc.Visit? || progress)
    requires s.tasks[t].todo != [] && f == s.tasks[t].todo[0] < |c.task|
    requires !progress ==> LeftBehind(c, s, t, f)
    ensures Inv(c, Keep(s, t, f, progress))
  {
    HeadOk(c, s, t);
    KeepList(c, s, t, f, progress);
    KeepQuiet(c, s, t, f, progress);
    LeavesInv(c, s, Keep(s, t, f, progress), t);
  }

  /** A phase after the first ends and the entry stays at the head of the sweep. */
  lemma {:induction false} StayInv(c: Config, s: State, t: nat)
    requires Inv(c, s) && t < |s.tasks| && s.tasks[t].pc.Acting? && AtEnd(c, s, t)
    requires s.at[s.tasks[t].todo[0]] > 1
    ensures Inv(c, SetTask(s, t, s.tasks[t].(pc := Visit)))
  {
    var s' := SetTask(s, t, s.tasks[t].(pc := Visit));
    HeadOk(c, s, t);
    assert ListOk(c, s, t) && QuietOk(c, s, t);
    if Quiet(s', t) {
      EndTold(c, s, s', t);
      forall g | g in s'.tasks[t].kept
        ensures LeftBehind(c, s', t, g)
      {
        assert LeftBehind(c, s, t, g);
      }
    }
    LeavesInv(c, s, s', t);
  }

  lemma {:induction false} EndStepInv(c: Config, s: State, s': State, t: nat)
    requires Inv(c, s) && NextStep(c, s, s', EndStep(t))
    ensures Inv(c, s')
  {
    var m := s.tasks[t].todo[0];
    assert ListOk(c, s, t) && EntryOk(c, s, m);
    if s.at[m] == |c.phases[m]| {
      CompleteInv(c, s, t, m);
    } else if s.at[m] == 1 {
      KeepInv(c, s, t, m, true);
    } else {
      StayInv(c, s, t);
    }
  }

  // ---- Receiving ----

  /** The first message is for an entry of this task that still waits for it. */
  lemma {:induction false} FirstMsg(c: Config, s: State, t: nat)
    requires Inv(c, s) && t < |s.tasks| && s.queue[t] != []
    ensures
      var msg, k := s.queue[t][0], s.tasks[t];
      MsgOk(c, s, t, msg) && !s.restored[msg.fle] && (msg.fle in k.todo || msg.fle in k.kept)
  {
    assert QueueOk(c, s, t) && ListOk(c, s, t);
    assert MsgOk(c, s, t, s.queue[t][0]);
    assert EntryOk(c, s, s.queue[t][0].fle);
  }

  /** A message taken out of a queue leaves the others in it. */
  lemma {:induction false} RestOfQueue(q: seq<Msg>, h: nat)
    requires q != []
    ensures InQueue(q[1..], h) ==> InQueue(q, h)
    ensures InQueue(q, h) ==> InQueue(q[1..], h) || h == q[0].fle
  {
    if InQueue(q[1..], h) {
      var i :| 0 <= i < |q[1..]| && q[1..][i].fle == h;
      assert q[i + 1].fle == h;
    }
    if InQueue(q, h) {
      var i :| 0 <= i < |q| && q[i].fle == h;
      assert i > 0 ==> q[1..][i - 1].fle == h;
    }
  }

  lemma {:induction false} PlantQueue(c: Config, s: State, t: nat, f: nat)
    requires Inv(c, s) && t < |s.tasks| && s.tasks[t].todo != [] && s.queue[t] != []
    requires Shape(c, Receive(s, t, f)) && !Receive(s, t, f).bad
    ensures QueueOk(c, Receive(s, t, f), t)
  {
    var s' := Receive(s, t, f);
    var q, q' := s.queue[t], s'.queue[t];
    assert QueueOk(c, s, t);
    assert forall i :: 0 <= i < |q'| ==> q'[i] == q[i + 1];
    forall i | 0 <= i < |q'|
      ensures MsgOk(c, s', t, q'[i])
    {
      assert MsgOk(c, s, t, q[i + 1]) && q[0].fle != q[i + 1].fle;
    }
  }

  lemma {:induction false} PlantEntry(c: Config, s: State, t: nat, f: nat, h: nat)
    requires Inv(c, s) && t < |s.tasks| && s.tasks[t].todo != [] && s.queue[t] != []
    requires Shape(c, Receive(s, t, f)) && !Receive(s, t, f).bad && h < |c.task| && c.task[h] == t
    ensures EntryOk(c, Receive(s, t, f), h)
  {
    FirstMsg(c, s, t);
    RestOfQueue(s.queue[t], h);
    assert EntryOk(c, s, h);
  }

  lemma {:induction false} PlantQuiet(c: Config, s: State, t: nat, f: nat)
    requires Inv(c, s) && t < |s.tasks| && s.tasks[t].pc.Visit? && s.tasks[t].todo != [] && s.queue[t] != []
    requires Shape(c, Receive(s, t, f)) && !Receive(s, t, f).bad
    ensures QuietOk(c, Receive(s, t, f), t)
  {
    var s' := Receive(s, t, f);
    assert QuietOk(c, s, t);
    if Quiet(s', t) {
      StillTold(c, s, s', t);
      forall g | g in s'.tasks[t].kept
        ensures LeftBehind(c, s', t, g)
      {
        assert LeftBehind(c, s, t, g);
        RestOfQueue(s.queue[t], g);
        assert g == s.queue[t][0].fle ==> InQueue(s.queue[t], g);
      }
    }
  }

  lemma {:induction false} PlantLocal(c: Config, s: State, t: nat, f: nat)
    requires Inv(c, s) && t < |s.tasks| && s.tasks[t].pc.Visit? && s.tasks[t].todo != [] && s.queue[t] != []
    ensures !Receive(s, t, f).bad && Local(c, s, Receive(s, t, f), t)
  {
    FirstMsg(c, s, t);
    forall h | 0 <= h < |c.task|
      ensures SameDone(c, s, Receive(s, t, f), h)
    {
      SameActs(c, s, Receive(s, t, f), t, h);
    }
    NothingToTell(c, s, Receive(s, t, f), t);
  }

  lemma {:induction false} PlantInv(c: Config, s: State, t: nat, f: nat)
    requires Inv(c, s) && t < |s.tasks| && s.tasks[t].pc.Visit? && s.tasks[t].todo != [] && s.queue[t] != []
    ensures Inv(c, Receive(s, t, f))
  {
    var s' := Receive(s, t, f);
    PlantLocal(c, s, t, f);
    PlantQueue(c, s, t, f);
    PlantQuiet(c, s, t, f);
    assert ListOk(c, s, t) && ListOk(c, s', t) && SleepOk(s', t);
    forall h | 0 <= h < |c.task| && c.task[h] == t
      ensures EntryOk(c, s', h)
    {
      PlantEntry(c, s, t, f, h);
    }
    LocalInv(c, s, s', t);
  }

  // ---- Phases ----

  ghost predicate CanBegin(c: Config, s: State, t: nat, f: nat) {
    && Inv(c, s) && t < |s.tasks| && s.tasks[t].pc.Visit? && s.tasks[t].todo != [] && s.tasks[t].todo[0] == f
    && f < |c.task| && c.task[f] == t && s.at[f] < |c.phases[f]| && (c.source[f].From? ==> s.received[f])
  }

  lemma {:induction false} BeginSame(c: Config, s: State, t: nat, f: nat, h: nat)
    requires CanBegin(c, s, t, f) && h < |c.task|
    ensures SameDone(c, s, Begin(c, s, t, f), h)
  {
  }

  lemma {:induction false} BeginEntry(c: Config, s: State, t: nat, f: nat, h: nat)
    requires CanBegin(c, s, t, f) && h < |c.task| && c.task[h] == t
    ensures EntryOk(c, Begin(c, s, t, f), h)
  {
    assert EntryOk(c, s, h);
    HeadOk(c, s, t);
    BeginSame(c, s, t, f, h);
  }

  lemma {:induction false} BeginLocal(c: Config, s: State, t: nat, f: nat)
    requires CanBegin(c, s, t, f)
    ensures Local(c, s, Begin(c, s, t, f), t)
  {
    forall h | 0 <= h < |c.task|
      ensures SameDone(c, s, Begin(c, s, t, f), h)
    {
      BeginSame(c, s, t, f, h);
    }
  }

  lemma {:induction false} BeginLeft(c: Config, s: State, t: nat, f: nat, g: nat)
    requires CanBegin(c, s, t, f) && s.at[f] > 0 && LeftBehind(c, s, t, g) && c.task[g] == t && g != f
    ensures LeftBehind(c, Begin(c, s, t, f), t, g)
  {
    var s' := Begin(c, s, t, f);
    BeginTold(c, s, t, f);
    if Master?(c, g) && Met(s', c.phases[g][s.at[g]].needs) && !Met(s, c.phases[g][s.at[g]].needs) {
      var w := c.phases[g][s.at[g]].needs;
      NeedsAre(c, g, s.at[g]);
      var e :| e in w.begun && s.at[e.0] <= e.1;
      JustTells(c, s', t, f, t);
    }
  }

  lemma {:induction false} BeginTold(c: Config, s: State, t: nat, f: nat)
    requires CanBegin(c, s, t, f)
    ensures Told(s, t) ==> Told(Begin(c, s, t, f), t)
    ensures WillBeTold(c, s, t) ==> WillBeTold(c, Begin(c, s, t, f), t)
  {
    var s' := Begin(c, s, t, f);
    if SenderTo(s, t) {
      var v :| 0 <= v < |s.tasks| && s.tasks[v].pc.SetBit? && s.tasks[v].pc.to == t;
      assert s'.tasks[v] == s.tasks[v];
    }
    if v :| 0 <= v < |s.tasks| && TellsLater(c, s, v, t) {
      assert ListOk(c, s, v);
      SameTells(c, s, s', v, t);
    }
  }

  lemma {:induction false} BeginTask(c: Config, s: State, t: nat, f: nat)
    requires CanBegin(c, s, t, f)
    ensures ListOk(c, Begin(c, s, t, f), t) && QueueOk(c, Begin(c, s, t, f), t) && SleepOk(Begin(c, s, t, f), t)
  {
    var s' := Begin(c, s, t, f);
    assert ListOk(c, s, t) && QueueOk(c, s, t);
    forall i | 0 <= i < |s'.queue[t]|
      ensures MsgOk(c, s', t, s'.queue[t][i])
    {
      assert MsgOk(c, s, t, s.queue[t][i]);
    }
  }

  lemma {:induction false} BeginQuiet(c: Config, s: State, t: nat, f: nat)
    requires CanBegin(c, s, t, f)
    ensures QuietOk(c, Begin(c, s, t, f), t)
  {
    assert QuietOk(c, s, t) && ListOk(c, s, t);
    HeadOk(c, s, t);
    if Quiet(Begin(c, s, t, f), t) {
      forall g | g in s.tasks[t].kept
        ensures LeftBehind(c, Begin(c, s, t, f), t, g)
      {
        assert LeftBehind(c, s, t, g);
        BeginLeft(c, s, t, f, g);
      }
    }
  }

  lemma {:induction false} BeginInv(c: Config, s: State, t: nat, f: nat)
    requires CanBegin(c, s, t, f)
    ensures Inv(c, Begin(c, s, t, f))
  {
    var s' := Begin(c, s, t, f);
    BeginLocal(c, s, t, f);
    BeginTask(c, s, t, f);
    BeginQuiet(c, s, t, f);
    forall h | 0 <= h < |c.task| && c.task[h] == t
      ensures EntryOk(c, s', h)
    {
      BeginEntry(c, s, t, f, h);
    }
    LocalInv(c, s, s', t);
  }

  lemma {:induction false} NotQueued(c: Config, s: State, t: nat, f: nat)
    requires Inv(c, s) && t < |s.tasks| && f < |c.task| && HasFile(c, s, f)
    ensures !InQueue(s.queue[t], f)
  {
    assert QueueOk(c, s, t);
    assert forall i :: 0 <= i < |s.queue[t]| ==> MsgOk(c, s, t, s.queue[t][i]);
  }

  lemma {:induction false} VisitInv(c: Config, s: State, s': State, t: nat)
    requires Inv(c, s) && NextStep(c, s, s', VisitStep(t))
    ensures Inv(c, s')
  {
    if s.tasks[t].todo == [] {
      EndPassInv(c, s, t);
    } else {
      var f := s.tasks[t].todo[0];
      HeadOk(c, s, t);
      assert EntryOk(c, s, f);
      if c.source[f].From? && !s.received[f] {
        if s.queue[t] == [] {
          assert s.at[f] == 0;
          KeepInv(c, s, t, f, false);
        } else {
          PlantInv(c, s, t, f);
        }
      } else if s.at[f] >= |c.phases[f]| {
        CompleteInv(c, s, t, f);
      } else if !Met(s, c.phases[f][s.at[f]].needs) {
        NotQueued(c, s, t, f);
        KeepInv(c, s, t, f, false);
      } else {
        BeginInv(c, s, t, f);
      }
    }
  }

  // ---- Acts ----

  ghost predicate CanAct(c: Config, s: State, t: nat) {
    Inv(c, s) && InPhase(c, s, t) && s.tasks[t].pc.pos < |ActsOf(c, s, t)|
  }

  function NextAct(c: Config, s: State, t: nat): Act
    requires InPhase(c, s, t) && s.tasks[t].pc.pos < |ActsOf(c, s, t)|
  {
    ActsOf(c, s, t)[s.tasks[t].pc.pos]
  }

  lemma {:induction false} ActHere(c: Config, s: State, t: nat)
    requires CanAct(c, s, t)
    ensures
      var m := s.tasks[t].todo[0];
      m < |c.task| && c.task[m] == t && !s.restored[m] && ActOk(c, m, s.at[m] - 1, s.tasks[t].pc.pos)
  {
    HeadOk(c, s, t);
    assert PhaseOk(c, s.tasks[t].todo[0], s.at[s.tasks[t].todo[0]] - 1);
  }

  /** One act has been done and nothing has begun. */
  ghost predicate Acted(c: Config, s: State, s': State, t: nat) {
    && CanAct(c, s, t) && Shape(c, s') && s'.at == s.at && s'.restored == s.restored
    && (forall u :: 0 <= u < |s.tasks| && u != t ==> s'.tasks[u] == s.tasks[u])
    && s'.tasks[t] == s.tasks[t].(pc := s'.tasks[t].pc)
    && (s'.tasks[t].pc.Acting? || (s'.tasks[t].pc.SetBit? && s'.tasks[t].pc.to < |s.tasks| && s'.tasks[t].pc.to != t))
    && s'.tasks[t].pc.pos == s.tasks[t].pc.pos + 1
  }

  /** The entry that the act is for, and no other, now has what it does. */
  lemma {:induction false} ActedDone(c: Config, s: State, s': State, t: nat, f: nat)
    requires Acted(c, s, s', t) && f < |c.task|
    ensures NextAct(c, s, t) !in {Dup(f), Send(f)} ==> SameDone(c, s, s', f)
    ensures NextAct(c, s, t) in {Dup(f), Send(f)} ==>
      var m := s.tasks[t].todo[0];
      && c.source[f] == From(m, s.at[m] - 1, s.tasks[t].pc.pos)
      && !ActDone(c, s, m, s.at[m] - 1, s.tasks[t].pc.pos) && ActDone(c, s', m, s.at[m] - 1, s.tasks[t].pc.pos)
  {
    ActHere(c, s, t);
    assert SourceOk(c, f);
  }

  lemma {:induction false} ActedTells(c: Config, s: State, s': State, t: nat, u: nat)
    requires Acted(c, s, s', t) && TellsLater(c, s, t, u) && NextAct(c, s, t) != Tell(u)
    ensures TellsLater(c, s', t, u)
  {
    var acts, pos := ActsOf(c, s, t), s.tasks[t].pc.pos;
    assert acts[pos..] == [acts[pos]] + acts[pos + 1..];
  }

  /** What others are told, and what `t` itself is told by others or later, stays. */
  lemma {:induction false} ActedTold(c: Config, s: State, s': State, t: nat, u: nat)
    requires Acted(c, s, s', t) && u < |s.tasks| && (s.bit[u] ==> s'.bit[u])
    ensures Told(s, u) ==> Told(s', u)
    ensures WillBeTold(c, s, u) && NextAct(c, s, t) != Tell(u) ==> WillBeTold(c, s', u)
  {
    if SenderTo(s, u) {
      var v :| 0 <= v < |s.tasks| && s.tasks[v].pc.SetBit? && s.tasks[v].pc.to == u;
      assert s'.tasks[v] == s.tasks[v];
    }
    if NextAct(c, s, t) != Tell(u) {
      if v :| 0 <= v < |s.tasks| && TellsLater(c, s, v, u) {
        if v == t {
          ActedTells(c, s, s', t, u);
        } else {
          SameTells(c, s, s', v, u);
        }
      }
    }
  }

  lemma {:induction false} ActedList(c: Config, s: State, s': State, t: nat, u: nat)
    requires Acted(c, s, s', t) && u < |s.tasks|
    ensures ListOk(c, s', u)
  {
    assert ListOk(c, s, u);
    assert u != t ==> s'.tasks[u] == s.tasks[u];
  }

  lemma {:induction false} ActedSleep(c: Config, s: State, s': State, t: nat, u: nat)
    requires Acted(c, s, s', t) && u < |s.tasks| && (u == t || s'.bit[u] == s.bit[u])
    ensures SleepOk(s', u)
  {
    assert SleepOk(s, u);
    if s'.tasks[u].pc.Sleep? && s'.bit[u] {
      var v :| 0 <= v < |s.tasks| && s.tasks[v].pc.Waking? && s.tasks[v].pc.to == u;
      assert s'.tasks[v] == s.tasks[v];
    }
  }

  /** An act for nobody but the task itself, or that only tells. */
  lemma {:induction false} ActedLocal(c: Config, s: State, s': State, t: nat)
    requires Acted(c, s, s', t)
    requires forall u :: 0 <= u < |s.tasks| && u != t ==> s'.bit[u] == s.bit[u] && s'.queue[u] == s.queue[u]
    requires forall f :: 0 <= f < |c.task| && c.task[f] != t ==>
               && s'.received[f] == s.received[f] && s'.plants[f] == s.plants[f] && (f in s'.sent <==> f in s.sent)
               && NextAct(c, s, t) !in {Dup(f), Send(f)}
    requires forall u :: 0 <= u < |s.tasks| && u != t && NextAct(c, s, t) == Tell(u) ==> SenderTo(s', u)
    ensures Local(c, s, s', t)
  {
    forall f | 0 <= f < |c.task| && c.task[f] != t
      ensures SameDone(c, s, s', f)
    {
      ActedDone(c, s, s', t, f);
    }
    forall u | 0 <= u < |s.tasks| && u != t && TellsLater(c, s, t, u)
      ensures TellsLater(c, s', t, u) || SenderTo(s', u)
    {
      if NextAct(c, s, t) != Tell(u) {
        ActedTells(c, s, s', t, u);
      }
    }
  }

  lemma {:induction false} LeftSame(c: Config, s: State, s': State, t: nat, g: nat)
    requires Shape(c, s) && Shape(c, s') && t < |s.tasks| && LeftBehind(c, s, t, g)
    requires s'.at == s.at && s'.restored == s.restored
    requires (HasFile(c, s', g) ==> HasFile(c, s, g)) && (InQueue(s'.queue[t], g) ==> InQueue(s.queue[t], g))
    requires (Told(s, t) ==> Told(s', t)) && (WillBeTold(c, s, t) ==> WillBeTold(c, s', t))
    ensures LeftBehind(c, s', t, g)
  {
  }

  /** Once its own bit is set, a task knows nothing that it could miss. */
  lemma {:induction false} LeftTold(c: Config, s: State, s': State, t: nat, g: nat)
    requires Shape(c, s) && Shape(c, s') && t < |s.tasks| && LeftBehind(c, s, t, g) && s'.at == s.at && Told(s', t)
    ensures LeftBehind(c, s', t, g)
  {
  }

  lemma {:induction false} SameQueue(c: Config, s: State, s': State, t: nat)
    requires Shape(c, s) && Shape(c, s') && t < |s.tasks| && QueueOk(c, s, t) && s'.queue[t] == s.queue[t]
    requires s.sent <= s'.sent && forall f :: 0 <= f < |c.task| && f in s.sent ==> s'.received[f] == s.received[f]
    ensures QueueOk(c, s', t)
  {
    forall i | 0 <= i < |s'.queue[t]|
      ensures MsgOk(c, s', t, s'.queue[t][i])
    {
      assert MsgOk(c, s, t, s.queue[t][i]);
    }
  }

  // ---- Telling ----

  lemma {:induction false} TellEntry(c: Config, s: State, t: nat, h: nat)
    requires CanAct(c, s, t) && NextAct(c, s, t).Tell? && h < |c.task|
    ensures EntryOk(c, DoAct(c, s, t), h)
  {
    ActHere(c, s, t);
    assert EntryOk(c, s, h);
    ActedDone(c, s, DoAct(c, s, t), t, h);
    SameEntry(c, s, DoAct(c, s, t), h);
  }

  lemma {:induction false} TellQuiet(c: Config, s: State, t: nat)
    requires CanAct(c, s, t) && NextAct(c, s, t).Tell?
    ensures QuietOk(c, DoAct(c, s, t), t)
  {
    var s' := DoAct(c, s, t);
    ActHere(c, s, t);
    assert QuietOk(c, s, t);
    ActedTold(c, s, s', t, t);
    if Quiet(s', t) {
      forall g | g in s'.tasks[t].kept
        ensures LeftBehind(c, s', t, g)
      {
        assert LeftBehind(c, s, t, g);
        if NextAct(c, s, t) == Tell(t) {
          LeftTold(c, s, s', t, g);
        } else {
          LeftSame(c, s, s', t, g);
        }
      }
    }
  }

  lemma {:induction false} TellLocal(c: Config, s: State, t: nat)
    requires CanAct(c, s, t) && NextAct(c, s, t).Tell?
    ensures Acted(c, s, DoAct(c, s, t), t) && Local(c, s, DoAct(c, s, t), t)
  {
    var s' := DoAct(c, s, t);
    ActHere(c, s, t);
    if NextAct(c, s, t) != Tell(t) {
      assert s'.tasks[t].pc.SetBit? && NextAct(c, s, t) == Tell(s'.tasks[t].pc.to);
      assert SenderTo(s', s'.tasks[t].pc.to);
    }
    ActedLocal(c, s, s', t);
  }

  lemma {:induction false} TellInv(c: Config, s: State, t: nat)
    requires CanAct(c, s, t) && NextAct(c, s, t).Tell?
    ensures Inv(c, DoAct(c, s, t))
  {
    var s' := DoAct(c, s, t);
    TellLocal(c, s, t);
    TellQuiet(c, s, t);
    ActedList(c, s, s', t, t);
    ActedSleep(c, s, s', t, t);
    SameQueue(c, s, s', t);
    forall h | 0 <= h < |c.task| && c.task[h] == t
      ensures EntryOk(c, s', h)
    {
      TellEntry(c, s, t, h);
    }
    LocalInv(c, s, s', t);
  }

  // ---- Giving an entry its file ----

  /** The entry that is given its file has not been given it before. */
  lemma {:induction false} NotGivenYet(c: Config, s: State, t: nat, g: nat)
    requires CanAct(c, s, t) && NextAct(c, s, t) in {Dup(g), Send(g)}
    ensures
      && g < |c.task| && c.source[g].From? && g !in s.sent && !s.received[g] && s.plants[g] == []
      && s.at[g] == 0 && !s.restored[g] && (NextAct(c, s, t).Dup? ==> c.task[g] == t && s.at[s.tasks[t].todo[0]] == 1)
  {
    ActHere(c, s, t);
    assert EntryOk(c, s, g);
  }

  lemma {:induction false} DupEntry(c: Config, s: State, t: nat, g: nat, h: nat)
    requires CanAct(c, s, t) && NextAct(c, s, t) == Dup(g) && h < |c.task| && c.task[h] == t
    ensures EntryOk(c, DoAct(c, s, t), h)
  {
    NotGivenYet(c, s, t, g);
    assert EntryOk(c, s, h);
    ActedDone(c, s, DoAct(c, s, t), t, h);
    if h != g {
      SameEntry(c, s, DoAct(c, s, t), h);
    }
  }

  lemma {:induction false} DupLocal(c: Config, s: State, t: nat, g: nat)
    requires CanAct(c, s, t) && NextAct(c, s, t) == Dup(g)
    ensures Acted(c, s, DoAct(c, s, t), t) && Local(c, s, DoAct(c, s, t), t) && !DoAct(c, s, t).bad
  {
    NotGivenYet(c, s, t, g);
    ActedLocal(c, s, DoAct(c, s, t), t);
  }

  lemma {:induction false} DupInv(c: Config, s: State, t: nat, g: nat)
    requires CanAct(c, s, t) && NextAct(c, s, t) == Dup(g)
    ensures Inv(c, DoAct(c, s, t))
  {
    var s' := DoAct(c, s, t);
    DupLocal(c, s, t, g);
    NotGivenYet(c, s, t, g);
    ActedList(c, s, s', t, t);
    ActedSleep(c, s, s', t, t);
    SameQueue(c, s, s', t);
    forall h | 0 <= h < |c.task| && c.task[h] == t
      ensures EntryOk(c, s', h)
    {
      DupEntry(c, s, t, g, h);
    }
    LocalInv(c, s, s', t);
  }

  /** A message at the end of a queue. */
  lemma {:induction false} LongerQueue(q: seq<Msg>, msg: Msg, h: nat)
    ensures InQueue(q, h) ==> InQueue(q + [msg], h)
    ensures InQueue(q + [msg], h) ==> InQueue(q, h) || h == msg.fle
    ensures InQueue(q + [msg], msg.fle)
  {
    assert (q + [msg])[|q|] == msg;
    if InQueue(q, h) {
      var i :| 0 <= i < |q| && q[i].fle == h;
      assert (q + [msg])[i] == q[i];
    }
  }

  lemma {:induction false} SendQueue(c: Config, s: State, t: nat, g: nat, u: nat)
    requires CanAct(c, s, t) && NextAct(c, s, t) == Send(g) && u < |s.tasks|
    ensures !DoAct(c, s, t).bad && Shape(c, DoAct(c, s, t)) && QueueOk(c, DoAct(c, s, t), u)
  {
    var s' := DoAct(c, s, t);
    NotGivenYet(c, s, t, g);
    assert QueueOk(c, s, u);
    forall i | 0 <= i < |s.queue[u]|
      ensures MsgOk(c, s', u, s.queue[u][i])
    {
      assert MsgOk(c, s, u, s.queue[u][i]);
    }
    if u == c.task[g] {
      assert MsgOk(c, s', u, Msg(g, c.master[g]));
      assert s'.queue[u] == s.queue[u] + [Msg(g, c.master[g])];
    }
  }

  lemma {:induction false} SendEntry(c: Config, s: State, t: nat, g: nat, h: nat)
    requires CanAct(c, s, t) && NextAct(c, s, t) == Send(g) && h < |c.task|
    requires Acted(c, s, DoAct(c, s, t), t)
    ensures EntryOk(c, DoAct(c, s, t), h)
  {
    NotGivenYet(c, s, t, g);
    assert EntryOk(c, s, h);
    ActedDone(c, s, DoAct(c, s, t), t, h);
    LongerQueue(s.queue[c.task[g]], Msg(g, c.master[g]), h);
  }

  lemma {:induction false} SendActed(c: Config, s: State, t: nat, g: nat)
    requires CanAct(c, s, t) && NextAct(c, s, t) == Send(g)
    ensures Acted(c, s, DoAct(c, s, t), t) && g < |c.task| && Told(DoAct(c, s, t), c.task[g])
    ensures forall u :: 0 <= u < |s.tasks| && u != t ==> DoAct(c, s, t).bit[u] == s.bit[u]
  {
    var s' := DoAct(c, s, t);
    NotGivenYet(c, s, t, g);
    if c.task[g] != t {
      assert s'.tasks[t].pc.SetBit? && s'.tasks[t].pc.to == c.task[g];
    }
  }

  lemma {:induction false} SendQuiet(c: Config, s: State, t: nat, g: nat, u: nat)
    requires CanAct(c, s, t) && NextAct(c, s, t) == Send(g) && u < |s.tasks|
    requires Acted(c, s, DoAct(c, s, t), t)
    ensures QuietOk(c, DoAct(c, s, t), u)
  {
    var s' := DoAct(c, s, t);
    SendActed(c, s, t, g);
    assert QuietOk(c, s, u);
    ActedTold(c, s, s', t, u);
    if Quiet(s', u) {
      forall h | h in s'.tasks[u].kept
        ensures LeftBehind(c, s', u, h)
      {
        assert LeftBehind(c, s, u, h);
        if u == c.task[g] {
          LeftTold(c, s, s', u, h);
        } else {
          LeftSame(c, s, s', u, h);
        }
      }
    }
  }

  lemma {:induction false} SendInv(c: Config, s: State, t: nat, g: nat)
    requires CanAct(c, s, t) && NextAct(c, s, t) == Send(g)
    ensures Inv(c, DoAct(c, s, t))
  {
    var s' := DoAct(c, s, t);
    SendActed(c, s, t, g);
    forall h | 0 <= h < |c.task|
      ensures EntryOk(c, s', h)
    {
      SendEntry(c, s, t, g, h);
    }
    forall u | 0 <= u < |s'.tasks|
      ensures !s'.bad && ListOk(c, s', u) && QueueOk(c, s', u) && QuietOk(c, s', u) && SleepOk(s', u)
    {
      SendQueue(c, s, t, g, u);
      SendQuiet(c, s, t, g, u);
      ActedList(c, s, s', t, u);
      ActedSleep(c, s, s', t, u);
    }
  }

  lemma {:induction false} ActInv(c: Config, s: State, s': State, t: nat)
    requires Inv(c, s) && NextStep(c, s, s', ActStep(t))
    ensures Inv(c, s')
  {
    match NextAct(c, s, t)
    case Tell(_) => TellInv(c, s, t);
    case Dup(g) => DupInv(c, s, t, g);
    case Send(g) => SendInv(c, s, t, g);
  }

  // ---- Event bits ----

  /** A task in a phase moves on without acting, while bits only rise and sleepers only wake. */
  ghost predicate Signals(s: State, s': State, t: nat, to: nat) {
    && t < |s.tasks| == |s'.tasks| == |s.bit| == |s'.bit| && to < |s.tasks| && to != t
    && (s.tasks[t].pc.SetBit? || s.tasks[t].pc.Waking?) && s.tasks[t].pc.to == to
    && s' == s.(bit := s.bit[to := s'.bit[to]], tasks := s'.tasks)
    && s'.tasks[t] == s.tasks[t].(pc := s'.tasks[t].pc) && Acts?(s'.tasks[t].pc) && !s'.tasks[t].pc.SetBit?
    && s'.tasks[t].pc.pos == s.tasks[t].pc.pos
    && (s'.tasks[t].pc.Waking? ==> s'.tasks[t].pc.to == to)
    && (s'.tasks[to] == s.tasks[to] || (s.tasks[to].pc.Sleep? && s'.tasks[to] == s.tasks[to].(pc := Wait)))
    && (forall u :: 0 <= u < |s.tasks| && u != t && u != to ==> s'.tasks[u] == s.tasks[u])
    && (s.bit[to] ==> s'.bit[to])
    && (s.tasks[t].pc.SetBit? ==> s'.bit[to])
    && (s'.tasks[to].pc.Sleep? && s'.bit[to] && s.tasks[t].pc.Waking? ==> s'.tasks[t].pc.Waking?)
    && (s'.bit[to] && !s.bit[to] ==> s'.tasks[t].pc.Waking?)
  }

  lemma {:induction false} SignalEntry(c: Config, s: State, s': State, t: nat, to: nat, f: nat)
    requires Inv(c, s) && Shape(c, s') && Signals(s, s', t, to) && f < |c.task|
    ensures EntryOk(c, s', f)
  {
    assert EntryOk(c, s, f);
    assert SameDone(c, s, s', f);
    SameEntry(c, s, s', f);
  }

  lemma {:induction false} SignalList(c: Config, s: State, s': State, t: nat, to: nat, u: nat)
    requires Inv(c, s) && Shape(c, s') && Signals(s, s', t, to) && u < |s.tasks|
    ensures ListOk(c, s', u)
  {
    assert ListOk(c, s, u);
    assert s'.tasks[u].todo == s.tasks[u].todo && s'.tasks[u].kept == s.tasks[u].kept;
    assert u == t || u == to || s'.tasks[u] == s.tasks[u];
  }

  lemma {:induction false} SignalSleep(c: Config, s: State, s': State, t: nat, to: nat, u: nat)
    requires Inv(c, s) && Signals(s, s', t, to) && u < |s.tasks|
    ensures SleepOk(s', u)
  {
    assert SleepOk(s, u);
    if s'.tasks[u].pc.Sleep? && s'.bit[u] && s.bit[u] {
      var w :| 0 <= w < |s.tasks| && s.tasks[w].pc.Waking? && s.tasks[w].pc.to == u;
      assert w != t ==> s'.tasks[w] == s.tasks[w];
    }
  }

  lemma {:induction false} SignalTold(c: Config, s: State, s': State, t: nat, to: nat, u: nat)
    requires Signals(s, s', t, to) && u < |s.tasks|
    ensures Told(s, u) ==> Told(s', u)
    ensures WillBeTold(c, s, u) ==> WillBeTold(c, s', u)
  {
    if SenderTo(s, u) {
      var w :| 0 <= w < |s.tasks| && s.tasks[w].pc.SetBit? && s.tasks[w].pc.to == u;
      assert w != t ==> s'.tasks[w] == s.tasks[w] || w == to;
    }
    if w :| 0 <= w < |s.tasks| && TellsLater(c, s, w, u) {
      assert w == t || s'.tasks[w] == s.tasks[w];
      assert TellsLater(c, s', w, u);
    }
  }

  lemma {:induction false} SignalQuiet(c: Config, s: State, s': State, t: nat, to: nat, u: nat)
    requires Inv(c, s) && Shape(c, s') && Signals(s, s', t, to) && u < |s.tasks|
    ensures QuietOk(c, s', u)
  {
    assert QuietOk(c, s, u);
    if Quiet(s', u) {
      assert Quiet(s, u);
      SignalTold(c, s, s', t, to, u);
      forall g | g in s'.tasks[u].kept
        ensures LeftBehind(c, s', u, g)
      {
        assert LeftBehind(c, s, u, g);
        LeftSame(c, s, s', u, g);
      }
    }
  }

  lemma {:induction false} SignalInv(c: Config, s: State, s': State, t: nat, to: nat)
    requires Inv(c, s) && Shape(c, s') && Signals(s, s', t, to)
    ensures Inv(c, s')
  {
    forall f | 0 <= f < |c.task|
      ensures EntryOk(c, s', f)
    {
      SignalEntry(c, s, s', t, to, f);
    }
    forall u | 0 <= u < |s'.tasks|
      ensures ListOk(c, s', u) && QueueOk(c, s', u) && QuietOk(c, s', u) && SleepOk(s', u)
    {
      SignalList(c, s, s', t, to, u);
      SameQueue(c, s, s', u);
      SignalSleep(c, s, s', t, to, u);
      SignalQuiet(c, s, s', t, to, u);
    }
  }

  lemma {:induction false} SignalStepInv(c: Config, s: State, s': State, t: nat, step: Step)
    requires Inv(c, s) && NextStep(c, s, s', step) && (step == SetBitStep(t) || step == WakeStep(t))
    ensures Inv(c, s')
  {
    assert ListOk(c, s, t);
    SignalInv(c, s, s', t, s.tasks[t].pc.to);
  }

  lemma {:induction false} NextInv(c: Config, s: State, s': State, step: Step)
    requires Inv(c, s) && NextStep(c, s, s', step)
    ensures Inv(c, s')
  {
    match step
    case StartPass(t) => StartPassInv(c, s, s', t);
    case VisitStep(t) => VisitInv(c, s, s', t);
    case ActStep(t) => ActInv(c, s, s', t);
    case EndStep(t) => EndStepInv(c, s, s', t);
    case SetBitStep(t) => SignalStepInv(c, s, s', t, step);
    case WakeStep(t) => SignalStepInv(c, s, s', t, step);
    case TestEvent(t) => WaitingInv(c, s, s', t, step);
    case TimeOut(t) => WaitingInv(c, s, s', t, step);
  }

  lemma {:induction false} RunInv(c: Config, run: seq<State>, k: nat)
    requires IsRun(c, run) && k < |run|
    ensures Inv(c, run[k])
  {
    if k == 0 {
      InitInv(c, run[0]);
    } else {
      RunInv(c, run, k - 1);
      assert Next(c, run[k - 1], run[k - 1 + 1]);
      var step :| NextStep(c, run[k - 1], run[k], step);
      NextInv(c, run[k - 1], run[k], step);
    }
  }

  // ---- Main results ----

  /**
   * In every reachable state no check fails (a double plant, an entry of a foreign task, a restored entry,
   * a non-empty list at the end), and each slot holds nothing, or exactly one file: the one of its master.
   */
  lemma {:induction false} PlantedOnceFromMaster(c: Config, run: seq<State>, k: nat, f: nat)
    requires IsRun(c, run) && k < |run| && f < |c.task|
    ensures !run[k].bad
    ensures Shape(c, run[k]) && (run[k].plants[f] == [] || run[k].plants[f] == [c.master[f]])
  {
    RunInv(c, run, k);
    assert EntryOk(c, run[k], f) && SourceOk(c, f);
  }

  /** When every task has left its loop, every slot holds the file of its master and all phases are over. */
  lemma {:induction false} FinishedMeansPlanted(c: Config, run: seq<State>, k: nat, f: nat)
    requires IsRun(c, run) && k < |run| && f < |c.task|
    requires forall t :: 0 <= t < |run[k].tasks| ==> run[k].tasks[t].pc.Finished?
    ensures Shape(c, run[k]) && run[k].plants[f] == [c.master[f]] && run[k].at[f] == |c.phases[f]|
  {
    RunInv(c, run, k);
    var s := run[k];
    assert ListOk(c, s, c.task[f]) && EntryOk(c, s, f) && SourceOk(c, f);
    assert f !in s.tasks[c.task[f]].todo && f !in s.tasks[c.task[f]].kept;
  }

  /** An unrestored entry of a sleeping task was left behind by its sweep. */
  lemma {:induction false} AsleepLeft(c: Config, s: State, f: nat)
    requires Inv(c, s) && f < |c.task| && !s.restored[f] && s.tasks[c.task[f]].pc.Sleep?
    ensures LeftBehind(c, s, c.task[f], f) && SleepOk(s, c.task[f])
  {
    assert ListOk(c, s, c.task[f]) && QuietOk(c, s, c.task[f]);
    assert f in s.tasks[c.task[f]].kept;
  }

  /**
   * No wake-up is lost: while a task sleeps with its event bit clear, any message queued for it has a
   * sender that has not yet set the bit, and if it could go on with a file, the task that has begun what
   * it waited for is still to tell it; and while it sleeps with the bit set, its waker is still to come.
   */
  lemma {:induction false} NoLostWakeUp(c: Config, run: seq<State>, k: nat, t: nat)
    requires IsRun(c, run) && k < |run| && Shape(c, run[k]) && t < |run[k].tasks| && run[k].tasks[t].pc.Sleep?
    ensures !run[k].bit[t] && run[k].queue[t] != [] ==> SenderTo(run[k], t)
    ensures forall m: nat :: m < |c.task| && c.task[m] == t && Master?(c, m) && !run[k].restored[m] ==>
              && run[k].at[m] < |c.phases[m]|
              && (HasFile(c, run[k], m) && Met(run[k], c.phases[m][run[k].at[m]].needs) ==> WillBeTold(c, run[k], t))
    ensures run[k].bit[t] ==>
              exists u :: 0 <= u < |run[k].tasks| && run[k].tasks[u].pc.Waking? && run[k].tasks[u].pc.to == t
  {
    RunInv(c, run, k);
    var s := run[k];
    assert SleepOk(s, t);
    if s.queue[t] != [] {
      FirstMsg(c, s, t);
      assert InQueue(s.queue[t], s.queue[t][0].fle);
      AsleepLeft(c, s, s.queue[t][0].fle);
    }
    forall m: nat | m < |c.task| && c.task[m] == t && Master?(c, m) && !s.restored[m]
      ensures LeftBehind(c, s, t, m)
    {
      AsleepLeft(c, s, m);
    }
  }

  ghost predicate CanStep(c: Config, s: State, t: nat) {
    exists step: Step, s': State :: step.t == t && !step.TimeOut? && NextStep(c, s, s', step)
  }

  lemma {:induction false} Steps(c: Config, s: State, t: nat, s': State, step: Step)
    requires step.t == t && !step.TimeOut? && NextStep(c, s, s', step)
    ensures CanStep(c, s, t)
  {
  }

  lemma {:induction false} SweepCanStep(c: Config, s: State, t: nat)
    requires Inv(c, s) && t < |s.tasks|
    requires s.tasks[t].pc.PassStart? || s.tasks[t].pc.Visit? || s.tasks[t].pc.Wait?
    ensures CanStep(c, s, t)
  {
    var k := s.tasks[t];
    match k.pc
    case PassStart =>
      var s' := SetTask(s.(bit := s.bit[t := false]), t, Task(Visit, k.kept, [], false, false));
      Steps(c, s, t, s', StartPass(t));
    case Visit =>
      Steps(c, s, t, DoVisit(c, s, t), VisitStep(t));
    case Wait =>
      var s' := if s.bit[t] then SetTask(s.(bit := s.bit[t := false]), t, k.(pc := PassStart))
                else SetTask(s, t, k.(pc := Sleep));
      Steps(c, s, t, s', TestEvent(t));
  }

  lemma {:induction false} PhaseCanStep(c: Config, s: State, t: nat)
    requires Inv(c, s) && t < |s.tasks| && Acts?(s.tasks[t].pc)
    ensures CanStep(c, s, t)
  {
    var k := s.tasks[t];
    assert ListOk(c, s, t);
    match k.pc
    case Acting(pos) =>
      if pos < |ActsOf(c, s, t)| {
        Steps(c, s, t, DoAct(c, s, t), ActStep(t));
      } else {
        Steps(c, s, t, EndActs(c, s, t), EndStep(t));
      }
    case SetBit(pos, to) =>
      var s' := if s.bit[to] then SetTask(s, t, k.(pc := Acting(pos)))
                else SetTask(s.(bit := s.bit[to := true]), t, k.(pc := Waking(pos, to)));
      Steps(c, s, t, s', SetBitStep(t));
    case Waking(pos, to) =>
      Steps(c, s, t, SetTask(WakeTask(s, to), t, k.(pc := Acting(pos))), WakeStep(t));
  }

  lemma {:induction false} AwakeCanStep(c: Config, s: State, t: nat)
    requires Inv(c, s) && t < |s.tasks| && !s.tasks[t].pc.Sleep? && !s.tasks[t].pc.Finished?
    ensures CanStep(c, s, t)
  {
    if Acts?(s.tasks[t].pc) {
      PhaseCanStep(c, s, t);
    } else {
      SweepCanStep(c, s, t);
    }
  }

  // ---- Waits without a cycle ----

  /** Something that is still to happen: the beginning of a phase or the completion of an entry. */
  datatype Event = Beginning(f: nat, p: nat) | Completion(f: nat)

  ghost predicate IsEvent(c: Config, e: Event) {
    if e.Beginning? then HasPhase(c, e.f, e.p) else e.f < |c.task|
  }

  /** What `w` waits for happens before `at`. */
  ghost predicate Before(w: Waits, rank: Event -> nat, at: nat) {
    && (forall d :: d in w.restored ==> rank(Completion(d)) < at)
    && (forall e :: e in w.begun ==> rank(Beginning(e.0, e.1)) < at)
  }

  /**
   * The waits have no cycle: there is an order of all phases and all completions in which each comes after
   * what it waits for. Two files may well wait for each other in later phases.
   */
  ghost predicate Acyclic(c: Config, rank: Event -> nat)
    requires WellFormed(c)
  {
    && (forall m, p :: 0 <= m < |c.phases| && 0 <= p < |c.phases[m]| ==>
          && Before(c.phases[m][p].needs, rank, rank(Beginning(m, p)))
          && rank(Beginning(m, p)) < rank(Completion(m))
          && (p > 0 ==> rank(Beginning(m, p - 1)) < rank(Beginning(m, p))))
    && (forall f :: 0 <= f < |c.task| && c.source[f].From? ==>
          rank(Beginning(c.source[f].m, c.source[f].p)) < rank(if Master?(c, f) then Beginning(f, 0)
            else Completion(f)))
  }

  ghost predicate IsPending(c: Config, s: State, e: Event)
    requires Shape(c, s)
  {
    IsEvent(c, e) && if e.Beginning? then s.at[e.f] <= e.p else !s.restored[e.f]
  }

  /** Of all that is still to happen, `e` comes first. */
  ghost predicate IsFirst(c: Config, s: State, rank: Event -> nat, e: Event)
    requires Shape(c, s)
  {
    IsPending(c, s, e) && forall d :: IsPending(c, s, d) ==> rank(e) <= rank(d)
  }

  lemma {:induction false} FirstPending(c: Config, s: State, rank: Event -> nat, e: Event) returns (r: Event)
    requires Shape(c, s) && IsPending(c, s, e)
    ensures IsFirst(c, s, rank, r)
    decreases rank(e)
  {
    if d :| IsPending(c, s, d) && rank(d) < rank(e) {
      r := FirstPending(c, s, rank, d);
    } else {
      r := e;
    }
  }

  /** What has to happen before the first pending event has happened. */
  lemma {:induction false} BeforeFirst(c: Config, s: State, rank: Event -> nat, e: Event, w: Waits)
    requires Shape(c, s) && IsFirst(c, s, rank, e) && NeedsOk(c, e.f, w) && Before(w, rank, rank(e))
    ensures Met(s, w)
  {
    forall d | d in w.restored
      ensures s.restored[d]
    {
      assert IsPending(c, s, Completion(d)) <==> !s.restored[d];
    }
    forall d | d in w.begun
      ensures s.at[d.0] > d.1
    {
      assert IsPending(c, s, Beginning(d.0, d.1)) <==> s.at[d.0] <= d.1;
    }
  }

  /** An entry that is given its file before the first pending event has it, unless its giver is in that phase. */
  lemma {:induction false} FileBefore(c: Config, s: State, rank: Event -> nat, e: Event, f: nat)
    requires Inv(c, s) && IsFirst(c, s, rank, e) && f < |c.task| && c.source[f].From?
    requires c.source[f].m < |c.task| && rank(Beginning(c.source[f].m, c.source[f].p)) < rank(e)
    requires !ActsFor(s, c.task[c.source[f].m], c.source[f].m)
    ensures HasFile(c, s, f) || InQueue(s.queue[c.task[f]], f)
  {
    assert SourceOk(c, f) && EntryOk(c, s, f);
    var From(m, p, i) := c.source[f];
    assert IsPending(c, s, Beginning(m, p)) <==> s.at[m] <= p;
  }

  lemma {:induction false} FirstMasterTold(c: Config, s: State, rank: Event -> nat, m: nat, p: nat)
    requires Inv(c, s) && Acyclic(c, rank) && IsFirst(c, s, rank, Beginning(m, p)) && m < |c.task|
    requires s.tasks[c.task[m]].pc.Sleep? && !s.restored[m]
    requires HasFile(c, s, m) || InQueue(s.queue[c.task[m]], m)
    ensures WillBeTold(c, s, c.task[m])
  {
    AsleepLeft(c, s, m);
    FirstIsNext(c, s, rank, m, p);
    NeedsAre(c, m, p);
    BeforeFirst(c, s, rank, Beginning(m, p), c.phases[m][p].needs);
  }

  /** The first pending phase of a master is its next one. */
  lemma {:induction false} FirstIsNext(c: Config, s: State, rank: Event -> nat, m: nat, p: nat)
    requires Shape(c, s) && Acyclic(c, rank) && IsFirst(c, s, rank, Beginning(m, p)) && m < |c.task|
    ensures s.at[m] == p && Master?(c, m)
  {
    if p > 0 {
      assert HasPhase(c, m, p - 1);
      assert IsPending(c, s, Beginning(m, p - 1)) <==> s.at[m] <= p - 1;
    }
  }

  /** Who is about to tell a sleeping task, or to wake it, is awake. */
  lemma {:induction false} Teller(c: Config, s: State, t: nat) returns (u: nat)
    requires t < |s.tasks| == |s.bit| && s.tasks[t].pc.Sleep? && SleepOk(s, t) && WillBeTold(c, s, t)
    ensures u < |s.tasks| && Acts?(s.tasks[u].pc)
  {
    if s.bit[t] {
      u :| 0 <= u < |s.tasks| && s.tasks[u].pc.Waking? && s.tasks[u].pc.to == t;
    } else if SenderTo(s, t) {
      u :| 0 <= u < |s.tasks| && s.tasks[u].pc.SetBit? && s.tasks[u].pc.to == t;
    } else {
      u :| 0 <= u < |s.tasks| && TellsLater(c, s, u, t);
    }
  }

  ghost predicate Awake(s: State, u: nat) {
    u < |s.tasks| && !s.tasks[u].pc.Sleep? && !s.tasks[u].pc.Finished?
  }

  lemma {:induction false} NotFinished(c: Config, s: State, f: nat)
    requires Inv(c, s) && f < |c.task| && !s.restored[f]
    ensures !s.tasks[c.task[f]].pc.Finished?
  {
    assert ListOk(c, s, c.task[f]);
  }

  /** For the next phase of a file that comes first its task is awake, or somebody is about to wake it. */
  lemma {:induction false} AwakeToBegin(c: Config, s: State, rank: Event -> nat, m: nat, p: nat) returns (u: nat)
    requires Inv(c, s) && Acyclic(c, rank) && IsFirst(c, s, rank, Beginning(m, p))
    ensures Awake(s, u)
  {
    FirstIsNext(c, s, rank, m, p);
    assert EntryOk(c, s, m) && SourceOk(c, m);
    NotFinished(c, s, m);
    u := c.task[m];
    if s.tasks[u].pc.Sleep? {
      AsleepLeft(c, s, m);
      if c.source[m].From? && ActsFor(s, c.task[c.source[m].m], c.source[m].m) {
        u := c.task[c.source[m].m];
      } else {
        if c.source[m].From? && p == 0 {
          FileBefore(c, s, rank, Beginning(m, p), m);
        }
        FirstMasterTold(c, s, rank, m, p);
        u := Teller(c, s, u);
      }
    }
  }

  /** And so it is for a completion that comes first. */
  lemma {:induction false} AwakeToComplete(c: Config, s: State, rank: Event -> nat, f: nat) returns (u: nat)
    requires Inv(c, s) && Acyclic(c, rank) && IsFirst(c, s, rank, Completion(f))
    ensures Awake(s, u)
  {
    assert EntryOk(c, s, f) && SourceOk(c, f);
    NotFinished(c, s, f);
    u := c.task[f];
    if s.tasks[u].pc.Sleep? {
      AsleepLeft(c, s, f);
      if Master?(c, f) {
        assert IsPending(c, s, Beginning(f, s.at[f]));
      } else if ActsFor(s, c.task[c.source[f].m], c.source[f].m) {
        u := c.task[c.source[f].m];
      } else {
        FileBefore(c, s, rank, Completion(f), f);
        u := Teller(c, s, u);
      }
    }
  }

  /**
   * When the open methods wait for each other without a cycle, within a task or across tasks, no reachable
   * unfinished state is stuck: some unfinished task can step without a timeout.
   */
  lemma {:induction false} NeverStuck(c: Config, rank: Event -> nat, run: seq<State>, k: nat)
    requires IsRun(c, run) && k < |run| && Acyclic(c, rank)
    requires exists t :: 0 <= t < |run[k].tasks| && !run[k].tasks[t].pc.Finished?
    ensures exists t :: 0 <= t < |run[k].tasks| && !run[k].tasks[t].pc.Finished? && CanStep(c, run[k], t)
  {
    RunInv(c, run, k);
    var s := run[k];
    var t :| 0 <= t < |s.tasks| && !s.tasks[t].pc.Finished?;
    if s.tasks[t].pc.Sleep? {
      assert ListOk(c, s, t);
      var f := s.tasks[t].kept[0];
      assert f in s.tasks[t].kept;
      var e := FirstPending(c, s, rank, Completion(f));
      if e.Beginning? {
        t := AwakeToBegin(c, s, rank, e.f, e.p);
      } else {
        t := AwakeToComplete(c, s, rank, e.f);
      }
    }
    AwakeCanStep(c, s, t);
  }
}
