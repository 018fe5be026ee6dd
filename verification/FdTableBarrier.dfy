/**
 * Tasks that share one file-descriptor table. `shared_fdt_prepare` enrols the tasks while the tree is
 * read, and `prepare_fds` lines them up on the futex `fdt_lock`: every sharer announces itself, the
 * owner restores the table once all have, and the others go on when the owner says so.
 */
module FdTableBarrier {
  import opened Common

  // ---- Enrolment ----

  /** `struct fdt` without its lock. */
  datatype Table = Table(nr: nat, pid: nat)

  /** The tasks that share table `id`. */
  ghost function Sharers(fdt: map<nat, nat>, id: nat): set<nat> { set t | t in fdt && fdt[t] == id }

  /** The table counts its sharers exactly, and its owner is one of them. */
  ghost predicate TableOk(tables: seq<Table>, fdt: map<nat, nat>, id: nat)
    requires id < |tables|
  {
    tables[id].nr == |Sharers(fdt, id)| && tables[id].pid in Sharers(fdt, id)
  }

  ghost predicate Counted(tables: seq<Table>, fdt: map<nat, nat>) {
    && (forall t :: t in fdt ==> fdt[t] < |tables|)
    && (forall id: nat {:trigger TableOk(tables, fdt, id)} :: id < |tables| ==> TableOk(tables, fdt, id))
  }

  /** The number of a task among the sharers of its table: below their count, and zero for the owner. */
  ghost predicate NumberOk(tables: seq<Table>, fdt: map<nat, nat>, ids: map<nat, nat>, t: nat)
    requires t in fdt
  {
    && fdt[t] < |tables| && t in ids && ids[t] < tables[fdt[t]].nr
    && (tables[fdt[t]].pid == t ==> ids[t] == 0)
  }

  /** Two sharers of one table have different numbers. */
  ghost predicate Apart(fdt: map<nat, nat>, ids: map<nat, nat>, t: nat, u: nat)
    requires t in fdt && u in fdt
  {
    t != u && fdt[t] == fdt[u] && t in ids && u in ids ==> ids[t] != ids[u]
  }

  ghost predicate Numbered(tables: seq<Table>, fdt: map<nat, nat>, ids: map<nat, nat>) {
    && (forall t {:trigger NumberOk(tables, fdt, ids, t)} :: t in fdt ==> NumberOk(tables, fdt, ids, t))
    && (forall t, u {:trigger Apart(fdt, ids, t, u)} :: t in fdt && u in fdt ==> Apart(fdt, ids, t, u))
  }

  lemma {:induction false} CountNew(tables: seq<Table>, fdt: map<nat, nat>, owner: nat)
    requires Counted(tables, fdt) && owner !in fdt
    ensures Counted(tables + [Table(1, owner)], fdt[owner := |tables|])
  {
    var tables', fdt' := tables + [Table(1, owner)], fdt[owner := |tables|];
    assert Sharers(fdt', |tables|) == {owner};
    forall id: nat | id < |tables'|
      ensures TableOk(tables', fdt', id)
    {
      if id < |tables| {
        assert TableOk(tables, fdt, id) && Sharers(fdt', id) == Sharers(fdt, id);
      }
    }
  }

  lemma {:induction false} CountJoin(tables: seq<Table>, fdt: map<nat, nat>, item: nat, id: nat)
    requires Counted(tables, fdt) && item !in fdt && id < |tables|
    ensures Counted(tables[id := tables[id].(nr := tables[id].nr + 1)], fdt[item := id])
  {
    var tables', fdt' := tables[id := tables[id].(nr := tables[id].nr + 1)], fdt[item := id];
    assert Sharers(fdt', id) == Sharers(fdt, id) + {item};
    forall k: nat | k < |tables'|
      ensures TableOk(tables', fdt', k)
    {
      assert TableOk(tables, fdt, k);
      if k != id {
        assert Sharers(fdt', k) == Sharers(fdt, k);
      }
    }
  }

  lemma {:induction false} NumberNew(tables: seq<Table>, fdt: map<nat, nat>, ids: map<nat, nat>, owner: nat)
    requires Numbered(tables, fdt, ids) && owner !in fdt
    ensures Numbered(tables + [Table(1, owner)], fdt[owner := |tables|], ids[owner := 0])
  {
    var tables', fdt', ids' := tables + [Table(1, owner)], fdt[owner := |tables|], ids[owner := 0];
    forall t | t in fdt'
      ensures NumberOk(tables', fdt', ids', t)
    {
      assert t != owner ==> NumberOk(tables, fdt, ids, t);
    }
    forall t, u | t in fdt' && u in fdt'
      ensures Apart(fdt', ids', t, u)
    {
      assert t != owner ==> NumberOk(tables, fdt, ids, t);
      assert u != owner ==> NumberOk(tables, fdt, ids, u);
      assert t != owner && u != owner ==> Apart(fdt, ids, t, u);
    }
  }

  lemma {:induction false} NumberJoin(tables: seq<Table>, fdt: map<nat, nat>, ids: map<nat, nat>, item: nat, id: nat)
    requires Numbered(tables, fdt, ids) && item !in fdt && id < |tables| && tables[id].pid in fdt
    ensures Numbered(tables[id := tables[id].(nr := tables[id].nr + 1)], fdt[item := id], ids[item := tables[id].nr])
  {
    var tables', fdt' := tables[id := tables[id].(nr := tables[id].nr + 1)], fdt[item := id];
    var ids' := ids[item := tables[id].nr];
    forall t | t in fdt'
      ensures NumberOk(tables', fdt', ids', t)
    {
      assert t != item ==> NumberOk(tables, fdt, ids, t);
    }
    forall t, u | t in fdt' && u in fdt'
      ensures Apart(fdt', ids', t, u)
    {
      assert t != item ==> NumberOk(tables, fdt, ids, t);
      assert u != item ==> NumberOk(tables, fdt, ids, u);
      assert t != item && u != item ==> Apart(fdt, ids, t, u);
    }
  }

  /** The tables of one restore, which of them each task shares, and its number for its service descriptors there. */
  class Enrolment {
    var tables: seq<Table>
    var fdt: map<nat, nat>
    var serviceId: map<nat, nat>

    ghost predicate Valid()
      reads this
    {
      Counted(tables, fdt) && Numbered(tables, fdt, serviceId)
    }

    constructor ()
      ensures Valid() && tables == [] && fdt == map[]
    {
      tables, fdt, serviceId := [], map[], map[];
    }

    /** A task that shares nothing yet becomes the owner of a new table. */
    method NewTable(owner: nat)
      requires Valid() && owner !in fdt
      modifies this
      ensures Valid()
      ensures tables == old(tables) + [Table(1, owner)] && fdt == old(fdt)[owner := |old(tables)|]
      ensures serviceId == old(serviceId)[owner := 0]
    {
      CountNew(tables, fdt, owner);
      NumberNew(tables, fdt, serviceId, owner);
      fdt, serviceId := fdt[owner := |tables|], serviceId[owner := 0];
      tables := tables + [Table(1, owner)];
    }

    /** One more task shares table `id`. */
    method Join(item: nat, id: nat)
      requires Valid() && item !in fdt && id < |tables|
      modifies this
      ensures Valid()
      ensures tables == old(tables)[id := old(tables)[id].(nr := old(tables)[id].nr + 1)] && fdt == old(fdt)[item := id]
      ensures serviceId == old(serviceId)[item := old(tables)[id].nr]
    {
      CountJoin(tables, fdt, item, id);
      assert TableOk(tables, fdt, id);
      NumberJoin(tables, fdt, serviceId, item, id);
      fdt, serviceId := fdt[item := id], serviceId[item := tables[id].nr];
      tables := tables[id := tables[id].(nr := tables[id].nr + 1)];
    }

    /** `shared_fdt_prepare`: `item` joins the table of its parent, which gets one if it has none. */
    method Prepare(item: nat, parent: nat)
      requires Valid() && item !in fdt && item != parent
      modifies this
      ensures Valid()
      ensures fdt.Keys == old(fdt).Keys + {item, parent} && fdt[item] == fdt[parent]
      ensures forall t :: t in old(fdt) ==> fdt[t] == old(fdt)[t]
      ensures parent !in old(fdt) ==> fdt[parent] == |old(tables)| && tables[fdt[parent]] == Table(2, parent)
      ensures parent in old(fdt) ==> tables[fdt[parent]].pid == old(tables[fdt[parent]].pid)
      ensures item in serviceId && serviceId[item] + 1 == tables[fdt[item]].nr
    {
      if parent !in fdt {
        NewTable(parent);
      }
      Join(item, fdt[parent]);
    }
  }

  // ---- The barrier on fdt_lock ----

  datatype Pc =
    | Arrive            // about to add one to fdt_lock
    | AwaitAll          // waits while fdt_lock < nr
    | Restoring         // the owner, inside open_fdinfos
    | Release           // the owner, about to add its second one
    | AwaitOwner        // waits until fdt_lock == nr + 1
    | Done

  /** The sharers are numbered from zero; sharer `owner` has the pid recorded in the table. */
  datatype Barrier = Barrier(lock: nat, owner: nat, p: seq<Pc>)

  function Nr(s: Barrier): nat { |s.p| }

  ghost predicate Init(s: Barrier) {
    s.lock == 0 && s.owner < |s.p| && forall i :: 0 <= i < |s.p| ==> s.p[i].Arrive?
  }

  predicate Enabled(s: Barrier, i: nat) {
    i < |s.p| &&
    match s.p[i]
    case AwaitAll => s.lock >= Nr(s)
    case AwaitOwner => s.lock == Nr(s) + 1
    case Done => false
    case _ => true
  }

  function Step(s: Barrier, i: nat): Barrier
    requires Enabled(s, i)
  {
    match s.p[i]
    case Arrive => s.(lock := s.lock + 1, p := s.p[i := AwaitAll])
    case AwaitAll => s.(p := s.p[i := if i == s.owner then Restoring else AwaitOwner])
    case Restoring => s.(p := s.p[i := Release])
    case Release => s.(lock := s.lock + 1, p := s.p[i := Done])
    case AwaitOwner => s.(p := s.p[i := Done])
  }

  ghost predicate Next(s: Barrier, s': Barrier) { exists i :: Enabled(s, i) && s' == Step(s, i) }

  ghost predicate IsRun(run: seq<Barrier>) {
    && |run| > 0 && Init(run[0])
    && forall k :: 0 <= k < |run| - 1 ==> Next(run[k], run[k + 1])
  }

  ghost function Arrived(s: Barrier): set<nat> { set i: nat | i < |s.p| && !s.p[i].Arrive? }

  ghost predicate AllArrived(s: Barrier) { forall j :: 0 <= j < |s.p| ==> !s.p[j].Arrive? }

  ghost predicate Inv(s: Barrier) {
    && s.owner < |s.p|
    && s.lock == |Arrived(s)| + (if s.p[s.owner].Done? then 1 else 0)
    && (forall i :: 0 <= i < |s.p| && (s.p[i].Restoring? || s.p[i].Release?) ==> i == s.owner)
    && !s.p[s.owner].AwaitOwner?
    && (forall i :: 0 <= i < |s.p| && !s.p[i].Arrive? && !s.p[i].AwaitAll? ==> AllArrived(s))
    && (forall i :: 0 <= i < |s.p| && s.p[i].Done? ==> s.p[s.owner].Done?)
  }

  /** A full counter, before the owner adds its second one, means that everybody has arrived. */
  lemma {:induction false} FullCounter(s: Barrier)
    requires Inv(s) && s.lock >= Nr(s)
    ensures AllArrived(s)
  {
    if !s.p[s.owner].Done? {
      IndicesSize(|s.p|, Arrived(s));
      forall j | 0 <= j < |s.p|
        ensures !s.p[j].Arrive?
      {
        assert j in Arrived(s);
      }
    }
  }

  lemma {:induction false} StepInv(s: Barrier, i: nat)
    requires Inv(s) && Enabled(s, i)
    ensures Inv(Step(s, i))
  {
    var s' := Step(s, i);
    if s.p[i].Arrive? {
      assert Arrived(s') == Arrived(s) + {i};
    } else {
      assert Arrived(s') == Arrived(s);
      if s.p[i].AwaitAll? {
        FullCounter(s);
      }
      if s.p[i].AwaitOwner? {
        IndicesSize(|s.p|, Arrived(s));
      }
      assert AllArrived(s) ==> AllArrived(s');
    }
  }

  lemma {:induction false} RunInv(run: seq<Barrier>, k: nat)
    requires IsRun(run) && k < |run|
    ensures Inv(run[k])
  {
    if k == 0 {
      assert Arrived(run[0]) == {};
    } else {
      RunInv(run, k - 1);
      assert Next(run[k - 1], run[k - 1 + 1]);
      var i :| Enabled(run[k - 1], i) && run[k] == Step(run[k - 1], i);
      StepInv(run[k - 1], i);
    }
  }

  /**
   * In every interleaving: the table is being restored only by its owner and only after all sharers have
   * arrived, no sharer continues before the owner has restored the table, and the lock never exceeds nr + 1.
   */
  lemma {:induction false} BarrierSafety(run: seq<Barrier>, k: nat, i: nat)
    requires IsRun(run) && k < |run| && i < |run[k].p|
    ensures run[k].lock <= Nr(run[k]) + 1
    ensures run[k].p[i].Restoring? ==> i == run[k].owner && forall j :: 0 <= j < |run[k].p| ==> !run[k].p[j].Arrive?
    ensures run[k].p[i].Done? ==> run[k].owner < |run[k].p| && run[k].p[run[k].owner].Done?
  {
    RunInv(run, k);
    IndicesSize(|run[k].p|, Arrived(run[k]));
  }

  /** The barrier never deadlocks: until every sharer is through, some sharer is enabled. */
  lemma {:induction false} BarrierProgress(run: seq<Barrier>, k: nat, i: nat)
    requires IsRun(run) && k < |run| && i < |run[k].p| && !run[k].p[i].Done?
    ensures exists j :: Enabled(run[k], j)
  {
    RunInv(run, k);
    var s := run[k];
    if j :| 0 <= j < |s.p| && s.p[j].Arrive? {
      assert Enabled(s, j);
    } else {
      FullHouse(s);
      if s.p[s.owner].Done? {
        assert Enabled(s, i);
      } else {
        assert Enabled(s, s.owner);
      }
    }
  }

  lemma {:induction false} FullHouse(s: Barrier)
    requires Inv(s) && AllArrived(s)
    ensures |Arrived(s)| == Nr(s)
  {
    PrefixSize(|s.p|, Arrived(s));
  }

  function Cost(pc: Pc): nat {
    match pc
    case Arrive => 4
    case AwaitAll => 3
    case Restoring => 2
    case Release => 1
    case AwaitOwner => 1
    case Done => 0
  }

  function Costs(s: Barrier): seq<nat> { seq(|s.p|, i requires 0 <= i < |s.p| => Cost(s.p[i])) }

  lemma {:induction false} StepCost(s: Barrier, i: nat)
    requires Enabled(s, i)
    ensures |Step(s, i).p| == |s.p| && Sum(Costs(Step(s, i))) < Sum(Costs(s))
  {
    var s' := Step(s, i);
    assert Costs(s') == Costs(s)[i := Cost(s'.p[i])];
    SumUpdate(Costs(s), i, Cost(s'.p[i]));
  }

  /** Every run of the barrier ends: it has at most four steps for each sharer, and then everybody is through. */
  lemma {:induction false} BarrierEnds(run: seq<Barrier>)
    requires IsRun(run)
    ensures |run| <= 4 * |run[0].p| + 1
    ensures var s := run[|run| - 1]; (exists j :: Enabled(s, j)) || forall i :: 0 <= i < |s.p| ==> s.p[i].Done?
  {
    var work := seq(|run|, k requires 0 <= k < |run| => Sum(Costs(run[k])));
    forall k | 0 <= k < |run| - 1
      ensures work[k + 1] < work[k]
    {
      assert Next(run[k], run[k + 1]);
      var i :| Enabled(run[k], i) && run[k + 1] == Step(run[k], i);
      StepCost(run[k], i);
    }
    Descends(work, |run| - 1);
    SumBelow(Costs(run[0]), 4);
    var s := run[|run| - 1];
    if i :| 0 <= i < |s.p| && !s.p[i].Done? {
      BarrierProgress(run, |run| - 1, i);
    }
  }
}
