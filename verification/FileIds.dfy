/**
 * IDs of files (criu/file-ids.c:25-116): ordinary files by kernel object, mapped and
 * other special files by mount, device and inode, all from one counter.
 */
module FileIds {
  import opened Common
  import opened KcmpIds

  datatype Key = Key(mnt: int, dev: nat, ino: nat)

  datatype Parms = Parms(key: Key, mode: bv16)

  datatype FdId = FdId(key: Key, id: nat)

  const FDID_SIZE := 32

  function Hash(k: Key): (h: nat)
    ensures h < FDID_SIZE
  {
    (k.dev + k.ino) % FDID_SIZE
  }

  /** The test that keeps cached IDs from being used. */
  predicate NotReused(mode: bv16) {
    mode & (0x2000 | 0x6000) != 0
  }

  /** The file types of stat, in the upper bits of the mode. */
  predicate IsType(mode: bv16, t: bv16) {
    mode & 0xF000 == t
  }

  /**
   * The test is meant for devices, but the two type codes share bits with others: of
   * the types there are, only regular files and FIFOs ever get a cached ID.
   */
  lemma {:induction false} OnlyRegularAndFifoReused(mode: bv16)
    requires mode & 0xF000 in [0x1000, 0x2000, 0x4000, 0x6000, 0x8000, 0xA000, 0xC000]
    ensures !NotReused(mode) <==> IsType(mode, 0x8000) || IsType(mode, 0x1000)
  {
    assert mode & 0x6000 == (mode & 0xF000) & 0x6000;
  }

  /** The newest entry of a chain with the key. */
  function First(chain: seq<FdId>, k: Key): Option<nat> {
    if chain == [] then None
    else if chain[0].key == k then Some(chain[0].id)
    else First(chain[1..], k)
  }

  lemma {:induction false} TruncSmall(serial: nat)
    requires serial < ID_LIMIT
    ensures Trunc(serial) == serial
  {
  }

  /** An ID that is not zero and not one made of a counter value before `next`. */
  ghost predicate Unused(id: nat, next: nat) {
    id != 0 && forall j :: 1 <= j < next ==> Trunc(j) != id
  }

  /** The next ID of the counter is such a one exactly as long as the counter is below 2^32. */
  lemma {:induction false} UnusedExactly(next: nat)
    requires next >= 1
    ensures Unused(Trunc(next), next) <==> next < ID_LIMIT
  {
    if next < ID_LIMIT {
      forall j | 1 <= j <= next
        ensures Trunc(j) == j
      {
        TruncSmall(j);
      }
    } else {
      TruncSmall(Trunc(next));
    }
  }

  class FdIds {
    const tree: KidTree
    const cache: array<seq<FdId>>
    ghost var origin: map<Key, nat>    // the counter value behind a cached ID

    ghost predicate Valid()
      reads this, tree, cache
    {
      && cache.Length == FDID_SIZE && tree.Valid()
      && (forall k :: k in origin <==> Cached(k).Some?)
      && (forall k :: k in origin ==> 1 <= origin[k] < tree.subid && Cached(k).value == Trunc(origin[k]))
    }

    ghost function Cached(k: Key): Option<nat>
      requires cache.Length == FDID_SIZE
      reads cache
    {
      First(cache[Hash(k)], k)
    }

    constructor (tree: KidTree)
      requires tree.Valid()
      ensures Valid() && fresh(cache) && this.tree == tree && origin == map[]
    {
      this.tree, origin := tree, map[];
      cache := new seq<FdId>[FDID_SIZE](_ => []);
    }

    /** `fd_id_cache_one`: the new entry hides older ones with its key and no others. */
    method CacheOne(id: nat, p: Parms, ghost serial: nat)
      requires Valid() && 1 <= serial < tree.subid && id == Trunc(serial)
      modifies cache, this`origin
      ensures Valid() && origin == old(origin)[p.key := serial]
    {
      var hv := Hash(p.key);
      ghost var chain := cache[hv];
      cache[hv] := [FdId(p.key, id)] + cache[hv];
      origin := origin[p.key := serial];
      assert cache[hv][1..] == chain;
    }

    /** `fd_id_cache_lookup`. */
    method Lookup(p: Parms) returns (r: Option<nat>)
      requires Valid()
      ensures r == Cached(p.key)
    {
      var fi := cache[Hash(p.key)];
      while fi != []
        invariant First(fi, p.key) == Cached(p.key)
        decreases |fi|
      {
        if fi[0].key == p.key {
          return Some(fi[0].id);
        }
        fi := fi[1..];
      }
      r := None;
    }

    /** `fd_id_generate_special`. */
    method GenerateSpecial(p: Option<Parms>) returns (r: Reply, ghost serial: nat)
      requires Valid()
      modifies this, tree`subid, cache
      ensures Valid() && tree.serials == old(tree.serials) && r.Id? && r.id == Trunc(serial)
      ensures r.isNew <==> p.None? || p.value.key !in old(origin) || NotReused(p.value.mode)
      ensures r.isNew ==> serial == old(tree.subid) && tree.subid == serial + 1
      ensures r.isNew ==>
                origin == if p.None? || p.value.key in old(origin) then old(origin)
                  else old(origin)[p.value.key := serial]
      ensures r.isNew ==> (Unused(r.id, old(tree.subid)) <==> old(tree.subid) < ID_LIMIT)
      ensures !r.isNew ==> origin == old(origin) && serial == origin[p.value.key] && tree.subid == old(tree.subid)
    {
      UnusedExactly(tree.subid);
      if p.Some? {
        var fi := Lookup(p.value);
        if fi.Some? {
          if NotReused(p.value.mode) {
            serial := tree.subid;
            var id := tree.TakeId();
            return Id(id, true), serial;
          } else {
            return Id(fi.value, false), origin[p.value.key];
          }
        }
      }
      serial := tree.subid;
      var id := tree.TakeId();
      if p.Some? {
        CacheOne(id, p.value, serial);
      }
      r := Id(id, true);
    }

    /** `fd_id_generate`. */
    method Generate(e: Elem, p: Parms) returns (r: Reply, ghost serial: nat)
      requires Valid() && tree.kernel.Genuine(e)
      modifies this, tree, cache
      ensures r != Bug ==> Valid()
      ensures r == Bug ==> Trunc(old(tree.subid)) == 0
      ensures r == Error ==> tree.serials == old(tree.serials) && tree.subid == old(tree.subid) && origin == old(origin)
      ensures r == Error ==> exists n :: tree.faults(n)
      ensures r.Id? ==> tree.kernel.Obj(e) in tree.serials && serial == tree.serials[tree.kernel.Obj(e)]
      ensures r.Id? ==> r.id == Trunc(serial) && (r.isNew <==> tree.kernel.Obj(e) !in old(tree.serials))
      ensures r.Id? && r.isNew ==>
                && serial == old(tree.subid) && tree.subid == serial + 1
                && tree.serials == old(tree.serials)[tree.kernel.Obj(e) := serial]
                && origin == old(origin)[p.key := serial]
      ensures r.Id? && r.isNew ==> (Unused(r.id, old(tree.subid)) <==> old(tree.subid) < ID_LIMIT)
      ensures r.Id? && !r.isNew ==>
                tree.subid == old(tree.subid) && tree.serials == old(tree.serials) && origin == old(origin)
    {
      UnusedExactly(tree.subid);
      r := tree.Generate(e);
      serial := 0;
      if r.Id? {
        serial := tree.serials[tree.kernel.Obj(e)];
        if r.isNew {
          CacheOne(r.id, p, serial);
        }
      }
    }
  }

  // ---- A whole dump ----

  datatype Request = File(elem: Elem, parms: Parms) | Special(mapped: Option<Parms>)

  function KeyOf(q: Request): Option<Key> {
    match q
    case File(_, p) => Some(p.key)
    case Special(None) => None
    case Special(Some(p)) => Some(p.key)
  }

  /** One answered request with the counter value behind its ID. */
  datatype Event = Event(request: Request, reply: Reply, serial: nat)

  ghost predicate IsFile(k: Kernel, e: Event, o: int) {
    e.request.File? && e.reply.Id? && k.Obj(e.request.elem) == o
  }

  ghost predicate IsNewWithKey(e: Event, key: Key) {
    e.reply.Id? && e.reply.isNew && KeyOf(e.request) == Some(key)
  }

  /** An ID is the truncated serial, and is new exactly if its serial was not given before. */
  ghost predicate FreshFirst(log: seq<Event>) {
    && (forall i :: 0 <= i < |log| && log[i].reply.Id? ==>
        log[i].reply.id == Trunc(log[i].serial) && log[i].serial >= 1)
    && (forall i :: 0 <= i < |log| && log[i].reply.Id? ==>
          (log[i].reply.isNew <==> forall j :: 0 <= j < i && log[j].reply.Id? ==> log[j].serial != log[i].serial))
  }

  /** Files have one serial exactly when they are one object. */
  ghost predicate OnePerObject(k: Kernel, log: seq<Event>) {
    forall i, j, o, p :: 0 <= i < |log| && 0 <= j < |log| && IsFile(k, log[i], o) && IsFile(k, log[j], p) ==>
      (log[i].serial == log[j].serial <==> o == p)
  }

  /** A special file has the ID that some earlier file or special file with its key got as a new one. */
  ghost predicate Reuses(log: seq<Event>, i: nat)
    requires i < |log| && log[i].request.Special?
  {
    && log[i].request.mapped.Some?
    && exists j :: 0 <= j < i && IsNewWithKey(log[j], log[i].request.mapped.value.key) && log[j].serial == log[i].serial
  }

  /** A special file gets a new ID unless an earlier new one had its key and its type is reused; then it is that ID. */
  ghost predicate SpecialByKey(log: seq<Event>) {
    forall i :: 0 <= i < |log| && log[i].request.Special? ==>
      && log[i].reply.Id?
      && (log[i].request.mapped.None? ==> log[i].reply.isNew)
      && (log[i].request.mapped.Some? ==>
            (log[i].reply.isNew <==>
               NotReused(log[i].request.mapped.value.mode)
               || forall j :: 0 <= j < i ==> !IsNewWithKey(log[j], log[i].request.mapped.value.key)))
      && (!log[i].reply.isNew ==> Reuses(log, i))
  }

  /** How the log is reflected in the tree and in the cache. */
  ghost predicate InTree(k: Kernel, log: seq<Event>, serials: Serials) {
    && (forall i, o :: 0 <= i < |log| && IsFile(k, log[i], o) ==> o in serials && log[i].serial == serials[o])
    && (forall o :: o in serials ==> exists i :: 0 <= i < |log| && IsFile(k, log[i], o))
  }

  ghost predicate InCache(log: seq<Event>, origin: map<Key, nat>) {
    && (forall i, key :: 0 <= i < |log| && IsNewWithKey(log[i], key) ==> key in origin)
    && (forall key :: key in origin ==>
          exists i :: 0 <= i < |log| && IsNewWithKey(log[i], key) && log[i].serial == origin[key])
  }

  ghost predicate Reflected(k: Kernel, log: seq<Event>, serials: Serials, origin: map<Key, nat>, next: nat) {
    && (forall i :: 0 <= i < |log| && log[i].reply.Id? ==> log[i].serial < next)
    && InTree(k, log, serials) && InCache(log, origin)
  }

  ghost predicate Consistent(k: Kernel, log: seq<Event>) {
    FreshFirst(log) && OnePerObject(k, log) && SpecialByKey(log)
  }

  /** What one answered request does to the state, by the contracts of FdIds. */
  ghost predicate Moves(k: Kernel, e: Event, serials: Serials, origin: map<Key, nat>, next: nat, serials': Serials,
          origin': map<Key, nat>, next': nat)
  {
    && (e.reply.Id? ==> e.reply.id == Trunc(e.serial))
    && (e.reply.Id? && e.reply.isNew ==> e.serial == next && next' == next + 1)
    && (!(e.reply.Id? && e.reply.isNew) ==> serials' == serials && origin' == origin && next' == next)
    && match e.request {
         case File(elem, p) =>
           && !e.reply.Bug?
           && (e.reply.Id? ==> (e.reply.isNew <==> k.Obj(elem) !in serials))
           && (e.reply.Id? && e.reply.isNew ==>
               serials' == serials[k.Obj(elem) := e.serial] && origin' == origin[p.key := e.serial])
           && (e.reply.Id? && !e.reply.isNew ==> e.serial == serials[k.Obj(elem)])
         case Special(mapped) =>
           && e.reply.Id? && serials' == serials
           && (e.reply.isNew <==> mapped.None? || mapped.value.key !in origin || NotReused(mapped.value.mode))
           && (e.reply.isNew ==>
                 origin' == if mapped.None? || mapped.value.key in origin then origin
                   else origin[mapped.value.key := e.serial])
           && (!e.reply.isNew ==> e.serial == origin[mapped.value.key])
       }
  }

  lemma {:induction false} ExtendFresh(k: Kernel, log: seq<Event>, e: Event, serials: Serials, origin: map<Key, nat>,
          next: nat, serials': Serials, origin': map<Key, nat>, next': nat)
    requires FreshFirst(log) && Reflected(k, log, serials, origin, next) && next >= 1
    requires Moves(k, e, serials, origin, next, serials', origin', next')
    ensures FreshFirst(log + [e])
  {
    if e.reply.Id? && !e.reply.isNew {
      var i := if e.request.File? then
                 var i :| 0 <= i < |log| && IsFile(k, log[i], k.Obj(e.request.elem)); i
               else
                 var key := e.request.mapped.value.key;
                 var i :| 0 <= i < |log| && IsNewWithKey(log[i], key) && log[i].serial == origin[key]; i;
      assert log[i].reply.Id? && log[i].serial == e.serial;
    }
    var log' := log + [e];
    forall i | 0 <= i < |log'| && log'[i].reply.Id?
      ensures log'[i].reply.isNew <==> forall j :: 0 <= j < i && log'[j].reply.Id? ==> log'[j].serial != log'[i].serial
    {
      assert forall j :: 0 <= j < i ==> log'[j] == log[j];
    }
  }

  lemma {:induction false} ExtendObjects(k: Kernel, log: seq<Event>, e: Event, serials: Serials, origin: map<Key, nat>,
          next: nat, serials': Serials, origin': map<Key, nat>, next': nat)
    requires OnePerObject(k, log) && Reflected(k, log, serials, origin, next) && GoodSerials(serials', next')
    requires Moves(k, e, serials, origin, next, serials', origin', next')
    ensures OnePerObject(k, log + [e])
  {
    forall i, o | 0 <= i < |log| && IsFile(k, log[i], o)
      ensures o in serials' && log[i].serial == serials'[o]
    {
    }
  }

  lemma {:induction false} ExtendSpecial(k: Kernel, log: seq<Event>, e: Event, serials: Serials, origin: map<Key, nat>,
          next: nat, serials': Serials, origin': map<Key, nat>, next': nat)
    requires SpecialByKey(log) && Reflected(k, log, serials, origin, next)
    requires Moves(k, e, serials, origin, next, serials', origin', next')
    ensures SpecialByKey(log + [e])
  {
    var log' := log + [e];
    forall i | 0 <= i < |log'| && log'[i].request.Special? && log'[i].request.mapped.Some?
      ensures log'[i].reply.isNew <==>
                NotReused(log'[i].request.mapped.value.mode)
                || forall j :: 0 <= j < i ==> !IsNewWithKey(log'[j], log'[i].request.mapped.value.key)
    {
      assert forall j :: 0 <= j < i ==> log'[j] == log[j];
    }
    forall i | 0 <= i < |log'| && log'[i].request.Special? && log'[i].reply.Id? && !log'[i].reply.isNew
      ensures Reuses(log', i)
    {
      if i < |log| {
        assert Reuses(log, i);
        var j :| 0 <= j < i && IsNewWithKey(log[j], log[i].request.mapped.value.key) && log[j].serial == log[i].serial;
        assert log'[j] == log[j];
      } else {
        var key := e.request.mapped.value.key;
        var j :| 0 <= j < |log| && IsNewWithKey(log[j], key) && log[j].serial == origin[key];
        assert log'[j] == log[j];
      }
    }
  }

  lemma {:induction false} ExtendTree(k: Kernel, log: seq<Event>, e: Event, serials: Serials, origin: map<Key, nat>,
          next: nat, serials': Serials, origin': map<Key, nat>, next': nat)
    requires InTree(k, log, serials) && Moves(k, e, serials, origin, next, serials', origin', next')
    ensures InTree(k, log + [e], serials')
  {
    var log' := log + [e];
    assert log'[|log|] == e;
    forall o | o in serials'
      ensures exists i :: 0 <= i < |log'| && IsFile(k, log'[i], o)
    {
      if o in serials {
        var i :| 0 <= i < |log| && IsFile(k, log[i], o);
        assert IsFile(k, log'[i], o);
      } else {
        assert IsFile(k, log'[|log|], o);
      }
    }
  }

  lemma {:induction false} ExtendCache(k: Kernel, log: seq<Event>, e: Event, serials: Serials, origin: map<Key, nat>,
          next: nat, serials': Serials, origin': map<Key, nat>, next': nat)
    requires InCache(log, origin) && Moves(k, e, serials, origin, next, serials', origin', next')
    ensures InCache(log + [e], origin')
  {
    var log' := log + [e];
    assert log'[|log|] == e;
    forall key | key in origin'
      ensures exists i :: 0 <= i < |log'| && IsNewWithKey(log'[i], key) && log'[i].serial == origin'[key]
    {
      if key in origin && origin'[key] == origin[key] {
        var i :| 0 <= i < |log| && IsNewWithKey(log[i], key) && log[i].serial == origin[key];
        assert IsNewWithKey(log'[i], key) && log'[i].serial == origin'[key];
      } else {
        assert IsNewWithKey(log'[|log|], key);
      }
    }
  }

  lemma {:induction false} Extend(k: Kernel, log: seq<Event>, e: Event, serials: Serials, origin: map<Key, nat>,
          next: nat, serials': Serials, origin': map<Key, nat>, next': nat)
    requires Consistent(k, log) && Reflected(k, log, serials, origin, next) && next >= 1
    requires GoodSerials(serials, next) && GoodSerials(serials', next')
    requires Moves(k, e, serials, origin, next, serials', origin', next')
    requires forall key :: key in origin ==> origin[key] < next
    ensures Consistent(k, log + [e]) && Reflected(k, log + [e], serials', origin', next')
  {
    ExtendFresh(k, log, e, serials, origin, next, serials', origin', next');
    ExtendObjects(k, log, e, serials, origin, next, serials', origin', next');
    ExtendSpecial(k, log, e, serials, origin, next, serials', origin', next');
    ExtendTree(k, log, e, serials, origin, next, serials', origin', next');
    ExtendCache(k, log, e, serials, origin, next, serials', origin', next');
  }

  predicate IsNew(r: Reply) { r.Id? && r.isNew }

  /** A new ID is made of the counter, which moves on by one; otherwise it stays. */
  ghost predicate Counts(r: Reply, next: nat, next': nat) {
    if IsNew(r) then r.id == Trunc(next) && next' == next + 1 else next' == next
  }

  /** How many of the first `n` replies gave a new ID. */
  ghost function NewAmong(replies: seq<Reply>, n: nat): nat
    requires n <= |replies|
  {
    if n == 0 then 0 else NewAmong(replies, n - 1) + if IsNew(replies[n - 1]) then 1 else 0
  }

  /** New IDs count up, in 32 bits. */
  ghost predicate Numbered(replies: seq<Reply>) {
    forall i :: 0 <= i < |replies| && IsNew(replies[i]) ==> replies[i].id == Trunc(NewAmong(replies, i) + 1)
  }

  lemma {:induction false} NewAmongLonger(replies: seq<Reply>, more: Reply, n: nat)
    requires n <= |replies|
    ensures NewAmong(replies + [more], n) == NewAmong(replies, n)
  {
    if n > 0 {
      NewAmongLonger(replies, more, n - 1);
    }
  }

  lemma {:induction false} NumberedNext(replies: seq<Reply>, r: Reply, next: nat, next': nat)
    requires Numbered(replies) && next == NewAmong(replies, |replies|) + 1 && Counts(r, next, next')
    ensures Numbered(replies + [r]) && next' == NewAmong(replies + [r], |replies| + 1) + 1
  {
    forall n | 0 <= n <= |replies|
      ensures NewAmong(replies + [r], n) == NewAmong(replies, n)
    {
      NewAmongLonger(replies, r, n);
    }
  }

  lemma {:induction false} NewAmongGrows(replies: seq<Reply>, i: nat, j: nat)
    requires i < j <= |replies|
    ensures NewAmong(replies, i) + (if IsNew(replies[i]) then 1 else 0) <= NewAmong(replies, j)
  {
    if i + 1 < j {
      NewAmongGrows(replies, i, j - 1);
    }
  }

  lemma {:induction false} NthNew(replies: seq<Reply>, m: nat, n: nat) returns (i: nat)
    requires n <= |replies| && 1 <= m <= NewAmong(replies, n)
    ensures i < n && IsNew(replies[i]) && NewAmong(replies, i) + 1 == m
  {
    if IsNew(replies[n - 1]) && NewAmong(replies, n - 1) + 1 == m {
      i := n - 1;
    } else {
      i := NthNew(replies, m, n - 1);
    }
  }

  /** All new IDs differ from each other and from zero. */
  ghost predicate NewDistinct(replies: seq<Reply>) {
    && (forall i :: 0 <= i < |replies| && IsNew(replies[i]) ==> replies[i].id != 0)
    && (forall i, j :: 0 <= i < j < |replies| && IsNew(replies[i]) && IsNew(replies[j]) ==>
        replies[i].id != replies[j].id)
  }

  /** The new IDs of a dump are distinct and non-zero if and only if there are fewer than 2^32. */
  lemma {:induction false} IdsDistinctUntilWrap(replies: seq<Reply>)
    requires Numbered(replies)
    ensures NewDistinct(replies) <==> NewAmong(replies, |replies|) < ID_LIMIT
  {
    if NewAmong(replies, |replies|) < ID_LIMIT {
      forall i | 0 <= i < |replies| && IsNew(replies[i])
        ensures replies[i].id == NewAmong(replies, i) + 1
      {
        NewAmongGrows(replies, i, |replies|);
        TruncSmall(NewAmong(replies, i) + 1);
      }
      forall i, j | 0 <= i < j < |replies| && IsNew(replies[i]) && IsNew(replies[j])
        ensures replies[i].id != replies[j].id
      {
        NewAmongGrows(replies, i, j);
      }
    } else {
      var i := NthNew(replies, ID_LIMIT, |replies|);
      assert replies[i].id == 0;
    }
  }

  /** One request through the two entry points. */
  method Answer(ids: FdIds, request: Request) returns (reply: Reply, ghost e: Event)
    requires ids.Valid() && (request.File? ==> ids.tree.kernel.Genuine(request.elem))
    modifies ids, ids.tree, ids.cache
    ensures reply != Bug ==> ids.Valid() && e.request == request && e.reply == reply
    ensures reply != Bug ==> e.serial <= old(ids.tree.subid)
    ensures reply != Bug ==> Counts(reply, old(ids.tree.subid), ids.tree.subid)
    ensures reply != Bug ==> Moves(ids.tree.kernel, e, old(ids.tree.serials), old(ids.origin), old(ids.tree.subid),
                                   ids.tree.serials, ids.origin, ids.tree.subid)
    ensures reply == Bug ==> Trunc(old(ids.tree.subid)) == 0
    ensures reply == Error ==> exists n :: ids.tree.faults(n)
  {
    ghost var serial;
    match request {
      case File(elem, parms) => reply, serial := ids.Generate(elem, parms);
      case Special(mapped) => reply, serial := ids.GenerateSpecial(mapped);
    }
    e := Event(request, reply, if reply.Id? then serial else 0);
  }

  ghost predicate Answers(requests: seq<Request>, replies: seq<Reply>, log: seq<Event>) {
    && |log| == |replies| <= |requests|
    && forall i :: 0 <= i < |log| ==>
         log[i].request == requests[i] && log[i].reply == replies[i] && log[i].serial <= i + 1
  }

  ghost predicate Ready(ids: FdIds, log: seq<Event>)
    reads ids, ids.tree, ids.cache
  {
    && ids.Valid() && Consistent(ids.tree.kernel, log)
    && Reflected(ids.tree.kernel, log, ids.tree.serials, ids.origin, ids.tree.subid)
  }

  /** The same, kept in step with the log. */
  method AnswerNext(ids: FdIds, request: Request, ghost log: seq<Event>) returns (reply: Reply, ghost e: Event)
    requires Ready(ids, log) && (request.File? ==> ids.tree.kernel.Genuine(request.elem))
    modifies ids, ids.tree, ids.cache
    ensures reply != Bug ==> Ready(ids, log + [e]) && e.request == request && e.reply == reply
    ensures reply != Bug ==> e.serial <= old(ids.tree.subid) && Counts(reply, old(ids.tree.subid), ids.tree.subid)
    ensures reply == Bug ==> Trunc(old(ids.tree.subid)) == 0
    ensures reply == Error ==> exists n :: ids.tree.faults(n)
  {
    ghost var serials, origin, next := ids.tree.serials, ids.origin, ids.tree.subid;
    reply, e := Answer(ids, request);
    if reply != Bug {
      Extend(ids.tree.kernel, log, e, serials, origin, next, ids.tree.serials, ids.origin, ids.tree.subid);
    }
  }

  /** The replies so far: each to its request, with its event, and the new IDs counted. */
  ghost predicate Tally(requests: seq<Request>, replies: seq<Reply>, log: seq<Event>, next: nat, faultless: bool) {
    && Answers(requests, replies, log) && Numbered(replies) && next == NewAmong(replies, |replies|) + 1
    && next <= |replies| + 1 && (faultless ==> forall i :: 0 <= i < |replies| ==> replies[i].Id?)
  }

  lemma {:induction false} TallyNext(requests: seq<Request>, replies: seq<Reply>, log: seq<Event>, next: nat,
          faultless: bool, r: Reply, e: Event, next': nat)
    requires Tally(requests, replies, log, next, faultless) && |replies| < |requests|
    requires Counts(r, next, next') && e.request == requests[|replies|] && e.reply == r && e.serial <= next
    requires faultless ==> r.Id?
    ensures Tally(requests, replies + [r], log + [e], next', faultless)
  {
    NumberedNext(replies, r, next, next');
  }

  ghost predicate Faultless(faults: nat -> bool) { forall n :: !faults(n) }

  method ServeAll(ids: FdIds, requests: seq<Request>)
    returns (replies: seq<Reply>, ghost log: seq<Event>, ghost next: nat)
    requires Ready(ids, []) && ids.tree.subid == 1
    requires forall i :: 0 <= i < |requests| && requests[i].File? ==> ids.tree.kernel.Genuine(requests[i].elem)
    modifies ids, ids.tree, ids.cache
    ensures Consistent(ids.tree.kernel, log)
    ensures Tally(requests, replies, log, next, Faultless(ids.tree.faults))
    ensures |replies| < |requests| ==> |replies| >= ID_LIMIT - 1
  {
    replies, log, next := [], [], 1;
    ghost var faultless := Faultless(ids.tree.faults);
    while |replies| < |requests|
      invariant Ready(ids, log) && ids.tree.subid == next && Tally(requests, replies, log, next, faultless)
      decreases |requests| - |replies|
    {
      var reply;
      ghost var event;
      reply, event := AnswerNext(ids, requests[|replies|], log);
      if reply == Bug {
        TruncSmallNonZero(next);
        return;
      }
      TallyNext(requests, replies, log, next, faultless, reply, event, ids.tree.subid);
      replies, log, next := replies + [reply], log + [event], ids.tree.subid;
    }
  }

  lemma {:induction false} TruncSmallNonZero(next: nat)
    requires next >= 1 && Trunc(next) == 0
    ensures next >= ID_LIMIT
  {
  }

  /** Two answered requests of a consistent log, by their serials. */
  lemma {:induction false} SerialsMatch(k: Kernel, log: seq<Event>, i: nat, j: nat)
    requires Consistent(k, log) && i < j < |log| && log[i].reply.Id? && log[j].reply.Id?
    ensures log[i].reply.id == Trunc(log[i].serial) && log[j].reply.id == Trunc(log[j].serial)
    ensures log[i].serial >= 1 && log[j].serial >= 1
    ensures log[i].request.File? && log[j].request.File? ==>
              (log[i].serial == log[j].serial <==> k.Obj(log[i].request.elem) == k.Obj(log[j].request.elem))
    ensures log[j].reply.isNew ==> log[i].serial != log[j].serial
  {
    assert FreshFirst(log) && OnePerObject(k, log);
    if log[i].request.File? && log[j].request.File? {
      assert IsFile(k, log[i], k.Obj(log[i].request.elem)) && IsFile(k, log[j], k.Obj(log[j].request.elem));
    }
  }

  /**
   * While the counter has not come to 2^32, which takes as many requests: files have
   * equal IDs exactly when they are one object, and new IDs, of files and of special
   * files, differ from all before and from zero.
   */
  lemma {:induction false} IdsMatchObjects(k: Kernel, requests: seq<Request>, replies: seq<Reply>, log: seq<Event>,
          i: nat, j: nat)
    requires Answers(requests, replies, log) && Consistent(k, log) && |requests| < ID_LIMIT
    requires i < j < |replies| && replies[i].Id? && replies[j].Id?
    ensures replies[i].id != 0 && replies[j].id != 0
    ensures requests[i].File? && requests[j].File? ==>
              (replies[i].id == replies[j].id <==> k.Obj(requests[i].elem) == k.Obj(requests[j].elem))
    ensures replies[j].isNew ==> replies[i].id != replies[j].id
  {
    SerialsMatch(k, log, i, j);
    TruncSmall(log[i].serial);
    TruncSmall(log[j].serial);
  }

  /**
   * Any sequence of requests, with what IdsMatchObjects needs to know about it.
   */
  method Serve(kernel: Kernel, faults: nat -> bool, balanceHeads: Tree<Head> -> Tree<Head>,
          balanceSubs: Tree<Entry> -> Tree<Entry>, requests: seq<Request>)
    returns (replies: seq<Reply>, ghost log: seq<Event>)
    requires KeepsOrder(balanceHeads) && KeepsOrder(balanceSubs)
    requires forall i :: 0 <= i < |requests| && requests[i].File? ==> kernel.Genuine(requests[i].elem)
    ensures Answers(requests, replies, log) && Consistent(kernel, log) && Numbered(replies)
    ensures |replies| < |requests| ==> |replies| >= ID_LIMIT - 1
    ensures Faultless(faults) ==> forall i :: 0 <= i < |replies| ==> replies[i].Id?
  {
    var tree := new KidTree(kernel, faults, balanceHeads, balanceSubs);
    var ids := new FdIds(tree);
    assert Ready(ids, []);
    ghost var next;
    replies, log, next := ServeAll(ids, requests);
  }

  /** After 2^32 - 1 IDs a special file gets the ID zero, and the next one an ID that has been given before. */
  method WrapAround(kernel: Kernel, faults: nat -> bool, balanceHeads: Tree<Head> -> Tree<Head>,
          balanceSubs: Tree<Entry> -> Tree<Entry>)
    returns (first: Reply, zero: Reply, again: Reply)
    requires KeepsOrder(balanceHeads) && KeepsOrder(balanceSubs)
    ensures first == Id(1, true) && zero == Id(0, true) && again == Id(1, true)
  {
    var tree := new KidTree(kernel, faults, balanceHeads, balanceSubs);
    var ids := new FdIds(tree);
    ghost var serial;
    first, serial := ids.GenerateSpecial(None);
    while tree.subid < ID_LIMIT
      invariant ids.Valid() && ids.tree == tree && 2 <= tree.subid <= ID_LIMIT
      invariant fresh(tree) && fresh(ids) && fresh(ids.cache)
    {
      zero, serial := ids.GenerateSpecial(None);
    }
    zero, serial := ids.GenerateSpecial(None);
    again, serial := ids.GenerateSpecial(None);
  }
}
