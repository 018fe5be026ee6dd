/**
 * A queue of encoded reads (`encoded_async_read_batch`): payloads come from the read-ahead or are read now,
 * and are decoded into the destination of their request. Whatever is read ahead, and however the pool runs
 * the jobs, the queue leaves the same memory.
 */
module EncodedQueue {
  import opened Common
  import opened Iovecs
  import opened EncodedRead
  import Prefetch

  type Piov = Prefetch.Piov

  /** A queued read: where its payload starts in the pages image, and what is to become of it. */
  datatype Queued = Queued(from: nat, req: Request)

  /** The request as the read-ahead knows it; `id` stands for the address of its descriptor. */
  function PiovOf(q: Queued, id: nat): Piov { Prefetch.Piov(id, q.from, q.req.totalBytes) }

  /** What a batch meets: for the buffers, whether the pool works beside the caller, and how it is called. */
  datatype Setting = Setting(
    env: Prefetch.Environment, parallel: bool, parallelZero: bool, pool: seq<Job> -> PoolCall)

  ghost predicate Lawful(lz4: Lz4, setting: Setting) {
    forall jobs :: setting.pool(jobs).Pooled? ==> Reports(lz4, jobs, setting.pool(jobs).report)
  }

  /** The payload of a request, as far as the image has it. */
  function Payload(file: seq<Byte>, q: Queued): seq<Byte> { Prefetch.Slice(file, q.from, q.req.totalBytes) }

  /** The destination of a request holds its decoded blocks. */
  ghost predicate Delivered(mem: seq<Byte>, lz4: Lz4, file: seq<Byte>, q: Queued) {
    && Fits(q.req.to, |mem|) && Consistent(q.req) && |Payload(file, q)| == q.req.totalBytes
    && DecodeAll(lz4, q.req, Payload(file, q), |q.req.blocks|) == Some(Gather(mem, q.req.to))
  }

  /** Block by block, the destination of a delivered request holds what the image stores for it. */
  lemma {:induction false} DeliveredMeans(mem: seq<Byte>, lz4: Lz4, file: seq<Byte>, q: Queued)
    requires Delivered(mem, lz4, file, q)
    ensures q.from + q.req.totalBytes <= |file| || q.req.totalBytes == 0
    ensures Restored(lz4, q.req, if q.req.totalBytes == 0 then [] else file[q.from..q.from + q.req.totalBytes],
                     Gather(mem, q.req.to))
  {
    DecodeAllMeans(lz4, q.req, Payload(file, q));
  }

  /** Nothing is wrong with a request: its payload is in the image and can be read. */
  ghost predicate Sound(lz4: Lz4, file: seq<Byte>, q: Queued, parallelZero: bool) {
    Prefetch.InFile(file, PiovOf(q, 0)) && Accepts(lz4, q.req, Payload(file, q), parallelZero)
  }

  /** Nothing goes wrong in the environment of a batch, except for the leases that reading ahead needs. */
  ghost predicate Calm(setting: Setting) {
    setting.env.memory && setting.env.payloadRead && Prefetch.Clean(setting.env.preads)
  }

  /** The payload of the request, taken over or read now; none on an error. */
  method Fetch(ctx: Prefetch.Context, p: Piov, ready: bool, env: Prefetch.Environment, ghost prefetching: bool)
    returns (payload: Option<seq<Byte>>)
    requires ctx.Processing(prefetching)
    requires ready && p.total > 0 ==>
               && ctx.compressed != null && p.total <= ctx.compressedCap && Prefetch.InFile(ctx.file, p)
               && ctx.compressed[..p.total] == ctx.file[p.from..p.from + p.total]
    modifies ctx`compressed, ctx`compressedCap, ctx.compressed
    ensures ctx.Processing(prefetching) && fresh(ctx.Footprint() - old(ctx.Footprint()))
    ensures payload.Some? ==>
              payload.value == Prefetch.Slice(ctx.file, p.from, p.total) && |payload.value| == p.total
    ensures env.memory && env.payloadRead && Prefetch.InFile(ctx.file, p) ==> payload.Some?
  {
    if p.total == 0 {
      return Some([]);
    }
    var ok := ctx.Load(p, ready, env.memory, env.payloadRead, prefetching);
    payload := if ok then Some(ctx.compressed[..p.total]) else None;
  }

  /** One request with its payload: decoded into memory, while the pool may let the caller read ahead. */
  method DecodeInto(ctx: Prefetch.Context, m: Memory, lz4: Lz4, req: Request, payload: Option<seq<Byte>>,
          prefetching: bool, setting: Setting)
    returns (ok: bool)
    requires ctx.Processing(prefetching) && m.Valid() && {m, m.bytes} !! ctx.Footprint()
    requires Fits(req.to, m.bytes.Length) && Disjoint(req.to) && Lawful(lz4, setting)
    requires payload.Some? ==> |payload.value| == req.totalBytes
    modifies m, m.bytes, ctx`done, ctx`savedErrno, ctx`complete, ctx.prefetchBuffer
    ensures ctx.BuffersOk() && ctx.batchAcquired && (ctx.complete <==> prefetching && setting.parallel && payload.Some?)
    ensures prefetching ==> ctx.Holds(ctx.prefetchBuffer)
    ensures ctx.complete && Prefetch.Clean(setting.env.preads) && ctx.offset + ctx.count <= |ctx.file| ==>
              ctx.savedErrno == 0 && ctx.done == ctx.count
    ensures m.Valid() && Untouched(m.bytes[..], req.to, old(m.bytes[..]))
    ensures ok ==> payload.Some? && Consistent(req)
    ensures ok ==> DecodeAll(lz4, req, payload.value, |req.blocks|) == Some(Gather(m.bytes[..], req.to))
    ensures payload.Some? && Accepts(lz4, req, payload.value, setting.parallelZero) ==> ok
  {
    m.Forget();
    if payload.Some? {
      DecodeAllMeans(lz4, req, payload.value);
    }
    ok := Read(m, lz4, req, payload, setting.parallelZero, setting.pool);
    if prefetching && setting.parallel && payload.Some? {
      ctx.Read(setting.env.preads);
    }
  }

  /** `process_encoded_async_read`: the payload of a request is fetched and decoded into its destination. */
  method Process(ctx: Prefetch.Context, m: Memory, lz4: Lz4, q: Queued, p: Piov, ready: bool, prefetching: bool,
          setting: Setting)
    returns (ok: bool)
    requires ctx.Processing(prefetching) && m.Valid() && {m, m.bytes} !! ctx.Footprint() && p == PiovOf(q, p.id)
    requires Fits(q.req.to, m.bytes.Length) && Disjoint(q.req.to) && Lawful(lz4, setting)
    requires ready ==> ctx.compressed != null && p.total <= ctx.compressedCap && Prefetch.InFile(ctx.file, p)
                       && ctx.compressed[..p.total] == ctx.file[p.from..p.from + p.total]
    modifies ctx`compressed, ctx`compressedCap, ctx.compressed, m, m.bytes, ctx`done, ctx`savedErrno, ctx`complete,
             ctx.prefetchBuffer
    ensures ctx.BuffersOk() && (ctx.complete ==> prefetching) && fresh(ctx.Footprint() - old(ctx.Footprint()))
    ensures ok ==> (ctx.complete <==> prefetching && setting.parallel)
    ensures prefetching ==> ctx.Holds(ctx.prefetchBuffer)
    ensures ctx.complete && Prefetch.Clean(setting.env.preads) && ctx.offset + ctx.count <= |ctx.file| ==>
              ctx.savedErrno == 0 && ctx.done == ctx.count
    ensures m.Valid() && Untouched(m.bytes[..], q.req.to, old(m.bytes[..]))
    ensures ok ==> Delivered(m.bytes[..], lz4, ctx.file, q)
    ensures Calm(setting) && Sound(lz4, ctx.file, q, setting.parallelZero) ==> ok
  {
    var payload := Fetch(ctx, p, ready, setting.env, prefetching);
    ok := DecodeInto(ctx, m, lz4, q.req, payload, prefetching, setting);
  }

  /** The token, if there is one, is for this request and complete. */
  ghost predicate TokenFor(ctx: Prefetch.Context, p: Piov)
    reads ctx
  {
    ctx.token.Some? ==> ctx.token.value == p && ctx.savedErrno == 0 && ctx.done == p.total
  }

  /** A batch from its processing on: then what was read ahead is published or given up. */
  method Finish(ctx: Prefetch.Context, m: Memory, lz4: Lz4, q: Queued, p: Piov, ready: bool, prefetching: bool,
          next: Option<Piov>, setting: Setting)
    returns (ok: bool)
    requires ctx.Processing(prefetching) && m.Valid() && {m, m.bytes} !! ctx.Footprint() && p == PiovOf(q, p.id)
    requires Fits(q.req.to, m.bytes.Length) && Disjoint(q.req.to) && Lawful(lz4, setting)
    requires ready ==> ctx.compressed != null && p.total <= ctx.compressedCap && Prefetch.InFile(ctx.file, p)
                       && ctx.compressed[..p.total] == ctx.file[p.from..p.from + p.total]
    requires prefetching ==> next.Some? && ctx.offset == next.value.from && ctx.count == next.value.total
    modifies ctx, ctx.compressed, ctx.prefetchBuffer, m, m.bytes
    ensures ctx.Valid() && fresh(ctx.Footprint() - old(ctx.Footprint()))
    ensures ctx.token == if ok && prefetching && setting.parallel then next else None
    ensures m.Valid() && Untouched(m.bytes[..], q.req.to, old(m.bytes[..]))
    ensures ok ==> Delivered(m.bytes[..], lz4, ctx.file, q)
    ensures Calm(setting) && Sound(lz4, ctx.file, q, setting.parallelZero) ==> ok
    ensures Calm(setting) && next.Some? && Prefetch.InFile(ctx.file, next.value) ==> TokenFor(ctx, next.value)
  {
    ok := Process(ctx, m, lz4, q, p, ready, prefetching, setting);
    ctx.CloseBatch(next, prefetching, ok);
  }

  /**
   * `encoded_async_read_batch`. If it succeeds, the destination of the request holds its decoded blocks and the
   * context is ready for the next one; nothing outside the destination is touched.
   */
  method Batch(ctx: Prefetch.Context, m: Memory, lz4: Lz4, q: Queued, id: nat, next: Option<Piov>, setting: Setting)
    returns (ok: bool)
    requires ctx.Valid() && m.Valid() && {m, m.bytes} !! ctx.Footprint()
    requires Fits(q.req.to, m.bytes.Length) && Disjoint(q.req.to) && Lawful(lz4, setting)
    modifies ctx, ctx.compressed, ctx.prefetchBuffer, m, m.bytes
    ensures ctx.Valid() && fresh(ctx.Footprint() - old(ctx.Footprint()))
    ensures m.Valid() && Untouched(m.bytes[..], q.req.to, old(m.bytes[..]))
    ensures ok ==> Delivered(m.bytes[..], lz4, ctx.file, q)
    ensures ok ==> ctx.token == if setting.parallel && old(ctx.Prepares(next, setting.env)) then next else None
    ensures Calm(setting) && Sound(lz4, ctx.file, q, setting.parallelZero) && old(TokenFor(ctx, PiovOf(q, id))) ==> ok
    ensures ok && Calm(setting) && next.Some? && Prefetch.InFile(ctx.file, next.value) ==> TokenFor(ctx, next.value)
  {
    var p := PiovOf(q, id);
    var stage, prepared := ctx.OpenBatch(p, next, setting.env);
    if stage < 0 {
      return false;
    }
    ok := Finish(ctx, m, lz4, q, p, stage > 0, prepared, next, setting);
  }

  // ---- The whole queue ----

  ghost predicate QueueOk(queue: seq<Queued>, size: nat) {
    forall i :: 0 <= i < |queue| ==> Fits(queue[i].req.to, size) && Disjoint(queue[i].req.to)
  }

  /** `mem` is `before` with one request delivered. */
  ghost predicate Delivers(lz4: Lz4, file: seq<Byte>, q: Queued, before: seq<Byte>, mem: seq<Byte>) {
    Delivered(mem, lz4, file, q) && Untouched(mem, q.req.to, before)
  }

  /** Memory after none, one, two, ... of the requests, delivered one after the other. */
  ghost predicate Chain(lz4: Lz4, file: seq<Byte>, queue: seq<Queued>, mems: seq<seq<Byte>>) {
    && 0 < |mems| <= |queue| + 1
    && forall k :: 0 <= k < |mems| - 1 ==> Delivers(lz4, file, queue[k], mems[k], mems[k + 1])
  }

  /** The first `i` requests are delivered. */
  ghost predicate UpTo(lz4: Lz4, file: seq<Byte>, queue: seq<Queued>, mems: seq<seq<Byte>>, i: nat, orig: seq<Byte>,
          mem: seq<Byte>)
  {
    Chain(lz4, file, queue, mems) && |mems| == i + 1 && mems[0] == orig && mems[i] == mem
  }

  lemma {:induction false} OneMore(lz4: Lz4, file: seq<Byte>, queue: seq<Queued>, mems: seq<seq<Byte>>, i: nat,
          orig: seq<Byte>, before: seq<Byte>, mem: seq<Byte>)
    requires UpTo(lz4, file, queue, mems, i, orig, before) && i < |queue|
    requires Delivers(lz4, file, queue[i], before, mem)
    ensures UpTo(lz4, file, queue, mems + [mem], i + 1, orig, mem)
  {
  }

  /** All requests are sound and all settings calm. */
  ghost predicate AllWell(lz4: Lz4, file: seq<Byte>, queue: seq<Queued>, settings: seq<Setting>)
    requires |settings| == |queue|
  {
    forall i :: 0 <= i < |queue| ==> Sound(lz4, file, queue[i], settings[i].parallelZero) && Calm(settings[i])
  }

  ghost predicate AllLawful(lz4: Lz4, settings: seq<Setting>) {
    forall i :: 0 <= i < |settings| ==> Lawful(lz4, settings[i])
  }

  /** The context before request `i`. */
  ghost predicate ReadyFor(ctx: Prefetch.Context, queue: seq<Queued>, i: nat, well: bool)
    reads ctx, ctx.compressed
  {
    && ctx.Valid() && (i >= |queue| ==> ctx.token.None?)
    && (well && i < |queue| ==> TokenFor(ctx, PiovOf(queue[i], i)))
  }

  method ReadNext(ctx: Prefetch.Context, m: Memory, lz4: Lz4, queue: seq<Queued>, i: nat, settings: seq<Setting>,
          ghost well: bool, ghost mems: seq<seq<Byte>>, ghost orig: seq<Byte>)
    returns (ok: bool, ghost mems': seq<seq<Byte>>)
    requires i < |queue| == |settings| && ReadyFor(ctx, queue, i, well) && m.Valid() && {m, m.bytes} !! ctx.Footprint()
    requires QueueOk(queue, m.bytes.Length) && AllLawful(lz4, settings)
    requires well ==> AllWell(lz4, ctx.file, queue, settings)
    requires UpTo(lz4, ctx.file, queue, mems, i, orig, m.bytes[..])
    modifies ctx, ctx.compressed, ctx.prefetchBuffer, m, m.bytes
    ensures ctx.Valid() && fresh(ctx.Footprint() - old(ctx.Footprint())) && m.Valid() && (well ==> ok)
    ensures ok ==> ReadyFor(ctx, queue, i + 1, well)
    ensures UpTo(lz4, ctx.file, queue, mems', if ok then i + 1 else i, orig, if ok then m.bytes[..]
            else old(m.bytes[..]))
  {
    var next := if i + 1 < |queue| then Some(PiovOf(queue[i + 1], i + 1)) else None;
    assert well && i + 1 < |queue| ==> Sound(lz4, ctx.file, queue[i + 1], settings[i + 1].parallelZero);
    ghost var before := m.bytes[..];
    ok := Batch(ctx, m, lz4, queue[i], i, next, settings[i]);
    mems' := mems;
    if ok {
      OneMore(lz4, ctx.file, queue, mems, i, orig, before, m.bytes[..]);
      mems' := mems + [m.bytes[..]];
    }
  }

  /** The requests of the queue, one after the other with one context. */
  method ReadEach(ctx: Prefetch.Context, m: Memory, lz4: Lz4, queue: seq<Queued>, settings: seq<Setting>,
          ghost well: bool)
    returns (ok: bool, ghost mems: seq<seq<Byte>>)
    requires |settings| == |queue| && ReadyFor(ctx, queue, 0, well) && m.Valid() && {m, m.bytes} !! ctx.Footprint()
    requires QueueOk(queue, m.bytes.Length) && AllLawful(lz4, settings)
    requires well ==> AllWell(lz4, ctx.file, queue, settings)
    modifies ctx, ctx.compressed, ctx.prefetchBuffer, m, m.bytes
    ensures ctx.Valid() && (well ==> ok)
    ensures Chain(lz4, ctx.file, queue, mems) && mems[0] == old(m.bytes[..])
    ensures ok ==> |mems| == |queue| + 1 && mems[|queue|] == m.bytes[..]
  {
    ghost var orig := m.bytes[..];
    ok, mems := true, [orig];
    for i := 0 to |queue|
      invariant ReadyFor(ctx, queue, i, well) && m.Valid() && fresh(ctx.Footprint() - old(ctx.Footprint()))
      invariant ok && UpTo(lz4, ctx.file, queue, mems, i, orig, m.bytes[..])
    {
      ok, mems := ReadNext(ctx, m, lz4, queue, i, settings, well, mems, orig);
      if !ok {
        return;
      }
    }
  }

  /**
   * A whole queue of reads. When it succeeds, the requests were delivered one after the other, each with its own
   * payload from the image, and no other byte of memory has changed; it does succeed when the image is sound and
   * reading does not fail, whatever is read ahead.
   */
  method ReadQueue(file: seq<Byte>, m: Memory, lz4: Lz4, queue: seq<Queued>, settings: seq<Setting>)
    returns (ok: bool, ghost mems: seq<seq<Byte>>)
    requires |settings| == |queue| && m.Valid() && QueueOk(queue, m.bytes.Length) && AllLawful(lz4, settings)
    modifies m, m.bytes
    ensures Chain(lz4, file, queue, mems) && mems[0] == old(m.bytes[..])
    ensures ok ==> |mems| == |queue| + 1 && mems[|queue|] == m.bytes[..]
    ensures AllWell(lz4, file, queue, settings) ==> ok
  {
    var ctx := new Prefetch.Context(file);
    ok, mems := ReadEach(ctx, m, lz4, queue, settings, AllWell(lz4, file, queue, settings));
    ctx.EndWork();
  }

  // ---- What a queue leaves in memory ----

  lemma {:induction false} SameByte(mem: seq<Byte>, mem': seq<Byte>, to: seq<Iovec>, a: nat)
    requires |mem| == |mem'| && Fits(to, |mem|) && Gather(mem, to) == Gather(mem', to) && !Outside(to, a) && a < |mem|
    ensures mem[a] == mem'[a]
  {
    var i :| 0 <= i < |to| && Within(to[i], a);
    var p := Start(to, i) + (a - to[i].base);
    AddrAt(to, |to|, i, p);
    assert to[..|to|] == to;
    GatherAt(mem, to, |to|, p);
    GatherAt(mem', to, |to|, p);
  }

  lemma {:induction false} SameDelivery(lz4: Lz4, file: seq<Byte>, q: Queued, before: seq<Byte>, mem: seq<Byte>,
          mem': seq<Byte>)
    requires Delivers(lz4, file, q, before, mem) && Delivers(lz4, file, q, before, mem')
    ensures mem == mem'
  {
    forall a: nat | a < |mem|
      ensures mem[a] == mem'[a]
    {
      if !Outside(q.req.to, a) {
        SameByte(mem, mem', q.req.to, a);
      }
    }
  }

  /** What a queue leaves in memory is determined by the image and the memory before. */
  lemma {:induction false} SameMemory(lz4: Lz4, file: seq<Byte>, queue: seq<Queued>, mems: seq<seq<Byte>>,
          mems': seq<seq<Byte>>, k: nat)
    requires Chain(lz4, file, queue, mems) && Chain(lz4, file, queue, mems') && mems[0] == mems'[0]
    requires k < |mems| && k < |mems'|
    ensures mems[k] == mems'[k]
  {
    if k > 0 {
      SameMemory(lz4, file, queue, mems, mems', k - 1);
      assert Delivers(lz4, file, queue[k - 1], mems[k - 1], mems[k]);
      assert Delivers(lz4, file, queue[k - 1], mems'[k - 1], mems'[k]);
      SameDelivery(lz4, file, queue[k - 1], mems[k - 1], mems[k], mems'[k]);
    }
  }

  /** No address belongs to both destinations. */
  ghost predicate Apart(to: seq<Iovec>, to': seq<Iovec>) {
    forall a: nat :: !Outside(to, a) ==> Outside(to', a)
  }

  /** A later read elsewhere keeps what was delivered. */
  lemma {:induction false} StaysDelivered(mem: seq<Byte>, mem': seq<Byte>, lz4: Lz4, file: seq<Byte>, q: Queued,
          to': seq<Iovec>)
    requires Delivered(mem, lz4, file, q) && Untouched(mem', to', mem) && Apart(q.req.to, to')
    ensures Delivered(mem', lz4, file, q)
  {
    var to := q.req.to;
    assert to[..|to|] == to;
    GatherAt(mem, to, |to|, 0);
    GatherAt(mem', to, |to|, 0);
    forall p | 0 <= p < Total(to)
      ensures Gather(mem', to)[p] == Gather(mem, to)[p]
    {
      GatherAt(mem, to, |to|, p);
      GatherAt(mem', to, |to|, p);
      var i := Locate(to, |to|, p);
      assert !Outside(to, Addr(to, p));
    }
    assert Gather(mem', to) == Gather(mem, to);
  }

  /** A request holds its blocks for as long as no later one shares an address with it. */
  lemma {:induction false} DeliveredFor(lz4: Lz4, file: seq<Byte>, queue: seq<Queued>, mems: seq<seq<Byte>>, i: nat,
          k: nat)
    requires Chain(lz4, file, queue, mems) && i < k < |mems|
    requires forall j :: i < j < k ==> Apart(queue[i].req.to, queue[j].req.to)
    ensures Delivered(mems[k], lz4, file, queue[i])
    decreases k
  {
    assert Delivers(lz4, file, queue[k - 1], mems[k - 1], mems[k]);
    if i < k - 1 {
      DeliveredFor(lz4, file, queue, mems, i, k - 1);
      StaysDelivered(mems[k - 1], mems[k], lz4, file, queue[i], queue[k - 1].req.to);
    }
  }

  /** An address that belongs to no request keeps its byte. */
  lemma {:induction false} RestUntouched(lz4: Lz4, file: seq<Byte>, queue: seq<Queued>, mems: seq<seq<Byte>>, k: nat,
          a: nat)
    requires Chain(lz4, file, queue, mems) && k < |mems| && a < |mems[0]|
    requires forall i :: 0 <= i < k ==> Outside(queue[i].req.to, a)
    ensures |mems[k]| == |mems[0]| && mems[k][a] == mems[0][a]
  {
    if k > 0 {
      RestUntouched(lz4, file, queue, mems, k - 1, a);
      assert Delivers(lz4, file, queue[k - 1], mems[k - 1], mems[k]);
    }
  }

  /**
   * The same queue read twice, with whatever is read ahead, granted and pooled each time: if both succeed the
   * memory is the same, and on a sound image without read errors both do.
   */
  method ReadTwice(file: seq<Byte>, m: Memory, m': Memory, lz4: Lz4, queue: seq<Queued>, settings: seq<Setting>,
          settings': seq<Setting>)
    returns (ok: bool, ok': bool)
    requires |settings| == |settings'| == |queue| && AllLawful(lz4, settings) && AllLawful(lz4, settings')
    requires m.Valid() && m'.Valid() && m != m' && m.bytes != m'.bytes && m.bytes[..] == m'.bytes[..]
    requires QueueOk(queue, m.bytes.Length)
    modifies m, m.bytes, m', m'.bytes
    ensures ok && ok' ==> m.bytes[..] == m'.bytes[..]
    ensures AllWell(lz4, file, queue, settings) ==> ok
    ensures AllWell(lz4, file, queue, settings') ==> ok'
  {
    assert m'.bytes.Length == |m.bytes[..]|;
    ghost var mems, mems';
    ok, mems := ReadQueue(file, m, lz4, queue, settings);
    ok', mems' := ReadQueue(file, m', lz4, queue, settings');
    if ok && ok' {
      SameMemory(lz4, file, queue, mems, mems', |queue|);
    }
  }
}
