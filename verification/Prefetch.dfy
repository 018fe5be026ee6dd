/**
 * The two payload buffers of an encoded-read context (`struct encoded_read_ctx`): while one request is
 * decoded from `compressed`, the payload of the next may be read into `prefetchBuffer`; publishing swaps
 * the two and leaves a token, and taking the token hands the payload to the request it was read for.
 */
module Prefetch {
  import opened Common

  /** A queued request: its identity and the range of the pages image that holds its payload. */
  datatype Piov = Piov(id: nat, from: nat, total: nat)

  /** What one pread call does: it is interrupted, fails, or returns at most `n` bytes. */
  datatype Pread = Interrupted | Error(errno: Errno) | Bytes(n: nat)

  type Errno = n: nat | n > 0 witness 1

  /** How the request was processed: stopped before the pool call, or with the pool run serially or in parallel. */
  datatype Decoding = Early | Serial(ok: bool) | Parallel(ok: bool)

  /** The outcomes that one batch meets in its environment. */
  datatype Environment = Environment(
    eligible: bool, lease: bool, memory: bool, payloadRead: bool, decoding: Decoding, preads: seq<Pread>)

  /** The part of the image that a request wants, as far as the image has it. */
  function Slice(file: seq<Byte>, from: nat, n: nat): seq<Byte> {
    if from >= |file| then [] else file[from..Min(from + n, |file|)]
  }

  predicate InFile(file: seq<Byte>, p: Piov) { p.from + p.total <= |file| }

  class Context {
    const file: seq<Byte>

    var compressed: array?<Byte>
    var compressedCap: nat
    var prefetchBuffer: array?<Byte>
    var prefetchCap: nat
    var token: Option<Piov>
    var batchAcquired: bool
    var prefetchBatchAcquired: bool
    // struct encoded_prefetch
    var buffer: array?<Byte>
    var count: nat
    var done: nat
    var offset: nat
    var savedErrno: nat
    var complete: bool

    constructor (file: seq<Byte>)
      ensures Valid() && this.file == file && token.None? && !batchAcquired && compressed == null
      ensures prefetchBuffer == null
    {
      this.file := file;
      compressed, prefetchBuffer, buffer := null, null, null;
      compressedCap, prefetchCap, count, done, offset, savedErrno := 0, 0, 0, 0, 0, 0;
      token, batchAcquired, prefetchBatchAcquired, complete := None, false, false, false;
    }

    ghost function Footprint(): set<object>
      reads this
    {
      var own := if compressed == null then {} else {compressed};
      var ahead := if prefetchBuffer == null then {} else {prefetchBuffer};
      {this} + own + ahead
    }

    /** Capacities are real, the two buffers are distinct, and each is only held under its batch lease. */
    ghost predicate BuffersOk()
      reads this
    {
      && (if compressed == null then compressedCap == 0 else compressed.Length == compressedCap)
      && (if prefetchBuffer == null then prefetchCap == 0 else prefetchBuffer.Length == prefetchCap)
      && (compressed != null && prefetchBuffer != null ==> compressed != prefetchBuffer)
      && (compressed != null ==> batchAcquired)
      && (prefetchBuffer != null ==> prefetchBatchAcquired)
      && (prefetchBatchAcquired ==> batchAcquired)
    }

    /** `b` holds the first `done` bytes of the range that the prefetch was asked for. */
    ghost predicate Holds(b: array?<Byte>)
      reads this, b
    {
      && b != null && buffer == b && 0 < count <= b.Length && done <= count
      && (done > 0 ==> offset + done <= |file|)
      && b[..done] == Slice(file, offset, done)
    }

    /** Between batches: a token is there exactly when a completed prefetch is, and `compressed` holds its payload. */
    ghost predicate Valid()
      reads this, compressed
    {
      && BuffersOk()
      && (token.Some? <==> complete)
      && (token.Some? ==>
            Holds(compressed) && offset == token.value.from && count == token.value.total && prefetchBatchAcquired)
    }

    /** `encoded_prefetch_take`. */
    method Take(p: Piov) returns (r: int)
      requires Valid()
      modifies this`token, this`complete
      ensures Valid() && r in {-1, 0, 1}
      ensures r == 0 <==> old(token).None?
      ensures r == 1 ==> old(token) == Some(p) && token.None? && !complete
      ensures r == 1 ==> compressed != null && p.total <= compressedCap && InFile(file, p)
                         && compressed[..p.total] == file[p.from..p.from + p.total]
      ensures r == 0 ==> token.None? && !complete
      ensures r == -1 <==>
                old(token).Some? && (old(token) != Some(p) || old(savedErrno) != 0 || old(done) != p.total)
    {
      if token.None? {
        return 0;
      }
      if token.value != p {
        return -1;
      }
      token, complete := None, false;
      if count != p.total {
        return -1;
      }
      if savedErrno != 0 {
        return -1;
      }
      if done != count {
        return -1;
      }
      r := 1;
    }

    /** `encoded_prefetch_disable`: the prefetch buffer and its lease go together. */
    method Disable()
      requires BuffersOk()
      modifies this`token, this`complete, this`buffer, this`count, this`done, this`offset, this`savedErrno,
               this`prefetchBuffer, this`prefetchCap, this`prefetchBatchAcquired
      ensures Valid() && token.None? && prefetchBuffer == null && !prefetchBatchAcquired
    {
      token, complete := None, false;
      buffer, count, done, offset, savedErrno := null, 0, 0, 0, 0;
      prefetchBuffer, prefetchCap, prefetchBatchAcquired := null, 0, false;
    }

    /** `encoded_prefetch_prepare`; its BUG_ON is the assertion. */
    method Prepare(p: Piov, lease: bool, memory: bool) returns (ok: bool)
      requires Valid() && batchAcquired && token.None? && p.total > 0
      modifies this`token, this`complete, this`buffer, this`count, this`done, this`offset, this`savedErrno,
               this`prefetchBuffer, this`prefetchCap, this`prefetchBatchAcquired
      ensures Valid() && token.None?
      ensures ok <==> (old(prefetchBatchAcquired) || lease) && (old(prefetchCap) >= p.total || memory)
      ensures ok ==> prefetchBatchAcquired && prefetchBuffer != null && Holds(prefetchBuffer)
      ensures ok ==> offset == p.from && count == p.total && done == 0 && savedErrno == 0
      ensures ok ==> fresh(prefetchBuffer) || prefetchBuffer == old(prefetchBuffer)
      ensures !ok ==> !prefetchBatchAcquired && prefetchBuffer == null
    {
      assert !(token.Some? || complete || p.total == 0);
      if !prefetchBatchAcquired {
        if !lease {
          return false;
        }
        prefetchBatchAcquired := true;
      }
      if prefetchCap < p.total {
        if !memory {
          Disable();
          return false;
        }
        prefetchBuffer := new Byte[p.total];
        prefetchCap := p.total;
      }
      buffer, count, done, offset, savedErrno := prefetchBuffer, p.total, 0, p.from, 0;
      ok := true;
    }

    /** One successful pread of `n` more bytes. */
    method Append(n: nat)
      requires prefetchBuffer != null && Holds(prefetchBuffer) && 0 < n <= count - done && offset + done + n <= |file|
      modifies this`done, prefetchBuffer
      ensures Holds(prefetchBuffer) && done == old(done) + n
    {
      ghost var before := prefetchBuffer[..done];
      forall j | 0 <= j < n {
        prefetchBuffer[done + j] := file[offset + done + j];
      }
      assert prefetchBuffer[..done + n] == before + file[offset + done..offset + done + n];
      assert before + file[offset + done..offset + done + n] == file[offset..offset + done + n];
      done := done + n;
    }

    /** `encoded_prefetch_read`: read until everything, an error or the end of the image; then mark it complete. */
    method Read(preads: seq<Pread>)
      requires prefetchBuffer != null && Holds(prefetchBuffer) && savedErrno == 0
      modifies this`done, this`savedErrno, this`complete, prefetchBuffer
      ensures complete && Holds(prefetchBuffer)
      ensures Clean(preads) && offset + count <= |file| ==> savedErrno == 0 && done == count
    {
      var k := 0;
      while done < count
        invariant k <= |preads| && Holds(prefetchBuffer) && savedErrno == 0
        decreases count - done, |preads| - k
      {
        var event := if k < |preads| then preads[k] else Bytes(count - done);
        k := if k < |preads| then k + 1 else k;
        if event.Interrupted? {
          continue;
        }
        if event.Error? {
          savedErrno := event.errno;
          break;
        }
        var available := if offset + done >= |file| then 0 else |file| - (offset + done);
        var ret := Min(Min(event.n, count - done), available);
        if ret == 0 {
          break;
        }
        Append(ret);
      }
      complete := true;
    }

    /** `encoded_prefetch_publish`: swap the buffers and leave the token. */
    method Publish(p: Piov)
      requires BuffersOk() && prefetchBuffer != null && Holds(prefetchBuffer) && prefetchBatchAcquired && complete
      requires offset == p.from && count == p.total
      modifies this`compressed, this`compressedCap, this`prefetchBuffer, this`prefetchCap, this`token
      ensures Valid() && token == Some(p) && compressed == old(prefetchBuffer) && prefetchBuffer == old(compressed)
    {
      assert complete;
      compressed, prefetchBuffer := prefetchBuffer, compressed;
      compressedCap, prefetchCap := prefetchCap, compressedCap;
      token := Some(p);
    }

    /** `encoded_read_ctx_begin_work`; its BUG_ON is the precondition. */
    method BeginWork()
      requires Valid() && !batchAcquired
      modifies this`batchAcquired
      ensures Valid() && batchAcquired
    {
      batchAcquired := true;
    }

    /** `encoded_read_ctx_end_work`: all buffers, the token and both leases are given up. */
    method EndWork()
      requires Valid()
      modifies this
      ensures Valid() && !batchAcquired && !prefetchBatchAcquired && token.None? && compressed == null
      ensures prefetchBuffer == null
    {
      if !batchAcquired {
        return;
      }
      Disable();
      compressed, compressedCap, batchAcquired := null, 0, false;
    }

    /** The state in which a request is processed, with or without a prefetch for the next one under way. */
    ghost predicate Processing(prefetching: bool)
      reads this, compressed, prefetchBuffer
    {
      && BuffersOk() && batchAcquired && token.None? && !complete
      && (prefetching ==> Holds(prefetchBuffer) && prefetchBatchAcquired && savedErrno == 0 && done == 0)
    }

    /** Make `compressed` hold the payload of `p`, by reading it unless it is there already. */
    method Load(p: Piov, ready: bool, memory: bool, payloadRead: bool, ghost prefetching: bool) returns (ok: bool)
      requires Processing(prefetching) && p.total > 0
      requires ready ==> compressed != null && p.total <= compressedCap && InFile(file, p)
                         && compressed[..p.total] == file[p.from..p.from + p.total]
      modifies this`compressed, this`compressedCap, compressed
      ensures Processing(prefetching)
      ensures ok ==> compressed != null && InFile(file, p) && p.total <= compressedCap
                     && compressed[..p.total] == file[p.from..p.from + p.total]
      ensures ok <==> ready || (payloadRead && InFile(file, p) && (old(compressedCap) >= p.total || memory))
      ensures compressed == old(compressed) || fresh(compressed)
    {
      if compressedCap < p.total {
        if !memory {
          return false;
        }
        compressed, compressedCap := new Byte[p.total], p.total;
      }
      if !ready {
        if !payloadRead || p.from + p.total > |file| {
          return false;
        }
        forall j | 0 <= j < p.total {
          compressed[j] := file[p.from + j];
        }
        assert compressed[..p.total] == file[p.from..p.from + p.total];
      }
      ok := true;
    }

    /**
     * `process_encoded_async_read` as far as the buffers go: `used` is the payload that is decoded. The
     * prefetch runs only beside a parallel batch, into the other buffer.
     */
    method Process(p: Piov, ready: bool, prefetching: bool, env: Environment) returns (ok: bool, used: seq<Byte>)
      requires Processing(prefetching)
      requires ready && p.total > 0 ==> compressed != null && p.total <= compressedCap && InFile(file, p)
                                        && compressed[..p.total] == file[p.from..p.from + p.total]
      modifies this`compressed, this`compressedCap, this`done, this`savedErrno, this`complete
      modifies compressed, prefetchBuffer
      ensures BuffersOk() && batchAcquired && (complete ==> prefetching) && (prefetching ==> Holds(prefetchBuffer))
      ensures ok ==> used == Slice(file, p.from, p.total) && |used| == p.total
      ensures ok && p.total > 0 ==> compressed != null && p.total <= compressed.Length && compressed[..p.total] == used
      ensures fresh(Footprint() - old(Footprint()))
      ensures env.memory && env.payloadRead && InFile(file, p) && Decodes(env) ==> ok
      ensures ok ==> Decodes(env) && (complete <==> prefetching && env.decoding.Parallel?)
      ensures complete && Clean(env.preads) && offset + count <= |file| ==> savedErrno == 0 && done == count
    {
      ok, used := false, [];
      if p.total > 0 {
        ok := Load(p, ready, env.memory, env.payloadRead, prefetching);
        if !ok {
          return;
        }
        used := compressed[..p.total];
      }
      match env.decoding
      case Early => ok := false;
      case Serial(good) => ok := good;
      case Parallel(good) =>
        if prefetching {
          Read(env.preads);
        }
        ok := good;
    }

    /** The next request is to be read ahead: it is eligible, and there are a lease and a buffer for it. */
    predicate Prepares(next: Option<Piov>, env: Environment)
      reads this
    {
      && next.Some? && env.eligible && next.value.total > 0
      && (prefetchBatchAcquired || env.lease) && (prefetchCap >= next.value.total || env.memory)
    }

    /** The first half of a batch: lease, token and the decision to read ahead. `stage` is negative on an error. */
    method OpenBatch(p: Piov, next: Option<Piov>, env: Environment) returns (stage: int, prepared: bool)
      requires Valid()
      modifies this
      ensures batchAcquired && compressed == old(compressed) && fresh(Footprint() - old(Footprint()))
      ensures stage < 0 <==>
                old(token).Some? && (old(token) != Some(p) || old(savedErrno) != 0 || old(done) != p.total)
      ensures (stage < 0 ==> Valid()) && (stage == 0 <==> old(token).None?)
      ensures stage >= 0 ==> Processing(prepared) && (old(token).None? || old(token) == Some(p))
      ensures stage > 0 ==> compressed != null && p.total <= compressedCap && InFile(file, p)
                            && compressed[..p.total] == file[p.from..p.from + p.total]
      ensures stage >= 0 ==> (prepared <==> old(Prepares(next, env)))
      ensures stage >= 0 && prepared ==> offset == next.value.from && count == next.value.total
    {
      prepared := false;
      if !batchAcquired {
        BeginWork();
      }
      stage := Take(p);
      if stage < 0 {
        return;
      }
      if next.Some? && env.eligible && next.value.total > 0 {
        prepared := Prepare(next.value, env.lease, env.memory);
      } else if prefetchBatchAcquired {
        Disable();
      }
    }

    /** The second half: after processing, the prefetch is published or given up. */
    method CloseBatch(next: Option<Piov>, prepared: bool, ok: bool)
      requires BuffersOk() && batchAcquired && token.None? && (complete ==> prepared)
      requires prepared ==>
                 && Holds(prefetchBuffer) && prefetchBatchAcquired
                 && next.Some? && offset == next.value.from && count == next.value.total
      modifies this
      ensures Valid() && batchAcquired && Footprint() <= old(Footprint())
      ensures token == if prepared && ok && old(complete) then next else None
      ensures token.Some? ==> old(complete) && savedErrno == old(savedErrno) && done == old(done)
    {
      if prepared {
        if !ok || !complete {
          Disable();
        } else {
          Publish(next.value);
        }
      }
    }

    /** A batch from its processing on. */
    method Finish(p: Piov, next: Option<Piov>, ready: bool, prepared: bool, env: Environment)
      returns (ok: bool, used: seq<Byte>)
      requires Processing(prepared)
      requires ready && p.total > 0 ==> compressed != null && p.total <= compressedCap && InFile(file, p)
                                        && compressed[..p.total] == file[p.from..p.from + p.total]
      requires prepared ==> next.Some? && offset == next.value.from && count == next.value.total
      modifies this, compressed, prefetchBuffer
      ensures Valid() && batchAcquired && fresh(Footprint() - old(Footprint()))
      ensures ok ==> used == Slice(file, p.from, p.total) && |used| == p.total
      ensures ok ==> token == if prepared && env.decoding.Parallel? then next else None
      ensures Good(env, file, p) ==> ok
      ensures ok && token.Some? && Clean(env.preads) && InFile(file, token.value) ==>
                savedErrno == 0 && done == token.value.total
    {
      ok, used := Process(p, ready, prepared, env);
      CloseBatch(next, prepared, ok);
    }

    /**
     * `encoded_async_read_batch`. If it succeeds, the payload decoded for `p` is exactly its range of the
     * image, whether it was read ahead or now, and the context is ready for the next request.
     */
    method Batch(p: Piov, next: Option<Piov>, env: Environment) returns (ok: bool, used: seq<Byte>)
      requires Valid()
      modifies this, compressed, prefetchBuffer
      ensures Valid() && batchAcquired && fresh(Footprint() - old(Footprint()))
      ensures ok ==> used == Slice(file, p.from, p.total) && |used| == p.total
      ensures ok ==> token == if env.decoding.Parallel? && old(Prepares(next, env)) then next else None
      ensures ok ==> old(token).None? || old(token) == Some(p)
      ensures Good(env, file, p) ==>
                (old(token).None? || (old(token) == Some(p) && old(savedErrno) == 0 && old(done) == p.total)) ==> ok
      ensures ok && token.Some? && Clean(env.preads) && InFile(file, token.value) ==>
                savedErrno == 0 && done == token.value.total
    {
      ok, used := false, [];
      var stage, prepared := OpenBatch(p, next, env);
      if stage < 0 {
        return;
      }
      ok, used := Finish(p, next, stage > 0, prepared, env);
    }
  }

  predicate Decodes(env: Environment) { !env.decoding.Early? && env.decoding.ok }

  /** Nothing goes wrong while reading ahead. */
  ghost predicate Clean(preads: seq<Pread>) {
    forall k :: 0 <= k < |preads| ==> preads[k].Interrupted? || (preads[k].Bytes? && preads[k].n > 0)
  }

  /** The environment lets the current request through; what happens to the prefetch does not matter. */
  predicate Good(env: Environment, file: seq<Byte>, p: Piov) {
    env.memory && env.payloadRead && Decodes(env) && InFile(file, p)
  }

  /** Every environment of the queue lets its request through and reads ahead cleanly. */
  ghost predicate AllGood(file: seq<Byte>, queue: seq<Piov>, envs: seq<Environment>)
    requires |envs| == |queue|
  {
    forall i :: 0 <= i < |queue| ==> Good(envs[i], file, queue[i]) && Clean(envs[i].preads)
  }

  /** The first |outs| requests were decoded from exactly their own ranges. */
  ghost predicate OwnRanges(file: seq<Byte>, queue: seq<Piov>, outs: seq<seq<Byte>>) {
    && |outs| <= |queue|
    && forall i :: 0 <= i < |outs| ==>
       |outs[i]| == queue[i].total && outs[i] == Slice(file, queue[i].from, queue[i].total)
  }

  lemma {:induction false} OwnNext(file: seq<Byte>, queue: seq<Piov>, outs: seq<seq<Byte>>, used: seq<Byte>)
    requires OwnRanges(file, queue, outs) && |outs| < |queue|
    requires var p := queue[|outs|]; used == Slice(file, p.from, p.total) && |used| == p.total
    ensures OwnRanges(file, queue, outs + [used])
  {
  }

  /** The context before request `i`: any prefetch is one for it, and a good one if the environment is. */
  ghost predicate ReadyFor(ctx: Context, queue: seq<Piov>, i: nat, good: bool)
    reads ctx, ctx.compressed
  {
    && ctx.Valid() && (ctx.token.Some? ==> i < |queue| && ctx.token.value == queue[i])
    && (good && ctx.token.Some? ==> ctx.savedErrno == 0 && ctx.done == ctx.token.value.total)
  }

  /** One request of the queue with the next one to look ahead to. */
  method ReadNext(ctx: Context, queue: seq<Piov>, i: nat, env: Environment, ghost good: bool)
    returns (ok: bool, used: seq<Byte>)
    requires i < |queue| && ReadyFor(ctx, queue, i, good)
    requires good ==> Good(env, ctx.file, queue[i]) && Clean(env.preads)
    requires good && i + 1 < |queue| ==> InFile(ctx.file, queue[i + 1])
    modifies ctx, ctx.compressed, ctx.prefetchBuffer
    ensures ctx.Valid() && fresh(ctx.Footprint() - old(ctx.Footprint())) && (good ==> ok)
    ensures ok ==> used == Slice(ctx.file, queue[i].from, queue[i].total) && |used| == queue[i].total
    ensures ok ==> ReadyFor(ctx, queue, i + 1, good)
  {
    var next := if i + 1 < |queue| then Some(queue[i + 1]) else None;
    ok, used := ctx.Batch(queue[i], next, env);
  }

  /**
   * A queue of requests, each followed by the next. Every request that succeeds was decoded from exactly its
   * own range of the image; and when the image has all the ranges and neither decoding nor reading fails,
   * all of them succeed, whatever the leases and the eligibility of the prefetches are.
   */
  method ReadAll(file: seq<Byte>, queue: seq<Piov>, envs: seq<Environment>) returns (ok: bool, outs: seq<seq<Byte>>)
    requires |envs| == |queue|
    ensures OwnRanges(file, queue, outs)
    ensures ok ==> |outs| == |queue|
    ensures AllGood(file, queue, envs) ==> ok
  {
    var ctx := new Context(file);
    ghost var good := AllGood(file, queue, envs);
    outs := [];
    ok := true;
    while |outs| < |queue|
      invariant ok && ReadyFor(ctx, queue, |outs|, good) && OwnRanges(file, queue, outs)
      invariant ctx.file == file && fresh(ctx.Footprint())
      decreases |queue| - |outs|
    {
      var used;
      assert good && |outs| + 1 < |queue| ==> Good(envs[|outs| + 1], file, queue[|outs| + 1]);
      ok, used := ReadNext(ctx, queue, |outs|, envs[|outs|], good);
      if !ok {
        break;
      }
      OwnNext(file, queue, outs, used);
      outs := outs + [used];
    }
    ctx.EndWork();
  }
}
