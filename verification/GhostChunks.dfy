/**
 * Contents of unlinked ("ghost") files (criu/files-reg.c:171-226, 314-362). A sparse
 * file is dumped as chunks found by seeking for data and holes, each copied by any
 * number of partial transfers, and put back into a file of the recorded size.
 */
module GhostChunks {
  import opened Common

  /** The answers of lseek; Failed is any error but ENXIO. */
  datatype Seek = At(pos: nat) | NoData | Failed

  datatype Seeks = Seeks(data: nat -> Seek, hole: nat -> Seek)

  ghost predicate AllZero(content: seq<Byte>, lo: nat, hi: nat) {
    forall i :: lo <= i < hi && i < |content| ==> content[i] == 0
  }

  /**
   * What a file system may answer: only zeros are skipped on the way to data, data
   * is reported inside the file, and a hole behind it and not beyond the end.
   */
  ghost predicate Legal(content: seq<Byte>, seeks: Seeks) {
    && (forall o: nat :: o < |content| && seeks.data(o).At? ==>
          o <= seeks.data(o).pos < |content| && AllZero(content, o, seeks.data(o).pos))
    && (forall o: nat :: o < |content| && seeks.data(o).NoData? ==> AllZero(content, o, |content|))
    && (forall d: nat :: d < |content| && seeks.hole(d).At? ==> d < seeks.hole(d).pos <= |content|)
  }

  /** No seek fails: or rather, either none, or the first one and so all of them. */
  ghost predicate Supported(seeks: Seeks) {
    seeks.data(0).Failed? || ((forall o :: !seeks.data(o).Failed?) && (forall o :: seeks.hole(o).At?))
  }

  datatype Chunk = Chunk(off: nat, data: seq<Byte>)

  /** The transfers of one chunk: bytes moved, at most as many as asked for, or None for an error. */
  type Transfers = nat -> Option<nat>

  ghost predicate Moves(moves: Transfers, i: nat) { moves(i).Some? && moves(i).value > 0 }

  /** From call `i` on, every transfer moves something until nothing is left. */
  ghost predicate MovesAll(moves: Transfers, i: nat, left: nat)
    decreases left
  {
    left == 0 || (Moves(moves, i) && MovesAll(moves, i + 1, left - Min(moves(i).value, left)))
  }

  /** `copy_chunk_from_file`, which takes a transfer of nothing for an error. */
  method CopyOut(content: seq<Byte>, off: nat, len: nat, moves: Transfers) returns (r: Option<seq<Byte>>)
    requires off + len <= |content|
    ensures r.Some? ==> r.value == content[off..off + len]
    ensures r.Some? <==> MovesAll(moves, 0, len)
  {
    var o, left, data := off, len, [];
    var calls: nat := 0;
    while left > 0
      invariant off <= o && o + left == off + len && data == content[off..o]
      invariant MovesAll(moves, 0, len) <==> MovesAll(moves, calls, left)
    {
      var ret := moves(calls);
      calls := calls + 1;
      if ret.None? || ret.value == 0 {
        return None;
      }
      var n := Min(ret.value, left);
      assert content[off..o] + content[o..o + n] == content[off..o + n];
      data := data + content[o..o + n];
      o, left := o + n, left - n;
    }
    r := Some(data);
  }

  /** A file with `data` written to it from `off` on; writing beyond the end makes it longer. */
  function Written(f: seq<Byte>, off: nat, data: seq<Byte>): (r: seq<Byte>)
    ensures |r| == if data == [] || off + |data| <= |f| then |f| else off + |data|
    ensures forall i :: 0 <= i < |r| ==>
              r[i] == if off <= i < off + |data| then data[i - off] else if i < |f| then f[i] else 0
  {
    if data == [] then f
    else if off + |data| <= |f| then Overlay(f, off, data)
    else Overlay(f + Zeros(off + |data| - |f|), off, data)
  }

  lemma {:induction false} WrittenMore(f: seq<Byte>, off: nat, data: seq<Byte>, a: nat, n: nat)
    requires a + n <= |data|
    ensures Written(Written(f, off, data[..a]), off + a, data[a..a + n]) == Written(f, off, data[..a + n])
  {
  }

  /** The file that chunks put into an empty file of the given size make. */
  ghost function Built(size: nat, chunks: seq<Chunk>): seq<Byte>
    decreases |chunks|
  {
    if chunks == [] then Zeros(size)
    else
      var k := |chunks| - 1;
      Written(Built(size, chunks[..k]), chunks[k].off, chunks[k].data)
  }

  lemma {:induction false} BuiltNext(size: nat, chunks: seq<Chunk>, i: nat)
    requires i < |chunks|
    ensures Built(size, chunks[..i + 1]) == Written(Built(size, chunks[..i]), chunks[i].off, chunks[i].data)
  {
    assert chunks[..i + 1][..i] == chunks[..i];
  }

  lemma {:induction false} WholeBuilt(size: nat, chunks: seq<Chunk>)
    ensures Built(size, chunks[..|chunks|]) == Built(size, chunks)
  {
    assert chunks[..|chunks|] == chunks;
  }

  /** The chunks lie within a file of that size. */
  ghost predicate Fit(chunks: seq<Chunk>, size: nat) {
    forall i :: 0 <= i < |chunks| ==> chunks[i].off + |chunks[i].data| <= size
  }

  /** The chunks make the file up to `hole` and zeros behind it. */
  ghost predicate BuiltUpTo(content: seq<Byte>, chunks: seq<Chunk>, hole: nat) {
    && hole <= |content| == |Built(|content|, chunks)| && Fit(chunks, |content|)
    && forall i :: 0 <= i < |content| ==> Built(|content|, chunks)[i] == if i < hole then content[i] else 0
  }

  /** One more chunk, after zeros only. */
  lemma {:induction false} NextChunk(content: seq<Byte>, chunks: seq<Chunk>, hole: nat, data: nat, next: nat)
    requires BuiltUpTo(content, chunks, hole) && hole <= data <= next <= |content| && AllZero(content, hole, data)
    ensures BuiltUpTo(content, chunks + [Chunk(data, content[data..next])], next)
  {
    var c := Chunk(data, content[data..next]);
    assert (chunks + [c])[..|chunks|] == chunks;
    assert Built(|content|, chunks + [c]) == Written(Built(|content|, chunks), c.off, c.data);
  }

  /** Where the data at or behind `hole` starts and ends, if there is any. */
  method NextData(content: seq<Byte>, seeks: Seeks, hole: nat) returns (r: Option<(nat, nat)>, end: bool)
    requires Legal(content, seeks) && hole < |content|
    ensures r.Some? ==> !end && hole <= r.value.0 < r.value.1 <= |content| && AllZero(content, hole, r.value.0)
    ensures r.Some? && !seeks.data(0).Failed? ==>
              seeks.data(hole) == At(r.value.0) && seeks.hole(r.value.0) == At(r.value.1)
    ensures r.Some? && seeks.data(0).Failed? && hole == 0 ==> r.value == (0, |content|)
    ensures end <==> seeks.data(hole).NoData?
    ensures Supported(seeks) && (hole > 0 ==> !seeks.data(0).Failed?) ==> r.Some? || end
  {
    var d := seeks.data(hole);
    match d {
      case NoData => r, end := None, true;
      case Failed => r, end := if hole == 0 then Some((0, |content|)) else None, false;
      case At(data) =>
        var h := seeks.hole(data);
        r, end := if h.At? then Some((data, h.pos)) else None, false;
    }
  }

  /** Where the data before chunk `k` ends. */
  function EndBefore(chunks: seq<Chunk>, k: nat): nat
    requires k <= |chunks|
  {
    if k == 0 then 0 else chunks[k - 1].off + |chunks[k - 1].data|
  }

  /** Chunk `k` is the data that was found behind the chunk before it, up to the next hole. */
  ghost predicate FoundBySeeks(size: nat, seeks: Seeks, chunks: seq<Chunk>, k: nat)
    requires k < |chunks|
  {
    && EndBefore(chunks, k) < size && seeks.data(EndBefore(chunks, k)) == At(chunks[k].off)
    && seeks.hole(chunks[k].off) == At(EndBefore(chunks, k + 1))
  }

  /** The chunks are all data that seeking finds, or the whole file when the file system cannot seek. */
  ghost predicate FollowsSeeks(content: seq<Byte>, seeks: Seeks, chunks: seq<Chunk>) {
    if seeks.data(0).Failed? then chunks == if content == [] then [] else [Chunk(0, content)]
    else
      && (forall k :: 0 <= k < |chunks| ==> FoundBySeeks(|content|, seeks, chunks, k))
      && (EndBefore(chunks, |chunks|) == |content| || seeks.data(EndBefore(chunks, |chunks|)).NoData?)
  }

  ghost predicate Covered(chunks: seq<Chunk>, p: nat) {
    exists k :: 0 <= k < |chunks| && chunks[k].off <= p < chunks[k].off + |chunks[k].data|
  }

  lemma {:induction false} EndsGrow(content: seq<Byte>, seeks: Seeks, chunks: seq<Chunk>, j: nat, k: nat)
    requires Legal(content, seeks) && Fit(chunks, |content|) && j <= k <= |chunks|
    requires forall i :: 0 <= i < |chunks| ==> FoundBySeeks(|content|, seeks, chunks, i)
    ensures EndBefore(chunks, j) <= EndBefore(chunks, k)
    decreases k
  {
    if j < k {
      EndsGrow(content, seeks, chunks, j, k - 1);
      assert FoundBySeeks(|content|, seeks, chunks, k - 1);
    }
  }

  /** Where a hole was reported, from the end of one chunk to the data of the next, or to the end, nothing is dumped. */
  lemma {:induction false} HolesLeftOut(content: seq<Byte>, seeks: Seeks, chunks: seq<Chunk>, k: nat, p: nat)
    requires Legal(content, seeks) && Fit(chunks, |content|) && FollowsSeeks(content, seeks, chunks)
    requires !seeks.data(0).Failed? && k <= |chunks|
    requires EndBefore(chunks, k) <= p < if k < |chunks| then chunks[k].off else |content|
    ensures !Covered(chunks, p)
  {
    forall j | 0 <= j < |chunks|
      ensures !(chunks[j].off <= p < chunks[j].off + |chunks[j].data|)
    {
      assert FoundBySeeks(|content|, seeks, chunks, j);
      if j < k {
        EndsGrow(content, seeks, chunks, j + 1, k);
      } else if j > k {
        EndsGrow(content, seeks, chunks, k + 1, j);
        EndsGrow(content, seeks, chunks, k, j);
      }
    }
  }

  lemma {:induction false} AllBuilt(content: seq<Byte>, chunks: seq<Chunk>, hole: nat)
    requires BuiltUpTo(content, chunks, hole) && AllZero(content, hole, |content|)
    ensures Built(|content|, chunks) == content
  {
  }

  ghost predicate DumpedSoFar(content: seq<Byte>, seeks: Seeks, chunks: seq<Chunk>) {
    if seeks.data(0).Failed? then chunks == [] || (content != [] && chunks == [Chunk(0, content)])
    else forall k :: 0 <= k < |chunks| ==> FoundBySeeks(|content|, seeks, chunks, k)
  }

  lemma {:induction false} FoundNext(content: seq<Byte>, seeks: Seeks, chunks: seq<Chunk>, c: Chunk)
    requires DumpedSoFar(content, seeks, chunks) && EndBefore(chunks, |chunks|) < |content|
    requires seeks.data(0).Failed? ==> c == Chunk(0, content)
    requires !seeks.data(0).Failed? ==>
               seeks.data(EndBefore(chunks, |chunks|)) == At(c.off) && seeks.hole(c.off) == At(c.off + |c.data|)
    ensures DumpedSoFar(content, seeks, chunks + [c])
  {
    var chunks' := chunks + [c];
    forall k | 0 <= k < |chunks'|
      ensures !seeks.data(0).Failed? ==> FoundBySeeks(|content|, seeks, chunks', k)
    {
      assert k < |chunks| && !seeks.data(0).Failed? ==> FoundBySeeks(|content|, seeks, chunks, k);
    }
  }

  /** What holds before each turn of the loop of the dump. */
  ghost predicate DumpInv(content: seq<Byte>, seeks: Seeks, moves: nat -> Transfers, chunks: seq<Chunk>, hole: nat) {
    && BuiltUpTo(content, chunks, hole) && hole == EndBefore(chunks, |chunks|) && DumpedSoFar(content, seeks, chunks)
    && forall k :: 0 <= k < |chunks| ==> MovesAll(moves(k), 0, |chunks[k].data|)
  }

  /** The data behind `hole` is from `data` to `hole'`. */
  ghost predicate Next(content: seq<Byte>, seeks: Seeks, hole: nat, data: nat, hole': nat) {
    && hole <= data < hole' <= |content| && AllZero(content, hole, data)
    && if seeks.data(0).Failed? then data == 0 && hole' == |content|
       else seeks.data(hole) == At(data) && seeks.hole(data) == At(hole')
  }

  lemma {:induction false} DumpNext(content: seq<Byte>, seeks: Seeks, moves: nat -> Transfers, chunks: seq<Chunk>,
          hole: nat, data: nat, hole': nat)
    requires DumpInv(content, seeks, moves, chunks, hole) && hole < |content|
    requires Next(content, seeks, hole, data, hole')
    requires MovesAll(moves(|chunks|), 0, hole' - data)
    ensures DumpInv(content, seeks, moves, chunks + [Chunk(data, content[data..hole'])], hole')
  {
    var c := Chunk(data, content[data..hole']);
    assert content[..|content|] == content;
    NextChunk(content, chunks, hole, data, hole');
    FoundNext(content, seeks, chunks, c);
    forall k | 0 <= k < |chunks + [c]|
      ensures MovesAll(moves(k), 0, |(chunks + [c])[k].data|)
    {
      assert k < |chunks| ==> MovesAll(moves(k), 0, |chunks[k].data|);
    }
  }

  /** The copy of the data found behind `hole`. */
  method DumpChunk(content: seq<Byte>, seeks: Seeks, moves: nat -> Transfers, chunks: seq<Chunk>, hole: nat, data: nat,
          hole': nat)
    returns (r: Option<Chunk>)
    requires DumpInv(content, seeks, moves, chunks, hole) && hole < |content|
    requires Next(content, seeks, hole, data, hole')
    ensures r.Some? ==> DumpInv(content, seeks, moves, chunks + [r.value], hole')
    ensures r.Some? <==> MovesAll(moves(|chunks|), 0, hole' - data)
  {
    var copied := CopyOut(content, data, hole' - data, moves(|chunks|));
    if copied.None? {
      return None;
    }
    assert copied.value == content[data..hole'];
    DumpNext(content, seeks, moves, chunks, hole, data, hole');
    r := Some(Chunk(data, copied.value));
  }

  lemma {:induction false} DumpEnds(content: seq<Byte>, seeks: Seeks, moves: nat -> Transfers, chunks: seq<Chunk>,
          hole: nat)
    requires Legal(content, seeks) && DumpInv(content, seeks, moves, chunks, hole)
    requires hole == |content| || seeks.data(hole).NoData?
    ensures Fit(chunks, |content|) && Built(|content|, chunks) == content && FollowsSeeks(content, seeks, chunks)
  {
    AllBuilt(content, chunks, hole);
  }

  /**
   * `copy_file_to_chunks`: the chunks are what seeking finds, without the holes, and make the file. It fails only on
   * a seek or a transfer that fails.
   */
  method Dump(content: seq<Byte>, seeks: Seeks, moves: nat -> Transfers) returns (r: Option<seq<Chunk>>)
    requires Legal(content, seeks)
    ensures r.Some? ==> Fit(r.value, |content|) && Built(|content|, r.value) == content
    ensures r.Some? ==> FollowsSeeks(content, seeks, r.value)
    ensures r.Some? ==> forall k :: 0 <= k < |r.value| ==> MovesAll(moves(k), 0, |r.value[k].data|)
    ensures Supported(seeks) && (forall i, n :: MovesAll(moves(i), 0, n)) ==> r.Some?
  {
    var chunks: seq<Chunk> := [];
    var hole := 0;
    while hole < |content|
      invariant DumpInv(content, seeks, moves, chunks, hole)
      decreases |content| - hole
    {
      var next, end := NextData(content, seeks, hole);
      if end {
        break;
      }
      if next.None? {
        return None;
      }
      var c := DumpChunk(content, seeks, moves, chunks, hole, next.value.0, next.value.1);
      if c.None? {
        return None;
      }
      chunks, hole := chunks + [c.value], next.value.1;
    }
    DumpEnds(content, seeks, moves, chunks, hole);
    r := Some(chunks);
  }

  // ---- Restore ----

  /** A copy that is through, one that failed, and one that is still waiting for more transfers. */
  datatype Copy = Done | Error | Running

  /** The answers of the transfers so far. */
  type History = seq<Option<nat>>

  ghost predicate NoError(answers: History) { forall i :: 0 <= i < |answers| ==> answers[i].Some? }

  /** The bytes that transfers move, up to the first one that fails. */
  function Moved(answers: History): nat {
    if answers == [] || answers[0].None? then 0 else answers[0].value + Moved(answers[1..])
  }

  /** Where a copy of `len` bytes stands after these answers. */
  ghost predicate Stands(len: nat, answers: History, r: Copy) {
    match r
    case Done => Moved(answers) >= len
    case Error => Moved(answers) < len && !NoError(answers)
    case Running => Moved(answers) < len && NoError(answers)
  }

  lemma {:induction false} NoErrorRest(answers: History)
    requires NoError(answers) && answers != []
    ensures NoError(answers[1..])
  {
    forall i | 0 <= i < |answers[1..]|
      ensures answers[1..][i].Some?
    {
      assert answers[i + 1].Some?;
    }
  }

  lemma {:induction false} MovedNext(answers: History, n: nat)
    requires n < |answers| && NoError(answers[..n])
    ensures answers[n].Some? ==> Moved(answers[..n + 1]) == Moved(answers[..n]) + answers[n].value
    ensures answers[n].None? ==> Moved(answers) == Moved(answers[..n])
  {
    if n > 0 {
      assert answers[0] == answers[..n][0];
      assert answers[..n][1..] == answers[1..][..n - 1] && answers[..n + 1][1..] == answers[1..][..n];
      NoErrorRest(answers[..n]);
      MovedNext(answers[1..], n - 1);
    } else {
      assert answers[..1][1..] == [];
    }
  }

  lemma {:induction false} MovedMono(answers: History, n: nat)
    requires n <= |answers|
    ensures Moved(answers[..n]) <= Moved(answers)
  {
    if n > 0 && answers[0].Some? {
      MovedMono(answers[1..], n - 1);
      assert answers[..n][1..] == answers[1..][..n - 1];
    }
  }

  /** `sent` of `len` bytes have been sent in the first `calls` transfers. */
  ghost predicate Sent(len: nat, answers: History, calls: nat, sent: nat) {
    calls <= |answers| && NoError(answers[..calls]) && sent == Min(Moved(answers[..calls]), len)
  }

  lemma {:induction false} SentNext(len: nat, answers: History, calls: nat, sent: nat)
    requires Sent(len, answers, calls, sent) && sent < len && calls < |answers|
    ensures answers[calls].None? ==> Stands(len, answers, Error) && sent == Min(Moved(answers), len)
    ensures answers[calls].Some? ==> Sent(len, answers, calls + 1, sent + Min(answers[calls].value, len - sent))
  {
    MovedNext(answers, calls);
    assert forall i :: 0 <= i < calls ==> answers[..calls + 1][i] == answers[..calls][i];
  }

  lemma {:induction false} SentAll(len: nat, answers: History, calls: nat, sent: nat)
    requires Sent(len, answers, calls, sent) && (sent == len || calls == |answers|)
    ensures Stands(len, answers, if sent < len then Running else Done) && sent == Min(Moved(answers), len)
  {
    MovedMono(answers, calls);
    assert calls == |answers| ==> answers[..calls] == answers;
  }

  /** The first `n` chunks were transferred. */
  ghost predicate FirstMoved(chunks: seq<Chunk>, answers: nat -> History, n: nat) {
    n <= |chunks| && forall i :: 0 <= i < n ==> Moved(answers(i)) >= |chunks[i].data|
  }

  /** `n` transfers of nothing. */
  function Nothing(n: nat): History { seq(n, _ => Some(0)) }

  /** An image that ends inside a chunk: however often the transfer is repeated, the copy neither ends nor fails. */
  lemma {:induction false} TruncatedNeverEnds(have: nat, len: nat, n: nat)
    requires have < len
    ensures Stands(len, [Some(have)] + Nothing(n), Running)
  {
    var answers := [Some(have)] + Nothing(n);
    assert answers[1..] == Nothing(n);
    NothingMoves(n);
  }

  lemma {:induction false} NothingMoves(n: nat)
    ensures Moved(Nothing(n)) == 0
  {
    if n > 0 {
      assert Nothing(n)[1..] == Nothing(n - 1);
      NothingMoves(n - 1);
    }
  }

  /** A file that has just been created. */
  class Target {
    var content: seq<Byte>

    constructor ()
      ensures content == []
    {
      content := [];
    }

    method Truncate(size: nat)
      modifies this
      ensures content == if size <= old(|content|) then old(content[..size])
              else old(content) + Zeros(size - old(|content|))
    {
      content := if size <= |content| then content[..size] else content + Zeros(size - |content|);
    }

    /** One transfer: the bytes from `sent` on continue those before. */
    method Store(off: nat, data: seq<Byte>, sent: nat, n: nat, ghost was: seq<Byte>)
      requires sent + n <= |data| && content == Written(was, off, data[..sent])
      modifies this
      ensures content == Written(was, off, data[..sent + n])
    {
      WrittenMore(was, off, data, sent, n);
      content := Written(content, off + sent, data[sent..sent + n]);
    }

    /**
     * `copy_chunk_to_file`, which repeats a transfer of nothing. The chunk is copied as far as the answers
     * go, and the call is through, has failed or still runs accordingly.
     */
    method CopyIn(off: nat, data: seq<Byte>, answers: History) returns (r: Copy)
      modifies this
      ensures Stands(|data|, answers, r)
      ensures content == Written(old(content), off, data[..Min(Moved(answers), |data|)])
    {
      var sent: nat, calls: nat := 0, 0;
      ghost var was := content;
      while sent < |data| && calls < |answers|
        invariant Sent(|data|, answers, calls, sent) && content == Written(was, off, data[..sent])
      {
        var ret := answers[calls];
        SentNext(|data|, answers, calls, sent);
        if ret.None? {
          return Error;
        }
        var n := Min(ret.value, |data| - sent);
        Store(off, data, sent, n, was);
        sent, calls := sent + n, calls + 1;
      }
      SentAll(|data|, answers, calls, sent);
      r := if sent < |data| then Running else Done;
    }

    /** One turn of `copy_file_from_chunks`. */
    method RestoreOne(chunks: seq<Chunk>, size: nat, i: nat, answers: nat -> History) returns (r: Copy)
      requires i < |chunks| && content == Built(size, chunks[..i]) && FirstMoved(chunks, answers, i)
      modifies this
      ensures Stands(|chunks[i].data|, answers(i), r)
      ensures r.Done? ==> content == Built(size, chunks[..i + 1]) && FirstMoved(chunks, answers, i + 1)
      ensures !r.Done? ==> !FirstMoved(chunks, answers, |chunks|)
    {
      var c := chunks[i];
      r := CopyIn(c.off, c.data, answers(i));
      assert c.data[..|c.data|] == c.data;
      BuiltNext(size, chunks, i);
    }

    /** `copy_file_from_chunks`: it stands where the first chunk does that is not through. */
    method Restore(chunks: seq<Chunk>, size: nat, answers: nat -> History) returns (r: Copy)
      requires content == []
      modifies this
      ensures r.Done? <==> FirstMoved(chunks, answers, |chunks|)
      ensures r.Done? ==> content == Built(size, chunks)
      ensures !r.Done? ==> exists i :: 0 <= i < |chunks| && FirstMoved(chunks, answers, i)
                                       && Stands(|chunks[i].data|, answers(i), r)
    {
      Truncate(size);
      for i := 0 to |chunks|
        invariant content == Built(size, chunks[..i]) && FirstMoved(chunks, answers, i)
      {
        r := RestoreOne(chunks, size, i, answers);
        if !r.Done? {
          return;
        }
      }
      WholeBuilt(size, chunks);
      r := Done;
    }
  }

  /**
   * Dumped and restored, a file has the contents it had, wherever its holes are. When the file system is
   * regular, the dump is always through, and the restore as soon as every chunk has been transferred.
   */
  method DumpAndRestore(content: seq<Byte>, seeks: Seeks, out: nat -> Transfers, back: nat -> History)
    returns (dumped: bool, r: Copy, restored: seq<Byte>)
    requires Legal(content, seeks)
    ensures r.Done? ==> restored == content
    ensures Supported(seeks) && (forall i, n :: MovesAll(out(i), 0, n)) ==> dumped
    ensures dumped && (forall i: nat :: Moved(back(i)) >= |content|) ==> r.Done?
    ensures dumped && (forall i: nat :: NoError(back(i))) ==> !r.Error?
  {
    var chunks := Dump(content, seeks, out);
    dumped, r, restored := chunks.Some?, Error, [];
    if dumped {
      var f := new Target();
      r := f.Restore(chunks.value, |content|, back);
      restored := f.content;
    }
  }
}
