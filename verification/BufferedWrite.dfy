/**
 * Writing through a `bfd` (criu/bfd.c:136-154, 292-395): small writes gather in a
 * buffer that is flushed when the next one does not fit, large ones go straight out,
 * and an unbuffered vector is pushed out through any number of partial `writev` calls.
 * Either way the file must receive the plain concatenation of what was written.
 */
module BufferedWrite {
  import opened Common
  import opened Iovecs

  function Concat(pieces: seq<seq<Byte>>): seq<Byte> {
    if pieces == [] then [] else pieces[0] + Concat(pieces[1..])
  }

  lemma {:induction false} ConcatSnoc(pieces: seq<seq<Byte>>, last: seq<Byte>)
    ensures Concat(pieces + [last]) == Concat(pieces) + last
  {
    if pieces != [] {
      ConcatSnoc(pieces[1..], last);
      assert (pieces + [last])[1..] == pieces[1..] + [last];
    }
  }

  lemma {:induction false} ConcatTake(pieces: seq<seq<Byte>>, i: nat)
    requires i < |pieces|
    ensures Concat(pieces[..i + 1]) == Concat(pieces[..i]) + pieces[i]
  {
    assert pieces[..i + 1] == pieces[..i] + [pieces[i]];
    ConcatSnoc(pieces[..i], pieces[i]);
  }

  lemma {:induction false} ConcatPrefix(pieces: seq<seq<Byte>>, i: nat)
    requires i <= |pieces|
    ensures Concat(pieces[..i]) <= Concat(pieces)
  {
    if i > 0 {
      ConcatPrefix(pieces[1..], i - 1);
      assert pieces[..i][1..] == pieces[1..][..i - 1];
    }
  }

  lemma {:induction false} EntriesAhead(v: seq<Iovec>, j: nat, k: nat)
    requires j <= k < |v|
    ensures Start(v, j) + v[k].len <= Total(v)
  {
    StartMono(v, j, k);
    StartMono(v, k + 1, |v|);
  }

  // ---- The descriptor ----

  /** The I/O system's answer to one call. */
  datatype Answer = Failed(partial: nat) | Wrote(n: nat)

  type Answers = nat -> Answer

  /** No call fails and every call moves at least one byte if there is one. */
  ghost predicate Positive(answers: Answers) {
    forall i :: answers(i).Wrote? && answers(i).n > 0
  }

  class File {
    const answers: Answers
    var out: seq<Byte>     // what the file has received
    var ncalls: nat

    constructor (answers: Answers)
      ensures out == [] && this.answers == answers
    {
      this.answers, out, ncalls := answers, [], 0;
    }

    /** `write_all`: everything, or some beginning and an error. */
    method WriteAll(data: seq<Byte>) returns (ok: bool)
      modifies this
      ensures ok ==> out == old(out) + data
      ensures old(out) <= out <= old(out) + data
      ensures Positive(answers) ==> ok
    {
      var answer := answers(ncalls);
      ncalls := ncalls + 1;
      ok := answer.Wrote?;
      out := out + if ok then data else data[..Min(answer.partial, |data|)];
    }

    /** One `writev` of the entries from `first` on. */
    method Writev(m: seq<Byte>, iov: array<Iovec>, first: nat, ghost v: seq<Iovec>) returns (ret: Option<nat>)
      requires first <= iov.Length && v == iov[first..] && Fits(v, |m|)
      modifies this
      ensures ret.None? ==> out == old(out)
      ensures ret.Some? ==> ret.value <= |Gather(m, v)| && out == old(out) + Gather(m, v)[..ret.value]
      ensures Positive(answers) ==> ret.Some? && (ret.value == 0 ==> Gather(m, v) == [])
    {
      var answer := answers(ncalls);
      ncalls := ncalls + 1;
      if answer.Failed? {
        return None;
      }
      var rest := Gather(m, iov[first..]);
      ret := Some(Min(answer.n, |rest|));
      out := out + rest[..ret.value];
    }
  }

  /** The bytes of `v` up to entry `first` and `off` bytes of it have been written. */
  ghost predicate At(v: seq<Iovec>, first: nat, off: nat, done: nat) {
    && first <= |v|
    && done == Start(v, first) + off
    && (off > 0 ==> first < |v| && off < v[first].len)
    && (first == |v| > 0 ==> v[|v| - 1].len > 0)
  }

  /** What is left at `first` is nothing only past the end, or when the last entry is empty. */
  lemma {:induction false} AtEnd(m: seq<Byte>, v: seq<Iovec>, first: nat, off: nat, done: nat)
    requires Fits(v, |m|) && At(v, first, off, done)
    ensures done <= |Gather(m, v)|
    ensures first == |v| ==> done == |Gather(m, v)|
    ensures first < |v| && v[|v| - 1].len > 0 ==> done < |Gather(m, v)|
  {
    GatherDrop(m, v, first);
    if first < |v| {
      EntriesAhead(v, first, first);
      EntriesAhead(v, first, |v| - 1);
    }
  }

  /** The inner loop of `bwritev`: move the cursor over `ret` more bytes. */
  method Advance(ghost m: seq<Byte>, iov: array<Iovec>, first: nat, off: nat, ret: nat, ghost done: nat)
    returns (first': nat, off': nat)
    requires Fits(iov[..], |m|) && At(iov[..], first, off, done) && ret > 0
    requires done + ret <= |Gather(m, iov[..])|
    ensures At(iov[..], first', off', done + ret)
  {
    ghost var v, target := iov[..], done + ret;
    var left: nat := ret + off;
    first', off' := first, 0;
    GatherDrop(m, v, |v|);
    while left > 0
      invariant first' <= |v| && off' == 0
      invariant Start(v, first') + left == target
      invariant left == 0 && first' == |v| > 0 ==> v[|v| - 1].len > 0
      decreases iov.Length - first'
    {
      assert first' < |v|;
      StartMono(v, first' + 1, |v|);
      if iov[first'].len > left {
        off' := left;
        return;
      }
      left, first' := left - iov[first'].len, first' + 1;
    }
  }

  lemma {:induction false} Sent(was: seq<Byte>, flat: seq<Byte>, done: nat, n: nat)
    requires done + n <= |flat|
    ensures was + flat[..done] + flat[done..][..n] == was + flat[..done + n]
    ensures was <= was + flat[..done + n] <= was + flat
  {
    assert flat[..done] + flat[done..][..n] == flat[..done + n];
  }

  /**
   * The unbuffered `bwritev`. The caller's array is as before, whatever happens, and
   * the file has received a beginning of the data: all of it when the call succeeds.
   * With calls that always move something the data is always written out, but the
   * call reports success exactly when the last entry is not empty (or there is none).
   */
  method WriteVector(f: File, m: seq<Byte>, iov: array<Iovec>) returns (written: Option<nat>)
    requires Fits(iov[..], |m|)
    modifies f, iov
    ensures iov[..] == old(iov[..])
    ensures old(f.out) <= f.out <= old(f.out) + Gather(m, iov[..])
    ensures written.Some? ==> f.out == old(f.out) + Gather(m, iov[..]) && written.value == |Gather(m, iov[..])|
    ensures Positive(f.answers) ==> f.out == old(f.out) + Gather(m, iov[..])
    ensures Positive(f.answers) ==> (written.Some? <==> iov.Length == 0 || iov[iov.Length - 1].len > 0)
    ensures written.Some? && iov.Length > 0 ==> iov[iov.Length - 1].len > 0
  {
    ghost var v, flat, was := iov[..], Gather(m, iov[..]), f.out;
    var first: nat, off: nat, done: nat := 0, 0, 0;
    AtEnd(m, v, 0, 0, 0);
    while first < iov.Length
      invariant iov[..] == v && At(v, first, off, done) && done <= |flat|
      invariant f.out == was + flat[..done]
      decreases |flat| - done
    {
      AtEnd(m, v, first, off, done);
      Sent(was, flat, done, 0);
      var ret := WriteShifted(f, m, iov, first, off, done);
      if ret.None? || ret.value == 0 {
        return None;
      }
      Sent(was, flat, done, ret.value);
      first, off := Advance(m, iov, first, off, ret.value, done);
      done := done + ret.value;
    }
    AtEnd(m, v, first, off, done);
    written := Some(done);
  }

  /** One `writev` with the first entry shortened for the call and put back after it. */
  method WriteShifted(f: File, m: seq<Byte>, iov: array<Iovec>, first: nat, off: nat, ghost done: nat)
    returns (ret: Option<nat>)
    requires Fits(iov[..], |m|) && At(iov[..], first, off, done) && first < iov.Length
    modifies f, iov
    ensures iov[..] == old(iov[..]) && done <= |Gather(m, iov[..])|
    ensures ret.None? ==> f.out == old(f.out)
    ensures ret.Some? ==> ret.value <= |Gather(m, iov[..])| - done
    ensures ret.Some? ==> f.out == old(f.out) + Gather(m, iov[..])[done..][..ret.value]
    ensures Positive(f.answers) ==> ret.Some? && (ret.value == 0 ==> done == |Gather(m, iov[..])|)
  {
    ghost var v := iov[..];
    ghost var shifted := v[first := Skip(v[first], off)];
    GatherSkip(m, v, first, off);
    iov[first] := Skip(iov[first], off);
    assert iov[..] == shifted;
    ret := f.Writev(m, iov, first, shifted[first..]);
    iov[first] := Iovec(iov[first].base - off, iov[first].len + off);
    assert iov[..] == shifted[first := v[first]] == v;
  }

  /** Two entries, the second empty: everything is written and the call still reports an error. */
  method TrailingEmptyEntry(f: File) returns (written: Option<nat>)
    requires Positive(f.answers)
    modifies f
    ensures written == None && f.out == old(f.out) + [7]
  {
    var iov := new Iovec[2] [Iovec(0, 1), Iovec(0, 0)];
    assert iov[..] == [Iovec(0, 1), Iovec(0, 0)];
    written := WriteVector(f, [7], iov);
    assert [Iovec(0, 1), Iovec(0, 0)][..1] == [Iovec(0, 1)] && [Iovec(0, 1)][..0] == [];
    assert Gather([7], [Iovec(0, 1)]) == [7];
  }

  // ---- Buffered writing ----

  class Writer {
    const file: File
    const mem: array<Byte>
    var sz: nat

    ghost predicate Valid()
      reads this
    {
      sz <= mem.Length
    }

    /** Everything accepted so far: the file and then the buffer. */
    ghost function Accepted(): seq<Byte>
      requires Valid()
      reads this, mem, file
    {
      file.out + mem[..sz]
    }

    constructor (file: File, size: nat)
      ensures Valid() && this.file == file && fresh(mem) && Accepted() == file.out
    {
      this.file, mem, sz := file, new Byte[size], 0;
    }

    /** `bflush`. */
    method Flush() returns (ok: bool)
      requires Valid()
      modifies this, file
      ensures Valid() && (ok ==> sz == 0 && file.out == old(Accepted()))
      ensures old(file.out) <= file.out <= old(Accepted())
      ensures Positive(file.answers) ==> ok
    {
      if sz == 0 {
        return true;
      }
      ok := file.WriteAll(mem[..sz]);
      if ok {
        sz := 0;
      }
    }

    /** `__bwrite`. */
    method Write(data: seq<Byte>) returns (ok: bool)
      requires Valid()
      modifies this, file, mem
      ensures Valid() && (ok ==> Accepted() == old(Accepted()) + data)
      ensures old(file.out) <= file.out <= old(Accepted()) + data
      ensures old(sz) + |data| <= mem.Length ==> ok && file.out == old(file.out)
      ensures ok && old(sz) + |data| > mem.Length ==>
                file.out == old(Accepted()) + if |data| > mem.Length then data else []
      ensures Positive(file.answers) ==> ok
    {
      if sz + |data| > mem.Length {
        ok := Flush();
        if !ok {
          return false;
        }
      }
      if |data| > mem.Length {
        ok := file.WriteAll(data);
        return;
      }
      ghost var before := mem[..sz];
      forall i | 0 <= i < |data| {
        mem[sz + i] := data[i];
      }
      assert mem[..sz + |data|] == before + data;
      sz := sz + |data|;
      ok := true;
    }

    /** The buffered `bwritev`, and equally any run of writes: stop at the first failure. */
    method WriteEach(pieces: seq<seq<Byte>>) returns (ok: bool)
      requires Valid()
      modifies this, file, mem
      ensures Valid() && (ok ==> Accepted() == old(Accepted()) + Concat(pieces))
      ensures old(file.out) <= file.out <= old(Accepted()) + Concat(pieces)
      ensures Positive(file.answers) ==> ok
    {
      ok := true;
      for i := 0 to |pieces|
        invariant Valid() && Accepted() == old(Accepted()) + Concat(pieces[..i])
        invariant old(file.out) <= file.out
      {
        ConcatTake(pieces, i);
        ConcatPrefix(pieces, i + 1);
        ok := Write(pieces[i]);
        if !ok {
          return;
        }
      }
      assert pieces[..|pieces|] == pieces;
    }
  }

  /** The process-wide record of failed flushes, asked for once at the end of a dump. */
  class Flushes {
    var failed: bool

    constructor ()
      ensures !failed
    {
      failed := false;
    }

    /** `bclose` of a writable buffered file. */
    method Close(w: Writer)
      requires w.Valid()
      modifies this, w, w.file
      ensures old(w.file.out) <= w.file.out <= old(w.Accepted())
      ensures !failed ==> !old(failed) && w.file.out == old(w.Accepted())
      ensures Positive(w.file.answers) ==> failed == old(failed)
    {
      var ok := w.Flush();
      if !ok {
        failed := true;
      }
    }
  }

  /** What is to be written into one image and how the I/O system answers for it. */
  datatype Image = Image(pieces: seq<seq<Byte>>, answers: Answers, size: nat)

  /**
   * Any number of image files, each written piece by piece and closed. If no write
   * failed and the flag asked for at the end is clear, then every file has received
   * exactly its pieces in order; and if no call to the I/O system fails, it is clear.
   */
  method WriteImages(images: seq<Image>) returns (outs: seq<seq<Byte>>, ok: bool)
    ensures ok ==> |outs| == |images|
    ensures ok ==> forall i :: 0 <= i < |outs| ==> outs[i] == Concat(images[i].pieces)
    ensures (forall i :: 0 <= i < |images| ==> Positive(images[i].answers)) ==> ok
  {
    var flushes := new Flushes();
    outs := [];
    for i := 0 to |images|
      invariant |outs| == i
      invariant !flushes.failed ==> forall k :: 0 <= k < i ==> outs[k] == Concat(images[k].pieces)
      invariant (forall k :: 0 <= k < i ==> Positive(images[k].answers)) ==> !flushes.failed
      invariant fresh(flushes)
    {
      var file := new File(images[i].answers);
      var w := new Writer(file, images[i].size);
      ok := w.WriteEach(images[i].pieces);
      if !ok {
        return outs, false;
      }
      flushes.Close(w);
      outs := outs + [file.out];
    }
    ok := !flushes.failed;
  }
}
