/**
 * The reading half of the buffered file layer (`struct bfd`): a window of unread bytes in a buffer that is
 * refilled from the file and doubled when a piece does not fit. Everything is specified by the stream of
 * bytes that a reader has not consumed yet.
 */
module BufferedRead {
  import opened Common

  const BUFSIZE: nat := 4096
  const MAX_DYNAMIC_SIZE: nat := 2 * 1024 * 1024

  /** What `breadchr` returns: the end of the file, a piece, or an error. */
  datatype Piece = Null | Text(bytes: seq<Byte>) | Error

  // ---- The stream cut at a delimiter ----

  /** The position of the first `c`, or the length. */
  function IndexOf(s: seq<Byte>, c: Byte): (k: nat)
    ensures k <= |s| && c !in s[..k]
    ensures k < |s| ==> s[k] == c
  {
    if s == [] || s[0] == c then 0
    else
      var k := IndexOf(s[1..], c);
      assert s[..k + 1] == [s[0]] + s[1..][..k];
      k + 1
  }

  /** What is left after the first piece and its delimiter. */
  function AfterPiece(s: seq<Byte>, c: Byte): (r: seq<Byte>)
    requires s != []
    ensures |r| < |s|
  {
    var k := IndexOf(s, c);
    if k < |s| then s[k + 1..] else []
  }

  /** A file cut at the delimiter: an unterminated last piece counts, the nothing after a last delimiter does not. */
  function Split(s: seq<Byte>, c: Byte): seq<seq<Byte>>
    decreases |s|
  {
    if s == [] then [] else [s[..IndexOf(s, c)]] + Split(AfterPiece(s, c), c)
  }

  /** Every piece followed by the delimiter. */
  function Join(pieces: seq<seq<Byte>>, c: Byte): seq<Byte> {
    if pieces == [] then [] else pieces[0] + [c] + Join(pieces[1..], c)
  }

  /** The stream with its last piece terminated. */
  function Ended(s: seq<Byte>, c: Byte): seq<Byte> {
    if s == [] || s[|s| - 1] == c then s else s + [c]
  }

  lemma {:induction false} EndedAt(s: seq<Byte>, c: Byte, k: nat)
    requires k < |s| && s[k] == c
    ensures Ended(s, c) == s[..k] + [c] + Ended(s[k + 1..], c)
  {
    var rest := s[k + 1..];
    assert s == s[..k] + [c] + rest;
    assert rest != [] ==> s[|s| - 1] == rest[|rest| - 1];
  }

  lemma {:induction false} EndedStep(s: seq<Byte>, c: Byte)
    requires s != []
    ensures Ended(s, c) == s[..IndexOf(s, c)] + [c] + Ended(AfterPiece(s, c), c)
  {
    var k := IndexOf(s, c);
    if k < |s| {
      EndedAt(s, c, k);
    } else {
      assert s[..k] == s && s[|s| - 1] in s;
    }
  }

  /** Cutting loses nothing but the question whether the last piece was terminated. */
  lemma {:induction false} SplitJoin(s: seq<Byte>, c: Byte)
    ensures Join(Split(s, c), c) == Ended(s, c)
    decreases |s|
  {
    if s != [] {
      SplitJoin(AfterPiece(s, c), c);
      EndedStep(s, c);
      assert Split(s, c)[1..] == Split(AfterPiece(s, c), c);
    }
  }

  /** No piece has a delimiter inside. */
  lemma {:induction false} SplitClean(s: seq<Byte>, c: Byte, i: nat)
    requires i < |Split(s, c)|
    ensures c !in Split(s, c)[i]
    decreases |s|
  {
    var front, rest := s[..IndexOf(s, c)], Split(AfterPiece(s, c), c);
    assert Split(s, c) == [front] + rest;
    if i > 0 {
      SplitClean(AfterPiece(s, c), c, i - 1);
      assert Split(s, c)[i] == rest[i - 1];
    }
  }

  lemma {:induction false} IndexOfIs(s: seq<Byte>, c: Byte, k: nat)
    requires k <= |s| && (forall j :: 0 <= j < k ==> s[j] != c) && (k < |s| ==> s[k] == c)
    ensures IndexOf(s, c) == k
  {
  }

  /** A delimiter found in the beginning of a stream is the first of the stream. */
  lemma {:induction false} IndexOfExtend(s: seq<Byte>, t: seq<Byte>, c: Byte)
    ensures IndexOf(s, c) < |s| ==> IndexOf(s + t, c) == IndexOf(s, c)
    ensures IndexOf(s, c) == |s| ==> IndexOf(s + t, c) >= |s|
  {
    if s != [] && s[0] != c {
      IndexOfExtend(s[1..], t, c);
      assert (s + t)[1..] == s[1..] + t;
    }
  }

  // ---- Growing ----

  /** The largest size that doubling reaches without passing the dynamic limit. */
  function Limit(size: nat): (r: nat)
    requires size > 0
    ensures r >= size && 2 * r > MAX_DYNAMIC_SIZE && (r == size || r <= MAX_DYNAMIC_SIZE)
    decreases MAX_DYNAMIC_SIZE - size
  {
    if 2 * size > MAX_DYNAMIC_SIZE then size else Limit(2 * size)
  }

  /** A standard buffer can grow up to exactly the dynamic limit. */
  lemma {:induction false} StandardLimit()
    ensures Limit(BUFSIZE) == MAX_DYNAMIC_SIZE
  {
    assert Limit(MAX_DYNAMIC_SIZE / 2) == MAX_DYNAMIC_SIZE;
    assert Limit(MAX_DYNAMIC_SIZE / 8) == MAX_DYNAMIC_SIZE;
    assert Limit(MAX_DYNAMIC_SIZE / 32) == MAX_DYNAMIC_SIZE;
    assert Limit(MAX_DYNAMIC_SIZE / 128) == MAX_DYNAMIC_SIZE;
  }

  lemma {:induction false} Regroup(window: seq<Byte>, file: seq<Byte>, pos: nat, n: nat)
    requires pos + n <= |file|
    ensures window + file[pos..] == (window + file[pos..pos + n]) + file[pos + n..]
  {
    assert file[pos..] == file[pos..pos + n] + file[pos + n..];
  }

  lemma {:induction false} TakeMore(s: seq<Byte>, a: nat, b: nat)
    requires a + b <= |s|
    ensures s[..a] + s[a..][..b] == s[..a + b] && s[a..][b..] == s[a + b..]
  {
    assert s[a..][..b] == s[a..a + b];
  }

  /** How the I/O system fails a read, by the number of the read: after how many bytes, if at all. */
  type Faults = nat -> Option<nat>

  ghost predicate Faultless(faults: Faults) { forall n :: faults(n).None? }

  class Bfd {
    const file: seq<Byte>
    const faults: Faults
    var pos: nat            // offset of the descriptor
    var nreads: nat
    var mem: array<Byte>
    var data: nat           // start of the unread window in mem
    var sz: nat             // its length

    ghost predicate Valid()
      reads this, mem
    {
      mem.Length > 0 && data + sz <= mem.Length && pos <= |file|
    }

    /** The bytes that are still to come: the window and what the descriptor has not delivered. */
    ghost function Rest(): seq<Byte>
      requires Valid()
      reads this, mem
    {
      mem[data..data + sz] + file[pos..]
    }

    constructor (file: seq<Byte>, faults: Faults, size: nat)
      requires size > 0
      ensures Valid() && fresh(mem) && this.file == file && this.faults == faults
      ensures Rest() == file && mem.Length == size
      ensures pos == 0 && nreads == 0 && data == 0 && sz == 0
    {
      this.file, this.faults := file, faults;
      pos, nreads, data, sz := 0, 0, 0, 0;
      mem := new Byte[size];
    }

    /** The memmove of `brefill`. */
    method MoveToFront()
      requires Valid()
      modifies this`data, mem
      ensures Valid() && Rest() == old(Rest()) && data == 0 && mem[..sz] == old(mem[data..data + sz])
    {
      ghost var window := mem[data..data + sz];
      forall k | 0 <= k < sz {
        mem[k] := mem[data + k];
      }
      data := 0;
      assert mem[..sz] == window;
    }

    /** The read_all of `brefill`: `n` more bytes behind the window. */
    method Append(n: nat)
      requires Valid() && data == 0 && sz + n <= mem.Length && pos + n <= |file|
      modifies this`pos, this`sz, mem
      ensures Valid() && Rest() == old(Rest()) && sz == old(sz) + n && pos == old(pos) + n
    {
      ghost var window, more := mem[..sz], file[pos..pos + n];
      forall k | 0 <= k < n {
        mem[sz + k] := file[pos + k];
      }
      assert mem[..sz] == window && mem[sz..sz + n] == more;
      assert mem[..sz + n] == mem[..sz] + mem[sz..sz + n];
      Regroup(window, file, pos, n);
      pos, sz := pos + n, sz + n;
    }

    /** A read_all that fails after `n` bytes: they are behind the window, but the window does not grow. */
    method Lose(n: nat)
      requires Valid() && data == 0 && sz + n <= mem.Length && pos + n <= |file|
      modifies this`pos, mem
      ensures Valid() && pos == old(pos) + n && mem[..sz] == old(mem[..sz])
    {
      forall k | 0 <= k < n {
        mem[sz + k] := file[pos + k];
      }
      pos := pos + n;
    }

    /**
     * `brefill`: move the window to the front and fill the buffer; 0 when nothing came, -1 on an error. A read
     * that fails after some bytes loses them: the stream goes on behind the window without them.
     */
    method Refill() returns (ret: int)
      requires Valid()
      modifies this`pos, this`data, this`sz, this`nreads, mem
      ensures Valid() && data == 0 && ret in {-1, 0, 1}
      ensures ret >= 0 ==> Rest() == old(Rest()) && (sz == mem.Length || pos == |file|)
      ensures ret == 0 ==> sz == old(sz)
      ensures ret == 1 ==> sz > old(sz)
      ensures nreads == old(nreads) + 1
      ensures ret == -1 <==> faults(old(nreads)).Some? && old(sz) < mem.Length
      ensures ret == -1 ==> sz == old(sz) && Rest() == old(mem[data..data + sz]) + file[pos..]
      ensures ret == -1 ==>
                pos == old(pos) + Min(faults(old(nreads)).value, Min(mem.Length - sz, |file| - old(pos)))
      ensures ret == -1 ==> (Rest() == old(Rest()) <==> pos == old(pos))
    {
      ghost var window := mem[data..data + sz];
      MoveToFront();
      assert mem[..sz] == window;
      var fault := faults(nreads);
      nreads := nreads + 1;
      var n := Min(mem.Length - sz, |file| - pos);
      if mem.Length > sz && fault.Some? {
        Lose(Min(fault.value, n));
        return -1;
      }
      Append(n);
      ret := if n == 0 then 0 else 1;
    }

    /** `bextend`: a buffer of twice the size, unless that passes the limit. */
    method Extend() returns (ok: bool)
      requires Valid() && data == 0
      modifies this`mem
      ensures Valid() && Rest() == old(Rest()) && mem[..sz] == old(mem[..sz])
      ensures ok == (2 * old(mem.Length) <= MAX_DYNAMIC_SIZE)
      ensures ok ==> fresh(mem) && mem.Length == 2 * old(mem.Length)
      ensures !ok ==> mem == old(mem)
    {
      if 2 * mem.Length > MAX_DYNAMIC_SIZE {
        return false;
      }
      var grown := new Byte[2 * mem.Length];
      forall k | 0 <= k < sz {
        grown[k] := mem[k];
      }
      assert grown[..sz] == mem[..sz];
      mem := grown;
      ok := true;
    }

    /** A found piece leaves the buffer: it is followed by a NUL byte there. */
    method TakePiece(k: nat) returns (piece: seq<Byte>)
      requires Valid() && k < sz
      modifies this`data, this`sz, mem
      ensures Valid() && Rest() == old(Rest())[k + 1..] && piece == old(Rest())[..k]
      ensures k == data - old(data) - 1 && mem[data - 1] == 0 && mem[old(data)..data - 1] == piece
    {
      piece := mem[data..data + k];
      ghost var window := mem[data..data + sz];
      assert piece == window[..k] == Rest()[..k];
      mem[data + k] := 0;
      data, sz := data + k + 1, sz - k - 1;
      assert mem[data..data + sz] == window[k + 1..];
    }

    /** The last piece of a file lacks its delimiter and is returned anyway. */
    method TakeLast() returns (piece: seq<Byte>)
      requires Valid() && data == 0 && 0 < sz < mem.Length && pos == |file|
      modifies this`sz, mem
      ensures Valid() && Rest() == [] && piece == old(Rest())
      ensures mem[|piece|] == 0 && mem[..|piece|] == piece
    {
      ghost var window := mem[data..data + sz];
      mem[data + sz] := 0;
      piece := mem[data..data + sz];
      assert piece == window && window + file[pos..] == window;
      sz := 0;
    }

    /** The first `ss` bytes of the window have been searched. */
    ghost predicate Scanned(c: Byte, ss: nat)
      reads this, mem
    {
      data + ss <= mem.Length && ss <= sz && forall j :: data <= j < data + ss ==> mem[j] != c
    }

    /** `strnchr` from `ss` on: the first delimiter of the stream, if the window reaches it. */
    method Search(c: Byte, ss: nat) returns (k: nat)
      requires Valid() && Scanned(c, ss)
      ensures k <= sz
      ensures k < sz ==> IndexOf(Rest(), c) == k
      ensures k == sz ==> Scanned(c, sz) && IndexOf(Rest(), c) >= sz
    {
      k := ss;
      while k < sz && mem[data + k] != c
        invariant Scanned(c, k)
      {
        k := k + 1;
      }
      Window(c, k);
    }

    /** The window is the beginning of the stream. */
    lemma {:induction false} Window(c: Byte, k: nat)
      requires Valid() && Scanned(c, k) && (k < sz ==> mem[data + k] == c)
      ensures if k < sz then IndexOf(Rest(), c) == k else IndexOf(Rest(), c) >= sz
    {
      var window := mem[data..data + sz];
      IndexOfIs(window, c, k);
      IndexOfExtend(window, file[pos..], c);
    }

    /** After a refill without a delimiter: the end of the file, its last piece, or a larger buffer. */
    method NoDelimiter() returns (r: Option<Piece>)
      requires Valid() && data == 0 && (sz == mem.Length || pos == |file|)
      modifies this`sz, this`mem, mem
      ensures Valid() && Limit(mem.Length) == old(Limit(mem.Length)) && (mem == old(mem) || fresh(mem))
      ensures r.Some? && r.value.Null? ==> old(Rest()) == [] && Rest() == []
      ensures r.Some? && r.value.Text? ==>
                old(Rest()) == r.value.bytes != [] && |old(Rest())| < old(mem.Length) && Rest() == []
      ensures r.Some? && r.value.Error? ==>
                old(sz) == old(mem.Length) == old(Limit(mem.Length)) && Rest() == old(Rest())
      ensures r.None? ==>
                Rest() == old(Rest()) && sz == old(sz) && mem[..sz] == old(mem[..sz]) && old(mem.Length) < mem.Length
    {
      if sz == 0 {
        return Some(Null);
      }
      if sz < mem.Length {
        var piece := TakeLast();
        return Some(Text(piece));
      }
      var grown := Extend();
      r := if grown then None else Some(Error);
    }

    /** What `breadchr` must return for a stream that can use a buffer of `limit` bytes. */
    static ghost predicate ReadsPiece(rest: seq<Byte>, c: Byte, limit: nat, r: Piece, rest': seq<Byte>) {
      if rest == [] then r == Null && rest' == []
      else if IndexOf(rest, c) < limit then r == Text(rest[..IndexOf(rest, c)]) && rest' == AfterPiece(rest, c)
      else r == Error
    }

    static lemma LastPiece(rest: seq<Byte>, c: Byte, limit: nat)
      requires rest != [] && IndexOf(rest, c) == |rest| < limit
      ensures ReadsPiece(rest, c, limit, Text(rest), [])
    {
      assert rest[..|rest|] == rest;
    }

    /** Nothing was found in a full or final window. */
    method AfterMiss(c: Byte) returns (r: Option<Piece>)
      requires Valid() && Scanned(c, sz) && data == 0 && (sz == mem.Length || pos == |file|) && IndexOf(Rest(), c) >= sz
      modifies this`sz, this`mem, mem
      ensures Valid() && Limit(mem.Length) == old(Limit(mem.Length)) && (mem == old(mem) || fresh(mem))
      ensures r.Some? ==> ReadsPiece(old(Rest()), c, old(Limit(mem.Length)), r.value, Rest())
      ensures r.Some? && r.value.Error? ==> Rest() == old(Rest())
      ensures r.None? ==> Rest() == old(Rest()) && Scanned(c, sz) && mem.Length > old(mem.Length)
    {
      ghost var rest, window := Rest(), mem[..sz];
      r := NoDelimiter();
      if r.Some? && r.value.Text? {
        LastPiece(rest, c, Limit(mem.Length));
      }
      if r.None? {
        forall j | 0 <= j < sz
          ensures mem[j] != c
        {
          assert mem[..sz][j] == window[j];
        }
      }
    }

    /** The delimiter was found at `k`. */
    method TakeFound(c: Byte, k: nat) returns (r: Option<Piece>)
      requires Valid() && k < sz && IndexOf(Rest(), c) == k
      modifies this`data, this`sz, mem
      ensures Valid() && r.Some? && r.value.Text?
      ensures ReadsPiece(old(Rest()), c, Limit(mem.Length), r.value, Rest())
    {
      ghost var rest := Rest();
      var piece := TakePiece(k);
      r := Some(Text(piece));
    }

    /** One search of `breadchr`, and what follows when it finds nothing after a refill. */
    method Attempt(c: Byte, ss: nat, refilled: bool) returns (r: Option<Piece>)
      requires Valid() && Scanned(c, ss) && (refilled ==> data == 0 && (sz == mem.Length || pos == |file|))
      modifies this`data, this`sz, this`mem, mem
      ensures Valid() && Limit(mem.Length) == old(Limit(mem.Length)) && (mem == old(mem) || fresh(mem))
      ensures r.Some? ==> ReadsPiece(old(Rest()), c, old(Limit(mem.Length)), r.value, Rest())
      ensures r.Some? && r.value.Error? ==> Rest() == old(Rest())
      ensures r.None? ==> Rest() == old(Rest()) && Scanned(c, sz)
      ensures r.None? ==> if refilled then mem.Length > old(mem.Length) else mem == old(mem)
    {
      var k := Search(c, ss);
      if k < sz {
        r := TakeFound(c, k);
      } else if refilled {
        r := AfterMiss(c);
      } else {
        r := None;
      }
    }

    /** Refill behind a window that has been searched. */
    method RefillScanned(c: Byte) returns (ret: int)
      requires Valid() && Scanned(c, sz)
      modifies this`pos, this`data, this`sz, this`nreads, mem
      ensures Valid() && data == 0 && (ret >= 0 ==> Rest() == old(Rest()) && Scanned(c, old(sz)))
      ensures ret >= 0 ==> sz == mem.Length || pos == |file|
      ensures ret < 0 ==> faults(old(nreads)).Some?
    {
      ghost var before := mem[data..data + sz];
      ret := Refill();
      if ret >= 0 {
        forall j | 0 <= j < old(sz)
          ensures mem[j] != c
        {
          assert mem[..sz][j] == Rest()[j] == before[j];
        }
      }
    }

    /**
     * `breadchr`: the next piece of the stream. Without I/O errors it fails exactly when the piece does not
     * fit, with its terminator, into the largest buffer; neither the starting size, nor growing, nor
     * skipping what has been searched makes a difference.
     */
    method ReadChr(c: Byte) returns (r: Piece)
      requires Valid()
      modifies this, mem
      ensures Valid() && Limit(mem.Length) == old(Limit(mem.Length)) && (mem == old(mem) || fresh(mem))
      ensures r != Error ==> ReadsPiece(old(Rest()), c, old(Limit(mem.Length)), r, Rest())
      ensures Faultless(faults) && r == Error ==> ReadsPiece(old(Rest()), c, old(Limit(mem.Length)), r, Rest())
      ensures Faultless(faults) && r == Error ==> Rest() == old(Rest())
    {
      ghost var rest, limit := Rest(), Limit(mem.Length);
      var refilled := false;
      var ss: nat := 0;
      while true
        invariant Valid() && Rest() == rest && Limit(mem.Length) == limit && (mem == old(mem) || fresh(mem))
        invariant Scanned(c, ss) && (refilled ==> data == 0 && (sz == mem.Length || pos == |file|))
        decreases limit - mem.Length, !refilled
      {
        var found := Attempt(c, ss, refilled);
        if found.Some? {
          return found.value;
        }
        ss := sz;
        var ret := RefillScanned(c);
        if ret < 0 {
          return Error;
        }
        refilled := true;
      }
    }

    /** Copy the first `n` bytes of the window out. */
    method Consume(n: nat) returns (bytes: seq<Byte>)
      requires Valid() && n <= sz
      modifies this`data, this`sz
      ensures Valid() && bytes == old(Rest())[..n] && Rest() == old(Rest())[n..] && sz == old(sz) - n
    {
      bytes := mem[data..data + n];
      ghost var window := mem[data..data + sz];
      assert bytes == window[..n] == Rest()[..n];
      data, sz := data + n, sz - n;
      assert mem[data..data + sz] == window[n..];
    }

    /** `bread`: the next `size` bytes of the same stream, or as many as there are. */
    method Read(size: nat) returns (r: Option<seq<Byte>>)
      requires Valid()
      modifies this`pos, this`data, this`sz, this`nreads, mem
      ensures Valid()
      ensures r.Some? ==> var n := Min(size, |old(Rest())|); r.value == old(Rest())[..n] && Rest() == old(Rest())[n..]
      ensures Faultless(faults) ==> r.Some?
    {
      ghost var rest := Rest();
      var filled := [];
      var more := 1;
      while more > 0
        invariant Valid() && |filled| <= Min(size, |rest|) && filled == rest[..|filled|]
        invariant more >= 0 ==> Rest() == rest[|filled|..]
        invariant more == 0 ==> |filled| == Min(size, |rest|)
        invariant more < 0 ==> !Faultless(faults)
        decreases more > 0, size - |filled|, sz == 0
      {
        filled, more := ReadOn(size, filled, rest);
      }
      r := if more < 0 then None else Some(filled);
    }

    /** The refill of an empty or used-up window. */
    method RefillEmpty() returns (more: int)
      requires Valid()
      modifies this`pos, this`data, this`sz, this`nreads, mem
      ensures Valid() && (more >= 0 ==> Rest() == old(Rest())) && (more < 0 ==> !Faultless(faults))
      ensures more == 0 && old(sz) == 0 ==> Rest() == []
      ensures more > 0 ==> sz > old(sz)
    {
      more := Refill();
    }

    /** What the window has is added to what has been read. */
    method TakeOn(size: nat, filled: seq<Byte>, ghost rest: seq<Byte>) returns (filled': seq<Byte>)
      requires Valid() && |filled| <= Min(size, |rest|) && filled == rest[..|filled|] && Rest() == rest[|filled|..]
      modifies this`data, this`sz
      ensures Valid() && |filled| <= |filled'| <= Min(size, |rest|) && filled' == rest[..|filled'|]
      ensures Rest() == rest[|filled'|..] && (|filled'| < size ==> sz == 0)
      ensures (|filled'| == |filled| < size ==> old(sz) == 0)
    {
      var bytes := Consume(Min(size - |filled|, sz));
      filled' := filled + bytes;
      TakeMore(rest, |filled|, |bytes|);
    }

    /** One pass of the loop of `bread`. */
    method ReadOn(size: nat, filled: seq<Byte>, ghost rest: seq<Byte>) returns (filled': seq<Byte>, more: int)
      requires Valid() && |filled| <= Min(size, |rest|) && filled == rest[..|filled|] && Rest() == rest[|filled|..]
      modifies this`pos, this`data, this`sz, this`nreads, mem
      ensures Valid() && |filled'| <= Min(size, |rest|) && filled' == rest[..|filled'|]
      ensures more >= 0 ==> Rest() == rest[|filled'|..]
      ensures more == 0 ==> |filled'| == Min(size, |rest|)
      ensures more < 0 ==> !Faultless(faults)
      ensures more > 0 ==> |filled| <= |filled'| && (|filled| < |filled'| || (old(sz) == 0 && sz > 0))
    {
      filled' := TakeOn(size, filled, rest);
      if |filled'| < size {
        more := RefillEmpty();
      } else {
        more := 0;
      }
    }
  }

  /** A read of two bytes that fails after one: the refill fails and the stream goes on with the second. */
  method FailedRefillLoses() returns (f: Bfd, ret: int)
    ensures f.Valid() && f.file == [1, 2] && ret == -1 && f.Rest() == [2]
  {
    f := new Bfd([1, 2], _ => Some(1), 4);
    ret := f.Refill();
    assert f.pos == 1;
  }

  /** Every piece fits, with its terminator, into a buffer of `limit` bytes. */
  predicate PiecesFit(s: seq<Byte>, c: Byte, limit: nat)
    decreases |s|
  {
    s == [] || (IndexOf(s, c) < limit && PiecesFit(AfterPiece(s, c), c, limit))
  }

  ghost predicate AllShorter(pieces: seq<seq<Byte>>, limit: nat) {
    forall i :: 0 <= i < |pieces| ==> |pieces[i]| < limit
  }

  lemma {:induction false} AllShorterCons(front: seq<Byte>, rest: seq<seq<Byte>>, limit: nat)
    ensures AllShorter([front] + rest, limit) <==> |front| < limit && AllShorter(rest, limit)
  {
    var all := [front] + rest;
    assert all[0] == front;
    assert forall i :: 0 <= i < |rest| ==> rest[i] == all[i + 1];
    if AllShorter(all, limit) {
      forall i | 0 <= i < |rest|
        ensures |rest[i]| < limit
      {
        assert |all[i + 1]| < limit;
      }
    }
  }

  lemma {:induction false} PiecesFitMeans(s: seq<Byte>, c: Byte, limit: nat)
    ensures PiecesFit(s, c, limit) <==> AllShorter(Split(s, c), limit)
    decreases |s|
  {
    if s != [] {
      PiecesFitMeans(AfterPiece(s, c), c, limit);
      AllShorterCons(s[..IndexOf(s, c)], Split(AfterPiece(s, c), c), limit);
    }
  }

  /** What one call contributes to the cutting of the whole stream. */
  lemma {:induction false} PieceStep(rest: seq<Byte>, c: Byte, limit: nat, r: Piece, rest': seq<Byte>)
    requires Bfd.ReadsPiece(rest, c, limit, r, rest')
    ensures r.Null? ==> rest == []
    ensures r.Error? ==> !PiecesFit(rest, c, limit)
    ensures r.Text? ==> |rest'| < |rest| && Split(rest, c) == [r.bytes] + Split(rest', c)
    ensures r.Text? ==> (PiecesFit(rest, c, limit) <==> PiecesFit(rest', c, limit))
  {
  }

  /** `pieces` have been cut off the file and `rest` is left of it. */
  ghost predicate CutSoFar(file: seq<Byte>, c: Byte, limit: nat, pieces: seq<seq<Byte>>, rest: seq<Byte>) {
    && Split(file, c) == pieces + Split(rest, c)
    && (PiecesFit(file, c, limit) <==> PiecesFit(rest, c, limit))
  }

  lemma {:induction false} CutNext(file: seq<Byte>, c: Byte, limit: nat, pieces: seq<seq<Byte>>, rest: seq<Byte>,
          r: Piece, rest': seq<Byte>)
    requires CutSoFar(file, c, limit, pieces, rest) && Bfd.ReadsPiece(rest, c, limit, r, rest')
    ensures r.Null? ==> Split(file, c) == pieces && PiecesFit(file, c, limit)
    ensures r.Error? ==> !PiecesFit(file, c, limit)
    ensures r.Text? ==> |rest'| < |rest| && CutSoFar(file, c, limit, pieces + [r.bytes], rest')
  {
    PieceStep(rest, c, limit, r, rest');
    if r.Text? {
      assert pieces + ([r.bytes] + Split(rest', c)) == (pieces + [r.bytes]) + Split(rest', c);
    }
  }

  /** One more piece is cut off the file. */
  method CutOne(f: Bfd, ghost file: seq<Byte>, c: Byte, ghost pieces: seq<seq<Byte>>) returns (r: Piece)
    requires f.Valid() && CutSoFar(file, c, Limit(f.mem.Length), pieces, f.Rest())
    modifies f, f.mem
    ensures f.Valid() && Limit(f.mem.Length) == old(Limit(f.mem.Length)) && (f.mem == old(f.mem) || fresh(f.mem))
    ensures r.Null? ==> Split(file, c) == pieces && PiecesFit(file, c, Limit(f.mem.Length))
    ensures r.Error? && Faultless(f.faults) ==> !PiecesFit(file, c, Limit(f.mem.Length))
    ensures r.Text? ==> |f.Rest()| < old(|f.Rest()|)
    ensures r.Text? ==> CutSoFar(file, c, Limit(f.mem.Length), pieces + [r.bytes], f.Rest())
  {
    ghost var rest, limit := f.Rest(), Limit(f.mem.Length);
    r := f.ReadChr(c);
    if !r.Error? || Faultless(f.faults) {
      CutNext(file, c, limit, pieces, rest, r, f.Rest());
    }
  }

  /**
   * Reading pieces until NULL gives exactly the file cut at the delimiter, for every starting buffer size;
   * without I/O errors it fails exactly when some piece does not fit the largest buffer.
   */
  method ReadPieces(file: seq<Byte>, c: Byte, size: nat, faults: Faults) returns (ok: bool, pieces: seq<seq<Byte>>)
    requires size > 0
    ensures ok ==> pieces == Split(file, c) && PiecesFit(file, c, Limit(size))
    ensures Faultless(faults) && PiecesFit(file, c, Limit(size)) ==> ok
  {
    var f := new Bfd(file, faults, size);
    pieces := [];
    ghost var limit := Limit(size);
    while true
      invariant f.Valid() && fresh(f) && fresh(f.mem) && Limit(f.mem.Length) == limit && f.faults == faults
      invariant CutSoFar(file, c, limit, pieces, f.Rest())
      decreases |f.Rest()|
    {
      var r := CutOne(f, file, c, pieces);
      if !r.Text? {
        return r.Null?, pieces;
      }
      pieces := pieces + [r.bytes];
    }
  }

  /**
   * A file without delimiter that would just fill the largest buffer is refused for its missing room for a
   * terminator; one byte less is read.
   */
  method FullBufferRefused(size: nat, c: Byte, d: Byte) returns (ok: bool, less: bool, pieces: seq<seq<Byte>>)
    requires size > 0 && c != d
    ensures !ok && less
    ensures Limit(size) > 1 ==> pieces == [seq(Limit(size) - 1, _ => d)]
  {
    var file, shorter := seq(Limit(size), _ => d), seq(Limit(size) - 1, _ => d);
    IndexOfIs(file, c, |file|);
    IndexOfIs(shorter, c, |shorter|);
    assert shorter != [] ==> AfterPiece(shorter, c) == [] && PiecesFit([], c, Limit(size));
    var faults: Faults := _ => None;
    assert Faultless(faults);
    ok, pieces := ReadPieces(file, c, size, faults);
    less, pieces := ReadPieces(shorter, c, size, faults);
    assert Limit(size) > 1 ==> Split(shorter, c) == [shorter] by {
      assert shorter[..|shorter|] == shorter;
    }
  }
}
